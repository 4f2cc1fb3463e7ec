/** src/arch/atmega2560/encoder.c: quadrature decoding into a 16-bit counter, and the speeds taken from it. */
module Encoder {
  import opened Bytes
  import opened Int16

  /** _transition_table, indexed by the old pin pair times four plus the new one. */
  const TRANSITION_TABLE: seq<int> := [0, -1, 1, 0, 1, 0, 0, -1, -1, 0, 0, 1, 0, 1, -1, 0]

  /** The pin pair a shaft shows `q` quarter steps from a position showing 00. */
  function Gray(q: int): (pins: nat)
    ensures pins < 4
  {
    match q % 4
    case 0 => 0
    case 1 => 2
    case 2 => 3
    case _ => 1
  }

  /** The counter moves as the shaft did exactly when the shaft moved at most one quarter step. */
  lemma TableExact(q: int, q': int)
    ensures TRANSITION_TABLE[Gray(q) * 4 + Gray(q')] == q' - q <==> -1 <= q' - q <= 1
  {
    var d := q' - q;
    assert q' % 4 == (q % 4 + d % 4) % 4;
    if -1 <= d <= 1 {
      assert d % 4 == if d == -1 then 3 else d;
    }
  }

  /** Of any move the counter sees what is left modulo a full period of four; half a period counts as none. */
  lemma TableModulo(q: int, q': int)
    ensures var d := (q' - q) % 4;
            TRANSITION_TABLE[Gray(q) * 4 + Gray(q')] == if d == 1 then 1 else if d == 3 then -1 else 0
  {
    var d := q' - q;
    assert q' % 4 == (q % 4 + d % 4) % 4;
  }

  datatype Channel = Channel(currentValue: int, sampledValue: int, pinState: nat)

  /** One channel's share of the pin-change interrupt. */
  function Decode(ch: Channel, pins: nat): Channel
    requires ch.pinState < 4 && pins < 4
  {
    ch.(currentValue := Unsigned(ch.currentValue + TRANSITION_TABLE[ch.pinState * 4 + pins]), pinState := pins)
  }

  const NUM_ENCODERS: nat := 2

  class Encoders {
    const channels: array<Channel>

    ghost predicate Valid()
      reads this, channels
    {
      channels.Length == NUM_ENCODERS && channels[0].pinState < 4 && channels[1].pinState < 4
    }

    constructor ()
      ensures Valid() && fresh(channels)
      ensures channels[0] == channels[1] == Channel(0, 0, 0)
    {
      channels := new Channel[NUM_ENCODERS](_ => Channel(0, 0, 0));
    }

    /** ISR(PCINT0_vect); the low two port bits are encoder 0, the next two encoder 1. */
    method PinChange(port: byte)
      requires Valid()
      modifies channels
      ensures Valid()
      ensures channels[0] == Decode(old(channels[0]), port % 4)
      ensures channels[1] == Decode(old(channels[1]), port % 16 / 4)
    {
      hide Decode;
      var portValue := port % 16;
      // encoder 0
      UpdateChannel(0, portValue % 4);
      // encoder 1
      UpdateChannel(1, portValue / 4);
    }

    method UpdateChannel(i: nat, newPinState: nat)
      requires Valid() && i < NUM_ENCODERS && newPinState < 4
      modifies channels
      ensures Valid() && channels[i] == Decode(old(channels[i]), newPinState)
      ensures channels[1 - i] == old(channels[1 - i])
    {
      hide Unsigned;
      var idx := channels[i].pinState * 4 + newPinState;
      channels[i] := channels[i].(currentValue := Unsigned(channels[i].currentValue + TRANSITION_TABLE[idx]));
      channels[i] := channels[i].(pinState := newPinState);
    }

    method Sample()
      requires Valid()
      modifies channels
      ensures Valid()
      ensures forall i :: 0 <= i < NUM_ENCODERS ==>
                channels[i] == old(channels[i]).(sampledValue := old(channels[i]).currentValue)
    {
      for i := 0 to NUM_ENCODERS
        invariant forall j :: 0 <= j < NUM_ENCODERS ==>
          channels[j] == (if j < i then old(channels[j]).(sampledValue := old(channels[j]).currentValue) else old(channels[j]))
      {
        channels[i] := channels[i].(sampledValue := channels[i].currentValue);
      }
    }
  }

  // ---- runs of one channel

  /** A shaft moves to `position` and the pin-change interrupt runs, or the timer samples and takes a speed. */
  datatype Event = Move(position: int) | Tick

  /** `last` is the value of the previous sample, `speeds` what each tick computed from the difference. */
  datatype Track = Track(ch: Channel, position: int, last: int, lastPosition: int, speeds: seq<int>)

  const START := Track(Channel(0, 0, 0), 0, 0, 0, [])

  function Next(t: Track, e: Event): Track
    requires t.ch.pinState < 4
  {
    match e
    case Move(q) => t.(ch := Decode(t.ch, Gray(q)), position := q)
    case Tick =>
      var ch := t.ch.(sampledValue := t.ch.currentValue);
      // encoder_speed of the joint, and the ticks of the drive, are this int16_t difference
      Track(ch, t.position, ch.sampledValue, t.position, t.speeds + [Wrap(ch.sampledValue - t.last)])
  }

  function Run(events: seq<Event>): (t: Track)
    ensures t.ch.pinState < 4
  {
    if |events| == 0 then START else Next(Run(events[..|events| - 1]), events[|events| - 1])
  }

  /** Every interrupt comes after at most one quarter step. */
  predicate OneStepEach(events: seq<Event>) {
    forall k :: 0 <= k < |events| && events[k].Move? ==> -1 <= events[k].position - Run(events[..k]).position <= 1
  }

  /** Between two ticks the shaft moves by a net amount that fits int16_t. */
  predicate ModestMoves(events: seq<Event>) {
    forall k :: 0 <= k < |events| && events[k].Tick? ==>
      Fits(Run(events[..k]).position - Run(events[..k]).lastPosition)
  }

  function Sum(s: seq<int>): int {
    if |s| == 0 then 0 else Sum(s[..|s| - 1]) + s[|s| - 1]
  }

  lemma OneStepPrefix(events: seq<Event>)
    requires |events| > 0 && OneStepEach(events)
    ensures OneStepEach(events[..|events| - 1])
    ensures var before := Run(events[..|events| - 1]);
            events[|events| - 1].Move? ==> -1 <= events[|events| - 1].position - before.position <= 1
  {
    var n := |events| - 1;
    forall k | 0 <= k < n && events[k].Move?
      ensures -1 <= events[k].position - Run(events[..n][..k]).position <= 1
    {
      assert events[..n][..k] == events[..k];
    }
  }

  lemma ModestPrefix(events: seq<Event>)
    requires |events| > 0 && ModestMoves(events)
    ensures ModestMoves(events[..|events| - 1])
    ensures var before := Run(events[..|events| - 1]);
            events[|events| - 1].Tick? ==> Fits(before.position - before.lastPosition)
  {
    var n := |events| - 1;
    forall k | 0 <= k < n && events[k].Tick?
      ensures Fits(Run(events[..n][..k]).position - Run(events[..n][..k]).lastPosition)
    {
      assert events[..n][..k] == events[..k];
    }
  }

  lemma UnsignedAdd(q: int, q': int)
    ensures Unsigned(Unsigned(q) + (q' - q)) == Unsigned(q')
  {
  }

  /** Pins and counter show the true position modulo 2^16, and so did the last sample. */
  predicate Tracks(t: Track) {
    && t.ch.pinState == Gray(t.position) && t.ch.currentValue == Unsigned(t.position)
    && t.last == Unsigned(t.lastPosition)
  }

  /** current_value is the true position modulo 2^16, through any number of wrap-arounds. */
  lemma {:induction false} CounterTracks(events: seq<Event>)
    requires OneStepEach(events)
    ensures Tracks(Run(events))
  {
    if |events| > 0 {
      hide OneStepEach, Tracks, Next;
      var n := |events| - 1;
      OneStepPrefix(events);
      CounterTracks(events[..n]);
      StepTracks(Run(events[..n]), events[n]);
    }
  }

  lemma StepTracks(t: Track, e: Event)
    requires Tracks(t) && t.ch.pinState < 4
    requires e.Move? ==> -1 <= e.position - t.position <= 1
    ensures Tracks(Next(t, e))
  {
    if e.Move? {
      hide Unsigned, Gray;
      TableExact(t.position, e.position);
      UnsignedAdd(t.position, e.position);
    }
  }

  /** However far the shaft jumps between two interrupts, the counter keeps the parity of the true position. */
  lemma {:induction false} ParityTracks(events: seq<Event>)
    ensures Run(events).ch.pinState == Gray(Run(events).position)
    ensures Run(events).ch.currentValue % 2 == Run(events).position % 2
  {
    if |events| > 0 {
      hide Gray;
      var t, e := Run(events[..|events| - 1]), events[|events| - 1];
      ParityTracks(events[..|events| - 1]);
      if e.Move? {
        TableModulo(t.position, e.position);
        ParityStep(t.ch.currentValue, t.position, e.position);
      }
    }
  }

  lemma ParityStep(value: int, q: int, q': int)
    requires value % 2 == q % 2
    ensures var d := (q' - q) % 4;
            Unsigned(value + (if d == 1 then 1 else if d == 3 then -1 else 0)) % 2 == q' % 2
  {
  }

  /** The int16_t difference of two samples is the true displacement exactly when that fits int16_t. */
  lemma SpeedExact(from: int, to: int)
    ensures Wrap(Unsigned(to) - Unsigned(from)) == to - from <==> Fits(to - from)
  {
    WrapModulo(Unsigned(to) - Unsigned(from), to - from);
  }

  lemma TickAdds(t: Track)
    requires t.ch.pinState < 4 && t.ch.currentValue == Unsigned(t.position) && t.last == Unsigned(t.lastPosition)
    requires Fits(t.position - t.lastPosition)
    ensures Sum(Next(t, Tick).speeds) - Next(t, Tick).lastPosition == Sum(t.speeds) - t.lastPosition
  {
    SpeedExact(t.lastPosition, t.position);
    var speed := Wrap(t.ch.currentValue - t.last);
    assert (t.speeds + [speed])[..|t.speeds|] == t.speeds;
  }

  lemma MoveAdds(t: Track, e: Event)
    requires t.ch.pinState < 4 && e.Move?
    ensures Next(t, e).speeds == t.speeds && Next(t, e).lastPosition == t.lastPosition
  {
  }

  /** The speeds add up to the exact displacement over unbounded integers. */
  lemma {:induction false} SpeedsAddUp(events: seq<Event>)
    requires OneStepEach(events) && ModestMoves(events)
    ensures Sum(Run(events).speeds) == Run(events).lastPosition
  {
    if |events| > 0 {
      hide OneStepEach, ModestMoves, Unsigned, Decode, Gray, Next, Sum;
      var n := |events| - 1;
      OneStepPrefix(events);
      ModestPrefix(events);
      SpeedsAddUp(events[..n]);
      CounterTracks(events[..n]);
      if events[n].Tick? {
        TickAdds(Run(events[..n]));
      } else {
        MoveAdds(Run(events[..n]), events[n]);
      }
    }
  }
}
