/**
 * Whole runs of a deferred handler: received bytes interleaved anywhere, also in the middle of a
 * frame, with calls of processPendingPackets.
 */
module Delivery {
  import opened Bytes
  import opened Deferred
  import opened Framing

  datatype Event = Received(c: byte) | Process

  /** A packet and the number of bytes that had been received when its checksum passed. */
  datatype Arrival = Arrival(p: Packet, at: nat)

  /** What an observer of a run has seen. */
  datatype History = History(
    state: State,
    wire: seq<byte>,           // every byte received
    accepted: seq<Arrival>,    // frames answered SyncChecksum that joined the queue
    dropped: seq<Arrival>,     // frames answered SyncChecksum while the queue was full
    processed: seq<Packet>,    // packets taken from the queue by processPendingPackets
    calls: seq<Packet>)        // packets the deferred actions were called with

  const START := History(State(WaitAA, []), [], [], [], [], [])

  ghost predicate Possible(config: Config, h: History) {
    WellFormedState(config, h.state)
  }

  ghost function Next(config: Config, h: History, e: Event): History
    requires Possible(config, h)
  {
    match e
    case Received(c) =>
      var (s, status) := Receive(config, h.state, c);
      var n := |h.wire| + 1;
      if status != SyncChecksum then h.(state := s, wire := h.wire + [c])
      else if |h.state.pending| < PENDING_PACKETS_MAX then
        h.(state := s, wire := h.wire + [c], accepted := h.accepted + [Arrival(h.state.rx.p, n)])
      else h.(state := s, wire := h.wire + [c], dropped := h.dropped + [Arrival(h.state.rx.p, n)])
    case Process =>
      h.(state := State(h.state.rx, []),
         processed := h.processed + h.state.pending,
         calls := h.calls + Calls(config, h.state.pending))
  }

  lemma NextPossible(config: Config, h: History, e: Event)
    requires Possible(config, h)
    ensures Possible(config, Next(config, h, e))
  {
    if e.Received? {
      StepKeepsWellFormed(SizesOf(config), h.state.rx, e.c, Room(config, h.state));
    }
  }

  ghost function Run(config: Config, events: seq<Event>): (h: History)
    requires ValidSizes(SizesOf(config))
    ensures Possible(config, h)
  {
    if |events| == 0 then START
    else
      var h := Run(config, events[..|events| - 1]);
      NextPossible(config, h, events[|events| - 1]);
      Next(config, h, events[|events| - 1])
  }

  /** How many bytes of the run were answered SyncChecksum. */
  ghost function Checksums(config: Config, events: seq<Event>): nat
    requires ValidSizes(SizesOf(config))
  {
    if |events| == 0 then 0
    else
      var n := |events| - 1;
      var s := Run(config, events[..n]).state;
      Checksums(config, events[..n])
      + if events[n].Received? && Receive(config, s, events[n].c).1 == SyncChecksum then 1 else 0
  }

  /** The wire holds the frame of `a` so that its checksum is the byte received at `a.at`. */
  predicate OnWire(wire: seq<byte>, a: Arrival) {
    |a.p| + 3 <= a.at <= |wire| && wire[a.at - |a.p| - 3..a.at] == Frame(a.p)
  }

  function PacketsOf(arrivals: seq<Arrival>): (ps: seq<Packet>)
    ensures |ps| == |arrivals| && forall k :: 0 <= k < |ps| ==> ps[k] == arrivals[k].p
  {
    seq(|arrivals|, k requires 0 <= k < |arrivals| => arrivals[k].p)
  }

  /** The arrivals are frames on the wire, one after the other, none overlapping the next. */
  predicate InSequence(wire: seq<byte>, arrivals: seq<Arrival>) {
    && (forall k :: 0 <= k < |arrivals| ==> OnWire(wire, arrivals[k]))
    && (forall k :: 0 <= k < |arrivals| - 1 ==> arrivals[k].at + |arrivals[k + 1].p| + 3 <= arrivals[k + 1].at)
  }

  /** What the receiver has kept of the frame it is in the middle of. */
  function Begun(rx: Rx): seq<byte> {
    match rx
    case WaitAA => []
    case Wait55 => [SYNC_AA]
    case WaitType => [SYNC_AA, SYNC_55]
    case WaitSize(t) => [SYNC_AA, SYNC_55, t]
    case WaitPayload(p) => [SYNC_AA, SYNC_55] + p
    case WaitChecksum(p) => [SYNC_AA, SYNC_55] + p
  }

  /** The position after the last frame accepted or dropped. */
  function LastEnd(arrivals: seq<Arrival>): nat {
    if |arrivals| == 0 then 0 else arrivals[|arrivals| - 1].at
  }

  predicate Ends(wire: seq<byte>, tail: seq<byte>) {
    |tail| <= |wire| && wire[|wire| - |tail|..] == tail
  }

  /** Holds in every run: the frame begun ends the wire and starts after every earlier arrival. */
  ghost predicate Tracked(config: Config, h: History) {
    && Possible(config, h)
    && Ends(h.wire, Begun(h.state.rx))
    && LastEnd(h.accepted) + |Begun(h.state.rx)| <= |h.wire|
    && LastEnd(h.dropped) + |Begun(h.state.rx)| <= |h.wire|
    && InSequence(h.wire, h.accepted)
    && InSequence(h.wire, h.dropped)
    && PacketsOf(h.accepted) == h.processed + h.state.pending
    && h.calls == Calls(config, h.processed)
  }

  lemma StillOnWire(wire: seq<byte>, c: byte, arrivals: seq<Arrival>)
    requires InSequence(wire, arrivals)
    ensures InSequence(wire + [c], arrivals)
  {
    forall k | 0 <= k < |arrivals|
      ensures OnWire(wire + [c], arrivals[k])
    {
      var a := arrivals[k];
      assert OnWire(wire, a);
      assert (wire + [c])[a.at - |a.p| - 3..a.at] == wire[a.at - |a.p| - 3..a.at];
    }
  }

  /** One more byte of the frame begun, whatever the answer about room. */
  lemma BegunGrows(sizes: Sizes, rx: Rx, c: byte, room: bool)
    requires WellFormed(sizes, rx)
    ensures var next := Begun(Step(sizes, rx, c, room).0); next == Begun(rx) + [c] || next == []
    ensures Step(sizes, rx, c, room).1 == SyncChecksum ==>
              Begun(rx) + [c] == Frame(rx.p) && Begun(Step(sizes, rx, c, room).0) == []
  {
    if rx.WaitPayload? {
      assert [SYNC_AA, SYNC_55] + (rx.p + [c]) == [SYNC_AA, SYNC_55] + rx.p + [c];
    }
  }

  lemma NewArrival(wire: seq<byte>, arrivals: seq<Arrival>, begun: seq<byte>, c: byte, p: Packet)
    requires InSequence(wire, arrivals)
    requires Ends(wire, begun) && LastEnd(arrivals) + |begun| <= |wire|
    requires begun + [c] == Frame(p)
    ensures InSequence(wire + [c], arrivals + [Arrival(p, |wire| + 1)])
  {
    StillOnWire(wire, c, arrivals);
    var w, a := wire + [c], Arrival(p, |wire| + 1);
    assert |begun| == |p| + 2;
    assert w[a.at - |p| - 3..a.at] == wire[|wire| - |begun|..] + [c];
    assert OnWire(w, a);
    var longer := arrivals + [a];
    forall k | 0 <= k < |longer|
      ensures OnWire(w, longer[k])
    {
      if k < |arrivals| {
        assert OnWire(w, arrivals[k]);
      }
    }
  }

  lemma EndsGrow(wire: seq<byte>, tail: seq<byte>, c: byte)
    requires Ends(wire, tail)
    ensures Ends(wire + [c], tail + [c]) && Ends(wire + [c], [])
  {
    assert (wire + [c])[|wire| - |tail|..] == wire[|wire| - |tail|..] + [c];
  }

  lemma {:induction false} CallsConcat(config: Config, a: seq<Packet>, b: seq<Packet>)
    ensures Calls(config, a + b) == Calls(config, a) + Calls(config, b)
  {
    if |b| == 0 {
      assert a + b == a;
    } else {
      var n := |b| - 1;
      assert (a + b)[..|a| + n] == a + b[..n];
      CallsConcat(config, a, b[..n]);
    }
  }

  lemma TrackedNext(config: Config, h: History, e: Event)
    requires Tracked(config, h)
    ensures Tracked(config, Next(config, h, e))
  {
    match e {
      case Received(c) => TrackedReceived(config, h, c);
      case Process =>
        CallsConcat(config, h.processed, h.state.pending);
        var h' := Next(config, h, e);
        assert h'.processed + h'.state.pending == h.processed + h.state.pending;
    }
  }

  lemma TrackedReceived(config: Config, h: History, c: byte)
    requires Tracked(config, h)
    ensures Tracked(config, Next(config, h, Received(c)))
  {
    hide Step, Begun, Ends, Room, Frame, InSequence, OnWire, PacketsOf, Calls;
    NextPossible(config, h, Received(c));
    BegunGrows(SizesOf(config), h.state.rx, c, Room(config, h.state));
    EndsGrow(h.wire, Begun(h.state.rx), c);
    StillOnWire(h.wire, c, h.accepted);
    StillOnWire(h.wire, c, h.dropped);
    if Receive(config, h.state, c).1 == SyncChecksum {
      var p := h.state.rx.p;
      NewArrival(h.wire, h.accepted, Begun(h.state.rx), c, p);
      NewArrival(h.wire, h.dropped, Begun(h.state.rx), c, p);
      AcceptedGrows(h.accepted, h.processed, h.state.pending, Arrival(p, |h.wire| + 1));
    }
  }

  lemma AcceptedGrows(accepted: seq<Arrival>, processed: seq<Packet>, pending: seq<Packet>, a: Arrival)
    requires PacketsOf(accepted) == processed + pending
    ensures PacketsOf(accepted + [a]) == processed + (pending + [a.p])
  {
    assert PacketsOf(accepted + [a]) == PacketsOf(accepted) + [a.p];
    Associate(processed, pending, [a.p]);
  }

  lemma {:induction false} RunTracked(config: Config, events: seq<Event>)
    requires ValidSizes(SizesOf(config))
    ensures Tracked(config, Run(config, events))
  {
    if |events| > 0 {
      RunTracked(config, events[..|events| - 1]);
      TrackedNext(config, Run(config, events[..|events| - 1]), events[|events| - 1]);
    }
  }

  /**
   * In every run, what processPendingPackets took from the queue and what still waits there are
   * exactly the accepted packets, each once and in the order of arrival across all types; every one
   * is, byte for byte, a frame that was on the wire, and no two share a wire byte.
   */
  lemma ExactlyOnceInOrder(config: Config, events: seq<Event>)
    requires ValidSizes(SizesOf(config))
    ensures var h := Run(config, events);
            && PacketsOf(h.accepted) == h.processed + h.state.pending
            && InSequence(h.wire, h.accepted)
            && h.calls == Calls(config, h.processed)
  {
    RunTracked(config, events);
  }

  /** Frames answered SyncChecksum = packets processed + packets pending + packets dropped. */
  lemma {:induction false} Conservation(config: Config, events: seq<Event>)
    requires ValidSizes(SizesOf(config))
    ensures var h := Run(config, events);
            Checksums(config, events) == |h.processed| + |h.state.pending| + |h.dropped|
  {
    RunTracked(config, events);
    ChecksumsCounted(config, events);
    var h := Run(config, events);
    assert |PacketsOf(h.accepted)| == |h.processed + h.state.pending|;
  }

  lemma {:induction false} ChecksumsCounted(config: Config, events: seq<Event>)
    requires ValidSizes(SizesOf(config))
    ensures Checksums(config, events) == |Run(config, events).accepted| + |Run(config, events).dropped|
  {
    if |events| > 0 {
      ChecksumsCounted(config, events[..|events| - 1]);
    }
  }

  /** If every type has an action, the actions are called with exactly the processed packets. */
  lemma {:induction false} AllCalled(config: Config, ps: seq<Packet>)
    requires forall k :: 0 <= k < |ps| ==> HasAction(config, ps[k])
    ensures Calls(config, ps) == ps
  {
    if |ps| > 0 {
      AllCalled(config, ps[..|ps| - 1]);
    }
  }
}
