/**
 * One sender and one receiver: what leaves the transmit ring of a handler arrives, in order and
 * byte for byte, at a peer that has the types registered and always supplies a buffer.
 */
module Link {
  import opened Bytes
  import opened Framing

  /** The receiver after `wire`, and the packets it has delivered on the way. */
  function Feed(sizes: Sizes, rx: Rx, wire: seq<byte>): (r: (Rx, seq<Packet>))
    requires ValidSizes(sizes) && WellFormed(sizes, rx)
    ensures WellFormed(sizes, r.0)
    decreases |wire|
  {
    if |wire| == 0 then (rx, [])
    else
      StepKeepsWellFormed(sizes, rx, wire[0], true);
      var (rx', status) := Step(sizes, rx, wire[0], true);
      var (last, ps) := Feed(sizes, rx', wire[1..]);
      (last, (if status == SyncChecksum then [rx.p] else []) + ps)
  }

  lemma {:induction false} FeedConcat(sizes: Sizes, rx: Rx, a: seq<byte>, b: seq<byte>)
    requires ValidSizes(sizes) && WellFormed(sizes, rx)
    ensures var (rx', ps) := Feed(sizes, rx, a);
            Feed(sizes, rx, a + b) == (Feed(sizes, rx', b).0, ps + Feed(sizes, rx', b).1)
    decreases |a|
  {
    if |a| == 0 {
      assert a + b == b;
      assert [] + Feed(sizes, rx, b).1 == Feed(sizes, rx, b).1;
    } else {
      StepKeepsWellFormed(sizes, rx, a[0], true);
      var rx' := Step(sizes, rx, a[0], true).0;
      assert (a + b)[1..] == a[1..] + b;
      FeedConcat(sizes, rx', a[1..], b);
      var first := if Step(sizes, rx, a[0], true).1 == SyncChecksum then [rx.p] else [];
      Associate(first, Feed(sizes, rx', a[1..]).1, Feed(sizes, Feed(sizes, rx', a[1..]).0, b).1);
    }
  }

  /** The payload of a registered packet takes the receiver to the checksum with the packet complete. */
  lemma {:induction false} FeedPayload(sizes: Sizes, p: Packet, k: nat)
    requires ValidSizes(sizes) && Registered(sizes, p)
    requires 2 <= k < |p|
    ensures Feed(sizes, WaitPayload(p[..k]), p[k..]) == (WaitChecksum(p), [])
    decreases |p| - k
  {
    assert p[..k] + [p[k]] == p[..k + 1];
    assert p[k..] == [p[k]] + p[k + 1..];
    FeedOne(sizes, WaitPayload(p[..k]), p[k]);
    FeedConcat(sizes, WaitPayload(p[..k]), [p[k]], p[k + 1..]);
    if k + 1 < |p| {
      FeedPayload(sizes, p, k + 1);
    } else {
      assert p[..k + 1] == p && p[k + 1..] == [];
    }
  }

  /** Sync bytes, a body of the registered type and size, any checksum byte: delivered iff it matches. */
  lemma FeedFrame(sizes: Sizes, p: Packet, checksum: byte)
    requires ValidSizes(sizes) && Registered(sizes, p)
    ensures Feed(sizes, WaitAA, [SYNC_AA, SYNC_55] + p + [checksum])
         == (WaitAA, if checksum == Xor(p) then [p] else [])
  {
    var wire := [SYNC_AA, SYNC_55] + p + [checksum];
    var head := [SYNC_AA, SYNC_55, p[0], p[1]];
    assert wire == head + (p[2..] + [checksum]);
    FeedHead(sizes, p);
    assert p[..2] == [p[0], p[1]];
    FeedPayload(sizes, p, 2);
    FeedConcat(sizes, WaitPayload(p[..2]), p[2..], [checksum]);
    FeedOne(sizes, WaitChecksum(p), checksum);
    assert p[..2] + p[2..] == p;
    var out: seq<Packet> := if checksum == Xor(p) then [p] else [];
    assert [] + out == out;
    FeedConcat(sizes, WaitAA, head, p[2..] + [checksum]);
  }

  lemma FeedOne(sizes: Sizes, rx: Rx, c: byte)
    requires ValidSizes(sizes) && WellFormed(sizes, rx)
    ensures var (rx', status) := Step(sizes, rx, c, true);
            Feed(sizes, rx, [c]) == (rx', if status == SyncChecksum then [rx.p] else [])
  {
    StepKeepsWellFormed(sizes, rx, c, true);
    assert [c][1..] == [];
    assert Feed(sizes, Step(sizes, rx, c, true).0, [c][1..]) == (Step(sizes, rx, c, true).0, []);
    var out := if Step(sizes, rx, c, true).1 == SyncChecksum then [rx.p] else [];
    assert out + [] == out;
  }

  lemma FeedHead(sizes: Sizes, p: Packet)
    requires ValidSizes(sizes) && Registered(sizes, p)
    ensures Feed(sizes, WaitAA, [SYNC_AA, SYNC_55, p[0], p[1]]) == (WaitPayload([p[0], p[1]]), [])
  {
    FeedOne(sizes, WaitAA, SYNC_AA);
    FeedOne(sizes, Wait55, SYNC_55);
    FeedOne(sizes, WaitType, p[0]);
    FeedOne(sizes, WaitSize(p[0]), p[1]);
    FeedConcat(sizes, WaitAA, [SYNC_AA], [SYNC_55]);
    assert Feed(sizes, WaitAA, [SYNC_AA] + [SYNC_55]) == (WaitType, []);
    FeedConcat(sizes, WaitAA, [SYNC_AA] + [SYNC_55], [p[0]]);
    assert Feed(sizes, WaitAA, [SYNC_AA] + [SYNC_55] + [p[0]]) == (WaitSize(p[0]), []);
    FeedConcat(sizes, WaitAA, [SYNC_AA] + [SYNC_55] + [p[0]], [p[1]]);
    assert [SYNC_AA, SYNC_55, p[0], p[1]] == [SYNC_AA] + [SYNC_55] + [p[0]] + [p[1]];
  }

  /** Whole frames, one after the other, are delivered one after the other. */
  lemma {:induction false} FeedFrames(sizes: Sizes, ps: seq<Packet>)
    requires ValidSizes(sizes)
    requires forall k :: 0 <= k < |ps| ==> Registered(sizes, ps[k])
    ensures Feed(sizes, WaitAA, Frames(ps)) == (WaitAA, ps)
  {
    if |ps| > 0 {
      hide Feed, Registered, ValidSizes, WellFormed, Frame;
      var n := |ps| - 1;
      FeedFrames(sizes, ps[..n]);
      FeedSent(sizes, ps[n]);
      FeedConcat(sizes, WaitAA, Frames(ps[..n]), Frame(ps[n]));
      assert ps[..n] + [ps[n]] == ps;
    }
  }

  lemma FeedSent(sizes: Sizes, p: Packet)
    requires ValidSizes(sizes) && Registered(sizes, p)
    ensures Feed(sizes, WaitAA, Frame(p)) == (WaitAA, [p])
  {
    hide Feed;
    FeedFrame(sizes, p, Xor(p));
  }

  /** Part of a stream of frames delivers the packets whose frames are complete in it. */
  lemma DeliveredPrefix(sizes: Sizes, ps: seq<Packet>, wire: seq<byte>)
    requires ValidSizes(sizes)
    requires forall k :: 0 <= k < |ps| ==> Registered(sizes, ps[k])
    requires wire <= Frames(ps)
    ensures Feed(sizes, WaitAA, wire).1 <= ps
  {
    var rest := Frames(ps)[|wire|..];
    assert wire + rest == Frames(ps);
    FeedFrames(sizes, ps);
    FeedConcat(sizes, WaitAA, wire, rest);
  }

  // ---- runs of sends and transfers


  /** `queue` is the sender's transmit ring, `rx` the peer's receiver. */
  datatype State = State(queue: seq<byte>, rx: Rx, sent: seq<Packet>, delivered: seq<Packet>)

  datatype Event =
    | Send(p: Packet)  // PacketHandler_sendPacket, which may refuse
    | Transfer         // one PacketHandler_txByte handed to the peer's PacketHandler_rxByte

  const START := State([], WaitAA, [], [])

  predicate Accepts(s: State, p: Packet) {
    |s.queue| + |p| + 3 <= BUFFER_SIZE_MAX
  }

  function Next(sizes: Sizes, s: State, e: Event): (s': State)
    requires ValidSizes(sizes) && WellFormed(sizes, s.rx)
    ensures WellFormed(sizes, s'.rx)
  {
    match e
    case Send(p) => if Accepts(s, p) then s.(queue := s.queue + Frame(p), sent := s.sent + [p]) else s
    case Transfer =>
      if |s.queue| == 0 then s
      else
        var r := Feed(sizes, s.rx, [s.queue[0]]);
        s.(queue := s.queue[1..], rx := r.0, delivered := s.delivered + r.1)
  }

  function Run(sizes: Sizes, events: seq<Event>): (s: State)
    requires ValidSizes(sizes)
    ensures WellFormed(sizes, s.rx)
  {
    if |events| == 0 then START else Next(sizes, Run(sizes, events[..|events| - 1]), events[|events| - 1])
  }

  /** What is queued will bring the peer to the end of the frames sent, delivering what is missing. */
  predicate OnTheWay(sizes: Sizes, s: State)
    requires ValidSizes(sizes) && WellFormed(sizes, s.rx)
  {
    && Feed(sizes, s.rx, s.queue).0 == WaitAA
    && s.delivered + Feed(sizes, s.rx, s.queue).1 == s.sent
  }

  lemma OnTheWayNext(sizes: Sizes, s: State, e: Event)
    requires ValidSizes(sizes) && WellFormed(sizes, s.rx) && OnTheWay(sizes, s)
    requires e.Send? ==> Registered(sizes, e.p)
    ensures OnTheWay(sizes, Next(sizes, s, e))
  {
    match e {
      case Send(p) =>
        FeedConcat(sizes, s.rx, s.queue, Frame(p));
        FeedFrame(sizes, p, Xor(p));
        Associate(s.delivered, Feed(sizes, s.rx, s.queue).1, [p]);
      case Transfer =>
        if |s.queue| > 0 {
          var (rx, ps) := Feed(sizes, s.rx, [s.queue[0]]);
          assert [s.queue[0]] + s.queue[1..] == s.queue;
          FeedConcat(sizes, s.rx, [s.queue[0]], s.queue[1..]);
          Associate(s.delivered, ps, Feed(sizes, rx, s.queue[1..]).1);
        }
    }
  }

  /**
   * For every interleaving of send attempts and byte transfers the packets delivered are a prefix of
   * the packets successfully sent, and all of them once the transmit ring is empty.
   */
  lemma {:induction false} RoundTrip(sizes: Sizes, events: seq<Event>)
    requires ValidSizes(sizes)
    requires forall k :: 0 <= k < |events| && events[k].Send? ==> Registered(sizes, events[k].p)
    ensures var s := Run(sizes, events);
            && s.delivered <= s.sent
            && (s.queue == [] ==> s.delivered == s.sent && s.rx == WaitAA)
            && OnTheWay(sizes, s)
  {
    if |events| > 0 {
      RoundTrip(sizes, events[..|events| - 1]);
      OnTheWayNext(sizes, Run(sizes, events[..|events| - 1]), events[|events| - 1]);
    }
  }
}
