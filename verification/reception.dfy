/** What a deferred handler makes of one frame, with and without a buffer for it. */
module Reception {
  import opened Bytes
  import opened Deferred
  import opened Framing
  import Link

  /** A state between the frames: hunting, with these packets pending. */
  function Hunting(pending: seq<Packet>): State {
    State(WaitAA, pending)
  }

  lemma {:induction false} ReceiveConcat(config: Config, s: State, a: seq<byte>, b: seq<byte>)
    requires ValidSizes(SizesOf(config)) && WellFormed(SizesOf(config), s.rx)
    ensures var f := ReceiveAll(config, s, a);
            var g := ReceiveAll(config, f.state, b);
            ReceiveAll(config, s, a + b) == Flushed(g.state, f.checksums + g.checksums, f.errors + g.errors)
  {
    hide Receive, SizesOf, ValidSizes, WellFormed, PacketStatus.IsError;
    if |b| == 0 {
      assert a + b == a;
    } else {
      var n := |b| - 1;
      assert (a + b)[..|a| + n] == a + b[..n] && (a + b)[|a| + n] == b[n] && (a + b)[..|a| + n + 1] == a + b;
      assert b[..n + 1] == b;
      ReceiveConcat(config, s, a, b[..n]);
      ReceiveMore(config, s, a + b, |a| + n);
      ReceiveMore(config, ReceiveAll(config, s, a).state, b, n);
      hide ReceiveAll;
    }
  }

  /** The receiver in the middle of the frame of `p`, `k` bytes of it read. */
  function Midway(p: Packet, k: nat): Rx
    requires |p| > 0 && k < |p| + 3
  {
    if k == 0 then WaitAA else if k == 1 then Wait55 else if k == 2 then WaitType else if k == 3 then WaitSize(p[0])
    else if k < |p| + 2 then WaitPayload(p[..k - 2]) else WaitChecksum(p)
  }

  /** One byte of a frame moves the receiver on without an error, if there is room when it is asked for. */
  lemma MidwayStep(sizes: Sizes, p: Packet, k: nat, room: bool)
    requires ValidSizes(sizes) && Registered(sizes, p) && k < |p| + 2 && (k == 3 ==> room)
    ensures WellFormed(sizes, Midway(p, k))
    ensures var (rx, status) := Step(sizes, Midway(p, k), Frame(p)[k], room);
            rx == Midway(p, k + 1) && !status.IsError() && status != SyncChecksum
  {
    assert Frame(p)[k] == if k == 0 then SYNC_AA else if k == 1 then SYNC_55 else p[k - 2];
    if k == 3 {
      assert p[..2] == [p[0], p[1]];
    }
    if 4 <= k {
      assert p[..k - 2] + [p[k - 2]] == p[..k - 1];
      assert p[..|p|] == p;
    }
  }

  /** A buffer is free for a packet of this type. */
  predicate HasRoom(config: Config, pending: seq<Packet>, p: Packet) {
    Registered(SizesOf(config), p) && CountType(pending, p[0]) < config[p[0]].buffers
  }

  /** Part of a frame, up to the size byte or beyond it where there is room. */
  lemma {:induction false} ReceiveMidway(config: Config, pending: seq<Packet>, p: Packet, k: nat)
    requires ValidSizes(SizesOf(config)) && Registered(SizesOf(config), p) && k < |p| + 3
    requires k <= 3 || HasRoom(config, pending, p)
    ensures ReceiveAll(config, Hunting(pending), Frame(p)[..k]) == Flushed(State(Midway(p, k), pending), 0, 0)
  {
    if k > 0 {
      hide Frame, Step, Midway, PacketStatus.IsError, ValidSizes;
      ReceiveMidway(config, pending, p, k - 1);
      ReceiveMore(config, Hunting(pending), Frame(p), k - 1);
      var s := State(Midway(p, k - 1), pending);
      MidwayRoom(config, pending, p, k - 1);
      MidwayStep(SizesOf(config), p, k - 1, Room(config, s));
      hide ReceiveAll, Registered, SizesOf;
    }
  }

  lemma MidwayRoom(config: Config, pending: seq<Packet>, p: Packet, k: nat)
    requires Registered(SizesOf(config), p) && k < |p| + 2
    ensures k == 3 ==> (Room(config, State(Midway(p, k), pending)) <==> HasRoom(config, pending, p))
  {
  }

  /** A whole frame there is room for is no error, and joins the queue unless the queue is full. */
  lemma ReceiveFrame(config: Config, pending: seq<Packet>, p: Packet)
    requires ValidSizes(SizesOf(config)) && HasRoom(config, pending, p)
    ensures ReceiveAll(config, Hunting(pending), Frame(p))
         == Flushed(Hunting(if |pending| < PENDING_PACKETS_MAX then pending + [p] else pending), 1, 0)
  {
    hide ReceiveAll, SizesOf;
    var n := |p| + 2;
    ReceiveMidway(config, pending, p, n);
    ReceiveMore(config, Hunting(pending), Frame(p), n);
    assert Frame(p)[n] == Xor(p) && Frame(p)[..n + 1] == Frame(p);
  }

  /** What follows the size byte of a frame. */
  function Tail(p: Packet): (t: seq<byte>)
    requires |p| >= 2
    ensures |t| == |p| - 1
  {
    p[2..] + [Xor(p)]
  }

  lemma FrameIsHeadAndTail(p: Packet, k: nat)
    requires |p| >= 2 && k <= |p| - 1
    ensures Frame(p) == Frame(p)[..4] + Tail(p)
    ensures Frame(p)[..4 + k] == Frame(p)[..4] + Tail(p)[..k]
    ensures Frame(p)[4 + k..] == Tail(p)[k..]
  {
  }

  /** Without room the size byte is an error and sends the receiver hunting in the rest of the frame. */
  lemma HeadRefused(config: Config, pending: seq<Packet>, p: Packet)
    requires ValidSizes(SizesOf(config)) && Registered(SizesOf(config), p) && !HasRoom(config, pending, p)
    ensures ReceiveAll(config, Hunting(pending), Frame(p)[..4]) == Flushed(Hunting(pending), 0, 1)
  {
    hide ReceiveAll;
    ReceiveMidway(config, pending, p, 3);
    ReceiveMore(config, Hunting(pending), Frame(p), 3);
    MidwayRoom(config, pending, p, 3);
    assert Frame(p)[3] == p[1];
  }

  /** The rest of a frame, read with room for everything, delivers its packet at the last byte. */
  lemma FeedMidway(sizes: Sizes, p: Packet, k: nat)
    requires ValidSizes(sizes) && Registered(sizes, p) && k < |p| + 3
    ensures WellFormed(sizes, Midway(p, k))
    ensures Link.Feed(sizes, Midway(p, k), Frame(p)[k..]) == (WaitAA, [p])
    ensures Link.Feed(sizes, Midway(p, k), Frame(p)[k..|p| + 2]).1 == []
  {
    hide Link.Feed, Midway, ValidSizes;
    var n := |p| + 2;
    FeedToMidway(sizes, p, k, n);
    LastByte(sizes, p);
    assert Frame(p)[k..] == Frame(p)[k..n] + Frame(p)[n..];
    assert [] + [p] == [p];
    Link.FeedConcat(sizes, Midway(p, k), Frame(p)[k..n], Frame(p)[n..]);
  }

  lemma LastByte(sizes: Sizes, p: Packet)
    requires ValidSizes(sizes) && Registered(sizes, p)
    ensures WellFormed(sizes, Midway(p, |p| + 2))
    ensures Link.Feed(sizes, Midway(p, |p| + 2), Frame(p)[|p| + 2..]) == (WaitAA, [p])
  {
    assert Frame(p)[|p| + 2..] == [Xor(p)];
    Link.FeedOne(sizes, WaitChecksum(p), Xor(p));
  }

  lemma {:induction false} FeedToMidway(sizes: Sizes, p: Packet, k: nat, n: nat)
    requires ValidSizes(sizes) && Registered(sizes, p) && k <= n < |p| + 3
    ensures WellFormed(sizes, Midway(p, k))
    ensures Link.Feed(sizes, Midway(p, k), Frame(p)[k..n]) == (Midway(p, n), [])
    decreases n - k
  {
    hide Midway, Step, ValidSizes, PacketStatus.IsError;
    if k < n {
      MidwayStep(sizes, p, k, true);
      FeedToMidway(sizes, p, k + 1, n);
      assert Frame(p)[k..n][1..] == Frame(p)[k + 1..n] && Frame(p)[k..n][0] == Frame(p)[k];
      var ps := Link.Feed(sizes, Midway(p, k + 1), Frame(p)[k + 1..n]).1;
      assert [] + ps == ps;
    } else {
      MidwayWellFormed(sizes, p, k);
      assert Frame(p)[k..n] == [];
    }
  }

  lemma MidwayWellFormed(sizes: Sizes, p: Packet, k: nat)
    requires Registered(sizes, p) && k < |p| + 3
    ensures WellFormed(sizes, Midway(p, k))
  {
  }
}
