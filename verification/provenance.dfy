/**
 * Where the packets the server acts on come from.  A frame for which there is no buffer may hold the frame
 * of a packet nobody sent; harmless and tame packets do not, and then the server acts only on what the
 * client sent.
 */
module Provenance {
  import opened Bytes
  import opened Client
  import opened Deferred
  import opened Epoch
  import opened Exchange
  import opened Framing
  import opened Mirror
  import opened Reception
  import opened Refusal
  import Link

  lemma ServerDoubled()
    ensures Doubled(SERVER_CONFIG)
  {
    ServerSizes();
  }

  /**
   * Two ways to be careful.  Strict: a refused frame must leave no trace.  Otherwise it may leave the
   * receiver anywhere outside a packet, so that the frame behind it is lost as well.
   */
  ghost predicate Mild(strict: bool, p: Packet)
    requires ValidSizes(IN_SIZES) && Registered(IN_SIZES, p)
  {
    if strict then Harmless(IN_SIZES, p) else Tame(IN_SIZES, p)
  }

  ghost predicate AllMild(strict: bool, ps: seq<Packet>) {
    && ValidSizes(IN_SIZES)
    && forall k :: 0 <= k < |ps| ==> Registered(IN_SIZES, ps[k]) && Mild(strict, ps[k])
  }

  predicate AllSendable(ps: seq<Packet>) {
    forall k :: 0 <= k < |ps| ==> Registered(IN_SIZES, ps[k])
  }

  /** Where the receiver may be between two frames. */
  predicate Between(strict: bool, rx: Rx) {
    WellFormed(IN_SIZES, rx) && if strict then rx == WaitAA else !Inside(rx)
  }

  /** The bytes at the front of the wire finish what the receiver has begun: at most one packet, at the end. */
  predicate Finishes(strict: bool, rx: Rx, rest: seq<byte>, ps: seq<Packet>)
    requires ValidSizes(IN_SIZES) && WellFormed(IN_SIZES, rx)
  {
    && Link.Feed(IN_SIZES, rx, rest).1 == ps && Between(strict, Link.Feed(IN_SIZES, rx, rest).0) && |ps| <= 1
    && (|rest| > 0 ==> Link.Feed(IN_SIZES, rx, rest[..|rest| - 1]).1 == [])
    && (|rest| == 0 ==> ps == [])
  }

  // ---- one frame

  /** Scanning with no type full is reading with room for everything. */
  lemma {:induction false} ScanNone(sizes: Sizes, rx: Rx, bytes: seq<byte>)
    requires ValidSizes(sizes) && WellFormed(sizes, rx)
    ensures Scan(sizes, NONE, rx, bytes) == Link.Feed(sizes, rx, bytes)
  {
    if |bytes| > 0 {
      hide Step, ValidSizes, WellFormed, Link.Feed;
      var n := |bytes| - 1;
      ScanNone(sizes, rx, bytes[..n]);
      var before := Link.Feed(sizes, rx, bytes[..n]).0;
      assert bytes == bytes[..n] + [bytes[n]];
      Link.FeedConcat(sizes, rx, bytes[..n], [bytes[n]]);
      Link.FeedOne(sizes, before, bytes[n]);
      RoomOnlyForSize(sizes, before, bytes[n]);
      var ps := Link.Feed(sizes, rx, bytes[..n]).1;
      assert ps + [] == ps;
    }
  }

  lemma RoomOnlyForSize(sizes: Sizes, rx: Rx, c: byte)
    requires ValidSizes(sizes) && WellFormed(sizes, rx)
    ensures var room := rx.WaitSize? && !NONE[rx.t];
            Step(sizes, rx, c, room) == Step(sizes, rx, c, true)
  {
  }

  lemma FreshReads(rx: Rx, bytes: seq<byte>)
    requires ValidSizes(IN_SIZES) && WellFormed(IN_SIZES, rx)
    requires Link.Feed(IN_SIZES, rx, bytes).1 == []
    ensures ReceiveAll(SERVER_CONFIG, Deferred.State(rx, []), bytes).state
         == Deferred.State(Link.Feed(IN_SIZES, rx, bytes).0, [])
  {
    hide Scan, ReceiveAll, Link.Feed, SERVER_CONFIG, FullOf;
    ServerDoubled();
    NothingFull(SERVER_CONFIG);
    ScanNone(IN_SIZES, rx, bytes);
    ScanReceives(SERVER_CONFIG, [], rx, bytes);
  }

  /** With nothing pending the handler finishes what its receiver has begun. */
  lemma FinishRead(strict: bool, rx: Rx, rest: seq<byte>, ps: seq<Packet>)
    requires ValidSizes(IN_SIZES) && WellFormed(IN_SIZES, rx) && Finishes(strict, rx, rest, ps)
    ensures ReceiveAll(SERVER_CONFIG, Deferred.State(rx, []), rest).state
         == Deferred.State(Link.Feed(IN_SIZES, rx, rest).0, ps)
  {
    if |rest| == 0 {
      assert rest == [];
      ReceiveNothing(SERVER_CONFIG, Deferred.State(rx, []));
    } else {
      hide ReceiveAll, Link.Feed, Receive;
      var n := |rest| - 1;
      assert rest == rest[..n] + [rest[n]] && rest[..n + 1] == rest;
      FreshReads(rx, rest[..n]);
      Link.FeedConcat(IN_SIZES, rx, rest[..n], [rest[n]]);
      var rx' := Link.Feed(IN_SIZES, rx, rest[..n]).0;
      ReceiveMore(SERVER_CONFIG, Deferred.State(rx, []), rest, n);
      FreshByte(rx', rest[n]);
      assert [] + Link.Feed(IN_SIZES, rx', [rest[n]]).1 == Link.Feed(IN_SIZES, rx', [rest[n]]).1;
    }
  }

  lemma FreshByte(rx: Rx, c: byte)
    requires ValidSizes(IN_SIZES) && WellFormed(IN_SIZES, rx)
    ensures Receive(SERVER_CONFIG, Deferred.State(rx, []), c).0
         == Deferred.State(Link.Feed(IN_SIZES, rx, [c]).0, Link.Feed(IN_SIZES, rx, [c]).1)
  {
    Link.FeedOne(IN_SIZES, rx, c);
    ServerDoubled();
    assert Step(IN_SIZES, rx, c, Room(SERVER_CONFIG, Deferred.State(rx, []))) == Step(IN_SIZES, rx, c, true) by {
      hide Link.Feed;
    }
    if rx.WaitChecksum? {
      assert [] + [rx.p] == [rx.p];
    }
  }

  lemma FinishesNothing(strict: bool, rx: Rx, rest: seq<byte>)
    requires ValidSizes(IN_SIZES) && WellFormed(IN_SIZES, rx)
    requires Link.Feed(IN_SIZES, rx, rest).1 == [] && Between(strict, Link.Feed(IN_SIZES, rx, rest).0)
    ensures Finishes(strict, rx, rest, [])
  {
    hide Link.Feed, IN_SIZES;
    if |rest| > 0 {
      var n := |rest| - 1;
      assert rest == rest[..n] + rest[n..];
      Link.FeedConcat(IN_SIZES, rx, rest[..n], rest[n..]);
    }
  }

  lemma FeedNothing(rx: Rx)
    requires ValidSizes(IN_SIZES) && WellFormed(IN_SIZES, rx)
    ensures Link.Feed(IN_SIZES, rx, []) == (rx, [])
  {
  }

  /** What a frame, cut after `k` bytes, comes to if it is not taken: nothing now and nothing later. */
  predicate Passed(strict: bool, s: Deferred.State, pending: seq<Packet>, rest: seq<byte>)
    requires ValidSizes(IN_SIZES) && WellFormed(IN_SIZES, s.rx)
  {
    s.pending == pending && Finishes(strict, s.rx, rest, [])
  }

  /** A frame refused at its size byte. */
  lemma RefusedPart(strict: bool, pending: seq<Packet>, p: Packet, k: nat)
    requires Held(SERVER_CONFIG, pending) && Registered(IN_SIZES, p) && ValidSizes(IN_SIZES) && k <= |Tail(p)|
    requires Mild(strict, p) || ReceiveAll(SERVER_CONFIG, Hunting(pending), Frame(p)[..4 + k]).errors == 0
    requires !HasRoom(SERVER_CONFIG, pending, p)
    ensures Passed(strict, ReceiveAll(SERVER_CONFIG, Hunting(pending), Frame(p)[..4 + k]).state, pending, Frame(p)[4 + k..])
  {
    hide ReceiveAll, Link.Feed, Scan, SERVER_CONFIG, Held, Frame, Harmless, Tame, Tail;
    ServerDoubled();
    RefusedIsScan(SERVER_CONFIG, p, pending, k);
    var rx := ReceiveAll(SERVER_CONFIG, Hunting(pending), Frame(p)[..4 + k]).state.rx;
    if strict {
      HarmlessVanishes(SERVER_CONFIG, p, pending, k);
    } else {
      TameScanned(SERVER_CONFIG, p, pending, k);
    }
    ScanNone(IN_SIZES, rx, Tail(p)[k..]);
    FinishesNothing(strict, rx, Tail(p)[k..]);
  }

  // ---- a frame met in the middle of nothing

  /** Outside a packet and not hunting, the first byte of a frame is an error and sends the receiver hunting. */
  lemma LostStart(pending: seq<Packet>, rx: Rx)
    requires ValidSizes(IN_SIZES) && Between(false, rx) && rx != WaitAA
    ensures ReceiveAll(SERVER_CONFIG, Deferred.State(rx, pending), [SYNC_AA]) == Flushed(Hunting(pending), 0, 1)
    ensures Link.Feed(IN_SIZES, rx, [SYNC_AA]) == (WaitAA, [])
  {
    StepLost(rx, Room(SERVER_CONFIG, Deferred.State(rx, pending)));
    StepLost(rx, true);
    hide Step, IN_SIZES, SERVER_CONFIG, PacketStatus.IsError;
    Link.FeedOne(IN_SIZES, rx, SYNC_AA);
    ReceiveNothing(SERVER_CONFIG, Deferred.State(rx, pending));
    ReceiveMore(SERVER_CONFIG, Deferred.State(rx, pending), [SYNC_AA], 0);
    assert [SYNC_AA][..0] == [] && [SYNC_AA][..1] == [SYNC_AA];
  }

  /** No registered packet is as long as 0xAA. */
  lemma StepLost(rx: Rx, room: bool)
    requires Between(false, rx) && rx != WaitAA
    ensures var (rx', status) := Step(IN_SIZES, rx, SYNC_AA, room);
            rx' == WaitAA && status.IsError() && status != SyncChecksum
  {
    assert forall t :: t in IN_SIZES ==> IN_SIZES[t] <= 38;
  }

  lemma {:induction false} FeedJunk(junk: seq<byte>)
    requires ValidSizes(IN_SIZES) && SYNC_AA !in junk
    ensures Link.Feed(IN_SIZES, WaitAA, junk) == (WaitAA, [])
  {
    if |junk| == 0 {
      assert junk == [];
    } else {
      assert junk == [junk[0]] + junk[1..] && junk[0] in junk;
      Link.FeedOne(IN_SIZES, WaitAA, junk[0]);
      FeedJunk(junk[1..]);
      Link.FeedConcat(IN_SIZES, WaitAA, [junk[0]], junk[1..]);
    }
  }

  /** The bytes of a frame between its first and what follows the size. */
  function Middle(p: Packet): seq<byte>
    requires |p| >= 2
  {
    [SYNC_55, p[0], p[1]]
  }

  lemma FrameInThree(p: Packet)
    requires Registered(IN_SIZES, p)
    ensures Frame(p) == [SYNC_AA] + (Middle(p) + Tail(p)) && SYNC_AA !in Middle(p)
  {
    var q := p[2..];
    assert p == [p[0], p[1]] + q;
  }

  /** Such a frame, cut anywhere, is scanned like the tail of a refused one: nothing of it is queued. */
  lemma LostPart(pending: seq<Packet>, rx: Rx, p: Packet, k: nat)
    requires Held(SERVER_CONFIG, pending) && Registered(IN_SIZES, p) && ValidSizes(IN_SIZES) && Tame(IN_SIZES, p)
    requires Between(false, rx) && rx != WaitAA && 0 < k <= |Frame(p)|
    ensures var s := ReceiveAll(SERVER_CONFIG, Deferred.State(rx, pending), Frame(p)[..k]).state;
            Passed(false, s, pending, Frame(p)[k..])
  {
    hide ReceiveAll, Link.Feed, Scan, SERVER_CONFIG, Held, Frame, Tame, Tail, Middle;
    FrameInThree(p);
    LostStart(pending, rx);
    if k <= 4 {
      var seen, ahead := Middle(p)[..k - 1], Middle(p)[k - 1..];
      assert Frame(p)[..k] == [SYNC_AA] + seen && Frame(p)[k..] == ahead + Tail(p);
      ReceiveConcat(SERVER_CONFIG, Deferred.State(rx, pending), [SYNC_AA], seen);
      NoAA(Middle(p), k - 1);
      ReceiveJunk(SERVER_CONFIG, pending, seen);
      FeedJunk(ahead);
      TameFed(p);
      Link.FeedConcat(IN_SIZES, WaitAA, ahead, Tail(p));
      FinishesNothing(false, WaitAA, Frame(p)[k..]);
    } else {
      var seen, ahead := Tail(p)[..k - 4], Tail(p)[k - 4..];
      assert Frame(p)[..k] == [SYNC_AA] + (Middle(p) + seen) && Frame(p)[k..] == ahead;
      ReceiveConcat(SERVER_CONFIG, Deferred.State(rx, pending), [SYNC_AA], Middle(p) + seen);
      ReceiveJunk(SERVER_CONFIG, pending, Middle(p));
      ReceiveConcat(SERVER_CONFIG, Hunting(pending), Middle(p), seen);
      ServerDoubled();
      TameScanned(SERVER_CONFIG, p, pending, k - 4);
      var rx' := ReceiveAll(SERVER_CONFIG, Hunting(pending), seen).state.rx;
      ScanNone(IN_SIZES, rx', ahead);
      FinishesNothing(false, rx', ahead);
    }
  }

  lemma NoAA(bytes: seq<byte>, k: nat)
    requires SYNC_AA !in bytes && k <= |bytes|
    ensures SYNC_AA !in bytes[..k] && SYNC_AA !in bytes[k..]
  {
  }

  lemma TameFed(p: Packet)
    requires ValidSizes(IN_SIZES) && Registered(IN_SIZES, p) && Tame(IN_SIZES, p)
    ensures Link.Feed(IN_SIZES, WaitAA, Tail(p)).1 == [] && Between(false, Link.Feed(IN_SIZES, WaitAA, Tail(p)).0)
  {
    hide Link.Feed, Scan, SERVER_CONFIG, Tame, Tail;
    ServerDoubled();
    NothingHeld();
    TameScanned(SERVER_CONFIG, p, [], 0);
    assert Tail(p)[..0] == [] && Tail(p)[0..] == Tail(p);
    ReceiveNothing(SERVER_CONFIG, Hunting([]));
    ScanNone(IN_SIZES, WaitAA, Tail(p));
  }

  lemma NothingHeld()
    ensures Held(SERVER_CONFIG, [])
  {
    ServerDoubled();
  }

  // ---- any frame

  /** A cycle ends inside a frame: nothing is queued yet, and what is left of the frame finishes it or nothing. */
  lemma FramePart(strict: bool, rx: Rx, pending: seq<Packet>, p: Packet, k: nat) returns (ps: seq<Packet>)
    requires Held(SERVER_CONFIG, pending) && Registered(IN_SIZES, p) && ValidSizes(IN_SIZES) && 0 < k < |Frame(p)|
    requires Between(strict, rx)
    requires Mild(strict, p) || ReceiveAll(SERVER_CONFIG, Deferred.State(rx, pending), Frame(p)[..k]).errors == 0
    ensures var s := ReceiveAll(SERVER_CONFIG, Deferred.State(rx, pending), Frame(p)[..k]).state;
            s.pending == pending && Finishes(strict, s.rx, Frame(p)[k..], ps) && (ps == [] || ps == [p])
  {
    hide ReceiveAll, Link.Feed, SERVER_CONFIG, Harmless, Tame, Held, Frame;
    if rx != WaitAA {
      FirstByteLost(pending, rx, p, k);
      LostPart(pending, rx, p, k);
      ps := [];
    } else if k <= 3 || HasRoom(SERVER_CONFIG, pending, p) {
      ReceiveMidway(SERVER_CONFIG, pending, p, k);
      FeedMidway(IN_SIZES, p, k);
      assert Frame(p)[k..][..|Frame(p)[k..]| - 1] == Frame(p)[k..|p| + 2];
      ps := [p];
    } else {
      RefusedPart(strict, pending, p, k - 4);
      ps := [];
    }
  }

  lemma FirstByteLost(pending: seq<Packet>, rx: Rx, p: Packet, k: nat)
    requires ValidSizes(IN_SIZES) && Between(false, rx) && rx != WaitAA && 0 < k <= |Frame(p)|
    ensures ReceiveAll(SERVER_CONFIG, Deferred.State(rx, pending), Frame(p)[..k]).errors > 0
  {
    hide ReceiveAll, Link.Feed, SERVER_CONFIG;
    LostStart(pending, rx);
    assert Frame(p)[..k] == [SYNC_AA] + Frame(p)[1..k];
    ReceiveConcat(SERVER_CONFIG, Deferred.State(rx, pending), [SYNC_AA], Frame(p)[1..k]);
  }

  /** A whole frame either joins the queue or is passed over. */
  lemma FrameWhole(strict: bool, rx: Rx, pending: seq<Packet>, p: Packet) returns (more: seq<Packet>)
    requires Held(SERVER_CONFIG, pending) && Registered(IN_SIZES, p) && ValidSizes(IN_SIZES) && Between(strict, rx)
    requires Mild(strict, p) || ReceiveAll(SERVER_CONFIG, Deferred.State(rx, pending), Frame(p)).errors == 0
    ensures var s := ReceiveAll(SERVER_CONFIG, Deferred.State(rx, pending), Frame(p)).state;
            s.pending == pending + more && Between(strict, s.rx)
    ensures (more == [] || more == [p]) && Held(SERVER_CONFIG, pending + more)
  {
    hide ReceiveAll, Link.Feed, SERVER_CONFIG, Harmless, Tame, Held, Frame;
    assert pending + [] == pending && Frame(p)[..|Frame(p)|] == Frame(p) && Frame(p)[|Frame(p)|..] == [];
    if rx != WaitAA {
      FirstByteLost(pending, rx, p, |Frame(p)|);
      LostPart(pending, rx, p, |Frame(p)|);
      FeedNothing(ReceiveAll(SERVER_CONFIG, Deferred.State(rx, pending), Frame(p)).state.rx);
      more := [];
    } else if HasRoom(SERVER_CONFIG, pending, p) {
      ReceiveFrame(SERVER_CONFIG, pending, p);
      more := if |pending| < PENDING_PACKETS_MAX then [p] else [];
      if |pending| < PENDING_PACKETS_MAX {
        HeldMore(pending, p);
      }
    } else {
      assert 4 + |Tail(p)| == |Frame(p)|;
      RefusedPart(strict, pending, p, |Tail(p)|);
      FeedNothing(ReceiveAll(SERVER_CONFIG, Hunting(pending), Frame(p)).state.rx);
      more := [];
    }
  }

  lemma HeldMore(pending: seq<Packet>, p: Packet)
    requires Held(SERVER_CONFIG, pending) && HasRoom(SERVER_CONFIG, pending, p) && |pending| < PENDING_PACKETS_MAX
    ensures Held(SERVER_CONFIG, pending + [p])
  {
    ServerDoubled();
    forall t | t in SERVER_CONFIG
      ensures CountType(pending + [p], t) <= 2
    {
      CountTypeAppend(pending, p, t);
    }
  }

  lemma {:induction false} FramesFirst(ps: seq<Packet>)
    requires |ps| > 0
    ensures Frames(ps) == Frame(ps[0]) + Frames(ps[1..])
  {
    var n := |ps| - 1;
    if n == 0 {
      assert ps[..0] == [] && ps[1..] == [];
    } else {
      hide Frame;
      FramesFirst(ps[..n]);
      assert ps[..n][1..] == ps[1..][..n - 1];
    }
  }

  // ---- the frames of one cycle

  /** What a cycle on part of the frames `ps` leaves behind: `rest` and the frames from `j` on. */
  predicate Leaves(strict: bool, ps: seq<Packet>, input: seq<byte>, rx: Rx, j: nat, rest: seq<byte>, begun: seq<Packet>)
    requires ValidSizes(IN_SIZES) && WellFormed(IN_SIZES, rx)
  {
    && j <= |ps| && input + rest + Frames(ps[j..]) == Frames(ps)
    && Finishes(strict, rx, rest, begun) && forall p :: p in begun ==> p in ps
  }

  lemma {:induction false} Batch(strict: bool, rx: Rx, pending: seq<Packet>, ps: seq<Packet>, input: seq<byte>)
    returns (more: seq<Packet>, j: nat, rest: seq<byte>, begun: seq<Packet>)
    requires ValidSizes(IN_SIZES) && Held(SERVER_CONFIG, pending) && AllSendable(ps) && input <= Frames(ps)
    requires Between(strict, rx)
    requires AllMild(strict, ps) || ReceiveAll(SERVER_CONFIG, Deferred.State(rx, pending), input).errors == 0
    ensures var s := ReceiveAll(SERVER_CONFIG, Deferred.State(rx, pending), input).state;
            s.pending == pending + more && Leaves(strict, ps, input, s.rx, j, rest, begun)
    ensures forall p :: p in more ==> p in ps
    decreases |ps|
  {
    hide ReceiveAll, Link.Feed, SERVER_CONFIG, Mild, Held, Frame;
    more, j, rest, begun := [], 0, [], [];
    assert pending + [] == pending;
    if |input| == 0 {
      assert input == [] && ps[0..] == ps && [] + [] + Frames(ps) == Frames(ps);
      ReceiveNothing(SERVER_CONFIG, Deferred.State(rx, pending));
      FeedNothing(rx);
    } else {
      FramesFirst(ps);
      var p, frame := ps[0], Frame(ps[0]);
      if |input| < |frame| {
        assert input == frame[..|input|];
        begun := FramePart(strict, rx, pending, p, |input|);
        rest, j := frame[|input|..], 1;
      } else {
        var tail := input[|frame|..];
        assert input == frame + tail && tail <= Frames(ps[1..]);
        ReceiveConcat(SERVER_CONFIG, Deferred.State(rx, pending), frame, tail);
        var first := FrameWhole(strict, rx, pending, p);
        var rx' := ReceiveAll(SERVER_CONFIG, Deferred.State(rx, pending), frame).state.rx;
        more, j, rest, begun := Batch(strict, rx', pending + first, ps[1..], tail);
        assert ps[1..][j..] == ps[j + 1..];
        Associate(pending, first, more);
        more, j := first + more, j + 1;
      }
    }
  }

  // ---- whole runs

  /** The packets sent last whose whole frames are among the last `n` bytes sent. */
  function OnWire(sent: seq<Packet>, n: nat): seq<Packet> {
    if |sent| == 0 || n < |Frame(sent[|sent| - 1])| then []
    else OnWire(sent[..|sent| - 1], n - |Frame(sent[|sent| - 1])|) + [sent[|sent| - 1]]
  }

  lemma {:induction false} OnWireCovers(sent: seq<Packet>, k: nat, n: nat)
    requires k <= |sent| && |Frames(sent[k..])| <= n
    ensures forall p :: p in sent[k..] ==> p in OnWire(sent, n)
  {
    if k < |sent| {
      hide Frame;
      var last := |sent| - 1;
      assert sent[k..][..last - k] == sent[..last][k..];
      OnWireCovers(sent[..last], k, n - |Frame(sent[last])|);
    }
  }

  /** The wire holds the end of something begun, then the frames of the packets sent last. */
  predicate Aligned(strict: bool, s: System, n: nat, rest: seq<byte>, begun: seq<Packet>)
    requires Consistent(s)
  {
    && n <= |s.sent| && s.wire == rest + Frames(s.sent[n..])
    && Finishes(strict, s.server.rx, rest, begun) && forall p :: p in begun ==> p in s.sent
  }

  /** The server has acted only on what the client sent. */
  predicate OnlySent(s: System) {
    forall p :: p in s.acted ==> p in s.sent
  }

  /** And will finish only what the client sent. */
  ghost predicate FromClient(strict: bool, s: System)
    requires Consistent(s)
  {
    && AllSendable(s.sent) && OnlySent(s)
    && exists n: nat, rest, begun :: Aligned(strict, s, n, rest, begun)
  }

  /** In this cycle the server refuses nothing, or what is still on the wire may be refused. */
  ghost predicate Cautious(strict: bool, s: System, n: nat)
    requires Consistent(s) && n <= |s.wire|
  {
    Received(s, n).errors == 0 || AllMild(strict, OnWire(s.sent, |s.wire|))
  }

  ghost predicate AllCautious(strict: bool, events: seq<Event>) {
    forall k :: 0 <= k < |events| && events[k].Serve? && Enabled(Run(events[..k]), events[k])
      ==> Cautious(strict, Run(events[..k]), events[k].n)
  }

  lemma SendFromClient(strict: bool, s: System, p: Packet, fits: bool)
    requires Consistent(s) && FromClient(strict, s) && |p| >= 4 && |p| == p[1]
    ensures FromClient(strict, Sending(s, p, fits))
  {
    hide Link.Feed, IN_SIZES, CLIENT_SIZES, Frame, OUT_SIZES, Stamp, Between;
    var n: nat, rest, begun :| Aligned(strict, s, n, rest, begun);
    if Checked(p) == Success && fits {
      var q := Stamp(p, (s.uses + 1) % 0x1_0000);
      SentIsRegistered(p, q);
      assert (s.sent + [q])[n..] == s.sent[n..] + [q] && (s.sent[n..] + [q])[..|s.sent[n..]|] == s.sent[n..];
      Associate(rest, Frames(s.sent[n..]), Frame(q));
    }
    assert Aligned(strict, Sending(s, p, fits), n, rest, begun);
  }

  /** The cycle ends before what was begun is finished. */
  lemma ServeBegun(strict: bool, s: System, k: nat, n: nat, rest: seq<byte>, begun: seq<Packet>)
    requires Consistent(s) && Aligned(strict, s, n, rest, begun) && k < |rest|
    ensures Received(s, k).state.pending == []
    ensures Finishes(strict, Received(s, k).state.rx, rest[k..], begun)
    ensures s.wire[k..] == rest[k..] + Frames(s.sent[n..])
  {
    hide Link.Feed, ReceiveAll, SERVER_CONFIG, Between;
    var last := |rest| - 1;
    assert s.wire[..k] == rest[..k] && rest[..last] == rest[..k] + rest[k..last] && rest == rest[..k] + rest[k..];
    Link.FeedConcat(IN_SIZES, s.server.rx, rest[..k], rest[k..last]);
    Link.FeedConcat(IN_SIZES, s.server.rx, rest[..k], rest[k..]);
    FreshReads(s.server.rx, rest[..k]);
    assert rest[k..][..|rest[k..]| - 1] == rest[k..last];
    var ps := Link.Feed(IN_SIZES, Link.Feed(IN_SIZES, s.server.rx, rest[..k]).0, rest[k..]).1;
    assert [] + ps == ps;
  }

  lemma HeldAtMostOne(ps: seq<Packet>)
    requires |ps| <= 1 && forall p :: p in ps ==> Registered(IN_SIZES, p)
    ensures Held(SERVER_CONFIG, ps)
  {
    ServerDoubled();
  }

  lemma FinishesBetween(strict: bool, rx: Rx, rest: seq<byte>, begun: seq<Packet>)
    requires ValidSizes(IN_SIZES) && WellFormed(IN_SIZES, rx) && Finishes(strict, rx, rest, begun)
    ensures |begun| <= 1 && Between(strict, Link.Feed(IN_SIZES, rx, rest).0)
  {
  }

  lemma MildCovers(strict: bool, sent: seq<Packet>, k: nat, n: nat)
    requires k <= |sent| && |Frames(sent[k..])| <= n && AllMild(strict, OnWire(sent, n))
    ensures AllMild(strict, sent[k..])
  {
    hide Mild, IN_SIZES, Frames, OnWire;
    OnWireCovers(sent, k, n);
    forall i | 0 <= i < |sent[k..]|
      ensures Registered(IN_SIZES, sent[k..][i]) && Mild(strict, sent[k..][i])
    {
      var p := sent[k..][i];
      assert p in sent[k..] && p in OnWire(sent, n);
      var j :| 0 <= j < |OnWire(sent, n)| && OnWire(sent, n)[j] == p;
    }
  }

  /** The cycle finishes it and goes on into the frames behind. */
  lemma ServeBatch(strict: bool, s: System, k: nat, n: nat, rest: seq<byte>, begun: seq<Packet>)
      returns (n': nat, rest': seq<byte>, begun': seq<Packet>)
    requires Consistent(s) && AllSendable(s.sent) && Aligned(strict, s, n, rest, begun) && |rest| <= k <= |s.wire|
    requires Cautious(strict, s, k)
    ensures n' <= |s.sent| && s.wire[k..] == rest' + Frames(s.sent[n'..])
    ensures Finishes(strict, Received(s, k).state.rx, rest', begun') && forall p :: p in begun' ==> p in s.sent
    ensures forall p :: p in Received(s, k).state.pending ==> p in s.sent
  {
    hide Link.Feed, ReceiveAll, SERVER_CONFIG, Mild, Held, Frame, Frames, Finishes, OnWire, AllMild, Between;
    var ps, input := s.sent[n..], s.wire[|rest|..k];
    assert s.wire[..k] == rest + input && input <= Frames(ps) && s.wire[k..] == Frames(ps)[|input|..];
    FinishRead(strict, s.server.rx, rest, begun);
    ReceiveConcat(SERVER_CONFIG, s.server, rest, input);
    FinishesBetween(strict, s.server.rx, rest, begun);
    HeldAtMostOne(begun);
    if AllMild(strict, OnWire(s.sent, |s.wire|)) {
      MildCovers(strict, s.sent, n, |s.wire|);
    }
    var more, j;
    more, j, rest', begun' := Batch(strict, Link.Feed(IN_SIZES, s.server.rx, rest).0, begun, ps, input);
    n' := n + j;
    assert ps[j..] == s.sent[n'..];
    assert Frames(ps)[|input|..] == rest' + Frames(ps[j..]) by {
      assert Frames(ps) == input + (rest' + Frames(ps[j..]));
    }
  }

  lemma ServeFromClient(strict: bool, s: System, k: nat, w: World)
    requires Consistent(s) && FromClient(strict, s) && Enabled(s, Serve(k, w)) && Cautious(strict, s, k)
    ensures FromClient(strict, Serving(s, k, w))
  {
    hide Link.Feed, ReceiveAll, SERVER_CONFIG, IN_SIZES, CLIENT_SIZES, Mild, Cycle, SendAll, ValidWorld,
         Finishes, Received, OnWire;
    var n: nat, rest, begun :| Aligned(strict, s, n, rest, begun);
    if k < |rest| {
      ServeBegun(strict, s, k, n, rest, begun);
      assert Aligned(strict, Serving(s, k, w), n, rest[k..], begun);
    } else {
      var n', rest', begun' := ServeBatch(strict, s, k, n, rest, begun);
      assert Aligned(strict, Serving(s, k, w), n', rest', begun');
    }
  }

  lemma ReadFromClient(strict: bool, s: System, k: nat)
    requires Consistent(s) && FromClient(strict, s) && k <= |s.back|
    ensures FromClient(strict, Reading(s, k))
  {
    hide Link.Feed, IN_SIZES, CLIENT_SIZES, Finishes;
    var n: nat, rest, begun :| Aligned(strict, s, n, rest, begun);
    assert Aligned(strict, Reading(s, k), n, rest, begun);
  }

  lemma NextFromClient(strict: bool, s: System, e: Event)
    requires Consistent(s) && FromClient(strict, s)
    requires e.Serve? && Enabled(s, e) ==> Cautious(strict, s, e.n)
    ensures FromClient(strict, Next(s, e))
  {
    hide FromClient, Sending, Serving, Reading, Cautious;
    if Enabled(s, e) {
      match e
      case Send(p, fits) => SendFromClient(strict, s, p, fits);
      case Serve(n, w) => ServeFromClient(strict, s, n, w);
      case Read(n) => ReadFromClient(strict, s, n);
    }
  }

  lemma CautiousPrefix(strict: bool, events: seq<Event>)
    requires |events| > 0 && AllCautious(strict, events)
    ensures AllCautious(strict, events[..|events| - 1])
  {
    hide Run, Enabled, Cautious;
    var n := |events| - 1;
    assert forall k :: 0 <= k <= n ==> events[..n][..k] == events[..k];
  }

  /** In every cautious run the server acts only on packets the client sent. */
  lemma {:induction false} RunFromClient(strict: bool, events: seq<Event>)
    requires AllCautious(strict, events)
    ensures FromClient(strict, Run(events)) && OnlySent(Run(events))
  {
    if |events| == 0 {
      BeginConsistent();
      FeedNothing(WaitAA);
      assert [] + Frames([]) == [];
      assert Aligned(strict, BEGIN, 0, [], []);
    } else {
      hide FromClient, Enabled, Cautious, Next, Consistent, OnlySent;
      CautiousPrefix(strict, events);
      RunFromClient(strict, events[..|events| - 1]);
      NextFromClient(strict, Run(events[..|events| - 1]), events[|events| - 1]);
      OnlySentOf(strict, Run(events));
    }
  }

  lemma OnlySentOf(strict: bool, s: System)
    requires Consistent(s) && FromClient(strict, s)
    ensures OnlySent(s)
  {
  }

  /** Cautious in one of the two ways. */
  ghost predicate Careful(events: seq<Event>) {
    AllCautious(true, events) || AllCautious(false, events)
  }

  lemma CarefulSent(events: seq<Event>)
    requires Careful(events)
    ensures OnlySent(Run(events))
  {
    hide AllCautious, OnlySent, Run;
    if AllCautious(true, events) {
      RunFromClient(true, events);
    } else {
      RunFromClient(false, events);
    }
  }
}
