/**
 * A frame for which the server has no buffer: the receiver goes back to hunting after the size byte and
 * scans the rest of the frame.  Which packets leave no trace when that happens?
 */
module Refusal {
  import opened Bytes
  import opened Deferred
  import opened Framing
  import opened Reception
  import Epoch

  /** Which types have no free buffer. */
  type Full = f: seq<bool> | |f| == PACKET_TYPE_MAX witness NONE

  const NONE: seq<bool> := [
    false, false, false, false, false, false, false, false, false, false, false, false, false, false, false, false]

  /** How many of the types below `n` are full. */
  function FullTypes(full: Full, n: nat): nat
    requires n <= PACKET_TYPE_MAX
  {
    if n == 0 then 0 else FullTypes(full, n - 1) + if full[n - 1] then 1 else 0
  }

  /** The receiver over some bytes while the same types stay full, and what it delivers. */
  function Scan(sizes: Sizes, full: Full, rx: Rx, bytes: seq<byte>): (r: (Rx, seq<Packet>))
    requires ValidSizes(sizes) && WellFormed(sizes, rx)
    ensures WellFormed(sizes, r.0)
  {
    if |bytes| == 0 then (rx, [])
    else
      var (before, ps) := Scan(sizes, full, rx, bytes[..|bytes| - 1]);
      var c := bytes[|bytes| - 1];
      var room := before.WaitSize? && !full[before.t];
      StepKeepsWellFormed(sizes, before, c, room);
      var (after, status) := Step(sizes, before, c, room);
      (after, if status == SyncChecksum then ps + [before.p] else ps)
  }

  /** Every type has two buffers, as on the server. */
  predicate Doubled(config: Config) {
    ValidSizes(SizesOf(config)) && forall t :: t in config ==> config[t].buffers == 2
  }

  /** Pending packets as the rings allow them. */
  ghost predicate Held(config: Config, pending: seq<Packet>) {
    WellFormedState(config, Hunting(pending)) && forall t :: t in config ==> CountType(pending, t) <= 2
  }

  function FullOf(config: Config, pending: seq<Packet>): Full {
    seq(PACKET_TYPE_MAX, t => t in config && CountType(pending, t) >= 2)
  }

  // ---- scanning is what the handler does

  lemma ScanReceivesByte(config: Config, pending: seq<Packet>, rx: Rx, c: byte)
    requires Doubled(config) && WellFormed(SizesOf(config), rx)
    ensures var full := FullOf(config, pending);
            Room(config, State(rx, pending)) <==> rx.WaitSize? && !full[rx.t]
  {
  }

  /**
   * As long as nothing is delivered, or the queue is full, the handler scans; and what it delivers to a
   * queue with room stays.
   */
  lemma {:induction false} ScanReceives(config: Config, pending: seq<Packet>, rx: Rx, bytes: seq<byte>)
    requires Doubled(config) && WellFormedState(config, State(rx, pending))
    ensures var (rx', ps) := Scan(SizesOf(config), FullOf(config, pending), rx, bytes);
            var s := ReceiveAll(config, State(rx, pending), bytes).state;
            && (ps == [] || |pending| == PENDING_PACKETS_MAX ==> s == State(rx', pending))
            && (ps != [] && |pending| < PENDING_PACKETS_MAX ==> |s.pending| > |pending|)
  {
    if |bytes| > 0 {
      hide Step, Room, FullOf, PacketStatus.IsError, WellFormedState, Doubled, SizesOf;
      var n := |bytes| - 1;
      ScanReceives(config, pending, rx, bytes[..n]);
      ScanReceivesByte(config, pending, Scan(SizesOf(config), FullOf(config, pending), rx, bytes[..n]).0, bytes[n]);
    }
  }

  // ---- packets that leave no trace

  /**
   * A cycle may end anywhere in the scan, after which the queue is empty and every type has room.  Both
   * parts together deliver nothing that could be queued and end in hunting.
   */
  predicate Ignored(sizes: Sizes, p: Packet, full: Full, k: nat)
    requires ValidSizes(sizes) && |p| >= 2 && k <= |Tail(p)|
  {
    var (rx, ps) := Scan(sizes, full, WaitAA, Tail(p)[..k]);
    && (ps == [] || 2 * FullTypes(full, PACKET_TYPE_MAX) == PENDING_PACKETS_MAX)
    && Scan(sizes, NONE, rx, Tail(p)[k..]) == (WaitAA, [])
  }

  /** The types that can be full when `p` is refused: its own among them, and no more than the queue can hold. */
  predicate CanBeFull(sizes: Sizes, full: Full, p: Packet)
    requires Registered(sizes, p) && ValidSizes(sizes)
  {
    && full[p[0]] && 2 * FullTypes(full, PACKET_TYPE_MAX) <= PENDING_PACKETS_MAX
    && forall t :: 0 <= t < PACKET_TYPE_MAX && full[t] ==> t in sizes
  }

  /** A condition on the bytes of the packet alone: finitely many sets of full types and cuts to look at. */
  ghost predicate Harmless(sizes: Sizes, p: Packet)
    requires ValidSizes(sizes) && Registered(sizes, p)
  {
    forall full: Full, k: nat :: CanBeFull(sizes, full, p) && k <= |Tail(p)| ==> Ignored(sizes, p, full, k)
  }

  /** Refused with this queue and with the cycle ending after `k` bytes of the scan, the frame is as if never sent. */
  predicate Vanishes(config: Config, p: Packet, pending: seq<Packet>, k: nat)
    requires ValidSizes(SizesOf(config)) && |p| >= 2 && k <= |Tail(p)|
  {
    var s := ReceiveAll(config, Hunting(pending), Frame(p)[..4 + k]).state;
    s.pending == pending && ReceiveAll(config, State(s.rx, []), Frame(p)[4 + k..]).state == Hunting([])
  }

  /** From the size byte on, a refused frame is its tail scanned from hunting. */
  lemma RefusedIsScan(config: Config, p: Packet, pending: seq<Packet>, k: nat)
    requires ValidSizes(SizesOf(config)) && Registered(SizesOf(config), p) && !HasRoom(config, pending, p)
    requires k <= |Tail(p)|
    ensures var f := ReceiveAll(config, Hunting(pending), Tail(p)[..k]);
            ReceiveAll(config, Hunting(pending), Frame(p)[..4 + k]) == f.(errors := f.errors + 1)
    ensures Frame(p)[4 + k..] == Tail(p)[k..]
  {
    hide ReceiveAll;
    HeadRefused(config, pending, p);
    FrameIsHeadAndTail(p, k);
    ReceiveConcat(config, Hunting(pending), Frame(p)[..4], Tail(p)[..k]);
  }

  lemma NothingFull(config: Config)
    ensures FullOf(config, []) == NONE
  {
  }

  /** A queue that makes these types full is at least twice as long. */
  lemma {:induction false} FullNeedsPending(config: Config, pending: seq<Packet>, n: nat)
    requires Doubled(config) && n <= PACKET_TYPE_MAX
    ensures 2 * FullTypes(FullOf(config, pending), n) <= Below(pending, n) <= |pending|
  {
    BelowBound(pending, n);
    if n > 0 {
      FullNeedsPending(config, pending, n - 1);
      BelowStep(pending, n - 1);
    }
  }

  /** How many pending packets are of a type below `n`. */
  function Below(pending: seq<Packet>, n: nat): nat {
    if |pending| == 0 then 0 else (if |pending[0]| > 0 && pending[0][0] < n then 1 else 0) + Below(pending[1..], n)
  }

  lemma {:induction false} BelowBound(pending: seq<Packet>, n: nat)
    ensures Below(pending, n) <= |pending|
  {
    if |pending| > 0 {
      BelowBound(pending[1..], n);
    }
  }

  lemma {:induction false} BelowStep(pending: seq<Packet>, n: nat)
    ensures Below(pending, n + 1) == Below(pending, n) + CountType(pending, n)
  {
    if |pending| > 0 {
      BelowStep(pending[1..], n);
    }
  }

  /** Whatever is pending, a harmless packet for which there is no room vanishes. */
  lemma HarmlessVanishes(config: Config, p: Packet, pending: seq<Packet>, k: nat)
    requires Doubled(config) && Registered(SizesOf(config), p) && Harmless(SizesOf(config), p)
    requires Held(config, pending) && !HasRoom(config, pending, p) && k <= |Tail(p)|
    ensures Vanishes(config, p, pending, k)
    ensures Scan(SizesOf(config), NONE, ReceiveAll(config, Hunting(pending), Frame(p)[..4 + k]).state.rx, Tail(p)[k..])
         == (WaitAA, [])
  {
    var full := FullOf(config, pending);
    FullNeedsPending(config, pending, PACKET_TYPE_MAX);
    assert CanBeFull(SizesOf(config), full, p);
    assert Ignored(SizesOf(config), p, full, k);
    hide Scan, ReceiveAll, FullOf, SizesOf, FullTypes, Harmless, CanBeFull;
    RefusedIsScan(config, p, pending, k);
    ScanReceives(config, pending, WaitAA, Tail(p)[..k]);
    NothingFull(config);
    ScanReceives(config, [], Scan(SizesOf(config), full, WaitAA, Tail(p)[..k]).0, Tail(p)[k..]);
  }

  // ---- and only those

  /** Any packet of a type. */
  function Sample(sizes: Sizes, t: nat): (p: Packet)
    requires ValidSizes(sizes) && t in sizes
    ensures Registered(sizes, p) && p[0] == t
  {
    seq(sizes[t], i requires 0 <= i => if i == 0 then t else if i == 1 then sizes[t] else 0)
  }

  /** A queue that makes exactly the given types below `n` full. */
  function Filling(sizes: Sizes, full: Full, n: nat): seq<Packet>
    requires ValidSizes(sizes) && n <= PACKET_TYPE_MAX
    requires forall t :: 0 <= t < PACKET_TYPE_MAX && full[t] ==> t in sizes
  {
    if n == 0 then []
    else
      Filling(sizes, full, n - 1) + if full[n - 1] then [Sample(sizes, n - 1), Sample(sizes, n - 1)] else []
  }

  lemma {:induction false} FillingCounts(sizes: Sizes, full: Full, n: nat, t: nat)
    requires ValidSizes(sizes) && n <= PACKET_TYPE_MAX && t < PACKET_TYPE_MAX
    requires forall u :: 0 <= u < PACKET_TYPE_MAX && full[u] ==> u in sizes
    ensures |Filling(sizes, full, n)| == 2 * FullTypes(full, n)
    ensures forall k :: 0 <= k < |Filling(sizes, full, n)| ==> Registered(sizes, Filling(sizes, full, n)[k])
    ensures CountType(Filling(sizes, full, n), t) == if t < n && full[t] then 2 else 0
  {
    if n > 0 {
      FillingCounts(sizes, full, n - 1, t);
      var before := Filling(sizes, full, n - 1);
      assert before + [] == before;
      if full[n - 1] {
        var p := Sample(sizes, n - 1);
        assert before + [p, p] == before + [p] + [p];
        Epoch.CountTypeAppend(before, p, t);
        Epoch.CountTypeAppend(before + [p], p, t);
      }
    }
  }

  /** A hunting handler with nothing pending reaches this queue by receiving its packets' frames. */
  lemma {:induction false} FillingReached(config: Config, full: Full, n: nat)
    requires Doubled(config) && n <= PACKET_TYPE_MAX && 2 * FullTypes(full, n) <= PENDING_PACKETS_MAX
    requires forall t :: 0 <= t < PACKET_TYPE_MAX && full[t] ==> t in SizesOf(config)
    ensures var pending := Filling(SizesOf(config), full, n);
            ReceiveAll(config, Hunting([]), Frames(pending)) == Flushed(Hunting(pending), |pending|, 0)
  {
    if n == 0 {
      ReceiveNothing(config, Hunting([]));
    } else {
      hide ReceiveAll, SizesOf, Frames, Sample, Filling, FullTypes;
      var before := Filling(SizesOf(config), full, n - 1);
      FillingStep(SizesOf(config), full, n);
      FillingReached(config, full, n - 1);
      FillingCounts(SizesOf(config), full, n - 1, n - 1);
      if full[n - 1] {
        TwoMoreFrames(config, before, n - 1);
      }
    }
  }

  lemma FillingStep(sizes: Sizes, full: Full, n: nat)
    requires ValidSizes(sizes) && 0 < n <= PACKET_TYPE_MAX
    requires forall u :: 0 <= u < PACKET_TYPE_MAX && full[u] ==> u in sizes
    ensures FullTypes(full, n) == FullTypes(full, n - 1) + if full[n - 1] then 1 else 0
    ensures var before := Filling(sizes, full, n - 1);
            && (full[n - 1] ==> Filling(sizes, full, n) == before + [Sample(sizes, n - 1), Sample(sizes, n - 1)])
            && (!full[n - 1] ==> Filling(sizes, full, n) == before)
  {
    assert Filling(sizes, full, n - 1) + [] == Filling(sizes, full, n - 1);
  }

  lemma TwoMoreFrames(config: Config, pending: seq<Packet>, t: nat)
    requires Doubled(config) && t in config && CountType(pending, t) == 0 && |pending| + 2 <= PENDING_PACKETS_MAX
    requires ReceiveAll(config, Hunting([]), Frames(pending)) == Flushed(Hunting(pending), |pending|, 0)
    ensures t in SizesOf(config)
    ensures var more := [Sample(SizesOf(config), t), Sample(SizesOf(config), t)];
            ReceiveAll(config, Hunting([]), Frames(pending + more)) == Flushed(Hunting(pending + more), |pending| + 2, 0)
  {
    hide ReceiveAll, Frames;
    var p := Sample(SizesOf(config), t);
    assert pending + [p, p] == pending + [p] + [p];
    OneMoreFrame(config, pending, p);
    Epoch.CountTypeAppend(pending, p, t);
    OneMoreFrame(config, pending + [p], p);
  }

  lemma OneMoreFrame(config: Config, pending: seq<Packet>, p: Packet)
    requires ValidSizes(SizesOf(config)) && HasRoom(config, pending, p) && |pending| < PENDING_PACKETS_MAX
    requires ReceiveAll(config, Hunting([]), Frames(pending)) == Flushed(Hunting(pending), |pending|, 0)
    ensures ReceiveAll(config, Hunting([]), Frames(pending + [p])) == Flushed(Hunting(pending + [p]), |pending| + 1, 0)
  {
    hide ReceiveAll, SizesOf, Frame, HasRoom;
    assert (pending + [p])[..|pending|] == pending;
    ReceiveFrame(config, pending, p);
    ReceiveConcat(config, Hunting([]), Frames(pending), Frame(p));
  }

  /** Every choice of full types that the queue can hold comes about. */
  lemma FillingHeld(config: Config, full: Full, p: Packet)
    requires Doubled(config) && Registered(SizesOf(config), p) && CanBeFull(SizesOf(config), full, p)
    ensures var pending := Filling(SizesOf(config), full, PACKET_TYPE_MAX);
            && Held(config, pending) && FullOf(config, pending) == full && !HasRoom(config, pending, p)
            && |pending| == 2 * FullTypes(full, PACKET_TYPE_MAX)
  {
    hide Filling, FullTypes;
    var pending := Filling(SizesOf(config), full, PACKET_TYPE_MAX);
    forall t | 0 <= t < PACKET_TYPE_MAX
      ensures CountType(pending, t) == if full[t] then 2 else 0
    {
      FillingCounts(SizesOf(config), full, PACKET_TYPE_MAX, t);
    }
    FillingCounts(SizesOf(config), full, PACKET_TYPE_MAX, 0);
  }

  /**
   * Exactly the harmless packets leave no trace: they vanish whenever they are refused, whatever is pending
   * and wherever the cycle ends, and any other packet leaves a trace in some situation.
   */
  lemma HarmlessExactly(config: Config, p: Packet)
    requires Doubled(config) && Registered(SizesOf(config), p)
    ensures Harmless(SizesOf(config), p) <==>
      forall pending: seq<Packet>, k: nat :: Held(config, pending) && !HasRoom(config, pending, p) && k <= |Tail(p)|
        ==> Vanishes(config, p, pending, k)
  {
    hide Vanishes, Ignored, HasRoom, Held, CanBeFull;
    if Harmless(SizesOf(config), p) {
      forall pending: seq<Packet>, k: nat | Held(config, pending) && !HasRoom(config, pending, p) && k <= |Tail(p)|
        ensures Vanishes(config, p, pending, k)
      {
        HarmlessVanishes(config, p, pending, k);
      }
    } else {
      var full: Full, k: nat :|
        CanBeFull(SizesOf(config), full, p) && k <= |Tail(p)| && !Ignored(SizesOf(config), p, full, k);
      FillingHeld(config, full, p);
      TraceLeft(config, p, full, k);
    }
  }

  lemma TraceLeft(config: Config, p: Packet, full: Full, k: nat)
    requires Doubled(config) && Registered(SizesOf(config), p) && CanBeFull(SizesOf(config), full, p)
    requires k <= |Tail(p)| && !Ignored(SizesOf(config), p, full, k)
    ensures !Vanishes(config, p, Filling(SizesOf(config), full, PACKET_TYPE_MAX), k)
  {
    FillingHeld(config, full, p);
    hide Scan, ReceiveAll, FullOf, SizesOf, FullTypes, Filling, CanBeFull;
    var pending := Filling(SizesOf(config), full, PACKET_TYPE_MAX);
    RefusedIsScan(config, p, pending, k);
    ScanReceives(config, pending, WaitAA, Tail(p)[..k]);
    NothingFull(config);
    ScanReceives(config, [], Scan(SizesOf(config), full, WaitAA, Tail(p)[..k]).0, Tail(p)[k..]);
  }

  // ---- easy to check

  /** 0xAA is never followed by 0x55, and does not come last. */
  predicate Calm(bytes: seq<byte>) {
    forall i :: 0 <= i < |bytes| && bytes[i] == SYNC_AA ==> i + 1 < |bytes| && bytes[i + 1] != SYNC_55
  }

  /** The receiver over calm bytes: it never gets further than the first sync byte. */
  lemma {:induction false} ScanCalm(sizes: Sizes, full: Full, bytes: seq<byte>, from: nat, n: nat, rx: Rx)
    requires ValidSizes(sizes) && Calm(bytes) && from <= n <= |bytes|
    requires rx == WaitAA || (rx == Wait55 && from > 0 && bytes[from - 1] == SYNC_AA)
    ensures var (rx', ps) := Scan(sizes, full, rx, bytes[from..n]);
            ps == [] && (rx' == WaitAA || (rx' == Wait55 && n > 0 && bytes[n - 1] == SYNC_AA))
  {
    if from < n {
      ScanCalm(sizes, full, bytes, from, n - 1, rx);
      assert bytes[from..n][..n - 1 - from] == bytes[from..n - 1];
    }
  }

  /** A packet whose tail is calm is harmless. */
  lemma CalmIsHarmless(sizes: Sizes, p: Packet)
    requires ValidSizes(sizes) && Registered(sizes, p) && Calm(Tail(p))
    ensures Harmless(sizes, p)
  {
    var tail := Tail(p);
    forall full: Full, k: nat | CanBeFull(sizes, full, p) && k <= |tail|
      ensures Ignored(sizes, p, full, k)
    {
      ScanCalm(sizes, full, tail, 0, k, WaitAA);
      assert tail[0..k] == tail[..k] && tail[k..] == tail[k..|tail|];
      ScanCalm(sizes, NONE, tail, k, |tail|, Scan(sizes, full, WaitAA, tail[..k]).0);
    }
  }

  // ---- packets that deliver nothing else

  /** In the middle of a packet, where the bytes that follow are taken for its payload. */
  predicate Inside(rx: Rx) {
    rx.WaitPayload? || rx.WaitChecksum?
  }

  /** Like Ignored, but the scan may end anywhere except inside a packet. */
  predicate Uneventful(sizes: Sizes, p: Packet, full: Full, k: nat)
    requires ValidSizes(sizes) && |p| >= 2 && k <= |Tail(p)|
  {
    var (rx, ps) := Scan(sizes, full, WaitAA, Tail(p)[..k]);
    var (rx', ps') := Scan(sizes, NONE, rx, Tail(p)[k..]);
    && (ps == [] || 2 * FullTypes(full, PACKET_TYPE_MAX) == PENDING_PACKETS_MAX)
    && ps' == [] && !Inside(rx')
  }

  /** Whatever is full and wherever the cycle ends, a scan of what follows the size delivers no packet. */
  ghost predicate Tame(sizes: Sizes, p: Packet)
    requires ValidSizes(sizes) && |p| >= 2
  {
    forall full: Full, k: nat :: 2 * FullTypes(full, PACKET_TYPE_MAX) <= PENDING_PACKETS_MAX && k <= |Tail(p)|
      ==> Uneventful(sizes, p, full, k)
  }

  /** The first four bytes of a frame of a registered type and size. */
  predicate HeaderAt(sizes: Sizes, bytes: seq<byte>, i: nat) {
    && i + 3 < |bytes| && bytes[i] == SYNC_AA && bytes[i + 1] == SYNC_55
    && bytes[i + 2] in sizes && sizes[bytes[i + 2]] == bytes[i + 3]
  }

  predicate NoHeader(sizes: Sizes, bytes: seq<byte>) {
    forall i: nat :: i < |bytes| ==> !HeaderAt(sizes, bytes, i)
  }

  /** The receiver is as far as the last of the bytes read begin a header. */
  predicate Follows(bytes: seq<byte>, rx: Rx) {
    var n := |bytes|;
    match rx
    case WaitAA => true
    case Wait55 => n >= 1 && bytes[n - 1] == SYNC_AA
    case WaitType => n >= 2 && bytes[n - 2] == SYNC_AA && bytes[n - 1] == SYNC_55
    case WaitSize(t) => n >= 3 && bytes[n - 3] == SYNC_AA && bytes[n - 2] == SYNC_55 && bytes[n - 1] == t
    case _ => false
  }

  lemma FollowsStep(sizes: Sizes, bytes: seq<byte>, c: byte, rx: Rx, room: bool)
    requires NoHeader(sizes, bytes + [c]) && WellFormed(sizes, rx) && Follows(bytes, rx)
    ensures var (rx', status) := Step(sizes, rx, c, room); Follows(bytes + [c], rx') && status != SyncChecksum
  {
    if rx.WaitSize? {
      assert !HeaderAt(sizes, bytes + [c], |bytes| - 3);
    }
  }

  lemma NoHeaderPrefix(sizes: Sizes, a: seq<byte>, b: seq<byte>)
    requires NoHeader(sizes, a + b)
    ensures NoHeader(sizes, a)
  {
    forall i: nat | i < |a|
      ensures !HeaderAt(sizes, a, i)
    {
      assert !HeaderAt(sizes, a + b, i);
    }
  }

  lemma {:induction false} ScanNoHeader(sizes: Sizes, full: Full, before: seq<byte>, bytes: seq<byte>, rx: Rx)
    requires ValidSizes(sizes) && NoHeader(sizes, before + bytes) && WellFormed(sizes, rx) && Follows(before, rx)
    ensures var (rx', ps) := Scan(sizes, full, rx, bytes); ps == [] && Follows(before + bytes, rx')
  {
    if |bytes| == 0 {
      assert before + bytes == before;
    } else {
      hide NoHeader, Follows, Step, ValidSizes, WellFormed;
      var n := |bytes| - 1;
      assert before + bytes == before + bytes[..n] + [bytes[n]];
      NoHeaderPrefix(sizes, before + bytes[..n], [bytes[n]]);
      ScanNoHeader(sizes, full, before, bytes[..n], rx);
      var rx' := Scan(sizes, full, rx, bytes[..n]).0;
      FollowsStep(sizes, before + bytes[..n], bytes[n], rx', rx'.WaitSize? && !full[rx'.t]);
    }
  }

  /** A packet in which no frame header follows the size is tame. */
  lemma NoHeaderIsTame(sizes: Sizes, p: Packet)
    requires ValidSizes(sizes) && |p| >= 2 && NoHeader(sizes, Tail(p))
    ensures Tame(sizes, p)
  {
    forall full: Full, k: nat | 2 * FullTypes(full, PACKET_TYPE_MAX) <= PENDING_PACKETS_MAX && k <= |Tail(p)|
      ensures Uneventful(sizes, p, full, k)
    {
      CutUneventful(sizes, p, full, k);
    }
  }

  lemma CutUneventful(sizes: Sizes, p: Packet, full: Full, k: nat)
    requires ValidSizes(sizes) && |p| >= 2 && NoHeader(sizes, Tail(p)) && k <= |Tail(p)|
    ensures Uneventful(sizes, p, full, k)
  {
    hide NoHeader, Scan, ValidSizes, FullTypes;
    var tail := Tail(p);
    hide Tail;
    assert tail == tail[..k] + tail[k..] && [] + tail[..k] == tail[..k];
    NoHeaderPrefix(sizes, tail[..k], tail[k..]);
    ScanNoHeader(sizes, full, [], tail[..k], WaitAA);
    ScanNoHeader(sizes, NONE, tail[..k], tail[k..], Scan(sizes, full, WaitAA, tail[..k]).0);
  }

  /** A tame packet scanned by the handler, a cycle ending after `k` bytes, queues nothing. */
  lemma TameScanned(config: Config, p: Packet, pending: seq<Packet>, k: nat)
    requires Doubled(config) && |p| >= 2 && Tame(SizesOf(config), p) && Held(config, pending) && k <= |Tail(p)|
    ensures var s := ReceiveAll(config, Hunting(pending), Tail(p)[..k]).state;
            && s.pending == pending
            && Scan(SizesOf(config), NONE, s.rx, Tail(p)[k..]).1 == []
            && !Inside(Scan(SizesOf(config), NONE, s.rx, Tail(p)[k..]).0)
  {
    var full := FullOf(config, pending);
    FullNeedsPending(config, pending, PACKET_TYPE_MAX);
    assert Uneventful(SizesOf(config), p, full, k);
    hide Scan, ReceiveAll, FullOf, SizesOf, FullTypes, Tame;
    ScanReceives(config, pending, WaitAA, Tail(p)[..k]);
  }

  /** Bytes other than 0xAA leave a hunting handler alone, each of them an error. */
  lemma {:induction false} ReceiveJunk(config: Config, pending: seq<Packet>, junk: seq<byte>)
    requires ValidSizes(SizesOf(config)) && SYNC_AA !in junk
    ensures ReceiveAll(config, Hunting(pending), junk) == Flushed(Hunting(pending), 0, |junk|)
  {
    if |junk| > 0 {
      ReceiveJunk(config, pending, junk[..|junk| - 1]);
    }
  }

  /** A refused frame whose tail goes on with the frame of another packet puts that packet into the queue. */
  lemma EmbeddedQueued(config: Config, pending: seq<Packet>, p: Packet, junk: seq<byte>, f: Packet, k: nat)
    requires ValidSizes(SizesOf(config)) && Registered(SizesOf(config), p) && !HasRoom(config, pending, p)
    requires HasRoom(config, pending, f) && |pending| < PENDING_PACKETS_MAX
    requires SYNC_AA !in junk && k <= |Tail(p)| && Tail(p)[..k] == junk + Frame(f)
    ensures ReceiveAll(config, Hunting(pending), Frame(p)[..4 + k]).state == Hunting(pending + [f])
  {
    hide ReceiveAll, SizesOf, Frame, HasRoom, Registered, Tail;
    RefusedIsScan(config, p, pending, k);
    ReceiveJunk(config, pending, junk);
    ReceiveFrame(config, pending, f);
    ReceiveConcat(config, Hunting(pending), junk, Frame(f));
  }
}
