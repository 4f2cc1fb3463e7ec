/** What the client's mirrored packets say after reading part of the server's stream of epochs. */
module Mirror {
  import opened Bytes
  import opened Epoch
  import opened Framing
  import opened Link

  type Mirrors = map<byte, Packet>

  /** The packets the client accepts, src/client/orazio_client.c. */
  const CLIENT_SIZES: Sizes := map[0 := 8, 2 := 27, 3 := 25, 4 := 26, 6 := 36, 7 := 40, 9 := 38, 10 := 4]

  lemma ClientSizesValid()
    ensures ValidSizes(CLIENT_SIZES)
  {
  }

  /** Every packet read replaces the mirrored packet of its type. */
  function Reflect(m: Mirrors, ps: seq<Packet>): Mirrors {
    if |ps| == 0 then m
    else
      var p := ps[|ps| - 1];
      var m' := Reflect(m, ps[..|ps| - 1]);
      if |p| == 0 then m' else m'[p[0] := p]
  }

  lemma {:induction false} ReflectConcat(m: Mirrors, a: seq<Packet>, b: seq<Packet>)
    ensures Reflect(m, a + b) == Reflect(Reflect(m, a), b)
  {
    if |b| == 0 {
      assert a + b == a;
    } else {
      var n := |b| - 1;
      assert (a + b)[..|a| + n] == a + b[..n];
      ReflectConcat(m, a, b[..n]);
    }
  }

  /** The mirror of a type that occurs in `ps` is one of `ps`. */
  lemma {:induction false} ReflectedFrom(m: Mirrors, ps: seq<Packet>, k: nat)
    requires k < |ps| && |ps[k]| > 0
    ensures var t := ps[k][0];
            t in Reflect(m, ps) && exists j :: 0 <= j < |ps| && ps[j] == Reflect(m, ps)[t]
  {
    var n := |ps| - 1;
    var t := ps[k][0];
    if |ps[n]| > 0 && ps[n][0] == t {
      assert ps[n] == Reflect(m, ps)[t];
    } else {
      assert ps[..n][k] == ps[k];
      ReflectedFrom(m, ps[..n], k);
      var j :| 0 <= j < n && ps[..n][j] == Reflect(m, ps[..n])[t];
      assert ps[j] == Reflect(m, ps)[t];
    }
  }

  /** The status packets and the end of the epoch all carry sequence number `seqNo`. */
  predicate Snapshot(m: Mirrors, seqNo: nat) {
    forall t :: t in [SYSTEM_STATUS, JOINT_STATUS, DRIVE_STATUS, END_EPOCH] ==>
      t in m && |m[t]| >= 4 && Seq(m[t]) == seqNo
  }

  /** Reading a whole epoch makes the mirrors a snapshot of it, whatever they were before. */
  lemma EpochIsSnapshot(m: Mirrors, ps: seq<Packet>, seqNo: nat)
    requires IsEpoch(ps, seqNo) && HasStatus(ps)
    ensures Snapshot(Reflect(m, ps), seqNo)
  {
    var a :| 0 <= a < |ps| && |ps[a]| > 0 && ps[a][0] == SYSTEM_STATUS;
    var b :| 0 <= b < |ps| && |ps[b]| > 0 && ps[b][0] == JOINT_STATUS;
    var c :| 0 <= c < |ps| && |ps[c]| > 0 && ps[c][0] == DRIVE_STATUS;
    ReflectedFrom(m, ps, a);
    ReflectedFrom(m, ps, b);
    ReflectedFrom(m, ps, c);
    ReflectedFrom(m, ps, |ps| - 1);
  }

  lemma EndIsLast(ps: seq<Packet>, seqNo: nat, j: nat)
    requires IsEpoch(ps, seqNo) && j < |ps| && |ps[j]| > 0 && ps[j][0] == END_EPOCH
    ensures j == |ps| - 1
  {
    var body := ps[..|ps| - 1];
    assert forall k :: 0 <= k < |body| ==> body[k][0] != END_EPOCH && body[k] == ps[k];
  }

  /** One epoch of the stream. */
  datatype EpochOf = EpochOf(ps: seq<Packet>, seqNo: nat)

  predicate Complete(e: EpochOf) {
    IsEpoch(e.ps, e.seqNo) && HasStatus(e.ps)
  }

  /** What is left of an epoch when the transmit ring has refused part of it: complete, or without its end. */
  predicate Honest(e: EpochOf) {
    Stamped(e.ps, e.seqNo) && (NoEnd(e.ps) || Complete(e))
  }

  function Stream(es: seq<EpochOf>): seq<Packet> {
    if |es| == 0 then [] else Stream(es[..|es| - 1]) + es[|es| - 1].ps
  }

  /**
   * Snapshot consistency: in a stream of honest epochs, whenever the packet read last is an end of
   * epoch, the mirrored status packets and the end of epoch all carry one sequence number.  It does not
   * matter which calls of the client did the reading.
   */
  lemma {:induction false} EndOfEpochIsSnapshot(m: Mirrors, es: seq<EpochOf>, n: nat) returns (k: nat)
    requires forall i :: 0 <= i < |es| ==> Honest(es[i])
    requires 0 < n <= |Stream(es)| && |Stream(es)[n - 1]| > 0 && Stream(es)[n - 1][0] == END_EPOCH
    ensures k < |es| && Snapshot(Reflect(m, Stream(es)[..n]), es[k].seqNo)
  {
    var last := |es| - 1;
    var before, e := Stream(es[..last]), es[last];
    if n <= |before| {
      assert Stream(es)[..n] == before[..n];
      k := EndOfEpochIsSnapshot(m, es[..last], n);
    } else {
      assert Honest(e);
      var j := n - 1 - |before|;
      assert Stream(es)[n - 1] == e.ps[j];
      EndIsLast(e.ps, e.seqNo, j);
      assert Stream(es)[..n] == before + e.ps;
      ReflectConcat(m, before, e.ps);
      EpochIsSnapshot(Reflect(m, before), e.ps, e.seqNo);
      k := last;
    }
  }

  /** The same from the bytes: the client has consumed any part of the stream's frames and read what it delivers. */
  lemma ConsumedSnapshot(m: Mirrors, es: seq<EpochOf>, consumed: seq<byte>) returns (k: nat)
    requires ValidSizes(CLIENT_SIZES)
    requires forall i :: 0 <= i < |es| ==> Honest(es[i])
    requires forall i :: 0 <= i < |Stream(es)| ==> Registered(CLIENT_SIZES, Stream(es)[i])
    requires consumed <= Frames(Stream(es))
    requires var read := Feed(CLIENT_SIZES, WaitAA, consumed).1;
             |read| > 0 && |read[|read| - 1]| > 0 && read[|read| - 1][0] == END_EPOCH
    ensures k < |es| && Snapshot(Reflect(m, Feed(CLIENT_SIZES, WaitAA, consumed).1), es[k].seqNo)
  {
    var read := Feed(CLIENT_SIZES, WaitAA, consumed).1;
    DeliveredPrefix(CLIENT_SIZES, Stream(es), consumed);
    assert read == Stream(es)[..|read|];
    k := EndOfEpochIsSnapshot(m, es, |read|);
  }

  /** What the server sends in a cycle whose batch fits is a complete epoch of packets the client accepts. */
  lemma CycleIsComplete(w: World, seqNo: nat, ps: seq<Packet>)
    requires ValidWorld(w) && ValidCalls(ps) && seqNo < 0x1_0000
    requires Mask(ActAll(w, seqNo, ps).0) % 8 == 7
    ensures Complete(EpochOf(Cycle(w, seqNo, ps).1, seqNo))
    ensures forall k :: 0 <= k < |Cycle(w, seqNo, ps).1| ==> Registered(CLIENT_SIZES, Cycle(w, seqNo, ps).1[k])
  {
    CycleShape(w, seqNo, ps);
    ActAllRegistered(w, seqNo, ps);
    ReportRegistered(ActAll(w, seqNo, ps).0, seqNo);
  }

  /** The mirror of type `t` carries the payload of the server's variable. */
  predicate MirrorsVar(m: Mirrors, w: World, t: byte)
    requires ValidWorld(w) && IsVar(t)
  {
    t in m && |m[t]| >= 4 && m[t][4..] == w.vars[t][4..]
  }

  lemma ReflectFour(m: Mirrors, out: seq<Packet>)
    requires |out| == 4 && forall k :: 0 <= k < 4 ==> |out[k]| > 0
    ensures Reflect(m, out) == m[out[0][0] := out[0]][out[1][0] := out[1]][out[2][0] := out[2]][out[3][0] := out[3]]
  {
    assert out[..4] == out && Reflect(m, out[..0]) == m;
    ReflectStep(m, out, 0);
    ReflectStep(m, out, 1);
    ReflectStep(m, out, 2);
    ReflectStep(m, out, 3);
  }

  lemma ReflectStep(m: Mirrors, out: seq<Packet>, k: nat)
    requires k < |out| && |out[k]| > 0
    ensures Reflect(m, out[..k + 1]) == Reflect(m, out[..k])[out[k][0] := out[k]]
  {
    assert out[..k + 1][..k] == out[..k];
  }

  /**
   * Reading a cycle that reports everything brings the client the server's status variables as they were when the
   * cycle's actions had run.
   */
  lemma StatusReflected(m: Mirrors, w: World, seqNo: nat, ps: seq<Packet>, t: byte)
    requires ValidWorld(w) && ValidCalls(ps) && seqNo < 0x1_0000 && t in [SYSTEM_STATUS, JOINT_STATUS, DRIVE_STATUS]
    requires Mask(ActAll(w, seqNo, ps).0) % 8 == 7
    ensures MirrorsVar(Reflect(m, Cycle(w, seqNo, ps).1), ActAll(w, seqNo, ps).0, t)
  {
    hide Mask, ValidWorld, ValidCalls, ActAll, Report, HasHeader, Reflect;
    var (w', replies) := ActAll(w, seqNo, ps);
    var report := Report(w', seqNo).1;
    ReportShape(w', seqNo);
    ReportPayloads(w', seqNo);
    ReflectConcat(m, replies, report);
    assert report[3][0] == END_EPOCH;
    ReflectFour(Reflect(m, replies), report);
  }

  /** The ring keeps the order: the end of the epoch is last among what it takes, or refused. */
  lemma TakenShape(out: seq<Packet>, seqNo: nat)
    requires IsEpoch(out, seqNo)
    ensures var taken := SendAll([], out).1; Stamped(taken, seqNo) && (NoEnd(taken) || IsEpoch(taken, seqNo))
  {
    var n := |out| - 1;
    TakenKeeps([], out[..n], seqNo);
    var before := SendAll([], out[..n]).1;
    assert (before + [out[n]])[..|before|] == before;
  }

  lemma {:induction false} TakenKeeps(queue: seq<byte>, ps: seq<Packet>, seqNo: nat)
    requires Stamped(ps, seqNo) && NoEnd(ps)
    ensures Stamped(SendAll(queue, ps).1, seqNo) && NoEnd(SendAll(queue, ps).1)
  {
    if |ps| > 0 {
      TakenKeeps(queue, ps[..|ps| - 1], seqNo);
    }
  }

  /** The client can rely on what a cycle gets through: its end is refused, or all three status packets are taken. */
  predicate Fair(taken: seq<Packet>) {
    NoEnd(taken) || HasStatus(taken)
  }

  lemma FairIsHonest(w: World, seqNo: nat, ps: seq<Packet>)
    requires ValidWorld(w) && ValidCalls(ps) && seqNo < 0x1_0000
    ensures var taken := SendAll([], Cycle(w, seqNo, ps).1).1; Honest(EpochOf(taken, seqNo)) <==> Fair(taken)
  {
    hide Cycle, ValidWorld, ValidCalls, SendAll, HasStatus;
    CycleShape(w, seqNo, ps);
    TakenShape(Cycle(w, seqNo, ps).1, seqNo);
  }

  /** The status mirrors hold other epochs. */
  predicate Outdated(m: Mirrors, seqNo: nat) {
    forall t :: t in [SYSTEM_STATUS, JOINT_STATUS, DRIVE_STATUS] ==> t in m && |m[t]| >= 4 && Seq(m[t]) != seqNo
  }

  lemma {:induction false} Untouched(m: Mirrors, ps: seq<Packet>, t: byte)
    requires t in m && forall k :: 0 <= k < |ps| && |ps[k]| > 0 ==> ps[k][0] != t
    ensures t in Reflect(m, ps) && Reflect(m, ps)[t] == m[t]
  {
    if |ps| > 0 {
      Untouched(m, ps[..|ps| - 1], t);
    }
  }

  /** Where the end of an epoch gets through, the mirrors become a snapshot of it exactly if the status packets do. */
  lemma SnapshotIffFair(m: Mirrors, taken: seq<Packet>, seqNo: nat)
    requires IsEpoch(taken, seqNo) && Outdated(m, seqNo)
    ensures Snapshot(Reflect(m, taken), seqNo) <==> Fair(taken)
  {
    if HasStatus(taken) {
      EpochIsSnapshot(m, taken, seqNo);
    } else {
      EndNotAbsent(taken, seqNo);
      MissingStatus(m, taken, seqNo);
    }
  }

  lemma EndNotAbsent(taken: seq<Packet>, seqNo: nat)
    requires IsEpoch(taken, seqNo)
    ensures !NoEnd(taken)
  {
    assert taken[|taken| - 1][0] == END_EPOCH;
  }

  lemma MissingStatus(m: Mirrors, taken: seq<Packet>, seqNo: nat)
    requires Stamped(taken, seqNo) && !HasStatus(taken) && Outdated(m, seqNo)
    ensures !Snapshot(Reflect(m, taken), seqNo)
  {
    var t :| t in [SYSTEM_STATUS, JOINT_STATUS, DRIVE_STATUS]
      && forall k :: 0 <= k < |taken| && |taken[k]| > 0 ==> taken[k][0] != t;
    Untouched(m, taken, t);
  }

  predicate AllRegistered(ps: seq<Packet>) {
    forall k :: 0 <= k < |ps| ==> Registered(CLIENT_SIZES, ps[k])
  }

  lemma {:induction false} ActAllRegistered(w: World, seqNo: nat, ps: seq<Packet>)
    requires ValidWorld(w) && ValidCalls(ps) && seqNo < 0x1_0000
    ensures AllRegistered(ActAll(w, seqNo, ps).1)
  {
    if |ps| > 0 {
      var n := |ps| - 1;
      ActAllRegistered(w, seqNo, ps[..n]);
      ActRegistered(ActAll(w, seqNo, ps[..n]).0, seqNo, ps[n]);
    }
  }

  lemma ActRegistered(w: World, seqNo: nat, p: Packet)
    requires ValidWorld(w) && ValidCall(p) && seqNo < 0x1_0000
    ensures AllRegistered(Act(w, seqNo, p).1)
  {
    var out := Act(w, seqNo, p).1;
    ActHeaders(w, seqNo, p);
    forall k | 0 <= k < |out|
      ensures Registered(CLIENT_SIZES, out[k])
    {
      HeaderRegistered(out[k]);
    }
  }

  /** What an action sends is a response or a parameter packet, with its header. */
  lemma ActHeaders(w: World, seqNo: nat, p: Packet)
    requires ValidWorld(w) && ValidCall(p) && seqNo < 0x1_0000
    ensures var out := Act(w, seqNo, p).1;
            forall k :: 0 <= k < |out| ==>
              |out[k]| > 0 && (out[k][0] == RESPONSE || IsParam(out[k][0])) && HasHeader(out[k], out[k][0])
  {
    hide Stamp, ParamAction, ParamSet, Mask, Seq, Response;
  }

  lemma HeaderRegistered(p: Packet)
    requires |p| > 0 && (p[0] == RESPONSE || IsParam(p[0])) && HasHeader(p, p[0])
    ensures Registered(CLIENT_SIZES, p)
  {
  }

  lemma ReportRegistered(w: World, seqNo: nat)
    requires ValidWorld(w) && seqNo < 0x1_0000
    ensures AllRegistered(Report(w, seqNo).1)
  {
    hide Mask;
  }
}
