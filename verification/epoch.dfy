/**
 * What one communication cycle of the server sends, as values: the deferred actions of
 * src/server/orazio_comm.c, the periodic packets and the end of the epoch, and the transmit ring
 * they have to fit into.
 */
module Epoch {
  import opened Bytes
  import opened Deferred
  import opened Framing

  const RESPONSE: byte := 0
  const PARAM_CONTROL: byte := 1
  const SYSTEM_STATUS: byte := 2
  const SYSTEM_PARAM: byte := 3
  const JOINT_STATUS: byte := 4
  const JOINT_CONTROL: byte := 5
  const JOINT_PARAM: byte := 6
  const DRIVE_STATUS: byte := 7
  const DRIVE_CONTROL: byte := 8
  const DRIVE_PARAM: byte := 9
  const END_EPOCH: byte := 10

  /** sizeof of the packed packets of include/orazio_packets.h. */
  function SizeOf(t: byte): byte
    requires t <= 10
  {
    [8, 6, 27, 25, 26, 10, 36, 40, 12, 38, 4][t]
  }

  /** The packets the server accepts, each with two buffers. */
  const SERVER_CONFIG: Config := map[
    1 := TypeConfig(6, 2, true), 3 := TypeConfig(25, 2, true), 5 := TypeConfig(10, 2, true),
    6 := TypeConfig(36, 2, true), 8 := TypeConfig(12, 2, true), 9 := TypeConfig(38, 2, true)]

  lemma ServerSizes()
    ensures ValidSizes(SizesOf(SERVER_CONFIG))
  {
  }

  /** A packet accepted for the server is one its actions can take. */
  lemma AcceptedIsCall(p: Packet)
    requires Registered(SizesOf(SERVER_CONFIG), p)
    ensures ValidCall(p) && HasAction(SERVER_CONFIG, p)
  {
  }

  predicate HasHeader(p: Packet, t: byte)
    requires t <= 10
  {
    |p| == SizeOf(t) && p[0] == t && p[1] == SizeOf(t)
  }

  /** The sequence number, little endian. */
  function Seq(p: Packet): nat
    requires |p| >= 4
  {
    p[2] as int + 256 * p[3] as int
  }

  function Stamp(p: Packet, seqNo: nat): (q: Packet)
    requires |p| >= 4 && seqNo < 0x1_0000
    ensures |q| == |p| && q[0] == p[0] && q[1] == p[1] && Seq(q) == seqNo
    ensures q[4..] == p[4..]
  {
    p[2 := seqNo % 256][3 := seqNo / 256]
  }

  /**
   * The global packet variables by type, the parameter packets stored in the EEPROM, the drive switch, and
   * the sequence number of the drive command the drive has seen last.
   */
  datatype World = World(
    vars: map<byte, Packet>, stored: map<byte, Packet>, driveEnable: bool, lastDriveSeq: nat, rxSeq: nat)

  predicate IsVar(t: byte) {
    t <= 10 && t != RESPONSE && t != PARAM_CONTROL
  }

  predicate IsParam(t: byte) {
    t == SYSTEM_PARAM || t == JOINT_PARAM || t == DRIVE_PARAM
  }

  predicate ValidWorld(w: World) {
    && (forall t :: IsVar(t) ==> t in w.vars && HasHeader(w.vars[t], t))
    && (forall t :: IsParam(t) ==> t in w.stored && HasHeader(w.stored[t], t))
  }

  predicate ValidCall(p: Packet) {
    |p| >= 2 && p[0] in [PARAM_CONTROL, SYSTEM_PARAM, JOINT_CONTROL, JOINT_PARAM, DRIVE_CONTROL, DRIVE_PARAM]
    && HasHeader(p, p[0])
  }

  const SUCCESS: byte := 0
  /** -127 in a uint8_t. */
  const GENERIC_ERROR: byte := 129

  /** Orazio_sendResponse. */
  function Response(p: Packet, result: byte, seqNo: nat): (r: Packet)
    requires |p| >= 4 && seqNo < 0x1_0000
    ensures HasHeader(r, RESPONSE) && Seq(r) == seqNo
  {
    [RESPONSE, 8, seqNo % 256, seqNo / 256, p[0], p[2], p[3], result]
  }

  /** The type and sequence number of the packet a response answers. */
  function Answers(r: Packet): (byte, nat)
    requires HasHeader(r, RESPONSE)
  {
    (r[4], r[5] as int + 256 * r[6] as int)
  }

  /** The parameter class a control packet names. */
  function ParamTarget(code: byte): (t: byte)
    ensures t != RESPONSE ==> IsParam(t)
  {
    if code == 0 then SYSTEM_PARAM else if code == 1 then JOINT_PARAM else if code == 2 then DRIVE_PARAM else RESPONSE
  }

  /** Orazio_sendPacket on a global variable: the variable is stamped whether or not the ring has room. */
  function Sent(w: World, t: byte, seqNo: nat): (w': World)
    requires ValidWorld(w) && IsVar(t) && seqNo < 0x1_0000
    ensures ValidWorld(w') && w' == w.(vars := w'.vars) && HasHeader(w'.vars[t], t) && Seq(w'.vars[t]) == seqNo
  {
    w.(vars := w.vars[t := Stamp(w.vars[t], seqNo)])
  }

  /** Orazio_copyToVar and its variants: the packet becomes the variable. */
  function Copied(w: World, p: Packet): (w': World)
    requires ValidWorld(w) && ValidCall(p) && p[0] != PARAM_CONTROL
    ensures ValidWorld(w')
  {
    w.(vars := w.vars[p[0] := p], rxSeq := Seq(p))
  }

  /** Odometry and velocities of the drive status packet: nine floats that are 0. */
  const CLEARED: seq<byte> := [
    0, 0, 0, 0, 0, 0, 0, 0, 0, 0, 0, 0, 0, 0, 0, 0, 0, 0,
    0, 0, 0, 0, 0, 0, 0, 0, 0, 0, 0, 0, 0, 0, 0, 0, 0, 0]

  /**
   * Orazio_paramSet: new system or drive parameters re-initialise the drive, which clears its status packet
   * and takes the present command as seen.
   */
  function ParamSet(w: World, t: byte): (w': World)
    requires ValidWorld(w)
    ensures ValidWorld(w') && w' == w.(vars := w'.vars, lastDriveSeq := w'.lastDriveSeq)
  {
    if t == SYSTEM_PARAM || t == DRIVE_PARAM then
      w.(vars := w.vars[DRIVE_STATUS := w.vars[DRIVE_STATUS][..4] + CLEARED],
         lastDriveSeq := Seq(w.vars[DRIVE_CONTROL]))
    else w
  }

  /** The state after the action of `p`, and the packets the action sends in order. */
  function Act(w: World, seqNo: nat, p: Packet): (r: (World, seq<Packet>))
    requires ValidWorld(w) && ValidCall(p) && seqNo < 0x1_0000
    ensures ValidWorld(r.0)
  {
    if p[0] == DRIVE_CONTROL then (Copied(w, p), [Response(p, SUCCESS, seqNo)])
    else if p[0] == JOINT_CONTROL then (Copied(w, p).(driveEnable := false), [Response(p, SUCCESS, seqNo)])
    else if p[0] == PARAM_CONTROL then
      var (loaded, result) := ParamAction(w.(rxSeq := Seq(p)), p[4], p[5]);
      var target := ParamTarget(p[5]);
      if target == RESPONSE then (loaded, [Response(p, result, seqNo)])
      else
        var w' := Sent(loaded, target, seqNo);
        (w', [w'.vars[target], Response(p, result, seqNo)])
    else
      var w' := Sent(ParamSet(Copied(w, p), p[0]), p[0], seqNo);
      (w', [w'.vars[p[0]], Response(p, SUCCESS, seqNo)])
  }

  /** The second switch of Orazio_handleParamControlPacket: request, load or save. */
  function ParamAction(w: World, action: byte, code: byte): (r: (World, byte))
    requires ValidWorld(w)
    ensures ValidWorld(r.0)
  {
    var target := ParamTarget(code);
    if action == 0 then (w, SUCCESS)
    else if action == 1 then
      if target == RESPONSE then (w, GENERIC_ERROR)
      else (ParamSet(w.(vars := w.vars[target := w.stored[target]]), target), SUCCESS)
    else if action == 2 then
      if target == RESPONSE then (w, GENERIC_ERROR) else (w.(stored := w.stored[target := w.vars[target]]), SUCCESS)
    else (w, GENERIC_ERROR)
  }

  predicate ValidCalls(ps: seq<Packet>) {
    forall k :: 0 <= k < |ps| ==> ValidCall(ps[k])
  }

  function ActAll(w: World, seqNo: nat, ps: seq<Packet>): (r: (World, seq<Packet>))
    requires ValidWorld(w) && ValidCalls(ps) && seqNo < 0x1_0000
    ensures ValidWorld(r.0)
  {
    if |ps| == 0 then (w, [])
    else
      var (w', out) := ActAll(w, seqNo, ps[..|ps| - 1]);
      var (w'', more) := Act(w', seqNo, ps[|ps| - 1]);
      (w'', out + more)
  }

  /** periodic_packet_mask inside the system parameters. */
  function Mask(w: World): byte
    requires ValidWorld(w)
  {
    w.vars[SYSTEM_PARAM][20]
  }

  function Periodic(w: World, seqNo: nat, t: byte, wanted: bool): (r: (World, seq<Packet>))
    requires ValidWorld(w) && IsVar(t) && seqNo < 0x1_0000
    ensures ValidWorld(r.0) && Mask(r.0) == Mask(w)
  {
    if wanted then (Sent(w, t, seqNo), [Sent(w, t, seqNo).vars[t]]) else (w, [])
  }

  /** Everything Orazio_commHandle sends after its actions. */
  function Report(w: World, seqNo: nat): (r: (World, seq<Packet>))
    requires ValidWorld(w) && seqNo < 0x1_0000
    ensures ValidWorld(r.0)
  {
    var (w1, a) := Periodic(w, seqNo, SYSTEM_STATUS, Mask(w) % 2 == 1);
    var (w2, b) := Periodic(w1, seqNo, JOINT_STATUS, Mask(w1) / 2 % 2 == 1);
    var (w3, c) := Periodic(w2, seqNo, DRIVE_STATUS, Mask(w2) / 4 % 2 == 1);
    var (w4, d) := Periodic(w3, seqNo, END_EPOCH, true);
    (w4, a + b + c + d)
  }

  /** One cycle: the packets in the order in which Orazio_sendPacket is called. */
  function Cycle(w: World, seqNo: nat, ps: seq<Packet>): (r: (World, seq<Packet>))
    requires ValidWorld(w) && ValidCalls(ps) && seqNo < 0x1_0000
    ensures ValidWorld(r.0)
  {
    var (w', replies) := ActAll(w, seqNo, ps);
    var (w'', periodic) := Report(w', seqNo);
    (w'', replies + periodic)
  }

  // ---- the transmit ring


  /** PacketHandler_sendPacket for each packet in turn: the ring's bytes, and the packets it took. */
  function SendAll(queue: seq<byte>, ps: seq<Packet>): (r: (seq<byte>, seq<Packet>))
    ensures |r.1| <= |ps|
  {
    if |ps| == 0 then (queue, [])
    else
      var (q, taken) := SendAll(queue, ps[..|ps| - 1]);
      var p := ps[|ps| - 1];
      if |q| + |p| + 3 <= BUFFER_SIZE_MAX then (q + Frame(p), taken + [p]) else (q, taken)
  }

  function Cost(ps: seq<Packet>): nat {
    if |ps| == 0 then 0 else Cost(ps[..|ps| - 1]) + |ps[|ps| - 1]| + 3
  }

  lemma {:induction false} CostConcat(a: seq<Packet>, b: seq<Packet>)
    ensures Cost(a + b) == Cost(a) + Cost(b)
  {
    if |b| == 0 {
      assert a + b == a;
    } else {
      var n := |b| - 1;
      assert (a + b)[..|a| + n] == a + b[..n];
      CostConcat(a, b[..n]);
    }
  }

  /** One more packet the ring takes, in frames and in bytes. */
  lemma TakenMore(queue: seq<byte>, taken: seq<Packet>, p: Packet)
    ensures queue + Frames(taken + [p]) == queue + Frames(taken) + Frame(p)
    ensures Cost(taken + [p]) == Cost(taken) + |p| + 3
  {
    assert (taken + [p])[..|taken|] == taken;
    Associate(queue, Frames(taken), Frame(p));
  }

  /** What the ring takes is queued as frames; it takes all of `ps` exactly if their frames fit together. */
  lemma {:induction false} SendAllFits(queue: seq<byte>, ps: seq<Packet>)
    requires |queue| <= BUFFER_SIZE_MAX
    ensures var (q, taken) := SendAll(queue, ps);
            && q == queue + Frames(taken) && |q| <= BUFFER_SIZE_MAX
            && |taken| <= |ps| && |q| == |queue| + Cost(taken)
            && (taken == ps <==> |queue| + Cost(ps) <= BUFFER_SIZE_MAX)
            && (|taken| == |ps| ==> taken == ps)
  {
    if |ps| > 0 {
      hide Frame, Frames, Cost;
      var n := |ps| - 1;
      var taken := SendAll(queue, ps[..n]).1;
      SendAllFits(queue, ps[..n]);
      assert ps == ps[..n] + [ps[n]];
      TakenMore(queue, taken, ps[n]);
      TakenMore(queue, ps[..n], ps[n]);
      assert taken + [ps[n]] == ps ==> taken == ps[..n];
    }
  }

  // ---- how much a cycle can send

  /** What the answer to one packet costs: a response, and before it the parameter packet that is set or named. */
  function ActionCost(p: Packet): nat
    requires ValidCall(p)
  {
    var echoed := if p[0] == PARAM_CONTROL then ParamTarget(p[5]) else p[0];
    if echoed == SYSTEM_PARAM then 39 else if echoed == JOINT_PARAM then 50 else if echoed == DRIVE_PARAM then 52 else 11
  }

  lemma ActCost(w: World, seqNo: nat, p: Packet)
    requires ValidWorld(w) && ValidCall(p) && seqNo < 0x1_0000
    ensures Cost(Act(w, seqNo, p).1) == ActionCost(p)
  {
    var out := Act(w, seqNo, p).1;
    if |out| == 1 {
      CostOne(out[0]);
    } else {
      CostTwo(out[0], out[1]);
    }
  }

  lemma CostOne(p: Packet)
    ensures Cost([p]) == |p| + 3
  {
    assert [p][..0] == [];
  }

  lemma CostTwo(p: Packet, q: Packet)
    ensures Cost([p, q]) == |p| + 3 + |q| + 3
  {
    CostOne(p);
    assert [p, q][..1] == [p];
  }

  function BatchCost(ps: seq<Packet>): nat
    requires ValidCalls(ps)
  {
    if |ps| == 0 then 0 else BatchCost(ps[..|ps| - 1]) + ActionCost(ps[|ps| - 1])
  }

  lemma {:induction false} ActAllCost(w: World, seqNo: nat, ps: seq<Packet>)
    requires ValidWorld(w) && ValidCalls(ps) && seqNo < 0x1_0000
    ensures Cost(ActAll(w, seqNo, ps).1) == BatchCost(ps)
  {
    if |ps| > 0 {
      var n := |ps| - 1;
      ActAllCost(w, seqNo, ps[..n]);
      var (w', out) := ActAll(w, seqNo, ps[..n]);
      ActCost(w', seqNo, ps[n]);
      CostConcat(out, Act(w', seqNo, ps[n]).1);
    }
  }

  /** What the report costs: the status packets the mask asks for and the end of the epoch. */
  function MaskCost(mask: byte): nat {
    30 * (mask % 2) + 29 * (mask / 2 % 2) + 43 * (mask / 4 % 2) + 7
  }

  /** The three low bits do not depend on the others. */
  lemma HighBits(q: nat, m: nat)
    requires m < 8
    ensures (8 * q + m) % 2 == m % 2 && (8 * q + m) / 2 % 2 == m / 2 % 2 && (8 * q + m) / 4 % 2 == m / 4 % 2
    ensures m == m % 2 + 2 * (m / 2 % 2) + 4 * (m / 4 % 2)
  {
    assert (8 * q + m) / 2 == 4 * q + m / 2 && (8 * q + m) / 4 == 2 * q + m / 4;
  }

  lemma MaskCostBound(mask: byte)
    ensures MaskCost(mask) <= 109 && (MaskCost(mask) == 109 <==> mask % 8 == 7)
  {
    var q, m := mask / 8, mask % 8;
    HighBits(q, m);
    assert mask == 8 * q + m;
  }

  lemma ReportCost(w: World, seqNo: nat)
    requires ValidWorld(w) && seqNo < 0x1_0000
    ensures Cost(Report(w, seqNo).1) == MaskCost(Mask(w))
  {
    hide Sent, Mask, ValidWorld, HasHeader, Cost;
    var (w1, a) := Periodic(w, seqNo, SYSTEM_STATUS, Mask(w) % 2 == 1);
    var (w2, b) := Periodic(w1, seqNo, JOINT_STATUS, Mask(w1) / 2 % 2 == 1);
    var (w3, c) := Periodic(w2, seqNo, DRIVE_STATUS, Mask(w2) / 4 % 2 == 1);
    var (w4, d) := Periodic(w3, seqNo, END_EPOCH, true);
    PeriodicCost(w, seqNo, SYSTEM_STATUS, Mask(w) % 2 == 1);
    PeriodicCost(w1, seqNo, JOINT_STATUS, Mask(w1) / 2 % 2 == 1);
    PeriodicCost(w2, seqNo, DRIVE_STATUS, Mask(w2) / 4 % 2 == 1);
    PeriodicCost(w3, seqNo, END_EPOCH, true);
    CostConcat(a, b);
    CostConcat(a + b, c);
    CostConcat(a + b + c, d);
  }

  lemma PeriodicCost(w: World, seqNo: nat, t: byte, wanted: bool)
    requires ValidWorld(w) && IsVar(t) && seqNo < 0x1_0000
    ensures Cost(Periodic(w, seqNo, t, wanted).1) == if wanted then SizeOf(t) as int + 3 else 0
  {
    if wanted {
      CostOne(Sent(w, t, seqNo).vars[t]);
    }
  }

  /**
   * No send of a cycle fails exactly if the answers to the batch and the report the mask asks for come to
   * at most 256 bytes; then the ring holds all the frames.
   */
  lemma CycleFits(w: World, seqNo: nat, ps: seq<Packet>)
    requires ValidWorld(w) && ValidCalls(ps) && seqNo < 0x1_0000
    ensures var out, size := Cycle(w, seqNo, ps).1, BatchCost(ps) + MaskCost(Mask(ActAll(w, seqNo, ps).0));
            && Cost(out) == size
            && (SendAll([], out).1 == out <==> size <= BUFFER_SIZE_MAX)
            && (size <= BUFFER_SIZE_MAX ==> SendAll([], out).0 == Frames(out))
  {
    hide Mask, MaskCost, BatchCost, Cost, Report, ActAll, SendAll, ValidWorld, ValidCalls;
    ActAllCost(w, seqNo, ps);
    var (w', replies) := ActAll(w, seqNo, ps);
    ReportCost(w', seqNo);
    CostConcat(replies, Report(w', seqNo).1);
    SendAllFits([], Cycle(w, seqNo, ps).1);
    assert [] + Frames(Cycle(w, seqNo, ps).1) == Frames(Cycle(w, seqNo, ps).1);
  }

  /** How many of the packets answer with a parameter packet. */
  function ParamCount(ps: seq<Packet>): nat
    requires ValidCalls(ps)
  {
    if |ps| == 0 then 0
    else ParamCount(ps[..|ps| - 1]) + if ps[|ps| - 1][0] in [JOINT_CONTROL, DRIVE_CONTROL] then 0 else 1
  }

  lemma {:induction false} CountTypeAppend(ps: seq<Packet>, p: Packet, t: nat)
    ensures CountType(ps + [p], t) == CountType(ps, t) + if |p| > 0 && p[0] == t then 1 else 0
  {
    if |ps| == 0 {
      assert (ps + [p])[1..] == [];
    } else {
      assert (ps + [p])[1..] == ps[1..] + [p];
      CountTypeAppend(ps[1..], p, t);
    }
  }

  lemma {:induction false} BatchCostBound(ps: seq<Packet>)
    requires ValidCalls(ps)
    ensures BatchCost(ps) <= 52 * ParamCount(ps) + 11 * (CountType(ps, JOINT_CONTROL) + CountType(ps, DRIVE_CONTROL))
  {
    if |ps| > 0 {
      var n := |ps| - 1;
      BatchCostBound(ps[..n]);
      assert ps == ps[..n] + [ps[n]];
      CountTypeAppend(ps[..n], ps[n], JOINT_CONTROL);
      CountTypeAppend(ps[..n], ps[n], DRIVE_CONTROL);
    }
  }

  /**
   * A batch with at most one parameter or parameter-control packet, and as many control packets as
   * there are buffers for, queues at most 205 bytes: no send of the cycle fails.
   */
  lemma OneParamFits(w: World, seqNo: nat, ps: seq<Packet>)
    requires ValidWorld(w) && ValidCalls(ps) && seqNo < 0x1_0000
    requires ParamCount(ps) <= 1 && CountType(ps, JOINT_CONTROL) <= 2 && CountType(ps, DRIVE_CONTROL) <= 2
    ensures BatchCost(ps) <= 96 && Cost(Cycle(w, seqNo, ps).1) <= 205
    ensures SendAll([], Cycle(w, seqNo, ps).1) == (Frames(Cycle(w, seqNo, ps).1), Cycle(w, seqNo, ps).1)
  {
    hide Mask, MaskCost, BatchCost, Cost, Cycle, ActAll, SendAll, ValidWorld, ValidCalls, ParamCount, CountType;
    BatchCostBound(ps);
    MaskCostBound(Mask(ActAll(w, seqNo, ps).0));
    CycleFits(w, seqNo, ps);
  }

  /** All packets a cycle sends carry its sequence number. */
  predicate Stamped(ps: seq<Packet>, seqNo: nat) {
    forall k :: 0 <= k < |ps| ==> |ps[k]| >= 4 && Seq(ps[k]) == seqNo
  }

  /** None of the packets ends an epoch. */
  predicate NoEnd(ps: seq<Packet>) {
    forall k :: 0 <= k < |ps| ==> |ps[k]| > 0 && ps[k][0] != END_EPOCH
  }

  lemma {:induction false} ActAllStamped(w: World, seqNo: nat, ps: seq<Packet>)
    requires ValidWorld(w) && ValidCalls(ps) && seqNo < 0x1_0000
    ensures Stamped(ActAll(w, seqNo, ps).1, seqNo) && NoEnd(ActAll(w, seqNo, ps).1)
  {
    if |ps| > 0 {
      var n := |ps| - 1;
      ActAllStamped(w, seqNo, ps[..n]);
      ActStamped(ActAll(w, seqNo, ps[..n]).0, seqNo, ps[n]);
    }
  }

  lemma ActStamped(w: World, seqNo: nat, p: Packet)
    requires ValidWorld(w) && ValidCall(p) && seqNo < 0x1_0000
    ensures Stamped(Act(w, seqNo, p).1, seqNo) && NoEnd(Act(w, seqNo, p).1)
  {
  }

  /** Every action ends with the response that names the packet it answers. */
  lemma ActResponds(w: World, seqNo: nat, p: Packet)
    requires ValidWorld(w) && ValidCall(p) && seqNo < 0x1_0000
    ensures var out := Act(w, seqNo, p).1;
            && 1 <= |out| <= 2
            && HasHeader(out[|out| - 1], RESPONSE) && Answers(out[|out| - 1]) == (p[0], Seq(p))
            && (|out| == 2 ==> IsParam(out[0][0]))
  {
  }

  /** Setting or loading system or drive parameters. */
  predicate Absorbs(p: Packet)
    requires ValidCall(p)
  {
    var t := if p[0] == PARAM_CONTROL && p[4] == 1 then ParamTarget(p[5]) else p[0];
    t == SYSTEM_PARAM || t == DRIVE_PARAM
  }

  /** What an action does to the drive's latch. */
  lemma ActLatch(w: World, seqNo: nat, p: Packet)
    requires ValidWorld(w) && ValidCall(p) && seqNo < 0x1_0000
    ensures var w' := Act(w, seqNo, p).0;
            && w'.vars[DRIVE_CONTROL] == (if p[0] == DRIVE_CONTROL then p else w.vars[DRIVE_CONTROL])
            && w'.lastDriveSeq == (if Absorbs(p) then Seq(w.vars[DRIVE_CONTROL]) else w.lastDriveSeq)
  {
  }

  /**
   * A new drive command switches the drive on in the next cycle exactly if nothing behind it in the batch
   * re-initialises the drive: such a packet makes the drive take the command as one already seen.
   */
  lemma {:induction false} CommandAbsorbed(w: World, seqNo: nat, command: Packet, ps: seq<Packet>)
    requires ValidWorld(w) && ValidCall(command) && ValidCalls(ps) && ValidCalls([command] + ps) && seqNo < 0x1_0000
    requires command[0] == DRIVE_CONTROL && Seq(command) != w.lastDriveSeq
    requires forall k :: 0 <= k < |ps| ==> ps[k][0] != DRIVE_CONTROL
    ensures var w' := ActAll(w, seqNo, [command] + ps).0;
            && w'.vars[DRIVE_CONTROL] == command
            && (w'.lastDriveSeq != Seq(command) <==> forall k :: 0 <= k < |ps| ==> !Absorbs(ps[k]))
            && (w'.lastDriveSeq != Seq(command) ==> w'.lastDriveSeq == w.lastDriveSeq)
  {
    hide Act, ValidWorld, Absorbs;
    var all := [command] + ps;
    if |ps| == 0 {
      assert all == [command] && all[..0] == [];
      ActLatch(w, seqNo, command);
      ControlDoesNotAbsorb(command);
    } else {
      var n := |ps| - 1;
      assert all[..n + 1] == [command] + ps[..n] && all[n + 1] == ps[n];
      CommandAbsorbed(w, seqNo, command, ps[..n]);
      ActLatch(ActAll(w, seqNo, all[..n + 1]).0, seqNo, ps[n]);
    }
  }

  lemma ControlDoesNotAbsorb(p: Packet)
    requires ValidCall(p) && p[0] == DRIVE_CONTROL
    ensures !Absorbs(p)
  {
  }

  /** The worlds agree except on the variable of type `t`, and the drive status where the drive is `cleared`. */
  predicate SameBut(w: World, w': World, t: byte, cleared: bool)
    requires ValidWorld(w)
  {
    && w'.vars.Keys == w.vars.Keys
    && (forall u :: u in w.vars && u != t && u != DRIVE_STATUS ==> w'.vars[u] == w.vars[u])
    && w'.vars[DRIVE_STATUS] == if cleared then w.vars[DRIVE_STATUS][..4] + CLEARED else w.vars[DRIVE_STATUS]
  }

  /**
   * Setting a variable: it holds the payload received and nothing else changes; only a joint command
   * switches the drive off; a parameter packet is echoed with the payload received.
   */
  lemma ActSets(w: World, seqNo: nat, p: Packet)
    requires ValidWorld(w) && ValidCall(p) && seqNo < 0x1_0000 && p[0] != PARAM_CONTROL
    ensures var (w', out) := Act(w, seqNo, p);
            && w'.vars[p[0]][4..] == p[4..] && SameBut(w, w', p[0], Absorbs(p))
            && w'.stored == w.stored && w'.rxSeq == Seq(p)
            && w'.driveEnable == (w.driveEnable && p[0] != JOINT_CONTROL)
            && w'.lastDriveSeq == (if Absorbs(p) then Seq(w.vars[DRIVE_CONTROL]) else w.lastDriveSeq)
            && (|out| == 2 <==> IsParam(p[0])) && (|out| == 2 ==> out[0][0] == p[0] && out[0][4..] == p[4..])
            && 1 <= |out| && |out[|out| - 1]| == 8 && out[|out| - 1][7] == SUCCESS
  {
  }

  function ParamControl(action: byte, code: byte, seqNo: nat): (p: Packet)
    requires seqNo < 0x1_0000
    ensures ValidCall(p) && Seq(p) == seqNo
  {
    [PARAM_CONTROL, 6, seqNo % 256, seqNo / 256, action, code]
  }

  /** The packets of the three parameter classes by class number. */
  const PARAM_TYPES: seq<byte> := [SYSTEM_PARAM, JOINT_PARAM, DRIVE_PARAM]

  /**
   * Request, save and load of a parameter class, 0 for the system, 1 for the joints and 2 for the drive,
   * answer with the packet of that class and the payload it then has; saving stores the variable, loading
   * restores what is stored, and no other class is touched.
   */
  lemma ActControlsParams(w: World, seqNo: nat, action: byte, code: byte, n: nat)
    requires ValidWorld(w) && seqNo < 0x1_0000 && n < 0x1_0000 && action <= 2 && code <= 2
    ensures var (w', out), t := Act(w, seqNo, ParamControl(action, code, n)), PARAM_TYPES[code];
            && |out| == 2 && out[0] == w'.vars[t] && out[0][0] == t && out[1][7] == SUCCESS
            && w'.vars[t][4..] == (if action == 1 then w.stored[t] else w.vars[t])[4..]
            && w'.stored == (if action == 2 then w.stored[t := w.vars[t]] else w.stored)
            && SameBut(w, w', t, action == 1 && t != JOINT_PARAM) && w'.driveEnable == w.driveEnable && w'.rxSeq == n
            && w'.lastDriveSeq == (if action == 1 && t != JOINT_PARAM then Seq(w.vars[DRIVE_CONTROL]) else w.lastDriveSeq)
  {
  }

  predicate SamePayloads(w: World, w': World)
    requires ValidWorld(w) && ValidWorld(w')
  {
    forall t :: IsVar(t) ==> w'.vars[t][4..] == w.vars[t][4..]
  }

  /**
   * Unknown classes and actions are refused, without a parameter packet for an unknown class.  A refused packet and a
   * mere request change no payload, nothing stored and nothing of the drive.
   */
  lemma ActRefuses(w: World, seqNo: nat, action: byte, code: byte, n: nat)
    requires ValidWorld(w) && seqNo < 0x1_0000 && n < 0x1_0000
    ensures var (w', out) := Act(w, seqNo, ParamControl(action, code, n));
            && (out[|out| - 1][7] == SUCCESS <==> action == 0 || (action <= 2 && code <= 2))
            && (out[|out| - 1][7] != SUCCESS ==> out[|out| - 1][7] == GENERIC_ERROR && w'.stored == w.stored)
            && (|out| == 1 <==> code > 2)
            && (action == 0 || out[|out| - 1][7] != SUCCESS ==>
                  SamePayloads(w, w') && w' == w.(vars := w'.vars, rxSeq := n))
  {
  }

  /** Save, change the variable, load: the answer to the load carries what was saved. */
  lemma SaveThenLoad(w: World, seqNo: nat, code: byte, p: Packet)
    requires ValidWorld(w) && seqNo < 0x1_0000 && code <= 2 && ValidCall(p) && p[0] == PARAM_TYPES[code]
    ensures var saved := Act(w, seqNo, ParamControl(2, code, 1)).0;
            var changed := Act(saved, seqNo, p).0;
            var (loaded, out) := Act(changed, seqNo, ParamControl(1, code, 2));
            out[0][4..] == w.vars[p[0]][4..] && loaded.vars[p[0]][4..] == w.vars[p[0]][4..]
  {
    hide Act, ValidWorld, ValidCall;
    var saved := Act(w, seqNo, ParamControl(2, code, 1)).0;
    ActControlsParams(w, seqNo, 2, code, 1);
    ActSets(saved, seqNo, p);
    ActControlsParams(Act(saved, seqNo, p).0, seqNo, 1, code, 2);
  }

  /** One epoch on the wire: a single sequence number, and the end-of-epoch packet last and only there. */
  predicate IsEpoch(ps: seq<Packet>, seqNo: nat) {
    && |ps| > 0 && Stamped(ps, seqNo) && NoEnd(ps[..|ps| - 1]) && ps[|ps| - 1][0] == END_EPOCH
  }

  /** With all periodic packets wanted the epoch also holds all three status packets. */
  predicate HasStatus(ps: seq<Packet>) {
    && (exists k :: 0 <= k < |ps| && |ps[k]| > 0 && ps[k][0] == SYSTEM_STATUS)
    && (exists k :: 0 <= k < |ps| && |ps[k]| > 0 && ps[k][0] == JOINT_STATUS)
    && (exists k :: 0 <= k < |ps| && |ps[k]| > 0 && ps[k][0] == DRIVE_STATUS)
  }

  lemma ReportShape(w: World, seqNo: nat)
    requires ValidWorld(w) && seqNo < 0x1_0000
    ensures var out := Report(w, seqNo).1;
            && IsEpoch(out, seqNo) && HasHeader(out[|out| - 1], END_EPOCH)
            && (Mask(w) % 8 == 7 ==> |out| == 4 && out[0][0] == SYSTEM_STATUS && out[1][0] == JOINT_STATUS
                                     && out[2][0] == DRIVE_STATUS)
  {
    hide Mask, Sent, Stamped, NoEnd, IsEpoch, ValidWorld;
    var (w1, a) := Periodic(w, seqNo, SYSTEM_STATUS, Mask(w) % 2 == 1);
    var (w2, b) := Periodic(w1, seqNo, JOINT_STATUS, Mask(w1) / 2 % 2 == 1);
    var (w3, c) := Periodic(w2, seqNo, DRIVE_STATUS, Mask(w2) / 4 % 2 == 1);
    var (w4, d) := Periodic(w3, seqNo, END_EPOCH, true);
    PeriodicShape(w, seqNo, SYSTEM_STATUS, Mask(w) % 2 == 1);
    PeriodicShape(w1, seqNo, JOINT_STATUS, Mask(w1) / 2 % 2 == 1);
    PeriodicShape(w2, seqNo, DRIVE_STATUS, Mask(w2) / 4 % 2 == 1);
    PeriodicShape(w3, seqNo, END_EPOCH, true);
    if Mask(w) % 8 == 7 {
      MaskBits(Mask(w));
    }
    hide Periodic, HasHeader;
    Assemble(a, b, c, d, seqNo);
    assert Report(w, seqNo).1 == a + b + c + d;
    hide Report;
  }

  predicate CarriesVars(w: World, out: seq<Packet>)
    requires ValidWorld(w)
  {
    forall k :: 0 <= k < |out| ==> |out[k]| >= 4 && IsVar(out[k][0]) && out[k][4..] == w.vars[out[k][0]][4..]
  }

  lemma PeriodicPayload(w: World, w': World, out: seq<Packet>, seqNo: nat, t: byte, wanted: bool)
    requires ValidWorld(w) && ValidWorld(w') && SamePayloads(w, w') && CarriesVars(w, out)
    requires IsVar(t) && seqNo < 0x1_0000
    ensures var (w'', more) := Periodic(w', seqNo, t, wanted);
            SamePayloads(w, w'') && CarriesVars(w, out + more)
  {
    hide Mask;
    var (w'', more) := Periodic(w', seqNo, t, wanted);
    if wanted {
      assert more[0][4..] == w'.vars[t][4..];
    }
  }

  /** The periodic packets carry the payloads of the global variables, and leave those alone. */
  lemma ReportPayloads(w: World, seqNo: nat)
    requires ValidWorld(w) && seqNo < 0x1_0000
    ensures SamePayloads(w, Report(w, seqNo).0) && CarriesVars(w, Report(w, seqNo).1)
  {
    var none: seq<Packet> := [];
    assert SamePayloads(w, w) && CarriesVars(w, none);
    hide Mask, ValidWorld, CarriesVars, SamePayloads, HasHeader, Periodic;
    var (w1, a) := Periodic(w, seqNo, SYSTEM_STATUS, Mask(w) % 2 == 1);
    var (w2, b) := Periodic(w1, seqNo, JOINT_STATUS, Mask(w1) / 2 % 2 == 1);
    var (w3, c) := Periodic(w2, seqNo, DRIVE_STATUS, Mask(w2) / 4 % 2 == 1);
    PeriodicPayload(w, w, none, seqNo, SYSTEM_STATUS, Mask(w) % 2 == 1);
    assert none + a == a;
    PeriodicPayload(w, w1, a, seqNo, JOINT_STATUS, Mask(w1) / 2 % 2 == 1);
    PeriodicPayload(w, w2, a + b, seqNo, DRIVE_STATUS, Mask(w2) / 4 % 2 == 1);
    PeriodicPayload(w, w3, a + b + c, seqNo, END_EPOCH, true);
  }

  lemma MaskBits(m: byte)
    requires m % 8 == 7
    ensures m % 2 == 1 && m / 2 % 2 == 1 && m / 4 % 2 == 1
  {
  }

  lemma Assemble(a: seq<Packet>, b: seq<Packet>, c: seq<Packet>, d: seq<Packet>, seqNo: nat)
    requires Stamped(a, seqNo) && NoEnd(a) && Stamped(b, seqNo) && NoEnd(b) && Stamped(c, seqNo) && NoEnd(c)
    requires IsEpoch(d, seqNo) && |d| == 1
    ensures var out := a + b + c + d;
            && IsEpoch(out, seqNo) && |out| == |a| + |b| + |c| + 1 && out[|out| - 1] == d[0]
            && (|a| == |b| == |c| == 1 ==> out[0] == a[0] && out[1] == b[0] && out[2] == c[0])
  {
    EpochPrefix(a + b + c, d, seqNo);
  }

  lemma PeriodicShape(w: World, seqNo: nat, t: byte, wanted: bool)
    requires ValidWorld(w) && IsVar(t) && seqNo < 0x1_0000
    ensures var out := Periodic(w, seqNo, t, wanted).1;
            && Stamped(out, seqNo) && (t != END_EPOCH ==> NoEnd(out))
            && |out| == (if wanted then 1 else 0)
            && (wanted ==> HasHeader(out[0], t) && |out[0]| > 0 && out[0][0] == t)
            && (wanted && t == END_EPOCH ==> IsEpoch(out, seqNo))
  {
  }

  /** What a cycle sends is an epoch, complete if the mask asks for everything. */
  lemma CycleShape(w: World, seqNo: nat, ps: seq<Packet>)
    requires ValidWorld(w) && ValidCalls(ps) && seqNo < 0x1_0000
    ensures IsEpoch(Cycle(w, seqNo, ps).1, seqNo)
    ensures Mask(ActAll(w, seqNo, ps).0) % 8 == 7 ==> HasStatus(Cycle(w, seqNo, ps).1)
  {
    ActAllStamped(w, seqNo, ps);
    var (w', replies) := ActAll(w, seqNo, ps);
    ReportShape(w', seqNo);
    var report := Report(w', seqNo).1;
    EpochPrefix(replies, report, seqNo);
    if Mask(w') % 8 == 7 {
      var out, n := replies + report, |replies|;
      assert out[n][0] == SYSTEM_STATUS && out[n + 1][0] == JOINT_STATUS && out[n + 2][0] == DRIVE_STATUS;
    }
  }

  lemma EpochPrefix(replies: seq<Packet>, report: seq<Packet>, seqNo: nat)
    requires Stamped(replies, seqNo) && NoEnd(replies) && IsEpoch(report, seqNo)
    ensures IsEpoch(replies + report, seqNo)
  {
    var out := replies + report;
    assert out[..|out| - 1] == replies + report[..|report| - 1];
  }

  /**
   * Two parameter packets are one too many: with two drive-parameter packets, the control packets there
   * are buffers for and all periodic packets wanted, the frames come to 257 bytes, and what the full
   * ring refuses is the end-of-epoch packet.
   */
  lemma TwoParamsLoseEndOfEpoch(w: World, seqNo: nat, ps: seq<Packet>)
    requires ValidWorld(w) && ValidCalls(ps) && seqNo < 0x1_0000
    requires |ps| == 6 && ps[0][0] == DRIVE_PARAM && ps[1][0] == DRIVE_PARAM
    requires forall k :: 2 <= k < 6 ==> ps[k][0] in [JOINT_CONTROL, DRIVE_CONTROL]
    requires Mask(ActAll(w, seqNo, ps).0) % 8 == 7
    ensures var out := Cycle(w, seqNo, ps).1;
            Cost(out) == 257 && SendAll([], out).1 == out[..|out| - 1] && out[|out| - 1][0] == END_EPOCH
  {
    BatchOfSix(ps);
    hide Mask, MaskCost, BatchCost, Cost, Report, ActAll, SendAll, ValidWorld, ValidCalls, IsEpoch;
    MaskCostBound(Mask(ActAll(w, seqNo, ps).0));
    CycleFits(w, seqNo, ps);
    ReportShape(ActAll(w, seqNo, ps).0, seqNo);
    LastRefused(Cycle(w, seqNo, ps).1);
  }

  lemma LastRefused(out: seq<Packet>)
    requires |out| > 0 && |out[|out| - 1]| == 4 && Cost(out) == 257
    ensures SendAll([], out).1 == out[..|out| - 1]
  {
    SendAllFits([], out[..|out| - 1]);
  }

  lemma BatchOfSix(ps: seq<Packet>)
    requires ValidCalls(ps) && |ps| == 6 && ps[0][0] == DRIVE_PARAM && ps[1][0] == DRIVE_PARAM
    requires forall k :: 2 <= k < 6 ==> ps[k][0] in [JOINT_CONTROL, DRIVE_CONTROL]
    ensures BatchCost(ps) == 148
  {
    hide BatchCost;
    BatchStep(ps, 5);
    BatchStep(ps, 4);
    BatchStep(ps, 3);
    BatchStep(ps, 2);
    BatchStep(ps, 1);
    BatchStep(ps, 0);
    assert ps[..6] == ps;
  }

  lemma BatchStep(ps: seq<Packet>, k: nat)
    requires ValidCalls(ps) && k < |ps|
    ensures ValidCalls(ps[..k + 1]) && ValidCalls(ps[..k])
    ensures BatchCost(ps[..k + 1]) == BatchCost(ps[..k]) + ActionCost(ps[k])
    ensures BatchCost(ps[..0]) == 0
  {
    assert ps[..k + 1][..k] == ps[..k];
  }
}
