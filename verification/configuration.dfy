/** OrazioClient_readConfiguration: three blocking queries bring the server's parameters into the client's mirrors. */
module Configuration {
  import opened Bytes
  import opened Client
  import opened Completion
  import opened Epoch
  import opened Exchange
  import opened Framing
  import opened Mirror
  import opened Request
  import Rings
  import opened RxRegisters
  import opened Wrappers

  /** Packets that neither answer a request nor carry parameters. */
  predicate Idle(ps: seq<Packet>) {
    forall k :: 0 <= k < |ps| && |ps[k]| > 0 ==> ps[k][0] != RESPONSE && !IsParam(ps[k][0])
  }

  lemma {:induction false} IdleKeeps(m: Mirrors, ps: seq<Packet>, t: byte)
    requires Idle(ps) && t in m && (t == RESPONSE || IsParam(t))
    ensures t in Reflect(m, ps) && Reflect(m, ps)[t] == m[t]
  {
    Untouched(m, ps, t);
  }

  /** What the server sends from one answer to the next: `before`, and the answer of the world `w` in cycle `seqNo`. */
  datatype Turn = Turn(before: seq<Packet>, w: World, seqNo: nat)
  {
    predicate Valid() {
      ValidWorld(w) && seqNo < 0x1_0000 && Idle(before)
    }

    /** The packets up to the response to the query of a parameter class. */
    function Sent(code: byte, query: nat): seq<Packet>
      requires Valid() && query < 0x1_0000
    {
      before + Act(w, seqNo, ParamControl(0, code, query)).1
    }
  }

  /** The mirror of type `t` carries the payload of the server's variable. */
  predicate Holds(m: Mirrors, w: World, t: byte) {
    ValidWorld(w) && IsParam(t) && t in m && |m[t]| >= 4 && m[t][4..] == w.vars[t][4..]
  }

  /** Only the mirror of type `t` and the response differ. */
  predicate OtherParamsKept(m: Mirrors, m': Mirrors, t: byte) {
    forall u :: IsParam(u) && u != t && u in m ==> u in m' && m'[u] == m[u]
  }

  lemma {:induction false} ParamsKept(m: Mirrors, ps: seq<Packet>, t: byte)
    requires forall k :: 0 <= k < |ps| && |ps[k]| > 0 ==> !IsParam(ps[k][0]) || ps[k][0] == t
    ensures OtherParamsKept(m, Reflect(m, ps), t)
  {
    forall u | IsParam(u) && u != t && u in m
      ensures u in Reflect(m, ps) && Reflect(m, ps)[u] == m[u]
    {
      Untouched(m, ps, u);
    }
  }

  /** The answer to a query, parameter packet and response, in the mirrors. */
  lemma AnswerReflected(m: Mirrors, w: World, seqNo: nat, code: byte, query: nat)
    requires ValidWorld(w) && seqNo < 0x1_0000 && query < 0x1_0000 && code <= 2
    ensures var out := Act(w, seqNo, ParamControl(0, code, query)).1;
            && |out| == 2 && |out[0]| > 0 && out[0][0] == PARAM_TYPES[code] && |out[1]| > 0 && out[1][0] == RESPONSE
            && Reflect(m, out) == m[PARAM_TYPES[code] := out[0]][RESPONSE := out[1]]
            && Names(Reflect(m, out), PARAM_CONTROL, query) && Holds(Reflect(m, out), w, PARAM_TYPES[code])
  {
    var q := ParamControl(0, code, query);
    hide Act, ValidWorld, Reflect;
    ActControlsParams(w, seqNo, 0, code, query);
    ActResponds(w, seqNo, q);
    ReflectTwo(m, Act(w, seqNo, q).1);
  }

  lemma ReflectTwo(m: Mirrors, out: seq<Packet>)
    requires |out| == 2 && |out[0]| > 0 && |out[1]| > 0
    ensures Reflect(m, out) == m[out[0][0] := out[0]][out[1][0] := out[1]]
  {
    assert out[..2] == out && Reflect(m, out[..0]) == m;
    ReflectStep(m, out, 0);
    ReflectStep(m, out, 1);
  }

  /** Up to the response nothing names the query; then the mirror of its class is the server's variable. */
  lemma TurnReflected(m: Mirrors, turn: Turn, code: byte, query: nat)
    requires turn.Valid() && query < 0x1_0000 && code <= 2
    requires RESPONSE in m && !Names(m, PARAM_CONTROL, query)
    ensures var ps := turn.Sent(code, query);
            && |ps| == |turn.before| + 2
            && Names(Reflect(m, ps), PARAM_CONTROL, query) && NotNamedWithin(m, ps, |ps| - 1, PARAM_CONTROL, query)
            && Holds(Reflect(m, ps), turn.w, PARAM_TYPES[code])
            && OtherParamsKept(m, Reflect(m, ps), PARAM_TYPES[code])
  {
    var ps, out := turn.Sent(code, query), Act(turn.w, turn.seqNo, ParamControl(0, code, query)).1;
    hide Act, ValidWorld, Holds, HasHeader;
    AnswerReflected(Reflect(m, turn.before), turn.w, turn.seqNo, code, query);
    ReflectConcat(m, turn.before, out);
    ParamsKept(m, ps, PARAM_TYPES[code]);
    forall k | 0 < k <= |ps| - 1
      ensures !NamedAfter(m, ps, k, PARAM_CONTROL, query)
    {
      Untouched(m, ps[..k], RESPONSE);
    }
  }

  /** The line holds the answer to a query within `timeout` packets, and then `rest`. */
  predicate Answering(m: Mirrors, ahead: seq<Packet>, query: nat, timeout: int, code: byte, turn: Turn,
                      rest: seq<Packet>)
  {
    && turn.Valid() && query < 0x1_0000 && code <= 2 && |turn.before| + 2 <= timeout
    && RESPONSE in m && !Names(m, PARAM_CONTROL, query)
    && ahead == turn.Sent(code, query) + rest
  }

  /** Then waiting for it succeeds, with exactly these packets read. */
  lemma AnswerFound(m: Mirrors, ahead: seq<Packet>, query: nat, timeout: int, code: byte, turn: Turn, rest: seq<Packet>,
                    result: Option<PacketStatus>, n: nat)
    requires Answering(m, ahead, query, timeout, code, turn, rest)
    requires Awaited(m, ahead, PARAM_CONTROL, query, timeout, result, n)
    ensures result == Some(Success) && ahead[..n] == turn.Sent(code, query) && ahead[n..] == rest
  {
    TurnReflected(m, turn, code, query);
    hide Names, Act, ValidWorld, Reflect;
    var ps := turn.Sent(code, query);
    assert forall k :: 0 <= k <= |ps| ==> ahead[..k] == ps[..k];
    assert ps[..|ps|] == ps;
    assert NamedAfter(m, ahead, |ps|, PARAM_CONTROL, query);
    SucceedsIffNamed(m, ahead, PARAM_CONTROL, query, timeout, result, n);
    assert n <= |ps|;
    assert NamedAfter(m, ps, n, PARAM_CONTROL, query);
  }

  lemma QueryIsSent(query: Packet)
    requires |query| == 6 && query[..2] == [PARAM_CONTROL, 6]
    ensures query[0] == PARAM_CONTROL && query[1] == 6 && Checked(query) == Success
  {
    assert query[0] == query[..2][0] && query[1] == query[..2][1];
  }

  lemma QueryStamped(query: Packet, seqNo: nat)
    requires |query| == 6 && query[..2] == [PARAM_CONTROL, 6] && query[4] == 0 && seqNo < 0x1_0000
    ensures Stamp(query, seqNo) == ParamControl(0, query[5], seqNo)
  {
    QueryIsSent(query);
  }

  /** Whichever answer the line holds, it has been read and what was behind it is ahead. */
  ghost predicate Asked(m: Mirrors, ahead: seq<Packet>, query: nat, timeout: int, code: byte,
                        status: Option<PacketStatus>, m': Mirrors, ahead': seq<Packet>)
  {
    forall turn, rest :: Answering(m, ahead, query, timeout, code, turn, rest) ==>
      status == Some(Success) && m' == Reflect(m, turn.Sent(code, query)) && ahead' == rest
  }

  lemma AllFound(m: Mirrors, start: seq<Packet>, ahead: seq<Packet>, query: nat, timeout: int, code: byte,
                 m': Mirrors, read: seq<Packet>, rest: seq<Packet>, result: Option<PacketStatus>)
    requires ReadOn(m, start, ahead, |read| - |start|, m', read, rest)
    requires Awaited(m, ahead, PARAM_CONTROL, query, timeout, result, |read| - |start|)
    ensures Asked(m, ahead, query, timeout, code, result, m', rest)
  {
    forall turn: Turn, behind: seq<Packet> | Answering(m, ahead, query, timeout, code, turn, behind)
      ensures result == Some(Success) && m' == Reflect(m, turn.Sent(code, query)) && rest == behind
    {
      AnswerFound(m, ahead, query, timeout, code, turn, behind, result, |read| - |start|);
    }
  }

  lemma NoTime(m: Mirrors, ahead: seq<Packet>, query: nat, code: byte, result: Option<PacketStatus>, m': Mirrors,
               rest: seq<Packet>)
    ensures Asked(m, ahead, query, 0, code, result, m', rest)
  {
  }

  /** One blocking query, for the class in the last byte of the packet. */
  method Query(cl: OrazioClient, query: Packet, timeout: int) returns (status: Option<PacketStatus>, q: Packet)
    requires cl.Valid() && |query| == 6 && query[..2] == [PARAM_CONTROL, 6] && query[4] == 0 && query[5] <= 2
    modifies cl, cl.base, cl.base.memory, cl.base.txBuffer
    ensures cl.Valid() && cl.globalSeq == (old(cl.globalSeq) + 1) % 0x1_0000
    ensures q == ParamControl(0, query[5], cl.globalSeq)
    ensures status == Some(Success) && timeout != 0 ==>
              cl.outgoing == old(cl.outgoing) + old(cl.base.TxQueue()) + Frame(q) && cl.base.TxQueue() == []
    ensures timeout == 0 || |old(cl.base.TxQueue())| + 9 <= BUFFER_SIZE_MAX ==>
              Asked(old(cl.mirrors), old(cl.Ahead()), cl.globalSeq, timeout, query[5], status, cl.mirrors, cl.Ahead())
  {
    hide UpToDate, Framed, RxRegisters.Receiver, CLIENT_SIZES, Rings.Contents, Rings.Valid, Frame, ReadOn, Awaited,
         OrazioClient.Ahead, Reflect, HasHeader, Answers, Stamp, Checked, Asked, ParamControl;
    QueryIsSent(query);
    status, q := cl.SendPacket(query, timeout);
    QueryStamped(query, cl.globalSeq);
    assert q[..q[1]] == q;
    if Left(status) && timeout != 0 {
      AllFound(old(cl.mirrors), old(cl.read), old(cl.Ahead()), cl.globalSeq, timeout, query[5],
               cl.mirrors, cl.read, cl.Ahead(), status);
    } else if timeout == 0 {
      NoTime(old(cl.mirrors), old(cl.Ahead()), cl.globalSeq, query[5], status, cl.mirrors, cl.Ahead());
    }
  }

  /** The number the client gives to the i-th packet after number `g`. */
  function Number(g: nat, i: nat): (n: nat)
    ensures n < 0x1_0000
  {
    (g + i) % 0x1_0000
  }

  lemma NextNumbers(g: nat)
    ensures Number(g, 1) == (g + 1) % 0x1_0000
    ensures Number(g, 2) == (Number(g, 1) + 1) % 0x1_0000 && Number(g, 3) == (Number(g, 2) + 1) % 0x1_0000
  {
  }

  /** The line holds the answers to three queries that follow number `g`, one for each parameter class, then `rest`. */
  predicate Served(m: Mirrors, ahead: seq<Packet>, g: nat, timeout: int, a: Turn, b: Turn, c: Turn, rest: seq<Packet>) {
    && a.Valid() && b.Valid() && c.Valid()
    && |a.before| + 2 <= timeout && |b.before| + 2 <= timeout && |c.before| + 2 <= timeout
    && RESPONSE in m && !Names(m, PARAM_CONTROL, Number(g, 1))
    && ahead == a.Sent(0, Number(g, 1)) + (b.Sent(1, Number(g, 2)) + (c.Sent(2, Number(g, 3)) + rest))
  }

  /** The mirrors after each of the three answers. */
  function FirstMirrors(m: Mirrors, g: nat, a: Turn): Mirrors
    requires a.Valid()
  {
    Reflect(m, a.Sent(0, Number(g, 1)))
  }

  function SecondMirrors(m: Mirrors, g: nat, a: Turn, b: Turn): Mirrors
    requires a.Valid() && b.Valid()
  {
    Reflect(FirstMirrors(m, g, a), b.Sent(1, Number(g, 2)))
  }

  function ThirdMirrors(m: Mirrors, g: nat, a: Turn, b: Turn, c: Turn): Mirrors
    requires a.Valid() && b.Valid() && c.Valid()
  {
    Reflect(SecondMirrors(m, g, a, b), c.Sent(2, Number(g, 3)))
  }

  /** The client mirrors the parameters of the worlds that answered. */
  predicate Configured(m: Mirrors, system: World, joints: World, drive: World) {
    Holds(m, system, SYSTEM_PARAM) && Holds(m, joints, JOINT_PARAM) && Holds(m, drive, DRIVE_PARAM)
  }

  /** Each answer is there when its query waits, and at the end the client has the configuration. */
  lemma ServedInTurn(m: Mirrors, ahead: seq<Packet>, g: nat, timeout: int, a: Turn, b: Turn, c: Turn, rest: seq<Packet>)
    requires Served(m, ahead, g, timeout, a, b, c, rest)
    ensures var third := c.Sent(2, Number(g, 3)) + rest;
            var second := b.Sent(1, Number(g, 2)) + third;
            && Answering(m, ahead, Number(g, 1), timeout, 0, a, second)
            && Answering(FirstMirrors(m, g, a), second, Number(g, 2), timeout, 1, b, third)
            && Answering(SecondMirrors(m, g, a, b), third, Number(g, 3), timeout, 2, c, rest)
    ensures Configured(ThirdMirrors(m, g, a, b, c), a.w, b.w, c.w)
  {
    hide ValidWorld, Act, Reflect, HasHeader, Answers, NotNamedWithin;
    TurnReflected(m, a, 0, Number(g, 1));
    TurnReflected(FirstMirrors(m, g, a), b, 1, Number(g, 2));
    TurnReflected(SecondMirrors(m, g, a, b), c, 2, Number(g, 3));
  }

  /** If the line holds the answers, the client ends with the configuration. */
  ghost predicate ReadsConfiguration(m: Mirrors, ahead: seq<Packet>, g: nat, timeout: int,
                                     status: Option<PacketStatus>, m': Mirrors, ahead': seq<Packet>)
  {
    forall a, b, c, rest :: Served(m, ahead, g, timeout, a, b, c, rest) ==>
      status == Some(Success) && Configured(m', a.w, b.w, c.w) && ahead' == rest
  }

  lemma OneAsked(room: bool, m: Mirrors, ahead: seq<Packet>, g: nat, timeout: int,
                 first: Option<PacketStatus>, m1: Mirrors, ahead1: seq<Packet>)
    requires (room ==> Asked(m, ahead, Number(g, 1), timeout, 0, first, m1, ahead1)) && first != Some(Success)
    ensures room ==> ReadsConfiguration(m, ahead, g, timeout, first, m1, ahead1)
  {
    hide Served, Answering, Configured, Reflect;
    forall a: Turn, b: Turn, c: Turn, rest: seq<Packet> | room && Served(m, ahead, g, timeout, a, b, c, rest)
      ensures false
    {
      ServedInTurn(m, ahead, g, timeout, a, b, c, rest);
    }
  }

  lemma TwoAsked(room: bool, m: Mirrors, ahead: seq<Packet>, g: nat, timeout: int,
                 first: Option<PacketStatus>, m1: Mirrors, ahead1: seq<Packet>,
                 second: Option<PacketStatus>, m2: Mirrors, ahead2: seq<Packet>)
    requires room ==> Asked(m, ahead, Number(g, 1), timeout, 0, first, m1, ahead1)
    requires Asked(m1, ahead1, Number(g, 2), timeout, 1, second, m2, ahead2) && second != Some(Success)
    ensures room ==> ReadsConfiguration(m, ahead, g, timeout, second, m2, ahead2)
  {
    hide Served, Answering, Configured, Reflect;
    forall a: Turn, b: Turn, c: Turn, rest: seq<Packet> | room && Served(m, ahead, g, timeout, a, b, c, rest)
      ensures false
    {
      ServedInTurn(m, ahead, g, timeout, a, b, c, rest);
    }
  }

  lemma ThreeAsked(room: bool, m: Mirrors, ahead: seq<Packet>, g: nat, timeout: int,
                   first: Option<PacketStatus>, m1: Mirrors, ahead1: seq<Packet>,
                   second: Option<PacketStatus>, m2: Mirrors, ahead2: seq<Packet>,
                   third: Option<PacketStatus>, m3: Mirrors, ahead3: seq<Packet>)
    requires room ==> Asked(m, ahead, Number(g, 1), timeout, 0, first, m1, ahead1)
    requires Asked(m1, ahead1, Number(g, 2), timeout, 1, second, m2, ahead2)
    requires Asked(m2, ahead2, Number(g, 3), timeout, 2, third, m3, ahead3)
    ensures room ==> ReadsConfiguration(m, ahead, g, timeout, third, m3, ahead3)
  {
    hide Served, Answering, Configured, Reflect;
    forall a: Turn, b: Turn, c: Turn, rest: seq<Packet> | room && Served(m, ahead, g, timeout, a, b, c, rest)
      ensures third == Some(Success) && Configured(m3, a.w, b.w, c.w) && ahead3 == rest
    {
      ServedInTurn(m, ahead, g, timeout, a, b, c, rest);
    }
  }

  /**
   * OrazioClient_readConfiguration.  It asks for the three classes one after the other; if the line holds the
   * answers in time it succeeds, and the mirrored parameter packets carry the payloads of the server's variables.
   */
  method ReadConfiguration(cl: OrazioClient, timeout: int) returns (status: Option<PacketStatus>)
    requires cl.Valid()
    modifies cl, cl.base, cl.base.memory, cl.base.txBuffer
    ensures cl.Valid()
    ensures status == Some(Success) && timeout != 0 ==>
              var g := old(cl.globalSeq);
              cl.outgoing == old(cl.outgoing) + old(cl.base.TxQueue()) + Frame(ParamControl(0, 0, Number(g, 1)))
                             + Frame(ParamControl(0, 1, Number(g, 2))) + Frame(ParamControl(0, 2, Number(g, 3)))
    ensures |old(cl.base.TxQueue())| + 9 <= BUFFER_SIZE_MAX ==>
              ReadsConfiguration(old(cl.mirrors), old(cl.Ahead()), old(cl.globalSeq), timeout, status, cl.mirrors, cl.Ahead())
  {
    hide UpToDate, Framed, RxRegisters.Receiver, CLIENT_SIZES, Rings.Contents, Rings.Valid, Frame, OrazioClient.Ahead,
         Reflect, HasHeader, Answers, Asked, ReadsConfiguration;
    ghost var m, ahead, g := cl.mirrors, cl.Ahead(), cl.globalSeq;
    ghost var room := |cl.base.TxQueue()| + 9 <= BUFFER_SIZE_MAX;
    NextNumbers(g);
    hide Number;
    var query := [PARAM_CONTROL, 6, 0, 0, 0, 0];
    status, query := Query(cl, query, timeout);
    ghost var m1, ahead1, first := cl.mirrors, cl.Ahead(), status;
    if status != Some(Success) {
      OneAsked(room, m, ahead, g, timeout, status, m1, ahead1);
      return;
    }
    assert timeout != 0 ==> cl.outgoing + cl.base.TxQueue() == cl.outgoing;
    query := query[5 := 1];
    status, query := Query(cl, query, timeout);
    ghost var m2, ahead2, second := cl.mirrors, cl.Ahead(), status;
    if status != Some(Success) {
      TwoAsked(room, m, ahead, g, timeout, first, m1, ahead1, status, m2, ahead2);
      return;
    }
    assert timeout != 0 ==> cl.outgoing + cl.base.TxQueue() == cl.outgoing;
    query := query[5 := 2];
    status, query := Query(cl, query, timeout);
    ThreeAsked(room, m, ahead, g, timeout, first, m1, ahead1, second, m2, ahead2, status, cl.mirrors, cl.Ahead());
  }

  lemma ReportIdle(w: World, seqNo: nat)
    requires ValidWorld(w) && seqNo < 0x1_0000
    ensures Idle(Report(w, seqNo).1) && |Report(w, seqNo).1| <= 4
  {
    hide Mask, Stamp;
  }

  /** A cycle whose batch is one query sends the answer and then an idle report. */
  lemma CycleIsTurn(w: World, seqNo: nat, code: byte, query: nat) returns (report: seq<Packet>)
    requires ValidWorld(w) && seqNo < 0x1_0000 && query < 0x1_0000
    ensures var q := ParamControl(0, code, query);
            ValidCalls([q]) && Cycle(w, seqNo, [q]).1 == Act(w, seqNo, q).1 + report
    ensures Idle(report) && |report| <= 4
  {
    var q := ParamControl(0, code, query);
    hide Act, ValidWorld, Report;
    var batch: seq<Packet> := [];
    assert batch + [q] == [q] && batch + Act(w, seqNo, q).1 == Act(w, seqNo, q).1;
    ActLast(w, seqNo, batch, q);
    report := Report(Act(w, seqNo, q).0, seqNo).1;
    ReportIdle(Act(w, seqNo, q).0, seqNo);
  }

  /** One cycle with nothing to act on. */
  lemma SilentCycleIdle(w: World, seqNo: nat)
    requires ValidWorld(w) && seqNo < 0x1_0000
    ensures Idle(Cycle(w, seqNo, []).1)
  {
    ReportIdle(w, seqNo);
    hide Report;
    assert [] + Report(w, seqNo).1 == Report(w, seqNo).1;
  }

  /** What the server sends around a query: idle packets, such as reports of silent cycles, and the cycle that acts on it. */
  datatype Service = Service(idle: seq<Packet>, w: World, seqNo: nat)
  {
    predicate Valid() {
      ValidWorld(w) && seqNo < 0x1_0000 && Idle(idle)
    }

    function Emitted(code: byte, query: nat): seq<Packet>
      requires Valid() && query < 0x1_0000
    {
      idle + Cycle(w, seqNo, [ParamControl(0, code, query)]).1
    }
  }

  /** A cycle's line is a turn and the report behind it; the report of the cycle before belongs to the next turn. */
  lemma EmittedIsTurn(x: Service, code: byte, query: nat, before: seq<Packet>) returns (turn: Turn, report: seq<Packet>)
    requires x.Valid() && query < 0x1_0000 && Idle(before)
    ensures turn.Valid() && turn.w == x.w && |turn.before| == |before| + |x.idle|
    ensures before + x.Emitted(code, query) == turn.Sent(code, query) + report
    ensures Idle(report) && |report| <= 4
  {
    report := CycleIsTurn(x.w, x.seqNo, code, query);
    turn := Turn(before + x.idle, x.w, x.seqNo);
    hide Act, Cycle, ParamControl;
    var answer := Act(x.w, x.seqNo, ParamControl(0, code, query)).1;
    Associate(before, x.idle, answer + report);
    Associate(before + x.idle, answer, report);
  }

  lemma Shift<T>(s1: seq<T>, r1: seq<T>, e2: seq<T>, s2: seq<T>, r2: seq<T>, e3: seq<T>, s3: seq<T>, r3: seq<T>)
    requires r1 + e2 == s2 + r2 && r2 + e3 == s3 + r3
    ensures (s1 + r1) + (e2 + e3) == s1 + (s2 + (s3 + r3))
  {
    Associate(s1, r1, e2 + e3);
    Associate(r1, e2, e3);
    Associate(s2, r2, e3);
  }

  /** Cycles that act on the queries in turn serve the client; the reports in between count toward its timeout. */
  lemma CyclesServe(m: Mirrors, g: nat, timeout: int, x: Service, y: Service, z: Service)
    returns (a: Turn, b: Turn, c: Turn, rest: seq<Packet>)
    requires x.Valid() && y.Valid() && z.Valid()
    requires |x.idle| + 2 <= timeout && |y.idle| + 6 <= timeout && |z.idle| + 6 <= timeout
    requires RESPONSE in m && !Names(m, PARAM_CONTROL, Number(g, 1))
    ensures a.w == x.w && b.w == y.w && c.w == z.w
    ensures var line := x.Emitted(0, Number(g, 1)) + (y.Emitted(1, Number(g, 2)) + z.Emitted(2, Number(g, 3)));
            Served(m, line, g, timeout, a, b, c, rest)
  {
    hide Names, Number, Service.Emitted, Turn.Sent, Turn.Valid, Service.Valid;
    var r1, r2;
    var e1, e2, e3 := x.Emitted(0, Number(g, 1)), y.Emitted(1, Number(g, 2)), z.Emitted(2, Number(g, 3));
    var none: seq<Packet> := [];
    assert none + e1 == e1;
    a, r1 := EmittedIsTurn(x, 0, Number(g, 1), none);
    b, r2 := EmittedIsTurn(y, 1, Number(g, 2), r1);
    c, rest := EmittedIsTurn(z, 2, Number(g, 3), r2);
    Shift(a.Sent(0, Number(g, 1)), r1, e2, b.Sent(1, Number(g, 2)), r2, e3, c.Sent(2, Number(g, 3)), rest);
  }

  /** The parameters a client mirrors after reading a whole answer to a query. */
  lemma QueryAnswerReflected(m: Mirrors, w: World, seqNo: nat, code: byte, query: nat)
    requires ValidWorld(w) && seqNo < 0x1_0000 && query < 0x1_0000 && code <= 2
    ensures ValidCalls([ParamControl(0, code, query)])
    ensures var m' := Reflect(m, Cycle(w, seqNo, [ParamControl(0, code, query)]).1);
            Holds(m', w, PARAM_TYPES[code]) && OtherParamsKept(m, m', PARAM_TYPES[code])
  {
    var report := CycleIsTurn(w, seqNo, code, query);
    hide Act, Cycle, ValidWorld, Names, ParamControl, Reflect, OtherParamsKept, IsParam, HasHeader;
    var out := Act(w, seqNo, ParamControl(0, code, query)).1;
    AnswerReflected(m, w, seqNo, code, query);
    ReflectConcat(m, out, report);
    ParamOfClass(code);
    IdleKeeps(Reflect(m, out), report, PARAM_TYPES[code]);
    AnswerThenIdle(out, report, PARAM_TYPES[code]);
    ParamsKept(m, out + report, PARAM_TYPES[code]);
  }

  lemma ParamOfClass(code: byte)
    requires code <= 2
    ensures IsParam(PARAM_TYPES[code])
  {
  }

  lemma AnswerThenIdle(out: seq<Packet>, report: seq<Packet>, t: byte)
    requires |out| == 2 && |out[0]| > 0 && out[0][0] == t && |out[1]| > 0 && out[1][0] == RESPONSE && Idle(report)
    ensures forall k :: 0 <= k < |out + report| && |(out + report)[k]| > 0 ==>
              !IsParam((out + report)[k][0]) || (out + report)[k][0] == t
  {
  }

  /** The query as OrazioClient_readConfiguration hands it to the sending function. */
  function AsSent(code: byte): Packet {
    [PARAM_CONTROL, 6, 0, 0, 0, code]
  }

  lemma SentQuery(code: byte, uses: nat)
    ensures var p := AsSent(code); |p| >= 4 && |p| == p[1] && Checked(p) == Success
    ensures Stamp(AsSent(code), (uses + 1) % 0x1_0000) == ParamControl(0, code, Number(uses, 1))
    ensures Number(uses, 1) == (uses + 1) % 0x1_0000
  {
    QueryIsSent(AsSent(code));
    QueryStamped(AsSent(code), Number(uses, 1));
  }

  /** What the client mirrors, `variables` being what its memory held before OrazioClient_init. */
  function MirrorsOf(variables: Mirrors, s: System): Mirrors
    requires Variables(variables)
  {
    Reflect(Initial(variables), s.read)
  }

  /** A query is sent, served by the world `w`, and its answer read. */
  predicate QuerySteps(steps: seq<Event>, code: byte, w: World) {
    && |steps| == 3 && steps[0] == Send(AsSent(code), true)
    && steps[1].Serve? && steps[1].w == w && steps[2].Read?
  }

  /** One query from a quiet state, in a run of the whole system. */
  lemma QueryCompletes(variables: Mirrors, events: seq<Event>, code: byte, w: World) returns (steps: seq<Event>)
    requires Variables(variables) && Quiet(Run(events)) && ValidWorld(w) && code <= 2
    ensures QuerySteps(steps, code, w)
    ensures var s, s' := Run(events), Run(events + steps);
            var q := ParamControl(0, code, Number(s.uses, 1));
            && Quiet(s') && s'.acted == s.acted + [q] && s'.uses == s.uses + 1
            && Holds(MirrorsOf(variables, s'), w, PARAM_TYPES[code])
            && OtherParamsKept(MirrorsOf(variables, s), MirrorsOf(variables, s'), PARAM_TYPES[code])
  {
    SentQuery(code, Run(events).uses);
    hide Run, Quiet, Cycle, ValidWorld, Holds, OtherParamsKept, Variables, Initial, ParamControl, Stamp, Returned, Next,
         Consistent, Checked, Reflect, HasHeader, ValidCall, Number, AsSent;
    var n, k := RequestCompletes(variables, events, AsSent(code), w);
    steps := [Send(AsSent(code), true), Serve(n, w), Read(k)];
    assert events + steps == events + [Send(AsSent(code), true)] + [Serve(n, w)] + [Read(k)];
    var s := Run(events);
    QueryAnswerReflected(Reflect(Initial(variables), s.read), w, (s.serverSeq + 1) % 0x1_0000, code, Number(s.uses, 1));
    ReflectConcat(Initial(variables), s.read, AnswerTo(s, w, ParamControl(0, code, Number(s.uses, 1))));
  }

  lemma StillHolds(m: Mirrors, m': Mirrors, w: World, t: byte, other: byte)
    requires Holds(m, w, t) && OtherParamsKept(m, m', other) && t != other
    ensures Holds(m', w, t)
  {
  }

  /**
   * In the system of client and server: from every reachable quiet state the three queries, each served and read,
   * make the server act on exactly them and leave the client with the server's three parameter packets.
   */
  lemma ConfigurationCompletes(variables: Mirrors, events: seq<Event>, w1: World, w2: World, w3: World)
    returns (first: seq<Event>, second: seq<Event>, third: seq<Event>)
    requires Variables(variables) && Quiet(Run(events)) && ValidWorld(w1) && ValidWorld(w2) && ValidWorld(w3)
    ensures QuerySteps(first, 0, w1) && QuerySteps(second, 1, w2) && QuerySteps(third, 2, w3)
    ensures var s, s' := Run(events), Run(events + first + second + third);
            && Quiet(s') && Configured(MirrorsOf(variables, s'), w1, w2, w3)
            && s'.acted == s.acted + [ParamControl(0, 0, Number(s.uses, 1))] + [ParamControl(0, 1, Number(s.uses, 2))]
                           + [ParamControl(0, 2, Number(s.uses, 3))]
  {
    hide Run, Quiet, ValidWorld, Holds, OtherParamsKept, Variables, MirrorsOf, ParamControl, Consistent, AsSent,
         QuerySteps;
    first := QueryCompletes(variables, events, 0, w1);
    second := QueryCompletes(variables, events + first, 1, w2);
    third := QueryCompletes(variables, events + first + second, 2, w3);
    var m1, m2 := MirrorsOf(variables, Run(events + first)), MirrorsOf(variables, Run(events + first + second));
    var m3 := MirrorsOf(variables, Run(events + first + second + third));
    StillHolds(m1, m2, w1, SYSTEM_PARAM, JOINT_PARAM);
    StillHolds(m2, m3, w1, SYSTEM_PARAM, DRIVE_PARAM);
    StillHolds(m2, m3, w2, JOINT_PARAM, DRIVE_PARAM);
  }
}
