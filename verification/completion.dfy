/** A blocking request on a quiet line completes: one server cycle later the client has its response. */
module Completion {
  import opened Client
  import opened Deferred
  import opened Epoch
  import opened Exchange
  import opened Framing
  import opened Mirror
  import opened Provenance
  import opened Reception
  import opened Request
  import opened RxRegisters
  import opened Wrappers
  import Link
  import Rings

  /** Nothing is on its way in either direction. */
  predicate Silent(s: System) {
    s.wire == [] && s.back == []
  }

  /** And the server waits for a frame to begin. */
  predicate Quiet(s: System) {
    Silent(s) && s.server.rx == WaitAA
  }

  lemma QuietListens(s: System)
    requires Invariant(s) && Quiet(s)
    ensures s.server == Hunting([]) && s.rx == WaitAA
  {
  }

  /** After a strictly cautious run the server waits for a frame to begin whenever nothing is on its way. */
  lemma SilentIsQuiet(events: seq<Event>)
    requires AllCautious(true, events) && Silent(Run(events))
    ensures Quiet(Run(events))
  {
    var s := Run(events);
    hide Run, AllCautious, IN_SIZES;
    RunFromClient(true, events);
    var n: nat, rest, begun :| Aligned(true, s, n, rest, begun);
    assert rest == [];
  }

  predicate NoResponse(ps: seq<Packet>) {
    forall k :: 0 <= k < |ps| && |ps[k]| > 0 ==> ps[k][0] != RESPONSE
  }

  lemma ReportNoResponse(w: World, seqNo: nat)
    requires ValidWorld(w) && seqNo < 0x1_0000
    ensures NoResponse(Report(w, seqNo).1)
  {
    hide Mask, Stamp;
  }

  lemma {:induction false} NotReflected(m: Mirrors, ps: seq<Packet>)
    requires RESPONSE in m && NoResponse(ps)
    ensures RESPONSE in Reflect(m, ps) && Reflect(m, ps)[RESPONSE] == m[RESPONSE]
  {
    if |ps| > 0 {
      NotReflected(m, ps[..|ps| - 1]);
    }
  }

  lemma ActLast(w: World, seqNo: nat, ps: seq<Packet>, q: Packet)
    requires ValidWorld(w) && ValidCalls(ps + [q]) && seqNo < 0x1_0000
    ensures ValidCalls(ps) && ValidCall(q)
    ensures var (w', before) := ActAll(w, seqNo, ps);
            ActAll(w, seqNo, ps + [q]) == (Act(w', seqNo, q).0, before + Act(w', seqNo, q).1)
  {
    hide Act, ValidCall, ValidWorld;
    var batch := ps + [q];
    assert ValidCall(batch[|ps|]) && batch[..|ps|] == ps;
    assert forall k :: 0 <= k < |ps| ==> batch[k] == ps[k];
  }

  /** The response to `q` is the last response of a cycle whose batch ends with it. */
  lemma LastResponse(m: Mirrors, w: World, seqNo: nat, ps: seq<Packet>, q: Packet)
    requires ValidWorld(w) && ValidCalls(ps + [q]) && seqNo < 0x1_0000
    ensures |q| >= 4
    ensures var m' := Reflect(m, Cycle(w, seqNo, ps + [q]).1);
            RESPONSE in m' && HasHeader(m'[RESPONSE], RESPONSE) && Answers(m'[RESPONSE]) == (q[0], Seq(q))
  {
    hide Act, ActAll, Report, ValidWorld, ValidCalls;
    ActLast(w, seqNo, ps, q);
    var (w', before) := ActAll(w, seqNo, ps);
    var (w'', replies) := Act(w', seqNo, q);
    ActResponds(w', seqNo, q);
    ReportNoResponse(w'', seqNo);
    ReflectConcat(m, before, replies);
    ReflectConcat(m, before + replies, Report(w'', seqNo).1);
    NotReflected(Reflect(m, before + replies), Report(w'', seqNo).1);
  }

  /** A server with empty rings has room for any packet the client may send, and for what it answers. */
  lemma Alone(q: Packet)
    requires Registered(IN_SIZES, q)
    ensures ValidSizes(IN_SIZES) && HasRoom(SERVER_CONFIG, [], q)
    ensures ValidCall(q)
  {
    ServerSizes();
    AcceptedIsCall(q);
  }

  lemma AloneFits(w: World, seqNo: nat, q: Packet)
    requires ValidWorld(w) && ValidCalls([q]) && seqNo < 0x1_0000
    ensures var out := Cycle(w, seqNo, [q]).1; SendAll([], out) == (Frames(out), out)
  {
    hide Cycle, SendAll, Frames, ValidCall;
    assert [q][..0] == [];
    OneParamFits(w, seqNo, [q]);
  }

  /** A cycle whose answer fits, with nothing on its way to the client. */
  lemma ServeStep(s: System, n: nat, w: World, batch: seq<Packet>)
    requires Consistent(s) && s.back == [] && Enabled(s, Serve(n, w)) && Received(s, n).state.pending == batch
    requires var out := Cycle(w, (s.serverSeq + 1) % 0x1_0000, batch).1; SendAll([], out) == (Frames(out), out)
    ensures var s' := Next(s, Serve(n, w));
            && s'.back == Frames(Cycle(w, (s.serverSeq + 1) % 0x1_0000, batch).1)
            && s'.wire == s.wire[n..] && s'.server == Deferred.State(Received(s, n).state.rx, [])
            && s'.acted == s.acted + batch && s'.sent == s.sent && s'.uses == s.uses && s'.rx == s.rx && s'.read == s.read
  {
    hide Cycle, Frames, SendAll, Received, ValidWorld, Consistent;
    var out := Cycle(w, (s.serverSeq + 1) % 0x1_0000, batch).1;
    assert [] + Frames(out) == Frames(out);
  }

  /** One cycle on exactly the frame of `q`. */
  lemma ServeAlone(s: System, w: World, q: Packet)
    requires Consistent(s) && s.back == [] && s.wire == Frame(q) && s.server == Hunting([]) && s.rx == WaitAA
    requires Registered(IN_SIZES, q) && ValidWorld(w)
    ensures ValidCalls([q]) && Enabled(s, Serve(|Frame(q)|, w))
    ensures var s' := Next(s, Serve(|Frame(q)|, w));
            var out := Cycle(w, (s.serverSeq + 1) % 0x1_0000, [q]).1;
            && s'.back == Frames(out) && s'.rx == WaitAA && s'.read == s.read
            && s'.acted == s.acted + [q] && s'.wire == [] && s'.server.rx == WaitAA && AllRegistered(out)
            && s'.uses == s.uses && s'.sent == s.sent
  {
    hide Cycle, Frames, ValidCall, SERVER_CONFIG, CLIENT_SIZES, Frame, ReceiveAll, ValidWorld;
    Alone(q);
    ReceiveFrame(SERVER_CONFIG, [], q);
    assert [] + [q] == [q];
    assert s.wire[..|s.wire|] == Frame(q);
    var seqNo := (s.serverSeq + 1) % 0x1_0000;
    assert Received(s, |Frame(q)|) == Flushed(Hunting([q]), 1, 0);
    AloneFits(w, seqNo, q);
    CycleRegistered(w, seqNo, [q]);
    ServeStep(s, |Frame(q)|, w, [q]);
  }

  /** Reading all the frames there are reads their packets. */
  lemma ReadAll(s: System, out: seq<Packet>)
    requires Consistent(s) && s.back == Frames(out) && s.rx == WaitAA && AllRegistered(out)
    ensures Enabled(s, Read(|s.back|))
    ensures var s' := Next(s, Read(|s.back|));
            s'.read == s.read + out && s'.back == [] && s'.acted == s.acted && s'.wire == s.wire
            && s'.server == s.server && s'.uses == s.uses && s'.sent == s.sent
  {
    hide IN_SIZES, CLIENT_SIZES, Link.Feed;
    Link.FeedFrames(CLIENT_SIZES, out);
    assert s.back[..|s.back|] == s.back;
  }

  /** A cycle whose answer fits, and the client reading all of it. */
  lemma ServeAndRead(s: System, n: nat, w: World, batch: seq<Packet>) returns (m: nat)
    requires Consistent(s) && s.back == [] && s.rx == WaitAA
    requires Enabled(s, Serve(n, w)) && Received(s, n).state.pending == batch && ValidCalls(batch)
    requires var out := Cycle(w, (s.serverSeq + 1) % 0x1_0000, batch).1;
             SendAll([], out) == (Frames(out), out) && AllRegistered(out)
    ensures var s' := Next(Next(s, Serve(n, w)), Read(m));
            && s'.uses == s.uses && s'.sent == s.sent && s'.acted == s.acted + batch && s'.back == []
            && s'.read == s.read + Cycle(w, (s.serverSeq + 1) % 0x1_0000, batch).1
  {
    hide Cycle, Frames, SendAll, Received, Consistent, Next, AllRegistered;
    ServeStep(s, n, w, batch);
    var served := Next(s, Serve(n, w));
    m := |served.back|;
    ReadAll(served, Cycle(w, (s.serverSeq + 1) % 0x1_0000, batch).1);
  }

  /** What the server answers to `q` in its next cycle. */
  function AnswerTo(s: System, w: World, q: Packet): seq<Packet>
    requires ValidWorld(w) && ValidCall(q)
  {
    Cycle(w, (s.serverSeq + 1) % 0x1_0000, [q]).1
  }

  /** The three steps from a quiet state, with the lengths of the request and of its answer. */
  lemma ThreeSteps(s: System, p: Packet, w: World, q: Packet)
    requires Invariant(s) && Quiet(s) && ValidWorld(w)
    requires |p| >= 4 && |p| == p[1] && Checked(p) == Success && q == Stamp(p, (s.uses + 1) % 0x1_0000)
    ensures ValidCall(q)
    ensures var out := AnswerTo(s, w, q);
            var s1 := Next(s, Send(p, true));
            var s2 := Next(s1, Serve(|Frame(q)|, w));
            var s3 := Next(s2, Read(|Frames(out)|));
            && s3.acted == s.acted + [q] && s3.read == s.read + out && Quiet(s3)
            && s3.uses == s.uses + 1 && s3.sent == s.sent + [q]
  {
    hide Next, Stamp, Cycle, Frame, Frames, IN_SIZES, CLIENT_SIZES, SERVER_CONFIG, Consistent, ValidWorld, Enabled,
         Checked, Registered, ValidCall, FromServer, AllExplained, Numbered, AllRegistered;
    QuietListens(s);
    SentIsRegistered(p, q);
    Alone(q);
    QuietSend(s, p);
    var s1 := Next(s, Send(p, true));
    ServeAlone(s1, w, q);
    ReadAll(Next(s1, Serve(|Frame(q)|, w)), AnswerTo(s, w, q));
  }

  /** Having read the answer, the client's mirrored response names the request. */
  lemma AnswerReturns(variables: Mirrors, s: System, s': System, w: World, q: Packet)
    requires Variables(variables) && ValidWorld(w) && ValidCall(q)
    requires s'.read == s.read + AnswerTo(s, w, q)
    ensures Returned(variables, s', q)
  {
    hide Cycle, Initial, Variables, ValidWorld;
    assert [] + [q] == [q];
    LastResponse(Reflect(Initial(variables), s.read), w, (s.serverSeq + 1) % 0x1_0000, [], q);
    ReflectConcat(Initial(variables), s.read, AnswerTo(s, w, q));
  }

  /**
   * From every reachable quiet state a blocking send completes: one server cycle on the bytes of the
   * request, and reading the bytes of the answer, bring the mirrored response that names the packet; the
   * server has acted on that packet and on nothing else.
   */
  lemma RequestCompletes(variables: Mirrors, events: seq<Event>, p: Packet, w: World) returns (n: nat, m: nat)
    requires Variables(variables) && Quiet(Run(events)) && ValidWorld(w)
    requires |p| >= 4 && |p| == p[1] && Checked(p) == Success
    ensures var q := Stamp(p, (Run(events).uses + 1) % 0x1_0000);
            var s := Run(events + [Send(p, true)] + [Serve(n, w)] + [Read(m)]);
            && Returned(variables, s, q) && s.acted == Run(events).acted + [q] && Quiet(s)
            && s.uses == Run(events).uses + 1 && s.sent == Run(events).sent + [q]
            && ValidCall(q) && s.read == Run(events).read + AnswerTo(Run(events), w, q)
  {
    hide Run, Next, Stamp, Cycle, Frame, Frames, Invariant, Consistent, ValidWorld, Checked, Variables;
    var s, q := Run(events), Stamp(p, (Run(events).uses + 1) % 0x1_0000);
    RunInvariant(events);
    ThreeSteps(s, p, w, q);
    n, m := |Frame(q)|, |Frames(AnswerTo(s, w, q))|;
    var sending := events + [Send(p, true)];
    RunOne(events, Send(p, true));
    RunOne(sending, Serve(n, w));
    RunOne(sending + [Serve(n, w)], Read(m));
    AnswerReturns(variables, s, Run(sending + [Serve(n, w)] + [Read(m)]), w, q);
  }

  /** Waiting on a line that holds the server's answer to `q`, for at least as many packets, succeeds. */
  lemma AnswerAwaited(m: Mirrors, w: World, seqNo: nat, q: Packet, timeout: int, result: Option<PacketStatus>, n: nat)
    requires ValidWorld(w) && ValidCalls([q]) && seqNo < 0x1_0000 && |q| >= 4
    requires timeout >= |Cycle(w, seqNo, [q]).1|
    requires Awaited(m, Cycle(w, seqNo, [q]).1, q[0], Seq(q), timeout, result, n)
    ensures result == Some(Success)
  {
    hide Cycle, ValidWorld, ValidCall, ActAll, Act, Report;
    assert [] + [q] == [q];
    LastResponse(m, w, seqNo, [], q);
    var out := Cycle(w, seqNo, [q]).1;
    assert out[..|out|] == out;
    CycleShape(w, seqNo, [q]);
    assert NamedAfter(m, out, |out|, q[0], Seq(q));
    SucceedsIffNamed(m, out, q[0], Seq(q), timeout, result, n);
  }

  /** The bytes a server answers to `q` alone, ahead of a client that waits for a frame to begin. */
  lemma AnswerAhead(w: World, seqNo: nat, q: Packet)
    requires ValidWorld(w) && ValidCalls([q]) && seqNo < 0x1_0000
    ensures ValidSizes(CLIENT_SIZES)
    ensures var out := Cycle(w, seqNo, [q]).1;
            Link.Feed(CLIENT_SIZES, WaitAA, SendAll([], out).0).1 == out && |out| > 0
  {
    ClientSizesValid();
    hide Cycle, ValidWorld, ValidCalls, SendAll, CLIENT_SIZES, Link.Feed;
    AloneFits(w, seqNo, q);
    CycleRegistered(w, seqNo, [q]);
    var out := Cycle(w, seqNo, [q]).1;
    Link.FeedFrames(CLIENT_SIZES, out);
    CycleShape(w, seqNo, [q]);
  }

  /**
   * The method itself: a blocking send of a packet the client may send, over a line whose next bytes are
   * what the server answers to it, returns Success if it may read that many packets.
   */
  method BlockingSend(cl: OrazioClient, p: Packet, timeout: int, ghost w: World, ghost seqNo: nat)
    returns (result: Option<PacketStatus>)
    requires cl.Valid() && |p| >= 4 && |p| == p[1] && Checked(p) == Success
    requires |cl.base.TxQueue()| + |p| + 3 <= BUFFER_SIZE_MAX && cl.base.Receiver() == WaitAA
    requires ValidWorld(w) && seqNo < 0x1_0000
    requires var q := Stamp(p, (cl.globalSeq + 1) % 0x1_0000);
             && ValidCalls([q]) && cl.incoming == SendAll([], Cycle(w, seqNo, [q]).1).0
             && timeout >= |Cycle(w, seqNo, [q]).1|
    modifies cl, cl.base, cl.base.memory, cl.base.txBuffer
    ensures cl.Valid() && result == Some(Success)
    ensures var q := Stamp(p, (old(cl.globalSeq) + 1) % 0x1_0000);
            cl.outgoing == old(cl.outgoing) + old(cl.base.TxQueue()) + Frame(q)
  {
    hide UpToDate, Framed, RxRegisters.Receiver, CLIENT_SIZES, Rings.Contents, Rings.Valid, Frame, ReadOn, Awaited,
         OrazioClient.Ahead, Reflect, HasHeader, Answers, Stamp, Checked, Cycle, SendAll, ValidWorld, ValidCalls;
    ghost var q, m := Stamp(p, (cl.globalSeq + 1) % 0x1_0000), cl.mirrors;
    AnswerAhead(w, seqNo, q);
    cl.ReadIsPrefix();
    var sent;
    result, sent := cl.SendPacket(p, timeout);
    assert sent == q && q[..q[1]] == q;
    AnswerAwaited(m, w, seqNo, q, timeout, result, |cl.read| - |old(cl.read)|);
  }

  lemma SendStep(s: System, p: Packet)
    requires Consistent(s) && |p| >= 4 && |p| == p[1] && Checked(p) == Success
    ensures var q := Stamp(p, (s.uses + 1) % 0x1_0000);
            Next(s, Send(p, true)) == s.(uses := s.uses + 1, sent := s.sent + [q], wire := s.wire + Frame(q))
  {
  }

  lemma QuietSend(s: System, p: Packet)
    requires Consistent(s) && Quiet(s) && |p| >= 4 && |p| == p[1] && Checked(p) == Success
    ensures var q := Stamp(p, (s.uses + 1) % 0x1_0000);
            Next(s, Send(p, true)) == s.(uses := s.uses + 1, sent := s.sent + [q], wire := Frame(q))
  {
    hide Next, Stamp, Frame, Consistent, Checked;
    SendStep(s, p);
    var q := Stamp(p, (s.uses + 1) % 0x1_0000);
    assert [] + Frame(q) == Frame(q);
  }

  /** A cycle with nothing to act on sends its report, all of which fits and none of which is a response. */
  lemma EmptyReport(w: World, seqNo: nat)
    requires ValidWorld(w) && seqNo < 0x1_0000
    ensures var out := Cycle(w, seqNo, []).1;
            SendAll([], out) == (Frames(out), out) && AllRegistered(out) && |out| > 0 && NoResponse(out)
  {
    ReportNoResponse(w, seqNo);
    hide SendAll, Frames, ValidWorld, Report, Registered;
    assert [] + Report(w, seqNo).1 == Report(w, seqNo).1;
    OneParamFits(w, seqNo, []);
    CycleRegistered(w, seqNo, []);
    CycleShape(w, seqNo, []);
  }

  /** A cycle before any byte arrives acts on nothing. */
  lemma EmptyCycle(s: System, w: World)
    requires Invariant(s) && s.back == [] && ValidWorld(w)
    ensures s.rx == WaitAA && Enabled(s, Serve(0, w)) && Received(s, 0).state.pending == []
  {
    assert s.wire[..0] == [];
    ReceiveNothing(SERVER_CONFIG, s.server);
  }

  /** What the client takes for answered depends on what it has read, and on type and number of the request. */
  lemma SameRead(variables: Mirrors, s: System, s': System, f: Packet, q: Packet)
    requires Variables(variables) && Returned(variables, s, f) && s'.read == s.read
    requires |f| >= 4 && |q| >= 4 && (q[0], Seq(q)) == (f[0], Seq(f))
    ensures Returned(variables, s', q)
  {
  }

  /**
   * A response that names the awaited packet goes on doing so: when the client has read everything, the
   * next cycle comes before a byte of the request has arrived, and the client reads its report, the mirrored
   * response is the old one, and the blocking send returns Success.
   */
  lemma StillReturned(variables: Mirrors, s: System, w: World, q: Packet) returns (m: nat)
    requires Variables(variables) && Invariant(s) && s.back == [] && ValidWorld(w) && Returned(variables, s, q)
    ensures var s' := Next(Next(s, Serve(0, w)), Read(m));
            && Returned(variables, s', q) && |s'.read| > |s.read| && s.read <= s'.read
            && s'.acted == s.acted && s'.sent == s.sent && s'.uses == s.uses
  {
    EmptyCycle(s, w);
    EmptyReport(w, (s.serverSeq + 1) % 0x1_0000);
    hide Invariant, SendAll, Frames, ValidWorld, Cycle, Next, Enabled, Received, Initial, AllRegistered, IN_SIZES, CLIENT_SIZES;
    var out := Cycle(w, (s.serverSeq + 1) % 0x1_0000, []).1;
    m := ServeAndRead(s, 0, w, []);
    assert s.acted + [] == s.acted;
    ReadOrInitial(Initial(variables), s.read, RESPONSE);
    ReflectConcat(Initial(variables), s.read, out);
    NotReflected(Reflect(Initial(variables), s.read), out);
  }
}
