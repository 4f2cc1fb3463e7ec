/**
 * Why blocking requests need caution: three parameter packets in one cycle, the third holding the bytes of
 * another frame, make the client take a response for the answer to a request the server has not seen.
 */
module Misled {
  import opened Bytes
  import opened Client
  import opened Completion
  import opened Deferred
  import opened Epoch
  import opened Exchange
  import opened Framing
  import opened Mirror
  import opened Reception
  import opened Refusal
  import opened Request

  /** The bytes of the first cycle: two frames, and the third up to the end of what it carries. */
  const SERVED: nat := 28 + 28 + 4 + 11

  /** System parameters from the client whose payload begins with the frame of a parameter control packet. */
  predicate Carries(c: Packet, f: Packet) {
    && Registered(IN_SIZES, c) && c[0] == SYSTEM_PARAM && |c| == 25
    && Registered(IN_SIZES, f) && f[0] == PARAM_CONTROL && |f| == 6 && f[5] == 0
    && c[2] != SYNC_AA && c[3] != SYNC_AA && Tail(c)[..11] == c[2..4] + Frame(f)
  }

  /** System parameters that fill one of the two buffers. */
  predicate Fills(a: Packet) {
    Registered(IN_SIZES, a) && a[0] == SYSTEM_PARAM && |a| == 25
  }

  /** There is room for two parameter packets and not for a third; what it carries has its own ring. */
  lemma Rooms(a: Packet, b: Packet, c: Packet, f: Packet)
    requires Fills(a) && Fills(b) && Carries(c, f)
    ensures HasRoom(SERVER_CONFIG, [], a) && HasRoom(SERVER_CONFIG, [a], b)
    ensures !HasRoom(SERVER_CONFIG, [a, b], c) && HasRoom(SERVER_CONFIG, [a, b], f)
  {
    assert [] + [a] == [a] && [a] + [b] == [a, b];
    CountTypeAppend([], a, SYSTEM_PARAM);
    CountTypeAppend([a], b, SYSTEM_PARAM);
    CountTypeAppend([], a, PARAM_CONTROL);
    CountTypeAppend([a], b, PARAM_CONTROL);
  }

  lemma TakeThree(x: seq<byte>, y: seq<byte>, z: seq<byte>, k: nat)
    requires k <= |z|
    ensures (x + y + z)[..|x| + |y| + k] == x + (y + z[..k])
  {
  }

  lemma CarriedQueued(a: Packet, b: Packet, c: Packet, f: Packet)
    requires Fills(a) && Fills(b) && Carries(c, f)
    ensures ValidSizes(SizesOf(SERVER_CONFIG))
    ensures ReceiveAll(SERVER_CONFIG, Hunting([a, b]), Frame(c)[..15]).state == Hunting([a, b] + [f])
  {
    ServerSizes();
    Rooms(a, b, c, f);
    hide ReceiveAll, SERVER_CONFIG, Frame, Tail, HasRoom, SizesOf, ValidSizes;
    EmbeddedQueued(SERVER_CONFIG, [a, b], c, c[2..4], f, 11);
  }

  /** The cycle queues two parameter packets and the packet that was never sent. */
  lemma ThreeQueued(a: Packet, b: Packet, c: Packet, f: Packet, wire: seq<byte>)
    requires Fills(a) && Fills(b) && Carries(c, f) && wire == Frame(a) + Frame(b) + Frame(c)
    ensures ValidSizes(SizesOf(SERVER_CONFIG)) && |wire| >= SERVED
    ensures ReceiveAll(SERVER_CONFIG, Hunting([]), wire[..SERVED]).state == Hunting([a, b] + [f])
  {
    CarriedQueued(a, b, c, f);
    Rooms(a, b, c, f);
    var part := Frame(c)[..15];
    TakeThree(Frame(a), Frame(b), Frame(c), 15);
    hide ReceiveAll, SERVER_CONFIG, Frame, Tail, HasRoom, SizesOf, Registered, ValidSizes, Carries;
    ReceiveFrame(SERVER_CONFIG, [], a);
    ReceiveFrame(SERVER_CONFIG, [a], b);
    assert [] + [a] == [a] && [a] + [b] == [a, b];
    ReceiveConcat(SERVER_CONFIG, Hunting([a]), Frame(b), part);
    ReceiveConcat(SERVER_CONFIG, Hunting([]), Frame(a), Frame(b) + part);
  }

  /** What the server answers to the batch fits, and all of it is registered with the client. */
  lemma AnswerFits(w: World, a: Packet, b: Packet, c: Packet, f: Packet)
    requires ValidWorld(w) && Fills(a) && Fills(b) && Carries(c, f)
    ensures ValidCalls([a, b] + [f])
    ensures var out := Cycle(w, 1, [a, b] + [f]).1;
            SendAll([], out) == (Frames(out), out) && AllRegistered(out)
  {
    var batch := [a, b] + [f];
    AcceptedIsCall(a);
    AcceptedIsCall(b);
    AcceptedIsCall(f);
    hide Tail, Carries, Fills;
    BatchStep(batch, 2);
    BatchStep(batch, 1);
    BatchStep(batch, 0);
    assert batch[..3] == batch && BatchCost(batch) <= 3 * 39;
    hide Cycle, ActAll, SendAll, Mask, MaskCost, ValidWorld, ValidCalls, BatchCost, AllRegistered, Frames;
    MaskCostBound(Mask(ActAll(w, 1, batch).0));
    CycleFits(w, 1, batch);
    CycleRegistered(w, 1, batch);
  }

  /** After the three sends: the cycle, and the client reading its answer. */
  lemma Answered(s: System, w: World, a: Packet, b: Packet, c: Packet, f: Packet) returns (s': System, m: nat)
    requires Consistent(s) && ValidWorld(w) && Fills(a) && Fills(b) && Carries(c, f)
    requires s == BEGIN.(uses := 3, sent := [a, b, c], wire := Frame(a) + Frame(b) + Frame(c))
    ensures ValidCalls([a, b] + [f])
    ensures s' == Next(Next(s, Serve(SERVED, w)), Read(m)) && Consistent(s')
    ensures s'.uses == 3 && s'.sent == [a, b, c] && s'.acted == [a, b] + [f]
    ensures s'.read == Cycle(w, 1, [a, b] + [f]).1 && s'.back == []
  {
    hide Cycle, SendAll, Frame, Frames, ReceiveAll, SERVER_CONFIG, ValidCalls, AllRegistered, Next,
         Fills, Carries, ValidSizes;
    ThreeQueued(a, b, c, f, s.wire);
    AnswerFits(w, a, b, c, f);
    m := ServeAndRead(s, SERVED, w, [a, b] + [f]);
    s' := Next(Next(s, Serve(SERVED, w)), Read(m));
    var out := Cycle(w, 1, [a, b] + [f]).1;
    assert [] + out == out && [] + ([a, b] + [f]) == [a, b] + [f];
  }

  // ---- and a run in which it happens

  /** A packet nobody sends: store the system parameters, with sequence number 4. */
  const EMBEDDED: Packet := [PARAM_CONTROL, 6, 4, 0, 2, 0]

  /** Twelve, and twenty-one, bytes of payload that do not matter. */
  const PADDING: seq<byte> := [0, 0, 0, 0, 0, 0, 0, 0, 0, 0, 0, 0]

  const PLAIN: Packet := [SYSTEM_PARAM, 25, 0, 0, 0, 0, 0, 0, 0, 0, 0, 0, 0] + PADDING
  const CARRIER: Packet := [SYSTEM_PARAM, 25, 0, 0] + Frame(EMBEDDED) + PADDING

  /** A request for the system parameters. */
  const REQUEST: Packet := [PARAM_CONTROL, 6, 0, 0, 0, 0]

  /** The client lets it through. */
  predicate Sendable(p: Packet) {
    |p| >= 4 && |p| == p[1] && Checked(p) == Success
  }

  lemma AllSendable()
    ensures |PLAIN| == 25 && Sendable(PLAIN) && |CARRIER| == 25 && Sendable(CARRIER)
    ensures |REQUEST| == 6 && Sendable(REQUEST)
  {
  }

  lemma StampedPlain(n: nat)
    requires n < 0x1_0000
    ensures Fills(Stamp(PLAIN, n))
  {
    AllSendable();
    SentIsRegistered(PLAIN, Stamp(PLAIN, n));
  }

  lemma StampedCarrier()
    ensures Carries(Stamp(CARRIER, 3), EMBEDDED)
  {
    AllSendable();
    SentIsRegistered(CARRIER, Stamp(CARRIER, 3));
    SizesAgree();
  }

  /** What the client sends is not the packet acted on last, and its request is none of those acted on. */
  lemma Different(a: Packet, b: Packet, c: Packet, r: Packet)
    requires Fills(a) && Fills(b) && |c| == 25 && r == Stamp(REQUEST, 4)
    ensures EMBEDDED !in [a, b, c] + [r] && r !in [a, b] + [EMBEDDED]
    ensures (r[0], Seq(r)) == (EMBEDDED[0], Seq(EMBEDDED))
  {
    assert r[4] == 0 && EMBEDDED[4] == 2;
  }

  /** The three sends. */
  lemma ThreeSends(p1: Packet, p2: Packet, p3: Packet) returns (s: System)
    requires Sendable(p1) && Sendable(p2) && Sendable(p3)
    ensures Consistent(BEGIN) && s == Next(Next(Next(BEGIN, Send(p1, true)), Send(p2, true)), Send(p3, true))
    ensures Consistent(s)
    ensures var a, b, c := Stamp(p1, 1), Stamp(p2, 2), Stamp(p3, 3);
            s == BEGIN.(uses := 3, sent := [a, b, c], wire := Frame(a) + Frame(b) + Frame(c))
  {
    BeginConsistent();
    hide Frame, Stamp, Checked, Consistent, Next, IN_SIZES, CLIENT_SIZES;
    var a, b, c := Stamp(p1, 1), Stamp(p2, 2), Stamp(p3, 3);
    SendStep(BEGIN, p1);
    var first := Next(BEGIN, Send(p1, true));
    assert [] + [a] == [a] && [] + Frame(a) == Frame(a);
    assert first == BEGIN.(uses := 1, sent := [a], wire := Frame(a));
    SendStep(first, p2);
    var second := Next(first, Send(p2, true));
    assert second == BEGIN.(uses := 2, sent := [a] + [b], wire := Frame(a) + Frame(b));
    SendStep(second, p3);
    s := Next(second, Send(p3, true));
    assert [a] + [b] + [c] == [a, b, c];
  }

  lemma RunFive(e1: Event, e2: Event, e3: Event, e4: Event, e5: Event)
    ensures Consistent(BEGIN)
    ensures Run([e1] + [e2] + [e3] + [e4] + [e5]) == Next(Next(Next(Next(Next(BEGIN, e1), e2), e3), e4), e5)
  {
    BeginConsistent();
    assert Run([]) == BEGIN && [] + [e1] == [e1];
    hide Next, Consistent, Run;
    RunOne([], e1);
    RunOne([e1], e2);
    RunOne([e1] + [e2], e3);
    RunOne([e1] + [e2] + [e3], e4);
    RunOne([e1] + [e2] + [e3] + [e4], e5);
  }

  /** The three packets, the cycle, and the client reading all of its answer. */
  function FirstCycle(p1: Packet, p2: Packet, p3: Packet, w: World, m: nat): seq<Event> {
    [Send(p1, true)] + [Send(p2, true)] + [Send(p3, true)] + [Serve(SERVED, w)] + [Read(m)]
  }

  /** After them the mirrored response names the number the next request will get. */
  lemma CarrierAnswered(variables: Mirrors, w: World, p1: Packet, p2: Packet, p3: Packet, f: Packet)
      returns (m: nat)
    requires Variables(variables) && ValidWorld(w) && Sendable(p1) && Sendable(p2) && Sendable(p3)
    requires Fills(Stamp(p1, 1)) && Fills(Stamp(p2, 2)) && Carries(Stamp(p3, 3), f)
    ensures var s := Run(FirstCycle(p1, p2, p3, w, m));
            && s.uses == 3 && s.sent == [Stamp(p1, 1), Stamp(p2, 2), Stamp(p3, 3)]
            && s.acted == [Stamp(p1, 1), Stamp(p2, 2)] + [f] && s.back == [] && Returned(variables, s, f)
  {
    hide Stamp, Next, Run, Checked, Variables, ValidWorld, Consistent, Cycle, Fills, Tail, Initial, ValidCalls;
    var a, b, c := Stamp(p1, 1), Stamp(p2, 2), Stamp(p3, 3);
    var sent := ThreeSends(p1, p2, p3);
    var answered;
    answered, m := Answered(sent, w, a, b, c, f);
    RunFive(Send(p1, true), Send(p2, true), Send(p3, true), Serve(SERVED, w), Read(m));
    LastResponse(Initial(variables), w, 1, [a, b], f);
  }

  /**
   * For all packets of that shape, whatever the client's variables held at first: the client sends the
   * request, reads the report of a cycle that comes before the request has arrived, and returns Success.
   * Four sequence numbers have been used, and what the server has acted on last is the packet carried.
   */
  lemma CarrierMisleads(variables: Mirrors, w: World, p1: Packet, p2: Packet, p3: Packet, f: Packet, request: Packet,
                        w': World)
      returns (before: seq<Event>, m: nat)
    requires Variables(variables) && ValidWorld(w) && ValidWorld(w')
    requires Sendable(p1) && Sendable(p2) && Sendable(p3) && Sendable(request)
    requires Fills(Stamp(p1, 1)) && Fills(Stamp(p2, 2)) && Carries(Stamp(p3, 3), f)
    requires (request[0], 4) == (f[0], Seq(f))
    ensures var s0, s := Run(before), Run(before + [Send(request, true)] + [Serve(0, w')] + [Read(m)]);
            && s.uses == 4 && Returned(variables, s, Stamp(request, 4)) && s0.read <= s.read && |s.read| > |s0.read|
            && s.sent == [Stamp(p1, 1), Stamp(p2, 2), Stamp(p3, 3)] + [Stamp(request, 4)]
            && s.acted == [Stamp(p1, 1), Stamp(p2, 2)] + [f]
  {
    hide Stamp, Next, Run, Checked, Variables, ValidWorld, Consistent, Fills, Carries, Mirrored;
    var k := CarrierAnswered(variables, w, p1, p2, p3, f);
    before := FirstCycle(p1, p2, p3, w, k);
    var sent, q := before + [Send(request, true)], Stamp(request, 4);
    RunOne(before, Send(request, true));
    SendStep(Run(before), request);
    RunInvariant(sent);
    hide Invariant;
    SameRead(variables, Run(before), Run(sent), f, q);
    m := StillReturned(variables, Run(sent), w', q);
    RunOne(sent, Serve(0, w'));
    RunOne(sent + [Serve(0, w')], Read(m));
  }

  /** So without a condition on what is sent, blocking requests are not sound. */
  lemma RefusedFrameMisleads(variables: Mirrors, w: World, w': World) returns (before: seq<Event>, m: nat)
    requires Variables(variables) && ValidWorld(w) && ValidWorld(w')
    ensures var s0, s := Run(before), Run(before + [Send(REQUEST, true)] + [Serve(0, w')] + [Read(m)]);
            var q := Stamp(REQUEST, 4);
            && Sendable(REQUEST) && s.uses == 4 && s0.read <= s.read && |s.read| > |s0.read|
            && Returned(variables, s, q) && q in s.sent && q !in s.acted
            && EMBEDDED in s.acted && EMBEDDED !in s.sent
  {
    var a, b, c, r := Stamp(PLAIN, 1), Stamp(PLAIN, 2), Stamp(CARRIER, 3), Stamp(REQUEST, 4);
    AllSendable();
    StampedPlain(1);
    StampedPlain(2);
    StampedCarrier();
    Different(a, b, c, r);
    hide Run, Checked, Variables, ValidWorld, Fills, Carries, Returned;
    before, m := CarrierMisleads(variables, w, PLAIN, PLAIN, CARRIER, EMBEDDED, REQUEST, w');
  }
}
