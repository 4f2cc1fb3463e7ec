/**
 * A client and a server at the two ends of a lossless line: sends, communication cycles of the server
 * and reads of the client interleave in any way, on any number of bytes at a time.
 */
module Exchange {
  import opened Bytes
  import opened Client
  import opened Deferred
  import opened Epoch
  import opened Framing
  import opened Link
  import opened Mirror

  /**
   * `sent` holds the packets the client put on the wire, `acted` those whose action the server ran,
   * `emitted` what the server's transmit ring took and `read` what the client received.
   */
  datatype System = System(
    uses: nat, sent: seq<Packet>, wire: seq<byte>,
    server: Deferred.State, serverSeq: nat, acted: seq<Packet>,
    emitted: seq<Packet>, back: seq<byte>,
    rx: Rx, read: seq<Packet>)

  datatype Event =
    | Send(p: Packet, fits: bool)   // _sendPacket of the client; `fits` says whether its ring has room
    | Serve(n: nat, w: World)       // Orazio_commHandle on the next n bytes, with these global variables
    | Read(n: nat)                  // PacketHandler_rxByte of the client on the next n bytes

  const BEGIN := System(0, [], [], Deferred.State(WaitAA, []), 0, [], [], [], WaitAA, [])

  const IN_SIZES: Sizes := SizesOf(SERVER_CONFIG)

  predicate Consistent(s: System) {
    && ValidSizes(IN_SIZES) && ValidSizes(CLIENT_SIZES)
    && WellFormed(IN_SIZES, s.server.rx) && s.server.pending == []
    && WellFormed(CLIENT_SIZES, s.rx)
  }

  lemma BeginConsistent()
    ensures Consistent(BEGIN)
  {
    ServerSizes();
    ClientSizesValid();
  }

  /** The calls of a cycle on the next `n` bytes. */
  function Received(s: System, n: nat): (f: Flushed)
    requires Consistent(s) && n <= |s.wire|
    ensures WellFormed(IN_SIZES, f.state.rx) && ValidCalls(f.state.pending)
  {
    ReceivedCalls(s, n);
    ReceiveAll(SERVER_CONFIG, s.server, s.wire[..n])
  }

  lemma ReceivedCalls(s: System, n: nat)
    requires Consistent(s) && n <= |s.wire|
    ensures ValidCalls(ReceiveAll(SERVER_CONFIG, s.server, s.wire[..n]).state.pending)
  {
    QueueGrowth(SERVER_CONFIG, s.server, s.wire[..n]);
    var ps := ReceiveAll(SERVER_CONFIG, s.server, s.wire[..n]).state.pending;
    forall k | 0 <= k < |ps|
      ensures ValidCall(ps[k])
    {
      AcceptedIsCall(ps[k]);
    }
  }

  predicate Enabled(s: System, e: Event)
    requires Consistent(s)
  {
    match e
    case Send(p, fits) => |p| >= 4 && |p| == p[1]
    case Serve(n, w) => n <= |s.wire| && ValidWorld(w)
    case Read(n) => n <= |s.back|
  }

  function Next(s: System, e: Event): (s': System)
    requires Consistent(s)
    ensures Consistent(s')
  {
    if !Enabled(s, e) then s else
    match e
    case Send(p, fits) => Sending(s, p, fits)
    case Serve(n, w) => Serving(s, n, w)
    case Read(n) => Reading(s, n)
  }

  function Sending(s: System, p: Packet, fits: bool): (s': System)
    requires Consistent(s) && |p| >= 4
    ensures Consistent(s')
  {
    var uses := s.uses + 1;
    if Checked(p) == Success && fits then
      var q := Stamp(p, uses % 0x1_0000);
      s.(uses := uses, sent := s.sent + [q], wire := s.wire + Frame(q))
    else s.(uses := uses)
  }

  /** One cycle, as Comm.OrazioComm.CommHandle computes it. */
  function Serving(s: System, n: nat, w: World): (s': System)
    requires Consistent(s) && n <= |s.wire| && ValidWorld(w)
    ensures Consistent(s')
  {
    var serverSeq := (s.serverSeq + 1) % 0x1_0000;
    var f := Received(s, n);
    var (bytes, taken) := SendAll([], Cycle(w, serverSeq, f.state.pending).1);
    s.(wire := s.wire[n..], server := Deferred.State(f.state.rx, []), serverSeq := serverSeq,
       acted := s.acted + f.state.pending, emitted := s.emitted + taken, back := s.back + bytes)
  }

  function Reading(s: System, n: nat): (s': System)
    requires Consistent(s) && n <= |s.back|
    ensures Consistent(s')
  {
    var (rx, ps) := Feed(CLIENT_SIZES, s.rx, s.back[..n]);
    s.(back := s.back[n..], rx := rx, read := s.read + ps)
  }

  function Run(events: seq<Event>): (s: System)
    ensures Consistent(s)
  {
    BeginConsistent();
    if |events| == 0 then BEGIN else Next(Run(events[..|events| - 1]), events[|events| - 1])
  }

  lemma RunOne(before: seq<Event>, e: Event)
    ensures Run(before + [e]) == Next(Run(before), e)
  {
    assert (before + [e])[..|before|] == before;
  }

  // ---- invariants

  /** The client reads what the server emitted, in order. */
  predicate FromServer(s: System)
    requires Consistent(s)
  {
    var (rx, rest) := Feed(CLIENT_SIZES, s.rx, s.back);
    rx == WaitAA && s.read + rest == s.emitted && AllRegistered(s.emitted)
  }

  /** Some packet of `acted` is the one the response names. */
  predicate Explained(r: Packet, acted: seq<Packet>) {
    HasHeader(r, RESPONSE) ==> exists a :: a in acted && |a| >= 4 && Answers(r) == (a[0], Seq(a))
  }

  predicate AllExplained(rs: seq<Packet>, acted: seq<Packet>) {
    forall r :: r in rs ==> Explained(r, acted)
  }

  /** Until the 16-bit counter wraps, the packets sent carry increasing sequence numbers. */
  predicate Numbered(sent: seq<Packet>, uses: nat) {
    && (forall i :: 0 <= i < |sent| ==> |sent[i]| >= 4 && 1 <= Seq(sent[i]) <= uses)
    && (forall i, j :: 0 <= i < j < |sent| ==> Seq(sent[i]) < Seq(sent[j]))
  }

  ghost predicate Invariant(s: System) {
    && Consistent(s) && FromServer(s) && AllExplained(s.emitted, s.acted)
    && (s.uses < 0x1_0000 ==> Numbered(s.sent, s.uses))
  }

  // ---- the client sends

  lemma SendKeeps(s: System, p: Packet, fits: bool)
    requires Invariant(s) && |p| >= 4 && |p| == p[1]
    ensures Invariant(Sending(s, p, fits))
  {
    hide AllExplained, IN_SIZES, CLIENT_SIZES, Feed, OUT_SIZES, Stamp;
  }

  /** What the client lets through is what the server has registered. */
  lemma SentIsRegistered(p: Packet, q: Packet)
    requires |p| >= 4 && |p| == p[1] && Checked(p) == Success
    requires |q| == |p| && q[0] == p[0] && q[1] == p[1]
    ensures Registered(IN_SIZES, q)
  {
    SizesAgree();
  }

  // ---- the server acts

  /** What the transmit ring takes was offered to it. */
  lemma {:induction false} TakenFrom(queue: seq<byte>, ps: seq<Packet>)
    ensures forall p :: p in SendAll(queue, ps).1 ==> p in ps
  {
    if |ps| > 0 {
      TakenFrom(queue, ps[..|ps| - 1]);
    }
  }

  lemma ExplainedByMore(rs: seq<Packet>, acted: seq<Packet>, more: seq<Packet>)
    requires AllExplained(rs, acted) || AllExplained(rs, more)
    ensures AllExplained(rs, acted + more)
  {
    forall r | r in rs
      ensures Explained(r, acted + more)
    {
      if HasHeader(r, RESPONSE) {
        var a :| (a in acted || a in more) && |a| >= 4 && Answers(r) == (a[0], Seq(a));
        assert a in acted + more;
      }
    }
  }

  /** Every response of a batch of actions answers a packet of the batch. */
  lemma {:induction false} RepliesExplained(w: World, seqNo: nat, ps: seq<Packet>)
    requires ValidWorld(w) && ValidCalls(ps) && seqNo < 0x1_0000
    ensures AllExplained(ActAll(w, seqNo, ps).1, ps)
  {
    if |ps| > 0 {
      hide AllExplained, Act, ValidWorld;
      var n := |ps| - 1;
      RepliesExplained(w, seqNo, ps[..n]);
      var (w', out) := ActAll(w, seqNo, ps[..n]);
      var more := Act(w', seqNo, ps[n]).1;
      ReplyExplained(w', seqNo, ps[n]);
      assert ps == ps[..n] + [ps[n]];
      ExplainedByMore(out, ps[..n], [ps[n]]);
      ExplainedByMore(more, ps[..n], [ps[n]]);
      ExplainedJoin(out, more, ps);
    }
  }

  lemma ReplyExplained(w: World, seqNo: nat, p: Packet)
    requires ValidWorld(w) && ValidCall(p) && seqNo < 0x1_0000
    ensures AllExplained(Act(w, seqNo, p).1, [p])
  {
    hide Act, ValidWorld;
    ActResponds(w, seqNo, p);
    assert p in [p];
  }

  lemma ExplainedJoin(a: seq<Packet>, b: seq<Packet>, acted: seq<Packet>)
    requires AllExplained(a, acted) && AllExplained(b, acted)
    ensures AllExplained(a + b, acted)
  {
  }

  /** The periodic packets hold no response. */
  lemma ReportExplained(w: World, seqNo: nat)
    requires ValidWorld(w) && seqNo < 0x1_0000
    ensures AllExplained(Report(w, seqNo).1, [])
  {
    hide Mask, Stamp;
  }

  lemma CycleExplained(w: World, seqNo: nat, ps: seq<Packet>)
    requires ValidWorld(w) && ValidCalls(ps) && seqNo < 0x1_0000
    ensures AllExplained(SendAll([], Cycle(w, seqNo, ps).1).1, ps)
  {
    var (w', replies) := ActAll(w, seqNo, ps);
    RepliesExplained(w, seqNo, ps);
    ReportExplained(w', seqNo);
    hide ActAll, Report, ValidWorld, ValidCalls;
    ExplainedByMore(Report(w', seqNo).1, [], ps);
    assert [] + ps == ps;
    ExplainedJoin(replies, Report(w', seqNo).1, ps);
    TakenFrom([], Cycle(w, seqNo, ps).1);
  }

  /** What a cycle emits reaches the client as frames of packets it has registered. */
  lemma CycleRegistered(w: World, seqNo: nat, ps: seq<Packet>)
    requires ValidWorld(w) && ValidCalls(ps) && seqNo < 0x1_0000
    ensures var (bytes, taken) := SendAll([], Cycle(w, seqNo, ps).1);
            bytes == Frames(taken) && AllRegistered(taken)
  {
    var out := Cycle(w, seqNo, ps).1;
    ActAllRegistered(w, seqNo, ps);
    ReportRegistered(ActAll(w, seqNo, ps).0, seqNo);
    hide ActAll, Report, ValidWorld, ValidCalls, CLIENT_SIZES, SendAll;
    assert AllRegistered(out);
    TakenFrom([], out);
    RegisteredPart(SendAll([], out).1, out);
    SendAllFits([], out);
    assert [] + Frames(SendAll([], out).1) == Frames(SendAll([], out).1);
  }

  lemma RegisteredPart(part: seq<Packet>, ps: seq<Packet>)
    requires AllRegistered(ps) && forall p :: p in part ==> p in ps
    ensures AllRegistered(part)
  {
    hide CLIENT_SIZES, Registered;
    forall k | 0 <= k < |part|
      ensures Registered(CLIENT_SIZES, part[k])
    {
      assert part[k] in ps;
    }
  }

  lemma ServeKeeps(s: System, n: nat, w: World)
    requires Invariant(s) && Enabled(s, Serve(n, w))
    ensures Invariant(Serving(s, n, w))
  {
    hide AllExplained, IN_SIZES, CLIENT_SIZES, SERVER_CONFIG, Feed, Cycle, SendAll, Numbered, ValidWorld,
         ValidCalls, ReceiveAll;
    var f := Received(s, n);
    var serverSeq := (s.serverSeq + 1) % 0x1_0000;
    CycleExplained(w, serverSeq, f.state.pending);
    CycleRegistered(w, serverSeq, f.state.pending);
    var taken := SendAll([], Cycle(w, serverSeq, f.state.pending).1).1;
    EmitKeeps(s, taken);
    ExplainedByMore(s.emitted, s.acted, f.state.pending);
    ExplainedByMore(taken, s.acted, f.state.pending);
    ExplainedJoin(s.emitted, taken, s.acted + f.state.pending);
  }

  lemma EmitKeeps(s: System, taken: seq<Packet>)
    requires Consistent(s) && FromServer(s) && AllRegistered(taken)
    ensures FromServer(s.(back := s.back + Frames(taken), emitted := s.emitted + taken))
  {
    hide CLIENT_SIZES, Feed, IN_SIZES;
    FeedFrames(CLIENT_SIZES, taken);
    FeedConcat(CLIENT_SIZES, s.rx, s.back, Frames(taken));
    Associate(s.read, Feed(CLIENT_SIZES, s.rx, s.back).1, taken);
  }

  // ---- the client reads

  lemma ReadKeeps(s: System, n: nat)
    requires Invariant(s) && n <= |s.back|
    ensures Invariant(Reading(s, n))
  {
    hide AllExplained, Numbered, CLIENT_SIZES, Feed, IN_SIZES;
    assert s.back == s.back[..n] + s.back[n..];
    FeedConcat(CLIENT_SIZES, s.rx, s.back[..n], s.back[n..]);
    var (rx, ps) := Feed(CLIENT_SIZES, s.rx, s.back[..n]);
    Associate(s.read, ps, Feed(CLIENT_SIZES, rx, s.back[n..]).1);
  }

  lemma {:induction false} RunInvariant(events: seq<Event>)
    ensures Invariant(Run(events))
  {
    BeginConsistent();
    if |events| > 0 {
      hide Invariant, Enabled, Sending, Serving, Reading;
      var s, e := Run(events[..|events| - 1]), events[|events| - 1];
      RunInvariant(events[..|events| - 1]);
      NextKeeps(s, e);
    }
  }

  lemma NextKeeps(s: System, e: Event)
    requires Consistent(s) && Invariant(s)
    ensures Invariant(Next(s, e))
  {
    hide Invariant, Sending, Serving, Reading;
    if Enabled(s, e) {
      match e
      case Send(p, fits) => SendKeeps(s, p, fits);
      case Serve(n, w) => ServeKeeps(s, n, w);
      case Read(n) => ReadKeeps(s, n);
    }
  }
}
