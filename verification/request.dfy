/** Blocking sends of the client: what a matching response proves about the server. */
module Request {
  import opened Bytes
  import opened Client
  import opened Epoch
  import opened Exchange
  import opened Framing
  import opened Mirror
  import opened Provenance
  import Link

  /** A packet of the client is the only one that its type and sequence number name. */
  lemma Unique(sent: seq<Packet>, uses: nat, a: Packet, q: Packet)
    requires Numbered(sent, uses) && a in sent && q in sent && Seq(a) == Seq(q)
    ensures a == q
  {
    var i :| 0 <= i < |sent| && sent[i] == a;
    var j :| 0 <= j < |sent| && sent[j] == q;
    assert !(i < j) && !(j < i);
  }

  /** A mirror was either read or is what it was. */
  lemma {:induction false} ReadOrInitial(m: Mirrors, ps: seq<Packet>, t: byte)
    requires t in m
    ensures t in Reflect(m, ps) && (Reflect(m, ps)[t] in ps || Reflect(m, ps)[t] == m[t])
  {
    if |ps| > 0 {
      ReadOrInitial(m, ps[..|ps| - 1], t);
    }
  }

  /** The response mirrored by the client, `variables` being what its memory held before OrazioClient_init. */
  function Mirrored(variables: Mirrors, s: System): Packet
    requires Variables(variables)
  {
    ReadOrInitial(Initial(variables), s.read, RESPONSE);
    Reflect(Initial(variables), s.read)[RESPONSE]
  }

  /** If a response the client has read names a packet it has sent, the server has acted on exactly that packet. */
  lemma ResponseMeansActed(s: System, r: Packet, q: Packet)
    requires Invariant(s) && OnlySent(s) && s.uses < 0x1_0000
    requires r in s.read && q in s.sent && HasHeader(r, RESPONSE) && |q| >= 4 && Answers(r) == (q[0], Seq(q))
    ensures q in s.acted
  {
    hide IN_SIZES, CLIENT_SIZES, Link.Feed, Numbered;
    assert r in s.read + Link.Feed(CLIENT_SIZES, s.rx, s.back).1;
    assert Explained(r, s.acted);
    var a :| a in s.acted && |a| >= 4 && Answers(r) == (a[0], Seq(a));
    Unique(s.sent, s.uses, a, q);
  }

  /** Runs only add to what was sent, acted on and read. */
  predicate Extends(s: System, s': System) {
    s.sent <= s'.sent && s.acted <= s'.acted && s.read <= s'.read && s.uses <= s'.uses
  }

  lemma {:induction false} RunExtends(before: seq<Event>, after: seq<Event>)
    ensures Extends(Run(before), Run(before + after))
  {
    if |after| == 0 {
      assert before + after == before;
    } else {
      hide Run, Next, Consistent, Extends;
      var n := |after| - 1;
      assert before + after == (before + after[..n]) + [after[n]];
      RunExtends(before, after[..n]);
      RunOne(before + after[..n], after[n]);
      NextExtends(Run(before + after[..n]), after[n]);
      ExtendsTwice(Run(before), Run(before + after[..n]), Run(before + after));
    }
  }

  lemma ExtendsTwice(s: System, s': System, s'': System)
    requires Extends(s, s') && Extends(s', s'')
    ensures Extends(s, s'')
  {
  }

  lemma NextExtends(s: System, e: Event)
    requires Consistent(s)
    ensures Extends(s, Next(s, e))
  {
    hide Consistent, Received, Cycle, SendAll, Link.Feed, Checked, Stamp, Frame;
  }

  /** Whatever a run has explained so far has a sequence number used so far. */
  lemma Earlier(s: System, q: Packet)
    requires Invariant(s) && OnlySent(s) && s.uses + 1 < 0x1_0000 && |q| >= 4 && Seq(q) == s.uses + 1
    ensures q !in s.acted
    ensures forall r :: r in s.read && HasHeader(r, RESPONSE) ==> Answers(r) != (q[0], Seq(q))
  {
    hide IN_SIZES, CLIENT_SIZES, Link.Feed;
    forall r | r in s.read && HasHeader(r, RESPONSE)
      ensures Answers(r) != (q[0], Seq(q))
    {
      assert r in s.read + Link.Feed(CLIENT_SIZES, s.rx, s.back).1;
      assert Explained(r, s.acted);
      var a :| a in s.acted && |a| >= 4 && Answers(r) == (a[0], Seq(a));
      assert a in s.sent;
    }
  }

  /** A send that fits puts the stamped packet on the wire. */
  lemma SendSent(s: System, p: Packet)
    requires Consistent(s) && |p| >= 4 && |p| == p[1] && Checked(p) == Success
    ensures var s', q := Next(s, Send(p, true)), Stamp(p, (s.uses + 1) % 0x1_0000);
            s'.uses == s.uses + 1 && s'.sent == s.sent + [q] && s'.acted == s.acted && s'.read == s.read
  {
  }

  /** The client stops waiting: the mirrored response names the packet it awaits an answer to. */
  predicate Returned(variables: Mirrors, s: System, q: Packet)
    requires Variables(variables)
  {
    && HasHeader(Mirrored(variables, s), RESPONSE) && |q| >= 4
    && Answers(Mirrored(variables, s)) == (q[0], Seq(q))
  }

  lemma CautiousBefore(strict: bool, before: seq<Event>, after: seq<Event>)
    requires AllCautious(strict, before + after)
    ensures AllCautious(strict, before)
  {
    hide Run, Enabled, Cautious;
    var events := before + after;
    assert forall k :: 0 <= k < |before| ==> events[k] == before[k] && events[..k] == before[..k];
  }

  lemma CarefulBefore(before: seq<Event>, after: seq<Event>)
    requires Careful(before + after)
    ensures Careful(before)
  {
    hide AllCautious;
    if AllCautious(true, before + after) {
      CautiousBefore(true, before, after);
    } else {
      CautiousBefore(false, before, after);
    }
  }

  /** Sending only mild packets is caution enough, whatever the server refuses. */
  lemma MildIsCautious(strict: bool, events: seq<Event>)
    requires AllMild(strict, Run(events).sent)
    ensures AllCautious(strict, events) && Careful(events)
  {
    hide Next, Consistent, Mild, IN_SIZES, Received, AllMild, OnWire;
    forall k | 0 <= k < |events| && events[k].Serve? && Enabled(Run(events[..k]), events[k])
      ensures Cautious(strict, Run(events[..k]), events[k].n)
    {
      var s := Run(events[..k]);
      assert events[..k] + events[k..] == events;
      RunExtends(events[..k], events[k..]);
      MildPart(strict, s.sent, |s.wire|, Run(events).sent);
    }
  }

  lemma MildPart(strict: bool, sent: seq<Packet>, n: nat, ps: seq<Packet>)
    requires sent <= ps && AllMild(strict, ps)
    ensures AllMild(strict, OnWire(sent, n))
  {
    hide Mild, IN_SIZES, OnWire;
    OnWireSent(sent, n);
    forall k | 0 <= k < |OnWire(sent, n)|
      ensures Registered(IN_SIZES, OnWire(sent, n)[k]) && Mild(strict, OnWire(sent, n)[k])
    {
      var j :| 0 <= j < |sent| && sent[j] == OnWire(sent, n)[k];
      assert ps[j] == sent[j];
    }
  }

  lemma {:induction false} OnWireSent(sent: seq<Packet>, n: nat)
    ensures forall k :: 0 <= k < |OnWire(sent, n)| ==> OnWire(sent, n)[k] in sent
  {
    if |sent| > 0 && n >= |Frame(sent[|sent| - 1])| {
      OnWireSent(sent[..|sent| - 1], n - |Frame(sent[|sent| - 1])|);
    }
  }

  /**
   * Blocking request soundness.  Where a blocking send returns Success the mirrored response names the
   * packet sent; if fewer than 2^16 sequence numbers have been used, then the server ran the action of
   * exactly that packet, after it was sent, and the response was read after it was sent.
   */
  lemma RequestAnswered(variables: Mirrors, before: seq<Event>, p: Packet, after: seq<Event>)
    requires Variables(variables) && Careful(before + [Send(p, true)] + after)
    requires |p| >= 4 && |p| == p[1] && Checked(p) == Success
    requires Run(before + [Send(p, true)] + after).uses < 0x1_0000
    requires Returned(variables, Run(before + [Send(p, true)] + after), Stamp(p, (Run(before).uses + 1) % 0x1_0000))
    ensures var s, q := Run(before + [Send(p, true)] + after), Stamp(p, (Run(before).uses + 1) % 0x1_0000);
            && q in s.acted && q !in Run(before).acted
            && Mirrored(variables, s) in s.read && Mirrored(variables, s) !in Run(before).read
  {
    hide Run, Invariant, Next, Stamp, Initial, Reflect, Consistent, Careful, OnlySent;
    var sending := before + [Send(p, true)];
    var s0, s1, s, q := Run(before), Run(sending), Run(sending + after), Stamp(p, (Run(before).uses + 1) % 0x1_0000);
    RunOne(before, Send(p, true));
    SendSent(s0, p);
    RunExtends(sending, after);
    RunInvariant(before);
    RunInvariant(sending + after);
    CarefulBefore(sending, after);
    CarefulBefore(before, [Send(p, true)]);
    CarefulSent(before);
    CarefulSent(sending + after);
    Earlier(s0, q);
    assert q in s1.sent && s1.sent <= s.sent;
    ReadOrInitial(Initial(variables), s.read, RESPONSE);
    ResponseMeansActed(s, Mirrored(variables, s), q);
  }
}
