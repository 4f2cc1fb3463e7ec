/** Why blocking requests are sound only for 2^16 sequence numbers: an old response counts for a new request. */
module Stale {
  import opened Client
  import opened Completion
  import opened Epoch
  import opened Exchange
  import opened Framing
  import opened Mirror
  import opened Request

  /** Sends of a packet that the check of type and size turns away. */
  function Rejected(bad: Packet, n: nat): seq<Event> {
    if n == 0 then [] else Rejected(bad, n - 1) + [Send(bad, true)]
  }

  function Uses(s: System, n: nat): System {
    s.(uses := s.uses + n)
  }

  /** A send that is turned away still uses up a sequence number. */
  lemma {:induction false} RejectedCount(before: seq<Event>, bad: Packet, n: nat)
    requires |bad| >= 4 && |bad| == bad[1] && Checked(bad) != Success
    ensures Run(before + Rejected(bad, n)) == Uses(Run(before), n)
  {
    hide Run, Next, Consistent, Checked;
    if n == 0 {
      assert before + Rejected(bad, 0) == before;
    } else {
      RejectedCount(before, bad, n - 1);
      OneRejected(before, bad, n - 1);
      assert Uses(Uses(Run(before), n - 1), 1) == Uses(Run(before), n);
    }
  }

  lemma OneRejected(before: seq<Event>, bad: Packet, n: nat)
    requires |bad| >= 4 && |bad| == bad[1] && Checked(bad) != Success
    ensures Run(before + Rejected(bad, n + 1)) == Uses(Run(before + Rejected(bad, n)), 1)
  {
    hide Run, Next, Consistent, Checked;
    var events := before + Rejected(bad, n);
    assert before + Rejected(bad, n + 1) == events + [Send(bad, true)];
    RunOne(events, Send(bad, true));
    TurnedAway(Run(events), bad);
  }

  lemma TurnedAway(s: System, bad: Packet)
    requires Consistent(s) && |bad| >= 4 && |bad| == bad[1] && Checked(bad) != Success
    ensures Next(s, Send(bad, true)) == Uses(s, 1)
  {
  }

  /** After 65535 of them the next packet gets the number of the last one that was sent before. */
  lemma SentAgain(before: seq<Event>, bad: Packet, p: Packet, n: nat)
    requires |bad| >= 4 && |bad| == bad[1] && Checked(bad) != Success && n == 0xFFFF
    requires |p| >= 4 && |p| == p[1] && Checked(p) == Success
    ensures var s, s' := Run(before), Run(before + Rejected(bad, n) + [Send(p, true)]);
            && s'.uses == s.uses + 0x1_0000 && s'.sent == s.sent + [Stamp(p, s.uses % 0x1_0000)]
            && s'.acted == s.acted && s'.read == s.read && s'.back == s.back
  {
    hide Run, Consistent, Rejected, Next, Stamp, Checked;
    RejectedCount(before, bad, n);
    RunOne(before + Rejected(bad, n), Send(p, true));
    SendStep(Uses(Run(before), n), p);
    assert (Run(before).uses + 0x1_0000) % 0x1_0000 == Run(before).uses % 0x1_0000;
  }

  /**
   * A request that has been answered, 65535 sends that are turned away, and a new request of the same type:
   * it gets the number of the old one.  Its bytes are still on their way when the client reads the next
   * report, so the blocking send returns Success although the server has acted on nothing since.
   */
  lemma StaleResponse(variables: Mirrors, before: seq<Event>, q: Packet, bad: Packet, p: Packet, w: World, n: nat)
      returns (m: nat)
    requires Variables(variables) && ValidWorld(w) && n == 0xFFFF
    requires Run(before).back == [] && Returned(variables, Run(before), q) && |q| >= 4 && Seq(q) == Run(before).uses % 0x1_0000
    requires |bad| >= 4 && |bad| == bad[1] && Checked(bad) != Success
    requires |p| >= 4 && |p| == p[1] && Checked(p) == Success && p[0] == q[0]
    ensures var sent := before + Rejected(bad, n) + [Send(p, true)];
            var s, s' := Run(before), Run(sent + [Serve(0, w)] + [Read(m)]);
            var again := Stamp(p, Seq(q));
            && s'.uses == s.uses + 0x1_0000 && s'.sent == s.sent + [again] && s'.acted == s.acted
            && s.read <= s'.read && |s'.read| > |s.read| && Returned(variables, s', again)
  {
    hide Run, Consistent, Rejected, Next, Stamp, Checked, Variables, ValidWorld, Returned, Invariant;
    var sent := before + Rejected(bad, n) + [Send(p, true)];
    var again := Stamp(p, Seq(q));
    SentAgain(before, bad, p, n);
    RunInvariant(sent);
    SameRead(variables, Run(before), Run(sent), q, again);
    m := StillReturned(variables, Run(sent), w, again);
    RunOne(sent, Serve(0, w));
    RunOne(sent + [Serve(0, w)], Read(m));
  }

  lemma RunNothing()
    ensures Run([]) == BEGIN && Quiet(Run([]))
  {
  }

  lemma Unlike(p: Packet, p': Packet)
    requires |p| >= 4 && |p'| >= 4 && p'[0] == p[0] && p'[4..] != p[4..]
    ensures Stamp(p', 1) != Stamp(p, 1)
    ensures Seq(Stamp(p, 1)) == 1 && Stamp(p, 1)[0] == p[0]
  {
  }

  /** Such a run exists from the very start, for every kind of request. */
  lemma WrapMisleads(variables: Mirrors, p: Packet, bad: Packet, p': Packet, w: World, w': World, n: nat)
      returns (events: seq<Event>)
    requires Variables(variables) && ValidWorld(w) && ValidWorld(w') && n == 0xFFFF
    requires |p| >= 4 && |p| == p[1] && Checked(p) == Success
    requires |bad| >= 4 && |bad| == bad[1] && Checked(bad) != Success
    requires |p'| >= 4 && |p'| == p'[1] && Checked(p') == Success && p'[0] == p[0] && p'[4..] != p[4..]
    ensures var s, q := Run(events), Stamp(p', 1);
            && s.uses == 0x1_0001 && s.sent == [Stamp(p, 1)] + [q] && s.acted == [Stamp(p, 1)]
            && q !in s.acted && Returned(variables, s, q)
  {
    hide Run, Consistent, Rejected, Next, Stamp, Checked, Variables, ValidWorld, Mirrored;
    RunNothing();
    Unlike(p, p');
    var k, m := RequestCompletes(variables, [], p, w);
    var before := [] + [Send(p, true)] + [Serve(k, w)] + [Read(m)];
    var m' := StaleResponse(variables, before, Stamp(p, 1), bad, p', w', n);
    events := before + Rejected(bad, n) + [Send(p', true)] + [Serve(0, w')] + [Read(m')];
  }
}
