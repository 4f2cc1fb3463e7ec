/** Snapshot consistency over whole runs of a client and a server. */
module Snapshots {
  import opened Client
  import opened Epoch
  import opened Exchange
  import opened Framing
  import Link
  import opened Mirror

  /** The cycle reports everything and everything it sends fits into the transmit ring. */
  predicate Full(s: System, n: nat, w: World)
    requires Consistent(s) && n <= |s.wire| && ValidWorld(w)
  {
    var seqNo, pending := (s.serverSeq + 1) % 0x1_0000, Received(s, n).state.pending;
    && Mask(ActAll(w, seqNo, pending).0) % 8 == 7
    && BatchCost(pending) + MaskCost(Mask(ActAll(w, seqNo, pending).0)) <= BUFFER_SIZE_MAX
  }

  /** What the cycle gets into the transmit ring is fair to the client. */
  predicate FairCycle(s: System, n: nat, w: World)
    requires Consistent(s) && n <= |s.wire| && ValidWorld(w)
  {
    Fair(SendAll([], Cycle(w, (s.serverSeq + 1) % 0x1_0000, Received(s, n).state.pending).1).1)
  }

  /** A full cycle is fair. */
  lemma FullIsFair(s: System, n: nat, w: World)
    requires Consistent(s) && n <= |s.wire| && ValidWorld(w) && Full(s, n, w)
    ensures FairCycle(s, n, w)
  {
    hide Consistent, Cycle, ActAll, SendAll, ValidWorld, BatchCost, MaskCost, Mask, IN_SIZES, HasStatus;
    var seqNo, pending := (s.serverSeq + 1) % 0x1_0000, Received(s, n).state.pending;
    CycleFits(w, seqNo, pending);
    CycleShape(w, seqNo, pending);
  }

  /** Every cycle of the run is fair. */
  predicate AllFair(events: seq<Event>) {
    forall k :: 0 <= k < |events| && events[k].Serve? && Enabled(Run(events[..k]), events[k])
      ==> FairCycle(Run(events[..k]), events[k].n, events[k].w)
  }

  /** The i-th cycle has sequence number i modulo 2^16, counting from 1. */
  predicate Consecutive(es: seq<EpochOf>) {
    forall i :: 0 <= i < |es| ==> Honest(es[i]) && es[i].seqNo == (i + 1) % 0x1_0000
  }

  /** Everything emitted so far, cut into the epochs of the server's cycles. */
  ghost predicate EmitsEpochs(s: System, es: seq<EpochOf>) {
    s.emitted == Stream(es) && Consecutive(es) && s.serverSeq == |es| % 0x1_0000
  }

  lemma StreamAppend(es: seq<EpochOf>, e: EpochOf)
    ensures Stream(es + [e]) == Stream(es) + e.ps
  {
    assert (es + [e])[..|es|] == es;
  }

  lemma CycleEmits(s: System, n: nat, w: World)
    requires Consistent(s) && Enabled(s, Serve(n, w))
    ensures var seqNo, s' := (s.serverSeq + 1) % 0x1_0000, Next(s, Serve(n, w));
            && s'.serverSeq == seqNo
            && s'.emitted == s.emitted + SendAll([], Cycle(w, seqNo, Received(s, n).state.pending).1).1
  {
    hide Consistent, Cycle, SendAll, ValidWorld, Received;
  }

  lemma OneMoreEpoch(s: System, s': System, es: seq<EpochOf>, ps: seq<Packet>)
    requires EmitsEpochs(s, es) && Honest(EpochOf(ps, (s.serverSeq + 1) % 0x1_0000))
    requires s'.serverSeq == (s.serverSeq + 1) % 0x1_0000 && s'.emitted == s.emitted + ps
    ensures EmitsEpochs(s', es + [EpochOf(ps, s'.serverSeq)])
  {
    hide Honest, Stream;
    StreamAppend(es, EpochOf(ps, s'.serverSeq));
  }

  lemma FairEpoch(s: System, n: nat, w: World, es: seq<EpochOf>) returns (es': seq<EpochOf>)
    requires Consistent(s) && Enabled(s, Serve(n, w)) && FairCycle(s, n, w) && EmitsEpochs(s, es)
    ensures EmitsEpochs(Next(s, Serve(n, w)), es')
  {
    hide Honest, Cycle, SendAll, ValidWorld, Next, Fair, EmitsEpochs, Consistent;
    CycleEmits(s, n, w);
    var seqNo, pending := (s.serverSeq + 1) % 0x1_0000, Received(s, n).state.pending;
    var taken := SendAll([], Cycle(w, seqNo, pending).1).1;
    FairIsHonest(w, seqNo, pending);
    OneMoreEpoch(s, Next(s, Serve(n, w)), es, taken);
    es' := es + [EpochOf(taken, seqNo)];
  }

  lemma {:induction false} RunEpochs(events: seq<Event>) returns (es: seq<EpochOf>)
    requires AllFair(events)
    ensures EmitsEpochs(Run(events), es)
  {
    es := [];
    if |events| > 0 {
      hide Consistent, EmitsEpochs, Enabled, FairCycle, Sending, Serving, Reading;
      var n := |events| - 1;
      var s, e := Run(events[..n]), events[n];
      FairPrefix(events);
      es := RunEpochs(events[..n]);
      if Enabled(s, e) && e.Serve? {
        es := FairEpoch(s, e.n, e.w, es);
      } else {
        OthersEmitNothing(s, e, es);
      }
    }
  }

  lemma FairPrefix(events: seq<Event>)
    requires |events| > 0 && AllFair(events)
    ensures AllFair(events[..|events| - 1])
  {
    hide Run, Enabled, FairCycle;
    var n := |events| - 1;
    assert forall k :: 0 <= k <= n ==> events[..n][..k] == events[..k];
  }

  lemma OthersEmitNothing(s: System, e: Event, es: seq<EpochOf>)
    requires Consistent(s) && EmitsEpochs(s, es) && !(Enabled(s, e) && e.Serve?)
    ensures EmitsEpochs(Next(s, e), es)
  {
    hide Consistent, Stream, Consecutive, Enabled, Link.Feed, Stamp, Checked;
  }

  /**
   * Snapshot consistency.  In every run whose cycles are fair, whenever the packet the client has read
   * last ends an epoch, the mirrored status packets and the end of epoch carry the sequence number of
   * one cycle, whichever calls of the client did the reading and whatever the mirrors held at first.
   */
  lemma SnapshotConsistency(initial: Mirrors, events: seq<Event>) returns (es: seq<EpochOf>, k: nat)
    requires AllFair(events) && LastIsEnd(Run(events).read)
    ensures EmitsEpochs(Run(events), es)
    ensures k < |es| && Snapshot(Reflect(initial, Run(events).read), es[k].seqNo)
  {
    var s := Run(events);
    es := RunEpochs(events);
    RunInvariant(events);
    hide Run, Reflect, Snapshot, AllFair, Honest;
    assert s.read <= Stream(es);
    assert s.read == Stream(es)[..|s.read|];
    k := EndOfEpochIsSnapshot(initial, es, |s.read|);
  }
}
