/** From the server's transmit ring through the UART: what a cycle sends and what the transmit interrupt takes. */
module Transmission {
  import opened Bytes
  import opened Epoch
  import opened Framing
  import opened Rings
  import opened Uart

  /** The bytes the main loop puts into the ring. */
  function Entered(ops: seq<Op>): seq<byte> {
    if |ops| == 0 then []
    else Entered(ops[..|ops| - 1]) + match ops[|ops| - 1] case Enter(c) => [c] case Leave => []
  }

  /** Nothing appears and nothing disappears. */
  lemma {:induction false} IdealConserves(start: seq<byte>, ops: seq<Op>)
    ensures var (queue, taken) := RunIdeal(start, ops); taken + queue == start + Entered(ops)
  {
    if |ops| == 0 {
      assert [] + start == start + [];
    } else {
      var n := |ops| - 1;
      IdealConserves(start, ops[..n]);
      var (queue, taken) := RunIdeal(start, ops[..n]);
      match ops[n] {
        case Enter(c) =>
          Associate(taken, queue, [c]);
          Associate(start, Entered(ops[..n]), [c]);
        case Leave =>
          assert Entered(ops) == Entered(ops[..n]);
          if |queue| > 0 {
            assert queue == [queue[0]] + queue[1..];
            Associate(taken, [queue[0]], queue[1..]);
          }
      }
    }
  }

  lemma {:induction false} EnteredPrefix(ops: seq<Op>, k: nat)
    requires k <= |ops|
    ensures |Entered(ops[..k])| <= |Entered(ops)|
  {
    if k < |ops| {
      assert ops[..|ops| - 1][..k] == ops[..k];
      EnteredPrefix(ops[..|ops| - 1], k);
    } else {
      assert ops[..k] == ops;
    }
  }

  /** With at most 255 bytes waiting or to come, no interleaving with the interrupt loses one. */
  lemma FewBytesLossless(start: Fifo, ops: seq<Op>)
    requires start.Valid() && |start.Queue()| + |Entered(ops)| <= 255
    ensures Bounded(start.Queue(), ops) && Lossless(start, ops)
  {
    forall k | 0 <= k <= |ops|
      ensures |RunIdeal(start.Queue(), ops[..k]).0| <= 255
    {
      EnteredPrefix(ops, k);
      IdealConserves(start.Queue(), ops[..k]);
    }
    BoundedIsLossless(start, ops);
  }

  /** The whole output before the interrupt takes a byte. */
  function EnterAll(output: seq<byte>): seq<Op> {
    if |output| == 0 then [] else EnterAll(output[..|output| - 1]) + [Enter(output[|output| - 1])]
  }

  lemma {:induction false} AllEntered(start: seq<byte>, output: seq<byte>)
    ensures Entered(EnterAll(output)) == output && RunIdeal(start, EnterAll(output)) == (start + output, [])
  {
    if |output| == 0 {
      assert start + [] == start;
    } else {
      var n := |output| - 1;
      var ops := EnterAll(output[..n]);
      AllEntered(start, output[..n]);
      assert EnterAll(output)[..|ops|] == ops && output[..n] + [output[n]] == output;
      Associate(start, output[..n], [output[n]]);
    }
  }

  /** The uint8_t size after that. */
  lemma {:induction false} AllStored(start: Fifo, output: seq<byte>)
    requires start.Valid()
    ensures RunRing(start, EnterAll(output)).f.r.size == (start.r.size + |output|) % 256
  {
    if |output| > 0 {
      hide Fifo.Store;
      var n := |output| - 1;
      var ops := EnterAll(output[..n]);
      AllStored(start, output[..n]);
      assert EnterAll(output)[..|ops|] == ops;
      StoreSize(RunRing(start, ops).f, output[n], start.r.size + n);
    }
  }

  lemma StoreSize(f: Fifo, c: byte, n: nat)
    requires f.Valid() && f.r.size == n % 256
    ensures f.Store(c).r.size == (n + 1) % 256
  {
  }

  /**
   * An output handed to an empty UART ring survives every interleaving with the transmit interrupt exactly if
   * it is shorter than the ring; an output of 256 bytes handed over before the interrupt comes is lost whole.
   */
  lemma SurvivesIffShort(start: Fifo, output: seq<byte>)
    requires start.Valid() && start.Queue() == [] && |output| <= UART_BUFFER_SIZE
    ensures (forall ops :: Entered(ops) <= output ==> Lossless(start, ops)) <==> |output| < UART_BUFFER_SIZE
    ensures |output| == UART_BUFFER_SIZE ==> RunRing(start, EnterAll(output)).f.Queue() == []
  {
    hide RunRing, RunIdeal, Entered, EnterAll, Contents;
    if |output| < UART_BUFFER_SIZE {
      forall ops | Entered(ops) <= output
        ensures Lossless(start, ops)
      {
        FewBytesLossless(start, ops);
      }
    } else {
      AllEntered(start.Queue(), output);
      AllStored(start, output);
      assert Entered(EnterAll(output)) <= output && !Lossless(start, EnterAll(output));
    }
  }

  /**
   * From an empty UART ring a cycle with at most one parameter packet reaches the wire, whatever the
   * interrupt does: what has left the ring and what waits in it are the frames handed over so far.
   */
  lemma CycleReachesWire(w: World, seqNo: nat, ps: seq<Packet>, start: Fifo, ops: seq<Op>)
    requires ValidWorld(w) && ValidCalls(ps) && seqNo < 0x1_0000
    requires ParamCount(ps) <= 1 && CountType(ps, JOINT_CONTROL) <= 2 && CountType(ps, DRIVE_CONTROL) <= 2
    requires start.Valid() && start.Queue() == [] && Entered(ops) <= Frames(Cycle(w, seqNo, ps).1)
    ensures SendAll([], Cycle(w, seqNo, ps).1).0 == Frames(Cycle(w, seqNo, ps).1)
    ensures Bounded(start.Queue(), ops) && Lossless(start, ops)
    ensures RunRing(start, ops).taken + RunRing(start, ops).f.Queue() == Entered(ops)
  {
    hide Cycle, ValidWorld, ValidCalls, SendAll, Frames, ParamCount, CountType;
    var out := Cycle(w, seqNo, ps).1;
    OneParamFits(w, seqNo, ps);
    SendAllFits([], out);
    FewBytesLossless(start, ops);
    IdealConserves(start.Queue(), ops);
    assert start.Queue() + Entered(ops) == Entered(ops);
  }

  /**
   * Five packets that make a cycle of exactly 256 bytes: the transmit ring takes them all, and the UART ring
   * can lose them all.
   */
  lemma FullCycleCanBeLost(w: World, seqNo: nat, ps: seq<Packet>, start: Fifo)
    requires ValidWorld(w) && ValidCalls(ps) && seqNo < 0x1_0000 && |ps| == 5
    requires ps[0][0] == DRIVE_PARAM && ps[1][0] == DRIVE_PARAM && ps[2][0] == PARAM_CONTROL && ps[2][5] == 2
    requires ps[3][0] == SYSTEM_PARAM && ps[4][0] == JOINT_CONTROL
    requires Mask(ActAll(w, seqNo, ps).0) % 8 == 4
    requires start.Valid() && start.Queue() == []
    ensures var output := SendAll([], Cycle(w, seqNo, ps).1).0;
            && output == Frames(Cycle(w, seqNo, ps).1) && |output| == 256
            && RunRing(start, EnterAll(output)).f.Queue() == []
  {
    BatchOfFive(ps);
    var mask := Mask(ActAll(w, seqNo, ps).0);
    HighBits(mask / 8, mask % 8);
    assert mask == 8 * (mask / 8) + mask % 8 && MaskCost(mask) == 50;
    hide Cycle, ActAll, Mask, MaskCost, ValidWorld, ValidCalls, SendAll, Frames, BatchCost, RunRing, EnterAll;
    CycleFits(w, seqNo, ps);
    SendAllFits([], Cycle(w, seqNo, ps).1);
    SurvivesIffShort(start, SendAll([], Cycle(w, seqNo, ps).1).0);
  }

  lemma BatchOfFive(ps: seq<Packet>)
    requires ValidCalls(ps) && |ps| == 5
    requires ps[0][0] == DRIVE_PARAM && ps[1][0] == DRIVE_PARAM && ps[2][0] == PARAM_CONTROL && ps[2][5] == 2
    requires ps[3][0] == SYSTEM_PARAM && ps[4][0] == JOINT_CONTROL
    ensures BatchCost(ps) == 206
  {
    hide BatchCost;
    BatchStep(ps, 4);
    BatchStep(ps, 3);
    BatchStep(ps, 2);
    BatchStep(ps, 1);
    BatchStep(ps, 0);
    assert ps[..5] == ps;
  }
}
