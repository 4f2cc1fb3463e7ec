/**
 * src/arch/atmega2560/uart.c: the two 256-byte rings between the main loop and the interrupts, with
 * indices and sizes of type uint8_t.
 */
module Uart {
  import opened Bytes
  import opened Rings

  const UART_BUFFER_SIZE: nat := 256

  /** BUFFER_PUT on uint8_t fields: the increments wrap, so the comparison with 256 never holds. */
  function PutIndices(r: Ring): Ring {
    Ring(r.start, (r.end + 1) % 256, (r.size + 1) % 256)
  }

  /** BUFFER_GET on uint8_t fields. */
  function GetIndices(r: Ring): Ring {
    Ring((r.start + 1) % 256, r.end, (r.size - 1) % 256)
  }

  predicate ValidIndices(r: Ring) {
    Rings.Valid(r, UART_BUFFER_SIZE) && r.size < 256
  }

  /** As long as fewer than 255 bytes wait, the uint8_t ring is the ring of capacity 256. */
  lemma IndicesArePut(r: Ring)
    requires ValidIndices(r)
    ensures ValidIndices(PutIndices(r))
    ensures PutIndices(r) == Put(r, UART_BUFFER_SIZE) <==> r.size < 255
    ensures r.size == 255 ==> PutIndices(r).size == 0
  {
  }

  lemma IndicesAreGet(r: Ring)
    requires ValidIndices(r) && r.size > 0
    ensures ValidIndices(GetIndices(r)) && GetIndices(r) == Get(r, UART_BUFFER_SIZE)
  {
  }

  /** The wrap tests of BUFFER_PUT and BUFFER_GET are dead on uint8_t indices and are not repeated below. */
  class UART {
    const txBuffer: array<byte>
    var txStart: nat
    var txEnd: nat
    var txSize: nat
    const rxBuffer: array<byte>
    var rxStart: nat
    var rxEnd: nat
    var rxSize: nat
    /** UCSR0B.UDRIE0: the transmit interrupt is enabled. */
    var txInterrupt: bool

    ghost predicate Valid()
      reads this
    {
      && txBuffer.Length == UART_BUFFER_SIZE && rxBuffer.Length == UART_BUFFER_SIZE && txBuffer != rxBuffer
      && ValidIndices(Ring(txStart, txEnd, txSize)) && ValidIndices(Ring(rxStart, rxEnd, rxSize))
    }

    ghost function Tx(): Fifo
      requires Valid()
      reads this, txBuffer
    {
      Fifo(txBuffer[..], Ring(txStart, txEnd, txSize))
    }

    ghost function Rx(): Fifo
      requires Valid()
      reads this, rxBuffer
    {
      Fifo(rxBuffer[..], Ring(rxStart, rxEnd, rxSize))
    }

    constructor ()
      ensures Valid() && Tx().Queue() == [] && Rx().Queue() == [] && !txInterrupt
    {
      txBuffer := new byte[UART_BUFFER_SIZE];
      rxBuffer := new byte[UART_BUFFER_SIZE];
      txStart, txEnd, txSize, rxStart, rxEnd, rxSize := 0, 0, 0, 0, 0, 0;
      txInterrupt := false;
    }

    /** UART_putChar: the wait for space never waits, the store and the put are one critical section. */
    method PutChar(c: byte)
      requires Valid()
      modifies txBuffer, this`txEnd, this`txSize, this`txInterrupt
      ensures Valid() && Tx() == old(Tx()).Store(c) && Rx() == old(Rx()) && txInterrupt
    {
      assert !(txSize >= UART_BUFFER_SIZE);
      ghost var stored := txBuffer[..][txEnd := c];
      IndicesArePut(Ring(txStart, txEnd, txSize));
      txBuffer[txEnd] := c;
      assert txBuffer[..] == stored;
      txEnd := (txEnd + 1) % 256;
      txSize := (txSize + 1) % 256;
      txInterrupt := true;
    }

    /** UART_getChar once a byte is there. */
    method GetChar() returns (c: byte)
      requires Valid() && rxSize != 0
      modifies this`rxStart, this`rxSize
      ensures Valid() && Rx() == old(Rx()).Take() && [c] + Rx().Queue() == old(Rx()).Queue() && Tx() == old(Tx())
    {
      GetContents(rxBuffer[..], Ring(rxStart, rxEnd, rxSize), UART_BUFFER_SIZE);
      IndicesAreGet(Ring(rxStart, rxEnd, rxSize));
      c := rxBuffer[rxStart];
      rxStart := (rxStart + 1) % 256;
      rxSize := (rxSize - 1) % 256;
    }

    /** ISR(USART0_RX_vect). */
    method RxInterrupt(c: byte)
      requires Valid()
      modifies rxBuffer, this`rxEnd, this`rxSize
      ensures Valid() && Rx() == old(Rx()).Store(c) && Tx() == old(Tx())
    {
      IndicesArePut(Ring(rxStart, rxEnd, rxSize));
      if rxSize < UART_BUFFER_SIZE {
        ghost var stored := rxBuffer[..][rxEnd := c];
        rxBuffer[rxEnd] := c;
        assert rxBuffer[..] == stored;
        rxEnd := (rxEnd + 1) % 256;
        rxSize := (rxSize + 1) % 256;
      }
    }

    /** ISR(USART0_UDRE_vect): `sent` is the byte written to the data register, if any. */
    method TxInterrupt() returns (sent: seq<byte>)
      requires Valid()
      modifies this`txStart, this`txSize, this`txInterrupt
      ensures Valid() && Rx() == old(Rx())
      ensures sent + Tx().Queue() == old(Tx()).Queue() && (sent == [] <==> old(Tx()).Queue() == [])
      ensures Tx() == if old(txSize) == 0 then old(Tx()) else old(Tx()).Take()
      ensures txInterrupt == (old(txInterrupt) && old(txSize) != 0)
    {
      if txSize == 0 {
        txInterrupt := false;
        return [];
      }
      GetContents(txBuffer[..], Ring(txStart, txEnd, txSize), UART_BUFFER_SIZE);
      IndicesAreGet(Ring(txStart, txEnd, txSize));
      sent := [txBuffer[txStart]];
      txStart := (txStart + 1) % 256;
      txSize := (txSize - 1) % 256;
    }
  }

  /** One of the two rings as a value. */
  datatype Fifo = Fifo(buffer: seq<byte>, r: Ring) {
    predicate Valid() {
      |buffer| == UART_BUFFER_SIZE && ValidIndices(r)
    }

    /** The bytes waiting, oldest first, as the size field tells. */
    function Queue(): (q: seq<byte>)
      requires Valid()
      ensures |q| == r.size
    {
      Contents(buffer, r, UART_BUFFER_SIZE)
    }

    /** The effect of putChar on the transmit ring and of the receive interrupt on the receive ring. */
    function Store(c: byte): (f: Fifo)
      requires Valid()
      ensures f.Valid()
    {
      IndicesArePut(r);
      Fifo(buffer[r.end := c], PutIndices(r))
    }

    function Take(): (f: Fifo)
      requires Valid() && r.size > 0
      ensures f.Valid()
    {
      IndicesAreGet(r);
      Fifo(buffer, GetIndices(r))
    }
  }

  /** A byte stored behind at most 254 others queues up; behind 255 it makes the ring look empty. */
  lemma StoreQueues(f: Fifo, c: byte)
    requires f.Valid()
    ensures f.Store(c).Queue() == if f.r.size < 255 then f.Queue() + [c] else []
  {
    IndicesArePut(f.r);
    if f.r.size < 255 {
      PutContents(f.buffer, f.r, UART_BUFFER_SIZE, c);
    }
  }

  /** What main loop and interrupts do to one ring, in the order in which it happens. */
  datatype Op = Enter(c: byte) | Leave

  /** A ring and the bytes taken from it so far. */
  datatype Line = Line(f: Fifo, taken: seq<byte>)

  function RunRing(start: Fifo, ops: seq<Op>): (l: Line)
    requires start.Valid()
    ensures l.f.Valid()
  {
    if |ops| == 0 then Line(start, [])
    else
      var l := RunRing(start, ops[..|ops| - 1]);
      match ops[|ops| - 1]
      case Enter(c) => Line(l.f.Store(c), l.taken)
      case Leave => if l.f.r.size == 0 then l else Line(l.f.Take(), l.taken + [l.f.buffer[l.f.r.start]])
  }

  /** An unbounded queue under the same operations. */
  function RunIdeal(start: seq<byte>, ops: seq<Op>): (seq<byte>, seq<byte>) {
    if |ops| == 0 then (start, [])
    else
      var (queue, taken) := RunIdeal(start, ops[..|ops| - 1]);
      match ops[|ops| - 1]
      case Enter(c) => (queue + [c], taken)
      case Leave => if |queue| == 0 then (queue, taken) else (queue[1..], taken + [queue[0]])
  }

  /** The occupancy never exceeds 255. */
  predicate Bounded(start: seq<byte>, ops: seq<Op>) {
    forall k :: 0 <= k <= |ops| ==> |RunIdeal(start, ops[..k]).0| <= 255
  }

  /** After `ops` the ring holds what an unbounded queue would hold and has given what it would have given. */
  predicate Lossless(start: Fifo, ops: seq<Op>)
    requires start.Valid()
  {
    RunIdeal(start.Queue(), ops) == (RunRing(start, ops).f.Queue(), RunRing(start, ops).taken)
  }

  lemma {:induction false} BoundedIsLossless(start: Fifo, ops: seq<Op>)
    requires start.Valid() && Bounded(start.Queue(), ops)
    ensures Lossless(start, ops)
  {
    if |ops| > 0 {
      var n := |ops| - 1;
      assert forall k :: 0 <= k <= n ==> ops[..n][..k] == ops[..k];
      BoundedIsLossless(start, ops[..n]);
      var f := RunRing(start, ops[..n]).f;
      assert ops[..n + 1] == ops && |RunIdeal(start.Queue(), ops[..n + 1]).0| <= 255;
      match ops[n] {
        case Enter(c) => StoreQueues(f, c);
        case Leave =>
          if f.r.size > 0 {
            GetContents(f.buffer, f.r, UART_BUFFER_SIZE);
            IndicesAreGet(f.r);
            assert f.Queue()[1..] == f.Take().Queue();
          }
      }
    }
  }

  /**
   * For every interleaving the bytes leave the ring in order, none lost or duplicated, throughout the
   * run exactly if no more than 255 bytes ever wait in it.
   */
  lemma LosslessIffBounded(start: Fifo, ops: seq<Op>)
    requires start.Valid()
    ensures (forall k :: 0 <= k <= |ops| ==> Lossless(start, ops[..k])) <==> Bounded(start.Queue(), ops)
  {
    if Bounded(start.Queue(), ops) {
      forall k | 0 <= k <= |ops|
        ensures Lossless(start, ops[..k])
      {
        assert forall j :: 0 <= j <= k ==> ops[..k][..j] == ops[..j];
        BoundedIsLossless(start, ops[..k]);
      }
    }
    if forall k :: 0 <= k <= |ops| ==> Lossless(start, ops[..k]) {
      forall k | 0 <= k <= |ops|
        ensures |RunIdeal(start.Queue(), ops[..k]).0| <= 255
      {
        assert Lossless(start, ops[..k]);
      }
    }
  }
}
