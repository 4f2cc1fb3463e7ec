/**
 * The receive registers of a packet handler as values, with the framing invariant that ties the
 * running checksum, the byte counter and the buffer pointers to the packet received so far.
 */
module RxRegisters {
  import opened Bytes
  import opened Framing

  /** The six state functions rxFn can point to. */
  datatype RxFn = FnAA | Fn55 | FnType | FnSize | FnPayload | FnChecksum

  /** Pointers are indices into the byte memory; `op` is the type whose operations are current. */
  datatype Registers = Registers(
    fn: RxFn, op: nat, packet: nat, checksum: byte, buffer: nat, bufferEnd: nat, bytesToRead: nat)
  {
    predicate Filling() {
      fn.FnPayload? || fn.FnChecksum?
    }
  }

  predicate InBounds(operations: Sizes, memory: seq<byte>, r: Registers) {
    && r.op in operations
    && r.buffer == r.packet
    && r.packet + 2 <= r.bufferEnd <= r.packet + operations[r.op] <= |memory|
  }

  /** The two memories agree outside `n` bytes from `at`. */
  predicate SameOutside(memory: seq<byte>, memory': seq<byte>, at: nat, n: nat) {
    |memory| == |memory'|
    && forall i :: 0 <= i < |memory| && !(at <= i < at + n) ==> memory[i] == memory'[i]
  }

  /** The bytes of the packet under construction. */
  function Partial(operations: Sizes, memory: seq<byte>, r: Registers): seq<byte>
    requires InBounds(operations, memory, r)
  {
    memory[r.packet..r.bufferEnd]
  }

  /** Bytes written + bytes to read = declared size, and the checksum covers what was written. */
  predicate Framed(operations: Sizes, memory: seq<byte>, r: Registers) {
    && ValidSizes(operations)
    && match r.fn
       case FnType => r.checksum == 0
       case FnSize => r.op in operations && r.checksum == r.op
       case FnPayload => FramedPacket(operations, memory, r) && r.bytesToRead > 0
       case FnChecksum => FramedPacket(operations, memory, r) && r.bytesToRead == 0
       case _ => true
  }

  predicate FramedPacket(operations: Sizes, memory: seq<byte>, r: Registers) {
    && InBounds(operations, memory, r)
    && r.bufferEnd - r.packet + r.bytesToRead == operations[r.op]
    && memory[r.packet] == r.op
    && memory[r.packet + 1] == operations[r.op]
    && r.checksum == Xor(Partial(operations, memory, r))
  }

  /** The receiver seen from outside. */
  function Receiver(operations: Sizes, memory: seq<byte>, r: Registers): (rx: Rx)
    requires Framed(operations, memory, r)
    ensures WellFormed(operations, rx)
  {
    match r.fn
    case FnAA => WaitAA
    case Fn55 => Wait55
    case FnType => WaitType
    case FnSize => WaitSize(r.op)
    case FnPayload => WaitPayload(Partial(operations, memory, r))
    case FnChecksum => WaitChecksum(Partial(operations, memory, r))
  }

  /** Writing a size byte and pointing the registers at a fresh buffer starts a framed packet. */
  lemma SizeStep(operations: Sizes, memory: seq<byte>, r: Registers, c: byte, slot: nat)
    requires Framed(operations, memory, r) && r.fn.FnSize?
    requires operations[r.op] == c && slot + operations[r.op] <= |memory|
    ensures var m := memory[slot := r.op][slot + 1 := c];
            var r' := Registers(FnPayload, r.op, slot, Xor8(r.checksum, c), slot, slot + 2, (c - 4 + 2) % 256);
            && Framed(operations, m, r')
            && (Receiver(operations, m, r'), SyncSize) == Step(operations, Receiver(operations, memory, r), c, true)
  {
    var m := memory[slot := r.op][slot + 1 := c];
    var r' := Registers(FnPayload, r.op, slot, Xor8(r.checksum, c), slot, slot + 2, (c - 4 + 2) % 256);
    assert m[slot] == r.op && m[slot + 1] == c && r'.bytesToRead == operations[r.op] - 2;
    assert Partial(operations, m, r') == [r.op] + [c] == [r.op, c];
    XorOne(r.op);
    XorAppend([r.op], c);
  }

  /** The registers after a payload byte `c` has been stored. */
  function Stored(r: Registers, c: byte): Registers
    requires r.bytesToRead > 0
  {
    // the counter is a uint8_t
    var left := (r.bytesToRead - 1) % 256;
    r.(fn := if left == 0 then FnChecksum else FnPayload, checksum := Xor8(r.checksum, c),
       bufferEnd := r.bufferEnd + 1, bytesToRead := left)
  }

  lemma StoredPacket(operations: Sizes, memory: seq<byte>, r: Registers, c: byte)
    requires Framed(operations, memory, r) && r.fn.FnPayload?
    ensures var m, r' := memory[r.bufferEnd := c], Stored(r, c);
            && r'.bytesToRead == r.bytesToRead - 1
            && FramedPacket(operations, m, r')
            && Partial(operations, m, r') == Partial(operations, memory, r) + [c]
  {
    var m, r' := memory[r.bufferEnd := c], Stored(r, c);
    var p := Partial(operations, memory, r);
    assert Partial(operations, m, r') == p + [c];
    XorAppend(p, c);
  }

  /** Storing a payload byte stays inside the packet's buffer, keeps it framed, and is one step of the receiver. */
  lemma PayloadStep(operations: Sizes, memory: seq<byte>, r: Registers, c: byte)
    requires Framed(operations, memory, r) && r.fn.FnPayload?
    ensures InBounds(operations, memory, r) && r.bufferEnd < r.packet + operations[r.op] && r.bytesToRead > 0
    ensures var m, r' := memory[r.bufferEnd := c], Stored(r, c);
            && Framed(operations, m, r')
            && (Receiver(operations, m, r'), if r'.bytesToRead == 0 then SyncPayloadComplete else SyncPayload)
               == Step(operations, Receiver(operations, memory, r), c, false)
  {
    StoredPacket(operations, memory, r, c);
    var p := Partial(operations, memory, r);
    assert |p| == operations[r.op] - r.bytesToRead && p[1] == operations[r.op];
  }

  /** A packet complete in the buffer is the one the receiver reports. */
  lemma CompletePacket(operations: Sizes, memory: seq<byte>, r: Registers)
    requires Framed(operations, memory, r) && Receiver(operations, memory, r).WaitChecksum?
    ensures r.packet + 1 < |memory| && r.packet + memory[r.packet + 1] <= |memory|
    ensures var p := memory[r.packet..r.packet + memory[r.packet + 1]];
            Receiver(operations, memory, r) == WaitChecksum(p) && Registered(operations, p) && |p| > 0
  {
  }

  lemma NotFilling(operations: Sizes, memory: seq<byte>, r: Registers)
    requires Framed(operations, memory, r) && Receiver(operations, memory, r).WaitAA?
    ensures !r.Filling()
  {
  }
}
