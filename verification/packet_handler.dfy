/**
 * src/common/packet_handler.c: the byte-level receiver with its running checksum, byte counter
 * and buffer pointers, and the transmit ring.  Pointers are indices into one flat byte memory.
 */
module PacketHandlers {
  import opened Bytes
  import opened Framing
  import opened Rings
  import opened RxRegisters
  import opened Wrappers


  class PacketHandler {
    /** The registered operations: type to size, absent where the pointer is null. */
    var operations: Sizes
    const memory: array<byte>

    var rxCurrentOp: nat
    var rxCurrentPacket: nat
    var rxChecksum: byte
    var rxBuffer: nat
    var rxBufferEnd: nat
    var rxBytesToRead: nat
    var rxFn: RxFn

    const txBuffer: array<byte>
    var txStart: nat
    var txEnd: nat
    var txSize: nat
    var txChecksum: byte

    ghost function Rx(): Registers
      reads this`rxFn, this`rxCurrentOp, this`rxCurrentPacket, this`rxChecksum, this`rxBuffer, this`rxBufferEnd,
            this`rxBytesToRead
    {
      Registers(rxFn, rxCurrentOp, rxCurrentPacket, rxChecksum, rxBuffer, rxBufferEnd, rxBytesToRead)
    }

    ghost predicate RxValid()
      reads this, memory
    {
      Framed(operations, memory[..], Rx())
    }

    /** The receiver seen from outside. */
    ghost function Receiver(): (rx: Framing.Rx)
      requires RxValid()
      reads this, memory
      ensures WellFormed(operations, rx)
    {
      RxRegisters.Receiver(operations, memory[..], Rx())
    }

    ghost predicate TxValid()
      reads this`txStart, this`txEnd, this`txSize
    {
      txBuffer.Length == BUFFER_SIZE_MAX && Rings.Valid(TxRing(), BUFFER_SIZE_MAX)
    }

    ghost function TxRing(): Ring
      reads this`txStart, this`txEnd, this`txSize
    {
      Ring(txStart, txEnd, txSize)
    }

    /** The bytes waiting in the transmit ring, oldest first. */
    ghost function TxQueue(): seq<byte>
      requires TxValid()
      reads this`txStart, this`txEnd, this`txSize, txBuffer
    {
      Contents(txBuffer[..], TxRing(), BUFFER_SIZE_MAX)
    }

    ghost predicate Valid()
      reads this, memory
    {
      RxValid() && TxValid() && memory != txBuffer
    }

    constructor (memory: array<byte>)
      ensures Valid() && this.memory == memory
      ensures fresh(txBuffer)
      ensures operations == map[] && Receiver() == WaitAA && TxQueue() == []
    {
      operations := map[];
      this.memory := memory;
      rxCurrentOp, rxCurrentPacket, rxChecksum := 0, 0, 0;
      rxBuffer, rxBufferEnd, rxBytesToRead := 0, 0, 0;
      rxFn := FnAA;
      txBuffer := new byte[BUFFER_SIZE_MAX];
      txSize, txStart, txEnd, txChecksum := 0, 0, 0, 0;
    }

    method InstallPacket(t: nat, size: nat) returns (status: PacketStatus)
      requires RxValid() && !Rx().Filling() && 3 <= size <= 254
      modifies this`operations
      ensures RxValid() && Receiver() == old(Receiver())
      ensures status == if t >= PACKET_TYPE_MAX then PacketTypeOutOfBounds
                        else if t in old(operations) then PacketInstallError else Success
      ensures operations == if status == Success then old(operations)[t := size] else old(operations)
    {
      if t >= PACKET_TYPE_MAX {
        return PacketTypeOutOfBounds;
      }
      if t in operations {
        return PacketInstallError;
      }
      operations := operations[t := size];
      return Success;
    }

    /**
     * PacketHandler_rxByte.  `slot` is what initialize_buffer_fn of the current operations answers,
     * used only when the size byte arrives; `received` is the packet on_receive_fn is called with.
     */
    method RxByte(c: byte, slot: Option<nat>) returns (status: PacketStatus, received: Option<nat>)
      requires RxValid()
      requires rxFn.FnSize? && slot.Some? ==> slot.value + operations[rxCurrentOp] <= memory.Length
      modifies this`rxCurrentOp, this`rxCurrentPacket, this`rxChecksum, this`rxBuffer, this`rxBufferEnd,
               this`rxBytesToRead, this`rxFn, memory
      ensures RxValid()
      ensures (Receiver(), status) == Step(operations, old(Receiver()), c, slot.Some?)
      ensures received == if status == SyncChecksum then Some(old(rxCurrentPacket)) else None
      ensures Rx().Filling() && old(rxFn.FnSize?) ==> slot == Some(rxCurrentPacket) && rxCurrentOp == old(rxCurrentOp)
      ensures Rx().Filling() ==> old(rxFn.FnSize? || rxFn.FnPayload?)
      ensures old(Rx().Filling()) ==> rxCurrentPacket == old(rxCurrentPacket) && rxCurrentOp == old(rxCurrentOp)
      ensures !Rx().Filling() ==> memory[..] == old(memory[..])
      ensures Rx().Filling() ==> SameOutside(old(memory[..]), memory[..], rxCurrentPacket, operations[rxCurrentOp])
    {
      received := None;
      match rxFn {
        case FnAA => status := RxAA(c);
        case Fn55 => status := Rx55(c);
        case FnType => status := RxType(c);
        case FnSize => status := RxSize(c, slot);
        case FnPayload => status := RxPayload(c);
        case FnChecksum => status, received := RxChecksum(c);
      }
    }

    method RxAA(c: byte) returns (status: PacketStatus)
      requires RxValid() && rxFn.FnAA?
      modifies this`rxChecksum, this`rxFn
      ensures RxValid() && (rxFn.FnAA? || rxFn.Fn55?)
      ensures (Receiver(), status) == Step(operations, WaitAA, c, false)
    {
      rxChecksum := 0;
      if c == SYNC_AA {
        rxFn := Fn55;
        return SyncAA;
      }
      return Unsync;
    }

    method Rx55(c: byte) returns (status: PacketStatus)
      requires RxValid() && rxFn.Fn55?
      modifies this`rxChecksum, this`rxFn
      ensures RxValid() && !Rx().Filling()
      ensures (Receiver(), status) == Step(operations, Wait55, c, false)
    {
      if c == SYNC_55 {
        rxFn := FnType;
        rxChecksum := 0;
        return Sync55;
      }
      rxFn := FnAA;
      return Unsync;
    }

    method RxType(c: byte) returns (status: PacketStatus)
      requires RxValid() && rxFn.FnType?
      modifies this`rxChecksum, this`rxFn, this`rxCurrentOp
      ensures RxValid() && !Rx().Filling()
      ensures (Receiver(), status) == Step(operations, WaitType, c, false)
    {
      rxChecksum := Xor8(rxChecksum, c);
      if c >= PACKET_TYPE_MAX {
        rxFn := FnAA;
        return Unsync;
      }
      Xor8Laws(0, c, 0);
      Xor8Laws(c, 0, 0);
      rxCurrentOp := c;
      if rxCurrentOp !in operations {
        rxFn := FnAA;
        return UnknownType;
      }
      rxFn := FnSize;
      return SyncType;
    }

    method RxSize(c: byte, slot: Option<nat>) returns (status: PacketStatus)
      requires RxValid() && rxFn.FnSize?
      requires slot.Some? ==> slot.value + operations[rxCurrentOp] <= memory.Length
      modifies this`rxCurrentPacket, this`rxChecksum, this`rxBuffer, this`rxBufferEnd, this`rxBytesToRead,
               this`rxFn, memory
      ensures RxValid() && (rxFn.FnAA? || rxFn.FnPayload?)
      ensures (Receiver(), status) == Step(operations, old(Receiver()), c, slot.Some?)
      ensures Rx().Filling() ==> slot == Some(rxCurrentPacket)
      ensures !Rx().Filling() ==> memory[..] == old(memory[..])
      ensures Rx().Filling() ==> SameOutside(old(memory[..]), memory[..], rxCurrentPacket, operations[rxCurrentOp])
    {
      var size := operations[rxCurrentOp];
      if size != c {
        rxFn := FnAA;
        return InvalidSize;
      }
      if slot == None {
        rxFn := FnAA;
        return RxBufferError;
      }
      hide FramedPacket, Step, RxRegisters.Receiver, Xor8;
      SizeStep(operations, memory[..], Rx(), c, slot.value);
      ghost var started := memory[..][slot.value := rxCurrentOp][slot.value + 1 := c];
      rxCurrentPacket := slot.value;
      rxChecksum := Xor8(rxChecksum, c);
      // c - sizeof(PacketHeader) + sizeof(PacketSeq), stored in a uint8_t
      rxBytesToRead := (c - 4 + 2) % 256;
      rxBuffer := rxCurrentPacket;
      memory[rxBuffer] := rxCurrentOp;
      memory[rxBuffer + 1] := size;
      rxBufferEnd := rxBuffer + 2;
      rxFn := FnPayload;
      assert memory[..] == started;
      return SyncSize;
    }

    method RxPayload(c: byte) returns (status: PacketStatus)
      requires RxValid() && rxFn.FnPayload?
      modifies this`rxChecksum, this`rxBufferEnd, this`rxBytesToRead, this`rxFn, memory
      ensures RxValid() && Rx().Filling()
      ensures (Receiver(), status) == Step(operations, old(Receiver()), c, false)
      ensures SameOutside(old(memory[..]), memory[..], rxCurrentPacket, operations[rxCurrentOp])
    {
      hide FramedPacket, Step, RxRegisters.Receiver, Xor8;
      ghost var before, bytes := Rx(), memory[..];
      PayloadStep(operations, bytes, before, c);
      rxChecksum := Xor8(rxChecksum, c);
      memory[rxBufferEnd] := c;
      assert memory[..] == bytes[before.bufferEnd := c];
      rxBufferEnd := rxBufferEnd + 1;
      rxBytesToRead := (rxBytesToRead - 1) % 256;
      status := SyncPayload;
      if rxBytesToRead == 0 {
        rxFn := FnChecksum;
        status := SyncPayloadComplete;
      }
      assert Rx() == Stored(before, c);
    }

    method RxChecksum(c: byte) returns (status: PacketStatus, received: Option<nat>)
      requires RxValid() && rxFn.FnChecksum?
      modifies this`rxBuffer, this`rxBufferEnd, this`rxFn
      ensures RxValid() && rxFn.FnAA?
      ensures (Receiver(), status) == Step(operations, old(Receiver()), c, false)
      ensures received == if status == SyncChecksum then Some(rxCurrentPacket) else None
    {
      rxFn := FnAA;
      rxBuffer := 0;
      rxBufferEnd := 0;
      if c == rxChecksum {
        return SyncChecksum, Some(rxCurrentPacket);
      }
      return ChecksumError, None;
    }

    method PutTxByte(c: byte)
      requires TxValid()
      modifies txBuffer, this`txEnd, this`txSize
      ensures TxValid()
      ensures TxQueue() == if |old(TxQueue())| == BUFFER_SIZE_MAX then old(TxQueue()) else old(TxQueue()) + [c]
    {
      if txSize == BUFFER_SIZE_MAX {
        return;
      }
      PutContents(txBuffer[..], TxRing(), BUFFER_SIZE_MAX, c);
      ghost var stored := txBuffer[..][txEnd := c];
      txBuffer[txEnd] := c;
      assert txBuffer[..] == stored;
      txEnd := txEnd + 1;
      if txEnd >= BUFFER_SIZE_MAX {
        txEnd := 0;
      }
      txSize := txSize + 1;
    }

    method TxByte() returns (c: byte)
      requires TxValid()
      modifies this`txStart, this`txSize
      ensures TxValid()
      ensures old(TxQueue()) == [] ==> c == 0 && TxQueue() == []
      ensures old(TxQueue()) != [] ==> [c] + TxQueue() == old(TxQueue())
    {
      if txSize == 0 {
        return 0;
      }
      GetContents(txBuffer[..], TxRing(), BUFFER_SIZE_MAX);
      c := txBuffer[txStart];
      txStart := txStart + 1;
      if txStart >= BUFFER_SIZE_MAX {
        txStart := 0;
      }
      txSize := txSize - 1;
    }

    /** PacketHandler_sendPacket; `packet` is the memory at `header`, of which header->size bytes are sent. */
    method SendPacket(packet: seq<byte>) returns (status: PacketStatus)
      requires TxValid() && |packet| >= 2 && |packet| >= packet[1]
      modifies txBuffer, this`txEnd, this`txSize, this`txChecksum
      ensures TxValid()
      ensures status == if |old(TxQueue())| + packet[1] + 3 > BUFFER_SIZE_MAX then TxBufferFull else Success
      ensures TxQueue() == old(TxQueue()) + if status == Success then Frame(packet[..packet[1]]) else []
      ensures status == TxBufferFull ==> TxRing() == old(TxRing()) && txBuffer[..] == old(txBuffer[..])
    {
      var txFree := BUFFER_SIZE_MAX - txSize;
      var size: int := packet[1];
      var realSize := size + 3;
      if txFree < realSize {
        return TxBufferFull;
      }
      ghost var before := TxQueue();
      PutTxByte(SYNC_AA);
      PutTxByte(SYNC_55);
      assert TxQueue() == before + [SYNC_AA, SYNC_55];
      txChecksum := 0;
      PutTxBytes(packet, size);
      FrameParts(before, packet[..size]);
      PutTxByte(txChecksum);
      return Success;
    }

    /** The loop of PacketHandler_sendPacket: queue `size` bytes and accumulate their checksum. */
    method PutTxBytes(packet: seq<byte>, size: nat)
      requires TxValid() && size <= |packet| && txChecksum == 0
      requires |TxQueue()| + size <= BUFFER_SIZE_MAX
      modifies txBuffer, this`txEnd, this`txSize, this`txChecksum
      ensures TxValid()
      ensures TxQueue() == old(TxQueue()) + packet[..size]
      ensures txChecksum == Xor(packet[..size])
    {
      ghost var start := TxQueue();
      var left, buf := size, 0;
      assert packet[..0] == [];
      while left > 0
        invariant buf + left == size
        invariant TxValid()
        invariant TxQueue() == start + packet[..buf]
        invariant txChecksum == Xor(packet[..buf])
      {
        XorPrefix(packet, buf);
        Associate(start, packet[..buf], [packet[buf]]);
        txChecksum := Xor8(txChecksum, packet[buf]);
        PutTxByte(packet[buf]);
        left := left - 1;
        buf := buf + 1;
      }
    }
  }
}
