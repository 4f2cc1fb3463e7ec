/**
 * The wire format and the receiving side seen from outside: a parser whose only memory is the
 * packet received so far.  src/common/packet_handler.c keeps a running checksum, a byte counter
 * and pointers instead; module PacketHandlers proves that it computes the same.
 */
module Framing {
  import opened Bytes

  const PACKET_TYPE_MAX: nat := 16
  const BUFFER_SIZE_MAX: nat := 256
  const SYNC_AA: byte := 0xAA
  const SYNC_55: byte := 0x55

  datatype PacketStatus =
    | UnknownType | RxBufferError | InvalidSize | ChecksumError | Unsync
    | PacketTypeOutOfBounds | PacketInstallError | TxBufferFull | Timeout | GenericError
    | Success | SyncAA | Sync55 | SyncType | SyncSize | SyncPayload | SyncPayloadComplete | SyncChecksum
  {
    predicate IsError() {
      UnknownType? || RxBufferError? || InvalidSize? || ChecksumError? || Unsync? || PacketTypeOutOfBounds?
      || PacketInstallError? || TxBufferFull? || Timeout? || GenericError?
    }
  }

  /** Byte 0 is the type, byte 1 the size of the whole packet, bytes 2 and 3 the sequence number. */
  type Packet = seq<byte>

  predicate IsPacket(p: Packet) {
    |p| >= 2 && |p| == p[1]
  }

  /** What PacketHandler_sendPacket puts on the wire for `p`. */
  function Frame(p: Packet): (f: seq<byte>)
    ensures |f| == |p| + 3
  {
    [SYNC_AA, SYNC_55] + p + [Xor(p)]
  }

  lemma FrameParts(queue: seq<byte>, p: Packet)
    ensures queue + [SYNC_AA, SYNC_55] + p + [Xor(p)] == queue + Frame(p)
  {
  }

  function Frames(ps: seq<Packet>): seq<byte> {
    if |ps| == 0 then [] else Frames(ps[..|ps| - 1]) + Frame(ps[|ps| - 1])
  }

  /** How many of the packets are of type `t`. */
  function CountType(ps: seq<Packet>, t: nat): nat {
    if |ps| == 0 then 0 else (if |ps[0]| > 0 && ps[0][0] == t then 1 else 0) + CountType(ps[1..], t)
  }

  /** The registered types with their fixed sizes. */
  type Sizes = map<nat, nat>

  predicate ValidSizes(sizes: Sizes) {
    forall t | t in sizes :: t < PACKET_TYPE_MAX && 3 <= sizes[t] <= 254
  }

  predicate Registered(sizes: Sizes, p: Packet) {
    IsPacket(p) && p[0] in sizes && sizes[p[0]] == |p|
  }

  datatype Rx =
    | WaitAA
    | Wait55
    | WaitType
    | WaitSize(t: byte)
    | WaitPayload(p: Packet)
    | WaitChecksum(p: Packet)

  predicate WellFormed(sizes: Sizes, rx: Rx) {
    match rx
    case WaitSize(t) => t in sizes
    case WaitPayload(p) => 2 <= |p| < p[1] && p[0] in sizes && sizes[p[0]] == p[1]
    case WaitChecksum(p) => Registered(sizes, p)
    case _ => true
  }

  /** One received byte; `room` says whether a buffer is offered when the size byte arrives. */
  function Step(sizes: Sizes, rx: Rx, c: byte, room: bool): (r: (Rx, PacketStatus))
    requires WellFormed(sizes, rx)
    ensures r.1 == SyncChecksum ==> rx.WaitChecksum? && r.0 == WaitAA
  {
    match rx
    case WaitAA => if c == SYNC_AA then (Wait55, SyncAA) else (WaitAA, Unsync)
    case Wait55 => if c == SYNC_55 then (WaitType, Sync55) else (WaitAA, Unsync)
    case WaitType =>
      if c >= PACKET_TYPE_MAX then (WaitAA, Unsync)
      else if c !in sizes then (WaitAA, UnknownType)
      else (WaitSize(c), SyncType)
    case WaitSize(t) =>
      if sizes[t] != c then (WaitAA, InvalidSize)
      else if !room then (WaitAA, RxBufferError)
      else (WaitPayload([t, c]), SyncSize)
    case WaitPayload(p) =>
      if |p| + 1 == p[1] then (WaitChecksum(p + [c]), SyncPayloadComplete)
      else (WaitPayload(p + [c]), SyncPayload)
    case WaitChecksum(p) => (WaitAA, if c == Xor(p) then SyncChecksum else ChecksumError)
  }

  /**
   * A byte is answered with an error exactly if it leaves the receiver hunting without a packet, and the error says why:
   * a type nobody registered, a size that is not the registered one, no buffer, a checksum that differs.
   */
  lemma ErrorsTellWhy(sizes: Sizes, rx: Rx, c: byte, room: bool)
    requires WellFormed(sizes, rx)
    ensures var (rx', status) := Step(sizes, rx, c, room);
            && (status.IsError() <==> rx' == WaitAA && status != SyncChecksum)
            && (status == UnknownType <==> rx.WaitType? && c < PACKET_TYPE_MAX && c !in sizes)
            && (status == InvalidSize <==> rx.WaitSize? && sizes[rx.t] != c)
            && (status == RxBufferError <==> rx.WaitSize? && sizes[rx.t] == c && !room)
            && (status == ChecksumError <==> rx.WaitChecksum? && c != Xor(rx.p))
            && (status == SyncChecksum <==> rx.WaitChecksum? && c == Xor(rx.p))
  {
  }

  lemma StepKeepsWellFormed(sizes: Sizes, rx: Rx, c: byte, room: bool)
    requires ValidSizes(sizes) && WellFormed(sizes, rx)
    ensures WellFormed(sizes, Step(sizes, rx, c, room).0)
  {
  }
}
