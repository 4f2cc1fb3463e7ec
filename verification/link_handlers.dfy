/** One handler sending to another, as src/common/packet_handler.c does it: the run of module Link. */
module LinkHandlers {
  import opened Bytes
  import opened Framing
  import opened PacketHandlers
  import opened RxRegisters
  import opened Wrappers
  import Link
  import Rings

  /**
   * Send attempts and byte transfers in any order, the receiver offering the start of its memory as buffer.
   * Ring, receiver and the packets sent and delivered are those of Link.Run, about which Link.RoundTrip speaks.
   */
  method RunLink(sender: PacketHandler, receiver: PacketHandler, events: seq<Link.Event>)
    returns (sent: seq<Packet>, delivered: seq<Packet>)
    requires sender != receiver && sender.txBuffer != receiver.memory
    requires sender.TxValid() && sender.TxQueue() == []
    requires receiver.RxValid() && receiver.Receiver() == WaitAA && receiver.memory.Length >= 254
    requires forall k :: 0 <= k < |events| && events[k].Send? ==> IsPacket(events[k].p)
    modifies sender, sender.txBuffer, receiver, receiver.memory
    ensures sender.TxValid() && receiver.RxValid() && receiver.operations == old(receiver.operations)
    ensures ValidSizes(receiver.operations)
    ensures Link.State(sender.TxQueue(), receiver.Receiver(), sent, delivered) == Link.Run(receiver.operations, events)
  {
    hide Link.Feed, Rings.Contents, Rings.Valid, RxRegisters.Receiver, Link.Next, Frame;
    sent, delivered := [], [];
    ghost var sizes := receiver.operations;
    var k := 0;
    assert events[..0] == [];
    while k < |events|
      invariant k <= |events| && sender.TxValid() && receiver.RxValid() && receiver.operations == sizes
      invariant Link.State(sender.TxQueue(), receiver.Receiver(), sent, delivered) == Link.Run(sizes, events[..k])
    {
      assert events[..k + 1][..k] == events[..k];
      match events[k] {
        case Send(p) =>
          var status := TrySend(sender, receiver, p, sent, delivered);
          if status == Success {
            sent := sent + [p];
          }
        case Transfer =>
          var packet := TransferByte(sender, receiver, sent, delivered);
          if packet.Some? {
            delivered := delivered + [packet.value];
          }
      }
      k := k + 1;
    }
    assert events[..k] == events;
  }

  /** One send attempt. */
  method TrySend(sender: PacketHandler, receiver: PacketHandler, p: Packet,
                 ghost sent: seq<Packet>, ghost delivered: seq<Packet>)
    returns (status: PacketStatus)
    requires sender != receiver && sender.txBuffer != receiver.memory
    requires sender.TxValid() && receiver.RxValid() && IsPacket(p)
    modifies sender, sender.txBuffer
    ensures sender.TxValid() && receiver.RxValid() && receiver.Receiver() == old(receiver.Receiver())
    ensures var before := Link.State(old(sender.TxQueue()), receiver.Receiver(), sent, delivered);
            var sent' := if status == Success then sent + [p] else sent;
            var after := Link.State(sender.TxQueue(), receiver.Receiver(), sent', delivered);
            Link.Next(receiver.operations, before, Link.Send(p)) == after
  {
    hide Link.Feed, Rings.Contents, Rings.Valid, RxRegisters.Receiver, Frame;
    status := sender.SendPacket(p);
    assert p[..p[1]] == p;
  }

  /** One byte from ring to receiver, if there is one; `packet` is what it delivers. */
  method TransferByte(sender: PacketHandler, receiver: PacketHandler, ghost sent: seq<Packet>, ghost delivered: seq<Packet>)
    returns (packet: Option<Packet>)
    requires sender != receiver && sender.txBuffer != receiver.memory
    requires sender.TxValid() && receiver.RxValid() && receiver.memory.Length >= 254
    modifies sender, receiver, receiver.memory
    ensures sender.TxValid() && receiver.RxValid() && receiver.operations == old(receiver.operations)
    ensures var before := Link.State(old(sender.TxQueue()), old(receiver.Receiver()), sent, delivered);
            var delivered' := if packet.Some? then delivered + [packet.value] else delivered;
            var after := Link.State(sender.TxQueue(), receiver.Receiver(), sent, delivered');
            Link.Next(receiver.operations, before, Link.Transfer) == after
  {
    hide Link.Feed, Rings.Contents, RxRegisters.Receiver, Framed;
    packet := None;
    ghost var queue := sender.TxQueue();
    if sender.txSize > 0 {
      var c := sender.TxByte();
      assert queue == [c] + sender.TxQueue();
      packet := ReceiveByte(receiver, c);
      assert delivered + [] == delivered;
    }
  }

  /** One byte to a receiver whose buffer is the start of its memory. */
  method ReceiveByte(receiver: PacketHandler, c: byte) returns (packet: Option<Packet>)
    requires receiver.RxValid() && receiver.memory.Length >= 254
    modifies receiver, receiver.memory
    ensures receiver.RxValid() && receiver.operations == old(receiver.operations)
    ensures ValidSizes(receiver.operations)
    ensures var r := Link.Feed(receiver.operations, old(receiver.Receiver()), [c]);
            receiver.Receiver() == r.0 && r.1 == if packet.Some? then [packet.value] else []
  {
    hide Link.Feed, RxRegisters.Receiver, Step;
    ghost var rx, r, bytes := receiver.Receiver(), receiver.Rx(), receiver.memory[..];
    Link.FeedOne(receiver.operations, rx, c);
    var status, received := receiver.RxByte(c, Some(0));
    packet := None;
    if received.Some? {
      CompletePacket(receiver.operations, bytes, r);
      NotFilling(receiver.operations, receiver.memory[..], receiver.Rx());
      assert receiver.memory[..] == bytes;
      packet := Some(receiver.memory[received.value..received.value + receiver.memory[received.value + 1]]);
    }
  }
}
