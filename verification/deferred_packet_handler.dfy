/**
 * src/common/deferred_packet_handler.c: per-type rings of buffers in the byte memory and a global
 * queue of pointers into them.
 */
module DeferredPacketHandlers {
  import opened Bytes
  import opened Deferred
  import opened DeferredMachine
  import opened Framing
  import opened PacketHandlers
  import opened PacketRings
  import opened Rings
  import opened RxRegisters
  import opened Wrappers
  import Delivery

  const PACKETS_PER_TYPE_MAX: nat := 2

  class DeferredPacketHandler {
    const base: PacketHandler
    var infos: Infos
    const pendingPackets: array<nat>
    var pendingPacketsSize: nat

    ghost predicate Shape()
      reads this, base
    {
      && base.TxValid()
      && base.memory != base.txBuffer
      && pendingPackets.Length == PENDING_PACKETS_MAX
      && pendingPackets as object != base.memory && pendingPackets as object != base.txBuffer
      && pendingPacketsSize <= PENDING_PACKETS_MAX
    }

    ghost function Snapshot(): Machine
      requires Shape()
      reads this, base, base.memory, pendingPackets
    {
      Machine(base.operations, base.memory[..], base.Rx(), infos, pendingPackets[..pendingPacketsSize])
    }

    ghost predicate Valid()
      reads this, base, base.memory, pendingPackets
    {
      Shape() && Good(Snapshot())
    }

    ghost function View(): State
      requires Valid()
      reads this, base, base.memory, pendingPackets
    {
      DeferredMachine.View(Snapshot())
    }

    constructor (memory: array<byte>)
      ensures Valid() && base.memory == memory
      ensures fresh(base) && fresh(base.txBuffer) && fresh(pendingPackets)
      ensures infos == map[] && View() == State(WaitAA, []) && base.TxQueue() == []
      ensures pendingPacketsSize == 0 && !base.Rx().Filling()
    {
      base := new PacketHandler(memory);
      infos := map[];
      pendingPackets := new nat[PENDING_PACKETS_MAX];
      pendingPacketsSize := 0;
    }

    /**
     * DeferredPacketHandler_installPacket.  A type that is already installed is overwritten in place
     * and then reported as an error; `buffer` is the address of `numBuffers` consecutive buffers.
     */
    method InstallPacket(t: nat, size: nat, buffer: nat, numBuffers: nat, action: bool) returns (status: PacketStatus)
      requires Valid() && pendingPacketsSize == 0 && !base.Rx().Filling()
      requires 3 <= size <= 254 && 1 <= numBuffers <= PACKETS_PER_TYPE_MAX
      requires buffer + numBuffers * size <= base.memory.Length && RegionFree(infos, t, buffer, numBuffers * size)
      modifies this, base
      ensures Valid() && base.TxQueue() == old(base.TxQueue())
      ensures status == if t >= PACKET_TYPE_MAX || t in old(infos) then PacketInstallError else Success
      ensures View() == old(View()) && pendingPacketsSize == 0 && base.Rx() == old(base.Rx())
      ensures infos == if t >= PACKET_TYPE_MAX then old(infos)
                       else old(infos)[t := Installed(buffer, size, numBuffers, action)]
      ensures ConfigOf(infos) == if t >= PACKET_TYPE_MAX then old(ConfigOf(infos))
                                 else old(ConfigOf(infos))[t := TypeConfig(size, numBuffers, action)]
    {
      if t >= PACKET_TYPE_MAX {
        return PacketInstallError;
      }
      hide Good, DeferredMachine.View, Framed, Contents, RegionFree, ConfigOf, RxRegisters.Receiver;
      ghost var m := Snapshot();
      ViewLength(m);
      OfferIsRoom(m);
      InstallKeeps(m, t, buffer, size, numBuffers, action);
      var buffers := CarveBuffers(buffer, size, numBuffers);
      infos := infos[t := PacketInfo(size, buffers, Ring(0, 0, 0), action)];
      assert infos[t] == Installed(buffer, size, numBuffers, action);
      status := InstallOperations(t, size);
      assert Snapshot() == m.(operations := m.operations[t := size],
                              infos := m.infos[t := Installed(buffer, size, numBuffers, action)]);
    }

    /**
     * PacketHandler_installPacket on the operations inside packet_infos: where operations[t] is not null it
     * already points to the entry that has just been overwritten.
     */
    method InstallOperations(t: nat, size: nat) returns (status: PacketStatus)
      requires base.RxValid() && !base.Rx().Filling() && t < PACKET_TYPE_MAX && 3 <= size <= 254
      modifies base`operations
      ensures base.operations == old(base.operations)[t := size]
      ensures status == if t in old(base.operations) then PacketInstallError else Success
    {
      if t in base.operations {
        base.operations := base.operations[t := size];
        return PacketInstallError;
      }
      status := base.InstallPacket(t, size);
    }

    /** The loop of installPacket: the addresses of `numBuffers` consecutive buffers. */
    method CarveBuffers(buffer: nat, size: nat, numBuffers: nat) returns (buffers: seq<nat>)
      ensures buffers == Installed(buffer, size, numBuffers, true).buffers
    {
      buffers := [];
      var b := buffer;
      for i := 0 to numBuffers
        invariant |buffers| == i && b == buffer + i * size
        invariant forall k :: 0 <= k < i ==> buffers[k] == buffer + k * size
      {
        buffers := buffers + [b];
        b := b + size;
      }
    }

    /** The buffer at the end of the type's ring, if one is free. */
    method InitializeBuffer(t: nat) returns (buffer: Option<nat>)
      requires Valid() && base.rxFn.FnSize? && t == base.rxCurrentOp
      ensures buffer == Offer(Snapshot())
    {
      var info := infos[t];
      // ring full
      if info.ring.size >= |info.buffers| {
        return None;
      }
      return Some(info.buffers[info.ring.end]);
    }

    method OnReceive(packet: nat)
      requires Valid() && Completed(Snapshot(), packet)
      modifies this, pendingPackets
      ensures Valid() && ConfigOf(infos) == old(ConfigOf(infos))
      ensures View() == if |old(View()).pending| >= PENDING_PACKETS_MAX then old(View()) else
                State(old(View()).rx, old(View()).pending + [old(PacketIn(infos, base.memory[..], packet))])
    {
      ghost var m := Snapshot();
      var t: nat := base.memory[packet];
      var info := infos[t];
      // an assert of the source
      assert packet == info.buffers[info.ring.end];
      if pendingPacketsSize >= PENDING_PACKETS_MAX {
        return;
      }
      hide Good, DeferredMachine.View;
      QueueKeeps(m, packet);
      pendingPackets[pendingPacketsSize] := packet;
      infos := PutInfo(infos, t);
      pendingPacketsSize := pendingPacketsSize + 1;
      assert Snapshot() == Queued(m, packet);
    }

    method RxByte(c: byte) returns (status: PacketStatus)
      requires Valid()
      modifies this, pendingPackets, base, base.memory
      ensures Valid() && ConfigOf(infos) == old(ConfigOf(infos))
      ensures (View(), status) == Receive(ConfigOf(infos), old(View()), c)
      ensures base.TxRing() == old(base.TxRing()) && base.TxQueue() == old(base.TxQueue())
    {
      hide Good, DeferredMachine.View, Framed, Contents, Completed;
      ghost var m := Snapshot();
      OfferIsRoom(m);
      var slot := None;
      if base.rxFn.FnSize? {
        slot := InitializeBuffer(base.rxCurrentOp);
      }
      assert slot == Offer(m);
      var received;
      status, received := base.RxByte(c, slot);
      assert BaseStep(m, Snapshot(), c, status);
      ByteKeepsQueue(m, Snapshot(), c, status);
      if received.Some? {
        OnReceive(received.value);
      }
    }

    /** Hands every pending packet to its action; `calls` are the packets the actions were called with. */
    method ProcessPendingPackets() returns (calls: seq<Packet>)
      requires Valid()
      modifies this
      ensures Valid() && ConfigOf(infos) == old(ConfigOf(infos))
      ensures View() == State(old(View()).rx, [])
      ensures calls == Deferred.Calls(ConfigOf(infos), old(View()).pending)
    {
      hide Good, DeferredMachine.View, GetInfo, Contents, ConfigOf, HasAction;
      calls := [];
      var pnum := 0;
      ghost var m := Snapshot();
      ghost var config, packets := ConfigOf(infos), View().pending;
      ghost var rest := m;
      ViewLength(m);
      while pnum < pendingPacketsSize
        invariant pnum <= pendingPacketsSize == |m.pending|
        invariant Shape() && pendingPackets[..pendingPacketsSize] == m.pending
        invariant rest == m.(infos := infos, pending := m.pending[pnum..])
        invariant ConfigOf(infos) == config
        invariant Good(rest) && DeferredMachine.View(rest) == State(DeferredMachine.View(m).rx, packets[pnum..])
        invariant |packets| == |m.pending|
        invariant calls == Deferred.Calls(config, packets[..pnum])
      {
        DrainKeeps(rest);
        CallsPrefix(config, packets, pnum);
        var p := pendingPackets[pnum];
        var t: nat := base.memory[p];
        var info := infos[t];
        // an assert of the source
        assert p == info.buffers[info.ring.start];
        if info.action {
          calls := calls + [base.memory[p..p + info.size]];
        }
        infos := GetInfo(infos, t);
        rest := Drained(rest);
        pnum := pnum + 1;
      }
      pendingPacketsSize := 0;
      assert Snapshot() == rest;
      assert packets[..pnum] == packets;
    }
  }

  /**
   * The main loop's use of a handler: received bytes and drains in any order.  The handler ends where the
   * run of the specification ends, and the actions get the calls of that run.
   */
  method RunEvents(handler: DeferredPacketHandler, events: seq<Delivery.Event>) returns (calls: seq<Packet>)
    requires handler.Valid() && handler.View() == State(WaitAA, [])
    modifies handler, handler.pendingPackets, handler.base, handler.base.memory
    ensures handler.Valid() && ConfigOf(handler.infos) == old(ConfigOf(handler.infos))
    ensures ValidSizes(SizesOf(ConfigOf(handler.infos)))
    ensures handler.View() == Delivery.Run(ConfigOf(handler.infos), events).state
    ensures calls == Delivery.Run(ConfigOf(handler.infos), events).calls
  {
    hide Good, DeferredMachine.View, ConfigOf, Receive, Deferred.Calls, Contents;
    ghost var config := ConfigOf(handler.infos);
    ViewWellFormed(handler.Snapshot());
    calls := [];
    var k := 0;
    assert events[..0] == [];
    while k < |events|
      invariant k <= |events| && handler.Valid() && ConfigOf(handler.infos) == config
      invariant handler.View() == Delivery.Run(config, events[..k]).state
      invariant calls == Delivery.Run(config, events[..k]).calls
    {
      assert events[..k + 1][..k] == events[..k];
      match events[k] {
        case Received(c) =>
          var _ := handler.RxByte(c);
        case Process =>
          var more := handler.ProcessPendingPackets();
          calls := calls + more;
      }
      k := k + 1;
    }
    assert events[..k] == events;
  }
}
