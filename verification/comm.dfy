/** src/server/orazio_comm.c: the communication cycle of the server over a deferred packet handler. */
module Comm {
  import opened Bytes
  import opened Deferred
  import opened DeferredMachine
  import opened DeferredPacketHandlers
  import opened Epoch
  import opened Framing
  import opened PacketRings
  import Delivery
  import Rings

  /** A uint16_t counter after `n` more increments. */
  function Count16(x: nat, n: nat): (r: nat)
    ensures r < 0x1_0000
  {
    (x + n) % 0x1_0000
  }

  lemma CountMore(x: nat, n: nat)
    ensures Count16(Count16(x, n), 1) == Count16(x, n + 1)
    ensures Count16(x, n) < 0x1_0000 && (x < 0x1_0000 ==> Count16(x, 0) == x)
  {
  }

  lemma CountIf(x: nat, n: nat, more: bool)
    ensures Count16(x, n + if more then 1 else 0) == if more then Count16(Count16(x, n), 1) else Count16(x, n)
  {
    CountMore(x, n);
  }

  /** What a byte answered with `status` adds to the two counters. */
  function CountByte(packets: nat, errors: nat, status: PacketStatus): (nat, nat) {
    (if status == SyncChecksum then Count16(packets, 1) else packets,
     if status.IsError() then Count16(errors, 1) else errors)
  }

  /** One more byte of input: the state it leads to, and what it adds to the counters. */
  lemma ReceiveOneMore(config: Config, s: State, input: seq<byte>, k: nat, packets: nat, errors: nat)
    requires ValidSizes(SizesOf(config)) && WellFormed(SizesOf(config), s.rx) && k < |input|
    ensures var f, f' := ReceiveAll(config, s, input[..k]), ReceiveAll(config, s, input[..k + 1]);
            && f'.state == Receive(config, f.state, input[k]).0
            && (Count16(packets, f'.checksums), Count16(errors, f'.errors))
               == CountByte(Count16(packets, f.checksums), Count16(errors, f.errors),
                            Receive(config, f.state, input[k]).1)
  {
    hide SizesOf, WellFormed, ValidSizes, Receive, ReceiveAll, Count16, PacketStatus.IsError;
    var f := ReceiveAll(config, s, input[..k]);
    ReceiveMore(config, s, input, k);
    var status := Receive(config, f.state, input[k]).1;
    CountIf(packets, f.checksums, status == SyncChecksum);
    CountIf(errors, f.errors, status.IsError());
  }

  lemma SendAllAppend(ps: seq<Packet>, p: Packet)
    ensures var (q, taken) := SendAll([], ps);
            SendAll([], ps + [p]) == if |q| + |p| + 3 <= 256 then (q + Frame(p), taken + [p]) else (q, taken)
  {
    assert (ps + [p])[..|ps|] == ps;
  }

  /** The transmit counters say how many of the packets attempted the ring took, and how many it refused. */
  predicate Counted(packetsBefore: nat, errorsBefore: nat, attempted: seq<Packet>, packets: nat, errors: nat) {
    var taken := SendAll([], attempted).1;
    && packetsBefore < 0x1_0000 && errorsBefore < 0x1_0000
    && packets == Count16(packetsBefore, |taken|) && errors == Count16(errorsBefore, |attempted| - |taken|)
  }

  lemma CountedNext(packetsBefore: nat, errorsBefore: nat, attempted: seq<Packet>, packets: nat, errors: nat, p: Packet)
    requires Counted(packetsBefore, errorsBefore, attempted, packets, errors)
    ensures if |SendAll([], attempted).0| + |p| + 3 <= BUFFER_SIZE_MAX
            then Counted(packetsBefore, errorsBefore, attempted + [p], Count16(packets, 1), errors)
            else Counted(packetsBefore, errorsBefore, attempted + [p], packets, Count16(errors, 1))
  {
    hide SendAll, Count16;
    var taken := SendAll([], attempted).1;
    CountMore(packetsBefore, |taken|);
    CountMore(errorsBefore, |attempted| - |taken|);
    SendAllAppend(attempted, p);
  }

  /** With nothing attempted the counters are where they were, and any counters can be the new start. */
  lemma CountedEmpty(packetsBefore: nat, errorsBefore: nat, attempted: seq<Packet>, packets: nat, errors: nat)
    requires Counted(packetsBefore, errorsBefore, attempted, packets, errors)
    ensures Counted(packets, errors, [], packets, errors)
    ensures attempted == [] ==> packets == packetsBefore && errors == errorsBefore
  {
    hide SendAll;
    assert |SendAll([], []).1| == 0;
  }

  lemma ParamActionValid(w: World, p: Packet)
    requires ValidWorld(w) && ValidCall(p) && p[0] == PARAM_CONTROL
    ensures ValidWorld(ParamAction(w.(rxSeq := Seq(p)), p[4], p[5]).0)
  {
  }

  const PBUFNO: nat := 2
  /** The buffers of the six packets, two of each. */
  const BUFFERS_SIZE: nat := PBUFNO * (6 + 25 + 10 + 36 + 12 + 38)

  /** A handler before traffic: nothing received, queued or sent, and no buffer beyond `limit`. */
  ghost predicate Fresh(h: DeferredPacketHandler, limit: nat)
    reads h, h.base, h.base.memory, h.base.txBuffer, h.pendingPackets
  {
    && h.Valid() && h.View() == State(WaitAA, []) && h.base.TxQueue() == []
    && h.pendingPacketsSize == 0 && !h.base.Rx().Filling()
    && limit <= h.base.memory.Length && BuffersBelow(h.infos, limit)
  }

  predicate BuffersBelow(infos: Infos, limit: nat) {
    forall u, i :: u in infos && 0 <= i < |infos[u].buffers| ==> infos[u].buffers[i] + infos[u].size <= limit
  }

  lemma InstalledBelow(infos: Infos, t: nat, at: nat, size: nat)
    requires BuffersBelow(infos, at)
    ensures RegionFree(infos, t, at, PBUFNO * size)
    ensures BuffersBelow(infos[t := Installed(at, size, PBUFNO, true)], at + PBUFNO * size)
  {
    var buffers := Installed(at, size, PBUFNO, true).buffers;
    assert buffers == [at, at + size];
  }

  /** One of the six calls of installPacket; its buffers are the bytes from `at`. */
  method InstallNext(h: DeferredPacketHandler, t: byte, size: nat, at: nat) returns (next: nat)
    requires Fresh(h, at) && t < PACKET_TYPE_MAX && t !in h.infos && 3 <= size <= 254
    requires at + PBUFNO * size <= h.base.memory.Length
    modifies h, h.base
    ensures next == at + PBUFNO * size && Fresh(h, next)
    ensures ConfigOf(h.infos) == old(ConfigOf(h.infos))[t := TypeConfig(size, PBUFNO, true)]
  {
    hide Good, DeferredMachine.View, ConfigOf, BuffersBelow, Installed, RegionFree, Rings.Contents;
    InstalledBelow(h.infos, t, at, size);
    var status := h.InstallPacket(t, size, at, PBUFNO, true);
    assert status == Success;
    next := at + PBUFNO * size;
  }

  /** Orazio_initializePackets. */
  method InitializePackets(h: DeferredPacketHandler)
    requires Fresh(h, 0) && h.infos == map[] && h.base.memory.Length >= BUFFERS_SIZE
    modifies h, h.base
    ensures Fresh(h, BUFFERS_SIZE) && ConfigOf(h.infos) == SERVER_CONFIG
  {
    hide Fresh, ConfigOf;
    assert ConfigOf(h.infos) == map[];
    var at := InstallNext(h, PARAM_CONTROL, 6, 0);
    at := InstallNext(h, SYSTEM_PARAM, 25, at);
    at := InstallNext(h, JOINT_CONTROL, 10, at);
    at := InstallNext(h, JOINT_PARAM, 36, at);
    at := InstallNext(h, DRIVE_CONTROL, 12, at);
    at := InstallNext(h, DRIVE_PARAM, 38, at);
  }

  class OrazioComm {
    const handler: DeferredPacketHandler
    var globalSeq: nat
    // the global packets by type, and the parameter packets in the EEPROM
    var vars: map<byte, Packet>
    var stored: map<byte, Packet>
    var driveEnable: bool
    /** last_drive_control_seq of src/server/orazio_drive.c. */
    var lastDriveControlSeq: nat
    // counters of system_status
    var rxSeq: nat
    var rxPackets: nat
    var rxPacketErrors: nat
    var txPackets: nat
    var txPacketErrors: nat
    var rxPacketQueue: nat
    /** The packets sendPacket was called with since the ring was last empty. */
    ghost var attempted: seq<Packet>
    // tx_packets and tx_packet_errors when the ring was last empty
    ghost var txPacketsBefore: nat
    ghost var txPacketErrorsBefore: nat

    function World(): World
      reads this
    {
      Epoch.World(vars, stored, driveEnable, lastDriveControlSeq, rxSeq)
    }

    ghost predicate Valid()
      reads this, handler, handler.base, handler.base.memory, handler.base.txBuffer, handler.pendingPackets
    {
      && handler.Valid()
      && ConfigOf(handler.infos) == SERVER_CONFIG
      && ValidWorld(World())
      && globalSeq < 0x1_0000 && rxPackets < 0x1_0000 && rxPacketErrors < 0x1_0000
      && handler.base.TxQueue() == SendAll([], attempted).0
      && Counted(txPacketsBefore, txPacketErrorsBefore, attempted, txPackets, txPacketErrors)
    }


    /** Orazio_commInit with the global variables `w`; the buffers of the six packets are the start of `memory`. */
    constructor (memory: array<byte>, w: World)
      requires memory.Length >= BUFFERS_SIZE && ValidWorld(w)
      ensures Valid() && World() == w && globalSeq == 0 && attempted == []
      ensures handler.View() == State(WaitAA, []) && handler.base.memory == memory
      ensures rxPackets == rxPacketErrors == txPackets == txPacketErrors == 0
      ensures fresh(handler) && fresh(handler.base) && fresh(handler.base.txBuffer) && fresh(handler.pendingPackets)
    {
      hide Good, DeferredMachine.View, SERVER_CONFIG, ConfigOf, ValidWorld, Rings.Contents;
      globalSeq := 0;
      vars, stored, driveEnable, lastDriveControlSeq, rxSeq := w.vars, w.stored, w.driveEnable, w.lastDriveSeq, w.rxSeq;
      rxPackets, rxPacketErrors, txPackets, txPacketErrors, rxPacketQueue := 0, 0, 0, 0, 0;
      attempted, txPacketsBefore, txPacketErrorsBefore := [], 0, 0;
      handler := new DeferredPacketHandler(memory);
      new;
      InitializePackets(handler);
    }

    /** Orazio_sendPacket once the packet carries the sequence number. */
    method Transmit(p: Packet) returns (status: PacketStatus)
      requires Valid() && |p| >= 4 && |p| == p[1]
      modifies this`attempted, this`txPackets, this`txPacketErrors,
               handler.base`txEnd, handler.base`txSize, handler.base`txChecksum, handler.base.txBuffer
      ensures Valid() && handler.Snapshot() == old(handler.Snapshot()) && attempted == old(attempted) + [p]
      ensures status == Success <==> SendAll([], attempted).1 == old(SendAll([], attempted).1) + [p]
      ensures txPackets == if status == Success then Count16(old(txPackets), 1) else old(txPackets)
      ensures txPacketErrors == if status == Success then old(txPacketErrors) else Count16(old(txPacketErrors), 1)
    {
      hide Good, SERVER_CONFIG, ValidWorld, ConfigOf, Frame, SendAll, Counted, Count16;
      SendAllAppend(attempted, p);
      CountedNext(txPacketsBefore, txPacketErrorsBefore, attempted, txPackets, txPacketErrors, p);
      status := handler.base.SendPacket(p);
      assert p[..p[1]] == p;
      if status == Success {
        txPackets := Count16(txPackets, 1);
      } else {
        txPacketErrors := Count16(txPacketErrors, 1);
      }
      attempted := attempted + [p];
    }

    method SendPacket(t: byte)
      requires Valid() && IsVar(t)
      modifies this`vars, this`attempted, this`txPackets, this`txPacketErrors,
               handler.base`txEnd, handler.base`txSize, handler.base`txChecksum, handler.base.txBuffer
      ensures Valid() && handler.Snapshot() == old(handler.Snapshot())
      ensures World() == Sent(old(World()), t, globalSeq) && attempted == old(attempted) + [vars[t]]
    {
      hide Good, Counted, SERVER_CONFIG, ConfigOf, SendAll, Rings.Contents;
      vars := vars[t := Stamp(vars[t], globalSeq)];
      var _ := Transmit(vars[t]);
    }

    method SendResponse(p: Packet, result: byte)
      requires Valid() && |p| >= 4
      modifies this`attempted, this`txPackets, this`txPacketErrors,
               handler.base`txEnd, handler.base`txSize, handler.base`txChecksum, handler.base.txBuffer
      ensures Valid() && handler.Snapshot() == old(handler.Snapshot())
      ensures attempted == old(attempted) + [Response(p, result, globalSeq)]
    {
      hide Good, Counted, SERVER_CONFIG, ConfigOf, ValidWorld, SendAll, Rings.Contents;
      var _ := Transmit(Response(p, result, globalSeq));
    }

    method CopyToVar(p: Packet)
      requires Valid() && ValidCall(p) && p[0] == DRIVE_CONTROL
      modifies this`vars, this`rxSeq, this`attempted, this`txPackets, this`txPacketErrors,
               handler.base`txEnd, handler.base`txSize, handler.base`txChecksum, handler.base.txBuffer
      ensures Valid() && handler.Snapshot() == old(handler.Snapshot())
      ensures World() == Act(old(World()), globalSeq, p).0
      ensures attempted == old(attempted) + Act(old(World()), globalSeq, p).1
    {
      hide Good, Counted, SERVER_CONFIG, ConfigOf, Response, SendAll, Rings.Contents;
      vars := vars[p[0] := p];
      rxSeq := Seq(p);
      SendResponse(p, SUCCESS);
    }

    method CopyToVarAndDisableDrive(p: Packet)
      requires Valid() && ValidCall(p) && p[0] == JOINT_CONTROL
      modifies this`vars, this`rxSeq, this`driveEnable, this`attempted, this`txPackets, this`txPacketErrors,
               handler.base`txEnd, handler.base`txSize, handler.base`txChecksum, handler.base.txBuffer
      ensures Valid() && handler.Snapshot() == old(handler.Snapshot())
      ensures World() == Act(old(World()), globalSeq, p).0
      ensures attempted == old(attempted) + Act(old(World()), globalSeq, p).1
    {
      hide Good, Counted, SERVER_CONFIG, ConfigOf, Response, SendAll, Stamp, Rings.Contents;
      driveEnable := false;
      vars := vars[p[0] := p];
      rxSeq := Seq(p);
      SendResponse(p, SUCCESS);
    }

    /** The two sends that end a parameter action. */
    method SendVarAndResponse(t: byte, p: Packet, result: byte)
      requires Valid() && IsVar(t) && |p| >= 4
      modifies this`vars, this`attempted, this`txPackets, this`txPacketErrors,
               handler.base`txEnd, handler.base`txSize, handler.base`txChecksum, handler.base.txBuffer
      ensures Valid() && handler.Snapshot() == old(handler.Snapshot())
      ensures World() == Sent(old(World()), t, globalSeq)
      ensures attempted == old(attempted) + [vars[t], Response(p, result, globalSeq)]
    {
      hide Good, Counted, SERVER_CONFIG, ConfigOf, Response, Stamp, ValidWorld, SendAll, Rings.Contents;
      ghost var before := attempted;
      SendPacket(t);
      SendResponse(p, result);
      Associate(before, [vars[t]], [Response(p, result, globalSeq)]);
    }

    /** Orazio_paramSet, as far as it goes to Orazio_driveInit. */
    method ParamSet(t: byte)
      requires ValidWorld(World())
      modifies this`vars, this`lastDriveControlSeq
      ensures World() == Epoch.ParamSet(old(World()), t)
    {
      if t == SYSTEM_PARAM || t == DRIVE_PARAM {
        vars := vars[DRIVE_STATUS := vars[DRIVE_STATUS][..4] + CLEARED];
        lastDriveControlSeq := Seq(vars[DRIVE_CONTROL]);
      }
    }

    method CopyToVarAndSend(p: Packet)
      requires Valid() && ValidCall(p) && IsParam(p[0])
      modifies this`vars, this`rxSeq, this`lastDriveControlSeq, this`attempted, this`txPackets, this`txPacketErrors,
               handler.base`txEnd, handler.base`txSize, handler.base`txChecksum, handler.base.txBuffer
      ensures Valid() && handler.Snapshot() == old(handler.Snapshot())
      ensures World() == Act(old(World()), globalSeq, p).0
      ensures attempted == old(attempted) + Act(old(World()), globalSeq, p).1
    {
      hide Good, Counted, SERVER_CONFIG, ConfigOf, Response, Stamp, ValidWorld, Sent, SendAll, Rings.Contents;
      ghost var w := World();
      vars := vars[p[0] := p];
      rxSeq := Seq(p);
      assert World() == Copied(w, p);
      ParamSet(p[0]);
      SendVarAndResponse(p[0], p, SUCCESS);
    }

    method HandleParamControlPacket(p: Packet)
      requires Valid() && ValidCall(p) && p[0] == PARAM_CONTROL
      modifies this`vars, this`stored, this`rxSeq, this`lastDriveControlSeq, this`attempted, this`txPackets,
               this`txPacketErrors,
               handler.base`txEnd, handler.base`txSize, handler.base`txChecksum, handler.base.txBuffer
      ensures Valid() && handler.Snapshot() == old(handler.Snapshot())
      ensures World() == Act(old(World()), globalSeq, p).0
      ensures attempted == old(attempted) + Act(old(World()), globalSeq, p).1
    {
      hide Good, Counted, SERVER_CONFIG, ConfigOf, Response, Stamp, Sent, ValidWorld, SendAll, Rings.Contents;
      ghost var w := World();
      var target := ParamTarget(p[5]);
      var result := DoParamAction(p);
      ParamActionValid(w, p);
      hide ParamAction;
      if target != RESPONSE {
        SendVarAndResponse(target, p, result);
      } else {
        SendResponse(p, result);
      }
    }

    method DoParamAction(p: Packet) returns (result: byte)
      requires ValidWorld(World()) && ValidCall(p) && p[0] == PARAM_CONTROL
      modifies this`vars, this`stored, this`rxSeq, this`lastDriveControlSeq
      ensures (World(), result) == ParamAction(old(World()).(rxSeq := Seq(p)), p[4], p[5])
    {
      rxSeq := Seq(p);
      var action, target := p[4], ParamTarget(p[5]);
      result := GENERIC_ERROR;
      if action == 0 {
        result := SUCCESS;
      } else if action == 1 && target != RESPONSE {
        vars := vars[target := stored[target]];
        ParamSet(target);
        result := SUCCESS;
      } else if action == 2 && target != RESPONSE {
        stored := stored[target := vars[target]];
        result := SUCCESS;
      }
    }

    /** The action installed for the packet's type. */
    method Action(p: Packet)
      requires Valid() && ValidCall(p)
      modifies this`vars, this`stored, this`rxSeq, this`lastDriveControlSeq, this`driveEnable, this`attempted,
               this`txPackets, this`txPacketErrors,
               handler.base`txEnd, handler.base`txSize, handler.base`txChecksum, handler.base.txBuffer
      ensures Valid() && handler.Snapshot() == old(handler.Snapshot())
      ensures World() == Act(old(World()), globalSeq, p).0
      ensures attempted == old(attempted) + Act(old(World()), globalSeq, p).1
    {
      hide Good, Counted, SERVER_CONFIG, ConfigOf, Act, ValidWorld, Stamp, SendAll, Rings.Contents;
      if p[0] == DRIVE_CONTROL {
        CopyToVar(p);
      } else if p[0] == JOINT_CONTROL {
        CopyToVarAndDisableDrive(p);
      } else if p[0] == PARAM_CONTROL {
        HandleParamControlPacket(p);
      } else {
        CopyToVarAndSend(p);
      }
    }

    /** Feeds the bytes waiting in the UART to the receiver. */
    method FlushInputBuffers(input: seq<byte>)
      requires Valid()
      modifies this`rxPackets, this`rxPacketErrors, handler, handler.base, handler.base.memory, handler.pendingPackets
      ensures Valid()
      ensures var f := ReceiveAll(SERVER_CONFIG, old(handler.View()), input);
              && handler.View() == f.state
              && rxPackets == Count16(old(rxPackets), f.checksums)
              && rxPacketErrors == Count16(old(rxPacketErrors), f.errors)
      ensures handler.base.TxRing() == old(handler.base.TxRing())
    {
      hide Good, Counted, SERVER_CONFIG, ConfigOf, ValidWorld, DeferredMachine.View, Receive, Count16, SendAll,
           WellFormedState, ReceiveAll, PacketStatus.IsError;
      ghost var s, packets, errors := handler.View(), rxPackets, rxPacketErrors;
      ServerSizes();
      ViewWellFormed(handler.Snapshot());
      CountMore(packets, 0);
      CountMore(errors, 0);
      ReceiveNothing(SERVER_CONFIG, s);
      var k := 0;
      assert input[..0] == [];
      while k < |input|
        invariant k <= |input| && Valid()
        invariant var f := ReceiveAll(SERVER_CONFIG, s, input[..k]);
                  && handler.View() == f.state
                  && rxPackets == Count16(packets, f.checksums)
                  && rxPacketErrors == Count16(errors, f.errors)
        invariant handler.base.TxRing() == old(handler.base.TxRing())
      {
        ReceiveOneMore(SERVER_CONFIG, s, input, k, packets, errors);
        var status := handler.RxByte(input[k]);
        if status.IsError() {
          rxPacketErrors := Count16(rxPacketErrors, 1);
        }
        if status == SyncChecksum {
          rxPackets := Count16(rxPackets, 1);
        }
        k := k + 1;
      }
      assert input[..k] == input;
    }

    /** The deferred actions of everything pending. */
    method RunActions()
      requires Valid()
      modifies this`vars, this`stored, this`rxSeq, this`lastDriveControlSeq, this`driveEnable, this`attempted,
               this`txPackets, this`txPacketErrors,
               handler, handler.base`txEnd, handler.base`txSize, handler.base`txChecksum, handler.base.txBuffer
      ensures Valid() && handler.View() == old(handler.View()).(pending := [])
      ensures ValidCalls(old(handler.View()).pending)
      ensures World() == ActAll(old(World()), globalSeq, old(handler.View()).pending).0
      ensures attempted == old(attempted) + ActAll(old(World()), globalSeq, old(handler.View()).pending).1
    {
      hide Good, Counted, SERVER_CONFIG, ConfigOf, ValidWorld, DeferredMachine.View, Act, HasAction, ValidCall;
      ghost var s := handler.View();
      PendingAreCalls(handler.Snapshot());
      var calls := handler.ProcessPendingPackets();
      assert calls == s.pending;
      RunCalls(calls);
    }

    method RunCalls(calls: seq<Packet>)
      requires Valid() && ValidCalls(calls)
      modifies this`vars, this`stored, this`rxSeq, this`lastDriveControlSeq, this`driveEnable, this`attempted,
               this`txPackets, this`txPacketErrors,
               handler.base`txEnd, handler.base`txSize, handler.base`txChecksum, handler.base.txBuffer
      ensures Valid() && handler.Snapshot() == old(handler.Snapshot())
      ensures World() == ActAll(old(World()), globalSeq, calls).0
      ensures attempted == old(attempted) + ActAll(old(World()), globalSeq, calls).1
    {
      hide Good, Counted, SERVER_CONFIG, ConfigOf, ValidWorld, DeferredMachine.View, Act, ValidCall;
      ghost var w, before, idle := World(), attempted, handler.Snapshot();
      var k := 0;
      assert calls[..0] == [];
      while k < |calls|
        invariant k <= |calls| && Valid() && handler.Snapshot() == idle
        invariant World() == ActAll(w, globalSeq, calls[..k]).0
        invariant attempted == before + ActAll(w, globalSeq, calls[..k]).1
      {
        assert calls[..k + 1][..k] == calls[..k];
        ghost var (w', out) := ActAll(w, globalSeq, calls[..k]);
        Associate(before, out, Act(w', globalSeq, calls[k]).1);
        Action(calls[k]);
        k := k + 1;
      }
      assert calls[..k] == calls;
    }

    /** The periodic packets the mask asks for, and the end of the epoch. */
    method SendReport()
      requires Valid()
      modifies this`vars, this`attempted, this`txPackets, this`txPacketErrors,
               handler.base`txEnd, handler.base`txSize, handler.base`txChecksum, handler.base.txBuffer
      ensures Valid() && handler.Snapshot() == old(handler.Snapshot())
      ensures World() == Report(old(World()), globalSeq).0
      ensures attempted == old(attempted) + Report(old(World()), globalSeq).1
    {
      hide Good, Counted, SERVER_CONFIG, ConfigOf, ValidWorld, Mask, Periodic;
      ghost var w, before := World(), attempted;
      SendPeriodic(SYSTEM_STATUS, Mask(World()) % 2 == 1);
      ghost var (w1, a) := Periodic(w, globalSeq, SYSTEM_STATUS, Mask(w) % 2 == 1);
      SendPeriodic(JOINT_STATUS, Mask(World()) / 2 % 2 == 1);
      ghost var (w2, b) := Periodic(w1, globalSeq, JOINT_STATUS, Mask(w1) / 2 % 2 == 1);
      SendPeriodic(DRIVE_STATUS, Mask(World()) / 4 % 2 == 1);
      ghost var (w3, c) := Periodic(w2, globalSeq, DRIVE_STATUS, Mask(w2) / 4 % 2 == 1);
      SendPeriodic(END_EPOCH, true);
      ghost var (w4, d) := Periodic(w3, globalSeq, END_EPOCH, true);
      AssociateFour(before, a, b, c, d);
    }

    method SendPeriodic(t: byte, wanted: bool)
      requires Valid() && IsVar(t)
      modifies this`vars, this`attempted, this`txPackets, this`txPacketErrors,
               handler.base`txEnd, handler.base`txSize, handler.base`txChecksum, handler.base.txBuffer
      ensures Valid() && handler.Snapshot() == old(handler.Snapshot())
      ensures World() == Periodic(old(World()), globalSeq, t, wanted).0
      ensures attempted == old(attempted) + Periodic(old(World()), globalSeq, t, wanted).1
    {
      hide Good, Counted, SERVER_CONFIG, ConfigOf, ValidWorld;
      if wanted {
        SendPacket(t);
      }
    }

    /** Moves the whole transmit ring to the UART. */
    method FlushOutputBuffers() returns (output: seq<byte>)
      requires Valid()
      modifies this`attempted, this`txPacketsBefore, this`txPacketErrorsBefore, handler.base`txStart, handler.base`txSize
      ensures Valid() && handler.Snapshot() == old(handler.Snapshot())
      ensures output == old(handler.base.TxQueue()) && handler.base.TxQueue() == [] && attempted == []
    {
      hide Good, Counted, SERVER_CONFIG, ConfigOf, ValidWorld;
      CountedEmpty(txPacketsBefore, txPacketErrorsBefore, attempted, txPackets, txPacketErrors);
      output := [];
      ghost var queue, m := handler.base.TxQueue(), handler.Snapshot();
      while handler.base.txSize > 0
        invariant handler.Shape() && handler.Snapshot() == m
        invariant output + handler.base.TxQueue() == queue
        decreases handler.base.txSize
      {
        ghost var before := handler.base.TxQueue();
        var c := handler.base.TxByte();
        Associate(output, [c], handler.base.TxQueue());
        output := output + [c];
      }
      attempted, txPacketsBefore, txPacketErrorsBefore := [], txPackets, txPacketErrors;
    }

    /**
     * Orazio_commHandle.  `input` is what the UART receives until it runs empty, `output` what is handed
     * to it; the transmit ring starts and ends empty.
     */
    method CommHandle(input: seq<byte>) returns (output: seq<byte>)
      requires Valid() && attempted == []
      modifies this, handler, handler.base, handler.base.memory, handler.base.txBuffer, handler.pendingPackets
      ensures Valid() && attempted == [] && handler.base.TxQueue() == []
      ensures globalSeq == (old(globalSeq) + 1) % 0x1_0000
      ensures var f := ReceiveAll(SERVER_CONFIG, old(handler.View()), input);
              && handler.View() == State(f.state.rx, [])
              && rxPackets == Count16(old(rxPackets), f.checksums)
              && rxPacketErrors == Count16(old(rxPacketErrors), f.errors)
              && ValidCalls(f.state.pending)
              && World() == Cycle(old(World()), globalSeq, f.state.pending).0
              && output == SendAll([], Cycle(old(World()), globalSeq, f.state.pending).1).0
              && (ParamCount(f.state.pending) <= 1 ==> output == Frames(Cycle(old(World()), globalSeq, f.state.pending).1))
              && Counted(old(txPackets), old(txPacketErrors), Cycle(old(World()), globalSeq, f.state.pending).1,
                         txPackets, txPacketErrors)
    {
      hide Good, Counted, SERVER_CONFIG, ConfigOf, ValidWorld, DeferredMachine.View, SendAll, Cycle, ReceiveAll, Frames,
           ParamCount, Rings.Contents;
      FlushInputBuffers(input);
      globalSeq := (globalSeq + 1) % 0x1_0000;
      rxPacketQueue := handler.pendingPacketsSize;
      output := Answer();
    }

    /** The actions of everything pending and the report: all the sends of the cycle. */
    method Reply()
      requires Valid() && attempted == []
      modifies this`vars, this`stored, this`rxSeq, this`lastDriveControlSeq, this`driveEnable, this`attempted,
               this`txPackets, this`txPacketErrors,
               handler, handler.base`txEnd, handler.base`txSize, handler.base`txChecksum, handler.base.txBuffer
      ensures Valid() && handler.View() == old(handler.View()).(pending := [])
      ensures var pending := old(handler.View()).pending;
              && ValidCalls(pending)
              && World() == Cycle(old(World()), globalSeq, pending).0
              && attempted == Cycle(old(World()), globalSeq, pending).1
    {
      hide Good, Counted, SERVER_CONFIG, ConfigOf, ValidWorld, DeferredMachine.View, SendAll, ActAll, Report;
      ghost var w0, pending := World(), handler.View().pending;
      RunActions();
      ghost var (w, replies) := ActAll(w0, globalSeq, pending);
      assert attempted == replies;
      SendReport();
      assert attempted == Cycle(w0, globalSeq, pending).1;
    }

    /** The part of Orazio_commHandle after the input: actions, report, output. */
    method Answer() returns (output: seq<byte>)
      requires Valid() && attempted == []
      modifies this`vars, this`stored, this`rxSeq, this`lastDriveControlSeq, this`driveEnable, this`attempted,
               this`txPackets, this`txPacketErrors, this`txPacketsBefore, this`txPacketErrorsBefore,
               handler, handler.base`txStart, handler.base`txEnd, handler.base`txSize, handler.base`txChecksum,
               handler.base.txBuffer
      ensures Valid() && attempted == [] && handler.base.TxQueue() == []
      ensures handler.View() == old(handler.View()).(pending := [])
      ensures var pending := old(handler.View()).pending;
              && ValidCalls(pending)
              && World() == Cycle(old(World()), globalSeq, pending).0
              && output == SendAll([], Cycle(old(World()), globalSeq, pending).1).0
              && (ParamCount(pending) <= 1 ==> output == Frames(Cycle(old(World()), globalSeq, pending).1))
              && Counted(old(txPackets), old(txPacketErrors), Cycle(old(World()), globalSeq, pending).1, txPackets,
                         txPacketErrors)
    {
      hide Good, Counted, SERVER_CONFIG, ConfigOf, ValidWorld, DeferredMachine.View, SendAll, Cycle, Frames, ParamCount,
           Rings.Contents;
      CountedEmpty(txPacketsBefore, txPacketErrorsBefore, attempted, txPackets, txPacketErrors);
      PendingAreCalls(handler.Snapshot());
      if ParamCount(handler.View().pending) <= 1 {
        BatchFits(handler.Snapshot(), World(), globalSeq);
      }
      Reply();
      output := FlushOutputBuffers();
    }
  }

  /** Rings of two bound the control packets of a batch, so one parameter packet never overruns the transmit ring. */
  lemma BatchFits(m: Machine, w: World, seqNo: nat)
    requires Good(m) && ConfigOf(m.infos) == SERVER_CONFIG && ValidWorld(w) && seqNo < 0x1_0000
    requires ValidCalls(DeferredMachine.View(m).pending) && ParamCount(DeferredMachine.View(m).pending) <= 1
    ensures var out := Cycle(w, seqNo, DeferredMachine.View(m).pending).1; SendAll([], out).0 == Frames(out)
  {
    ViewCounts(m, JOINT_CONTROL);
    ViewCounts(m, DRIVE_CONTROL);
    OneParamFits(w, seqNo, DeferredMachine.View(m).pending);
  }

  /**
   * A cycle in which no frame passes its checksum runs no action: the drive switch and the commands the
   * motors follow stay as they were.
   */
  lemma SilentCycle(w: World, seqNo: nat, s: State, input: seq<byte>)
    requires WellFormedState(SERVER_CONFIG, s) && s.pending == []
    requires ReceiveAll(SERVER_CONFIG, s, input).checksums == 0
    requires ValidWorld(w) && seqNo < 0x1_0000
    ensures ReceiveAll(SERVER_CONFIG, s, input).state.pending == []
    ensures var w' := Cycle(w, seqNo, []).0;
            && w'.driveEnable == w.driveEnable && w'.stored == w.stored
            && forall t :: t in [JOINT_CONTROL, DRIVE_CONTROL, SYSTEM_PARAM, JOINT_PARAM, DRIVE_PARAM] ==>
                 w'.vars[t] == w.vars[t]
  {
    QueueGrowth(SERVER_CONFIG, s, input);
    ReportKeeps(w, seqNo);
    hide Report, SERVER_CONFIG, WellFormedState, ReceiveAll, ValidWorld;
    assert Cycle(w, seqNo, []).0 == Report(w, seqNo).0;
  }

  /** Reporting stamps the packets reported and touches nothing else. */
  lemma ReportKeeps(w: World, seqNo: nat)
    requires ValidWorld(w) && seqNo < 0x1_0000
    ensures var w' := Report(w, seqNo).0;
            && w'.driveEnable == w.driveEnable && w'.stored == w.stored
            && forall t :: t in [JOINT_CONTROL, DRIVE_CONTROL, SYSTEM_PARAM, JOINT_PARAM, DRIVE_PARAM] ==>
                 t in w.vars && t in w'.vars && w'.vars[t] == w.vars[t]
  {
    hide Mask, Stamp, HasHeader;
  }

  lemma AssociateFour(x: seq<Packet>, a: seq<Packet>, b: seq<Packet>, c: seq<Packet>, d: seq<Packet>)
    ensures x + a + b + c + d == x + (a + b + c + d)
  {
  }

  /** Whatever is pending in a handler set up for the server can be handed to the actions, and is. */
  lemma PendingAreCalls(m: Machine)
    requires Good(m) && ConfigOf(m.infos) == SERVER_CONFIG
    ensures ValidCalls(DeferredMachine.View(m).pending)
    ensures Calls(SERVER_CONFIG, DeferredMachine.View(m).pending) == DeferredMachine.View(m).pending
  {
    ViewWellFormed(m);
    var ps := DeferredMachine.View(m).pending;
    forall k | 0 <= k < |ps|
      ensures ValidCall(ps[k]) && HasAction(SERVER_CONFIG, ps[k])
    {
      AcceptedIsCall(ps[k]);
    }
    Delivery.AllCalled(SERVER_CONFIG, ps);
  }
}
