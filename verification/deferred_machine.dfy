/** The whole state of a deferred handler as one value, its invariant, and what each step does to it. */
module DeferredMachine {
  import opened Bytes
  import opened Deferred
  import opened Framing
  import opened PacketRings
  import opened Rings
  import opened RxRegisters
  import opened Wrappers

  datatype Machine = Machine(operations: Sizes, memory: seq<byte>, rx: Registers, infos: Infos, pending: seq<nat>)

  function ConfigOf(infos: Infos): (config: Config)
    ensures config.Keys == infos.Keys
  {
    map t | t in infos :: TypeConfig(infos[t].size, |infos[t].buffers|, infos[t].action)
  }

  /** The packet under construction lies in the buffer its ring would fill next. */
  predicate FillsEnd(infos: Infos, memorySize: nat, r: Registers)
    requires ValidInfos(infos, memorySize)
  {
    r.Filling() ==>
      && r.op in infos
      && infos[r.op].ring.size < |infos[r.op].buffers|
      && r.packet == FillSlot(infos[r.op])
  }

  predicate Good(m: Machine) {
    && Framed(m.operations, m.memory, m.rx)
    && m.operations == SizesOf(ConfigOf(m.infos))
    && |m.pending| <= PENDING_PACKETS_MAX
    && Refines(m.infos, m.memory, m.pending)
    && FillsEnd(m.infos, |m.memory|, m.rx)
  }

  function View(m: Machine): State
    requires Good(m)
  {
    State(Receiver(m.operations, m.memory, m.rx), Packets(m.infos, m.memory, m.pending))
  }

  lemma ViewLength(m: Machine)
    requires Good(m)
    ensures |View(m).pending| == |m.pending| <= PENDING_PACKETS_MAX
  {
  }

  /** The view of a good machine is a well-formed state of the queue specification. */
  lemma ViewWellFormed(m: Machine)
    requires Good(m)
    ensures WellFormedState(ConfigOf(m.infos), View(m))
  {
    forall k | 0 <= k < |m.pending|
      ensures Registered(SizesOf(ConfigOf(m.infos)), View(m).pending[k])
    {
      assert PacketAt(m.infos, m.memory, m.pending[k]);
      assert ValidInfo(m.infos[m.memory[m.pending[k]]], |m.memory|);
    }
  }

  /** No more packets of a type are pending than the type has buffers. */
  lemma ViewCounts(m: Machine, t: nat)
    requires Good(m) && t in m.infos
    ensures CountType(View(m).pending, t) <= ConfigOf(m.infos)[t].buffers
  {
    RingSizeIsCount(m.infos, m.memory, m.pending, t);
    assert ValidInfo(m.infos[t], |m.memory|);
  }

  /** What initialize_buffer_fn answers when the size byte arrives. */
  function Offer(m: Machine): Option<nat>
    requires Good(m)
  {
    if !m.rx.fn.FnSize? then None
    else if m.infos[m.rx.op].ring.size >= |m.infos[m.rx.op].buffers| then None
    else Some(FillSlot(m.infos[m.rx.op]))
  }

  lemma OfferIsRoom(m: Machine)
    requires Good(m)
    ensures Framed(m.operations, m.memory, m.rx) && m.operations.Keys == m.infos.Keys
    ensures Offer(m).Some? <==> Room(ConfigOf(m.infos), View(m))
    ensures Offer(m).Some? ==> Offer(m).value + m.operations[m.rx.op] <= |m.memory|
  {
    if m.rx.fn.FnSize? {
      RingSizeIsCount(m.infos, m.memory, m.pending, m.rx.op);
      assert ValidInfo(m.infos[m.rx.op], |m.memory|);
    }
  }

  /** What the byte-level handler promises about one byte, see PacketHandler.RxByte. */
  predicate BaseStep(m: Machine, m': Machine, c: byte, status: PacketStatus)
    requires Good(m)
  {
    && m' == m.(memory := m'.memory, rx := m'.rx)
    && Framed(m.operations, m'.memory, m'.rx)
    && (Receiver(m.operations, m'.memory, m'.rx), status)
       == Step(m.operations, Receiver(m.operations, m.memory, m.rx), c, Offer(m).Some?)
    && (m'.rx.Filling() && m.rx.fn.FnSize? ==> Offer(m) == Some(m'.rx.packet) && m'.rx.op == m.rx.op)
    && (m'.rx.Filling() ==> m.rx.fn.FnSize? || m.rx.fn.FnPayload?)
    && (m.rx.Filling() ==> m'.rx.packet == m.rx.packet && m'.rx.op == m.rx.op)
    && (!m'.rx.Filling() ==> m'.memory == m.memory)
    && (m'.rx.Filling() ==> SameOutside(m.memory, m'.memory, m'.rx.packet, m.operations[m'.rx.op]))
  }

  /** `packet` has just been completed in the buffer at the end of its ring. */
  predicate Completed(m: Machine, packet: nat)
    requires Good(m)
  {
    && !m.rx.Filling()
    && PacketAt(m.infos, m.memory, packet)
    && m.infos[m.memory[packet]].ring.size < |m.infos[m.memory[packet]].buffers|
    && packet == FillSlot(m.infos[m.memory[packet]])
  }

  /** A byte leaves every queued packet alone; a checksum that matches completes the packet being filled. */
  lemma ByteKeepsQueue(m: Machine, m': Machine, c: byte, status: PacketStatus)
    requires Good(m) && BaseStep(m, m', c, status)
    ensures Good(m')
    ensures (View(m').rx, status) == Step(m.operations, View(m).rx, c, Room(ConfigOf(m.infos), View(m)))
    ensures View(m').pending == View(m).pending
    ensures status == SyncChecksum ==>
              Completed(m', m.rx.packet) && PacketIn(m'.infos, m'.memory, m.rx.packet) == View(m).rx.p
  {
    OfferIsRoom(m);
    if m'.rx.Filling() {
      FillKeeps(m.infos, m.memory, m'.memory, m.pending, m'.rx.op);
    }
  }

  function Queued(m: Machine, packet: nat): Machine
    requires Good(m) && Completed(m, packet)
  {
    m.(infos := PutInfo(m.infos, m.memory[packet]), pending := m.pending + [packet])
  }

  lemma PutConfig(infos: Infos, t: nat)
    requires t in infos
    ensures ConfigOf(PutInfo(infos, t)) == ConfigOf(infos)
  {
    assert forall u :: u in infos ==> ConfigOf(PutInfo(infos, t))[u] == ConfigOf(infos)[u];
  }

  lemma GetConfig(infos: Infos, t: nat)
    requires t in infos && infos[t].ring.size > 0
    ensures ConfigOf(GetInfo(infos, t)) == ConfigOf(infos)
  {
    assert forall u :: u in infos ==> ConfigOf(GetInfo(infos, t))[u] == ConfigOf(infos)[u];
  }

  lemma QueueKeeps(m: Machine, packet: nat)
    requires Good(m) && Completed(m, packet) && |m.pending| < PENDING_PACKETS_MAX
    ensures var m' := Queued(m, packet);
            && Good(m') && ConfigOf(m'.infos) == ConfigOf(m.infos)
            && View(m') == State(View(m).rx, View(m).pending + [PacketIn(m.infos, m.memory, packet)])
  {
    PutKeeps(m.infos, m.memory, m.pending, m.memory[packet]);
    hide Refines, Framed, Receiver, Packets, ConfigOf;
    PutConfig(m.infos, m.memory[packet]);
  }

  /** One iteration of the drain loop, for the queue from that iteration's packet on. */
  function Drained(m: Machine): Machine
    requires Good(m) && |m.pending| > 0
    requires PacketAt(m.infos, m.memory, m.pending[0]) && m.infos[m.memory[m.pending[0]]].ring.size > 0
  {
    m.(infos := GetInfo(m.infos, m.memory[m.pending[0]]), pending := m.pending[1..])
  }

  lemma DrainKeeps(m: Machine)
    requires Good(m) && |m.pending| > 0
    ensures PacketAt(m.infos, m.memory, m.pending[0])
    ensures var info := m.infos[m.memory[m.pending[0]]];
            info.ring.size > 0 && info.ring.start < |info.buffers| && m.pending[0] == info.buffers[info.ring.start]
    ensures var m' := Drained(m);
            Good(m') && ConfigOf(m'.infos) == ConfigOf(m.infos) && View(m') == State(View(m).rx, View(m).pending[1..])
    ensures View(m).pending[0] == PacketIn(m.infos, m.memory, m.pending[0])
    ensures HasAction(ConfigOf(m.infos), View(m).pending[0]) <==> m.infos[m.memory[m.pending[0]]].action
  {
    GetKeeps(m.infos, m.memory, m.pending);
    var t := m.memory[m.pending[0]];
    assert ValidInfo(m.infos[t], |m.memory|);
    assert FillsEnd(GetInfo(m.infos, t), |m.memory|, m.rx);
    hide Refines, Framed, Receiver, FillsEnd;
    GetConfig(m.infos, t);
  }

  /** `n` bytes from `at` do not meet any buffer of a type other than `t`. */
  predicate RegionFree(infos: Infos, t: nat, at: nat, n: nat) {
    forall u, i :: u in infos && u != t && 0 <= i < |infos[u].buffers| ==>
      Apart(at, n, infos[u].buffers[i], infos[u].size)
  }

  /** The packet_infos entry written by installPacket: `n` consecutive buffers from `at`, an empty ring. */
  function Installed(at: nat, size: nat, n: nat, action: bool): PacketInfo {
    PacketInfo(size, seq(n, (i: nat) => at + i * size), Ring(0, 0, 0), action)
  }

  lemma ConsecutiveApart(at: nat, size: nat, i: nat, j: nat)
    requires i < j
    ensures at + i * size + size <= at + j * size
  {
    assert at + j * size == at + i * size + size + (j - i - 1) * size;
  }

  /** The rings of every type are empty. */
  lemma NothingPending(m: Machine)
    requires Good(m) && m.pending == []
    ensures forall t :: t in m.infos ==> m.infos[t].ring.size == 0
  {
    forall t | t in m.infos
      ensures m.infos[t].ring.size == 0
    {
      EmptyRings(m.infos, m.memory, t);
    }
  }

  lemma InstallKeeps(m: Machine, t: nat, at: nat, size: nat, n: nat, action: bool)
    requires Good(m) && m.pending == [] && !m.rx.Filling()
    requires t < PACKET_TYPE_MAX && 3 <= size <= 254 && n > 0
    requires at + n * size <= |m.memory| && RegionFree(m.infos, t, at, n * size)
    ensures var m' := m.(operations := m.operations[t := size], infos := m.infos[t := Installed(at, size, n, action)]);
            && Good(m') && View(m') == State(View(m).rx, [])
            && ConfigOf(m'.infos) == ConfigOf(m.infos)[t := TypeConfig(size, n, action)]
  {
    FramedInstall(m.operations, m.memory, m.rx, t, size);
    NothingPending(m);
    InstallRefines(m.infos, m.memory, t, at, size, n, action);
    InstalledConfig(m.infos, t, Installed(at, size, n, action));
    hide Framed, Receiver, Refines, RegionFree, ConfigOf, SizesOf;
  }

  lemma InstalledConfig(infos: Infos, t: nat, info: PacketInfo)
    ensures ConfigOf(infos[t := info]) == ConfigOf(infos)[t := TypeConfig(info.size, |info.buffers|, info.action)]
    ensures SizesOf(ConfigOf(infos[t := info])) == SizesOf(ConfigOf(infos))[t := info.size]
  {
  }

  lemma InstallRefines(infos: Infos, memory: seq<byte>, t: nat, at: nat, size: nat, n: nat, action: bool)
    requires Refines(infos, memory, []) && forall u :: u in infos ==> infos[u].ring.size == 0
    requires t < PACKET_TYPE_MAX && 3 <= size <= 254 && n > 0
    requires at + n * size <= |memory| && RegionFree(infos, t, at, n * size)
    ensures Refines(infos[t := Installed(at, size, n, action)], memory, [])
  {
    var infos' := infos[t := Installed(at, size, n, action)];
    InstalledValid(infos, t, at, size, n, action, |memory|);
    assert Refs(infos', memory, []) == [];
    forall u | u in infos'
      ensures Rings.Valid(infos'[u].ring, |infos'[u].buffers|) && Project([], u) == RingQueue(infos'[u])
    {
      assert ValidInfo(infos'[u], |memory|);
    }
  }

  lemma FramedInstall(operations: Sizes, memory: seq<byte>, r: Registers, t: nat, size: nat)
    requires Framed(operations, memory, r) && !r.Filling()
    requires t < PACKET_TYPE_MAX && 3 <= size <= 254
    ensures Framed(operations[t := size], memory, r)
    ensures Receiver(operations[t := size], memory, r) == Receiver(operations, memory, r)
  {
  }

  lemma InstalledValid(infos: Infos, t: nat, at: nat, size: nat, n: nat, action: bool, memorySize: nat)
    requires ValidInfos(infos, memorySize) && t < PACKET_TYPE_MAX && 3 <= size <= 254 && n > 0
    requires at + n * size <= memorySize && RegionFree(infos, t, at, n * size)
    ensures ValidInfos(infos[t := Installed(at, size, n, action)], memorySize)
  {
    var info := Installed(at, size, n, action);
    var infos' := infos[t := info];
    forall i | 0 <= i < n
      ensures at <= info.buffers[i] && info.buffers[i] + size <= at + n * size
    {
      ConsecutiveApart(at, size, i, n);
      assert info.buffers[i] == at + i * size;
    }
    assert ValidInfo(info, memorySize);
    forall u, v | u in infos' && v in infos'
      ensures BuffersApart(infos', u, v)
    {
      if u != t && v != t {
        assert BuffersApart(infos, u, v);
      } else if u == t && v == t {
        forall i, j | 0 <= i < n && 0 <= j < n && i != j
          ensures Apart(info.buffers[i], size, info.buffers[j], size)
        {
          if i < j {
            ConsecutiveApart(at, size, i, j);
          } else {
            ConsecutiveApart(at, size, j, i);
          }
        }
      }
    }
  }
}
