/**
 * The per-type packet rings and the global pending queue of a deferred handler as values, with the
 * refinement invariant between them: the queue restricted to a type is that type's ring.
 */
module PacketRings {
  import opened Bytes
  import opened Framing
  import opened Rings
  import opened RxRegisters

  /** One entry of packet_infos; the ring capacity is the number of buffers. */
  datatype PacketInfo = PacketInfo(size: nat, buffers: seq<nat>, ring: Ring, action: bool)

  type Infos = map<nat, PacketInfo>

  predicate Apart(a: nat, n: nat, b: nat, m: nat) {
    a + n <= b || b + m <= a
  }

  predicate ValidInfo(info: PacketInfo, memorySize: nat) {
    && 3 <= info.size <= 254
    && |info.buffers| > 0
    && Rings.Valid(info.ring, |info.buffers|)
    && forall i :: 0 <= i < |info.buffers| ==> info.buffers[i] + info.size <= memorySize
  }

  /** The buffers of the two types occupy distinct stretches of memory. */
  predicate BuffersApart(infos: Infos, t: nat, u: nat)
    requires t in infos && u in infos
  {
    forall i, j :: 0 <= i < |infos[t].buffers| && 0 <= j < |infos[u].buffers| && (t != u || i != j)
      ==> Apart(infos[t].buffers[i], infos[t].size, infos[u].buffers[j], infos[u].size)
  }

  predicate ValidInfos(infos: Infos, memorySize: nat) {
    && (forall t :: t in infos ==> t < PACKET_TYPE_MAX && ValidInfo(infos[t], memorySize))
    && (forall t, u :: t in infos && u in infos ==> BuffersApart(infos, t, u))
  }

  /** A type's ring read from `start` for `size` slots modulo the capacity. */
  function RingQueue(info: PacketInfo): (q: seq<nat>)
    requires Rings.Valid(info.ring, |info.buffers|)
    ensures |q| == info.ring.size
  {
    Contents(info.buffers, info.ring, |info.buffers|)
  }

  /** BUFFER_PUT on the ring of `t`. */
  function PutInfo(infos: Infos, t: nat): Infos
    requires t in infos
  {
    infos[t := infos[t].(ring := Put(infos[t].ring, |infos[t].buffers|))]
  }

  /** BUFFER_GET on the ring of `t`. */
  function GetInfo(infos: Infos, t: nat): Infos
    requires t in infos && infos[t].ring.size > 0
  {
    infos[t := infos[t].(ring := Get(infos[t].ring, |infos[t].buffers|))]
  }

  /** The buffer _initializeBuffer offers: the one at `end`, if the ring is not full. */
  function FillSlot(info: PacketInfo): nat
    requires Rings.Valid(info.ring, |info.buffers|)
  {
    info.buffers[info.ring.end]
  }

  /** A pending packet: its address and the type read from the first byte there. */
  datatype Ref = Ref(t: nat, p: nat)

  /** The pending queue restricted to one type. */
  function Project(refs: seq<Ref>, t: nat): seq<nat> {
    if |refs| == 0 then []
    else (if refs[0].t == t then [refs[0].p] else []) + Project(refs[1..], t)
  }

  /** The refinement invariant. */
  predicate Matches(infos: Infos, refs: seq<Ref>) {
    && (forall k :: 0 <= k < |refs| ==> refs[k].t in infos)
    && (forall t :: t in infos ==>
          Rings.Valid(infos[t].ring, |infos[t].buffers|) && Project(refs, t) == RingQueue(infos[t]))
  }

  lemma {:induction false} ProjectAppend(refs: seq<Ref>, r: Ref, t: nat)
    ensures Project(refs + [r], t) == Project(refs, t) + if r.t == t then [r.p] else []
  {
    var longer := refs + [r];
    if |refs| == 0 {
      assert longer[1..] == [];
    } else {
      assert longer[1..] == refs[1..] + [r];
      ProjectAppend(refs[1..], r, t);
      var first, last := if refs[0].t == t then [refs[0].p] else [], if r.t == t then [r.p] else [];
      Associate(first, Project(refs[1..], t), last);
    }
  }

  lemma {:induction false} ProjectMember(refs: seq<Ref>, k: nat)
    requires k < |refs|
    ensures refs[k].p in Project(refs, refs[k].t)
  {
    if k > 0 {
      ProjectMember(refs[1..], k - 1);
    }
  }

  /** Queueing the packet just completed at the end of its ring keeps the refinement. */
  lemma MatchesPut(infos: Infos, refs: seq<Ref>, t: nat)
    requires Matches(infos, refs)
    requires t in infos && infos[t].ring.size < |infos[t].buffers|
    ensures Matches(PutInfo(infos, t), refs + [Ref(t, FillSlot(infos[t]))])
  {
    var info := infos[t];
    var p := FillSlot(info);
    PutContents(info.buffers, info.ring, |info.buffers|, p);
    assert info.buffers[info.ring.end := p] == info.buffers;
    forall u | u in infos
      ensures Project(refs + [Ref(t, p)], u) == Project(refs, u) + if u == t then [p] else []
    {
      ProjectAppend(refs, Ref(t, p), u);
    }
  }

  /** The oldest pending packet is the first of its own ring; releasing it there keeps the refinement. */
  lemma MatchesGet(infos: Infos, refs: seq<Ref>)
    requires Matches(infos, refs) && |refs| > 0
    ensures var info := infos[refs[0].t];
            info.ring.size > 0 && refs[0].p == info.buffers[info.ring.start]
    ensures Matches(GetInfo(infos, refs[0].t), refs[1..])
  {
    var t := refs[0].t;
    var info := infos[t];
    assert Project(refs, t) == [refs[0].p] + Project(refs[1..], t);
    assert RingQueue(info)[0] == refs[0].p;
    GetContents(info.buffers, info.ring, |info.buffers|);
    forall u | u in infos
      ensures Project(refs[1..], u) == RingQueue(GetInfo(infos, t)[u])
    {
      if u == t {
        assert RingQueue(info)[1..] == RingQueue(GetInfo(infos, t)[t]);
      } else {
        assert Project(refs, u) == Project(refs[1..], u);
      }
    }
  }

  /** The occupancy of the rings of types below `n`. */
  function RingSizes(infos: Infos, n: nat): nat {
    if n == 0 then 0 else RingSizes(infos, n - 1) + if n - 1 in infos then infos[n - 1].ring.size else 0
  }

  /** The projections onto the types below `n` together. */
  function ProjectionSizes(refs: seq<Ref>, n: nat): nat {
    if n == 0 then 0 else ProjectionSizes(refs, n - 1) + |Project(refs, n - 1)|
  }

  lemma {:induction false} ProjectionSizesStep(refs: seq<Ref>, n: nat)
    requires |refs| > 0
    ensures ProjectionSizes(refs, n) == ProjectionSizes(refs[1..], n) + if refs[0].t < n then 1 else 0
  {
    if n > 0 {
      ProjectionSizesStep(refs, n - 1);
    }
  }

  lemma {:induction false} NothingProjected(n: nat)
    ensures ProjectionSizes([], n) == 0
  {
    if n > 0 {
      NothingProjected(n - 1);
    }
  }

  lemma {:induction false} ProjectionsCover(refs: seq<Ref>, n: nat)
    requires forall k :: 0 <= k < |refs| ==> refs[k].t < n
    ensures ProjectionSizes(refs, n) == |refs|
  {
    if |refs| == 0 {
      NothingProjected(n);
    } else {
      ProjectionSizesStep(refs, n);
      ProjectionsCover(refs[1..], n);
    }
  }

  lemma {:induction false} ProjectAbsent(infos: Infos, refs: seq<Ref>, t: nat)
    requires forall k :: 0 <= k < |refs| ==> refs[k].t in infos
    requires t !in infos
    ensures Project(refs, t) == []
  {
    if |refs| > 0 {
      ProjectAbsent(infos, refs[1..], t);
    }
  }

  lemma {:induction false} RingSizesAreProjections(infos: Infos, refs: seq<Ref>, n: nat)
    requires Matches(infos, refs)
    ensures RingSizes(infos, n) == ProjectionSizes(refs, n)
  {
    if n > 0 {
      RingSizesAreProjections(infos, refs, n - 1);
      if n - 1 in infos {
        assert Project(refs, n - 1) == RingQueue(infos[n - 1]);
      } else {
        ProjectAbsent(infos, refs, n - 1);
      }
    }
  }

  /** The ring sizes sum to the length of the pending queue. */
  lemma RingSizesSum(infos: Infos, refs: seq<Ref>, memorySize: nat)
    requires Matches(infos, refs) && ValidInfos(infos, memorySize)
    ensures RingSizes(infos, PACKET_TYPE_MAX) == |refs|
  {
    RingSizesAreProjections(infos, refs, PACKET_TYPE_MAX);
    ProjectionsCover(refs, PACKET_TYPE_MAX);
  }

  // ---- the packets in memory

  predicate PacketAt(infos: Infos, memory: seq<byte>, p: nat) {
    && p + 2 <= |memory|
    && memory[p] in infos
    && infos[memory[p]].size == memory[p + 1]
    && p + memory[p + 1] <= |memory|
  }

  predicate PacketsAt(infos: Infos, memory: seq<byte>, pending: seq<nat>) {
    forall k :: 0 <= k < |pending| ==> PacketAt(infos, memory, pending[k])
  }

  function PacketIn(infos: Infos, memory: seq<byte>, p: nat): (packet: Packet)
    requires PacketAt(infos, memory, p)
    ensures |packet| == memory[p + 1]
  {
    memory[p..p + memory[p + 1]]
  }

  /** The bytes of the pending packets, oldest first. */
  function Packets(infos: Infos, memory: seq<byte>, pending: seq<nat>): (ps: seq<Packet>)
    requires PacketsAt(infos, memory, pending)
    ensures |ps| == |pending|
    ensures forall k :: 0 <= k < |ps| ==> ps[k] == PacketIn(infos, memory, pending[k])
  {
    seq(|pending|, k requires 0 <= k < |pending| => PacketIn(infos, memory, pending[k]))
  }

  function Refs(infos: Infos, memory: seq<byte>, pending: seq<nat>): (refs: seq<Ref>)
    requires PacketsAt(infos, memory, pending)
    ensures |refs| == |pending|
    ensures forall k :: 0 <= k < |refs| ==> refs[k] == Ref(memory[pending[k]], pending[k])
  {
    seq(|pending|, k requires 0 <= k < |pending| && PacketAt(infos, memory, pending[k]) => Ref(memory[pending[k]], pending[k]))
  }

  predicate Refines(infos: Infos, memory: seq<byte>, pending: seq<nat>) {
    && ValidInfos(infos, |memory|)
    && PacketsAt(infos, memory, pending)
    && Matches(infos, Refs(infos, memory, pending))
  }

  /** The buffer the ring of `t` would fill next is not one still awaiting processing, nor overlaps one. */
  lemma FillSlotApart(infos: Infos, memory: seq<byte>, pending: seq<nat>, t: nat, k: nat)
    requires Refines(infos, memory, pending)
    requires t in infos && infos[t].ring.size < |infos[t].buffers|
    requires k < |pending|
    ensures PacketAt(infos, memory, pending[k])
    ensures Apart(pending[k], memory[pending[k] + 1], FillSlot(infos[t]), infos[t].size)
  {
    var refs := Refs(infos, memory, pending);
    var p, u := refs[k].p, refs[k].t;
    ProjectMember(refs, k);
    var queue := RingQueue(infos[u]);
    assert p in queue;
    var j :| 0 <= j < |queue| && queue[j] == p;
    var i := Slots(infos[u].ring, |infos[u].buffers|)[j];
    PutSlots(infos[t].ring, |infos[t].buffers|);
    assert u != t || i != infos[t].ring.end;
    assert BuffersApart(infos, u, t);
    assert PacketAt(infos, memory, p);
  }

  /** Writing inside the buffer being filled changes neither the queue, nor any ring, nor a pending byte. */
  lemma FillKeeps(infos: Infos, memory: seq<byte>, memory': seq<byte>, pending: seq<nat>, t: nat)
    requires Refines(infos, memory, pending)
    requires t in infos && infos[t].ring.size < |infos[t].buffers|
    requires SameOutside(memory, memory', FillSlot(infos[t]), infos[t].size)
    ensures Refines(infos, memory', pending)
    ensures Packets(infos, memory', pending) == Packets(infos, memory, pending)
  {
    forall k | 0 <= k < |pending|
      ensures PacketAt(infos, memory', pending[k]) && memory[pending[k]] == memory'[pending[k]]
      ensures PacketIn(infos, memory', pending[k]) == PacketIn(infos, memory, pending[k])
    {
      FillSlotApart(infos, memory, pending, t, k);
      SliceSame(memory, memory', pending[k], memory[pending[k] + 1], FillSlot(infos[t]), infos[t].size);
    }
    assert Refs(infos, memory', pending) == Refs(infos, memory, pending);
  }

  lemma SliceSame(memory: seq<byte>, memory': seq<byte>, p: nat, n: nat, at: nat, size: nat)
    requires SameOutside(memory, memory', at, size)
    requires p + n <= |memory| && n >= 2 && Apart(p, n, at, size)
    ensures memory'[p..p + n] == memory[p..p + n]
    ensures memory'[p] == memory[p] && memory'[p + 1] == memory[p + 1]
  {
  }

  /** _onReceive with room in the queue: the completed packet joins the queue and its ring. */
  lemma PutKeeps(infos: Infos, memory: seq<byte>, pending: seq<nat>, t: nat)
    requires Refines(infos, memory, pending)
    requires t in infos && infos[t].ring.size < |infos[t].buffers|
    requires memory[FillSlot(infos[t])] == t && memory[FillSlot(infos[t]) + 1] == infos[t].size
    ensures var p := FillSlot(infos[t]);
            && Refines(PutInfo(infos, t), memory, pending + [p])
            && PacketAt(infos, memory, p)
            && Packets(PutInfo(infos, t), memory, pending + [p])
               == Packets(infos, memory, pending) + [PacketIn(infos, memory, p)]
  {
    hide Matches, RingQueue, Project, Packets, Refs, BuffersApart, Apart;
    var p := FillSlot(infos[t]);
    var infos' := PutInfo(infos, t);
    MatchesPut(infos, Refs(infos, memory, pending), t);
    PutValid(infos, memory, t);
    AppendPacket(infos, infos', memory, pending, p);
  }

  lemma PutValid(infos: Infos, memory: seq<byte>, t: nat)
    requires ValidInfos(infos, |memory|)
    requires t in infos && infos[t].ring.size < |infos[t].buffers|
    requires memory[FillSlot(infos[t])] == t && memory[FillSlot(infos[t]) + 1] == infos[t].size
    ensures ValidInfos(PutInfo(infos, t), |memory|) && PacketAt(infos, memory, FillSlot(infos[t]))
  {
    PutSlots(infos[t].ring, |infos[t].buffers|);
    ValidAfter(infos, PutInfo(infos, t), |memory|);
    assert ValidInfo(infos[t], |memory|);
  }

  lemma AppendPacket(infos: Infos, infos': Infos, memory: seq<byte>, pending: seq<nat>, p: nat)
    requires PacketsAt(infos, memory, pending) && PacketAt(infos, memory, p)
    requires infos'.Keys == infos.Keys && forall t :: t in infos ==> infos'[t].size == infos[t].size
    ensures PacketsAt(infos', memory, pending + [p])
    ensures Refs(infos', memory, pending + [p]) == Refs(infos, memory, pending) + [Ref(memory[p], p)]
    ensures Packets(infos', memory, pending + [p]) == Packets(infos, memory, pending) + [PacketIn(infos, memory, p)]
  {
    forall k | 0 <= k < |pending + [p]|
      ensures PacketAt(infos', memory, (pending + [p])[k])
    {
    }
  }

  /** One iteration of the drain loop; the first conclusion is the assert of the source. */
  lemma GetKeeps(infos: Infos, memory: seq<byte>, pending: seq<nat>)
    requires Refines(infos, memory, pending) && |pending| > 0
    ensures PacketAt(infos, memory, pending[0])
    ensures var info := infos[memory[pending[0]]];
            info.ring.size > 0 && pending[0] == info.buffers[info.ring.start]
    ensures Refines(GetInfo(infos, memory[pending[0]]), memory, pending[1..])
    ensures Packets(GetInfo(infos, memory[pending[0]]), memory, pending[1..]) == Packets(infos, memory, pending)[1..]
  {
    var refs := Refs(infos, memory, pending);
    MatchesGet(infos, refs);
    var t := refs[0].t;
    var infos' := GetInfo(infos, t);
    GetSlots(infos[t].ring, |infos[t].buffers|);
    ValidAfter(infos, infos', |memory|);
    assert PacketAt(infos, memory, pending[0]);
    DropPacket(infos, infos', memory, pending);
  }

  lemma DropPacket(infos: Infos, infos': Infos, memory: seq<byte>, pending: seq<nat>)
    requires PacketsAt(infos, memory, pending) && |pending| > 0
    requires infos'.Keys == infos.Keys && forall t :: t in infos ==> infos'[t].size == infos[t].size
    ensures PacketsAt(infos', memory, pending[1..])
    ensures Refs(infos', memory, pending[1..]) == Refs(infos, memory, pending)[1..]
    ensures Packets(infos', memory, pending[1..]) == Packets(infos, memory, pending)[1..]
  {
    forall k | 0 <= k < |pending[1..]|
      ensures PacketAt(infos', memory, pending[1..][k])
    {
      assert PacketAt(infos, memory, pending[k + 1]);
    }
  }

  /** Validity depends on the rings only through their own validity. */
  lemma ValidAfter(infos: Infos, infos': Infos, memorySize: nat)
    requires ValidInfos(infos, memorySize)
    requires infos.Keys == infos'.Keys
    requires forall t :: t in infos ==> infos'[t].size == infos[t].size && infos'[t].buffers == infos[t].buffers
    requires forall t :: t in infos ==> Rings.Valid(infos'[t].ring, |infos'[t].buffers|)
    ensures ValidInfos(infos', memorySize)
  {
    forall t | t in infos
      ensures ValidInfo(infos'[t], memorySize)
    {
      assert ValidInfo(infos[t], memorySize);
    }
    forall t, u | t in infos' && u in infos'
      ensures BuffersApart(infos', t, u)
    {
      assert BuffersApart(infos, t, u);
    }
  }

  lemma {:induction false} CountIsProjection(ps: seq<Packet>, refs: seq<Ref>, t: nat)
    requires |ps| == |refs|
    requires forall k :: 0 <= k < |refs| ==> |ps[k]| > 0 && ps[k][0] == refs[k].t
    ensures CountType(ps, t) == |Project(refs, t)|
  {
    if |refs| > 0 {
      CountIsProjection(ps[1..], refs[1..], t);
    }
  }

  /** A ring is as full as there are packets of its type pending. */
  lemma RingSizeIsCount(infos: Infos, memory: seq<byte>, pending: seq<nat>, t: nat)
    requires Refines(infos, memory, pending) && t in infos
    ensures infos[t].ring.size == CountType(Packets(infos, memory, pending), t)
  {
    var refs := Refs(infos, memory, pending);
    var ps := Packets(infos, memory, pending);
    forall k | 0 <= k < |refs|
      ensures |ps[k]| > 0 && ps[k][0] == refs[k].t
    {
      assert PacketAt(infos, memory, pending[k]);
      assert ValidInfo(infos[memory[pending[k]]], |memory|);
    }
    CountIsProjection(ps, refs, t);
    assert Project(refs, t) == RingQueue(infos[t]);
  }

  /** Once nothing is pending every ring is empty. */
  lemma EmptyRings(infos: Infos, memory: seq<byte>, t: nat)
    requires Refines(infos, memory, []) && t in infos
    ensures infos[t].ring.size == 0
  {
    RingSizeIsCount(infos, memory, [], t);
  }
}
