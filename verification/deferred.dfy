/**
 * The deferred packet handler seen from outside: a receiver and one queue of packets, without
 * memory, buffers or rings.  Module DeferredPacketHandlers proves that the handler of
 * src/common/deferred_packet_handler.c behaves like this.
 */
module Deferred {
  import opened Bytes
  import opened Framing

  const PENDING_PACKETS_MAX: nat := 8

  /** What installPacket fixes for a type. */
  datatype TypeConfig = TypeConfig(size: nat, buffers: nat, action: bool)

  type Config = map<nat, TypeConfig>

  function SizesOf(config: Config): (sizes: Sizes)
    ensures sizes.Keys == config.Keys
  {
    map t | t in config :: config[t].size
  }

  datatype State = State(rx: Rx, pending: seq<Packet>)

  ghost predicate WellFormedState(config: Config, s: State) {
    && ValidSizes(SizesOf(config))
    && WellFormed(SizesOf(config), s.rx)
    && |s.pending| <= PENDING_PACKETS_MAX
    && forall k :: 0 <= k < |s.pending| ==> Registered(SizesOf(config), s.pending[k])
  }

  /** A buffer is offered while fewer packets of the type are pending than it has buffers. */
  predicate Room(config: Config, s: State) {
    s.rx.WaitSize? && s.rx.t in config && CountType(s.pending, s.rx.t) < config[s.rx.t].buffers
  }

  /** One received byte: a completed packet joins the queue unless the queue is full. */
  function Receive(config: Config, s: State, c: byte): (r: (State, PacketStatus))
    requires WellFormed(SizesOf(config), s.rx)
  {
    var (rx, status) := Step(SizesOf(config), s.rx, c, Room(config, s));
    (State(rx, if status == SyncChecksum && |s.pending| < PENDING_PACKETS_MAX then s.pending + [s.rx.p] else s.pending),
     status)
  }

  lemma ReceiveKeeps(config: Config, s: State, c: byte)
    requires WellFormedState(config, s)
    ensures WellFormedState(config, Receive(config, s, c).0)
  {
    StepKeepsWellFormed(SizesOf(config), s.rx, c, Room(config, s));
  }

  /** A stretch of input: the state after it, and how many bytes were answered SyncChecksum or an error. */
  datatype Flushed = Flushed(state: State, checksums: nat, errors: nat)

  function ReceiveAll(config: Config, s: State, input: seq<byte>): (f: Flushed)
    requires ValidSizes(SizesOf(config)) && WellFormed(SizesOf(config), s.rx)
    ensures WellFormed(SizesOf(config), f.state.rx)
  {
    if |input| == 0 then Flushed(s, 0, 0)
    else
      var f := ReceiveAll(config, s, input[..|input| - 1]);
      var c := input[|input| - 1];
      StepKeepsWellFormed(SizesOf(config), f.state.rx, c, Room(config, f.state));
      var (s', status) := Receive(config, f.state, c);
      Flushed(s', f.checksums + (if status == SyncChecksum then 1 else 0), f.errors + if status.IsError() then 1 else 0)
  }

  lemma ReceiveNothing(config: Config, s: State)
    requires ValidSizes(SizesOf(config)) && WellFormed(SizesOf(config), s.rx)
    ensures ReceiveAll(config, s, []) == Flushed(s, 0, 0)
  {
  }

  lemma ReceiveMore(config: Config, s: State, input: seq<byte>, k: nat)
    requires ValidSizes(SizesOf(config)) && WellFormed(SizesOf(config), s.rx) && k < |input|
    ensures var f := ReceiveAll(config, s, input[..k]);
            var f' := ReceiveAll(config, s, input[..k + 1]);
            var (s', status) := Receive(config, f.state, input[k]);
            && f'.state == s'
            && f'.checksums == f.checksums + (if status == SyncChecksum then 1 else 0)
            && f'.errors == f.errors + if status.IsError() then 1 else 0
  {
    hide Receive, PacketStatus.IsError;
    assert input[..k + 1][..k] == input[..k];
  }

  /** The queue grows by one packet per checksum-valid frame, as long as it is not full. */
  lemma {:induction false} QueueGrowth(config: Config, s: State, input: seq<byte>)
    requires WellFormedState(config, s)
    ensures var f := ReceiveAll(config, s, input);
            && WellFormedState(config, f.state)
            && |f.state.pending| == (if |s.pending| + f.checksums <= PENDING_PACKETS_MAX then |s.pending| + f.checksums
                                     else PENDING_PACKETS_MAX)
            && s.pending <= f.state.pending
  {
    if |input| > 0 {
      var n := |input| - 1;
      QueueGrowth(config, s, input[..n]);
      ReceiveKeeps(config, ReceiveAll(config, s, input[..n]).state, input[n]);
    }
  }

  /** After how many bytes of `input` the receiver waits for a frame to begin. */
  function HuntingAfter(config: Config, s: State, input: seq<byte>): nat
    requires ValidSizes(SizesOf(config)) && WellFormed(SizesOf(config), s.rx)
  {
    if |input| == 0 then 0
    else
      HuntingAfter(config, s, input[..|input| - 1]) + if ReceiveAll(config, s, input).state.rx == WaitAA then 1 else 0
  }

  /** Every byte that leaves the receiver hunting is counted once, as the end of a packet or as an error. */
  lemma {:induction false} ErrorsCounted(config: Config, s: State, input: seq<byte>)
    requires ValidSizes(SizesOf(config)) && WellFormed(SizesOf(config), s.rx)
    ensures var f := ReceiveAll(config, s, input); f.checksums + f.errors == HuntingAfter(config, s, input)
  {
    if |input| > 0 {
      var n := |input| - 1;
      ErrorsCounted(config, s, input[..n]);
      assert input[..n + 1] == input;
      ReceiveMore(config, s, input, n);
      var before := ReceiveAll(config, s, input[..n]).state;
      ErrorsTellWhy(SizesOf(config), before.rx, input[n], Room(config, before));
      hide PacketStatus.IsError, Step;
    }
  }

  predicate HasAction(config: Config, p: Packet) {
    |p| > 0 && p[0] in config && config[p[0]].action
  }

  /** The packets handed to deferred actions when `ps` are processed in order. */
  function Calls(config: Config, ps: seq<Packet>): seq<Packet> {
    if |ps| == 0 then []
    else Calls(config, ps[..|ps| - 1]) + if HasAction(config, ps[|ps| - 1]) then [ps[|ps| - 1]] else []
  }

  lemma CallsPrefix(config: Config, ps: seq<Packet>, k: nat)
    requires k < |ps|
    ensures Calls(config, ps[..k + 1]) == Calls(config, ps[..k]) + if HasAction(config, ps[k]) then [ps[k]] else []
  {
    assert ps[..k + 1][..k] == ps[..k];
  }
}
