/**
 * src/client/orazio_client.c: the client over a byte-level packet handler with one packet buffer.
 * The mutexes make each method atomic; the serial line is a queue of bytes in each direction.
 */
module Client {
  import opened Bytes
  import opened Epoch
  import opened Framing
  import opened Link
  import opened Mirror
  import opened PacketHandlers
  import Rings
  import opened RxRegisters
  import opened Wrappers

  /** packet_sizes: the packets the client may send. */
  const OUT_SIZES: Sizes := map[1 := 6, 3 := 25, 5 := 10, 6 := 36, 8 := 12, 9 := 38]

  function OutSize(t: byte): nat {
    if t in OUT_SIZES then OUT_SIZES[t] else 0
  }

  /** What the server accepts is what the client may send, and the other way round. */
  lemma SizesAgree()
    ensures OUT_SIZES == Deferred.SizesOf(SERVER_CONFIG)
  {
  }

  /** The answer of the sending function before it looks at the transmit ring. */
  function Checked(p: Packet): (status: PacketStatus)
    requires |p| >= 2
    ensures status in [UnknownType, InvalidSize, Success]
  {
    if p[0] >= PACKET_TYPE_MAX || OutSize(p[0]) == 0 then UnknownType
    else if p[1] != OutSize(p[0]) then InvalidSize
    else Success
  }

  /** There is a variable of the right size for every packet the client reads. */
  predicate Variables(m: Mirrors) {
    forall t :: t in CLIENT_SIZES ==> t in m && |m[t]| == CLIENT_SIZES[t]
  }

  predicate ValidMirrors(m: Mirrors) {
    Variables(m) && HasHeader(m[RESPONSE], RESPONSE) && HasHeader(m[END_EPOCH], END_EPOCH)
  }

  /** The packet variables OrazioClient_init sets up; no packet is of type PACKET_TYPE_MAX. */
  function Initial(variables: Mirrors): (m: Mirrors)
    requires Variables(variables)
    ensures ValidMirrors(m) && Answers(m[RESPONSE]) == (PACKET_TYPE_MAX, 0) && Seq(m[END_EPOCH]) == 0
  {
    var response := [RESPONSE, 8, 0, 0, PACKET_TYPE_MAX, 0, 0, variables[RESPONSE][7]];
    variables[RESPONSE := response][END_EPOCH := [END_EPOCH, 4, 0, 0]]
  }

  lemma {:induction false} ReflectKeeps(m: Mirrors, ps: seq<Packet>)
    requires ValidMirrors(m) && forall k :: 0 <= k < |ps| ==> Registered(CLIENT_SIZES, ps[k])
    ensures ValidMirrors(Reflect(m, ps))
  {
    if |ps| > 0 {
      ReflectKeeps(m, ps[..|ps| - 1]);
    }
  }

  /** The packet buffer has room for every packet the client reads. */
  lemma BufferFits(memory: seq<byte>, r: Registers)
    requires Framed(CLIENT_SIZES, memory, r) && r.fn.FnSize?
    ensures r.op in CLIENT_SIZES && CLIENT_SIZES[r.op] <= BUFFER_SIZE_MAX
  {
  }

  lemma ReflectOne(m: Mirrors, p: Packet)
    requires |p| > 0
    ensures Reflect(m, [p]) == m[p[0] := p]
  {
    assert [p][..0] == [];
  }

  /** The mirrored response names a packet of this type and sequence number. */
  predicate Names(m: Mirrors, t: byte, seqNo: nat) {
    RESPONSE in m && HasHeader(m[RESPONSE], RESPONSE) && Answers(m[RESPONSE]) == (t, seqNo)
  }

  /** It does so once the first `k` of `ps` have been read. */
  predicate NamedAfter(m: Mirrors, ps: seq<Packet>, k: nat, t: byte, seqNo: nat)
    requires k <= |ps|
  {
    Names(Reflect(m, ps[..k]), t, seqNo)
  }

  predicate NotNamedWithin(m: Mirrors, ps: seq<Packet>, n: nat, t: byte, seqNo: nat)
    requires n <= |ps|
  {
    forall k :: 0 < k <= n ==> !NamedAfter(m, ps, k, t, seqNo)
  }

  /**
   * What waiting for the answer to a packet means when `ahead` is what the line holds: it ends after `n`
   * packets, with Success at the first that leaves a response naming the packet, with Timeout if none of
   * the first `timeout` does, and without a result if there are fewer.
   */
  predicate Awaited(m: Mirrors, ahead: seq<Packet>, t: byte, seqNo: nat, timeout: int,
                    result: Option<PacketStatus>, n: nat)
  {
    && n <= |ahead|
    && match result
       case Some(Success) =>
         0 < n <= timeout && NamedAfter(m, ahead, n, t, seqNo) && NotNamedWithin(m, ahead, n - 1, t, seqNo)
       case Some(Timeout) =>
         n == (if timeout > 0 then timeout else 0) && NotNamedWithin(m, ahead, n, t, seqNo)
       case Some(_) => false
       case None => n == |ahead| < timeout && NotNamedWithin(m, ahead, n, t, seqNo)
  }

  /** Waiting succeeds exactly if one of the first `timeout` packets leaves a response naming the packet. */
  lemma SucceedsIffNamed(m: Mirrors, ahead: seq<Packet>, t: byte, seqNo: nat, timeout: int,
                         result: Option<PacketStatus>, n: nat)
    requires Awaited(m, ahead, t, seqNo, timeout, result, n)
    ensures result == Some(Success) <==> exists k :: 0 < k <= |ahead| && k <= timeout && NamedAfter(m, ahead, k, t, seqNo)
    ensures result == None ==> timeout > |ahead|
  {
    hide NamedAfter;
    if result != Some(Success) {
      forall k | 0 < k <= |ahead| && k <= timeout
        ensures !NamedAfter(m, ahead, k, t, seqNo)
      {
        assert k <= n;
      }
    }
  }

  /** Reading the first `n` packets of `ahead`, of which `rest` is left, turns the mirrors `m` into `m'`. */
  predicate ReadOn(m: Mirrors, start: seq<Packet>, ahead: seq<Packet>, n: int,
                   m': Mirrors, read: seq<Packet>, rest: seq<Packet>)
  {
    0 <= n <= |ahead| && m' == Reflect(m, ahead[..n]) && read == start + ahead[..n] && rest == ahead[n..]
  }

  lemma AwaitedMeans(m: Mirrors, start: seq<Packet>, ahead: seq<Packet>, m': Mirrors, read: seq<Packet>,
                     rest: seq<Packet>, t: byte, seqNo: nat, timeout: int, result: Option<PacketStatus>)
    requires ReadOn(m, start, ahead, |read| - |start|, m', read, rest)
    requires Awaited(m, ahead, t, seqNo, timeout, result, |read| - |start|)
    ensures start <= read
    ensures result == Some(Success) ==> |read| > |start| && Names(m', t, seqNo)
    ensures result == Some(Timeout) ==> |read| == |start| + (if timeout > 0 then timeout else 0)
  {
  }

  /** The results of a blocking send whose packet has left for the line. */
  predicate Left(result: Option<PacketStatus>) {
    result == None || result == Some(Timeout) || result == Some(Success)
  }

  lemma ReadsNext(m: Mirrors, start: seq<Packet>, ahead: seq<Packet>, n: nat,
                  m': Mirrors, read: seq<Packet>, rest: seq<Packet>)
    requires ReadOn(m, start, ahead, n, m', read, rest) && rest != []
    ensures ReadOn(m, start, ahead, n + 1, Reflect(m', [rest[0]]), read + [rest[0]], rest[1..])
  {
    hide Reflect;
    assert ahead[..n + 1] == ahead[..n] + [rest[0]];
    Associate(start, ahead[..n], [rest[0]]);
    ReflectConcat(m, ahead[..n], [rest[0]]);
  }

  /** Reading the first `n` packets of `ahead` does not change the number of the end of epoch. */
  predicate SameEpochWithin(m: Mirrors, ahead: seq<Packet>, n: int) {
    forall k :: 0 <= k <= n && k <= |ahead| ==> EndSeq(Reflect(m, ahead[..k])) == EndSeq(m)
  }

  /** OrazioClient_sync has read `n` packets without a new end of epoch. */
  predicate InEpoch(m: Mirrors, start: seq<Packet>, ahead: seq<Packet>, n: int,
                    m': Mirrors, read: seq<Packet>, rest: seq<Packet>)
  {
    ReadOn(m, start, ahead, n, m', read, rest) && SameEpochWithin(m, ahead, n)
  }

  lemma InEpochBegins(m: Mirrors, read: seq<Packet>, ahead: seq<Packet>)
    ensures InEpoch(m, read, ahead, 0, m, read, ahead)
  {
  }

  lemma InEpochGoesOn(m: Mirrors, start: seq<Packet>, ahead: seq<Packet>, n: nat,
                      m': Mirrors, read: seq<Packet>, rest: seq<Packet>)
    requires InEpoch(m, start, ahead, n, m', read, rest) && rest != []
    ensures var m'' := Reflect(m', [rest[0]]);
            && ReadOn(m, start, ahead, n + 1, m'', read + [rest[0]], rest[1..])
            && SameEpochWithin(m, ahead, n)
            && (EndSeq(m'') == EndSeq(m) ==> InEpoch(m, start, ahead, n + 1, m'', read + [rest[0]], rest[1..]))
  {
    hide EndSeq, Reflect;
    ReadsNext(m, start, ahead, n, m', read, rest);
  }

  lemma InEpochMeans(m: Mirrors, start: seq<Packet>, ahead: seq<Packet>, n: int,
                     m': Mirrors, read: seq<Packet>, rest: seq<Packet>)
    requires InEpoch(m, start, ahead, n, m', read, rest)
    ensures ReadOn(m, start, ahead, n, m', read, rest) && SameEpochWithin(m, ahead, n)
  {
  }

  /** A blocking send waiting for the answer has read `n` packets without finding it. */
  predicate Waiting(m: Mirrors, start: seq<Packet>, ahead: seq<Packet>, n: int,
                    m': Mirrors, read: seq<Packet>, rest: seq<Packet>, t: byte, seqNo: nat)
  {
    ReadOn(m, start, ahead, n, m', read, rest) && NotNamedWithin(m, ahead, n, t, seqNo)
  }

  lemma WaitingBegins(m: Mirrors, read: seq<Packet>, ahead: seq<Packet>, t: byte, seqNo: nat)
    ensures Waiting(m, read, ahead, 0, m, read, ahead, t, seqNo)
  {
  }

  /** One more packet: the wait ends if it leaves a response that names the packet awaited. */
  lemma WaitingGoesOn(m: Mirrors, start: seq<Packet>, ahead: seq<Packet>, n: nat,
                      m': Mirrors, read: seq<Packet>, rest: seq<Packet>, t: byte, seqNo: nat, timeout: int)
    requires Waiting(m, start, ahead, n, m', read, rest, t, seqNo) && rest != [] && n < timeout
    ensures var m'' := Reflect(m', [rest[0]]);
            && ReadOn(m, start, ahead, n + 1, m'', read + [rest[0]], rest[1..])
            && (Names(m'', t, seqNo) ==> Awaited(m, ahead, t, seqNo, timeout, Some(Success), n + 1))
            && (!Names(m'', t, seqNo) ==> Waiting(m, start, ahead, n + 1, m'', read + [rest[0]], rest[1..], t, seqNo))
  {
    hide Names, Reflect;
    ReadsNext(m, start, ahead, n, m', read, rest);
  }

  lemma WaitingEnds(m: Mirrors, start: seq<Packet>, ahead: seq<Packet>, n: nat,
                    m': Mirrors, read: seq<Packet>, rest: seq<Packet>, t: byte, seqNo: nat, timeout: int)
    requires Waiting(m, start, ahead, n, m', read, rest, t, seqNo)
    ensures rest == [] && n < timeout ==> Awaited(m, ahead, t, seqNo, timeout, None, n)
    ensures n == (if timeout > 0 then timeout else 0) ==> Awaited(m, ahead, t, seqNo, timeout, Some(Timeout), n)
    ensures ReadOn(m, start, ahead, n, m', read, rest)
  {
  }

  /** What the client knows after reading `consumed`. */
  ghost predicate UpToDate(initial: Mirrors, consumed: seq<byte>, rx: Rx, read: seq<Packet>, mirrors: Mirrors) {
    && ValidSizes(CLIENT_SIZES)
    && (rx, read) == Feed(CLIENT_SIZES, WaitAA, consumed)
    && mirrors == Reflect(initial, read)
    && ValidMirrors(mirrors)
  }

  /** One more byte keeps the client up to date, if a packet it completes replaces the mirror of its type. */
  lemma ReadOneMore(initial: Mirrors, consumed: seq<byte>, rx: Rx, read: seq<Packet>, mirrors: Mirrors, c: byte)
    requires UpToDate(initial, consumed, rx, read, mirrors) && WellFormed(CLIENT_SIZES, rx)
    ensures var (rx', status) := Step(CLIENT_SIZES, rx, c, true);
            if status == SyncChecksum
            then |rx.p| > 0 && UpToDate(initial, consumed + [c], rx', read + [rx.p], mirrors[rx.p[0] := rx.p])
            else UpToDate(initial, consumed + [c], rx', read, mirrors)
  {
    hide CLIENT_SIZES, ValidMirrors;
    FeedConcat(CLIENT_SIZES, WaitAA, consumed, [c]);
    FeedOne(CLIENT_SIZES, rx, c);
    var status := Step(CLIENT_SIZES, rx, c, true).1;
    if status == SyncChecksum {
      assert (read + [rx.p])[..|read|] == read;
      OneMirror(mirrors, rx.p);
    } else {
      assert read + [] == read;
    }
  }

  lemma OneMirror(m: Mirrors, p: Packet)
    requires ValidMirrors(m) && Registered(CLIENT_SIZES, p)
    ensures ValidMirrors(m[p[0] := p])
  {
  }

  lemma NothingRead(m: Mirrors)
    requires ValidMirrors(m)
    ensures UpToDate(m, [], WaitAA, [], m)
  {
    ClientSizesValid();
  }

  /** A stream of honest epochs, of which `consumed` is a part. */
  predicate EpochsBehind(es: seq<EpochOf>, consumed: seq<byte>) {
    && (forall i :: 0 <= i < |es| ==> Honest(es[i]))
    && AllRegistered(Stream(es))
    && consumed <= Frames(Stream(es))
  }

  predicate LastIsEnd(read: seq<Packet>) {
    |read| > 0 && |read[|read| - 1]| > 0 && read[|read| - 1][0] == END_EPOCH
  }

  ghost predicate SnapshotOf(es: seq<EpochOf>, m: Mirrors) {
    exists k :: 0 <= k < |es| && Snapshot(m, es[k].seqNo)
  }

  class OrazioClient {
    const base: PacketHandler
    var globalSeq: nat
    /** The packet variables by type. */
    var mirrors: Mirrors
    var driveControlPacket: Packet
    // the serial line
    var incoming: seq<byte>
    var outgoing: seq<byte>
    /** What has been read from the line, and the packets it delivered. */
    ghost var consumed: seq<byte>
    ghost var read: seq<Packet>
    ghost const initial: Mirrors

    ghost predicate Valid()
      reads this, base, base.memory
    {
      && base.Valid() && base.memory.Length == BUFFER_SIZE_MAX
      && base.operations == CLIENT_SIZES
      && globalSeq < 0x1_0000
      && |driveControlPacket| == 12 && driveControlPacket[0] == DRIVE_CONTROL && driveControlPacket[1] == 12
      && UpToDate(initial, consumed, base.Receiver(), read, mirrors)
    }

    /** OrazioClient_init on an open device; `variables` is the uninitialised memory of the packet variables. */
    constructor (variables: Mirrors)
      requires Variables(variables)
      ensures Valid() && fresh(base) && fresh(base.memory) && fresh(base.txBuffer)
      ensures globalSeq == 0 && read == [] && base.TxQueue() == [] && outgoing == []
      ensures Answers(mirrors[RESPONSE]) == (PACKET_TYPE_MAX, 0) && Seq(mirrors[END_EPOCH]) == 0
      ensures Seq(driveControlPacket) == 0
    {
      hide UpToDate, Framed, RxRegisters.Receiver, Rings.Contents, ValidMirrors;
      var memory := new byte[BUFFER_SIZE_MAX];
      base := new PacketHandler(memory);
      globalSeq := 0;
      driveControlPacket := [DRIVE_CONTROL, 12, 0, 0, 0, 0, 0, 0, 0, 0, 0, 0];
      incoming, outgoing, consumed, read := [], [], [], [];
      mirrors, initial := Initial(variables), Initial(variables);
      new;
      NotFilling(base.operations, base.memory[..], base.Rx());
      InstallPacketOps();
      NothingRead(mirrors);
    }

    /** The packets in all the bytes of the line, read or not. */
    ghost function Line(): seq<Packet>
      reads this`consumed, this`incoming
    {
      ClientSizesValid();
      Feed(CLIENT_SIZES, WaitAA, consumed + incoming).1
    }

    /** Those still to be read. */
    ghost function Ahead(): seq<Packet>
      reads this`consumed, this`incoming, this`read
    {
      if |read| <= |Line()| then Line()[|read|..] else []
    }

    /** What has been read is the first part of the line, and all of it when no byte is left. */
    lemma ReadIsPrefix()
      requires Valid()
      ensures Line() == read + Ahead() && (incoming == [] ==> Ahead() == [])
      ensures Ahead() == Feed(CLIENT_SIZES, base.Receiver(), incoming).1
    {
      hide CLIENT_SIZES, Feed, ValidMirrors;
      FeedConcat(CLIENT_SIZES, WaitAA, consumed, incoming);
      if incoming == [] {
        assert consumed + incoming == consumed;
      }
    }

    ghost predicate Listening()
      reads base, base.memory
    {
      base.RxValid() && base.Receiver() == WaitAA && !base.Rx().Filling()
    }

    /** _installPacketOp; the source exits where the installation fails. */
    method InstallPacketOp(t: byte, size: nat)
      requires Listening() && t < PACKET_TYPE_MAX && t !in base.operations && 3 <= size <= 254
      modifies base`operations
      ensures Listening() && base.operations == old(base.operations)[t := size]
    {
      hide Framed, RxRegisters.Receiver;
      var status := base.InstallPacket(t, size);
      assert status == Success;
    }

    method InstallPacketOps()
      requires Listening() && base.operations == map[]
      modifies base`operations
      ensures Listening() && base.operations == CLIENT_SIZES
    {
      hide Listening;
      InstallPacketOp(RESPONSE, 8);
      InstallPacketOp(SYSTEM_PARAM, 25);
      InstallPacketOp(SYSTEM_STATUS, 27);
      InstallPacketOp(JOINT_PARAM, 36);
      assert base.operations == map[0 := 8, 3 := 25, 2 := 27, 6 := 36];
      InstallRemainingPacketOps();
    }

    method InstallRemainingPacketOps()
      requires Listening() && base.operations == map[0 := 8, 3 := 25, 2 := 27, 6 := 36]
      modifies base`operations
      ensures Listening() && base.operations == CLIENT_SIZES
    {
      hide Listening;
      InstallPacketOp(JOINT_STATUS, 26);
      InstallPacketOp(DRIVE_PARAM, 38);
      InstallPacketOp(DRIVE_STATUS, 40);
      InstallPacketOp(END_EPOCH, 4);
    }

    /** _readPacket; false if the line runs out of bytes before a packet is complete, where the source keeps waiting. */
    method ReadPacket() returns (complete: bool)
      requires Valid()
      modifies this`mirrors, this`incoming, this`consumed, this`read, base, base.memory
      ensures Valid() && base.TxQueue() == old(base.TxQueue())
      ensures consumed + incoming == old(consumed) + old(incoming)
      ensures complete ==> |read| > 0 && read[..|read| - 1] == old(read) && |incoming| < |old(incoming)|
      ensures complete ==> mirrors == Reflect(old(mirrors), [read[|read| - 1]])
      ensures !complete ==> incoming == [] && read == old(read) && mirrors == old(mirrors)
      ensures complete <==> old(Ahead()) != []
      ensures complete ==> read == old(read) + [old(Ahead())[0]] && Ahead() == old(Ahead())[1..]
      ensures !complete ==> Ahead() == []
    {
      hide UpToDate, Framed, RxRegisters.Receiver, Reflect, Rings.Valid, CLIENT_SIZES, Rings.Contents;
      ReadIsPrefix();
      complete := ReadBytes();
      ReadIsPrefix();
    }

    /** The loop of _readPacket. */
    method ReadBytes() returns (complete: bool)
      requires Valid()
      modifies this`mirrors, this`incoming, this`consumed, this`read, base, base.memory
      ensures Valid() && base.TxQueue() == old(base.TxQueue())
      ensures consumed + incoming == old(consumed) + old(incoming)
      ensures complete ==> |read| > 0 && read[..|read| - 1] == old(read) && |incoming| < |old(incoming)|
      ensures complete ==> mirrors == Reflect(old(mirrors), [read[|read| - 1]])
      ensures !complete ==> incoming == [] && read == old(read) && mirrors == old(mirrors)
    {
      hide UpToDate, Framed, RxRegisters.Receiver, Reflect, Rings.Valid, CLIENT_SIZES, Rings.Contents;
      complete := false;
      while !complete
        invariant Valid() && base.TxQueue() == old(base.TxQueue())
        invariant consumed + incoming == old(consumed) + old(incoming)
        invariant complete ==> |read| > 0 && read[..|read| - 1] == old(read) && |incoming| < |old(incoming)|
        invariant complete ==> mirrors == Reflect(old(mirrors), [read[|read| - 1]])
        invariant !complete ==> |incoming| <= |old(incoming)| && read == old(read) && mirrors == old(mirrors)
        decreases |incoming|
      {
        if |incoming| == 0 {
          return;
        }
        complete := ReadByte();
      }
    }

    /** The bytes memcpy takes from a complete packet. */
    function CurrentPacket(packet: nat): seq<byte>
      requires packet + 1 < base.memory.Length && packet + base.memory[packet + 1] <= base.memory.Length
      reads base.memory
    {
      base.memory[packet..packet + base.memory[packet + 1]]
    }

    /** _copyToBuffer. */
    method CopyToBuffer(packet: nat)
      requires packet + 1 < base.memory.Length && packet + base.memory[packet + 1] <= base.memory.Length
      requires base.memory[packet + 1] > 0
      modifies this`mirrors, this`read
      ensures var p := CurrentPacket(packet);
              && |p| > 0 && mirrors == old(mirrors)[p[0] := p] && mirrors == Reflect(old(mirrors), [p])
              && read == old(read) + [p]
    {
      hide Reflect;
      var p := CurrentPacket(packet);
      ReflectOne(mirrors, p);
      mirrors := mirrors[p[0] := p];
      read := read + [p];
    }

    /** One byte of the line to PacketHandler_rxByte; a complete packet is copied to its variable. */
    method ReadByte() returns (complete: bool)
      requires Valid() && |incoming| > 0
      modifies this`mirrors, this`incoming, this`consumed, this`read, base, base.memory
      ensures Valid() && base.TxQueue() == old(base.TxQueue())
      ensures incoming == old(incoming)[1..] && consumed == old(consumed) + [old(incoming)[0]]
      ensures complete ==> |read| > 0 && read[..|read| - 1] == old(read)
      ensures complete ==> mirrors == Reflect(old(mirrors), [read[|read| - 1]])
      ensures !complete ==> read == old(read) && mirrors == old(mirrors)
    {
      hide UpToDate, Framed, RxRegisters.Receiver, Reflect, Rings.Valid, CLIENT_SIZES, Rings.Contents, Step, WellFormed,
           Registered, InBounds;
      if base.rxFn.FnSize? {
        BufferFits(base.memory[..], base.Rx());
      }
      ghost var rx, r, bytes := base.Receiver(), base.Rx(), base.memory[..];
      var c := incoming[0];
      ReadOneMore(initial, consumed, rx, read, mirrors, c);
      incoming := incoming[1..];
      consumed := consumed + [c];
      var status, received := base.RxByte(c, Some(0));
      if received.Some? {
        CompletePacket(base.operations, bytes, r);
        NotFilling(base.operations, base.memory[..], base.Rx());
        assert base.memory[..] == bytes;
        CopyToBuffer(received.value);
      }
      complete := status == SyncChecksum;
    }

    /** _sendPacket on the packet in memory at `p`; `q` is that memory afterwards. */
    method Enqueue(p: Packet) returns (status: PacketStatus, q: Packet)
      requires Valid() && |p| >= 4 && |p| >= p[1]
      modifies this`globalSeq, base`txEnd, base`txSize, base`txChecksum, base.txBuffer
      ensures Valid() && globalSeq == (old(globalSeq) + 1) % 0x1_0000
      ensures q == if Checked(p) == Success then Stamp(p, globalSeq) else p
      ensures status == if Checked(p) != Success then Checked(p)
                        else if |old(base.TxQueue())| + p[1] + 3 > BUFFER_SIZE_MAX then TxBufferFull else Success
      ensures base.TxQueue() == old(base.TxQueue()) + if status == Success then Frame(q[..q[1]]) else []
    {
      hide UpToDate, Framed, RxRegisters.Receiver, CLIENT_SIZES, Rings.Contents, Stamp, Frame;
      q := p;
      globalSeq := (globalSeq + 1) % 0x1_0000;
      var t := p[0];
      if t >= PACKET_TYPE_MAX {
        return UnknownType, q;
      }
      var expectedSize := OutSize(t);
      if expectedSize == 0 {
        return UnknownType, q;
      }
      if p[1] != expectedSize {
        return InvalidSize, q;
      }
      q := Stamp(p, globalSeq);
      status := base.SendPacket(q);
    }

    lemma HasResponse()
      requires Valid()
      ensures RESPONSE in mirrors && HasHeader(mirrors[RESPONSE], RESPONSE)
    {
    }

    method FlushBuffer()
      requires Valid()
      modifies this`outgoing, base`txStart, base`txSize
      ensures Valid() && base.TxQueue() == [] && outgoing == old(outgoing) + old(base.TxQueue())
    {
      hide UpToDate, Framed, RxRegisters.Receiver, CLIENT_SIZES, Rings.Contents;
      while base.txSize > 0
        invariant Valid() && outgoing + base.TxQueue() == old(outgoing) + old(base.TxQueue())
        decreases base.txSize
      {
        ghost var before := base.TxQueue();
        var c := base.TxByte();
        Associate(outgoing, [c], base.TxQueue());
        outgoing := outgoing + [c];
      }
    }

    /** The mirrored response answers a packet of this type and sequence number. */
    predicate Answered(t: byte, seqNo: nat)
      requires RESPONSE in mirrors && HasHeader(mirrors[RESPONSE], RESPONSE)
      reads this`mirrors
    {
      Answers(mirrors[RESPONSE]) == (t, seqNo)
    }

    /** OrazioClient_sendPacket; `result` is None while a blocking call waits for more bytes. */
    method SendPacket(p: Packet, timeout: int) returns (result: Option<PacketStatus>, q: Packet)
      requires Valid() && |p| >= 4 && |p| >= p[1]
      modifies this, base, base.memory, base.txBuffer
      ensures Valid() && globalSeq == (old(globalSeq) + 1) % 0x1_0000
      ensures q == if Checked(p) == Success then Stamp(p, globalSeq) else p
      ensures old(read) <= read && driveControlPacket == old(driveControlPacket)
      ensures result == Some(Success) ==> Checked(p) == Success
      ensures timeout == 0 && result == Some(Success) ==> (
        outgoing == old(outgoing) && base.TxQueue() == old(base.TxQueue()) + Frame(q[..q[1]]))
      ensures timeout != 0 && Left(result) ==> (
        outgoing == old(outgoing) + old(base.TxQueue()) + Frame(q[..q[1]]) && base.TxQueue() == [])
      ensures timeout != 0 && Left(result) ==> (
        var n := |read| - |old(read)|;
        && ReadOn(old(mirrors), old(read), old(Ahead()), n, mirrors, read, Ahead())
        && Awaited(old(mirrors), old(Ahead()), q[0], Seq(q), timeout, result, n))
      ensures timeout != 0 && result == Some(Success) ==> |read| > |old(read)| && Answered(q[0], Seq(q))
      ensures result == Some(Timeout) ==> |read| == |old(read)| + (if timeout > 0 then timeout else 0)
      ensures timeout == 0 || !Left(result) ==> (
        read == old(read) && mirrors == old(mirrors) && Ahead() == old(Ahead()))
      ensures !Left(result) ==> (
        outgoing == old(outgoing) && base.TxQueue() == old(base.TxQueue()))
      ensures Left(result) <==> Checked(p) == Success && |old(base.TxQueue())| + p[1] + 3 <= BUFFER_SIZE_MAX
      ensures !Left(result) ==> result == Some(if Checked(p) != Success then Checked(p) else TxBufferFull)
    {
      hide UpToDate, Framed, RxRegisters.Receiver, CLIENT_SIZES, Rings.Contents, Stamp, Frame, Checked, Rings.Valid,
           ReadOn, Awaited, Ahead, Answers, HasHeader, Reflect;
      if timeout == 0 {
        var status;
        status, q := Enqueue(p);
        return Some(status), q;
      }
      result, q := SendAndWait(p, timeout);
      if Left(result) {
        AwaitedMeans(old(mirrors), old(read), old(Ahead()), mirrors, read, Ahead(), q[0], Seq(q), timeout, result);
        HasResponse();
      }
    }

    /** The blocking branch. */
    method SendAndWait(p: Packet, timeout: int) returns (result: Option<PacketStatus>, q: Packet)
      requires Valid() && |p| >= 4 && |p| >= p[1]
      modifies this, base, base.memory, base.txBuffer
      ensures Valid() && globalSeq == (old(globalSeq) + 1) % 0x1_0000
      ensures q == if Checked(p) == Success then Stamp(p, globalSeq) else p
      ensures driveControlPacket == old(driveControlPacket)
      ensures Left(result) <==> Checked(p) == Success && |old(base.TxQueue())| + p[1] + 3 <= BUFFER_SIZE_MAX
      ensures !Left(result) ==> result == Some(if Checked(p) != Success then Checked(p) else TxBufferFull)
      ensures Left(result) ==> outgoing == old(outgoing) + old(base.TxQueue()) + Frame(q[..q[1]]) && base.TxQueue() == []
      ensures Left(result) ==> (
        var n := |read| - |old(read)|;
        && ReadOn(old(mirrors), old(read), old(Ahead()), n, mirrors, read, Ahead())
        && Awaited(old(mirrors), old(Ahead()), q[0], Seq(q), timeout, result, n))
      ensures !Left(result) ==> (
        && read == old(read) && mirrors == old(mirrors) && Ahead() == old(Ahead())
        && outgoing == old(outgoing) && base.TxQueue() == old(base.TxQueue()))
    {
      hide UpToDate, Framed, RxRegisters.Receiver, CLIENT_SIZES, Rings.Contents, Stamp, Frame, Checked, Rings.Valid,
           ReadOn, Awaited, Ahead, Answers, HasHeader, Reflect;
      var status;
      status, q := EnqueueAndFlush(p);
      if status != Success {
        return Some(status), q;
      }
      result := Await(q[0], Seq(q), timeout);
    }

    method EnqueueAndFlush(p: Packet) returns (status: PacketStatus, q: Packet)
      requires Valid() && |p| >= 4 && |p| >= p[1]
      modifies this`globalSeq, this`outgoing, base`txStart, base`txEnd, base`txSize, base`txChecksum, base.txBuffer
      ensures Valid() && globalSeq == (old(globalSeq) + 1) % 0x1_0000
      ensures q == if Checked(p) == Success then Stamp(p, globalSeq) else p
      ensures status != Success ==> status == (if Checked(p) != Success then Checked(p) else TxBufferFull)
      ensures status == Success <==> Checked(p) == Success && |old(base.TxQueue())| + p[1] + 3 <= BUFFER_SIZE_MAX
      ensures status == Success ==> outgoing == old(outgoing) + old(base.TxQueue()) + Frame(q[..q[1]]) && base.TxQueue() == []
      ensures status != Success ==> outgoing == old(outgoing) && base.TxQueue() == old(base.TxQueue())
    {
      hide UpToDate, Framed, RxRegisters.Receiver, CLIENT_SIZES, Rings.Contents, Stamp, Frame, Checked, Rings.Valid,
           ReadOn, Awaited, Ahead, Answers, HasHeader, Reflect;
      status, q := Enqueue(p);
      if status == Success {
        ghost var frame := Frame(q[..q[1]]);
        Associate(outgoing, old(base.TxQueue()), frame);
        FlushBuffer();
      }
    }

    /** The waiting loop of a blocking send. */
    method Await(awaitedType: byte, awaitedSeq: nat, timeout: int) returns (result: Option<PacketStatus>)
      requires Valid()
      modifies this`mirrors, this`incoming, this`consumed, this`read, base, base.memory
      ensures Valid() && base.TxQueue() == old(base.TxQueue())
      ensures ReadOn(old(mirrors), old(read), old(Ahead()), |read| - |old(read)|, mirrors, read, Ahead())
      ensures Awaited(old(mirrors), old(Ahead()), awaitedType, awaitedSeq, timeout, result, |read| - |old(read)|)
      ensures Left(result)
    {
      hide UpToDate, Framed, RxRegisters.Receiver, CLIENT_SIZES, Rings.Contents, Rings.Valid, Reflect, Ahead,
           Waiting, ReadOn, Awaited, Answers, HasHeader;
      ghost var m, ahead := mirrors, Ahead();
      WaitingBegins(m, read, ahead, awaitedType, awaitedSeq);
      var left := timeout;
      while left > 0
        invariant Valid() && base.TxQueue() == old(base.TxQueue())
        invariant left <= timeout && (timeout > 0 ==> left >= 0)
        invariant |read| == |old(read)| + (if timeout > 0 then timeout - left else 0)
        invariant Waiting(m, old(read), ahead, |read| - |old(read)|, mirrors, read, Ahead(), awaitedType, awaitedSeq)
      {
        ghost var n, mirrors0, read0, ahead0 := |read| - |old(read)|, mirrors, read, Ahead();
        var complete := ReadPacket();
        if !complete {
          WaitingEnds(m, old(read), ahead, n, mirrors, read, Ahead(), awaitedType, awaitedSeq, timeout);
          return None;
        }
        WaitingGoesOn(m, old(read), ahead, n, mirrors0, read0, ahead0, awaitedType, awaitedSeq, timeout);
        HasResponse();
        if Answers(mirrors[RESPONSE]) == (awaitedType, awaitedSeq) {
          return Some(Success);
        }
        left := left - 1;
      }
      WaitingEnds(m, old(read), ahead, |read| - |old(read)|, mirrors, read, Ahead(), awaitedType, awaitedSeq, timeout);
      return Some(Timeout);
    }

    method SetBaseVelocity(tv: seq<byte>, rv: seq<byte>)
      requires Valid() && |tv| == 4 && |rv| == 4
      modifies this`driveControlPacket
      ensures Valid() && driveControlPacket == [DRIVE_CONTROL, 12, 1, 0] + tv + rv
    {
      hide UpToDate, Framed, RxRegisters.Receiver, CLIENT_SIZES;
      driveControlPacket := [DRIVE_CONTROL, 12, 1, 0] + tv + rv;
    }

    /** Reads packets until the end-of-epoch packet changes its sequence number. */
    method ReadEpoch() returns (complete: bool)
      requires Valid()
      modifies this`mirrors, this`incoming, this`consumed, this`read, base, base.memory
      ensures Valid() && base.TxQueue() == old(base.TxQueue()) && old(read) <= read
      ensures complete ==> LastIsEnd(read) && EndSeq(mirrors) != old(EndSeq(mirrors))
      ensures ReadOn(old(mirrors), old(read), old(Ahead()), |read| - |old(read)|, mirrors, read, Ahead())
      ensures SameEpochWithin(old(mirrors), old(Ahead()), |read| - |old(read)| - (if complete then 1 else 0))
      ensures !complete ==> Ahead() == []
    {
      hide UpToDate, Framed, RxRegisters.Receiver, CLIENT_SIZES, Rings.Contents, Rings.Valid, EndSeq, Reflect, Ahead, ReadOn,
           InEpoch, SameEpochWithin;
      ghost var m, ahead := mirrors, Ahead();
      InEpochBegins(m, read, ahead);
      var currentSeq := EndSeq(mirrors);
      complete := false;
      while !complete
        invariant Valid() && base.TxQueue() == old(base.TxQueue()) && old(read) <= read
        invariant complete ==> LastIsEnd(read)
        invariant complete <==> EndSeq(mirrors) != currentSeq
        invariant !complete ==> InEpoch(m, old(read), ahead, |read| - |old(read)|, mirrors, read, Ahead())
        invariant complete ==> SameEpochWithin(m, ahead, |read| - |old(read)| - 1)
        invariant ReadOn(m, old(read), ahead, |read| - |old(read)|, mirrors, read, Ahead())
        decreases |incoming|, !complete
      {
        ghost var n, before, read0, ahead0 := |read| - |old(read)|, mirrors, read, Ahead();
        var ok := ReadPacket();
        if !ok {
          InEpochMeans(m, old(read), ahead, n, mirrors, read, Ahead());
          return false;
        }
        InEpochGoesOn(m, old(read), ahead, n, before, read0, ahead0);
        complete := currentSeq != EndSeq(mirrors);
        if complete {
          ReflectEnd(before, read[|read| - 1]);
        }
      }
    }

    /** One cycle of OrazioClient_sync: the deferred drive packet leaves with the next flush. */
    method SyncCycle() returns (complete: bool)
      requires Valid()
      modifies this, base, base.memory, base.txBuffer
      ensures Valid() && old(read) <= read && outgoing == old(outgoing) + old(base.TxQueue())
      ensures complete ==> LastIsEnd(read) && EndSeq(mirrors) != old(EndSeq(mirrors))
      ensures ReadOn(old(mirrors), old(read), old(Ahead()), |read| - |old(read)|, mirrors, read, Ahead())
      ensures SameEpochWithin(old(mirrors), old(Ahead()), |read| - |old(read)| - (if complete then 1 else 0))
      ensures !complete ==> Ahead() == []
      ensures old(Seq(driveControlPacket)) == 0 ==> (
        globalSeq == old(globalSeq) && base.TxQueue() == [] && driveControlPacket == old(driveControlPacket))
      ensures old(Seq(driveControlPacket)) != 0 ==> (
        && globalSeq == (old(globalSeq) + 1) % 0x1_0000
        && driveControlPacket == Stamp(old(driveControlPacket), globalSeq)
        && base.TxQueue() == Frame(driveControlPacket))
    {
      hide UpToDate, Framed, RxRegisters.Receiver, CLIENT_SIZES, Rings.Contents, Rings.Valid, Frame, EndSeq, Ahead, ReadOn,
           SameEpochWithin, LastIsEnd, Reflect;
      SendDeferred();
      complete := ReadEpoch();
    }

    /** The writing half of a cycle. */
    method SendDeferred()
      requires Valid()
      modifies this`globalSeq, this`driveControlPacket, this`outgoing, base`txStart, base`txEnd, base`txSize,
               base`txChecksum, base.txBuffer
      ensures Valid() && outgoing == old(outgoing) + old(base.TxQueue())
      ensures old(Seq(driveControlPacket)) == 0 ==> (
        globalSeq == old(globalSeq) && base.TxQueue() == [] && driveControlPacket == old(driveControlPacket))
      ensures old(Seq(driveControlPacket)) != 0 ==> (
        && globalSeq == (old(globalSeq) + 1) % 0x1_0000
        && driveControlPacket == Stamp(old(driveControlPacket), globalSeq)
        && base.TxQueue() == Frame(driveControlPacket))
    {
      hide UpToDate, Framed, RxRegisters.Receiver, CLIENT_SIZES, Rings.Contents, Rings.Valid, Frame;
      FlushBuffer();
      if Seq(driveControlPacket) != 0 {
        var status, q := Enqueue(driveControlPacket);
        assert q[..q[1]] == q;
        driveControlPacket := q;
      }
    }

    /**
     * OrazioClient_sync.  It reads until the end of epoch has changed `cycles` times, if the packets ahead let it,
     * and sends a drive command that was set once per cycle.  If the line carries honest epochs, every cycle that
     * ends leaves a snapshot of one of them, whoever read the packets before.
     */
    method Sync(cycles: int) returns (complete: bool)
      requires Valid()
      modifies this, base, base.memory, base.txBuffer
      ensures Valid() && old(read) <= read
      ensures Synced(old(mirrors), old(read), old(Ahead()), cycles, complete, mirrors, read, Ahead())
      ensures complete && cycles > 0 ==> LastIsEnd(read)
      ensures complete && cycles > 0 ==> forall es :: EpochsBehind(es, consumed) ==> SnapshotOf(es, mirrors)
      ensures complete && cycles > 0 && old(Seq(driveControlPacket)) != 0 && old(globalSeq) + cycles < 0x1_0000 ==>
                && globalSeq == old(globalSeq) + cycles && driveControlPacket == Stamp(old(driveControlPacket), globalSeq)
                && base.TxQueue() == Frame(driveControlPacket)
    {
      hide UpToDate, Framed, RxRegisters.Receiver, CLIENT_SIZES, Rings.Contents, EpochsBehind, SnapshotOf, LastIsEnd,
           Synced, ReadOn, SameEpochWithin, EndSeq, Ahead, Frame, Rings.Valid, Reflect;
      ghost var m, ahead := mirrors, Ahead();
      SyncedBegins(m, read, ahead);
      var c := 0;
      while c < cycles
        invariant Valid() && old(read) <= read
        invariant 0 <= c && (if cycles > 0 then c <= cycles else c == 0)
        invariant Synced(m, old(read), ahead, c, true, mirrors, read, Ahead())
        invariant c > 0 ==> LastIsEnd(read)
        invariant old(Seq(driveControlPacket)) != 0 && old(globalSeq) + c < 0x1_0000 ==>
          && globalSeq == old(globalSeq) + c
          && driveControlPacket == (if c == 0 then old(driveControlPacket) else Stamp(old(driveControlPacket), globalSeq))
          && (c > 0 ==> base.TxQueue() == Frame(driveControlPacket))
      {
        ghost var before, start, rest := mirrors, read, Ahead();
        complete := SyncCycle();
        SyncedGoesOn(m, old(read), ahead, c, before, start, rest, complete, mirrors, read, Ahead(), cycles);
        if !complete {
          return false;
        }
        c := c + 1;
      }
      SyncedNone(m, old(read), ahead, cycles, mirrors, read, Ahead());
      if cycles > 0 {
        forall es: seq<EpochOf> | EpochsBehind(es, consumed)
          ensures SnapshotOf(es, mirrors)
        {
          LastIsSnapshot(initial, consumed, base.Receiver(), read, mirrors, es);
        }
      }
      return true;
    }
  }

  /** How often reading `ps` changes the number of the end of epoch. */
  function EpochsEnded(m: Mirrors, ps: seq<Packet>): nat {
    if |ps| == 0 then 0
    else
      var n := |ps| - 1;
      EpochsEnded(m, ps[..n]) + if EndSeq(Reflect(m, ps)) != EndSeq(Reflect(m, ps[..n])) then 1 else 0
  }

  /**
   * OrazioClient_sync over the packets `ahead`: complete exactly if there are `cycles` ends of epoch among them, with
   * the last of these read last; otherwise everything has been read.
   */
  predicate Synced(m: Mirrors, start: seq<Packet>, ahead: seq<Packet>, cycles: int, complete: bool,
                   m': Mirrors, read: seq<Packet>, rest: seq<Packet>)
  {
    var n := |read| - |start|;
    && ReadOn(m, start, ahead, n, m', read, rest)
    && (complete ==> EpochsEnded(m, ahead[..n]) == if cycles > 0 then cycles else 0)
    && (complete ==> n == 0 || EpochsEnded(m, ahead[..n - 1]) < EpochsEnded(m, ahead[..n]))
    && (!complete ==> rest == [] && EpochsEnded(m, ahead) < cycles)
  }

  lemma SyncedBegins(m: Mirrors, read: seq<Packet>, ahead: seq<Packet>)
    ensures Synced(m, read, ahead, 0, true, m, read, ahead)
  {
  }

  lemma SyncedNone(m: Mirrors, start: seq<Packet>, ahead: seq<Packet>, cycles: int,
                   m': Mirrors, read: seq<Packet>, rest: seq<Packet>)
    requires Synced(m, start, ahead, if cycles > 0 then cycles else 0, true, m', read, rest)
    ensures Synced(m, start, ahead, cycles, true, m', read, rest)
  {
  }

  /** Packets that change no end of epoch add nothing to the count. */
  lemma {:induction false} NoneEnded(m: Mirrors, a: seq<Packet>, b: seq<Packet>)
    requires SameEpochWithin(Reflect(m, a), b, |b|)
    ensures EpochsEnded(m, a + b) == EpochsEnded(m, a)
    ensures EndSeq(Reflect(m, a + b)) == EndSeq(Reflect(m, a))
  {
    ReflectConcat(m, a, b);
    if |b| == 0 {
      assert a + b == a;
    } else {
      hide EndSeq, Reflect;
      var n := |b| - 1;
      assert (a + b)[..|a| + n] == a + b[..n] && b[..n + 1] == b;
      assert forall k :: 0 <= k <= n ==> b[..n][..k] == b[..k];
      NoneEnded(m, a, b[..n]);
    }
  }

  /** One more cycle of reading. */
  lemma SyncedGoesOn(m: Mirrors, start: seq<Packet>, ahead: seq<Packet>, c: nat,
                     before: Mirrors, read: seq<Packet>, rest: seq<Packet>, complete: bool,
                     m': Mirrors, read': seq<Packet>, rest': seq<Packet>, cycles: int)
    requires Synced(m, start, ahead, c, true, before, read, rest) && c < cycles
    requires ReadOn(before, read, rest, |read'| - |read|, m', read', rest')
    requires SameEpochWithin(before, rest, |read'| - |read| - (if complete then 1 else 0))
    requires if complete then EndSeq(m') != EndSeq(before) else rest' == []
    ensures complete ==> Synced(m, start, ahead, c + 1, true, m', read', rest')
    ensures !complete ==> Synced(m, start, ahead, cycles, false, m', read', rest')
  {
    var n, k := |read| - |start|, |read'| - |read|;
    ReadsOn(m, start, ahead, n, before, read, rest, k, m', read', rest');
    WithinPart(before, rest, k, if complete then k - 1 else k);
    hide Reflect, EndSeq, EpochsEnded, SameEpochWithin;
    CountCycle(m, ahead[..n], rest[..k], complete);
    Counted(m, start, ahead, n, rest, k, c, complete, m', read', rest', cycles);
  }

  lemma Counted(m: Mirrors, start: seq<Packet>, ahead: seq<Packet>, n: int, rest: seq<Packet>, k: int, c: nat, complete: bool,
                m': Mirrors, read': seq<Packet>, rest': seq<Packet>, cycles: int)
    requires 0 <= n <= |ahead| && 0 <= k <= |rest| && ReadOn(m, start, ahead, n + k, m', read', rest') && c < cycles
    requires ahead[..n + k] == ahead[..n] + rest[..k] && (complete || rest' == [])
    requires EpochsEnded(m, ahead[..n]) == c
    requires EpochsEnded(m, ahead[..n] + rest[..k]) == c + if complete then 1 else 0
    requires complete ==> k > 0 && EpochsEnded(m, (ahead[..n] + rest[..k])[..n + k - 1]) == c
    ensures complete ==> Synced(m, start, ahead, c + 1, true, m', read', rest')
    ensures !complete ==> Synced(m, start, ahead, cycles, false, m', read', rest')
  {
    hide Reflect, EpochsEnded;
    if complete {
      SamePrefix(ahead, ahead[..n] + rest[..k], n + k - 1);
    } else {
      assert ahead[..n + k] == ahead;
    }
  }

  lemma SamePrefix(ahead: seq<Packet>, part: seq<Packet>, n: int)
    requires 0 <= n <= |part| <= |ahead| && ahead[..|part|] == part
    ensures ahead[..n] == part[..n]
  {
  }

  /** What one cycle of reading adds to the count. */
  lemma CountCycle(m: Mirrors, a: seq<Packet>, part: seq<Packet>, complete: bool)
    requires SameEpochWithin(Reflect(m, a), part, |part| - (if complete then 1 else 0))
    requires complete ==> EndSeq(Reflect(m, a + part)) != EndSeq(Reflect(m, a))
    ensures EpochsEnded(m, a + part) == EpochsEnded(m, a) + if complete then 1 else 0
    ensures complete ==> |part| > 0 && EpochsEnded(m, (a + part)[..|a| + |part| - 1]) == EpochsEnded(m, a)
  {
    if complete {
      assert |part| == 0 ==> a + part == a;
      hide Reflect, EndSeq, EpochsEnded, SameEpochWithin;
      OneEpochMore(m, a, part);
    } else {
      hide Reflect, EndSeq, EpochsEnded, SameEpochWithin;
      NoneEnded(m, a, part);
    }
  }

  lemma WithinPart(m: Mirrors, rest: seq<Packet>, k: int, n: int)
    requires SameEpochWithin(m, rest, n) && 0 <= k <= |rest| && n <= k
    ensures SameEpochWithin(m, rest[..k], n)
  {
    assert forall i :: 0 <= i <= k ==> rest[..k][..i] == rest[..i];
  }

  /** A part whose last packet brings a new end of epoch. */
  lemma OneEpochMore(m: Mirrors, a: seq<Packet>, part: seq<Packet>)
    requires |part| > 0 && SameEpochWithin(Reflect(m, a), part, |part| - 1)
    requires EndSeq(Reflect(m, a + part)) != EndSeq(Reflect(m, a))
    ensures EpochsEnded(m, a + part) == EpochsEnded(m, a) + 1
    ensures EpochsEnded(m, (a + part)[..|a| + |part| - 1]) == EpochsEnded(m, a)
  {
    var n := |part| - 1;
    WithinPart(Reflect(m, a), part, n, n);
    NoneEnded(m, a, part[..n]);
    assert (a + part)[..|a| + n] == a + part[..n];
  }

  /** Reading on twice is reading on. */
  lemma ReadsOn(m: Mirrors, start: seq<Packet>, ahead: seq<Packet>, n: int,
                before: Mirrors, read: seq<Packet>, rest: seq<Packet>, k: int,
                m': Mirrors, read': seq<Packet>, rest': seq<Packet>)
    requires ReadOn(m, start, ahead, n, before, read, rest) && ReadOn(before, read, rest, k, m', read', rest')
    ensures ReadOn(m, start, ahead, n + k, m', read', rest') && ahead[..n + k] == ahead[..n] + rest[..k]
    ensures before == Reflect(m, ahead[..n]) && (m' != before ==> k > 0)
  {
    hide Reflect;
    assert ahead[..n + k] == ahead[..n] + rest[..k];
    ReflectConcat(m, ahead[..n], rest[..k]);
    Associate(start, ahead[..n], rest[..k]);
    ReflectNothing(before, rest);
  }

  lemma ReflectNothing(m: Mirrors, ps: seq<Packet>)
    ensures Reflect(m, ps[..0]) == m
  {
  }

  function EndSeq(m: Mirrors): nat {
    if END_EPOCH in m && |m[END_EPOCH]| >= 4 then Seq(m[END_EPOCH]) else 0
  }

  /** The end-of-epoch mirror changes only by reading an end-of-epoch packet. */
  lemma ReflectEnd(m: Mirrors, p: Packet)
    requires EndSeq(Reflect(m, [p])) != EndSeq(m)
    ensures |p| > 0 && p[0] == END_EPOCH
  {
    assert [p][..0] == [];
  }

  lemma LastIsSnapshot(initial: Mirrors, consumed: seq<byte>, rx: Rx, read: seq<Packet>, mirrors: Mirrors,
                       es: seq<EpochOf>)
    requires UpToDate(initial, consumed, rx, read, mirrors) && LastIsEnd(read) && EpochsBehind(es, consumed)
    ensures SnapshotOf(es, mirrors)
  {
    var _ := ConsumedSnapshot(initial, es, consumed);
  }
}
