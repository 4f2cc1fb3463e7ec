/** How the receiver recovers: bounded return to the hunting state, junk, and altered frames. */
module Resync {
  import opened Bytes
  import opened Framing
  import opened Link

  /** `size` bounds every registered size. */
  predicate LargestSize(sizes: Sizes, size: nat) {
    forall t :: t in sizes ==> sizes[t] <= size
  }

  /** How many more bytes the receiver can take before it is back in the state hunting for 0xAA. */
  function Remaining(rx: Rx, size: nat): nat {
    match rx
    case WaitAA => 0
    case Wait55 => size + 2
    case WaitType => size + 1
    case WaitSize(_) => size
    case WaitPayload(p) => if |p| >= 2 && |p| <= p[1] then p[1] - |p| + 1 else 0
    case WaitChecksum(_) => 1
  }

  /** Every byte brings a receiver that is inside a frame closer to the hunting state. */
  lemma Progress(sizes: Sizes, rx: Rx, c: byte, room: bool, size: nat)
    requires ValidSizes(sizes) && WellFormed(sizes, rx) && LargestSize(sizes, size)
    ensures Remaining(rx, size) <= size + 2
    ensures rx != WaitAA <==> Remaining(rx, size) > 0
    ensures rx != WaitAA ==> Remaining(Step(sizes, rx, c, room).0, size) < Remaining(rx, size)
  {
  }

  /** The receiver after `wire`, with an arbitrary answer about room for each byte. */
  function After(sizes: Sizes, rx: Rx, wire: seq<byte>, rooms: seq<bool>): (rx': Rx)
    requires ValidSizes(sizes) && WellFormed(sizes, rx) && |rooms| == |wire|
    ensures WellFormed(sizes, rx')
    decreases |wire|
  {
    if |wire| == 0 then rx
    else
      StepKeepsWellFormed(sizes, rx, wire[0], rooms[0]);
      After(sizes, Step(sizes, rx, wire[0], rooms[0]).0, wire[1..], rooms[1..])
  }

  /** From inside a frame, some prefix of at most `size` + 2 bytes, whatever they are, ends in hunting. */
  lemma {:induction false} ReturnsToHunting(sizes: Sizes, rx: Rx, wire: seq<byte>, rooms: seq<bool>, size: nat)
    returns (k: nat)
    requires ValidSizes(sizes) && WellFormed(sizes, rx) && LargestSize(sizes, size)
    requires |rooms| == |wire| && |wire| >= Remaining(rx, size)
    ensures k <= Remaining(rx, size) && After(sizes, rx, wire[..k], rooms[..k]) == WaitAA
    decreases |wire|
  {
    if rx == WaitAA {
      return 0;
    }
    Progress(sizes, rx, if |wire| > 0 then wire[0] else 0, if |wire| > 0 then rooms[0] else true, size);
    StepKeepsWellFormed(sizes, rx, wire[0], rooms[0]);
    k := ReturnsToHunting(sizes, Step(sizes, rx, wire[0], rooms[0]).0, wire[1..], rooms[1..], size);
    assert wire[..k + 1][1..] == wire[1..][..k] && rooms[..k + 1][1..] == rooms[1..][..k];
    k := k + 1;
  }

  /** `size` + 2 bytes other than 0xAA leave the receiver hunting, from any state. */
  lemma {:induction false} JunkResets(sizes: Sizes, rx: Rx, junk: seq<byte>, rooms: seq<bool>, size: nat)
    requires ValidSizes(sizes) && WellFormed(sizes, rx) && LargestSize(sizes, size)
    requires |rooms| == |junk| && |junk| >= Remaining(rx, size)
    requires SYNC_AA !in junk
    ensures After(sizes, rx, junk, rooms) == WaitAA
    decreases |junk|
  {
    if |junk| > 0 {
      Progress(sizes, rx, junk[0], rooms[0], size);
      StepKeepsWellFormed(sizes, rx, junk[0], rooms[0]);
      assert junk[0] in junk;
      JunkResets(sizes, Step(sizes, rx, junk[0], rooms[0]).0, junk[1..], rooms[1..], size);
    } else {
      Progress(sizes, rx, 0, true, size);
    }
  }

  /** With room for every packet, After and Feed agree. */
  lemma {:induction false} AfterIsFeed(sizes: Sizes, rx: Rx, wire: seq<byte>)
    requires ValidSizes(sizes) && WellFormed(sizes, rx)
    ensures After(sizes, rx, wire, seq(|wire|, _ => true)) == Feed(sizes, rx, wire).0
    decreases |wire|
  {
    if |wire| > 0 {
      StepKeepsWellFormed(sizes, rx, wire[0], true);
      AfterIsFeed(sizes, Step(sizes, rx, wire[0], true).0, wire[1..]);
      assert seq(|wire|, _ => true)[1..] == seq(|wire[1..]|, _ => true);
    }
  }

  /**
   * Resynchronisation: whatever state the receiver is in, whichever buffers are refused during the junk and
   * whatever it delivers, after enough junk without 0xAA the next complete frame is delivered.
   */
  lemma FrameAfterJunk(sizes: Sizes, rx: Rx, junk: seq<byte>, rooms: seq<bool>, size: nat, p: Packet)
    requires ValidSizes(sizes) && WellFormed(sizes, rx) && LargestSize(sizes, size)
    requires |junk| >= size + 2 && SYNC_AA !in junk && |rooms| == |junk|
    requires Registered(sizes, p)
    ensures Feed(sizes, After(sizes, rx, junk, rooms), Frame(p)) == (WaitAA, [p])
    ensures Feed(sizes, rx, junk + Frame(p)) == (WaitAA, Feed(sizes, rx, junk).1 + [p])
  {
    Progress(sizes, rx, 0, true, size);
    JunkResets(sizes, rx, junk, rooms, size);
    JunkResets(sizes, rx, junk, seq(|junk|, _ => true), size);
    AfterIsFeed(sizes, rx, junk);
    FeedConcat(sizes, rx, junk, Frame(p));
    FeedFrame(sizes, p, Xor(p));
  }

  /**
   * One stray byte before a frame costs the frame exactly when it is 0xAA: the second 0xAA is taken
   * for a bad 0x55 and not looked at again.
   */
  lemma StrayByte(sizes: Sizes, c: byte, p: Packet)
    requires ValidSizes(sizes) && Registered(sizes, p)
    ensures Feed(sizes, WaitAA, [c] + Frame(p)).1 == [p] <==> c != SYNC_AA
  {
    FeedConcat(sizes, WaitAA, [c], Frame(p));
    FeedOne(sizes, WaitAA, c);
    FeedFrame(sizes, p, Xor(p));
    if c == SYNC_AA {
      // 0xAA in _rx55 goes back to hunting, and 0x55 is not a start
      var rest := Frame(p)[1..];
      assert Frame(p) == [SYNC_AA] + rest && rest == [SYNC_55] + (p + [Xor(p)]);
      FeedConcat(sizes, Wait55, [SYNC_AA], rest);
      FeedOne(sizes, Wait55, SYNC_AA);
      FeedConcat(sizes, WaitAA, [SYNC_55], p + [Xor(p)]);
      FeedOne(sizes, WaitAA, SYNC_55);
      DeliveredAreShorter(sizes, WaitAA, p + [Xor(p)]);
    }
  }

  /** A delivered packet needs its sync bytes too: nothing as long as `wire` minus two comes out of it. */
  lemma {:induction false} DeliveredAreShorter(sizes: Sizes, rx: Rx, wire: seq<byte>)
    requires ValidSizes(sizes) && WellFormed(sizes, rx)
    ensures forall k :: 0 <= k < |Feed(sizes, rx, wire).1| ==> |Feed(sizes, rx, wire).1[k]| + 3 <= |wire| + Held(rx)
    decreases |wire|
  {
    if |wire| > 0 {
      StepKeepsWellFormed(sizes, rx, wire[0], true);
      var rx' := Step(sizes, rx, wire[0], true).0;
      DeliveredAreShorter(sizes, rx', wire[1..]);
      assert Held(rx') <= Held(rx) + 1;
    }
  }

  /** Bytes of the frame begun that the receiver has already taken. */
  function Held(rx: Rx): nat {
    match rx
    case WaitAA => 0
    case Wait55 => 1
    case WaitType => 2
    case WaitSize(_) => 3
    case WaitPayload(p) => |p| + 2
    case WaitChecksum(p) => |p| + 2
  }

  // ---- altered frames

  /** `frame` has the sync bytes, type and size of the frame of `p`, and its length. */
  predicate SameHeader(frame: seq<byte>, p: Packet) {
    |p| >= 2 && |frame| == |p| + 3 && frame[..4] == Frame(p)[..4]
  }

  lemma DifferenceOfFrames(frame: seq<byte>, p: Packet)
    requires SameHeader(frame, p)
    ensures var q := frame[2..|frame| - 1];
            && |q| == |p| && q[0] == p[0] && q[1] == p[1]
            && frame == [SYNC_AA, SYNC_55] + q + [frame[|frame| - 1]]
            && Xor(Diff(frame, Frame(p))) == Xor8(Xor(q), frame[|frame| - 1])
  {
    var n := |frame| - 1;
    var q, c := frame[2..n], frame[n];
    assert frame[0] == frame[..4][0] && frame[1] == frame[..4][1] && frame[2] == frame[..4][2] && frame[3] == frame[..4][3];
    assert frame == [SYNC_AA, SYNC_55] + q + [c];
    XorOfDiff(frame, Frame(p));
    XorOfFrame(q, c);
    XorOfFrame(p, Xor(p));
    Xor8Laws(Xor(p), Xor(p), 0);
    var sync := Xor([SYNC_AA, SYNC_55]);
    XorShuffle(sync, Xor8(Xor(q), c), sync, 0);
    Xor8Laws(sync, sync, 0);
    Xor8Laws(sync, 0, 0);
    Xor8Laws(Xor8(Xor(q), c), 0, 0);
    Xor8Laws(0, Xor8(Xor(q), c), 0);
    Xor8Laws(sync, Xor8(Xor(q), c), sync);
    Xor8Laws(Xor8(Xor(q), c), sync, sync);
  }

  lemma XorOfFrame(p: seq<byte>, c: byte)
    ensures Xor([SYNC_AA, SYNC_55] + p + [c]) == Xor8(Xor([SYNC_AA, SYNC_55]), Xor8(Xor(p), c))
  {
    XorAppend([SYNC_AA, SYNC_55] + p, c);
    XorConcat([SYNC_AA, SYNC_55], p);
    Xor8Laws(Xor([SYNC_AA, SYNC_55]), Xor(p), c);
  }

  lemma {:induction false} XorConcat(a: seq<byte>, b: seq<byte>)
    ensures Xor(a + b) == Xor8(Xor(a), Xor(b))
  {
    if |b| == 0 {
      assert a + b == a;
      Xor8Laws(Xor(a), 0, 0);
    } else {
      var n := |b| - 1;
      assert a + b == (a + b[..n]) + [b[n]];
      XorAppend(a + b[..n], b[n]);
      XorConcat(a, b[..n]);
      Xor8Laws(Xor(a), Xor(b[..n]), b[n]);
    }
  }

  /**
   * Checksum strength: a frame altered in payload or checksum only is delivered iff the XOR of all
   * byte differences is 0, and either way the receiver is ready for the next frame.
   */
  lemma AlteredFrame(sizes: Sizes, frame: seq<byte>, p: Packet)
    requires ValidSizes(sizes) && Registered(sizes, p) && SameHeader(frame, p)
    ensures Feed(sizes, WaitAA, frame)
         == (WaitAA, if Xor(Diff(frame, Frame(p))) == 0 then [frame[2..|frame| - 1]] else [])
  {
    DifferenceOfFrames(frame, p);
    var q, c := frame[2..|frame| - 1], frame[|frame| - 1];
    FeedFrame(sizes, q, c);
    Xor8Laws(Xor(q), c, 0);
  }

  lemma SingleDifference(a: seq<byte>, b: seq<byte>, k: nat)
    requires |a| == |b| && k < |a| && a[k] != b[k]
    requires forall i :: 0 <= i < |a| && i != k ==> a[i] == b[i]
    ensures Xor(Diff(a, b)) != 0
  {
    forall i | 0 <= i < |a|
      ensures Diff(a, b)[i] == 0 <==> i != k
    {
      Xor8Laws(a[i], b[i], 0);
    }
    XorSingle(Diff(a, b), k);
  }

  /** A single altered byte is always caught, and the frame after it is still delivered. */
  lemma SingleAlteredByte(sizes: Sizes, frame: seq<byte>, p: Packet, k: nat, next: Packet)
    requires ValidSizes(sizes) && Registered(sizes, p) && SameHeader(frame, p) && Registered(sizes, next)
    requires k < |frame| && frame[k] != Frame(p)[k]
    requires forall i :: 0 <= i < |frame| && i != k ==> frame[i] == Frame(p)[i]
    ensures Feed(sizes, WaitAA, frame) == (WaitAA, [])
    ensures Feed(sizes, WaitAA, frame + Frame(next)) == (WaitAA, [next])
  {
    SingleDifference(frame, Frame(p), k);
    AlteredFrame(sizes, frame, p);
    FeedConcat(sizes, WaitAA, frame, Frame(next));
    FeedFrame(sizes, next, Xor(next));
    assert [] + [next] == [next];
  }
}
