/** Bytes on the wire and the XOR checksum over them. */
module Bytes {
  type byte = x: int | 0 <= x < 256

  /** Bitwise exclusive or, least significant bit first. */
  function Bits(a: nat, b: nat): (r: nat)
    decreases a + b
  {
    if a == 0 && b == 0 then 0
    else 2 * Bits(a / 2, b / 2) + if a % 2 != b % 2 then 1 else 0
  }

  lemma {:induction false} BitsBound(a: nat, b: nat, n: nat)
    requires a < Pow2(n) && b < Pow2(n)
    ensures Bits(a, b) < Pow2(n)
    decreases n
  {
    if a != 0 || b != 0 {
      BitsBound(a / 2, b / 2, n - 1);
    }
  }

  function Pow2(n: nat): (p: nat)
    ensures p > 0
  {
    if n == 0 then 1 else 2 * Pow2(n - 1)
  }

  lemma {:induction false} BitsSymmetric(a: nat, b: nat)
    ensures Bits(a, b) == Bits(b, a)
    decreases a + b
  {
    if a != 0 || b != 0 {
      BitsSymmetric(a / 2, b / 2);
    }
  }

  lemma {:induction false} BitsAssociative(a: nat, b: nat, c: nat)
    ensures Bits(Bits(a, b), c) == Bits(a, Bits(b, c))
    decreases a + b + c
  {
    if a != 0 || b != 0 || c != 0 {
      var x, y := Bits(a, b), Bits(b, c);
      assert x / 2 == Bits(a / 2, b / 2) && y / 2 == Bits(b / 2, c / 2);
      BitsAssociative(a / 2, b / 2, c / 2);
    }
  }

  lemma {:induction false} BitsZero(a: nat, b: nat)
    ensures Bits(a, b) == 0 <==> a == b
    ensures Bits(a, 0) == a
    decreases a + b
  {
    if a != 0 || b != 0 {
      BitsZero(a / 2, b / 2);
      if a != 0 {
        BitsZero(a / 2, 0);
      }
    }
  }

  /** The `^` of the source on uint8_t. */
  function Xor8(a: byte, b: byte): byte {
    BitsBound(a, b, 8);
    Bits(a, b)
  }

  /** Xor8 is a commutative group in which every element is its own inverse. */
  lemma Xor8Laws(a: byte, b: byte, c: byte)
    ensures Xor8(a, b) == Xor8(b, a)
    ensures Xor8(Xor8(a, b), c) == Xor8(a, Xor8(b, c))
    ensures Xor8(a, b) == 0 <==> a == b
    ensures Xor8(a, 0) == a
  {
    BitsSymmetric(a, b);
    BitsAssociative(a, b, c);
    BitsZero(a, b);
  }

  /** XOR of all bytes of `s`; the checksum of a frame is this value over type, size and payload. */
  function Xor(s: seq<byte>): byte {
    if |s| == 0 then 0 else Xor8(Xor(s[..|s| - 1]), s[|s| - 1])
  }

  lemma XorAppend(s: seq<byte>, c: byte)
    ensures Xor(s + [c]) == Xor8(Xor(s), c)
  {
    assert (s + [c])[..|s|] == s;
  }

  /** The running checksum: one more byte of `s` is one more Xor8. */
  lemma XorPrefix(s: seq<byte>, k: nat)
    requires k < |s|
    ensures s[..k + 1] == s[..k] + [s[k]]
    ensures Xor(s[..k + 1]) == Xor8(Xor(s[..k]), s[k])
  {
    assert s[..k + 1] == s[..k] + [s[k]];
    XorAppend(s[..k], s[k]);
  }

  lemma XorOne(c: byte)
    ensures Xor([c]) == c
  {
    XorAppend([], c);
    Xor8Laws(0, c, 0);
    Xor8Laws(c, 0, 0);
  }

  /** The byte-by-byte difference of two messages of the same length. */
  function Diff(a: seq<byte>, b: seq<byte>): (d: seq<byte>)
    requires |a| == |b|
    ensures |d| == |a|
    ensures forall i :: 0 <= i < |a| ==> d[i] == Xor8(a[i], b[i])
  {
    seq(|a|, i requires 0 <= i < |a| => Xor8(a[i], b[i]))
  }

  /** XOR is linear: the checksum of a difference is the difference of the checksums. */
  lemma {:induction false} XorOfDiff(a: seq<byte>, b: seq<byte>)
    requires |a| == |b|
    ensures Xor(Diff(a, b)) == Xor8(Xor(a), Xor(b))
  {
    if |a| > 0 {
      var n := |a| - 1;
      XorOfDiff(a[..n], b[..n]);
      assert Diff(a, b)[..n] == Diff(a[..n], b[..n]);
      XorShuffle(Xor(a[..n]), Xor(b[..n]), a[n], b[n]);
    }
  }

  lemma XorShuffle(x: byte, y: byte, u: byte, v: byte)
    ensures Xor8(Xor8(x, y), Xor8(u, v)) == Xor8(Xor8(x, u), Xor8(y, v))
  {
    Xor8Laws(x, y, Xor8(u, v));
    Xor8Laws(y, u, v);
    Xor8Laws(y, u, 0);
    Xor8Laws(u, y, v);
    Xor8Laws(x, u, Xor8(y, v));
  }

  /** A message whose only nonzero byte is at `k` has that byte as its XOR. */
  lemma {:induction false} XorSingle(d: seq<byte>, k: nat)
    requires k < |d|
    requires forall i :: 0 <= i < |d| && i != k ==> d[i] == 0
    ensures Xor(d) == d[k]
  {
    var n := |d| - 1;
    if k == n {
      XorZero(d[..n]);
      Xor8Laws(0, d[n], 0);
      Xor8Laws(d[n], 0, 0);
    } else {
      XorSingle(d[..n], k);
      Xor8Laws(d[k], 0, 0);
    }
  }

  lemma {:induction false} XorZero(d: seq<byte>)
    requires forall i :: 0 <= i < |d| ==> d[i] == 0
    ensures Xor(d) == 0
  {
    if |d| > 0 {
      XorZero(d[..|d| - 1]);
    }
  }

  lemma Associate<T>(a: seq<T>, b: seq<T>, c: seq<T>)
    ensures (a + b) + c == a + (b + c)
  {
  }
}
