/**
 Bytes, the bitwise exclusive or of two bytes, and big-endian numbers.
 Everything is stated on integers, so that lengths and offsets mix freely with bytes.
 */
module Bytes {

  datatype Option<+T> = None | Some(value: T)

  type byte = x: int | 0 <= x < 256

  // ---------------------------------------------------------------- exclusive or

  function Pow2(w: nat): (r: nat)
    ensures r > 0
  {
    if w == 0 then 1 else 2 * Pow2(w - 1)
  }

  /** The bitwise exclusive or of two w-bit numbers. */
  function XorBits(a: nat, b: nat, w: nat): (r: nat)
    requires a < Pow2(w) && b < Pow2(w)
    ensures r < Pow2(w)
  {
    if w == 0 then 0 else 2 * XorBits(a / 2, b / 2, w - 1) + (a + b) % 2
  }

  lemma {:induction false} XorBitsCancels(a: nat, b: nat, w: nat)
    requires a < Pow2(w) && b < Pow2(w)
    ensures XorBits(XorBits(a, b, w), b, w) == a
  {
    if w > 0 {
      XorStep(a, b, w);
      XorStep(XorBits(a, b, w), b, w);
      hide XorBits, Pow2;
      XorBitsCancels(a / 2, b / 2, w - 1);
    }
  }

  lemma XorStep(a: nat, b: nat, w: nat)
    requires w > 0 && a < Pow2(w) && b < Pow2(w)
    ensures a / 2 < Pow2(w - 1) && b / 2 < Pow2(w - 1) && XorBits(a, b, w) / 2 == XorBits(a / 2, b / 2, w - 1)
    ensures XorBits(a, b, w) % 2 == 1 <==> a % 2 != b % 2
  {
    HalvesAndBits(XorBits(a / 2, b / 2, w - 1), (a + b) % 2);
  }

  lemma HalvesAndBits(q: nat, d: nat)
    requires d < 2
    ensures (2 * q + d) / 2 == q && (2 * q + d) % 2 == d
  {
  }

  lemma Pow2Of8()
    ensures Pow2(8) == 256
  {
    assert Pow2(4) == 16;
    assert Pow2(7) == 128;
  }

  /** Eight is kept behind a name so that only this module computes with it. */
  const BYTE_BITS: nat := 8

  function Xor(a: byte, b: byte): byte {
    Pow2Of8();
    XorBits(a, b, BYTE_BITS)
  }

  lemma XorCancels(a: byte, b: byte)
    ensures Xor(Xor(a, b), b) == a
  {
    Pow2Of8();
    XorBitsCancels(a, b, BYTE_BITS);
  }

  /** Bit k of n, the lowest being bit 0. */
  function BitOf(n: nat, k: nat): nat {
    if k == 0 then n % 2 else BitOf(n / 2, k - 1)
  }

  /** Each bit of x is set if and only if exactly one of those of a and b is. */
  ghost predicate IsXor(x: byte, a: byte, b: byte) {
    forall k :: 0 <= k < 8 ==> (BitOf(x, k) == 1 <==> BitOf(a, k) != BitOf(b, k))
  }

  lemma {:induction false} XorBit(a: nat, b: nat, w: nat, k: nat)
    requires k < w && a < Pow2(w) && b < Pow2(w)
    ensures BitOf(XorBits(a, b, w), k) == 1 <==> BitOf(a, k) != BitOf(b, k)
  {
    hide XorBits, Pow2, BitOf;
    XorStep(a, b, w);
    BitStep(a, k);
    BitStep(b, k);
    BitStep(XorBits(a, b, w), k);
    if k > 0 {
      XorBit(a / 2, b / 2, w - 1, k - 1);
    }
  }

  lemma BitStep(n: nat, k: nat)
    ensures BitOf(n, k) == if k == 0 then n % 2 else BitOf(n / 2, k - 1)
  {
  }

  lemma XorIsBitwise(a: byte, b: byte)
    ensures IsXor(Xor(a, b), a, b)
  {
    Pow2Of8();
    forall k: nat | k < 8 ensures BitOf(Xor(a, b), k) == 1 <==> BitOf(a, k) != BitOf(b, k) {
      XorBit(a, b, BYTE_BITS, k);
    }
  }

  // ---------------------------------------------------------------- big-endian numbers

  function Pow256(k: nat): (r: nat)
    ensures r > 0
  {
    if k == 0 then 1 else 256 * Pow256(k - 1)
  }

  /** n as k bytes, most significant first; higher bytes of n are cut off. */
  function BigEndian(n: nat, k: nat): (r: seq<byte>)
    ensures |r| == k
  {
    if k == 0 then [] else BigEndian(n / 256, k - 1) + [n % 256]
  }

  /** The number that a big-endian byte string stands for. */
  function Value(b: seq<byte>): nat {
    if b == [] then 0 else 256 * Value(b[..|b| - 1]) + b[|b| - 1]
  }

  lemma {:induction false} ValueOfBigEndian(n: nat, k: nat)
    requires n < Pow256(k)
    ensures Value(BigEndian(n, k)) == n
  {
    if k > 0 {
      var r := BigEndian(n, k);
      assert r[..|r| - 1] == BigEndian(n / 256, k - 1);
      ValueOfBigEndian(n / 256, k - 1);
    }
  }

  lemma {:induction false} BigEndianOfValue(b: seq<byte>)
    ensures Value(b) < Pow256(|b|) && BigEndian(Value(b), |b|) == b
  {
    if b != [] {
      BigEndianOfValue(b[..|b| - 1]);
      assert b == b[..|b| - 1] + [b[|b| - 1]];
    }
  }

  lemma PowersOf256()
    ensures Pow256(1) == 256 && Pow256(2) == 0x1_0000 && Pow256(4) == 0x1_0000_0000
    ensures Pow256(8) == 0x1_0000_0000_0000_0000
  {
    assert Pow256(3) == 0x100_0000;
    assert Pow256(5) == 0x100_0000_0000;
    assert Pow256(6) == 0x1_0000_0000_0000;
    assert Pow256(7) == 0x100_0000_0000_0000;
  }

  lemma SliceOfRest(b: seq<byte>, i: nat, n: nat)
    requires i + n <= |b|
    ensures b[i..][..n] == b[i..i + n] && b[i..][n..] == b[i + n..]
  {
  }
}
