/** Bytes and bit strings. A byte is its eight bits, most significant first, and a string is an
    infinite bit array: bit 0 is the first bit of byte 0, and all past the last byte is 0. */
module Bits {
  type Byte = b: seq<bool> | |b| == 8 witness [false, false, false, false, false, false, false, false]

  const ZERO: Byte := [false, false, false, false, false, false, false, false]

  function ByteAt(s: seq<Byte>, p: nat): (b: Byte) {
    if p < |s| then s[p] else ZERO
  }

  /** Bit `n` of the zero-padded string. */
  predicate Bit(s: seq<Byte>, n: nat) { ByteAt(s, n / 8)[n % 8] }

  /** How many bits are set. */
  function Ones(bits: seq<bool>): (n: nat) {
    if bits == [] then 0 else Ones(bits[..|bits| - 1]) + (if bits[|bits| - 1] then 1 else 0)
  }

  lemma OnesPush(bits: seq<bool>, b: bool)
    ensures Ones(bits + [b]) == Ones(bits) + if b then 1 else 0
  {
    assert (bits + [b])[..|bits|] == bits;
  }

  function Pow2(n: nat): (r: nat)
    ensures r > 0
  {
    if n == 0 then 1 else 2 * Pow2(n - 1)
  }

  /** The unsigned number a bit string writes, most significant bit first. */
  function Number(bits: seq<bool>): (v: nat) {
    if bits == [] then 0 else 2 * Number(bits[..|bits| - 1]) + (if bits[|bits| - 1] then 1 else 0)
  }

  /** The byte whose first `m` bits are set. */
  function FirstBits(m: nat): (b: Byte)
    requires m <= 8
    ensures forall k :: 0 <= k < 8 ==> b[k] == (k < m)
  {
    seq(8, k => k < m)
  }

  /** The byte whose last `m` bits are set. */
  function LastBits(m: nat): (b: Byte)
    requires m <= 8
    ensures forall k :: 0 <= k < 8 ==> b[k] == (k >= 8 - m)
  {
    seq(8, k => k >= 8 - m)
  }

  lemma {:induction false} NumberRun(bits: seq<bool>, m: nat)
    requires m <= |bits| && forall k :: 0 <= k < |bits| ==> bits[k] == (k >= |bits| - m)
    ensures Number(bits) == Pow2(m) - 1
  {
    if bits != [] {
      var n := |bits| - 1;
      NumberRun(bits[..n], if m == 0 then 0 else m - 1);
    }
  }

  lemma {:induction false} NumberComplement(a: seq<bool>, b: seq<bool>)
    requires |a| == |b| && forall k :: 0 <= k < |a| ==> a[k] == !b[k]
    ensures Number(a) + Number(b) == Pow2(|a|) - 1
  {
    if a != [] {
      var n := |a| - 1;
      NumberComplement(a[..n], b[..n]);
    }
  }

  /** The lowest `n` bits of a number, most significant first. */
  function ToBits(v: nat, n: nat): (f: seq<bool>)
    ensures |f| == n
  {
    if n == 0 then [] else ToBits(v / 2, n - 1) + [v % 2 == 1]
  }

  lemma {:induction false} ToBitsOfNumber(bits: seq<bool>)
    ensures ToBits(Number(bits), |bits|) == bits
  {
    if bits != [] {
      var n := |bits| - 1;
      ToBitsOfNumber(bits[..n]);
      assert bits == bits[..n] + [bits[n]];
    }
  }

  /** The byte of a number below 256. */
  function ByteOf(v: nat): (b: Byte) { ToBits(v, 8) }

  /** The two masks of the edges of a bit range, as the code computes them by shifting. */
  function FirstMask(m: nat): (v: int)
    requires m <= 8
  {
    0xFF - (Pow2(8 - m) - 1)
  }

  function LastMask(m: nat): (v: int) { Pow2(m) - 1 }

  /** They have exactly the first, or the last, `m` bits set, and are 0 only when there are none. */
  lemma MaskNumbers(m: nat)
    requires m <= 8
    ensures FirstMask(m) >= 0 && ByteOf(FirstMask(m)) == FirstBits(m) && (FirstMask(m) == 0 <==> m == 0)
    ensures LastMask(m) >= 0 && ByteOf(LastMask(m)) == LastBits(m) && (LastMask(m) == 0 <==> m == 0)
  {
    NumberRun(LastBits(m), m);
    NumberRun(LastBits(8 - m), 8 - m);
    NumberComplement(FirstBits(m), LastBits(8 - m));
    assert Pow2(8) == 256;
    ToBitsOfNumber(FirstBits(m));
    ToBitsOfNumber(LastBits(m));
    hide ToBits;
    hide Number;
    assert Number(FirstBits(m)) == FirstMask(m) && Number(LastBits(m)) == LastMask(m);
    MaskZero(m);
  }

  lemma MaskZero(m: nat)
    requires m <= 8
    ensures (Pow2(m) == 1 <==> m == 0) && (Pow2(8 - m) == 256 <==> m == 0)
  {
    assert Pow2(8) == 256;
  }

  // ---- ranges given by the caller ----

  /** A negative position counts from the end, and none is below 0. */
  function Clip(i: int, total: nat): (r: int)
    ensures r >= 0
  {
    var j := if i < 0 then total + i else i;
    if j < 0 then 0 else j
  }

  /** The last position asked for, clipped to the string as well. */
  function ClipEnd(i: int, total: nat): (r: int)
    ensures r < total || total == 0
  {
    if Clip(i, total) >= total then total - 1 else Clip(i, total)
  }

  /** Byte positions of the edges of a bit range, and how many bits to leave out there. */
  lemma ByteEdges(a: nat, b: nat, len: nat)
    requires a <= b < 8 * len
    ensures a == 8 * (a / 8) + a % 8 && b + 1 == 8 * (b / 8) + 8 - (7 - b % 8)
    ensures a / 8 <= b / 8 < len && (a / 8 == b / 8 ==> a % 8 + (7 - b % 8) < 8)
  {
  }
}
