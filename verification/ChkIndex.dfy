/** Bucket indices of the two cuckoo tables. A table has `Size(bits)` buckets, a power of two,
    which is what the constructor asserts. */
module ChkIndex {
  import opened Bits

  const MULTIPLIER: nat := 0x5bd1e995

  function Size(bits: nat): (n: nat) { Pow2(bits) }

  /** The exclusive or of two numbers, masked to the lowest `bits` bits. */
  function XorMask(a: nat, b: nat, bits: nat): (r: nat)
    ensures r < Size(bits)
  {
    if bits == 0 then 0
    else 2 * XorMask(a / 2, b / 2, bits - 1) + (if a % 2 == b % 2 then 0 else 1)
  }

  lemma {:induction false} XorMaskTwice(a: nat, b: nat, bits: nat)
    requires a < Size(bits)
    ensures XorMask(XorMask(a, b, bits), b, bits) == a
  {
    if bits > 0 {
      XorMaskTwice(a / 2, b / 2, bits - 1);
      assert XorMask(a, b, bits) / 2 == XorMask(a / 2, b / 2, bits - 1);
    }
  }

  /** The index, in the other table, of the bucket paired with bucket `i` for a fingerprint. */
  function Alt(fp: nat, i: nat, bits: nat): (r: nat)
    ensures r < Size(bits)
  {
    XorMask(i, MULTIPLIER * fp, bits)
  }

  /** The exclusive or, bit by bit: a bit is set iff exactly one of the operands has it. */
  lemma {:induction false} XorMaskBits(a: nat, b: nat, bits: nat, n: nat)
    requires n < bits
    ensures ToBits(XorMask(a, b, bits), bits)[n] <==> ToBits(a, bits)[n] != ToBits(b, bits)[n]
  {
    hide XorMask;
    XorMaskStep(a, b, bits);
    if n < bits - 1 {
      XorMaskBits(a / 2, b / 2, bits - 1, n);
    }
  }

  lemma XorMaskStep(a: nat, b: nat, bits: nat)
    requires bits > 0
    ensures XorMask(a, b, bits) / 2 == XorMask(a / 2, b / 2, bits - 1)
    ensures XorMask(a, b, bits) % 2 == 1 <==> (a % 2 == 1) != (b % 2 == 1)
  {
  }

  /** The bits of the paired bucket. */
  lemma AltBits(fp: nat, i: nat, bits: nat, n: nat)
    requires n < bits
    ensures ToBits(Alt(fp, i, bits), bits)[n] <==> ToBits(i, bits)[n] != ToBits(1540483477 * fp, bits)[n]
  {
    XorMaskBits(i, MULTIPLIER * fp, bits, n);
  }

  /** Pairing is symmetric: the alternate of the alternate is the bucket itself. */
  lemma AltTwice(fp: nat, i: nat, bits: nat)
    requires i < Size(bits)
    ensures Alt(fp, Alt(fp, i, bits), bits) == i
  {
    XorMaskTwice(i, MULTIPLIER * fp, bits);
  }
}
