/** Overflow checks of BITFIELD. Machine integers are numbers with their range written out, and
    every sum or difference that the code lets wrap is reduced by Wrap or Int. */
module BitfieldOverflow {
  import opened Bits

  const U64: int := Pow2(64)
  const I63: int := Pow2(63)

  datatype Overflow = WrapAround | Saturate | Fail

  /** The integer types i1 to i64 and u1 to u63. */
  datatype Kind = Kind(signed: bool, bits: nat)

  predicate ValidKind(k: Kind) { 1 <= k.bits <= if k.signed then 64 else 63 }

  function Min(k: Kind): (r: int)
    requires ValidKind(k)
  {
    if k.signed then 0 - Pow2(k.bits - 1) else 0
  }

  function Max(k: Kind): (r: int)
    requires ValidKind(k)
  {
    if k.signed then Pow2(k.bits - 1) - 1 else Pow2(k.bits) - 1
  }

  predicate Fits(k: Kind, v: int)
    requires ValidKind(k)
  {
    Min(k) <= v <= Max(k)
  }

  predicate IsInt64(v: int) { -I63 <= v < I63 }

  /** Equal up to a multiple of 2^bits. */
  ghost predicate Congruent(a: int, b: int, bits: nat) { exists q: int :: a == b + q * Pow2(bits) }

  function Clamp(k: Kind, v: int): (r: int)
    requires ValidKind(k)
  {
    if v > Max(k) then Max(k) else if v < Min(k) then Min(k) else v
  }

  // ---- 64-bit arithmetic ----

  /** A sum or difference of two 64-bit values as an unsigned 64-bit value. */
  function Wrap(v: int): (u: nat)
    requires -U64 <= v < 2 * U64
    ensures u < U64
  {
    if v < 0 then v + U64 else if v >= U64 then v - U64 else v
  }

  /** An unsigned 64-bit value read as a signed one. */
  function Int(u: nat): (v: int)
    requires u < U64
    ensures IsInt64(v)
  {
    if u >= I63 then u - U64 else u
  }

  lemma {:induction false} Pow2Mono(a: nat, b: nat)
    requires a <= b
    ensures Pow2(a) <= Pow2(b)
  {
    if a < b { Pow2Mono(a, b - 1); }
  }

  lemma {:induction false} Pow2Split(a: nat, b: nat)
    requires b <= a
    ensures Pow2(a) == Pow2(a - b) * Pow2(b)
  {
    if b > 0 { Pow2Split(a, b - 1); }
  }

  lemma Widths(k: Kind)
    requires ValidKind(k)
    ensures U64 == 2 * I63 && Pow2(k.bits) == 2 * Pow2(k.bits - 1)
    ensures k.bits < 64 ==> Pow2(k.bits) <= I63
    ensures k.bits == 64 ==> Pow2(k.bits - 1) == I63
    ensures Fits(k, 0) && Min(k) <= Max(k) && -I63 <= Min(k) && Max(k) < I63
  {
    if k.bits < 64 { Pow2Mono(k.bits, 63); }
  }

  /** The lowest `bits` bits of a value, the others cleared; and what is above them. */
  function LowBits(u: nat, bits: nat): (r: nat) {
    if bits == 0 then 0 else 2 * LowBits(u / 2, bits - 1) + u % 2
  }

  function HighBits(u: nat, bits: nat): (r: nat) {
    if bits == 0 then u else HighBits(u / 2, bits - 1)
  }

  lemma {:induction false} LowHigh(u: nat, bits: nat)
    ensures u == HighBits(u, bits) * Pow2(bits) + LowBits(u, bits) && LowBits(u, bits) < Pow2(bits)
    ensures u < Pow2(bits) ==> LowBits(u, bits) == u
  {
    if bits > 0 {
      LowHigh(u / 2, bits - 1);
      Double(HighBits(u, bits), Pow2(bits - 1));
    }
  }

  lemma Double(h: nat, p: nat)
    ensures h * (2 * p) == 2 * (h * p)
  {
  }

  lemma LowBitsCongruent(u: nat, v: int, bits: nat)
    requires bits <= 64 && -U64 <= v < 2 * U64 && u == Wrap(v)
    ensures LowBits(u, bits) < Pow2(bits)
    ensures Congruent(LowBits(u, bits), v, bits)
    ensures Congruent(LowBits(u, bits) - Pow2(bits), v, bits)
  {
    hide LowBits;
    hide HighBits;
    hide Pow2;
    LowHigh(u, bits);
    Pow2Split(64, bits);
    var p, q := Pow2(bits), HighBits(u, bits);
    var d: int := if v < 0 then Pow2(64 - bits) else if v >= U64 then 0 - Pow2(64 - bits) else 0;
    assert u == v + d * p by { Signs(Pow2(64 - bits), p); }
    Times(d, q, p);
    assert LowBits(u, bits) == v + (d - q) * p;
    assert LowBits(u, bits) - p == v + (d - q - 1) * p;
  }

  lemma Signs(a: int, p: int)
    ensures (0 - a) * p == 0 - a * p && 0 * p == 0
  {
  }

  lemma Times(d: int, q: int, p: int)
    ensures d * p - q * p == (d - q) * p && (d - q) * p - p == (d - q - 1) * p
  {
  }

  // ---- the two checks ----

  /** What a check returns: 0 for no overflow, else 1 or -1, with the value to store instead. */
  datatype Check = Check(code: int, limit: int)

  /** Which side an unsigned sum overflows on, as the code decides it. */
  function UnsignedCode(value: nat, incr: int, bits: nat): (c: int)
    requires value < U64 && IsInt64(incr) && 1 <= bits <= 63
    ensures c == -1 || c == 0 || c == 1
  {
    Widths(Kind(false, bits));
    var max := Pow2(bits) - 1;
    var maxincr := Int(Wrap(max - value));
    var minincr := Int(Wrap(0 - value));
    if value > max || (incr > 0 && incr > maxincr) then 1
    else if incr < 0 && incr < minincr then -1
    else 0
  }

  function CheckUnsigned(value: nat, incr: int, bits: nat, ow: Overflow): (c: Check)
    requires value < U64 && IsInt64(incr) && 1 <= bits <= 63
  {
    Widths(Kind(false, bits));
    var code := UnsignedCode(value, incr, bits);
    if code == 0 then Check(0, 0)
    else if ow.WrapAround? then Check(1, LowBits(Wrap(value + incr), bits))
    else Check(code, if code == 1 then Pow2(bits) - 1 else 0)
  }

  /** The sum with the sign bit of the field propagated, or the bits above it cleared. */
  function WrapSigned(sum: int, bits: nat): (v: int)
    requires -U64 <= sum < 2 * U64 && 1 <= bits <= 64
  {
    var c := Wrap(sum);
    if bits == 64 then Int(c)
    else
      var low := LowBits(c, bits);
      if low >= Pow2(bits - 1) then low - Pow2(bits) else low
  }

  function SignedCode(value: int, incr: int, bits: nat): (c: int)
    requires IsInt64(value) && IsInt64(incr) && 1 <= bits <= 64
    ensures c == -1 || c == 0 || c == 1
  {
    Widths(Kind(true, bits));
    var max := Pow2(bits - 1) - 1;
    var min := -max - 1;
    var maxincr := Int(Wrap(max - value));
    var minincr := Int(Wrap(min - value));
    if value > max || (bits != 64 && incr > maxincr) || (value >= 0 && incr > 0 && incr > maxincr) then 1
    else if value < min || (bits != 64 && incr < minincr) || (value < 0 && incr < 0 && incr < minincr) then -1
    else 0
  }

  function CheckSigned(value: int, incr: int, bits: nat, ow: Overflow): (c: Check)
    requires IsInt64(value) && IsInt64(incr) && 1 <= bits <= 64
  {
    Widths(Kind(true, bits));
    var code := SignedCode(value, incr, bits);
    if code == 0 then Check(0, 0)
    else if ow.WrapAround? then Check(1, WrapSigned(value + incr, bits))
    else Check(code, if code == 1 then Pow2(bits - 1) - 1 else 0 - Pow2(bits - 1))
  }

  lemma WrapSignedExact(sum: int, bits: nat)
    requires -U64 <= sum < 2 * U64 && 1 <= bits <= 64
    ensures Fits(Kind(true, bits), WrapSigned(sum, bits)) && Congruent(WrapSigned(sum, bits), sum, bits)
  {
    hide Congruent;
    hide LowBits;
    hide Pow2;
    Widths(Kind(true, bits));
    LowBitsCongruent(Wrap(sum), sum, bits);
    if bits == 64 { LowHigh(Wrap(sum), bits); }
  }

  /** On a stored value the code tells exactly which bound the sum exceeds. */
  lemma UnsignedCodeExact(value: nat, incr: int, bits: nat)
    requires 1 <= bits <= 63 && Fits(Kind(false, bits), value) && IsInt64(incr)
    ensures value < U64
    ensures UnsignedCode(value, incr, bits) == 1 <==> value + incr > Max(Kind(false, bits))
    ensures UnsignedCode(value, incr, bits) == -1 <==> value + incr < 0
  {
    hide Pow2;
    Widths(Kind(false, bits));
  }

  lemma SignedCodeExact(value: int, incr: int, bits: nat)
    requires 1 <= bits <= 64 && Fits(Kind(true, bits), value) && IsInt64(incr)
    ensures IsInt64(value)
    ensures SignedCode(value, incr, bits) == 1 <==> value + incr > Max(Kind(true, bits))
    ensures SignedCode(value, incr, bits) == -1 <==> value + incr < Min(Kind(true, bits))
  {
    hide Pow2;
    Widths(Kind(true, bits));
  }

  /** On any value and no increment: too large, or so low that the distance wraps, reads as an
      overflow; other low values as an underflow. */
  lemma SignedCodeOfSet(value: int, bits: nat)
    requires 1 <= bits <= 64 && IsInt64(value)
    ensures var k := Kind(true, bits);
            && (SignedCode(value, 0, bits) == 1 <==> value > Max(k) || Max(k) - value >= I63 > Max(k) + 1)
            && (SignedCode(value, 0, bits) == -1 <==> value < Min(k) && !(Max(k) - value >= I63))
  {
    hide Pow2;
    Widths(Kind(true, bits));
    if bits < 64 { Pow2Mono(bits - 1, 62); Widths(Kind(true, 63)); }
  }

  /** Which value ends up stored: the sum when it fits, else by overflow type. */
  ghost predicate Stores(k: Kind, sum: int, ow: Overflow, r: int)
    requires ValidKind(k)
  {
    if Fits(k, sum) then r == sum
    else if ow.WrapAround? then Fits(k, r) && Congruent(r, sum, k.bits)
    else r == Clamp(k, sum)
  }

  /** INCRBY on a stored unsigned value: the check detects exactly the sums that do not fit. */
  lemma IncrUnsigned(value: nat, incr: int, bits: nat, ow: Overflow)
    requires 1 <= bits <= 63 && Fits(Kind(false, bits), value) && IsInt64(incr)
    ensures value < U64
    ensures var c := CheckUnsigned(value, incr, bits, ow);
            && (c.code == 0 <==> Fits(Kind(false, bits), value + incr))
            && (c.code != 0 ==> Stores(Kind(false, bits), value + incr, ow, c.limit))
  {
    hide Congruent;
    hide LowBits;
    hide Pow2;
    hide UnsignedCode;
    hide Wrap;
    Widths(Kind(false, bits));
    UnsignedCodeExact(value, incr, bits);
    LowBitsCongruent(Wrap(value + incr), value + incr, bits);
  }

  lemma IncrSigned(value: int, incr: int, bits: nat, ow: Overflow)
    requires 1 <= bits <= 64 && Fits(Kind(true, bits), value) && IsInt64(incr)
    ensures IsInt64(value)
    ensures var c := CheckSigned(value, incr, bits, ow);
            && (c.code == 0 <==> Fits(Kind(true, bits), value + incr))
            && (c.code != 0 ==> Stores(Kind(true, bits), value + incr, ow, c.limit))
  {
    hide Congruent;
    hide WrapSigned;
    hide Pow2;
    hide SignedCode;
    Widths(Kind(true, bits));
    SignedCodeExact(value, incr, bits);
    WrapSignedExact(value + incr, bits);
  }

  /** SET of any 64-bit value into a signed field: overflow is detected exactly, and what is
      stored is right except that saturation gives the maximum, not the minimum, for values so
      low that their distance to the maximum wraps. */
  lemma SetSigned(value: int, bits: nat, ow: Overflow)
    requires 1 <= bits <= 64 && IsInt64(value)
    ensures var k, c := Kind(true, bits), CheckSigned(value, 0, bits, ow);
            && (c.code == 0 <==> Fits(k, value))
            && (c.code != 0 ==> (Stores(k, value, ow, c.limit) <==> ow == WrapAround || Max(k) - value < I63))
            && (c.code != 0 && ow != WrapAround && Max(k) - value >= I63 ==> c.limit == Max(k))
            && (c.code != 0 && ow != Fail ==> Fits(k, c.limit))
  {
    hide Congruent;
    hide WrapSigned;
    hide Pow2;
    hide SignedCode;
    Widths(Kind(true, bits));
    SignedCodeOfSet(value, bits);
    WrapSignedExact(value, bits);
    Pow2Positive(bits - 1);
  }

  lemma Pow2Positive(n: nat)
    ensures Pow2(n) >= 1
  {
  }

  /** SET of any 64-bit value into an unsigned field, through the cast to unsigned: saturation
      gives the maximum for negative values. */
  lemma SetUnsigned(value: int, bits: nat, ow: Overflow)
    requires 1 <= bits <= 63 && IsInt64(value)
    ensures -U64 <= value
    ensures var k, c := Kind(false, bits), CheckUnsigned(Wrap(value), 0, bits, ow);
            && (c.code == 0 <==> Fits(k, value))
            && (c.code != 0 ==> (Stores(k, value, ow, c.limit) <==> ow == WrapAround || value >= 0))
            && (c.code != 0 && ow != WrapAround && value < 0 ==> c.limit == Max(k))
            && (c.code != 0 && ow != Fail ==> Fits(k, c.limit))
  {
    hide Congruent;
    hide LowBits;
    Pow2Mono(1, bits);
    Widths(Kind(false, bits));
    hide Pow2;
    LowBitsCongruent(Wrap(value), value, bits);
  }

  lemma PowValues()
    ensures Pow2(7) == 128 && I63 == 0x8000_0000_0000_0000
  {
    assert Pow2(4) == 16;
    assert Pow2(7) == 128 && Pow2(8) == 256;
    Pow2Split(16, 8);
    Pow2Split(32, 16);
    Pow2Split(64, 32);
    assert U64 == 2 * I63;
  }

  /** A concrete saturating SET that stores the wrong bound. */
  lemma SetSignedWrongBound()
    ensures IsInt64(-0x8000_0000_0000_0000)
    ensures CheckSigned(-0x8000_0000_0000_0000, 0, 8, Saturate) == Check(1, 127)
    ensures Clamp(Kind(true, 8), -0x8000_0000_0000_0000) == -128
  {
    hide SignedCode;
    PowValues();
    Widths(Kind(true, 8));
    hide Pow2;
    SignedCodeOfSet(-0x8000_0000_0000_0000, 8);
  }
}
