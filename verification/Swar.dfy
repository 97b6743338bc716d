/** Counting the bits of a 32-bit word by adding neighbouring digits: pairs of bits, then pairs
    of 2-bit digits, then pairs of 4-bit digits. Words are numbers below 2^32 and every machine
    operation that could wrap is reduced explicitly. */
module Swar {
  import opened Bits

  const WRAP: nat := 0x1_0000_0000

  function Quot(x: nat, b: nat): (q: nat)
    requires b > 0
  {
    x / b
  }

  function Rem(x: nat, b: nat): (r: nat)
    requires b > 0
  {
    x % b
  }

  /** Sum of the lowest `n` digits in base 2. */
  function DigitSum2(x: nat, n: nat): (r: nat) {
    if n == 0 then 0 else Rem(x, 2) + DigitSum2(Quot(x, 2), n - 1)
  }

  /** Sum of the lowest `n` digits in base 4. */
  function DigitSum4(x: nat, n: nat): (r: nat) {
    if n == 0 then 0 else Rem(x, 4) + DigitSum4(Quot(x, 4), n - 1)
  }

  /** Sum of the lowest `n` digits in base 16. */
  function DigitSum16(x: nat, n: nat): (r: nat) {
    if n == 0 then 0 else Rem(x, 16) + DigitSum16(Quot(x, 16), n - 1)
  }

  /** Sum of the lowest `n` digits in base 256. */
  function DigitSum256(x: nat, n: nat): (r: nat) {
    if n == 0 then 0 else Rem(x, 256) + DigitSum256(Quot(x, 256), n - 1)
  }

  /** Has `n` digits in base 4, none above `m`. */
  predicate Digits4(x: nat, n: nat, m: nat) {
    if n == 0 then x == 0 else Rem(x, 4) <= m && Digits4(Quot(x, 4), n - 1, m)
  }

  /** Has `n` digits in base 16, none above `m`. */
  predicate Digits16(x: nat, n: nat, m: nat) {
    if n == 0 then x == 0 else Rem(x, 16) <= m && Digits16(Quot(x, 16), n - 1, m)
  }

  /** Has `n` digits in base 256, none above `m`. */
  predicate Digits256(x: nat, n: nat, m: nat) {
    if n == 0 then x == 0 else Rem(x, 256) <= m && Digits256(Quot(x, 256), n - 1, m)
  }

  /** Every second digit in base 2, `n` of them, left in place. */
  function Low2(x: nat, n: nat): (r: nat) {
    if n == 0 then 0 else Rem(x, 2) + 4 * Low2(Quot(x, 4), n - 1)
  }

  /** Every second digit in base 4, `n` of them, left in place. */
  function Low4(x: nat, n: nat): (r: nat) {
    if n == 0 then 0 else Rem(x, 4) + 16 * Low4(Quot(x, 16), n - 1)
  }

  /** Every second digit in base 16, `n` of them, left in place. */
  function Low16(x: nat, n: nat): (r: nat) {
    if n == 0 then 0 else Rem(x, 16) + 256 * Low16(Quot(x, 256), n - 1)
  }

  lemma Bit01(x: nat)
    ensures Rem(x, 2) <= 1 && Rem(Quot(x, 2), 2) <= 1
  {
  }

  lemma Div2(x: nat)
    ensures Quot(Quot(x, 2), 2) == Quot(x, 4) && Quot(Quot(x, 2), 4) == Quot(Quot(x, 4), 2)
  {
  }

  /** Two digits at a time in base 2. */
  lemma TwoDigits2(x: nat, n: nat)
    requires n > 0
    ensures DigitSum2(x, 2 * n) == Rem(x, 2) + Rem(Quot(x, 2), 2) + DigitSum2(Quot(x, 4), 2 * (n - 1))
  {
    Div2(x);
    hide Quot;
    hide Rem;
    assert DigitSum2(Quot(x, 2), 2 * n - 1) == Rem(Quot(x, 2), 2) + DigitSum2(Quot(Quot(x, 2), 2), 2 * n - 2);
  }

  lemma TwoLow2(x: nat, n: nat)
    requires n > 0
    ensures Low2(x, n) == Rem(x, 2) + 4 * Low2(Quot(x, 4), n - 1)
    ensures Low2(Quot(x, 2), n) == Rem(Quot(x, 2), 2) + 4 * Low2(Quot(Quot(x, 4), 2), n - 1)
  {
    Div2(x);
    hide Quot;
    hide Rem;
  }

  lemma Push4(d: nat, z: nat, n: nat, m: nat)
    requires n > 0 && d < 4
    ensures DigitSum4(d + 4 * z, n) == d + DigitSum4(z, n - 1)
    ensures d <= m && Digits4(z, n - 1, m) ==> Digits4(d + 4 * z, n, m)
  {
    Parts4(d, z);
    hide Quot;
    hide Rem;
  }

  lemma Parts4(d: nat, z: nat)
    requires d < 4
    ensures Rem(d + 4 * z, 4) == d && Quot(d + 4 * z, 4) == z
  {
  }

  /** Adding neighbouring digits in base 2 keeps the digit sum. */
  lemma {:induction false} Pairs2(x: nat, n: nat)
    ensures DigitSum4(Low2(x, n) + Low2(Quot(x, 2), n), n) == DigitSum2(x, 2 * n)
    ensures Digits4(Low2(x, n) + Low2(Quot(x, 2), n), n, 2)
    decreases n
  {
    hide Quot;
    hide Rem;
    if n > 0 {
      Bit01(x);
      hide DigitSum2;
      hide DigitSum4;
      hide Digits4;
      hide Low2;
      TwoDigits2(x, n);
      TwoLow2(x, n);
      Pairs2(Quot(x, 4), n - 1);
      Push4(Rem(x, 2) + Rem(Quot(x, 2), 2), Low2(Quot(x, 4), n - 1) + Low2(Quot(Quot(x, 4), 2), n - 1), n, 2);
    }
  }

  lemma Div4(x: nat)
    ensures Quot(Quot(x, 4), 4) == Quot(x, 16) && Quot(Quot(x, 4), 16) == Quot(Quot(x, 16), 4)
  {
  }

  /** Two digits at a time in base 4. */
  lemma TwoDigits4(x: nat, n: nat)
    requires n > 0
    requires Digits4(x, 2 * n, 2)
    ensures DigitSum4(x, 2 * n) == Rem(x, 4) + Rem(Quot(x, 4), 4) + DigitSum4(Quot(x, 16), 2 * (n - 1))
    ensures Rem(x, 4) <= 2 && Rem(Quot(x, 4), 4) <= 2 && Digits4(Quot(x, 16), 2 * (n - 1), 2)
  {
    Div4(x);
    hide Quot;
    hide Rem;
    assert DigitSum4(Quot(x, 4), 2 * n - 1) == Rem(Quot(x, 4), 4) + DigitSum4(Quot(Quot(x, 4), 4), 2 * n - 2);
    assert Digits4(Quot(x, 4), 2 * n - 1, 2);
  }

  lemma TwoLow4(x: nat, n: nat)
    requires n > 0
    ensures Low4(x, n) == Rem(x, 4) + 16 * Low4(Quot(x, 16), n - 1)
    ensures Low4(Quot(x, 4), n) == Rem(Quot(x, 4), 4) + 16 * Low4(Quot(Quot(x, 16), 4), n - 1)
  {
    Div4(x);
    hide Quot;
    hide Rem;
  }

  lemma Push16(d: nat, z: nat, n: nat, m: nat)
    requires n > 0 && d < 16
    ensures DigitSum16(d + 16 * z, n) == d + DigitSum16(z, n - 1)
    ensures d <= m && Digits16(z, n - 1, m) ==> Digits16(d + 16 * z, n, m)
  {
    Parts16(d, z);
    hide Quot;
    hide Rem;
  }

  lemma Parts16(d: nat, z: nat)
    requires d < 16
    ensures Rem(d + 16 * z, 16) == d && Quot(d + 16 * z, 16) == z
  {
  }

  /** Adding neighbouring digits in base 4 keeps the digit sum. */
  lemma {:induction false} Pairs4(x: nat, n: nat)
    requires Digits4(x, 2 * n, 2)
    ensures DigitSum16(Low4(x, n) + Low4(Quot(x, 4), n), n) == DigitSum4(x, 2 * n)
    ensures Digits16(Low4(x, n) + Low4(Quot(x, 4), n), n, 4)
    decreases n
  {
    hide Quot;
    hide Rem;
    if n > 0 {
      hide DigitSum4;
      hide DigitSum16;
      hide Digits16;
      hide Digits4;
      hide Low4;
      TwoDigits4(x, n);
      TwoLow4(x, n);
      Pairs4(Quot(x, 16), n - 1);
      Push16(Rem(x, 4) + Rem(Quot(x, 4), 4), Low4(Quot(x, 16), n - 1) + Low4(Quot(Quot(x, 16), 4), n - 1), n, 4);
    }
  }

  lemma Div16(x: nat)
    ensures Quot(Quot(x, 16), 16) == Quot(x, 256) && Quot(Quot(x, 16), 256) == Quot(Quot(x, 256), 16)
  {
  }

  /** Two digits at a time in base 16. */
  lemma TwoDigits16(x: nat, n: nat)
    requires n > 0
    requires Digits16(x, 2 * n, 4)
    ensures DigitSum16(x, 2 * n) == Rem(x, 16) + Rem(Quot(x, 16), 16) + DigitSum16(Quot(x, 256), 2 * (n - 1))
    ensures Rem(x, 16) <= 4 && Rem(Quot(x, 16), 16) <= 4 && Digits16(Quot(x, 256), 2 * (n - 1), 4)
  {
    Div16(x);
    hide Quot;
    hide Rem;
    assert DigitSum16(Quot(x, 16), 2 * n - 1) == Rem(Quot(x, 16), 16) + DigitSum16(Quot(Quot(x, 16), 16), 2 * n - 2);
    assert Digits16(Quot(x, 16), 2 * n - 1, 4);
  }

  lemma TwoLow16(x: nat, n: nat)
    requires n > 0
    ensures Low16(x, n) == Rem(x, 16) + 256 * Low16(Quot(x, 256), n - 1)
    ensures Low16(Quot(x, 16), n) == Rem(Quot(x, 16), 16) + 256 * Low16(Quot(Quot(x, 256), 16), n - 1)
  {
    Div16(x);
    hide Quot;
    hide Rem;
  }

  lemma Push256(d: nat, z: nat, n: nat, m: nat)
    requires n > 0 && d < 256
    ensures DigitSum256(d + 256 * z, n) == d + DigitSum256(z, n - 1)
    ensures d <= m && Digits256(z, n - 1, m) ==> Digits256(d + 256 * z, n, m)
  {
    Parts256(d, z);
    hide Quot;
    hide Rem;
  }

  lemma Parts256(d: nat, z: nat)
    requires d < 256
    ensures Rem(d + 256 * z, 256) == d && Quot(d + 256 * z, 256) == z
  {
  }

  /** Adding neighbouring digits in base 16 keeps the digit sum. */
  lemma {:induction false} Pairs16(x: nat, n: nat)
    requires Digits16(x, 2 * n, 4)
    ensures DigitSum256(Low16(x, n) + Low16(Quot(x, 16), n), n) == DigitSum16(x, 2 * n)
    ensures Digits256(Low16(x, n) + Low16(Quot(x, 16), n), n, 8)
    decreases n
  {
    hide Quot;
    hide Rem;
    if n > 0 {
      hide DigitSum16;
      hide DigitSum256;
      hide Digits256;
      hide Digits16;
      hide Low16;
      TwoDigits16(x, n);
      TwoLow16(x, n);
      Pairs16(Quot(x, 256), n - 1);
      Push256(Rem(x, 16) + Rem(Quot(x, 16), 16), Low16(Quot(x, 256), n - 1) + Low16(Quot(Quot(x, 256), 16), n - 1), n, 8);
    }
  }

  /** A number is its even bits plus twice its odd bits. */
  lemma {:induction false} SplitBits(x: nat, n: nat)
    requires Digits4(x, n, 3)
    ensures x == Low2(x, n) + 2 * Low2(Quot(x, 2), n)
  {
    if n > 0 {
      BitsOf(x);
      hide Quot;
      hide Rem;
      hide Low2;
      TwoLow2(x, n);
      SplitBits(Quot(x, 4), n - 1);
    } else {
      assert x == 0;
    }
  }

  lemma BitsOf(x: nat)
    ensures x == Rem(x, 2) + 2 * Rem(Quot(x, 2), 2) + 4 * Quot(x, 4)
  {
  }

  /** With small digits, adding first and masking after gives the same pairs. */
  lemma {:induction false} AddThenMask(x: nat, n: nat)
    requires Digits16(x, 2 * n, 4)
    ensures Low16(x + Quot(x, 16), n) == Low16(x, n) + Low16(Quot(x, 16), n)
    decreases n
  {
    hide Quot;
    hide Rem;
    if n > 0 {
      hide Low16;
      TwoDigits16(x, n);
      NoCarry(x, n);
      TwoLow16(x, n);
      TwoLow16(x + Quot(x, 16), n);
      AddThenMask(Quot(x, 256), n - 1);
    }
  }

  /** Small digits do not carry into the next byte. */
  lemma NoCarry(x: nat, n: nat)
    requires n > 0 && Rem(x, 16) <= 4 && Rem(Quot(x, 16), 16) <= 4 && Digits16(Quot(x, 256), 2 * (n - 1), 4)
    ensures Rem(x + Quot(x, 16), 16) == Rem(x, 16) + Rem(Quot(x, 16), 16)
    ensures Quot(x + Quot(x, 16), 256) == Quot(x, 256) + Quot(Quot(x, 256), 16)
  {
    assert Rem(Quot(x, 256), 16) <= 4;
    NibblesOf(x);
    var f, g, e, z := Rem(x, 16), Rem(Quot(x, 16), 16), Rem(Quot(x, 256), 16), Quot(Quot(x, 256), 16);
    hide Quot;
    hide Rem;
    hide Digits16;
    assert x + Quot(x, 16) == (f + g + 16 * (g + e)) + 256 * (e + 17 * z);
    Parts16(f + g, g + e + 16 * (e + 17 * z));
    Parts256(f + g + 16 * (g + e), e + 17 * z);
  }

  lemma NibblesOf(x: nat)
    ensures x == Rem(x, 16) + 16 * Quot(x, 16)
    ensures Quot(x, 16) == Rem(Quot(x, 16), 16) + 16 * Quot(x, 256)
    ensures Quot(x, 256) == Rem(Quot(x, 256), 16) + 16 * Quot(Quot(x, 256), 16)
  {
  }

  // ---- masks ----

  /** Bitwise and. */
  function And(a: nat, b: nat): (r: nat) {
    if b == 0 then 0 else 2 * And(Quot(a, 2), Quot(b, 2)) + (if Rem(b, 2) == 1 then Rem(a, 2) else 0)
  }

  lemma AndBit(x: nat, m: nat)
    ensures And(x, 1 + 2 * m) == Rem(x, 2) + 2 * And(Quot(x, 2), m)
    ensures And(x, 2 * m) == 2 * And(Quot(x, 2), m)
  {
    hide Quot;
    hide Rem;
    EvenOdd(m);
    BitBelowTwo(x);
  }

  lemma EvenOdd(m: nat)
    ensures Quot(1 + 2 * m, 2) == m && Rem(1 + 2 * m, 2) == 1 && Quot(2 * m, 2) == m && Rem(2 * m, 2) == 0
  {
  }

  lemma BitBelowTwo(x: nat)
    ensures Rem(x, 2) <= 1 && And(x, 0) == 0
  {
  }

  lemma Digits2(x: nat)
    ensures Quot(Quot(x, 2), 2) == Quot(x, 4) && Rem(x, 4) == Rem(x, 2) + 2 * Rem(Quot(x, 2), 2)
    ensures Quot(Quot(x, 4), 4) == Quot(x, 16) && Rem(x, 16) == Rem(x, 4) + 4 * Rem(Quot(x, 4), 4)
  {
  }

  lemma And2Bits(x: nat, m: nat)
    ensures And(x, 3 + 4 * m) == Rem(x, 4) + 4 * And(Quot(x, 4), m)
    ensures And(x, 4 * m) == 4 * And(Quot(x, 4), m)
  {
    hide And;
    hide Quot;
    hide Rem;
    Digits2(x);
    AndBit(x, 1 + 2 * m);
    AndBit(x, 2 * m);
    AndBit(Quot(x, 2), m);
  }

  lemma And4Bits(x: nat, m: nat)
    ensures And(x, 15 + 16 * m) == Rem(x, 16) + 16 * And(Quot(x, 16), m)
    ensures And(x, 16 * m) == 16 * And(Quot(x, 16), m)
  {
    hide And;
    hide Quot;
    hide Rem;
    Digits2(x);
    And2Bits(x, 3 + 4 * m);
    And2Bits(x, 4 * m);
    And2Bits(Quot(x, 4), m);
  }

  /** The masks 0x55..., 0x33... and 0x0F0F..., with `n` groups. */
  function Mask2(n: nat): (m: nat) { if n == 0 then 0 else 1 + 4 * Mask2(n - 1) }

  function Mask4(n: nat): (m: nat) { if n == 0 then 0 else 3 + 16 * Mask4(n - 1) }

  function Mask16(n: nat): (m: nat) { if n == 0 then 0 else 15 + 256 * Mask16(n - 1) }

  lemma Masks()
    ensures Mask2(16) == 0x5555_5555 && Mask4(8) == 0x3333_3333 && Mask16(4) == 0x0F0F_0F0F
  {
    assert Mask2(2) == 0x5 && Mask4(2) == 0x33 && Mask16(2) == 0x0F0F;
    assert Mask2(4) == 0x55 && Mask4(4) == 0x3333;
    assert Mask2(6) == 0x555 && Mask4(6) == 0x33_3333;
    assert Mask2(8) == 0x5555;
    assert Mask2(10) == 0x5_5555;
    assert Mask2(12) == 0x55_5555;
    assert Mask2(14) == 0x555_5555;
  }

  lemma {:induction false} AndMask2(x: nat, n: nat)
    ensures And(x, Mask2(n)) == Low2(x, n)
    decreases n
  {
    hide And;
    hide Quot;
    hide Rem;
    BitBelowTwo(x);
    if n > 0 {
      Div2(x);
      AndBit(x, 2 * Mask2(n - 1));
      AndBit(Quot(x, 2), Mask2(n - 1));
      AndMask2(Quot(x, 4), n - 1);
    }
  }

  lemma {:induction false} AndMask4(x: nat, n: nat)
    ensures And(x, Mask4(n)) == Low4(x, n)
    decreases n
  {
    hide And;
    hide Quot;
    hide Rem;
    BitBelowTwo(x);
    if n > 0 {
      Div4(x);
      And2Bits(x, 4 * Mask4(n - 1));
      And2Bits(Quot(x, 4), Mask4(n - 1));
      AndMask4(Quot(x, 16), n - 1);
    }
  }

  lemma {:induction false} AndMask16(x: nat, n: nat)
    ensures And(x, Mask16(n)) == Low16(x, n)
    decreases n
  {
    hide And;
    hide Quot;
    hide Rem;
    BitBelowTwo(x);
    if n > 0 {
      Div16(x);
      And4Bits(x, 16 * Mask16(n - 1));
      And4Bits(Quot(x, 16), Mask16(n - 1));
      AndMask16(Quot(x, 256), n - 1);
    }
  }

  // ---- one word ----

  /** Counts of pairs of bits, then of groups of four. */
  function PairCounts(x: nat): (r: nat)
    requires x < WRAP
  {
    (x + WRAP - And(Quot(x, 2), 0x5555_5555)) % WRAP
  }

  function NibbleCounts(x: nat): (r: nat)
    requires x < WRAP
  {
    var y := PairCounts(x);
    (And(y, 0x3333_3333) + And(Quot(y, 4), 0x3333_3333)) % WRAP
  }

  /** Counts of bytes. */
  function ByteCounts(x: nat): (r: nat)
    requires x < WRAP
  {
    var z := NibbleCounts(x);
    And((z + Quot(z, 16)) % WRAP, 0x0F0F_0F0F)
  }

  lemma {:induction false} FewDigits(x: nat, n: nat)
    requires x < Pow2(2 * n)
    ensures Digits4(x, n, 3)
  {
    if n > 0 {
      assert Pow2(2 * n) == 4 * Pow2(2 * (n - 1)) by { assert Pow2(2 * n - 1) == 2 * Pow2(2 * n - 2); }
      FewDigits(Quot(x, 4), n - 1);
    }
  }

  lemma Pow2Of32()
    ensures Pow2(32) == WRAP
  {
    assert Pow2(4) == 16;
    assert Pow2(8) == 16 * Pow2(4) by { assert Pow2(6) == 4 * Pow2(4); }
    Pow2Add(8, 8);
    Pow2Add(16, 16);
  }

  lemma {:induction false} Pow2Add(a: nat, b: nat)
    ensures Pow2(a + b) == Pow2(a) * Pow2(b)
  {
    if b > 0 { Pow2Add(a, b - 1); }
  }

  lemma {:induction false} Small4(x: nat, n: nat, m: nat)
    requires Digits4(x, n, m)
    ensures x <= m * Mask2(n)
  {
    if n > 0 {
      Small4(Quot(x, 4), n - 1, m);
      assert m * Mask2(n) == m + 4 * (m * Mask2(n - 1));
    }
  }

  lemma PairCountsSum(x: nat)
    requires x < WRAP
    ensures DigitSum4(PairCounts(x), 16) == DigitSum2(x, 32) && Digits4(PairCounts(x), 16, 2)
  {
    hide And;
    hide DigitSum2;
    hide DigitSum4;
    hide Digits4;
    hide Low2;
    Pow2Of32();
    Masks();
    FewDigits(x, 16);
    SplitBits(x, 16);
    AndMask2(Quot(x, 2), 16);
    Pairs2(x, 16);
    assert PairCounts(x) == Low2(x, 16) + Low2(Quot(x, 2), 16);
  }

  lemma {:induction false} Small16(x: nat, n: nat, m: nat)
    requires Digits16(x, n, m)
    ensures x <= m * Rep16(n)
  {
    if n > 0 {
      Small16(Quot(x, 16), n - 1, m);
      assert m * Rep16(n) == m + 16 * (m * Rep16(n - 1));
    }
  }

  /** The number 11...1 in base 16, and in base 256. */
  function Rep16(n: nat): (r: nat) { if n == 0 then 0 else 1 + 16 * Rep16(n - 1) }

  lemma RepValue()
    ensures Rep16(8) == 0x1111_1111
  {
    assert Rep16(2) == 0x11;
    assert Rep16(4) == 0x1111;
    assert Rep16(6) == 0x11_1111;
  }

  lemma NibbleCountsSum(x: nat)
    requires x < WRAP
    ensures DigitSum16(NibbleCounts(x), 8) == DigitSum2(x, 32) && Digits16(NibbleCounts(x), 8, 4)
  {
    hide And;
    hide DigitSum2;
    hide DigitSum4;
    hide DigitSum16;
    hide Digits4;
    hide Digits16;
    hide Low4;
    hide PairCounts;
    hide Quot;
    var y := PairCounts(x);
    PairCountsSum(x);
    Masks();
    AndMask4(y, 8);
    AndMask4(Quot(y, 4), 8);
    Pairs4(y, 8);
    Small16(Low4(y, 8) + Low4(Quot(y, 4), 8), 8, 4);
    RepValue();
    assert NibbleCounts(x) == Low4(y, 8) + Low4(Quot(y, 4), 8);
  }

  /** After the three steps each byte of the word holds its own count. */
  lemma ByteCountsSum(x: nat)
    requires x < WRAP
    ensures DigitSum256(ByteCounts(x), 4) == DigitSum2(x, 32) && Digits256(ByteCounts(x), 4, 8)
  {
    hide And;
    hide DigitSum2;
    hide DigitSum16;
    hide DigitSum256;
    hide Digits16;
    hide Digits256;
    hide Low16;
    hide NibbleCounts;
    hide Quot;
    var z := NibbleCounts(x);
    NibbleCountsSum(x);
    Masks();
    Small16(z, 8, 4);
    RepValue();
    Shrinks(z);
    AndMask16(z + Quot(z, 16), 4);
    AddThenMask(z, 4);
    Pairs16(z, 4);
  }

  lemma Shrinks(z: nat)
    ensures Quot(z, 16) <= z
  {
  }

  // ---- seven words ----

  /** Lanes that cannot carry add up lane by lane. */
  lemma {:induction false} AddLanes(x: nat, y: nat, n: nat, a: nat, b: nat)
    requires Digits256(x, n, a) && Digits256(y, n, b) && a + b < 256
    ensures Digits256(x + y, n, a + b) && DigitSum256(x + y, n) == DigitSum256(x, n) + DigitSum256(y, n)
  {
    if n > 0 {
      LanesOf(x);
      LanesOf(y);
      AddLanes(Quot(x, 256), Quot(y, 256), n - 1, a, b);
      Parts256(Rem(x, 256) + Rem(y, 256), Quot(x, 256) + Quot(y, 256));
      hide Quot;
      hide Rem;
    }
  }

  lemma LanesOf(x: nat)
    ensures x == Rem(x, 256) + 256 * Quot(x, 256)
  {
  }

  /** Multiplying by 0x01010101 brings the sum of the lanes to the top byte. */
  lemma TopByte(v: nat)
    requires Digits256(v, 4, 56)
    ensures v * 0x0101_0101 % WRAP / 0x100_0000 == DigitSum256(v, 4)
  {
    var a, w := Rem(v, 256), Quot(v, 256);
    var b, u := Rem(w, 256), Quot(w, 256);
    var c, d := Rem(u, 256), Quot(u, 256);
    LanesOf(v);
    LanesOf(w);
    LanesOf(u);
    LanesOf(d);
    assert Digits256(w, 3, 56) && Digits256(u, 2, 56) && Digits256(d, 1, 56);
    assert DigitSum256(v, 4) == a + DigitSum256(w, 3);
    assert DigitSum256(w, 3) == b + DigitSum256(u, 2);
    assert DigitSum256(u, 2) == c + DigitSum256(d, 1);
    assert Digits256(Quot(d, 256), 0, 56);
    FourLanes(a, b, c, d);
  }

  lemma Wrapped(r: nat, h: nat)
    requires r < WRAP
    ensures (r + WRAP * h) % WRAP == r
  {
  }

  lemma Topped(low: nat, s: nat)
    requires low < 0x100_0000
    ensures (low + 0x100_0000 * s) / 0x100_0000 == s
  {
  }

  lemma FourLanes(a: nat, b: nat, c: nat, d: nat)
    requires a <= 56 && b <= 56 && c <= 56 && d <= 56
    ensures (a + 256 * (b + 256 * (c + 256 * d))) * 0x0101_0101 % WRAP / 0x100_0000 == a + b + c + d
  {
    var low := a + 256 * (a + b) + 65536 * (a + b + c);
    var high := (b + c + d) + 256 * (c + d) + 65536 * d;
    assert (a + 256 * (b + 256 * (c + 256 * d))) * 0x0101_0101 == low + 0x100_0000 * (a + b + c + d) + WRAP * high;
    Wrapped(low + 0x100_0000 * (a + b + c + d), high);
    Topped(low, a + b + c + d);
  }
}
