/** BITPOS and BITCOUNT read the same range arguments; this says when they mean the same bits. */
module BitRanges {
  import opened Wrappers
  import opened Bits
  import P = Bitpos
  import C = Popcount

  /** Length of a string in the unit of the range. */
  function Units(isBit: bool, len: nat): (n: nat) { if isBit then 8 * len else len }

  /** Two negative positions in the wrong order, both clipped to the first unit of the string. */
  predicate Crossed(start: int, end: int, isBit: bool, len: nat) {
    end < start < 0 && 0 < Units(isBit, len) <= -start
  }

  /** The two ranges are both empty or equal, unless the positions are crossed; then BITCOUNT has
      an empty range and BITPOS the first byte or bit. */
  lemma RangesAgree(start: int, end: int, isBit: bool, len: nat)
    ensures var p, c := P.BitRange(P.FromTo(start, end, isBit), len), C.BitRange(C.Between(start, end, isBit), len);
            && ((p.0 >= p.1 <==> c.0 >= c.1) <==> !Crossed(start, end, isBit, len))
            && (!Crossed(start, end, isBit, len) && p.0 < p.1 ==> p == c)
            && (Crossed(start, end, isBit, len) ==> p == (0, if isBit then 1 else 8) && c == (0, 0))
  {
  }

  lemma {:induction false} CountPositive(s: seq<Byte>, lo: nat, hi: nat)
    ensures C.CountIn(s, lo, hi) > 0 <==> exists n :: lo <= n < hi && Bit(s, n)
    decreases hi
  {
    hide Bit;
    if lo < hi { CountPositive(s, lo, hi - 1); }
  }

  /** A set bit is found by a search iff the range has one. */
  lemma FoundIff(s: seq<Byte>, range: P.Range, r: int)
    requires P.Answer(Some(s), true, range, r)
    ensures var (lo, hi) := P.BitRange(range, |s|); r >= 0 <==> exists n: nat :: lo <= n < hi && Bit(s, n)
  {
    hide Bit;
    hide P.BitRange;
  }

  /** For every existing key and range: BITPOS finds a set bit iff BITCOUNT counts one, unless the
      positions are crossed and the first byte or bit of the string has one. */
  lemma AnswersAgree(s: seq<Byte>, start: int, end: int, isBit: bool, r: int, count: int)
    requires P.Answer(Some(s), true, P.FromTo(start, end, isBit), r)
    requires var (lo, hi) := C.BitRange(C.Between(start, end, isBit), |s|); count == C.CountIn(s, lo, hi)
    ensures (r >= 0 <==> count > 0)
       <==> !(Crossed(start, end, isBit, |s|) && exists n: nat :: n < (if isBit then 1 else 8) && Bit(s, n))
  {
    hide Bit;
    hide P.Answer;
    FoundIff(s, P.FromTo(start, end, isBit), r);
    RangesAgree(start, end, isBit, |s|);
    var p, c := P.BitRange(P.FromTo(start, end, isBit), |s|), C.BitRange(C.Between(start, end, isBit), |s|);
    CountPositive(s, c.0, c.1);
    hide P.BitRange;
    hide C.BitRange;
    hide C.CountIn;
  }

  /** Both commands on one key, as they answer. */
  method AskBoth(s: seq<Byte>, start: int, end: int, isBit: bool, address: nat, usePopcnt: bool) returns (pos: int, count: int)
    ensures (pos >= 0 <==> count > 0)
       <==> !(Crossed(start, end, isBit, |s|) && exists n: nat :: n < (if isBit then 1 else 8) && Bit(s, n))
  {
    pos := P.BitposCommand(Some(s), true, P.FromTo(start, end, isBit), address);
    count := C.BitcountCommand(Some(s), C.Between(start, end, isBit), address, usePopcnt);
    AnswersAgree(s, start, end, isBit, pos, count);
  }

  /** Positions -5 and -6 of a one-byte string whose first bit is set: found at 0, counted 0. */
  lemma CrossedAnswers()
    ensures P.BitRange(P.FromTo(-5, -6, false), 1) == (0, 8) && C.BitRange(C.Between(-5, -6, false), 1) == (0, 0)
    ensures P.Answer(Some([FirstBits(1)]), true, P.FromTo(-5, -6, false), 0) && C.CountIn([FirstBits(1)], 0, 0) == 0
  {
    assert Bit([FirstBits(1)], 0);
  }

  // ---- what the ranges and counts are ----

  /** A position as given: from the end if negative, but not before the beginning. */
  function Asked(i: int, units: nat): (r: int) { if i >= 0 then i else if units + i < 0 then 0 else units + i }

  /** Bit `n` of a string is in a range from `start` to `end`, both included, in bits or bytes. */
  predicate InRange(n: nat, start: int, end: int, isBit: bool, len: nat) {
    var u, units := if isBit then n else n / 8, Units(isBit, len);
    n < 8 * len && Asked(start, units) <= u <= Asked(end, units)
  }

  /** BITPOS searches exactly the bits of the range, and BITCOUNT counts exactly those unless both
      positions are negative and in the wrong order. */
  lemma RangeMembers(n: nat, start: int, end: int, isBit: bool, len: nat)
    ensures var (lo, hi) := P.BitRange(P.FromTo(start, end, isBit), len); lo <= n < hi <==> InRange(n, start, end, isBit, len)
    ensures var (lo, hi) := C.BitRange(C.Between(start, end, isBit), len);
            lo <= n < hi <==> InRange(n, start, end, isBit, len) && !(end < start < 0)
  {
    var units := Units(isBit, len);
    assert Clip(start, units) == Asked(start, units);
    if isBit { } else { assert 8 * (n / 8) <= n < 8 * (n / 8) + 8; }
  }

  /** Without an end BITPOS searches from the given byte on; without a range both take all. */
  lemma OpenRanges(n: nat, start: int, len: nat)
    ensures var (lo, hi) := P.BitRange(P.From(start), len); lo <= n < hi <==> n < 8 * len && Asked(start, len) <= n / 8
    ensures (var (lo, hi) := P.BitRange(P.Whole, len); lo <= n < hi) <==> n < 8 * len
    ensures C.BitRange(C.Whole, len) == (0, 8 * len)
  {
    assert Clip(start, len) == Asked(start, len);
    assert 8 * (n / 8) <= n < 8 * (n / 8) + 8;
  }

  ghost function SetBits(s: seq<Byte>, lo: nat, hi: nat): (r: set<nat>) { set n: nat | lo <= n < hi && Bit(s, n) }

  /** A count is the size of the set of positions with a set bit. */
  lemma {:induction false} CountIsSize(s: seq<Byte>, lo: nat, hi: nat)
    ensures C.CountIn(s, lo, hi) == |SetBits(s, lo, hi)|
    decreases hi
  {
    hide Bit;
    if lo < hi {
      CountIsSize(s, lo, hi - 1);
      var before := SetBits(s, lo, hi - 1);
      assert SetBits(s, lo, hi) == if Bit(s, hi - 1) then before + {hi - 1} else before;
    } else {
      assert SetBits(s, lo, hi) == {};
    }
  }
}
