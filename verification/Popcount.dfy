/** BITCOUNT: counting set bits in a string and in a range of it. */
module Popcount {
  import opened Wrappers
  import opened Bits
  import opened Swar

  /** Set bits of a string. */
  function Total(s: seq<Byte>): (n: nat) {
    if s == [] then 0 else Total(s[..|s| - 1]) + Ones(s[|s| - 1])
  }

  /** Set bits at positions in [lo, hi) of the zero-padded string. */
  function CountIn(s: seq<Byte>, lo: nat, hi: nat): (n: nat)
    decreases hi
  {
    if hi <= lo then 0 else CountIn(s, lo, hi - 1) + (if Bit(s, hi - 1) then 1 else 0)
  }

  lemma {:induction false} TotalJoin(a: seq<Byte>, b: seq<Byte>)
    ensures Total(a + b) == Total(a) + Total(b)
  {
    if b == [] {
      assert a + b == a;
    } else {
      TotalJoin(a, b[..|b| - 1]);
      assert (a + b)[..|a + b| - 1] == a + b[..|b| - 1];
    }
  }

  lemma TotalOne(b: Byte)
    ensures Total([b]) == Ones(b)
  {
    assert Total([b][..0]) == 0;
  }

  lemma {:induction false} OnesJoin(a: seq<bool>, b: seq<bool>)
    ensures Ones(a + b) == Ones(a) + Ones(b)
  {
    if b == [] {
      assert a + b == a;
    } else {
      OnesJoin(a, b[..|b| - 1]);
      assert (a + b)[..|a + b| - 1] == a + b[..|b| - 1];
    }
  }

  lemma LastBit(x: nat, b: nat)
    requires b < 2
    ensures Rem(2 * x + b, 2) == b && Quot(2 * x + b, 2) == x
  {
  }

  /** The digit sum in base 2 counts the bits of a number written out. */
  lemma {:induction false} NumberOnes(bits: seq<bool>)
    ensures DigitSum2(Number(bits), |bits|) == Ones(bits) && Number(bits) < Pow2(|bits|)
  {
    if bits != [] {
      var n := |bits| - 1;
      NumberOnes(bits[..n]);
      LastBit(Number(bits[..n]), if bits[n] then 1 else 0);
      hide Quot;
      hide Rem;
    }
  }

  /** Four bytes as a little-endian 32-bit word. */
  function Word32(s: seq<Byte>, o: nat): (x: nat)
    requires o + 4 <= |s|
    ensures x < WRAP && DigitSum2(x, 32) == Total(s[o..o + 4])
  {
    hide DigitSum2;
    hide Number;
    hide Ones;
    var w := s[o + 3][..] + s[o + 2][..] + s[o + 1][..] + s[o][..];
    WordOnes(s, o);
    NumberOnes(w);
    Pow2Of32();
    Number(w)
  }

  lemma WordOnes(s: seq<Byte>, o: nat)
    requires o + 4 <= |s|
    ensures Ones(s[o + 3][..] + s[o + 2][..] + s[o + 1][..] + s[o][..]) == Total(s[o..o + 4])
  {
    hide Ones;
    hide Total;
    var a, b, c, d := s[o], s[o + 1], s[o + 2], s[o + 3];
    OnesJoin(d[..], c[..]);
    OnesJoin(d[..] + c[..], b[..]);
    OnesJoin(d[..] + c[..] + b[..], a[..]);
    TotalOne(a);
    TotalOne(b);
    TotalOne(c);
    TotalOne(d);
    assert s[o..o + 4] == [a] + [b] + [c] + [d];
    TotalJoin([a], [b]);
    TotalJoin([a] + [b], [c]);
    TotalJoin([a] + [b] + [c], [d]);
  }

  /** The sum, in 32-bit arithmetic, of the byte counts of the first `n` of the words at `o`. */
  function LaneSum(s: seq<Byte>, o: nat, n: nat): (v: nat)
    requires o + 4 * n <= |s|
  {
    if n == 0 then 0 else (LaneSum(s, o, n - 1) + ByteCounts(Word32(s, o + 4 * (n - 1)))) % WRAP
  }

  /** Up to seven words never overflow a byte of the sum. */
  lemma {:induction false} LaneSumTotal(s: seq<Byte>, o: nat, n: nat)
    requires o + 4 * n <= |s| && n <= 7
    ensures Digits256(LaneSum(s, o, n), 4, 8 * n)
    ensures DigitSum256(LaneSum(s, o, n), 4) == Total(s[o..o + 4 * n])
  {
    hide Digits256;
    hide DigitSum256;
    hide Total;
    hide ByteCounts;
    hide Word32;
    if n == 0 {
      NoLanes();
      assert s[o..o] == [];
    } else {
      LaneSumTotal(s, o, n - 1);
      NextLanes(s, o, n);
    }
  }

  lemma NextLanes(s: seq<Byte>, o: nat, n: nat)
    requires 0 < n <= 7 && o + 4 * n <= |s|
    requires Digits256(LaneSum(s, o, n - 1), 4, 8 * (n - 1))
    requires DigitSum256(LaneSum(s, o, n - 1), 4) == Total(s[o..o + 4 * (n - 1)])
    ensures Digits256(LaneSum(s, o, n), 4, 8 * n)
    ensures DigitSum256(LaneSum(s, o, n), 4) == Total(s[o..o + 4 * n])
  {
    hide Digits256;
    hide DigitSum256;
    hide DigitSum2;
    hide Total;
    hide ByteCounts;
    hide Word32;
    var x, v := Word32(s, o + 4 * (n - 1)), LaneSum(s, o, n - 1);
    ByteCountsSum(x);
    SmallLanes(ByteCounts(x), 8);
    SmallLanes(v, 8 * (n - 1));
    AddLanes(v, ByteCounts(x), 4, 8 * (n - 1), 8);
    TotalJoin(s[o..o + 4 * (n - 1)], s[o + 4 * (n - 1)..o + 4 * n]);
    assert s[o..o + 4 * n] == s[o..o + 4 * (n - 1)] + s[o + 4 * (n - 1)..o + 4 * n];
    assert LaneSum(s, o, n) == v + ByteCounts(x);
  }

  lemma NoLanes()
    ensures Digits256(0, 4, 0) && DigitSum256(0, 4) == 0 && Total([]) == 0
  {
    assert Digits256(0, 2, 0) && DigitSum256(0, 2) == 0;
  }

  lemma SmallLanes(v: nat, m: nat)
    requires Digits256(v, 4, m)
    ensures v <= m * 0x0101_0101
  {
    var w := Quot(v, 256);
    var u := Quot(w, 256);
    var d := Quot(u, 256);
    LanesOf(v);
    LanesOf(w);
    LanesOf(u);
    LanesOf(d);
    hide Quot;
    hide Rem;
    assert Digits256(w, 3, m) && Digits256(u, 2, m) && Digits256(d, 1, m) && Digits256(Quot(d, 256), 0, m);
  }

  /** The 28-byte step counts exactly its 28 bytes. */
  lemma SevenWords(s: seq<Byte>, o: nat)
    requires o + 28 <= |s|
    ensures LaneSum(s, o, 7) * 0x0101_0101 % WRAP / 0x100_0000 == Total(s[o..o + 28])
  {
    LaneSumTotal(s, o, 7);
    TopByte(LaneSum(s, o, 7));
  }

  /** Counts the set bits of a string: bytes up to a word boundary, large steps, and the bytes
      left over. `usePopcnt` is the path for processors that count the bits of a 64-bit word in
      one instruction; the other path adds digits in 28-byte steps. */
  method RedisPopcount(s: seq<Byte>, address: nat, usePopcnt: bool) returns (bits: nat)
    ensures bits == Total(s)
  {
    hide Total;
    hide LaneSum;
    hide Ones;
    var align := if usePopcnt then 8 else 4;
    var p := 0;
    bits := 0;
    NoLanes();
    assert s[..0] == [];
    while (address + p) % align != 0 && p < |s|
      invariant 0 <= p <= |s| && bits == Total(s[..p])
      decreases |s| - p
    {
      NextByte(s, p);
      bits, p := bits + Ones(s[p]), p + 1;
    }
    if usePopcnt {
      bits, p := CountByPopcnt(s, p, bits);
    } else {
      while p + 28 <= |s|
        invariant p <= |s| && bits == Total(s[..p])
      {
        SevenWords(s, p);
        NextBytes(s, p, 28);
        bits := bits + LaneSum(s, p, 7) * 0x0101_0101 % WRAP / 0x100_0000;
        p := p + 28;
      }
    }
    while p < |s|
      invariant p <= |s| && bits == Total(s[..p])
    {
      NextByte(s, p);
      bits, p := bits + Ones(s[p]), p + 1;
    }
    assert s[..p] == s;
  }

  /** Four counters, one 64-bit word each, over 32 bytes at a time. */
  method CountByPopcnt(s: seq<Byte>, from: nat, before: nat) returns (bits: nat, p: nat)
    requires from <= |s| && before == Total(s[..from])
    ensures p <= |s| && bits == Total(s[..p])
  {
    hide Total;
    p := from;
    var c0, c1, c2, c3 := 0, 0, 0, 0;
    while p + 32 <= |s|
      invariant p <= |s| && before + c0 + c1 + c2 + c3 == Total(s[..p])
    {
      NextBytes(s, p, 8);
      NextBytes(s, p + 8, 8);
      NextBytes(s, p + 16, 8);
      NextBytes(s, p + 24, 8);
      c0 := c0 + Total(s[p..p + 8]);
      c1 := c1 + Total(s[p + 8..p + 16]);
      c2 := c2 + Total(s[p + 16..p + 24]);
      c3 := c3 + Total(s[p + 24..p + 32]);
      p := p + 32;
    }
    bits := before + c0 + c1 + c2 + c3;
  }

  lemma NextByte(s: seq<Byte>, p: nat)
    requires p < |s|
    ensures Total(s[..p + 1]) == Total(s[..p]) + Ones(s[p])
  {
    assert s[..p + 1][..p] == s[..p];
  }

  lemma NextBytes(s: seq<Byte>, p: nat, n: nat)
    requires p + n <= |s|
    ensures Total(s[..p + n]) == Total(s[..p]) + Total(s[p..p + n])
  {
    TotalJoin(s[..p], s[p..p + n]);
    assert s[..p + n] == s[..p] + s[p..p + n];
  }

  // ---- ranges ----

  lemma {:induction false} CountSplit(s: seq<Byte>, a: nat, b: nat, c: nat)
    requires a <= b <= c
    ensures CountIn(s, a, c) == CountIn(s, a, b) + CountIn(s, b, c)
    decreases c
  {
    if b < c { CountSplit(s, a, b, c - 1); }
  }

  /** The bits of a byte counted in place. */
  lemma {:induction false} CountByte(s: seq<Byte>, c: nat, k: nat)
    requires c < |s| && k <= 8
    ensures CountIn(s, 8 * c, 8 * c + k) == Ones(s[c][..k])
  {
    if k > 0 {
      CountByte(s, c, k - 1);
      assert (8 * c + k - 1) / 8 == c && (8 * c + k - 1) % 8 == k - 1;
      assert s[c][..k][..k - 1] == s[c][..k - 1];
    }
  }

  /** Counting bytes and counting positions agree. */
  lemma {:induction false} CountBytes(s: seq<Byte>, a: nat, b: nat)
    requires a <= b <= |s|
    ensures Total(s[a..b]) == CountIn(s, 8 * a, 8 * b)
  {
    hide Ones;
    hide Bit;
    if a < b {
      CountBytes(s, a, b - 1);
      assert s[a..b][..b - a - 1] == s[a..b - 1];
      CountByte(s, b - 1, 8);
      assert s[b - 1][..8] == s[b - 1];
      CountSplit(s, 8 * a, 8 * (b - 1), 8 * b);
    }
  }

  function Masked(b: Byte, mask: Byte): (r: Byte)
    ensures forall k :: 0 <= k < 8 ==> r[k] == (b[k] && mask[k])
  {
    seq(8, k requires 0 <= k < 8 => b[k] && mask[k])
  }

  lemma {:induction false} OnesNone(bits: seq<bool>)
    requires forall k :: 0 <= k < |bits| ==> !bits[k]
    ensures Ones(bits) == 0
  {
    if bits != [] { OnesNone(bits[..|bits| - 1]); }
  }

  /** What the masked edge bytes take away. */
  lemma EdgeFirst(s: seq<Byte>, c: nat, m: nat)
    requires c < |s| && m <= 8
    ensures Ones(Masked(s[c], FirstBits(m))) == CountIn(s, 8 * c, 8 * c + m)
  {
    hide Ones;
    hide CountIn;
    var r := Masked(s[c], FirstBits(m));
    OnesJoin(r[..m], r[m..]);
    assert r == r[..m] + r[m..];
    OnesNone(r[m..]);
    assert r[..m] == s[c][..m];
    CountByte(s, c, m);
  }

  lemma EdgeLast(s: seq<Byte>, c: nat, m: nat)
    requires c < |s| && m <= 8
    ensures Ones(Masked(s[c], LastBits(m))) == CountIn(s, 8 * c + 8 - m, 8 * c + 8)
  {
    hide Ones;
    hide CountIn;
    var r, b := Masked(s[c], LastBits(m)), s[c];
    OnesJoin(r[..8 - m], r[8 - m..]);
    assert r == r[..8 - m] + r[8 - m..];
    OnesNone(r[..8 - m]);
    assert r[8 - m..] == b[8 - m..];
    OnesJoin(b[..8 - m], b[8 - m..]);
    assert b == b[..8 - m] + b[8 - m..] && b[..8] == b;
    CountByte(s, c, 8 - m);
    CountByte(s, c, 8);
    CountSplit(s, 8 * c, 8 * c + 8 - m, 8 * c + 8);
  }

  // ---- the command ----

  /** The optional arguments: none, or a start and an end with their unit. */
  datatype Range = Whole | Between(start: int, end: int, isBit: bool)

  /** The range of bits [lo, hi) asked for. Two negative positions in the wrong order are an
      empty range even where clipping would make them equal. */
  function BitRange(range: Range, len: nat): (r: (nat, nat)) {
    match range
    case Whole => (0, 8 * len)
    case Between(start, end, isBit) =>
      var total := if isBit then 8 * len else len;
      var a := Clip(start, total);
      var b := ClipEnd(end, total);
      if (start < 0 && end < 0 && start > end) || a > b then (0, 0)
      else if isBit then (a, b + 1) else (8 * a, 8 * b + 8)
  }

  /** From the arguments to bytes and the numbers of bits to leave out at both edges. */
  method Normalise(range: Range, len: nat) returns (start: int, end: int, fm: nat, lm: nat)
    ensures start > end ==> BitRange(range, len).1 <= BitRange(range, len).0
    ensures start <= end ==> 0 <= start && end < len && fm < 8 && lm < 8 && (start == end ==> fm + lm < 8)
    ensures start <= end ==> BitRange(range, len) == (8 * start + fm, 8 * end + 8 - lm)
  {
    start, end, fm, lm := 0, len - 1, 0, 0;
    if range.Whole? { return; }
    var totlen := len;
    start, end := range.start, range.end;
    if start < 0 && end < 0 && start > end { return; }
    if range.isBit { totlen := 8 * totlen; }
    start, end := Clip(start, totlen), ClipEnd(end, totlen);
    if range.isBit && start <= end {
      ByteEdges(start, end, len);
      fm, lm := start % 8, 7 - end % 8;
      start, end := start / 8, end / 8;
    }
  }

  /** BITCOUNT answers the number of set bits in the range; a missing key has none. The count
      of the bytes touched minus the count of their bits outside the range is exact. */
  method BitcountCommand(key: Option<seq<Byte>>, range: Range, address: nat, usePopcnt: bool) returns (count: int)
    ensures count == if key.None? then 0 else var (lo, hi) := BitRange(range, |key.value|); CountIn(key.value, lo, hi)
  {
    hide BitRange;
    var s := if key.Some? then key.value else [];
    var start, end, fm, lm := Normalise(range, |s|);
    if key.None? || start > end { return 0; }
    hide CountIn;
    count := CountEdges(s, start, end, fm, lm, address, usePopcnt);
  }

  method CountEdges(s: seq<Byte>, start: nat, end: nat, fm: nat, lm: nat, address: nat, usePopcnt: bool) returns (count: int)
    requires start <= end < |s| && fm < 8 && lm < 8 && (start == end ==> fm + lm < 8)
    ensures count == CountIn(s, 8 * start + fm, 8 * end + 8 - lm)
  {
    hide ByteOf;
    hide FirstMask;
    hide LastMask;
    hide CountIn;
    hide Total;
    hide Ones;
    count := RedisPopcount(s[start..end + 1], address + start, usePopcnt);
    CountBytes(s, start, end + 1);
    EdgeFirst(s, start, fm);
    EdgeLast(s, end, lm);
    CountSplit(s, 8 * start, 8 * start + fm, 8 * end + 8);
    CountSplit(s, 8 * start + fm, 8 * end + 8 - lm, 8 * end + 8);
    MaskNumbers(fm);
    MaskNumbers(lm);
    if FirstMask(fm) != 0 || LastMask(lm) != 0 {
      var first := if FirstMask(fm) != 0 then Masked(s[start], ByteOf(FirstMask(fm))) else ZERO;
      var last := if LastMask(lm) != 0 then Masked(s[end], ByteOf(LastMask(lm))) else ZERO;
      var edges := RedisPopcount([first, last], 0, usePopcnt);
      TwoBytes(first, last);
      OnesNone(ZERO);
      count := count - edges;
    }
    EmptyCounts(s, 8 * start);
    EmptyCounts(s, 8 * end + 8);
  }

  lemma EmptyCounts(s: seq<Byte>, a: nat)
    ensures CountIn(s, a, a) == 0
  {
  }

  lemma TwoBytes(a: Byte, b: Byte)
    ensures Total([a, b]) == Ones(a) + Ones(b)
  {
    TotalJoin([a], [b]);
    TotalOne(a);
    TotalOne(b);
    assert [a, b] == [a] + [b];
  }
}
