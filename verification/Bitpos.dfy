/** Searching for the first set or clear bit. */
module Bitpos {
  import opened Wrappers
  import opened Bits

  /** No bit of the range [lo, hi) has the value. */
  ghost predicate NoneIn(s: seq<Byte>, bit: bool, lo: nat, hi: nat) {
    forall n :: lo <= n < hi ==> Bit(s, n) != bit
  }

  /** `r` is the first position in [lo, hi) with the value. */
  ghost predicate FirstIn(s: seq<Byte>, bit: bool, lo: nat, hi: nat, r: nat) {
    lo <= r < hi && Bit(s, r) == bit && NoneIn(s, bit, lo, r)
  }

  /** What a search of a whole string promises: past its end when no bit is clear, -1 when none
      is set. */
  ghost predicate Searched(s: seq<Byte>, bit: bool, r: int) {
    || (r >= 0 && FirstIn(s, bit, 0, 8 * |s|, r))
    || (NoneIn(s, bit, 0, 8 * |s|) && r == if bit then -1 else 8 * |s|)
  }

  predicate AllEqual(b: seq<bool>, v: bool) { forall k :: 0 <= k < |b| ==> b[k] == v }

  lemma SkipByte(s: seq<Byte>, bit: bool, c: nat)
    requires c < |s| && AllEqual(s[c], !bit) && NoneIn(s, bit, 0, 8 * c)
    ensures NoneIn(s, bit, 0, 8 * (c + 1))
  {
    forall n | 0 <= n < 8 * (c + 1) ensures Bit(s, n) != bit {
      if n >= 8 * c { assert n / 8 == c; }
    }
  }

  lemma {:induction false} SkipBytes(s: seq<Byte>, bit: bool, c: nat, n: nat)
    requires c + n <= |s| && NoneIn(s, bit, 0, 8 * c)
    requires forall t :: c <= t < c + n ==> AllEqual(s[t], !bit)
    ensures NoneIn(s, bit, 0, 8 * (c + n))
  {
    hide NoneIn;
    if n > 0 {
      SkipBytes(s, bit, c, n - 1);
      SkipByte(s, bit, c + n - 1);
    }
  }

  /** Eight bytes from `c` on as one 64-bit number, the first byte most significant, padded with
      zeros on the right. */
  function WordAt(s: seq<Byte>, c: nat): (w: seq<bool>)
    ensures |w| == 64 && forall k :: 0 <= k < 64 ==> w[k] == Bit(s, 8 * c + k)
  {
    seq(64, k requires 0 <= k < 64 => Bit(s, 8 * c + k))
  }

  /** Loading it byte by byte, shifting as it goes. */
  method LoadWord(s: seq<Byte>, from: nat) returns (w: seq<bool>)
    requires from <= |s|
    ensures w == WordAt(s, from)
  {
    var c, count := from, |s| - from;
    w := [];
    for j := 0 to 8
      invariant |w| == 8 * j && count == |s| - c && from <= c <= |s|
      invariant c == from + j || (c == |s| && |s| <= from + j)
      invariant forall k :: 0 <= k < 8 * j ==> w[k] == Bit(s, 8 * from + k)
    {
      ShiftIn(s, from, j, w);
      if count > 0 {
        w := w + s[c][..];
        c := c + 1;
        count := count - 1;
      } else {
        w := w + ZERO[..];
      }
    }
    assert w == WordAt(s, from);
  }

  lemma ShiftIn(s: seq<Byte>, from: nat, j: nat, w: seq<bool>)
    requires |w| == 8 * j && forall k :: 0 <= k < 8 * j ==> w[k] == Bit(s, 8 * from + k)
    ensures var b: seq<bool> := ByteAt(s, from + j)[..];
            forall k :: 0 <= k < 8 * (j + 1) ==> (w + b)[k] == Bit(s, 8 * from + k)
  {
    var b: seq<bool> := ByteAt(s, from + j)[..];
    forall k | 8 * j <= k < 8 * (j + 1) ensures (w + b)[k] == Bit(s, 8 * from + k) {
      assert (8 * from + k) / 8 == from + j && (8 * from + k) % 8 == k - 8 * j;
    }
  }

  /** A whole word is skipped when its eight bytes are. */
  lemma WordSkips(s: seq<Byte>, c: nat, v: bool)
    requires c + 8 <= |s| && AllEqual(WordAt(s, c), v)
    ensures forall t :: c <= t < c + 8 ==> AllEqual(s[t], v)
  {
    forall t, k | c <= t < c + 8 && 0 <= k < 8 ensures s[t][k] == v {
      var n := 8 * (t - c) + k;
      assert WordAt(s, c)[n] == v;
      assert (8 * c + n) / 8 == t && (8 * c + n) % 8 == k;
    }
  }

  /** The search: bytes up to a word boundary, whole words, and then a last word bit by bit.
      `address` is where the string starts in memory. */
  method RedisBitpos(s: seq<Byte>, address: nat, bit: bool) returns (pos: int)
    ensures Searched(s, bit, pos)
  {
    hide WordAt;
    hide Bit;
    var c := 0;
    var found := false;
    while (address + c) % 8 != 0 && c < |s|
      invariant 0 <= c <= |s| && NoneIn(s, bit, 0, 8 * c)
      invariant !found
      decreases |s| - c
    {
      if !AllEqual(s[c], !bit) {
        found := true;
        break;
      }
      SkipByte(s, bit, c);
      c := c + 1;
    }
    if !found {
      while c + 8 <= |s|
        invariant c <= |s| && NoneIn(s, bit, 0, 8 * c)
      {
        if !AllEqual(WordAt(s, c), !bit) { break; }
        WordSkips(s, c, !bit);
        SkipBytes(s, bit, c, 8);
        c := c + 8;
      }
    }
    var word := LoadWord(s, c);
    Window(s, c, bit, word, found);
    if bit && AllEqual(word, false) { return -1; }
    pos := 8 * c;
    var k := 0;
    while k < 64
      invariant 0 <= k <= 64 && pos == 8 * c + k && NoneIn(s, bit, 0, pos)
      invariant forall i :: 0 <= i < k ==> word[i] != bit
    {
      if word[k] == bit {
        Found(s, bit, pos);
        return;
      }
      pos := pos + 1;
      k := k + 1;
    }
  }

  /** What the last word says about the rest of the string. */
  lemma Window(s: seq<Byte>, c: nat, bit: bool, word: seq<bool>, found: bool)
    requires c <= |s| && word == WordAt(s, c) && NoneIn(s, bit, 0, 8 * c)
    requires if found then c < |s| && !AllEqual(s[c], !bit) else c + 8 <= |s| ==> !AllEqual(word, !bit)
    ensures bit && AllEqual(word, false) ==> NoneIn(s, bit, 0, 8 * |s|)
    ensures !(bit && AllEqual(word, false)) ==> exists k :: 0 <= k < 64 && word[k] == bit
    ensures forall k :: 0 <= k < 64 ==> word[k] == Bit(s, 8 * c + k)
  {
    hide Bit;
    if found {
      var k :| 0 <= k < 8 && s[c][k] == bit;
      AtByte(s, c, k);
      assert word[k] == bit;
    } else if c + 8 <= |s| {
      var k :| 0 <= k < 64 && word[k] == bit;
    } else {
      if bit && AllEqual(word, false) {
        forall n | 8 * c <= n < 8 * |s| ensures Bit(s, n) != bit { assert word[n - 8 * c] == Bit(s, 8 * c + (n - 8 * c)); }
      }
      if !bit {
        Past(s, 8 * c + 63);
        assert word[63] == Bit(s, 8 * c + 63);
      }
    }
  }

  lemma AtByte(s: seq<Byte>, c: nat, k: nat)
    requires c < |s| && k < 8
    ensures Bit(s, 8 * c + k) == s[c][k]
  {
    assert (8 * c + k) / 8 == c && (8 * c + k) % 8 == k;
  }

  lemma Past(s: seq<Byte>, n: nat)
    requires n >= 8 * |s|
    ensures !Bit(s, n)
  {
  }

  /** The first match is inside the string, or it is the padding right after it. */
  lemma Found(s: seq<Byte>, bit: bool, pos: nat)
    requires Bit(s, pos) == bit && NoneIn(s, bit, 0, pos)
    ensures Searched(s, bit, pos)
  {
    if pos >= 8 * |s| {
      Past(s, pos);
      Past(s, 8 * |s|);
    }
  }

  // ---- the command ----

  /** The optional arguments: nothing, a start, or a start and an end with their unit. */
  datatype Range = Whole | From(start: int) | FromTo(start: int, end: int, isBit: bool)

  /** First and last position asked for, in the unit of the range. */
  function Normalise(range: Range, len: nat): (r: (int, int)) {
    match range
    case Whole => (0, len - 1)
    case From(start) => (Clip(start, len), len - 1)
    case FromTo(start, end, isBit) =>
      var total := if isBit then 8 * len else len;
      (Clip(start, total), ClipEnd(end, total))
  }

  /** The same as a range of bits [lo, hi). */
  function BitRange(range: Range, len: nat): (r: (int, int)) {
    var (a, b) := Normalise(range, len);
    if range.FromTo? && range.isBit then (a, b + 1) else (8 * a, 8 * b + 8)
  }

  /** The first position in the range, or -1 for an empty range. When nothing is found the answer
      is -1, or the first bit past the string for a clear bit without an explicit end. A missing
      key is clear everywhere. */
  ghost predicate Answer(key: Option<seq<Byte>>, bit: bool, range: Range, r: int) {
    match key
    case None => r == if bit then -1 else 0
    case Some(s) =>
      var (lo, hi) := BitRange(range, |s|);
      if lo >= hi then r == -1
      else
        || (r >= 0 && FirstIn(s, bit, lo, hi, r))
        || (NoneIn(s, bit, lo, hi) && r == if bit || range.FromTo? then -1 else 8 * |s|)
  }

  /** Neutralises the bits of a mask for a search. */
  function MaskOut(b: Byte, mask: Byte, bit: bool): (r: Byte)
    ensures forall k :: 0 <= k < 8 ==> r[k] == if mask[k] then !bit else b[k]
  {
    seq(8, k requires 0 <= k < 8 => if bit then b[k] && !mask[k] else b[k] || mask[k])
  }

  /** A search of byte `c` of a string without the first `fm` and the last `lm` bits. */
  method SearchByte(s: seq<Byte>, c: nat, fm: nat, lm: nat, bit: bool) returns (pos: int)
    requires c < |s| && fm + lm <= 8
    ensures || (0 <= pos < 8 && FirstIn(s, bit, 8 * c + fm, 8 * c + 8 - lm, 8 * c + pos))
            || (NoneIn(s, bit, 8 * c + fm, 8 * c + 8 - lm) && pos == if bit then -1 else 8)
  {
    hide Bit;
    hide ByteOf;
    hide FirstMask;
    hide LastMask;
    MaskNumbers(fm);
    MaskNumbers(lm);
    var tmp := MaskOut(MaskOut(s[c], ByteOf(FirstMask(fm)), bit), ByteOf(LastMask(lm)), bit);
    pos := RedisBitpos([tmp], 0, bit);
    forall k | 0 <= k < 8 ensures Bit([tmp], k) == tmp[k] && Bit(s, 8 * c + k) == s[c][k] {
      AtByte([tmp], 0, k);
      AtByte(s, c, k);
    }
    forall n | 8 * c <= n < 8 * c + 8 ensures Bit(s, n) == s[c][n - 8 * c] { AtByte(s, c, n - 8 * c); }
  }

  lemma SliceBit(s: seq<Byte>, a: nat, b: nat, n: nat)
    requires a <= b <= |s| && n < 8 * (b - a)
    ensures Bit(s[a..b], n) == Bit(s, 8 * a + n)
  {
    assert (8 * a + n) / 8 == a + n / 8 && (8 * a + n) % 8 == n % 8;
  }

  /** A search of whole bytes [a, b). */
  method SearchBytes(s: seq<Byte>, a: nat, b: nat, address: nat, bit: bool) returns (pos: int)
    requires a < b <= |s|
    ensures || (0 <= pos < 8 * (b - a) && FirstIn(s, bit, 8 * a, 8 * b, 8 * a + pos))
            || (NoneIn(s, bit, 8 * a, 8 * b) && pos == if bit then -1 else 8 * (b - a))
  {
    hide Bit;
    pos := RedisBitpos(s[a..b], address + a, bit);
    forall n | 0 <= n < 8 * (b - a) ensures Bit(s[a..b], n) == Bit(s, 8 * a + n) { SliceBit(s, a, b, n); }
    forall m | 8 * a <= m < 8 * b ensures Bit(s, m) == Bit(s[a..b], m - 8 * a) { SliceBit(s, a, b, m - 8 * a); }
  }

  lemma NoneInJoin(s: seq<Byte>, bit: bool, a: nat, b: nat, c: nat)
    requires a <= b <= c && NoneIn(s, bit, a, b)
    ensures NoneIn(s, bit, b, c) ==> NoneIn(s, bit, a, c)
    ensures forall d, r :: c <= d && FirstIn(s, bit, b, c, r) ==> FirstIn(s, bit, a, d, r)
  {
  }

  lemma FirstInWidens(s: seq<Byte>, bit: bool, a: nat, b: nat, c: nat, r: nat)
    requires b <= c && FirstIn(s, bit, a, b, r)
    ensures FirstIn(s, bit, a, c, r)
  {
  }

  /** The three-part scan: masked first byte, whole bytes, masked last byte. */
  method ThreePartScan(s: seq<Byte>, first: nat, end: nat, fm: nat, lm: nat, endGiven: bool, address: nat, bit: bool)
    returns (r: int)
    requires first <= end < |s| && fm < 8 && lm < 8 && (first == end ==> fm + lm < 8)
    requires fm > 0 || lm > 0 ==> endGiven
    ensures var lo, hi := 8 * first + fm, 8 * end + 8 - lm;
            || (r >= 0 && FirstIn(s, bit, lo, hi, r))
            || (NoneIn(s, bit, lo, hi) && r == if bit || endGiven then -1 else 8 * end + 8)
  {
    hide ByteOf;
    hide FirstMask;
    hide LastMask;
    hide Bit;
    hide NoneIn;
    hide FirstIn;
    var start, bytes := first, end - first + 1;
    ghost var lo, hi := 8 * first + fm, 8 * end + 8 - lm;
    var pos: int;
    EmptyRange(s, bit, lo);
    MaskNumbers(fm);
    MaskNumbers(lm);
    if FirstMask(fm) != 0 {
      pos := SearchByte(s, start, fm, if bytes == 1 then lm else 0, bit);
      if bytes == 1 || (pos != -1 && pos != 8) {
        r := Adjust(start, bytes, pos, endGiven, bit);
        if r >= 0 { FirstInWidens(s, bit, lo, 8 * start + 8 - (if bytes == 1 then lm else 0), hi, r); }
        return;
      }
      start, bytes := start + 1, bytes - 1;
    }
    ghost var low := 8 * start;
    assert NoneIn(s, bit, lo, low);
    var curbytes := bytes - (if LastMask(lm) != 0 then 1 else 0);
    if curbytes > 0 {
      pos := SearchBytes(s, start, start + curbytes, address, bit);
      NoneInJoin(s, bit, lo, low, 8 * (start + curbytes));
      if bytes == curbytes || (pos != -1 && pos != 8 * curbytes) {
        r := Adjust(start, bytes, pos, endGiven, bit);
        return;
      }
      start, bytes := start + curbytes, bytes - curbytes;
    }
    pos := SearchByte(s, end, 0, lm, bit);
    NoneInJoin(s, bit, lo, 8 * end, hi);
    r := Adjust(start, bytes, pos, endGiven, bit);
  }

  lemma EmptyRange(s: seq<Byte>, bit: bool, lo: nat)
    ensures NoneIn(s, bit, lo, lo)
  {
  }

  method Adjust(start: nat, bytes: nat, pos: int, endGiven: bool, bit: bool) returns (r: int)
    requires pos >= -1
    ensures r == if (endGiven && !bit && pos == 8 * bytes) || pos == -1 then -1 else pos + 8 * start
  {
    if endGiven && !bit && pos == 8 * bytes { return -1; }
    r := pos;
    if r != -1 { r := r + 8 * start; }
  }

  method BitposCommand(key: Option<seq<Byte>>, bit: bool, range: Range, address: nat) returns (r: int)
    ensures Answer(key, bit, range, r)
  {
    hide Bit;
    hide NoneIn;
    hide FirstIn;
    if key.None? { return if bit then -1 else 0; }
    var s := key.value;
    var (start, end) := Normalise(range, |s|);
    var fm, lm := 0, 0;
    if range.FromTo? && range.isBit && start <= end {
      ByteEdges(start, end, |s|);
      fm, lm := start % 8, 7 - end % 8;
      start, end := start / 8, end / 8;
    }
    if start > end { return -1; }
    r := ThreePartScan(s, start, end, fm, lm, range.FromTo?, address, bit);
  }
}
