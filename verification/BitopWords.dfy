/** BITOP on blocks of four 64-bit words, for the prefix that every source covers. */
module BitopWords {
  import opened Bits
  import opened Bitop

  // ---- machine words ----

  const WORD: nat := 8
  const BLOCK: nat := 32

  /** Eight bytes read as one 64-bit word, in memory order. */
  function Load(s: seq<Byte>, o: nat): (w: seq<bool>)
    requires o + WORD <= |s|
    ensures |w| == 64 && forall t :: 0 <= t < 8 ==> Lane(w, t) == s[o + t]
  {
    var w := s[o][..] + s[o + 1][..] + s[o + 2][..] + s[o + 3][..] + s[o + 4][..] + s[o + 5][..] + s[o + 6][..] + s[o + 7][..];
    assert Lane(w, 0) == s[o] && Lane(w, 1) == s[o + 1] && Lane(w, 2) == s[o + 2] && Lane(w, 3) == s[o + 3];
    assert Lane(w, 4) == s[o + 4] && Lane(w, 5) == s[o + 5] && Lane(w, 6) == s[o + 6] && Lane(w, 7) == s[o + 7];
    w
  }

  function Lane(w: seq<bool>, t: nat): (b: Byte)
    requires |w| == 64 && t < 8
  {
    w[8 * t..8 * t + 8]
  }

  method Store(a: array<Byte>, o: nat, w: seq<bool>)
    requires o + WORD <= a.Length && |w| == 64
    modifies a
    ensures forall t :: 0 <= t < 8 ==> a[o + t] == Lane(w, t)
    ensures forall p :: 0 <= p < a.Length && !(o <= p < o + WORD) ==> a[p] == old(a[p])
  {
    hide Lane;
    for t := 0 to 8
      invariant forall u :: 0 <= u < t ==> a[o + u] == Lane(w, u)
      invariant forall p :: 0 <= p < a.Length && !(o <= p < o + t) ==> a[p] == old(a[p])
    {
      a[o + t] := Lane(w, t);
    }
  }

  lemma CombLane(op: Op, x: seq<bool>, y: seq<bool>, t: nat)
    requires |x| == |y| == 64 && t < 8
    ensures Lane(CombBits(op, x, y), t) == CombBits(op, Lane(x, t), Lane(y, t))
  {
    hide Comb;
  }

  lemma SeenLane(c: seq<bool>, x: seq<bool>, y: seq<bool>, t: nat)
    requires |c| == |x| == |y| == 64 && t < 8
    ensures Lane(SeenTwice(c, x, y), t) == SeenTwice(Lane(c, t), Lane(x, t), Lane(y, t))
  {
  }

  lemma FinishLane(op: Op, f: seq<bool>, x: seq<bool>, c: seq<bool>, t: nat)
    requires |f| == |c| == |x| == 64 && t < 8
    ensures Lane(FinishBits(op, f, x, c), t) == FinishBits(op, Lane(f, t), Lane(x, t), Lane(c, t))
  {
    hide Finish;
  }

  ghost predicate OnlyChanged(was: seq<Byte>, now: seq<Byte>, lo: nat, hi: nat) {
    |now| == |was| && forall p :: 0 <= p < |was| && !(lo <= p < hi) ==> now[p] == was[p]
  }

  /** One word-wide update works on its eight bytes separately. */
  method CombineWord(op: Op, res: array<Byte>, o: nat, s: seq<Byte>)
    requires o + WORD <= res.Length && o + WORD <= |s|
    modifies res
    ensures OnlyChanged(old(res[..]), res[..], o, o + WORD)
    ensures forall p :: o <= p < o + WORD ==> res[p] == CombBits(op, old(res[p]), s[p])
  {
    hide Load;
    hide Lane;
    hide CombBits;
    ghost var was := res[..];
    var x, y := Load(res[..], o), Load(s, o);
    Store(res, o, CombBits(op, x, y));
    forall p | o <= p < o + WORD ensures res[p] == CombBits(op, was[p], s[p]) {
      var t := p - o;
      CombLane(op, x, y, t);
      assert res[o + t] == Lane(CombBits(op, x, y), t) && Lane(x, t) == was[o + t] && Lane(y, t) == s[o + t];
    }
  }

  method SeenWord(common: array<Byte>, o: nat, res: array<Byte>, j: nat, s: seq<Byte>)
    requires o + WORD <= common.Length && j + o + WORD <= res.Length && j + o + WORD <= |s| && common != res
    modifies common
    ensures OnlyChanged(old(common[..]), common[..], o, o + WORD)
    ensures forall p :: j + o <= p < j + o + WORD ==> common[p - j] == SeenTwice(old(common[p - j]), res[p], s[p])
  {
    hide Load;
    hide Lane;
    hide SeenTwice;
    ghost var was := common[..];
    var c, x, y := Load(common[..], o), Load(res[..], j + o), Load(s, j + o);
    Store(common, o, SeenTwice(c, x, y));
    forall p | j + o <= p < j + o + WORD ensures common[p - j] == SeenTwice(was[p - j], res[p], s[p]) {
      var t := p - j - o;
      SeenLane(c, x, y, t);
      assert common[o + t] == Lane(SeenTwice(c, x, y), t) && Lane(c, t) == was[o + t];
      assert Lane(x, t) == res[..][j + o + t] && Lane(y, t) == s[j + o + t];
    }
  }

  method FinishWord(op: Op, first: seq<Byte>, res: array<Byte>, j: nat, common: array<Byte>, o: nat)
    requires o + WORD <= common.Length && j + o + WORD <= res.Length && j + o + WORD <= |first| && common != res
    modifies res
    ensures OnlyChanged(old(res[..]), res[..], j + o, j + o + WORD)
    ensures forall p :: j + o <= p < j + o + WORD ==> res[p] == FinishBits(op, first[p], old(res[p]), common[p - j])
  {
    hide Load;
    hide Lane;
    hide FinishBits;
    ghost var was := res[..];
    var f, x, c := Load(first, j + o), Load(res[..], j + o), Load(common[..], o);
    Store(res, j + o, FinishBits(op, f, x, c));
    forall p | j + o <= p < j + o + WORD ensures res[p] == FinishBits(op, first[p], was[p], common[p - j]) {
      var t := p - j - o;
      FinishLane(op, f, x, c, t);
      assert res[j + o + t] == Lane(FinishBits(op, f, x, c), t) && Lane(f, t) == first[j + o + t];
      assert Lane(x, t) == was[j + o + t] && Lane(c, t) == common[..][o + t];
    }
  }

  // ---- blocks of four words ----

  /** The bytes of a range hold the running values after `n` sources. */
  ghost predicate AccOn(op: Op, src: Sources, n: nat, s: seq<Byte>, lo: nat, hi: nat)
    requires 0 < n <= |src|
  {
    hi <= |s| && forall p :: lo <= p < hi ==> IsAcc(op, src, n, p, s[p])
  }

  ghost predicate CommonOn(src: Sources, n: nat, s: seq<Byte>, j: nat, lo: nat, hi: nat)
    requires 0 < n <= |src|
  {
    hi <= |s| && forall q :: lo <= q < hi ==> IsCommon(src, n, j + q, s[q])
  }

  ghost predicate HaveAll(src: Sources, n: nat) { forall i :: 0 <= i < |src| ==> n <= |src[i]| }

  ghost predicate ResultOn(op: Op, src: Sources, s: seq<Byte>, n: nat)
    requires src != []
  {
    n <= |s| && forall p :: 0 <= p < n ==> IsResult(op, src, p, s[p])
  }

  lemma CombinedWord(op: Op, src: Sources, n: nat, was: seq<Byte>, now: seq<Byte>, o: nat)
    requires 0 < n < |src| && AccOn(op, src, n, was, o, o + WORD) && OnlyChanged(was, now, o, o + WORD)
    requires o + WORD <= |src[n]|
    requires forall p :: o <= p < o + WORD ==> now[p] == CombBits(op, was[p], src[n][p])
    ensures AccOn(op, src, n + 1, now, o, o + WORD)
  {
    hide IsAcc;
    hide CombBits;
    forall p | o <= p < o + WORD ensures IsAcc(op, src, n + 1, p, now[p]) {
      AccNext(op, src, n, p, was[p]);
    }
  }

  lemma SeenTwiceWord(src: Sources, n: nat, res: seq<Byte>, was: seq<Byte>, now: seq<Byte>, j: nat, q: nat)
    requires 0 < n < |src| && AccOn(One, src, n, res, j + q, j + q + WORD)
    requires CommonOn(src, n, was, j, q, q + WORD) && OnlyChanged(was, now, q, q + WORD)
    requires j + q + WORD <= |src[n]|
    requires forall p :: j + q <= p < j + q + WORD ==> now[p - j] == SeenTwice(was[p - j], res[p], src[n][p])
    ensures CommonOn(src, n + 1, now, j, q, q + WORD)
  {
    hide IsAcc;
    hide IsCommon;
    hide SeenTwice;
    forall u | q <= u < q + WORD ensures IsCommon(src, n + 1, j + u, now[u]) {
      var p := j + u;
      assert IsCommon(src, n, j + u, was[u]);
      assert now[p - j] == SeenTwice(was[p - j], res[p], src[n][p]);
      CommonNext(src, n, p, was[u], res[p]);
    }
  }

  method AccumulateBlock(op: Op, src: Sources, res: array<Byte>, j: nat)
    requires src != [] && HaveAll(src, j + BLOCK) && j + BLOCK <= res.Length
    requires AccOn(op, src, 1, res[..], j, j + BLOCK)
    modifies res
    ensures OnlyChanged(old(res[..]), res[..], j, j + BLOCK)
    ensures AccOn(op, src, |src|, res[..], j, j + BLOCK)
  {
    hide IsAcc;
    hide CombBits;
    for i := 1 to |src|
      invariant OnlyChanged(old(res[..]), res[..], j, j + BLOCK)
      invariant AccOn(op, src, i, res[..], j, j + BLOCK)
    {
      for w := 0 to 4
        invariant OnlyChanged(old(res[..]), res[..], j, j + BLOCK)
        invariant AccOn(op, src, i + 1, res[..], j, j + 8 * w)
        invariant AccOn(op, src, i, res[..], j + 8 * w, j + BLOCK)
      {
        ghost var was := res[..];
        CombineWord(op, res, j + 8 * w, src[i]);
        CombinedWord(op, src, i, was, res[..], j + 8 * w);
      }
    }
  }

  /** ONE on a block: parities and repeated bits side by side, the mask applied at the end. */
  method OneBlock(src: Sources, res: array<Byte>, j: nat)
    requires src != [] && HaveAll(src, j + BLOCK) && j + BLOCK <= res.Length
    requires AccOn(One, src, 1, res[..], j, j + BLOCK)
    modifies res
    ensures OnlyChanged(old(res[..]), res[..], j, j + BLOCK)
    ensures forall p :: j <= p < j + BLOCK ==> IsResult(One, src, p, res[..][p])
  {
    hide IsAcc;
    hide IsCommon;
    hide IsResult;
    hide CombBits;
    hide SeenTwice;
    hide FinishBits;
    var common := new Byte[BLOCK](q => ZERO);
    NothingCommon(src, common[..], j);
    for i := 1 to |src|
      invariant OnlyChanged(old(res[..]), res[..], j, j + BLOCK)
      invariant AccOn(One, src, i, res[..], j, j + BLOCK)
      invariant CommonOn(src, i, common[..], j, 0, BLOCK)
    {
      for w := 0 to 4
        invariant OnlyChanged(old(res[..]), res[..], j, j + BLOCK)
        invariant AccOn(One, src, i + 1, res[..], j, j + 8 * w)
        invariant AccOn(One, src, i, res[..], j + 8 * w, j + BLOCK)
        invariant CommonOn(src, i + 1, common[..], j, 0, 8 * w)
        invariant CommonOn(src, i, common[..], j, 8 * w, BLOCK)
      {
        OneWord(src, i, res, common, j, 8 * w);
      }
    }
    FinishBlock(One, src, res, j, common);
  }

  method OneWord(src: Sources, i: nat, res: array<Byte>, common: array<Byte>, j: nat, q: nat)
    requires 0 < i < |src| && q + WORD <= common.Length && j + q + WORD <= res.Length && j + q + WORD <= |src[i]|
    requires res != common
    requires AccOn(One, src, i, res[..], j + q, j + q + WORD) && CommonOn(src, i, common[..], j, q, q + WORD)
    modifies res, common
    ensures OnlyChanged(old(res[..]), res[..], j + q, j + q + WORD)
    ensures OnlyChanged(old(common[..]), common[..], q, q + WORD)
    ensures AccOn(One, src, i + 1, res[..], j + q, j + q + WORD) && CommonOn(src, i + 1, common[..], j, q, q + WORD)
  {
    hide IsAcc;
    hide IsCommon;
    hide CombBits;
    hide SeenTwice;
    ghost var was, wasCommon := res[..], common[..];
    SeenWord(common, q, res, j, src[i]);
    forall p | j + q <= p < j + q + WORD
      ensures common[..][p - j] == SeenTwice(wasCommon[p - j], was[p], src[i][p])
    {
      assert res[p] == was[p];
    }
    SeenTwiceWord(src, i, was, wasCommon, common[..], j, q);
    CombineWord(One, res, j + q, src[i]);
    CombinedWord(One, src, i, was, res[..], j + q);
  }

  lemma NothingCommon(src: Sources, common: seq<Byte>, j: nat)
    requires src != [] && |common| == BLOCK && forall q :: 0 <= q < BLOCK ==> common[q] == ZERO
    ensures CommonOn(src, 1, common, j, 0, BLOCK)
  {
    hide Ones;
    forall q, k | 0 <= q < BLOCK && 0 <= k < 8 ensures common[q][k] == (Ones(Column(src, 1, j + q, k)) >= 2) {
      var b := ByteAt(src[0], j + q)[k];
      assert Column(src, 1, j + q, k) == [b];
      AccFirst(One, b);
    }
  }

  lemma FinishedWord(op: Op, src: Sources, was: seq<Byte>, now: seq<Byte>, common: seq<Byte>, j: nat, q: nat)
    requires src != [] && AccOn(op, src, |src|, was, j + q, j + q + WORD) && OnlyChanged(was, now, j + q, j + q + WORD)
    requires q + WORD <= |common| && j + q + WORD <= |src[0]|
    requires op.One? ==> CommonOn(src, |src|, common, j, q, q + WORD)
    requires forall p :: j + q <= p < j + q + WORD ==> now[p] == FinishBits(op, src[0][p], was[p], common[p - j])
    ensures forall p :: j + q <= p < j + q + WORD ==> IsResult(op, src, p, now[p])
  {
    hide IsAcc;
    hide IsCommon;
    hide IsResult;
    hide FinishBits;
    forall p | j + q <= p < j + q + WORD ensures IsResult(op, src, p, now[p]) {
      assert op.One? ==> IsCommon(src, |src|, j + (p - j), common[p - j]);
      FinishByte(op, src, p, was[p], common[p - j]);
    }
  }

  /** The final step on a block; only ONE looks at the repeated bits. */
  method FinishBlock(op: Op, src: Sources, res: array<Byte>, j: nat, common: array<Byte>)
    requires src != [] && HaveAll(src, j + BLOCK) && j + BLOCK <= res.Length && common.Length == BLOCK && common != res
    requires AccOn(op, src, |src|, res[..], j, j + BLOCK)
    requires op.One? ==> CommonOn(src, |src|, common[..], j, 0, BLOCK)
    modifies res
    ensures OnlyChanged(old(res[..]), res[..], j, j + BLOCK)
    ensures forall p :: j <= p < j + BLOCK ==> IsResult(op, src, p, res[..][p])
  {
    hide IsAcc;
    hide IsCommon;
    hide IsResult;
    hide FinishBits;
    for w := 0 to 4
      invariant OnlyChanged(old(res[..]), res[..], j, j + BLOCK)
      invariant AccOn(op, src, |src|, res[..], j + 8 * w, j + BLOCK)
      invariant forall p :: j <= p < j + 8 * w ==> IsResult(op, src, p, res[..][p])
    {
      ghost var was := res[..];
      FinishWord(op, src[0], res, j, common, 8 * w);
      FinishedWord(op, src, was, res[..], common[..], j, 8 * w);
    }
  }

  // ---- the prefix that all sources cover ----

  lemma FirstAcc(op: Op, src: Sources, p: nat, b: Byte)
    requires src != [] && b == if OfRest(op) then ZERO else ByteAt(src[0], p)
    ensures IsAcc(op, src, 1, p, b)
  {
    hide Acc;
    forall k | 0 <= k < 8 ensures b[k] == Acc(op, Column(src, 1, p, k)) {
      assert Column(src, 1, p, k) == [ByteAt(src[0], p)[k]];
      AccFirst(op, ByteAt(src[0], p)[k]);
    }
  }

  /** For AND, OR and XOR the running value is the result. */
  lemma AccIsResult(op: Op, src: Sources, p: nat, b: Byte)
    requires src != [] && IsAcc(op, src, |src|, p, b) && (op.And? || op.Or? || op.Xor?)
    ensures IsResult(op, src, p, b)
  {
    FinishByte(op, src, p, b, ZERO);
    assert FinishBits(op, ByteAt(src[0], p), b, ZERO) == b;
  }

  /** Copying the first source, or leaving zeros, starts the running values. */
  method StartWords(op: Op, src: Sources, res: array<Byte>, minlen: nat)
    requires src != [] && HaveAll(src, minlen) && minlen <= res.Length
    requires forall p :: 0 <= p < res.Length ==> res[p] == ZERO
    modifies res
    ensures AccOn(op, src, 1, res[..], 0, minlen)
  {
    hide IsAcc;
    if !OfRest(op) {
      for p := 0 to minlen
        invariant forall q :: 0 <= q < p ==> res[q] == src[0][q]
      {
        res[p] := src[0][p];
      }
    }
    forall p | 0 <= p < minlen ensures IsAcc(op, src, 1, p, res[..][p]) {
      FirstAcc(op, src, p, res[p]);
    }
  }

  /** Whole blocks while every source has them. Returns the number of bytes computed. */
  method WordPrefix(op: Op, src: Sources, res: array<Byte>, minlen: nat) returns (j: nat)
    requires src != [] && HaveAll(src, minlen) && minlen <= res.Length
    requires forall p :: 0 <= p < res.Length ==> res[p] == ZERO
    modifies res
    ensures j <= minlen && ResultOn(op, src, res[..], j)
  {
    hide IsAcc;
    hide IsResult;
    j := 0;
    if minlen < BLOCK { return; }
    StartWords(op, src, res, minlen);
    while j + BLOCK <= minlen
      invariant j <= minlen && j % BLOCK == 0
      invariant if OfRest(op) then AccOn(op, src, |src|, res[..], 0, j) else ResultOn(op, src, res[..], j)
      invariant AccOn(op, src, 1, res[..], j, minlen)
    {
      ghost var was := res[..];
      ComputeBlock(op, src, res, j);
      assert forall p :: 0 <= p < j || j + BLOCK <= p < minlen ==> res[..][p] == was[p];
      j := j + BLOCK;
    }
    if OfRest(op) {
      var unused := new Byte[BLOCK](q => ZERO);
      for i := 0 to j / BLOCK
        invariant ResultOn(op, src, res[..], i * BLOCK)
        invariant AccOn(op, src, |src|, res[..], i * BLOCK, j)
      {
        ghost var was := res[..];
        FinishBlock(op, src, res, i * BLOCK, unused);
        assert forall p :: 0 <= p < i * BLOCK || i * BLOCK + BLOCK <= p < j ==> res[..][p] == was[p];
      }
    }
  }

  method ComputeBlock(op: Op, src: Sources, res: array<Byte>, j: nat)
    requires src != [] && HaveAll(src, j + BLOCK) && j + BLOCK <= res.Length
    requires AccOn(op, src, 1, res[..], j, j + BLOCK)
    modifies res
    ensures OnlyChanged(old(res[..]), res[..], j, j + BLOCK)
    ensures if OfRest(op) then AccOn(op, src, |src|, res[..], j, j + BLOCK)
            else forall p :: j <= p < j + BLOCK ==> IsResult(op, src, p, res[..][p])
  {
    hide IsAcc;
    hide IsResult;
    if op.One? {
      OneBlock(src, res, j);
      return;
    }
    AccumulateBlock(op, src, res, j);
    if op.Not? {
      var unused := new Byte[BLOCK](q => ZERO);
      FinishBlock(op, src, res, j, unused);
    } else if !OfRest(op) {
      forall p | j <= p < j + BLOCK ensures IsResult(op, src, p, res[..][p]) { AccIsResult(op, src, p, res[p]); }
    }
  }
}
