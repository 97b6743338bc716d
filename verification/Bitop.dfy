/** BITOP: the bitwise definition of its eight operators, and the running values by which it
    is computed source by source. */
module Bitop {
  import opened Bits

  datatype Op = And | Or | Xor | Not | Diff | Diff1 | AndOr | One

  // ---- the definition, one bit at a time ----

  ghost predicate Any(bits: seq<bool>) { exists i :: 0 <= i < |bits| && bits[i] }

  ghost predicate All(bits: seq<bool>) { forall i :: 0 <= i < |bits| ==> bits[i] }

  /** The result bit for the bits of the sources at one position. */
  ghost predicate Result(op: Op, bits: seq<bool>)
    requires bits != []
  {
    match op
    case And => All(bits)
    case Or => Any(bits)
    case Xor => Ones(bits) % 2 == 1
    case Not => !bits[0]
    case Diff => bits[0] && !Any(bits[1..])
    case Diff1 => !bits[0] && Any(bits[1..])
    case AndOr => bits[0] && Any(bits[1..])
    case One => Ones(bits) == 1
  }

  /** The operators on two and on three sources, spelled out. */
  lemma OnTwo(a: bool, b: bool)
    ensures Result(And, [a, b]) == (a && b) && Result(Or, [a, b]) == (a || b) && Result(Xor, [a, b]) == (a != b)
    ensures Result(Diff, [a, b]) == (a && !b) && Result(Diff1, [a, b]) == (!a && b) && Result(AndOr, [a, b]) == (a && b)
    ensures Result(One, [a, b]) == (a != b) && Result(Not, [a]) == !a
  {
    var s := [a, b];
    OnesPush([a], b);
    OnesPush([], a);
    assert [] + [a] == [a] && [a] + [b] == s;
    assert s[0] == a && s[1] == b && s[1..] == [b] && [b][0] == b && [a][0] == a;
  }

  lemma OnThree(a: bool, b: bool, c: bool)
    ensures Result(And, [a, b, c]) == (a && b && c) && Result(Or, [a, b, c]) == (a || b || c)
    ensures Result(Xor, [a, b, c]) == ((a != b) != c)
    ensures Result(Diff, [a, b, c]) == (a && !b && !c) && Result(Diff1, [a, b, c]) == (!a && (b || c))
    ensures Result(AndOr, [a, b, c]) == (a && (b || c))
    ensures Result(One, [a, b, c]) == ((a && !b && !c) || (!a && b && !c) || (!a && !b && c))
  {
    var s := [a, b, c];
    OnesPush([a, b], c);
    OnesPush([a], b);
    OnesPush([], a);
    assert [] + [a] == [a] && [a] + [b] == [a, b] && [a, b] + [c] == s;
    assert s[0] == a && s[1] == b && s[2] == c && s[1..] == [b, c] && [b, c][0] == b && [b, c][1] == c;
  }

  // ---- running values ----

  predicate OfRest(op: Op) { op.Diff? || op.Diff1? || op.AndOr? }

  /** What a word of the result holds after some of the sources. */
  ghost predicate Acc(op: Op, bits: seq<bool>)
    requires bits != []
  {
    match op
    case And => All(bits)
    case Or => Any(bits)
    case Xor => Ones(bits) % 2 == 1
    case One => Ones(bits) % 2 == 1
    case Not => bits[0]
    case _ => Any(bits[1..])
  }

  predicate Comb(op: Op, a: bool, b: bool) {
    match op
    case And => a && b
    case Xor => a != b
    case One => a != b
    case Not => a
    case _ => a || b
  }

  /** The last step, from the first source, the running value and the bits seen twice. */
  predicate Finish(op: Op, first: bool, acc: bool, common: bool) {
    match op
    case Not => !acc
    case Diff => first && !acc
    case Diff1 => !first && acc
    case AndOr => first && acc
    case One => acc && !common
    case _ => acc
  }

  lemma AnyPush(bits: seq<bool>, b: bool)
    ensures Any(bits + [b]) <==> Any(bits) || b
  {
    assert (bits + [b])[|bits|] == b;
    if i :| 0 <= i < |bits| && bits[i] { assert (bits + [b])[i]; }
  }

  lemma AccPush(op: Op, bits: seq<bool>, b: bool)
    requires bits != []
    ensures Acc(op, bits + [b]) == Comb(op, Acc(op, bits), b)
  {
    hide Ones;
    hide Any;
    OnesPush(bits, b);
    AnyPush(bits, b);
    AnyPush(bits[1..], b);
    assert (bits + [b])[1..] == bits[1..] + [b];
    assert (bits + [b])[|bits|] == b;
    if !All(bits) {
      var i :| 0 <= i < |bits| && !bits[i];
      assert !(bits + [b])[i];
    }
  }

  lemma AccFirst(op: Op, b: bool)
    ensures Acc(op, [b]) == (if OfRest(op) then false else b)
    ensures Ones([b]) == if b then 1 else 0
  {
    OnesPush([], b);
    assert [] + [b] == [b];
    assert [b][0] == b;
  }

  /** Masking once at the end gives the definition. */
  lemma FinishIsResult(op: Op, bits: seq<bool>)
    requires bits != []
    ensures Finish(op, bits[0], Acc(op, bits), Ones(bits) >= 2) == Result(op, bits)
  {
  }

  /** The running value of the byte loop: for ONE the repeated bits are masked at each step. */
  ghost predicate TailAcc(op: Op, bits: seq<bool>)
    requires bits != []
  {
    if op.One? then Ones(bits) == 1 else Acc(op, bits)
  }

  /** Masking at each step, and not only at the end, is the same. */
  lemma TailPush(bits: seq<bool>, b: bool)
    requires bits != []
    ensures var common := Ones(bits) >= 2 || (TailAcc(One, bits) && b);
            && common == (Ones(bits + [b]) >= 2)
            && TailAcc(One, bits + [b]) == (TailAcc(One, bits) != b && !common)
  {
    OnesPush(bits, b);
  }

  lemma CommonPush(bits: seq<bool>, b: bool)
    requires bits != []
    ensures (Ones(bits + [b]) >= 2) == (Ones(bits) >= 2 || (Acc(One, bits) && b))
  {
    OnesPush(bits, b);
  }

  // ---- columns of the sources ----

  type Sources = seq<seq<Byte>>

  /** Bit `k` of byte `p` of each of the first `n` sources, padded with zeros. */
  function Column(src: Sources, n: nat, p: nat, k: nat): (bits: seq<bool>)
    requires n <= |src| && k < 8
    ensures |bits| == n && forall i :: 0 <= i < n ==> bits[i] == ByteAt(src[i], p)[k]
  {
    seq(n, i requires 0 <= i < n => ByteAt(src[i], p)[k])
  }

  lemma ColumnPush(src: Sources, n: nat, p: nat, k: nat)
    requires n < |src| && k < 8
    ensures Column(src, n + 1, p, k) == Column(src, n, p, k) + [ByteAt(src[n], p)[k]]
  {
  }

  /** Byte `b` holds the running value after `n` sources at position `p`. */
  ghost predicate IsAcc(op: Op, src: Sources, n: nat, p: nat, b: Byte)
    requires 0 < n <= |src|
  {
    forall k :: 0 <= k < 8 ==> b[k] == Acc(op, Column(src, n, p, k))
  }

  ghost predicate IsCommon(src: Sources, n: nat, p: nat, b: Byte)
    requires 0 < n <= |src|
  {
    forall k :: 0 <= k < 8 ==> b[k] == (Ones(Column(src, n, p, k)) >= 2)
  }

  ghost predicate IsResult(op: Op, src: Sources, p: nat, b: Byte)
    requires src != []
  {
    forall k :: 0 <= k < 8 ==> b[k] == Result(op, Column(src, |src|, p, k))
  }

  function CombBits(op: Op, a: seq<bool>, b: seq<bool>): (r: seq<bool>)
    requires |a| == |b|
    ensures |r| == |a| && forall k :: 0 <= k < |a| ==> r[k] == Comb(op, a[k], b[k])
  {
    seq(|a|, k requires 0 <= k < |a| => Comb(op, a[k], b[k]))
  }

  function FinishBits(op: Op, first: seq<bool>, acc: seq<bool>, common: seq<bool>): (r: seq<bool>)
    requires |first| == |acc| == |common|
    ensures |r| == |acc| && forall k :: 0 <= k < |acc| ==> r[k] == Finish(op, first[k], acc[k], common[k])
  {
    seq(|acc|, k requires 0 <= k < |acc| => Finish(op, first[k], acc[k], common[k]))
  }

  /** The bits of `common |= acc & b`. */
  function SeenTwice(common: seq<bool>, acc: seq<bool>, b: seq<bool>): (r: seq<bool>)
    requires |common| == |acc| == |b|
    ensures |r| == |acc| && forall k :: 0 <= k < |acc| ==> r[k] == (common[k] || (acc[k] && b[k]))
  {
    seq(|acc|, k requires 0 <= k < |acc| => common[k] || (acc[k] && b[k]))
  }

  lemma AccNext(op: Op, src: Sources, n: nat, p: nat, b: Byte)
    requires 0 < n < |src| && IsAcc(op, src, n, p, b)
    ensures IsAcc(op, src, n + 1, p, CombBits(op, b, ByteAt(src[n], p)))
  {
    hide Acc;
    hide Comb;
    forall k | 0 <= k < 8 ensures Comb(op, b[k], ByteAt(src[n], p)[k]) == Acc(op, Column(src, n + 1, p, k)) {
      ColumnPush(src, n, p, k);
      AccPush(op, Column(src, n, p, k), ByteAt(src[n], p)[k]);
    }
  }

  lemma CommonNext(src: Sources, n: nat, p: nat, common: Byte, b: Byte)
    requires 0 < n < |src| && IsAcc(One, src, n, p, b) && IsCommon(src, n, p, common)
    ensures IsCommon(src, n + 1, p, SeenTwice(common, b, ByteAt(src[n], p)))
  {
    hide Ones;
    hide Acc;
    forall k | 0 <= k < 8
      ensures (common[k] || (b[k] && ByteAt(src[n], p)[k])) == (Ones(Column(src, n + 1, p, k)) >= 2)
    {
      ColumnPush(src, n, p, k);
      CommonPush(Column(src, n, p, k), ByteAt(src[n], p)[k]);
    }
  }

  lemma FinishByte(op: Op, src: Sources, p: nat, acc: Byte, common: Byte)
    requires src != [] && IsAcc(op, src, |src|, p, acc)
    requires op.One? ==> IsCommon(src, |src|, p, common)
    ensures IsResult(op, src, p, FinishBits(op, ByteAt(src[0], p), acc, common))
  {
    hide Acc;
    hide Ones;
    hide Result;
    forall k | 0 <= k < 8
      ensures Finish(op, ByteAt(src[0], p)[k], acc[k], common[k]) == Result(op, Column(src, |src|, p, k))
    {
      FinishIsResult(op, Column(src, |src|, p, k));
    }
  }
}
