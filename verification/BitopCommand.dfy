/** BITOP one byte at a time with early exits, and the whole command. */
module BitopCommands {
  import opened Wrappers
  import opened Bits
  import opened Bitop
  import opened BitopWords

  // ---- the byte loop ----

  /** One bit of the locals of the byte loop after some sources. */
  ghost predicate TailBit(op: Op, bits: seq<bool>, output: bool, disjunction: bool, common: bool)
    requires bits != []
  {
    if OfRest(op) then output == bits[0] && disjunction == Any(bits[1..])
    else if op.Not? then output == !bits[0]
    else if op.One? then output == TailAcc(One, bits) && common == (Ones(bits) >= 2)
    else output == Acc(op, bits)
  }

  /** No later source can change the result. */
  predicate Saturated(op: Op, output: bool, disjunction: bool, common: bool) {
    match op
    case And => !output
    case Or => output
    case Xor => false
    case Not => false
    case One => common
    case _ => disjunction
  }

  lemma SaturatedStays(op: Op, bits: seq<bool>, b: bool, output: bool, disjunction: bool, common: bool)
    requires bits != [] && TailBit(op, bits, output, disjunction, common) && Saturated(op, output, disjunction, common)
    ensures TailBit(op, bits + [b], output, disjunction, common)
  {
    hide Ones;
    hide Any;
    hide All;
    AccPush(op, bits, b);
    OnesPush(bits, b);
    assert (bits + [b])[1..] == bits[1..] + [b];
    AnyPush(bits[1..], b);
  }

  ghost predicate TailInv(op: Op, src: Sources, n: nat, p: nat, output: Byte, disjunction: Byte, common: Byte)
    requires 0 < n <= |src|
  {
    forall k :: 0 <= k < 8 ==> TailBit(op, Column(src, n, p, k), output[k], disjunction[k], common[k])
  }

  /** Leaving the loop early gives the values of the full loop. */
  lemma {:induction false} EarlyExit(op: Op, src: Sources, n: nat, p: nat, output: Byte, disjunction: Byte, common: Byte)
    requires 0 < n <= |src| && TailInv(op, src, n, p, output, disjunction, common)
    requires forall k :: 0 <= k < 8 ==> Saturated(op, output[k], disjunction[k], common[k])
    ensures TailInv(op, src, |src|, p, output, disjunction, common)
    decreases |src| - n
  {
    hide TailBit;
    hide Saturated;
    if n < |src| {
      forall k | 0 <= k < 8 ensures TailBit(op, Column(src, n + 1, p, k), output[k], disjunction[k], common[k]) {
        ColumnPush(src, n, p, k);
        SaturatedStays(op, Column(src, n, p, k), ByteAt(src[n], p)[k], output[k], disjunction[k], common[k]);
      }
      EarlyExit(op, src, n + 1, p, output, disjunction, common);
    }
  }

  /** One bit of one turn of the loop. */
  predicate NextOutput(op: Op, output: bool, common: bool, b: bool) {
    match op
    case And => output && b
    case Or => output || b
    case Xor => output != b
    case One => output != b && !(common || (output && b))
    case _ => output
  }

  lemma TailStep(op: Op, bits: seq<bool>, b: bool, output: bool, disjunction: bool, common: bool)
    requires bits != [] && TailBit(op, bits, output, disjunction, common)
    ensures TailBit(op, bits + [b], NextOutput(op, output, common, b), disjunction || b, common || (output && b))
  {
    hide Ones;
    hide Any;
    hide All;
    AccPush(op, bits, b);
    TailPush(bits, b);
    assert (bits + [b])[1..] == bits[1..] + [b];
    AnyPush(bits[1..], b);
  }

  function NextBits(op: Op, output: Byte, common: Byte, b: Byte): (r: Byte)
    ensures forall k :: 0 <= k < 8 ==> r[k] == NextOutput(op, output[k], common[k], b[k])
  {
    seq(8, k requires 0 <= k < 8 => NextOutput(op, output[k], common[k], b[k]))
  }

  lemma TailNext(op: Op, src: Sources, n: nat, p: nat, output: Byte, disjunction: Byte, common: Byte)
    requires 0 < n < |src| && TailInv(op, src, n, p, output, disjunction, common)
    ensures var b := ByteAt(src[n], p);
            TailInv(op, src, n + 1, p, NextBits(op, output, common, b), CombBits(Or, disjunction, b), SeenTwice(common, output, b))
  {
    hide TailBit;
    hide NextOutput;
    var b := ByteAt(src[n], p);
    forall k | 0 <= k < 8
      ensures TailBit(op, Column(src, n + 1, p, k), NextOutput(op, output[k], common[k], b[k]), disjunction[k] || b[k], common[k] || (output[k] && b[k]))
    {
      ColumnPush(src, n, p, k);
      TailStep(op, Column(src, n, p, k), b[k], output[k], disjunction[k], common[k]);
    }
  }

  lemma TailFirst(op: Op, src: Sources, p: nat, output: Byte)
    requires src != []
    requires forall k :: 0 <= k < 8 ==> output[k] == (ByteAt(src[0], p)[k] != op.Not?)
    ensures TailInv(op, src, 1, p, output, ZERO, ZERO)
  {
    hide Ones;
    hide All;
    forall k | 0 <= k < 8 ensures TailBit(op, Column(src, 1, p, k), output[k], false, false) {
      assert Column(src, 1, p, k) == [ByteAt(src[0], p)[k]];
      AccFirst(op, ByteAt(src[0], p)[k]);
    }
  }

  lemma TailLast(op: Op, src: Sources, p: nat, output: Byte, disjunction: Byte, common: Byte)
    requires src != [] && TailInv(op, src, |src|, p, output, disjunction, common)
    ensures IsResult(op, src, p, if OfRest(op) then FinishBits(op, output, disjunction, common) else output)
  {
    hide Ones;
    hide Any;
    hide All;
  }

  method TailByte(op: Op, src: Sources, p: nat) returns (b: Byte)
    requires src != []
    ensures IsResult(op, src, p, b)
  {
    hide TailInv;
    hide IsResult;
    hide Saturated;
    hide CombBits;
    hide SeenTwice;
    hide NextBits;
    hide ByteAt;
    var output: Byte := ByteAt(src[0], p);
    if op == Not { output := seq(8, k requires 0 <= k < 8 => !ByteAt(src[0], p)[k]); }
    var disjunction: Byte, common: Byte := ZERO, ZERO;
    TailFirst(op, src, p, output);
    var i := 1;
    while i < |src|
      invariant 1 <= i <= |src| && TailInv(op, src, i, p, output, disjunction, common)
    {
      var byte := ByteAt(src[i], p);
      TailNext(op, src, i, p, output, disjunction, common);
      output, disjunction, common := NextBits(op, output, common, byte), CombBits(Or, disjunction, byte), SeenTwice(common, output, byte);
      i := i + 1;
      if forall k :: 0 <= k < 8 ==> Saturated(op, output[k], disjunction[k], common[k]) {
        EarlyExit(op, src, i, p, output, disjunction, common);
        break;
      }
    }
    TailLast(op, src, p, output, disjunction, common);
    if OfRest(op) { return FinishBits(op, output, disjunction, common); }
    return output;
  }

  // ---- the command ----

  datatype Reply = Rejected | Deleted | Stored(value: seq<Byte>)

  predicate Accepts(op: Op, numkeys: nat) {
    (op.Not? ==> numkeys == 1) && (OfRest(op) ==> numkeys >= 2)
  }

  /** NOT takes one source, DIFF, DIFF1 and ANDOR at least two, the others any number. */
  lemma AcceptsExact(op: Op, n: nat)
    requires n >= 1
    ensures Accepts(op, n) <==>
            if op == Not then n == 1 else if op == Diff || op == Diff1 || op == AndOr then n >= 2 else true
  {
  }

  /** A missing key counts as an empty string. */
  function Strings(keys: seq<Option<seq<Byte>>>): (src: Sources)
    ensures |src| == |keys| && forall i :: 0 <= i < |keys| ==> src[i] == if keys[i].Some? then keys[i].value else []
  {
    seq(|keys|, i requires 0 <= i < |keys| => if keys[i].Some? then keys[i].value else [])
  }

  /** `len` is the length of the longest source. */
  ghost predicate Longest(src: Sources, len: nat) {
    (forall i :: 0 <= i < |src| ==> |src[i]| <= len) && (len > 0 ==> exists i :: 0 <= i < |src| && |src[i]| == len)
  }

  method Lengths(keys: seq<Option<seq<Byte>>>) returns (minlen: nat, maxlen: nat)
    ensures Longest(Strings(keys), maxlen) && HaveAll(Strings(keys), minlen) && minlen <= maxlen
  {
    minlen, maxlen := 0, 0;
    ghost var src := Strings(keys);
    for j := 0 to |keys|
      invariant forall i :: 0 <= i < j ==> minlen <= |src[i]| <= maxlen
      invariant minlen <= maxlen && (maxlen > 0 ==> exists i :: 0 <= i < |src| && |src[i]| == maxlen)
    {
      if keys[j].None? {
        minlen := 0;
      } else {
        var len := |keys[j].value|;
        assert |src[j]| == len;
        if len > maxlen { maxlen := len; }
        if j == 0 || len < minlen { minlen := len; }
      }
    }
  }

  /** BITOP: rejects a wrong number of keys, deletes the target when all sources are empty, and
      otherwise stores a string as long as the longest source whose every bit is the definition
      applied to the bits of the zero-padded sources. */
  method BitopCommand(op: Op, keys: seq<Option<seq<Byte>>>) returns (reply: Reply)
    requires keys != []
    ensures reply == Rejected <==> !Accepts(op, |keys|)
    ensures reply == Deleted ==> Longest(Strings(keys), 0)
    ensures reply.Stored? ==> reply.value != [] && Longest(Strings(keys), |reply.value|)
    ensures reply.Stored? ==>
              forall n :: 0 <= n < 8 * |reply.value| ==>
                Bit(reply.value, n) == Result(op, Column(Strings(keys), |keys|, n / 8, n % 8))
  {
    hide IsResult;
    hide Result;
    hide Longest;
    if !Accepts(op, |keys|) { return Rejected; }
    var src := Strings(keys);
    var minlen, maxlen := Lengths(keys);
    if maxlen == 0 { return Deleted; }
    var res := new Byte[maxlen](p => ZERO);
    var done := WordPrefix(op, src, res, minlen);
    for j := done to maxlen
      invariant ResultOn(op, src, res[..], j)
    {
      ghost var was := res[..];
      res[j] := TailByte(op, src, j);
      assert forall p :: 0 <= p < j ==> res[..][p] == was[p];
    }
    ResultBits(op, src, res[..]);
    return Stored(res[..]);
  }

  lemma ResultBits(op: Op, src: Sources, s: seq<Byte>)
    requires src != [] && ResultOn(op, src, s, |s|)
    ensures forall n :: 0 <= n < 8 * |s| ==> Bit(s, n) == Result(op, Column(src, |src|, n / 8, n % 8))
  {
    hide Result;
    forall n | 0 <= n < 8 * |s| ensures Bit(s, n) == Result(op, Column(src, |src|, n / 8, n % 8)) {
      assert IsResult(op, src, n / 8, s[n / 8]);
    }
  }
}
