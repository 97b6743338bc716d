/** BITFIELD on a string: reading and writing integers of any width at any bit offset. */
module Bitfield {
  import opened Wrappers
  import opened Bits
  import opened BitfieldOverflow

  // ---- fields of the infinite zero-padded bit array ----

  function Field(s: seq<Byte>, offset: nat, bits: nat): (f: seq<bool>)
    ensures |f| == bits && forall k :: 0 <= k < bits ==> f[k] == Bit(s, offset + k)
  {
    seq(bits, k requires 0 <= k < bits => Bit(s, offset + k))
  }

  /** The integer a field of the given type holds. */
  function Value(kind: Kind, f: seq<bool>): (v: int)
    requires |f| == kind.bits && ValidKind(kind)
  {
    if kind.signed && f[0] then Number(f) - Pow2(kind.bits) else Number(f)
  }

  lemma {:induction false} NumberBounds(f: seq<bool>)
    ensures Number(f) < Pow2(|f|)
    ensures f != [] ==> (f[0] <==> Number(f) >= Pow2(|f| - 1))
  {
    if f != [] { NumberBounds(f[..|f| - 1]); }
  }

  lemma ValueFits(kind: Kind, f: seq<bool>)
    requires |f| == kind.bits && ValidKind(kind)
    ensures Fits(kind, Value(kind, f))
  {
    NumberBounds(f);
    Widths(kind);
  }

  /** Bit `i` of a number, counted from the least significant. */
  predicate BitOf(v: nat, i: nat) { if i == 0 then v % 2 == 1 else BitOf(v / 2, i - 1) }

  lemma {:induction false} ToBitsAt(v: nat, n: nat, j: nat)
    requires j < n
    ensures ToBits(v, n)[j] == BitOf(v, n - 1 - j)
  {
    if j < n - 1 { ToBitsAt(v / 2, n - 1, j); }
  }

  lemma {:induction false} NumberToBits(v: nat, n: nat)
    ensures Number(ToBits(v, n)) == LowBits(v, n)
  {
    if n > 0 {
      NumberToBits(v / 2, n - 1);
      assert ToBits(v, n)[..n - 1] == ToBits(v / 2, n - 1);
    }
  }

  /** `r` is `s` with the field replaced by the lowest bits of a number and nothing else changed. */
  ghost predicate Wrote(s: seq<Byte>, r: seq<Byte>, offset: nat, bits: nat, v: nat) {
    && |r| == |s|
    && Field(r, offset, bits) == ToBits(v, bits)
    && forall n :: 0 <= n && !(offset <= n < offset + bits) ==> Bit(r, n) == Bit(s, n)
  }

  // ---- the bit loops ----

  method SetUnsignedBitfield(p: array<Byte>, offset: nat, bits: nat, value: nat)
    requires offset + bits <= 8 * p.Length
    modifies p
    ensures Wrote(old(p[..]), p[..], offset, bits, value)
  {
    hide Bit;
    hide BitOf;
    for j := 0 to bits
      invariant forall n :: offset <= n < offset + j ==> Bit(p[..], n) == BitOf(value, bits - 1 - (n - offset))
      invariant forall n :: 0 <= n && !(offset <= n < offset + j) ==> Bit(p[..], n) == Bit(old(p[..]), n)
    {
      ghost var was := p[..];
      var byte, bit := (offset + j) / 8, (offset + j) % 8;
      var b: Byte := p[byte];
      p[byte] := b[bit := BitOf(value, bits - 1 - j)];
      assert p[..] == was[byte := was[byte][bit := BitOf(value, bits - 1 - j)]];
      OneBit(was, p[..], offset + j, BitOf(value, bits - 1 - j));
    }
    forall k | 0 <= k < bits ensures Field(p[..], offset, bits)[k] == ToBits(value, bits)[k] {
      ToBitsAt(value, bits, k);
      assert Bit(p[..], offset + k) == BitOf(value, bits - 1 - k);
    }
  }

  lemma OneBit(s: seq<Byte>, r: seq<Byte>, n: nat, v: bool)
    requires n < 8 * |s| && r == s[n / 8 := s[n / 8][n % 8 := v]]
    ensures Bit(r, n) == v && forall m: nat :: m != n ==> Bit(r, m) == Bit(s, m)
  {
    forall m: nat | m != n ensures Bit(r, m) == Bit(s, m) {
      if m / 8 == n / 8 { assert m % 8 != n % 8; }
    }
  }

  method GetUnsignedBitfield(p: seq<Byte>, offset: nat, bits: nat) returns (value: nat)
    requires offset + bits <= 8 * |p|
    ensures value == Number(Field(p, offset, bits))
  {
    value := 0;
    for j := 0 to bits
      invariant value == Number(Field(p, offset, j))
    {
      var byte, bit := (offset + j) / 8, (offset + j) % 8;
      assert Field(p, offset, j + 1)[..j] == Field(p, offset, j);
      value := 2 * value + if p[byte][bit] then 1 else 0;
    }
  }

  /** Reads the field as an unsigned number and extends its sign. */
  method GetSignedBitfield(p: seq<Byte>, offset: nat, bits: nat) returns (value: int)
    requires offset + bits <= 8 * |p| && 1 <= bits <= 64
    ensures value == Value(Kind(true, bits), Field(p, offset, bits))
  {
    hide Number;
    var u := GetUnsignedBitfield(p, offset, bits);
    ghost var f := Field(p, offset, bits);
    NumberBounds(f);
    Pow2Mono(bits, 64);
    Widths(Kind(true, bits));
    hide Pow2;
    value := Int(u);
    if bits < 64 && u >= Pow2(bits - 1) { value := value - Pow2(bits); }
  }

  /** A field of at most 64 bits read from nine zero-padded bytes is the field of the string. */
  method GetBuffered(src: seq<Byte>, offset: nat, kind: Kind) returns (v: int)
    requires ValidKind(kind)
    ensures v == Value(kind, Field(src, offset, kind.bits))
  {
    hide Bit;
    hide Number;
    var buf := new Byte[9](i => ZERO);
    var byte := offset / 8;
    var i := 0;
    while i < 9
      invariant 0 <= i <= 9
      invariant forall j :: 0 <= j < 9 ==> buf[j] == if j < i then ByteAt(src, byte + j) else ZERO
    {
      if i + byte >= |src| { break; }
      buf[i] := src[i + byte];
      i := i + 1;
    }
    assert forall j :: 0 <= j < 9 ==> buf[..][j] == ByteAt(src, byte + j);
    SameField(src, buf[..], offset, kind.bits);
    if kind.signed {
      v := GetSignedBitfield(buf[..], offset - byte * 8, kind.bits);
    } else {
      v := GetUnsignedBitfield(buf[..], offset - byte * 8, kind.bits);
    }
  }

  lemma BufferBit(src: seq<Byte>, buf: seq<Byte>, byte: nat, m: nat)
    requires |buf| == 9 && m < 72 && forall j :: 0 <= j < 9 ==> buf[j] == ByteAt(src, byte + j)
    ensures Bit(buf, m) == Bit(src, 8 * byte + m)
  {
    assert (8 * byte + m) / 8 == byte + m / 8 && (8 * byte + m) % 8 == m % 8;
  }

  lemma SameField(src: seq<Byte>, buf: seq<Byte>, offset: nat, bits: nat)
    requires bits <= 64 && |buf| == 9 && forall j :: 0 <= j < 9 ==> buf[j] == ByteAt(src, offset / 8 + j)
    ensures offset % 8 + bits <= 72 && Field(buf, offset - offset / 8 * 8, bits) == Field(src, offset, bits)
  {
    hide Bit;
    var byte, o := offset / 8, offset - offset / 8 * 8;
    forall k | 0 <= k < bits ensures Field(buf, o, bits)[k] == Field(src, offset, bits)[k] {
      BufferBit(src, buf, byte, o + k);
      assert 8 * byte + (o + k) == offset + k;
    }
  }

  // ---- reading back ----

  /** The low bits of a negative number in two's complement. */
  lemma {:induction false} LowOfNegative(v: int, n: nat, bits: nat)
    requires bits <= n && 0 - Pow2(bits) <= v < 0
    ensures 0 <= v + Pow2(n) && LowBits(v + Pow2(n), bits) == v + Pow2(bits)
    decreases bits
  {
    Pow2Mono(bits, n);
    if bits > 0 {
      var x: nat, w := v + Pow2(n), v / 2;
      assert x / 2 == w + Pow2(n - 1) && v == 2 * w + v % 2 && x % 2 == v % 2;
      LowOfNegative(w, n - 1, bits - 1);
    }
  }

  /** Storing a value that fits and reading the field gives the value. */
  lemma ReadBack(kind: Kind, v: int)
    requires ValidKind(kind) && Fits(kind, v)
    ensures -U64 <= v < U64 && Value(kind, ToBits(Wrap(v), kind.bits)) == v
  {
    hide Pow2;
    hide ToBits;
    hide LowBits;
    hide Number;
    Widths(kind);
    var f := ToBits(Wrap(v), kind.bits);
    NumberToBits(Wrap(v), kind.bits);
    NumberBounds(f);
    if v >= 0 { LowHigh(v, kind.bits); } else { LowOfNegative(v, 64, kind.bits); }
  }

  // ---- one operation ----

  datatype Code = Get | Set | IncrBy

  datatype Op = Op(code: Code, kind: Kind, offset: nat, amount: int, overflow: Overflow)

  predicate ValidOp(op: Op) { ValidKind(op.kind) && IsInt64(op.amount) }

  /** What SET and INCRBY store in a field that holds `value`, as the code computes it; nothing
      when the operation fails. */
  function NewValue(op: Op, value: int): (r: Option<int>)
    requires ValidOp(op) && Fits(op.kind, value)
  {
    var k := op.kind;
    Widths(k);
    var c :=
      if k.signed then
        if op.code.IncrBy? then CheckSigned(value, op.amount, k.bits, op.overflow)
        else CheckSigned(op.amount, 0, k.bits, op.overflow)
      else
        if op.code.IncrBy? then CheckUnsigned(value, op.amount, k.bits, op.overflow)
        else CheckUnsigned(Wrap(op.amount), 0, k.bits, op.overflow);
    if c.code != 0 then (if op.overflow.Fail? then None else Some(c.limit))
    else if op.code.IncrBy? then Some(value + op.amount)
    else Some(if k.signed then op.amount else Wrap(op.amount))
  }

  /** The value asked for before any overflow. */
  function Wanted(op: Op, value: int): (r: int) {
    if op.code.IncrBy? then value + op.amount else op.amount
  }

  /** Saturation misses the lower bound for some SET operands: those whose distance to the
      maximum wraps, and negative ones for an unsigned field. */
  predicate Misses(op: Op)
    requires ValidOp(op)
  {
    && op.code.Set? && op.overflow.Saturate? && !Fits(op.kind, op.amount)
    && if op.kind.signed then Max(op.kind) - op.amount >= I63 else op.amount < 0
  }

  /** An operation fails exactly when FAIL was chosen and the wanted value does not fit; what it
      stores fits, and is the wanted value wrapped or saturated, except for the SET operands
      above, which saturate to the maximum. */
  ghost predicate Exact(op: Op, value: int, r: Option<int>)
    requires ValidOp(op)
  {
    var w := Wanted(op, value);
    && (r.None? <==> op.overflow.Fail? && !Fits(op.kind, w))
    && (r.Some? ==> Fits(op.kind, r.value))
    && (r.Some? ==> (Stores(op.kind, w, op.overflow, r.value) <==> !Misses(op)))
    && (Misses(op) ==> r == Some(Max(op.kind)))
  }

  lemma NewValueExact(op: Op, value: int)
    requires ValidOp(op) && Fits(op.kind, value) && !op.code.Get?
    ensures Exact(op, value, NewValue(op, value))
  {
    hide Exact;
    hide NewValue;
    hide Fits;
    if op.code.IncrBy? { IncrExact(op, value); } else { SetExact(op, value); }
  }

  lemma IncrExact(op: Op, value: int)
    requires ValidOp(op) && Fits(op.kind, value) && op.code.IncrBy?
    ensures Exact(op, value, NewValue(op, value))
  {
    var k := op.kind;
    hide CheckSigned;
    hide CheckUnsigned;
    hide Stores;
    hide Fits;
    hide Max;
    hide Wrap;
    assert k == Kind(k.signed, k.bits);
    if k.signed {
      IncrSigned(value, op.amount, k.bits, op.overflow);
    } else {
      Natural(k, value);
      IncrUnsigned(value, op.amount, k.bits, op.overflow);
    }
    FitsStores(k, value + op.amount, op.overflow);
    var r := NewValue(op, value);
    if r.Some? && Stores(k, value + op.amount, op.overflow, r.value) {
      StoresFits(k, value + op.amount, op.overflow, r.value);
    }
  }

  lemma Natural(k: Kind, value: int)
    requires ValidKind(k) && !k.signed && Fits(k, value)
    ensures value >= 0
  {
  }

  lemma FitsStores(k: Kind, v: int, ow: Overflow)
    requires ValidKind(k)
    ensures Fits(k, v) ==> Stores(k, v, ow, v)
  {
  }

  lemma StoresFits(k: Kind, sum: int, ow: Overflow, r: int)
    requires ValidKind(k) && Stores(k, sum, ow, r)
    ensures Fits(k, r)
  {
    Widths(k);
    hide Pow2;
    hide Congruent;
  }

  lemma SetExact(op: Op, value: int)
    requires ValidOp(op) && Fits(op.kind, value) && op.code.Set?
    ensures Exact(op, value, NewValue(op, value))
  {
    var k := op.kind;
    Widths(k);
    hide CheckSigned;
    hide CheckUnsigned;
    hide Congruent;
    hide Pow2;
    assert k == Kind(k.signed, k.bits);
    if k.signed {
      SetSigned(op.amount, k.bits, op.overflow);
    } else {
      SetUnsigned(op.amount, k.bits, op.overflow);
    }
  }

  // ---- runs of operations ----

  /** One operation on a string that holds the field, and its reply. */
  ghost predicate Does(op: Op, s: seq<Byte>, r: seq<Byte>, reply: Option<int>)
    requires ValidOp(op)
  {
    var value := Value(op.kind, Field(s, op.offset, op.kind.bits));
    ValueFits(op.kind, Field(s, op.offset, op.kind.bits));
    if op.code.Get? then r == s && reply == Some(value)
    else
      match NewValue(op, value)
      case None => r == s && reply == None
      case Some(v) =>
        && -U64 <= v < U64 && Wrote(s, r, op.offset, op.kind.bits, Wrap(v))
        && reply == Some(if op.code.Set? then value else v)
  }

  method Execute(op: Op, p: array<Byte>) returns (reply: Option<int>)
    requires ValidOp(op) && (op.code != Get ==> op.offset + op.kind.bits <= 8 * p.Length)
    modifies p
    ensures Does(op, old(p[..]), p[..], reply)
  {
    hide Wrote;
    hide CheckSigned;
    hide CheckUnsigned;
    hide Pow2;
    hide Number;
    ghost var f := Field(p[..], op.offset, op.kind.bits);
    ValueFits(op.kind, f);
    if op.code == Get {
      var v := GetBuffered(p[..], op.offset, op.kind);
      return Some(v);
    }
    var value;
    if op.kind.signed {
      value := GetSignedBitfield(p[..], op.offset, op.kind.bits);
    } else {
      value := GetUnsignedBitfield(p[..], op.offset, op.kind.bits);
    }
    assert op.kind == Kind(op.kind.signed, op.kind.bits);
    var next := NewValue(op, value);
    NewValueExact(op, value);
    if next.None? { return None; }
    ReadBack(op.kind, next.value);
    SetUnsignedBitfield(p, op.offset, op.kind.bits, Wrap(next.value));
    return Some(if op.code == Set then value else next.value);
  }

  predicate Writes(op: Op) { !op.code.Get? }

  predicate Touches(op: Op, n: nat) { Writes(op) && op.offset <= n < op.offset + op.kind.bits }

  ghost predicate ValidOps(ops: seq<Op>) { forall i :: 0 <= i < |ops| ==> ValidOp(ops[i]) }

  /** The strings before, between and after the operations of a run, with their replies. */
  ghost predicate Run(ops: seq<Op>, states: seq<seq<Byte>>, replies: seq<Option<int>>)
    requires ValidOps(ops)
  {
    && |states| == |ops| + 1 && |replies| == |ops|
    && forall i :: 0 <= i < |ops| ==> Does(ops[i], states[i], states[i + 1], replies[i])
  }

  /** An operation changes no bit outside its field and not the length, and a value it stored is
      the value read back; a reply is the stored or the former value. */
  lemma DoesExactly(op: Op, s: seq<Byte>, r: seq<Byte>, reply: Option<int>)
    requires ValidOp(op) && Does(op, s, r, reply)
    ensures |r| == |s| && forall n: nat :: !Touches(op, n) ==> Bit(r, n) == Bit(s, n)
    ensures forall n: nat :: n < op.offset || n >= op.offset + op.kind.bits ==> Bit(r, n) == Bit(s, n)
    ensures reply.Some? && Writes(op) ==>
              Exact(op, Value(op.kind, Field(s, op.offset, op.kind.bits)), Some(Value(op.kind, Field(r, op.offset, op.kind.bits))))
    ensures reply.Some? && op.code.IncrBy? ==> reply.value == Value(op.kind, Field(r, op.offset, op.kind.bits))
    ensures reply.Some? && !op.code.IncrBy? ==> reply.value == Value(op.kind, Field(s, op.offset, op.kind.bits))
    ensures reply.None? || op.code.Get? ==> r == s
    ensures reply.None? <==> var w := Wanted(op, Value(op.kind, Field(s, op.offset, op.kind.bits)));
                             !op.code.Get? && op.overflow.Fail? && !Fits(op.kind, w)
  {
    var value := Value(op.kind, Field(s, op.offset, op.kind.bits));
    ValueFits(op.kind, Field(s, op.offset, op.kind.bits));
    hide Value;
    hide Bit;
    hide Exact;
    hide NewValue;
    if Writes(op) {
      NewValueExact(op, value);
      if NewValue(op, value).Some? { StoredReadsBack(op, value); }
    }
  }

  lemma StoredReadsBack(op: Op, value: int)
    requires ValidOp(op) && Writes(op) && Fits(op.kind, value) && NewValue(op, value).Some?
    ensures var v := NewValue(op, value).value;
            -U64 <= v < U64 && Value(op.kind, ToBits(Wrap(v), op.kind.bits)) == v
  {
    hide NewValue;
    NewValueExact(op, value);
    ReadBack(op.kind, NewValue(op, value).value);
  }

  /** Over a whole run the length stays, and a bit that no write touches stays. */
  lemma {:induction false} RunFrame(ops: seq<Op>, states: seq<seq<Byte>>, replies: seq<Option<int>>, n: nat)
    requires ValidOps(ops) && Run(ops, states, replies)
    ensures |states[|ops|]| == |states[0]|
    ensures (forall op :: op in ops ==> !Touches(op, n)) ==> Bit(states[|ops|], n) == Bit(states[0], n)
  {
    hide Does;
    hide Bit;
    if ops != [] {
      var m := |ops| - 1;
      RunFrame(ops[..m], states[..m + 1], replies[..m], n);
      DoesExactly(ops[m], states[m], states[m + 1], replies[m]);
    }
  }

  // ---- the command ----

  datatype Outcome = Rejected | Done(value: Option<seq<Byte>>, replies: seq<Option<int>>)

  predicate AnyWrite(ops: seq<Op>) { exists op :: op in ops && Writes(op) }

  /** `s` padded with zeros up to length `n`. */
  function Padded(s: seq<Byte>, n: nat): (r: seq<Byte>)
    ensures |r| == (if n <= |s| then |s| else n) && forall i :: 0 <= i < |r| ==> r[i] == ByteAt(s, i)
  {
    seq(if n <= |s| then |s| else n, i requires 0 <= i => ByteAt(s, i))
  }

  /** `high` is the farthest bit any write reaches, or 0. */
  ghost predicate Farthest(ops: seq<Op>, high: nat) {
    && (forall op :: op in ops && Writes(op) ==> op.offset + op.kind.bits <= high + 1)
    && (high == 0 || exists op :: op in ops && Writes(op) && op.offset + op.kind.bits == high + 1)
  }

  method HighestWrite(ops: seq<Op>) returns (high: nat)
    requires ValidOps(ops)
    ensures Farthest(ops, high)
  {
    high := 0;
    for j := 0 to |ops|
      invariant forall i :: 0 <= i < j && Writes(ops[i]) ==> ops[i].offset + ops[i].kind.bits <= high + 1
      invariant high == 0 || exists op :: op in ops && Writes(op) && op.offset + op.kind.bits == high + 1
    {
      var op := ops[j];
      assert ValidOp(op);
      if op.code != Get && high < op.offset + op.kind.bits - 1 { high := op.offset + op.kind.bits - 1; }
    }
  }

  /** BITFIELD: the operations run in order on the string grown with zeros to hold every write;
      a command that only reads does not change or create the key. */
  method BitfieldCommand(key: Option<seq<Byte>>, ops: seq<Op>, readOnly: bool)
    returns (outcome: Outcome, ghost states: seq<seq<Byte>>)
    requires ValidOps(ops)
    ensures outcome == Rejected <==> readOnly && AnyWrite(ops)
    ensures outcome.Done? ==> Run(ops, states, outcome.replies)
    ensures outcome.Done? ==> forall n: nat :: Bit(states[0], n) == (key.Some? && Bit(key.value, n))
    ensures outcome.Done? && !AnyWrite(ops) ==> outcome.value == key
    ensures outcome.Done? && AnyWrite(ops) ==> outcome.value == Some(states[|ops|])
    ensures outcome.Done? && AnyWrite(ops) ==>
              exists high: nat :: Farthest(ops, high) &&
                |outcome.value.value| == var len := if key.Some? then |key.value| else 0; if len < high / 8 + 1 then high / 8 + 1 else len
  {
    hide Does;
    hide Bit;
    states := [];
    if readOnly && AnyWrite(ops) { return Rejected, []; }
    var s := if key.Some? then key.value else [];
    var high := HighestWrite(ops);
    if AnyWrite(ops) { s := Padded(s, high / 8 + 1); }
    var p := new Byte[|s|](i requires 0 <= i < |s| => s[i]);
    assert p[..] == s;
    states := [s];
    var replies := [];
    for j := 0 to |ops|
      invariant |replies| == j && |states| == j + 1 && states[j] == p[..] && states[0] == s
      invariant forall i :: 0 <= i < j ==> Does(ops[i], states[i], states[i + 1], replies[i])
    {
      assert Writes(ops[j]) ==> AnyWrite(ops);
      var reply := Execute(ops[j], p);
      replies := replies + [reply];
      states := states + [p[..]];
    }
    SameBits(key, s);
    if !AnyWrite(ops) { return Done(key, replies), states; }
    return Done(Some(p[..]), replies), states;
  }

  lemma SameBits(key: Option<seq<Byte>>, s: seq<Byte>)
    requires forall i: nat :: ByteAt(s, i) == if key.Some? then ByteAt(key.value, i) else ZERO
    ensures forall n: nat :: Bit(s, n) == (key.Some? && Bit(key.value, n))
  {
  }
}
