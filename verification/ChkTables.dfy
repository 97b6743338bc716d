/** The two cuckoo tables of the top-K sketch as values: every slot of every bucket has a
    position, and an update maps slots to slots. Random draws are parameters. */
module ChkTables {
  import opened ChkIndex

  const MAX_KICKS: nat := 16
  const HEAVY_RATIO: real := 0.008

  datatype Entry = Entry(count: nat, fp: nat)

  const EMPTY := Entry(0, 0)

  /** Table `t`, bucket `i`, and in a bucket one of two heavy slots or the lobby slot. */
  datatype Pos = Heavy(t: nat, i: nat, j: nat) | Lobby(t: nat, i: nat)

  predicate ValidPos(p: Pos, bits: nat) {
    p.t < 2 && p.i < Size(bits) && (p.Heavy? ==> p.j < 2)
  }

  type Slots = imap<Pos, Entry>

  ghost predicate Complete(s: Slots, bits: nat) {
    forall p :: ValidPos(p, bits) <==> p in s
  }

  /** An item as the tables see it: its fingerprint and its bucket in table 0. */
  datatype Key = Key(fp: nat, home: nat)

  predicate ValidKey(k: Key, bits: nat) { k.home < Size(bits) }

  /** The bucket of an item in each table. */
  function Index(k: Key, t: nat, bits: nat): (i: nat)
    ensures ValidKey(k, bits) ==> i < Size(bits)
  {
    if t == 0 then k.home else Alt(k.fp, k.home, bits)
  }

  /** The heavy slots of an item's two buckets in the order they are visited. */
  function HeavySlot(k: Key, c: nat, bits: nat): (p: Pos) {
    Heavy(c / 2, Index(k, c / 2, bits), c % 2)
  }

  lemma HeavySlotAt(k: Key, t: nat, j: nat, bits: nat)
    requires j < 2
    ensures HeavySlot(k, 2 * t + j, bits) == Heavy(t, Index(k, t, bits), j)
  {
  }

  function LobbySlot(k: Key, t: nat, bits: nat): (p: Pos) { Lobby(t, Index(k, t, bits)) }

  /** The only item with fingerprint `fp` that may be recorded at position `p`. */
  function KeyOf(p: Pos, fp: nat, bits: nat): (k: Key) {
    Key(fp, if p.t == 0 then p.i else Alt(fp, p.i, bits))
  }

  function KeyAt(s: Slots, p: Pos, bits: nat): (k: Key)
    requires p in s
  {
    KeyOf(p, s[p].fp, bits)
  }

  /** A position can hold an item exactly when it is in one of the item's two buckets. */
  lemma KeyOfExact(p: Pos, k: Key, bits: nat)
    requires ValidPos(p, bits) && ValidKey(k, bits)
    ensures KeyOf(p, k.fp, bits) == k <==> p.i == Index(k, p.t, bits)
    ensures ValidKey(KeyOf(p, k.fp, bits), bits)
  {
    hide Alt;
    AltTwice(k.fp, p.i, bits);
    AltTwice(k.fp, k.home, bits);
  }

  predicate Live(s: Slots, p: Pos) { p in s && s[p].count > 0 }

  /** No item has two live entries. */
  ghost predicate Unique(s: Slots, bits: nat) {
    forall p, q :: Live(s, p) && Live(s, q) && p != q ==> KeyAt(s, p, bits) != KeyAt(s, q, bits)
  }

  /** No live entry except possibly the one at `but` records `k`. */
  ghost predicate AbsentBut(s: Slots, k: Key, but: Pos, bits: nat) {
    forall p :: Live(s, p) && p != but ==> KeyAt(s, p, bits) != k
  }

  ghost predicate Absent(s: Slots, k: Key, bits: nat) {
    forall p :: Live(s, p) ==> KeyAt(s, p, bits) != k
  }

  /** Every live entry records an item of `keys`. */
  ghost predicate KeysIn(s: Slots, keys: iset<Key>, bits: nat) {
    forall p :: Live(s, p) ==> KeyAt(s, p, bits) in keys
  }

  /** Counters never exceed the total recorded, and a lobby counter fits its byte. */
  ghost predicate Bounded(s: Slots, total: nat) {
    forall p :: p in s ==> s[p].count <= total && (p.Lobby? ==> s[p].count <= 255)
  }

  /** All the heavy slots an item could use are taken. */
  ghost predicate Full(s: Slots, k: Key, bits: nat) {
    forall c :: 0 <= c < 4 ==> Live(s, HeavySlot(k, c, bits))
  }

  /** Nothing waits in a lobby while one of its heavy slots is free. */
  ghost predicate LobbyWaits(s: Slots, bits: nat) {
    forall p :: Live(s, p) && p.Lobby? ==> Full(s, KeyAt(s, p, bits), bits)
  }

  ghost predicate Inv(s: Slots, keys: iset<Key>, total: nat, bits: nat) {
    && Complete(s, bits) && Unique(s, bits) && KeysIn(s, keys, bits)
    && LobbyWaits(s, bits) && Bounded(s, total)
  }

  /** Occupied heavy slots stay occupied. */
  ghost predicate HeavyKept(s: Slots, r: Slots) {
    forall p :: Live(s, p) && p.Heavy? ==> Live(r, p)
  }

  /** Writing an entry whose item is nowhere else keeps the invariant. */
  lemma PutKeeps(s: Slots, p: Pos, e: Entry, keys: iset<Key>, total: nat, bits: nat)
    requires Inv(s, keys, total, bits) && p in s
    requires e.count > 0 ==> AbsentBut(s, KeyOf(p, e.fp, bits), p, bits) && KeyOf(p, e.fp, bits) in keys
    requires e.count <= total && (p.Lobby? ==> e.count <= 255)
    requires if p.Heavy? then e.count > 0 else e.count > 0 ==> Full(s, KeyOf(p, e.fp, bits), bits)
    ensures Inv(s[p := e], keys, total, bits) && HeavyKept(s, s[p := e])
  {
    hide Alt;
    var r := s[p := e];
    assert forall q :: q != p ==> (Live(r, q) <==> Live(s, q));
    assert forall q :: Live(r, q) && q != p ==> KeyAt(r, q, bits) == KeyAt(s, q, bits);
    assert Unique(r, bits);
    assert KeysIn(r, keys, bits);
    forall q | Live(r, q) && q.Lobby? ensures Full(r, KeyAt(r, q, bits), bits) {
      assert Full(s, KeyAt(r, q, bits), bits);
    }
  }

  // ---- kicking out ----

  predicate IsHeavyHitter(count: nat, total: nat) { count as real >= total as real * HEAVY_RATIO }

  /** The heavy slot of a bucket that an incoming entry takes: the first empty one, else the
      first with the smaller count. */
  function Victim(s: Slots, t: nat, i: nat): (p: Pos)
    requires Heavy(t, i, 0) in s && Heavy(t, i, 1) in s
    ensures p in s && p.Heavy? && p.t == t && p.i == i
  {
    if s[Heavy(t, i, 0)].count == 0 then Heavy(t, i, 0)
    else if s[Heavy(t, i, 1)].count == 0 then Heavy(t, i, 1)
    else if s[Heavy(t, i, 1)].count < s[Heavy(t, i, 0)].count then Heavy(t, i, 1)
    else Heavy(t, i, 0)
  }

  /** An entry pushed out of bucket `i` of table `t` moves to its other bucket, pushing out
      another in turn. */
  function Kickout(s: Slots, e: Entry, t: nat, i: nat, kicks: nat, total: nat, bits: nat): (r: Slots)
    requires Complete(s, bits) && t < 2
    ensures Complete(r, bits)
    decreases kicks
  {
    if kicks == 0 || !IsHeavyHitter(e.count, total) then s
    else
      var p := Victim(s, 1 - t, Alt(e.fp, i, bits));
      var out := s[p];
      if out.count == 0 then s[p := e] else Kickout(s[p := e], out, p.t, p.i, kicks - 1, total, bits)
  }

  /** The other bucket of an entry is one it may be recorded in. */
  lemma OtherBucket(fp: nat, t: nat, i: nat, j: nat, bits: nat)
    requires t < 2 && i < Size(bits)
    ensures KeyOf(Heavy(1 - t, Alt(fp, i, bits), j), fp, bits) == KeyOf(Heavy(t, i, 0), fp, bits)
  {
    hide Alt;
    AltTwice(fp, i, bits);
  }

  /** What a swap of the homeless entry with a resident leaves. */
  lemma SwapKeeps(s: Slots, p: Pos, e: Entry, keys: iset<Key>, total: nat, bits: nat)
    requires Inv(s, keys, total, bits) && p in s && p.Heavy?
    requires 0 < e.count <= total
    requires Absent(s, KeyOf(p, e.fp, bits), bits) && KeyOf(p, e.fp, bits) in keys
    ensures Inv(s[p := e], keys, total, bits) && HeavyKept(s, s[p := e])
    ensures s[p].count > 0 ==> Absent(s[p := e], KeyAt(s, p, bits), bits) && KeyAt(s, p, bits) in keys
  {
    hide Alt;
    PutKeeps(s, p, e, keys, total, bits);
    if s[p].count > 0 {
      assert Live(s, p);
      var r := s[p := e];
      forall q | Live(r, q) ensures KeyAt(r, q, bits) != KeyAt(s, p, bits) {
        if q != p { assert Live(s, q); }
      }
    }
  }

  lemma {:induction false} KickoutKeeps(s: Slots, e: Entry, t: nat, i: nat, kicks: nat, keys: iset<Key>, total: nat, bits: nat)
    requires Inv(s, keys, total, bits) && t < 2 && i < Size(bits)
    requires 0 < e.count <= total
    requires Absent(s, KeyOf(Heavy(t, i, 0), e.fp, bits), bits) && KeyOf(Heavy(t, i, 0), e.fp, bits) in keys
    ensures Inv(Kickout(s, e, t, i, kicks, total, bits), keys, total, bits)
    ensures HeavyKept(s, Kickout(s, e, t, i, kicks, total, bits))
    decreases kicks
  {
    hide Alt;
    hide Inv;
    hide Absent;
    hide HeavyKept;
    hide IsHeavyHitter;
    InvParts(s, keys, total, bits);
    if kicks == 0 || !IsHeavyHitter(e.count, total) {
      HeavyKeptTrans(s, s, s);
    } else {
      var p := Victim(s, 1 - t, Alt(e.fp, i, bits));
      OtherBucket(e.fp, t, i, p.j, bits);
      SwapKeeps(s, p, e, keys, total, bits);
      if s[p].count > 0 {
        SameBucket(p, s[p].fp, bits);
        KickoutKeeps(s[p := e], s[p], p.t, p.i, kicks - 1, keys, total, bits);
        HeavyKeptTrans(s, s[p := e], Kickout(s[p := e], s[p], p.t, p.i, kicks - 1, total, bits));
      }
    }
  }

  lemma InvParts(s: Slots, keys: iset<Key>, total: nat, bits: nat)
    requires Inv(s, keys, total, bits)
    ensures Complete(s, bits)
    ensures forall p :: p in s ==> s[p].count <= total
  {
  }

  lemma SameBucket(p: Pos, fp: nat, bits: nat)
    requires p.Heavy?
    ensures KeyOf(Heavy(p.t, p.i, 0), fp, bits) == KeyOf(p, fp, bits)
  {
  }

  lemma HeavyKeptTrans(s: Slots, r: Slots, u: Slots)
    ensures HeavyKept(s, s)
    ensures HeavyKept(s, r) && HeavyKept(r, u) ==> HeavyKept(s, u)
  {
  }
}
