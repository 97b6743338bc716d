/** One update of the sketch as a function on slots, and the invariant over every run. */
module ChkUpdate {
  import opened ChkIndex
  import opened ChkTables
  import opened ChkDecay

  /** Where a heavy entry for the item was touched: table and slot. */
  datatype Touched = Nowhere | LobbyOf(t: nat) | HeavyOf(t: nat, j: nat)

  datatype Outcome = Outcome(slots: Slots, touched: Touched)

  predicate Holds(s: Slots, p: Pos, fp: nat) { Live(s, p) && s[p].fp == fp }

  /** First visited heavy slot, from `c` on, that holds the item; 4 when there is none. */
  function FirstHolding(s: Slots, k: Key, c: nat, bits: nat): (r: nat)
    requires c <= 4
    ensures c <= r <= 4
    ensures r < 4 ==> Holds(s, HeavySlot(k, r, bits), k.fp)
    ensures forall b :: c <= b < r ==> !Holds(s, HeavySlot(k, b, bits), k.fp)
    decreases 4 - c
  {
    if c == 4 || Holds(s, HeavySlot(k, c, bits), k.fp) then c else FirstHolding(s, k, c + 1, bits)
  }

  function FirstEmpty(s: Slots, k: Key, c: nat, bits: nat): (r: nat)
    requires c <= 4
    ensures c <= r <= 4
    ensures r < 4 ==> !Live(s, HeavySlot(k, r, bits))
    ensures forall b :: c <= b < r ==> Live(s, HeavySlot(k, b, bits))
    decreases 4 - c
  {
    if c == 4 || !Live(s, HeavySlot(k, c, bits)) then c else FirstEmpty(s, k, c + 1, bits)
  }

  function CheckHeavy(s: Slots, k: Key, weight: nat, bits: nat): (r: Outcome)
    requires Complete(s, bits) && ValidKey(k, bits)
    ensures Complete(r.slots, bits)
  {
    var h := FirstHolding(s, k, 0, bits);
    var e := FirstEmpty(s, k, 0, bits);
    if h < 4 then
      var p := HeavySlot(k, h, bits);
      Outcome(s[p := Entry(s[p].count + weight, k.fp)], HeavyOf(h / 2, h % 2))
    else if e < 4 then
      Outcome(s[HeavySlot(k, e, bits) := Entry(weight, k.fp)], HeavyOf(e / 2, e % 2))
    else Outcome(s, Nowhere)
  }

  /** Whether an entry with count `c` may push out one with count `min`. */
  predicate Promotes(c: nat, min: nat, roll: real)
    requires c >= THRESHOLD
  {
    min <= c || roll < (c - THRESHOLD) as real / (min - THRESHOLD) as real
  }

  /** Promotion of the lobby entry of bucket `Index(k, t)`: it takes over the slot and the
      count of the weaker heavy entry, which is kicked out. */
  function TryPromote(s: Slots, k: Key, count: nat, t: nat, roll: real, total: nat, bits: nat): (r: Outcome)
    requires Complete(s, bits) && ValidKey(k, bits) && t < 2 && count >= THRESHOLD
    ensures Complete(r.slots, bits)
  {
    var p := Victim(s, t, Index(k, t, bits));
    var l := LobbySlot(k, t, bits);
    if s[p].count == 0 then Outcome(s[p := Entry(count, k.fp)], HeavyOf(t, p.j))
    else if !Promotes(count, s[p].count, roll) then Outcome(s, Nowhere)
    else
      var taken := s[p := Entry(s[p].count, s[l].fp)][l := EMPTY];
      Outcome(Kickout(taken, s[p], t, p.i, MAX_KICKS, total, bits), HeavyOf(t, p.j))
  }

  /** Adding to a lobby entry and promoting it when it reaches the threshold; the entry stays
      at the threshold when the promotion fails. */
  function Raise(s: Slots, k: Key, count: nat, t: nat, roll: real, total: nat, bits: nat): (r: Outcome)
    requires Complete(s, bits) && ValidKey(k, bits) && t < 2
    ensures Complete(r.slots, bits)
  {
    var l := LobbySlot(k, t, bits);
    if count < THRESHOLD then Outcome(s[l := Entry(count, s[l].fp)], LobbyOf(t))
    else
      var o := TryPromote(s, k, count, t, roll, total, bits);
      if o.touched != Nowhere then o
      else Outcome(o.slots[l := Entry(THRESHOLD, o.slots[l].fp)], LobbyOf(t))
  }

  function CheckLobby(s: Slots, k: Key, weight: nat, t: nat, roll: real, total: nat, bits: nat): (r: Outcome)
    requires Complete(s, bits) && ValidKey(k, bits) && t <= 2
    ensures Complete(r.slots, bits)
    decreases 2 - t
  {
    if t == 2 then Outcome(s, Nowhere)
    else if Holds(s, LobbySlot(k, t, bits), k.fp) then
      Raise(s, k, s[LobbySlot(k, t, bits)].count + weight, t, roll, total, bits)
    else CheckLobby(s, k, weight, t + 1, roll, total, bits)
  }

  function EnterLobby(s: Slots, k: Key, weight: nat, t: nat, roll: real, total: nat, bits: nat): (r: Outcome)
    requires Complete(s, bits) && ValidKey(k, bits) && t <= 2
    ensures Complete(r.slots, bits)
    decreases 2 - t
  {
    if t == 2 then Outcome(s, Nowhere)
    else if !Live(s, LobbySlot(k, t, bits)) then
      Raise(s[LobbySlot(k, t, bits) := Entry(0, k.fp)], k, weight, t, roll, total, bits)
    else EnterLobby(s, k, weight, t + 1, roll, total, bits)
  }

  /** The lobby entry met in the table chosen by the fingerprint, after its decay. */
  function Contested(e: Entry, fp: nat, weight: nat, decay: real, decayRoll: real): (r: Entry)
    requires decay > 0.0 && weight > 0
  {
    var c := Decayed(decay, e.count, weight, decayRoll);
    if c == 0 then Entry(Replacing(decay, e.count, weight), fp) else Entry(c, e.fp)
  }

  function Contest(s: Slots, k: Key, weight: nat, decay: real, decayRoll: real, roll: real, total: nat, bits: nat): (r: Outcome)
    requires Complete(s, bits) && ValidKey(k, bits) && decay > 0.0 && weight > 0
    ensures Complete(r.slots, bits)
  {
    var t := k.fp % 2;
    var l := LobbySlot(k, t, bits);
    var e := Contested(s[l], k.fp, weight, decay, decayRoll);
    var u := s[l := e];
    if e.count < THRESHOLD then Outcome(u, Nowhere) else TryPromote(u, k, e.count, t, roll, total, bits)
  }

  /** The tables after one update; `total` already includes the weight. */
  function UpdateTables(s: Slots, k: Key, weight: nat, decay: real, decayRoll: real, roll: real, total: nat, bits: nat): (r: Outcome)
    requires Complete(s, bits) && ValidKey(k, bits) && decay > 0.0 && weight > 0
    ensures Complete(r.slots, bits)
  {
    var a := CheckHeavy(s, k, weight, bits);
    if a.touched != Nowhere then a
    else
      var b := CheckLobby(s, k, weight, 0, roll, total, bits);
      if b.touched != Nowhere then b
      else
        var c := EnterLobby(s, k, weight, 0, roll, total, bits);
        if c.touched != Nowhere then c
        else Contest(s, k, weight, decay, decayRoll, roll, total, bits)
  }

  // ---- each step keeps the invariant ----

  lemma InvGrows(s: Slots, keys: iset<Key>, total: nat, k: Key, weight: nat, bits: nat)
    requires Inv(s, keys, total, bits)
    ensures Inv(s, keys + iset{k}, total + weight, bits)
  {
  }

  /** A live entry that records an item is in one of the slots the update visits. */
  lemma FoundWhereLooked(s: Slots, p: Pos, k: Key, bits: nat)
    requires Complete(s, bits) && ValidKey(k, bits) && Live(s, p)
    ensures KeyAt(s, p, bits) == k <==> s[p].fp == k.fp && p.i == Index(k, p.t, bits)
    ensures p.Heavy? && KeyAt(s, p, bits) == k ==> p.t * 2 + p.j < 4 && p == HeavySlot(k, p.t * 2 + p.j, bits)
    ensures p.Lobby? && KeyAt(s, p, bits) == k ==> p.t < 2 && p == LobbySlot(k, p.t, bits)
  {
    hide Alt;
    KeyOfExact(p, k, bits);
  }

  lemma HeldKey(k: Key, p: Pos, bits: nat)
    requires ValidKey(k, bits) && p.t < 2 && p.i == Index(k, p.t, bits)
    ensures KeyOf(p, k.fp, bits) == k
  {
    hide Alt;
    AltTwice(k.fp, k.home, bits);
  }

  /** Not held by any visited heavy slot: then by no heavy slot. */
  ghost predicate NotHeavy(s: Slots, k: Key, bits: nat) {
    forall p :: Live(s, p) && p.Heavy? ==> KeyAt(s, p, bits) != k
  }

  lemma NotHeld(s: Slots, k: Key, bits: nat)
    requires Complete(s, bits) && ValidKey(k, bits)
    requires FirstHolding(s, k, 0, bits) == 4
    ensures NotHeavy(s, k, bits)
  {
    hide Alt;
    hide Complete;
    forall p | Live(s, p) && p.Heavy? ensures KeyAt(s, p, bits) != k {
      FoundWhereLooked(s, p, k, bits);
    }
  }

  /** With a free heavy slot the item is not waiting in a lobby either. */
  lemma NotWaiting(s: Slots, k: Key, keys: iset<Key>, total: nat, bits: nat)
    requires Inv(s, keys, total, bits) && ValidKey(k, bits)
    requires NotHeavy(s, k, bits) && FirstEmpty(s, k, 0, bits) < 4
    ensures Absent(s, k, bits)
  {
    hide Alt;
  }

  lemma BumpKeeps(s: Slots, k: Key, weight: nat, keys: iset<Key>, total: nat, bits: nat)
    requires Inv(s, keys, total, bits) && ValidKey(k, bits)
    requires FirstHolding(s, k, 0, bits) < 4
    ensures var p := HeavySlot(k, FirstHolding(s, k, 0, bits), bits);
            && p in s && Inv(s[p := Entry(s[p].count + weight, k.fp)], keys + iset{k}, total + weight, bits)
            && HeavyKept(s, s[p := Entry(s[p].count + weight, k.fp)])
  {
    hide Alt;
    hide FirstHolding;
    InvGrows(s, keys, total, k, weight, bits);
    var p := HeavySlot(k, FirstHolding(s, k, 0, bits), bits);
    HeldKey(k, p, bits);
    PutKeeps(s, p, Entry(s[p].count + weight, k.fp), keys + iset{k}, total + weight, bits);
  }

  lemma PlaceKeeps(s: Slots, k: Key, weight: nat, keys: iset<Key>, total: nat, bits: nat)
    requires Inv(s, keys, total, bits) && ValidKey(k, bits) && weight > 0
    requires NotHeavy(s, k, bits) && FirstEmpty(s, k, 0, bits) < 4
    ensures var p := HeavySlot(k, FirstEmpty(s, k, 0, bits), bits);
            && p in s && Inv(s[p := Entry(weight, k.fp)], keys + iset{k}, total + weight, bits)
            && HeavyKept(s, s[p := Entry(weight, k.fp)])
  {
    hide Alt;
    hide FirstEmpty;
    NotWaiting(s, k, keys, total, bits);
    InvGrows(s, keys, total, k, weight, bits);
    var p := HeavySlot(k, FirstEmpty(s, k, 0, bits), bits);
    HeldKey(k, p, bits);
    PutKeeps(s, p, Entry(weight, k.fp), keys + iset{k}, total + weight, bits);
  }

  /** Bumping or placing keeps the invariant, and nothing is touched only when all the heavy
      slots are taken by other items. */
  lemma CheckHeavyKeeps(s: Slots, k: Key, weight: nat, keys: iset<Key>, total: nat, bits: nat)
    requires Inv(s, keys, total, bits) && ValidKey(k, bits) && weight > 0
    ensures var r := CheckHeavy(s, k, weight, bits);
            && Inv(r.slots, keys + iset{k}, total + weight, bits) && HeavyKept(s, r.slots)
            && (r.touched == Nowhere ==> r.slots == s && NotHeavy(s, k, bits) && Full(s, k, bits))
            && (r.touched != Nowhere ==> r.touched.HeavyOf? && r.touched.t < 2 && r.touched.j < 2)
  {
    hide Inv;
    hide FirstHolding;
    hide FirstEmpty;
    hide HeavySlot;
    InvGrows(s, keys, total, k, weight, bits);
    InvParts(s, keys, total, bits);
    if FirstHolding(s, k, 0, bits) < 4 {
      BumpKeeps(s, k, weight, keys, total, bits);
    } else {
      NotHeld(s, k, bits);
      if FirstEmpty(s, k, 0, bits) < 4 { PlaceKeeps(s, k, weight, keys, total, bits); }
    }
  }

  // ---- promotion ----

  /** The lobby entry of a bucket may be promoted: its heavy slots are taken, and its item is
      recorded nowhere else. */
  ghost predicate Promotable(s: Slots, k: Key, t: nat, keys: iset<Key>, bits: nat)
    requires Complete(s, bits) && ValidKey(k, bits) && t < 2
  {
    var l := LobbySlot(k, t, bits);
    && Live(s, Heavy(t, l.i, 0)) && Live(s, Heavy(t, l.i, 1))
    && AbsentBut(s, KeyAt(s, l, bits), l, bits) && KeyAt(s, l, bits) in keys
  }

  /** Clearing the lobby entry and giving its fingerprint to a heavy slot of the same bucket. */
  lemma TakeOverKeeps(s: Slots, l: Pos, p: Pos, keys: iset<Key>, total: nat, bits: nat)
    requires Inv(s, keys, total, bits) && l in s && p in s
    requires l.Lobby? && p.Heavy? && p.t == l.t && p.i == l.i && Live(s, p)
    requires AbsentBut(s, KeyAt(s, l, bits), l, bits) && KeyAt(s, l, bits) in keys
    ensures var r := s[p := Entry(s[p].count, s[l].fp)][l := EMPTY];
            && Inv(r, keys, total, bits) && HeavyKept(s, r)
            && Absent(r, KeyAt(s, p, bits), bits) && KeyAt(s, p, bits) in keys
  {
    hide Alt;
    hide Inv;
    hide HeavyKept;
    InvParts(s, keys, total, bits);
    PutKeeps(s, l, EMPTY, keys, total, bits);
    var u := s[l := EMPTY];
    assert KeyAt(s, l, bits) == KeyOf(p, s[l].fp, bits);
    Cleared(s, l, bits);
    SwapKeeps(u, p, Entry(s[p].count, s[l].fp), keys, total, bits);
    assert u[p := Entry(s[p].count, s[l].fp)] == s[p := Entry(s[p].count, s[l].fp)][l := EMPTY];
    HeavyKeptTrans(s, u, u[p := Entry(s[p].count, s[l].fp)]);
  }

  lemma Cleared(s: Slots, l: Pos, bits: nat)
    requires l in s && AbsentBut(s, KeyAt(s, l, bits), l, bits)
    ensures Absent(s[l := EMPTY], KeyAt(s, l, bits), bits)
  {
    hide Alt;
    var u := s[l := EMPTY];
    forall q | Live(u, q) ensures KeyAt(u, q, bits) != KeyAt(s, l, bits) {
      assert Live(s, q) && q != l;
    }
  }

  lemma TryPromoteKeeps(s: Slots, k: Key, count: nat, t: nat, roll: real, keys: iset<Key>, total: nat, bits: nat)
    requires Inv(s, keys, total, bits) && ValidKey(k, bits) && t < 2 && count >= THRESHOLD
    requires Promotable(s, k, t, keys, bits)
    ensures var r := TryPromote(s, k, count, t, roll, total, bits);
            && Inv(r.slots, keys, total, bits) && HeavyKept(s, r.slots)
            && (r.touched == Nowhere ==> r.slots == s)
            && (r.touched != Nowhere ==> r.touched.HeavyOf? && r.touched.t == t && r.touched.j < 2)
  {
    hide Alt;
    hide Inv;
    hide HeavyKept;
    hide Kickout;
    hide Absent;
    hide AbsentBut;
    hide Promotes;
    InvParts(s, keys, total, bits);
    HeavyKeptTrans(s, s, s);
    var p := Victim(s, t, Index(k, t, bits));
    var l := LobbySlot(k, t, bits);
    if Promotes(count, s[p].count, roll) {
      TakeOverKeeps(s, l, p, keys, total, bits);
      var taken := s[p := Entry(s[p].count, s[l].fp)][l := EMPTY];
      SameBucket(p, s[p].fp, bits);
      KickoutKeeps(taken, s[p], t, p.i, MAX_KICKS, keys, total, bits);
      HeavyKeptTrans(s, taken, Kickout(taken, s[p], t, p.i, MAX_KICKS, total, bits));
    }
  }

  // ---- the lobby ----

  lemma FullBucket(s: Slots, k: Key, t: nat, bits: nat)
    requires Full(s, k, bits) && t < 2
    ensures Live(s, Heavy(t, Index(k, t, bits), 0)) && Live(s, Heavy(t, Index(k, t, bits), 1))
  {
    hide Alt;
    hide Index;
    assert HeavySlot(k, 2 * t, bits) == Heavy(t, Index(k, t, bits), 0);
    assert HeavySlot(k, 2 * t + 1, bits) == Heavy(t, Index(k, t, bits), 1);
  }

  lemma FullKept(s: Slots, r: Slots, k: Key, bits: nat)
    requires Full(s, k, bits) && HeavyKept(s, r)
    ensures Full(r, k, bits)
  {
  }

  /** An item may wait at, or be promoted from, its lobby slot when it is recorded nowhere else. */
  lemma RaiseKeeps(s: Slots, k: Key, count: nat, t: nat, roll: real, keys: iset<Key>, total: nat, bits: nat)
    requires Inv(s, keys, total, bits) && ValidKey(k, bits) && t < 2 && 0 < count <= total && k in keys
    requires LobbySlot(k, t, bits) in s && s[LobbySlot(k, t, bits)].fp == k.fp
    requires AbsentBut(s, k, LobbySlot(k, t, bits), bits) && Full(s, k, bits)
    ensures var r := Raise(s, k, count, t, roll, total, bits);
            && Inv(r.slots, keys, total, bits) && HeavyKept(s, r.slots) && r.touched != Nowhere
            && r.touched.t == t && (r.touched.HeavyOf? ==> r.touched.j < 2)
  {
    hide Alt;
    hide Inv;
    hide HeavyKept;
    hide TryPromote;
    hide Full;
    hide AbsentBut;
    InvParts(s, keys, total, bits);
    var l := LobbySlot(k, t, bits);
    HeldKey(k, l, bits);
    FullBucket(s, k, t, bits);
    if count < THRESHOLD {
      PutKeeps(s, l, Entry(count, k.fp), keys, total, bits);
    } else {
      TryPromoteKeeps(s, k, count, t, roll, keys, total, bits);
      PutKeeps(s, l, Entry(THRESHOLD, k.fp), keys, total, bits);
    }
  }

  lemma CheckLobbyKeeps(s: Slots, k: Key, weight: nat, t: nat, roll: real, keys: iset<Key>, total: nat, bits: nat)
    requires Inv(s, keys, total, bits) && ValidKey(k, bits) && t <= 2 && weight > 0 && k in keys && Full(s, k, bits)
    requires forall p :: p in s ==> s[p].count + weight <= total
    ensures var r := CheckLobby(s, k, weight, t, roll, total, bits);
            && Inv(r.slots, keys, total, bits) && HeavyKept(s, r.slots)
            && (r.touched == Nowhere ==> r.slots == s && forall u :: t <= u < 2 ==> !Holds(s, LobbySlot(k, u, bits), k.fp))
            && (r.touched.HeavyOf? ==> r.touched.t < 2 && r.touched.j < 2)
    decreases 2 - t
  {
    hide Alt;
    hide Inv;
    hide HeavyKept;
    hide Full;
    hide Raise;
    hide LobbySlot;
    InvParts(s, keys, total, bits);
    HeavyKeptTrans(s, s, s);
    if t < 2 {
      if Holds(s, LobbySlot(k, t, bits), k.fp) {
        HeldAlone(s, k, t, keys, total, bits);
        RaiseKeeps(s, k, s[LobbySlot(k, t, bits)].count + weight, t, roll, keys, total, bits);
      } else {
        CheckLobbyKeeps(s, k, weight, t + 1, roll, keys, total, bits);
      }
    }
  }

  lemma HeldAlone(s: Slots, k: Key, t: nat, keys: iset<Key>, total: nat, bits: nat)
    requires Inv(s, keys, total, bits) && ValidKey(k, bits) && t < 2 && Holds(s, LobbySlot(k, t, bits), k.fp)
    ensures AbsentBut(s, k, LobbySlot(k, t, bits), bits)
  {
    hide Alt;
    HeldKey(k, LobbySlot(k, t, bits), bits);
  }

  /** Neither heavy nor in a visited lobby slot: not recorded at all. */
  lemma NotRecorded(s: Slots, k: Key, bits: nat)
    requires Complete(s, bits) && ValidKey(k, bits) && NotHeavy(s, k, bits)
    requires forall u :: 0 <= u < 2 ==> !Holds(s, LobbySlot(k, u, bits), k.fp)
    ensures Absent(s, k, bits)
  {
    hide Alt;
    forall p | Live(s, p) ensures KeyAt(s, p, bits) != k {
      FoundWhereLooked(s, p, k, bits);
    }
  }

  lemma Reserve(s: Slots, k: Key, t: nat, keys: iset<Key>, total: nat, bits: nat)
    requires Inv(s, keys, total, bits) && ValidKey(k, bits) && t < 2 && Absent(s, k, bits)
    ensures var l := LobbySlot(k, t, bits);
            && l in s && Inv(s[l := Entry(0, k.fp)], keys, total, bits)
            && HeavyKept(s, s[l := Entry(0, k.fp)]) && AbsentBut(s[l := Entry(0, k.fp)], k, l, bits)
  {
    hide Alt;
    var l := LobbySlot(k, t, bits);
    PutKeeps(s, l, Entry(0, k.fp), keys, total, bits);
    var u := s[l := Entry(0, k.fp)];
    forall p | Live(u, p) && p != l ensures KeyAt(u, p, bits) != k {
      assert Live(s, p);
    }
  }

  lemma EnterLobbyKeeps(s: Slots, k: Key, weight: nat, t: nat, roll: real, keys: iset<Key>, total: nat, bits: nat)
    requires Inv(s, keys, total, bits) && ValidKey(k, bits) && t <= 2 && 0 < weight <= total && k in keys
    requires Full(s, k, bits) && Absent(s, k, bits)
    ensures var r := EnterLobby(s, k, weight, t, roll, total, bits);
            && Inv(r.slots, keys, total, bits) && HeavyKept(s, r.slots)
            && (r.touched == Nowhere ==> r.slots == s && forall u :: t <= u < 2 ==> Live(s, LobbySlot(k, u, bits)))
            && (r.touched.HeavyOf? ==> r.touched.t < 2 && r.touched.j < 2)
    decreases 2 - t
  {
    hide Alt;
    hide Inv;
    hide HeavyKept;
    hide Full;
    hide Raise;
    hide Absent;
    hide AbsentBut;
    hide LobbySlot;
    InvParts(s, keys, total, bits);
    HeavyKeptTrans(s, s, s);
    if t < 2 {
      var l := LobbySlot(k, t, bits);
      if !Live(s, l) {
        Reserve(s, k, t, keys, total, bits);
        var u := s[l := Entry(0, k.fp)];
        FullKept(s, u, k, bits);
        RaiseKeeps(u, k, weight, t, roll, keys, total, bits);
        HeavyKeptTrans(s, u, Raise(u, k, weight, t, roll, total, bits).slots);
      } else {
        EnterLobbyKeeps(s, k, weight, t + 1, roll, keys, total, bits);
      }
    }
  }

  /** A contested lobby slot holds either its old item, with a smaller count, or the new one. */
  lemma ContestedKeeps(s: Slots, k: Key, t: nat, e: Entry, keys: iset<Key>, total: nat, bits: nat)
    requires Inv(s, keys, total, bits) && ValidKey(k, bits) && t < 2 && k in keys
    requires Full(s, k, bits) && Absent(s, k, bits) && Live(s, LobbySlot(k, t, bits))
    requires 0 < e.count <= total && e.count <= 255
    requires e.fp == k.fp || e.fp == s[LobbySlot(k, t, bits)].fp
    ensures var l := LobbySlot(k, t, bits);
            && Inv(s[l := e], keys, total, bits) && HeavyKept(s, s[l := e])
            && Promotable(s[l := e], k, t, keys, bits)
  {
    hide Alt;
    var l := LobbySlot(k, t, bits);
    HeldKey(k, l, bits);
    FullBucket(s, k, t, bits);
    PutKeeps(s, l, e, keys, total, bits);
    var u := s[l := e];
    forall p | Live(u, p) && p != l ensures KeyAt(u, p, bits) != KeyAt(u, l, bits) {
      assert Live(s, p);
    }
  }

  lemma ContestKeeps(s: Slots, k: Key, weight: nat, decay: real, decayRoll: real, roll: real, keys: iset<Key>, total: nat, bits: nat)
    requires Inv(s, keys, total, bits) && ValidKey(k, bits) && 0 < weight <= total && k in keys && decay > 0.0
    requires Full(s, k, bits) && Absent(s, k, bits)
    requires forall u :: 0 <= u < 2 ==> Live(s, LobbySlot(k, u, bits))
    ensures var r := Contest(s, k, weight, decay, decayRoll, roll, total, bits);
            && Inv(r.slots, keys, total, bits) && HeavyKept(s, r.slots)
            && (r.touched != Nowhere ==> r.touched.HeavyOf? && r.touched.t < 2 && r.touched.j < 2)
  {
    hide Alt;
    hide Inv;
    hide HeavyKept;
    hide Full;
    hide TryPromote;
    hide Absent;
    hide Index;
    hide Decayed;
    hide Replacing;
    hide Promotable;
    InvParts(s, keys, total, bits);
    var t := k.fp % 2;
    var l := LobbySlot(k, t, bits);
    LobbyByte(s, l, keys, total, bits);
    var e := Contested(s[l], k.fp, weight, decay, decayRoll);
    ContestedKeeps(s, k, t, e, keys, total, bits);
    if e.count >= THRESHOLD {
      TryPromoteKeeps(s[l := e], k, e.count, t, roll, keys, total, bits);
      HeavyKeptTrans(s, s[l := e], TryPromote(s[l := e], k, e.count, t, roll, total, bits).slots);
    }
  }

  /** When the contested entry survives its decay, no entry of the new item exists afterwards, even
      where a heavy slot is reported as touched for it: what was promoted is the old entry. When
      it does not survive, the slot is the new item's. */
  lemma ContestOwner(s: Slots, k: Key, weight: nat, decay: real, decayRoll: real, roll: real, keys: iset<Key>, total: nat, bits: nat)
    requires Inv(s, keys, total, bits) && ValidKey(k, bits) && 0 < weight <= total && decay > 0.0
    requires Full(s, k, bits) && Absent(s, k, bits)
    requires forall u :: 0 <= u < 2 ==> Live(s, LobbySlot(k, u, bits))
    ensures LobbySlot(k, k.fp % 2, bits) in s
    ensures var e := s[LobbySlot(k, k.fp % 2, bits)];
            if Decayed(decay, e.count, weight, decayRoll) == 0 then Contested(e, k.fp, weight, decay, decayRoll).fp == k.fp
            else Absent(Contest(s, k, weight, decay, decayRoll, roll, total, bits).slots, k, bits)
  {
    hide Alt;
    hide Inv;
    hide Full;
    hide TryPromote;
    hide Index;
    hide Decayed;
    hide Replacing;
    hide Promotable;
    InvParts(s, keys, total, bits);
    var t := k.fp % 2;
    var l := LobbySlot(k, t, bits);
    var others := OtherKeys(k);
    LobbyByte(s, l, keys, total, bits);
    if Decayed(decay, s[l].count, weight, decayRoll) > 0 {
      OthersOnly(s, k, keys, total, bits);
      var e := Contested(s[l], k.fp, weight, decay, decayRoll);
      SurvivorKeeps(s, k, t, e, others, total, bits);
      if e.count >= THRESHOLD { TryPromoteKeeps(s[l := e], k, e.count, t, roll, others, total, bits); }
      NoneOfKey(Contest(s, k, weight, decay, decayRoll, roll, total, bits).slots, k, total, bits);
    }
  }

  ghost function OtherKeys(k: Key): (r: iset<Key>) { iset x: Key | x.fp != k.fp || x.home != k.home }

  lemma OthersOnly(s: Slots, k: Key, keys: iset<Key>, total: nat, bits: nat)
    requires Inv(s, keys, total, bits) && Absent(s, k, bits)
    ensures Inv(s, OtherKeys(k), total, bits)
  {
  }

  lemma NoneOfKey(s: Slots, k: Key, total: nat, bits: nat)
    requires Inv(s, OtherKeys(k), total, bits)
    ensures Absent(s, k, bits)
  {
  }

  /** A lobby entry with a smaller count may still be promoted. */
  lemma SurvivorKeeps(s: Slots, k: Key, t: nat, e: Entry, keys: iset<Key>, total: nat, bits: nat)
    requires Inv(s, keys, total, bits) && ValidKey(k, bits) && t < 2 && Full(s, k, bits)
    requires Live(s, LobbySlot(k, t, bits)) && e.fp == s[LobbySlot(k, t, bits)].fp
    requires 0 < e.count <= s[LobbySlot(k, t, bits)].count
    ensures var l := LobbySlot(k, t, bits);
            Inv(s[l := e], keys, total, bits) && Promotable(s[l := e], k, t, keys, bits)
  {
    hide Alt;
    var l := LobbySlot(k, t, bits);
    FullBucket(s, k, t, bits);
    PutKeeps(s, l, e, keys, total, bits);
    var u := s[l := e];
    forall p | Live(u, p) && p != l ensures KeyAt(u, p, bits) != KeyAt(u, l, bits) {
      assert Live(s, p);
    }
  }

  lemma LobbyByte(s: Slots, l: Pos, keys: iset<Key>, total: nat, bits: nat)
    requires Inv(s, keys, total, bits) && l in s && l.Lobby?
    ensures s[l].count <= 255
  {
  }

  // ---- a whole update, and runs ----

  lemma UpdateKeeps(s: Slots, k: Key, weight: nat, decay: real, decayRoll: real, roll: real, keys: iset<Key>, total: nat, bits: nat)
    requires Inv(s, keys, total, bits) && ValidKey(k, bits) && weight > 0 && decay > 0.0
    ensures var r := UpdateTables(s, k, weight, decay, decayRoll, roll, total + weight, bits);
            && Inv(r.slots, keys + iset{k}, total + weight, bits) && HeavyKept(s, r.slots)
            && (r.touched.HeavyOf? ==> r.touched.t < 2 && r.touched.j < 2)
  {
    hide Inv;
    hide HeavyKept;
    hide Full;
    hide CheckHeavy;
    hide CheckLobby;
    hide EnterLobby;
    hide Contest;
    hide Absent;
    hide NotHeavy;
    InvParts(s, keys, total, bits);
    CheckHeavyKeeps(s, k, weight, keys, total, bits);
    if CheckHeavy(s, k, weight, bits).touched == Nowhere {
      var ks, n := keys + iset{k}, total + weight;
      CheckLobbyKeeps(s, k, weight, 0, roll, ks, n, bits);
      if CheckLobby(s, k, weight, 0, roll, n, bits).touched == Nowhere {
        NotRecorded(s, k, bits);
        EnterLobbyKeeps(s, k, weight, 0, roll, ks, n, bits);
        if EnterLobby(s, k, weight, 0, roll, n, bits).touched == Nowhere {
          ContestKeeps(s, k, weight, decay, decayRoll, roll, ks, n, bits);
        }
      }
    }
  }

  /** One call: the item as hashed, its weight, and the two draws it may use. */
  datatype Call = Call(key: Key, weight: nat, decayRoll: real, roll: real)

  ghost predicate ValidCalls(calls: seq<Call>, bits: nat) {
    forall c :: c in calls ==> ValidKey(c.key, bits)
  }

  function Total(calls: seq<Call>): (n: nat) {
    if calls == [] then 0 else Total(calls[..|calls| - 1]) + calls[|calls| - 1].weight
  }

  /** All slots empty. */
  ghost function Fresh(bits: nat): (s: Slots)
    ensures Complete(s, bits)
  {
    imap p | ValidPos(p, bits) :: EMPTY
  }

  lemma FreshInv(bits: nat)
    ensures Inv(Fresh(bits), iset{}, 0, bits)
  {
  }

  ghost function Run(calls: seq<Call>, decay: real, bits: nat): (s: Slots)
    requires ValidCalls(calls, bits) && decay > 0.0
    ensures Complete(s, bits)
  {
    if calls == [] then Fresh(bits)
    else
      var c := calls[|calls| - 1];
      var s := Run(calls[..|calls| - 1], decay, bits);
      if c.weight == 0 then s
      else UpdateTables(s, c.key, c.weight, decay, c.decayRoll, c.roll, Total(calls), bits).slots
  }

  ghost function Recorded(calls: seq<Call>): (keys: iset<Key>) {
    iset c | c in calls && c.weight > 0 :: c.key
  }

  /** Over every run and every draw: live entries sit in one of the two buckets of an item that
      was recorded, no item is live twice, nobody waits for a free slot, and no counter
      exceeds the total weight. */
  lemma {:induction false} RunInv(calls: seq<Call>, decay: real, bits: nat)
    requires ValidCalls(calls, bits) && decay > 0.0
    ensures Inv(Run(calls, decay, bits), Recorded(calls), Total(calls), bits)
  {
    hide UpdateTables;
    if calls != [] {
      var n := |calls| - 1;
      var c := calls[n];
      RunInv(calls[..n], decay, bits);
      assert calls == calls[..n] + [c];
      if c.weight > 0 {
        UpdateKeeps(Run(calls[..n], decay, bits), c.key, c.weight, decay, c.decayRoll, c.roll, Recorded(calls[..n]), Total(calls[..n]), bits);
        assert Recorded(calls) == Recorded(calls[..n]) + iset{c.key};
      } else {
        assert Recorded(calls) == Recorded(calls[..n]);
      }
    }
  }

  /** A heavy slot once occupied is occupied in every later state. */
  lemma {:induction false} HeavyNeverEmpties(calls: seq<Call>, m: nat, decay: real, bits: nat)
    requires ValidCalls(calls, bits) && decay > 0.0 && m <= |calls|
    ensures HeavyKept(Run(calls[..m], decay, bits), Run(calls, decay, bits))
  {
    hide UpdateTables;
    hide Inv;
    hide HeavyKept;
    if m == |calls| {
      assert calls[..m] == calls;
      HeavyKeptTrans(Run(calls, decay, bits), Run(calls, decay, bits), Run(calls, decay, bits));
    } else {
      var n := |calls| - 1;
      var c := calls[n];
      HeavyNeverEmpties(calls[..n], m, decay, bits);
      assert calls[..n][..m] == calls[..m];
      if c.weight > 0 {
        var s := Run(calls[..n], decay, bits);
        RunInv(calls[..n], decay, bits);
        UpdateKeeps(s, c.key, c.weight, decay, c.decayRoll, c.roll, Recorded(calls[..n]), Total(calls[..n]), bits);
        HeavyKeptTrans(Run(calls[..m], decay, bits), s, Run(calls, decay, bits));
      }
    }
  }

  /** Where a live entry can be: the slot of the right table in the pair of its item. */
  lemma EntryPlacement(calls: seq<Call>, decay: real, bits: nat, p: Pos)
    requires ValidCalls(calls, bits) && decay > 0.0
    requires Live(Run(calls, decay, bits), p)
    ensures exists c :: c in calls && c.weight > 0
              && Run(calls, decay, bits)[p].fp == c.key.fp && p.i == Index(c.key, p.t, bits)
  {
    hide Alt;
    hide Run;
    hide Index;
    RunInv(calls, decay, bits);
    var s := Run(calls, decay, bits);
    var k := KeyAt(s, p, bits);
    assert k in Recorded(calls);
    FoundWhereLooked(s, p, k, bits);
  }
}
