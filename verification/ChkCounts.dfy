/** What an update does to the counters, told by the slots before and after: whose counter grows
    and by how much, with what an item enters, and that no other counter changes. */
module ChkCounts {
  import opened Wrappers
  import opened ChkIndex
  import opened ChkTables
  import opened ChkDecay
  import opened ChkUpdate
  import opened ChkOwner

  // ---- one slot changes ----

  /** An item with a heavy entry gains exactly the weight there, and nothing else changes. */
  lemma HeavyGains(s: Slots, k: Key, weight: nat, decay: real, decayRoll: real, roll: real, keys: iset<Key>, total: nat, bits: nat, p: Pos)
    requires Inv(s, keys, total, bits) && ValidKey(k, bits) && weight > 0 && decay > 0.0
    requires Live(s, p) && p.Heavy? && KeyAt(s, p, bits) == k
    ensures Complete(s, bits)
    ensures UpdateTables(s, k, weight, decay, decayRoll, roll, total + weight, bits)
         == Outcome(s[p := Entry(s[p].count + weight, s[p].fp)], HeavyOf(p.t, p.j))
  {
    hide Alt;
    hide Index;
    hide FirstHolding;
    hide FirstEmpty;
    InvParts(s, keys, total, bits);
    FoundWhereLooked(s, p, k, bits);
    var h := FirstHolding(s, k, 0, bits);
    var q := HeavySlot(k, h, bits);
    assert Holds(s, HeavySlot(k, p.t * 2 + p.j, bits), k.fp);
    assert h < 4;
    HeldKey(k, q, bits);
    assert q == p;
  }

  /** An item without an entry that has a free heavy slot gets the first one, with exactly its
      weight. */
  lemma FreeHeavyGets(s: Slots, k: Key, weight: nat, decay: real, decayRoll: real, roll: real, keys: iset<Key>, total: nat, bits: nat, c: nat)
    requires Inv(s, keys, total, bits) && ValidKey(k, bits) && weight > 0 && decay > 0.0
    requires Absent(s, k, bits) && c < 4 && !Live(s, HeavySlot(k, c, bits))
    requires forall b :: 0 <= b < c ==> Live(s, HeavySlot(k, b, bits))
    ensures Complete(s, bits)
    ensures UpdateTables(s, k, weight, decay, decayRoll, roll, total + weight, bits)
         == Outcome(s[HeavySlot(k, c, bits) := Entry(weight, k.fp)], HeavyOf(c / 2, c % 2))
  {
    hide Alt;
    hide FirstHolding;
    hide FirstEmpty;
    InvParts(s, keys, total, bits);
    NoneHeld(s, k, bits);
    assert FirstEmpty(s, k, 0, bits) == c;
  }

  lemma NoneHeld(s: Slots, k: Key, bits: nat)
    requires Complete(s, bits) && ValidKey(k, bits) && NotHeavy(s, k, bits)
    ensures FirstHolding(s, k, 0, bits) == 4
  {
    hide Alt;
    hide FirstHolding;
    var h := FirstHolding(s, k, 0, bits);
    if h < 4 { HeldKey(k, HeavySlot(k, h, bits), bits); }
  }

  /** The smaller of the two heavy counters of a bucket. */
  function Weakest(s: Slots, t: nat, i: nat): (n: nat)
    requires Heavy(t, i, 0) in s && Heavy(t, i, 1) in s
  {
    if s[Heavy(t, i, 0)].count < s[Heavy(t, i, 1)].count then s[Heavy(t, i, 0)].count else s[Heavy(t, i, 1)].count
  }

  /** A counter of `n` that waits in a lobby may not take over from a heavy one of `weakest`. */
  predicate Refused(n: nat, weakest: nat, roll: real) {
    n < weakest && roll * (weakest - 16) as real >= (n - 16) as real
  }

  lemma RefusedExact(n: nat, weakest: nat, roll: real)
    requires n >= THRESHOLD
    ensures Refused(n, weakest, roll) <==> !Promotes(n, weakest, roll)
  {
    if n < weakest {
      var a, b := (n - THRESHOLD) as real, (weakest - THRESHOLD) as real;
      Scaled(roll, a, b);
    }
  }

  lemma Scaled(roll: real, a: real, b: real)
    requires b > 0.0
    ensures roll < a / b <==> roll * b < a
  {
    assert a / b * b == a;
    if roll < a / b { assert (a / b - roll) * b > 0.0; } else { assert (roll - a / b) * b >= 0.0; }
  }

  /** An item whose heavy slots are all taken by others. */
  ghost predicate Waits(s: Slots, k: Key, bits: nat) { Full(s, k, bits) && NotHeavy(s, k, bits) }

  lemma WaitsNowhere(s: Slots, k: Key, weight: nat, bits: nat)
    requires Complete(s, bits) && ValidKey(k, bits) && Waits(s, k, bits)
    ensures CheckHeavy(s, k, weight, bits) == Outcome(s, Nowhere)
  {
    hide FirstHolding;
    hide FirstEmpty;
    NoneHeld(s, k, bits);
  }

  /** The lobby slot at table `t` is the one an update of the item turns to: where the item waits,
      or else the first free one. */
  ghost predicate TurnsTo(s: Slots, k: Key, t: nat, bits: nat)
    requires t < 2
  {
    || Holds(s, LobbySlot(k, t, bits), k.fp)
    || (Absent(s, k, bits) && !Live(s, LobbySlot(k, t, bits)) && (t == 1 ==> Live(s, LobbySlot(k, 0, bits))))
  }

  /** In that slot the item's counter, 0 if it had none, gains exactly the weight while it stays
      below the threshold. From there on it stays at the threshold if the promotion is refused,
      and otherwise its slot is emptied; no other lobby slot changes. */
  lemma LobbyGains(s: Slots, k: Key, weight: nat, decay: real, decayRoll: real, roll: real, keys: iset<Key>, total: nat, bits: nat, t: nat)
    requires Inv(s, keys, total, bits) && ValidKey(k, bits) && weight > 0 && decay > 0.0
    requires Waits(s, k, bits) && t < 2 && TurnsTo(s, k, t, bits)
    ensures Complete(s, bits)
    ensures var l, i := LobbySlot(k, t, bits), Index(k, t, bits);
            var n := s[l].count + weight;
            var r := UpdateTables(s, k, weight, decay, decayRoll, roll, total + weight, bits);
            && (n < 16 ==> r == Outcome(s[l := Entry(n, k.fp)], LobbyOf(t)))
            && (n >= 16 && Refused(n, Weakest(s, t, i), roll) ==> r == Outcome(s[l := Entry(16, k.fp)], LobbyOf(t)))
            && (n >= 16 && !Refused(n, Weakest(s, t, i), roll) ==>
                  && r.touched.HeavyOf? && r.touched.t == t && r.slots[l] == EMPTY
                  && forall q :: q in s && q.Lobby? && q != l ==> r.slots[q] == s[q])
  {
    hide Alt;
    hide Inv;
    hide Index;
    hide Waits;
    hide CheckHeavy;
    hide Raise;
    hide Promotes;
    hide Refused;
    InvParts(s, keys, total, bits);
    var l, i := LobbySlot(k, t, bits), Index(k, t, bits);
    var n := s[l].count + weight;
    WaitsNowhere(s, k, weight, bits);
    ToRaise(s, k, weight, decay, decayRoll, roll, keys, total, bits, t);
    var u := if Live(s, l) then s else s[l := Entry(0, k.fp)];
    WaitsFull(s, k, t, bits);
    RaiseExact(u, k, n, t, roll, total + weight, bits);
    assert Weakest(u, t, i) == Weakest(s, t, i);
    assert u[l := Entry(n, k.fp)] == s[l := Entry(n, k.fp)] && u[l := Entry(16, k.fp)] == s[l := Entry(16, k.fp)];
  }

  lemma WaitsFull(s: Slots, k: Key, t: nat, bits: nat)
    requires Complete(s, bits) && ValidKey(k, bits) && Waits(s, k, bits) && t < 2
    ensures Live(s, Heavy(t, Index(k, t, bits), 0)) && Live(s, Heavy(t, Index(k, t, bits), 1))
  {
    FullBucket(s, k, t, bits);
  }

  lemma ToRaise(s: Slots, k: Key, weight: nat, decay: real, decayRoll: real, roll: real, keys: iset<Key>, total: nat, bits: nat, t: nat)
    requires Inv(s, keys, total, bits) && ValidKey(k, bits) && weight > 0 && decay > 0.0 && Complete(s, bits)
    requires CheckHeavy(s, k, weight, bits) == Outcome(s, Nowhere) && t < 2 && TurnsTo(s, k, t, bits) && Waits(s, k, bits)
    ensures var l := LobbySlot(k, t, bits);
            var u := if Live(s, l) then s else s[l := Entry(0, k.fp)];
            && (!Live(s, l) ==> s[l].count == 0) && u[l].fp == k.fp
            && UpdateTables(s, k, weight, decay, decayRoll, roll, total + weight, bits)
            == Raise(u, k, s[l].count + weight, t, roll, total + weight, bits)
  {
    hide Alt;
    hide Index;
    hide Inv;
    hide CheckHeavy;
    hide Raise;
    var a, b, l := LobbySlot(k, 0, bits), LobbySlot(k, 1, bits), LobbySlot(k, t, bits);
    var m := total + weight;
    RaiseTouches(if Live(s, l) then s else s[l := Entry(0, k.fp)], k, s[l].count + weight, t, roll, m, bits);
    if Live(s, l) {
      if t == 1 {
        HeldAlone(s, k, 1, keys, total, bits);
        NotHeldAt(s, k, 0, b, bits);
        assert CheckLobby(s, k, weight, 1, roll, m, bits) == Raise(s, k, s[b].count + weight, 1, roll, m, bits);
      }
    } else {
      AbsentHolds(s, k, bits);
      assert CheckLobby(s, k, weight, 1, roll, m, bits) == Outcome(s, Nowhere);
      assert CheckLobby(s, k, weight, 0, roll, m, bits) == Outcome(s, Nowhere);
      if t == 1 {
        assert EnterLobby(s, k, weight, 1, roll, m, bits) == Raise(s[b := Entry(0, k.fp)], k, weight, 1, roll, m, bits);
      }
    }
  }

  lemma RaiseTouches(s: Slots, k: Key, count: nat, t: nat, roll: real, total: nat, bits: nat)
    requires Complete(s, bits) && ValidKey(k, bits) && t < 2
    ensures Raise(s, k, count, t, roll, total, bits).touched != Nowhere
  {
    hide TryPromote;
  }

  lemma AbsentHolds(s: Slots, k: Key, bits: nat)
    requires Complete(s, bits) && ValidKey(k, bits) && Absent(s, k, bits)
    ensures forall u :: 0 <= u < 2 ==> !Holds(s, LobbySlot(k, u, bits), k.fp)
  {
    hide Alt;
    hide Index;
    forall u | 0 <= u < 2 ensures !Holds(s, LobbySlot(k, u, bits), k.fp) { HeldKey(k, LobbySlot(k, u, bits), bits); }
  }

  lemma NotHeldAt(s: Slots, k: Key, t: nat, but: Pos, bits: nat)
    requires Complete(s, bits) && ValidKey(k, bits) && t < 2 && AbsentBut(s, k, but, bits) && LobbySlot(k, t, bits) != but
    ensures !Holds(s, LobbySlot(k, t, bits), k.fp)
  {
    hide Alt;
    hide Index;
    HeldKey(k, LobbySlot(k, t, bits), bits);
  }

  lemma RaiseExact(u: Slots, k: Key, n: nat, t: nat, roll: real, total: nat, bits: nat)
    requires Complete(u, bits) && ValidKey(k, bits) && t < 2
    requires Live(u, Heavy(t, Index(k, t, bits), 0)) && Live(u, Heavy(t, Index(k, t, bits), 1))
    requires u[LobbySlot(k, t, bits)].fp == k.fp
    ensures var l, i := LobbySlot(k, t, bits), Index(k, t, bits);
            var r := Raise(u, k, n, t, roll, total, bits);
            && (n < 16 ==> r == Outcome(u[l := Entry(n, k.fp)], LobbyOf(t)))
            && (n >= 16 && Refused(n, Weakest(u, t, i), roll) ==> r == Outcome(u[l := Entry(16, k.fp)], LobbyOf(t)))
            && (n >= 16 && !Refused(n, Weakest(u, t, i), roll) ==>
                  && r.touched.HeavyOf? && r.touched.t == t && r.slots[l] == EMPTY
                  && forall q :: q in u && q.Lobby? && q != l ==> r.slots[q] == u[q])
  {
    hide Alt;
    hide Index;
    hide TryPromote;
    hide Promotes;
    hide Refused;
    var l, i := LobbySlot(k, t, bits), Index(k, t, bits);
    if n >= 16 {
      assert u[Victim(u, t, i)].count == Weakest(u, t, i);
      RefusedExact(n, Weakest(u, t, i), roll);
      forall q | q in u && q.Lobby?
        ensures var r := TryPromote(u, k, n, t, roll, total, bits);
                (r.touched == Nowhere <==> Refused(n, Weakest(u, t, i), roll))
                && r.slots[q] == if r.touched != Nowhere && q == l then EMPTY else u[q]
      {
        TryPromoteLobby(u, k, n, t, roll, total, bits, q);
      }
      Touches(u, k, n, t, roll, total, bits);
    }
  }

  lemma Touches(u: Slots, k: Key, n: nat, t: nat, roll: real, total: nat, bits: nat)
    requires Complete(u, bits) && ValidKey(k, bits) && t < 2 && n >= THRESHOLD
    ensures var r := TryPromote(u, k, n, t, roll, total, bits);
            && (r.touched != Nowhere ==> r.touched.HeavyOf? && r.touched.t == t)
            && (r.touched == Nowhere ==> r.slots == u)
  {
    hide Kickout;
    hide Promotes;
    hide Index;
  }

  // ---- heavy counters through a whole update ----

  /** The item has a heavy entry with count `n`. */
  ghost predicate Counts(s: Slots, k: Key, n: nat, bits: nat) {
    exists p :: HeavyOwn(s, p, k, n, bits)
  }

  predicate HeavyOwn(s: Slots, p: Pos, k: Key, n: nat, bits: nat) {
    Live(s, p) && p.Heavy? && KeyAt(s, p, bits) == k && s[p].count == n
  }

  lemma PutCounts(s: Slots, p: Pos, e: Entry, k: Key, n: nat, bits: nat)
    requires p in s && p.Heavy? && e.count > 0
    ensures Counts(s[p := e], k, n, bits) ==> Counts(s, k, n, bits) || (k == KeyOf(p, e.fp, bits) && n == e.count)
    ensures Counts(s, k, n, bits) ==> Counts(s[p := e], k, n, bits) || (Live(s, p) && k == KeyAt(s, p, bits) && n == s[p].count)
    ensures Counts(s[p := e], KeyOf(p, e.fp, bits), e.count, bits)
    ensures Live(s, p) ==> Counts(s, KeyAt(s, p, bits), s[p].count, bits)
  {
    hide Alt;
    hide KeyOf;
    var r := s[p := e];
    if Counts(r, k, n, bits) {
      var q :| HeavyOwn(r, q, k, n, bits);
      if q != p { assert HeavyOwn(s, q, k, n, bits); }
    }
    if Counts(s, k, n, bits) {
      var q :| HeavyOwn(s, q, k, n, bits);
      if q != p { assert HeavyOwn(r, q, k, n, bits); }
    }
    assert HeavyOwn(r, p, KeyOf(p, e.fp, bits), e.count, bits);
    if Live(s, p) { assert HeavyOwn(s, p, KeyAt(s, p, bits), s[p].count, bits); }
  }

  /** The chain makes up no counter: each heavy entry afterwards, item and count, was there
      before or is the one that was pushed out first. */
  lemma {:induction false} KickoutMakesNothing(s: Slots, e: Entry, t: nat, i: nat, kicks: nat, total: nat, bits: nat, k: Key, n: nat)
    requires Complete(s, bits) && t < 2 && i < Size(bits) && e.count > 0
    requires Counts(Kickout(s, e, t, i, kicks, total, bits), k, n, bits)
    ensures Counts(s, k, n, bits) || (k == KeyOf(Heavy(t, i, 0), e.fp, bits) && n == e.count)
    decreases kicks
  {
    hide Alt;
    hide KeyOf;
    hide Counts;
    hide IsHeavyHitter;
    if kicks > 0 && IsHeavyHitter(e.count, total) {
      var p := Victim(s, 1 - t, Alt(e.fp, i, bits));
      OtherBucket(e.fp, t, i, p.j, bits);
      PutCounts(s, p, e, k, n, bits);
      if s[p].count > 0 {
        SameBucket(p, s[p].fp, bits);
        KickoutMakesNothing(s[p := e], s[p], p.t, p.i, kicks - 1, total, bits, k, n);
      }
    }
  }

  /** And it loses at most one: every other entry is still there with its count. */
  lemma {:induction false} KickoutLosesOne(s: Slots, e: Entry, t: nat, i: nat, kicks: nat, total: nat, bits: nat) returns (lost: Option<Key>)
    requires Complete(s, bits) && t < 2 && i < Size(bits) && e.count > 0
    ensures forall k, n: nat :: (Counts(s, k, n, bits) || (k == KeyOf(Heavy(t, i, 0), e.fp, bits) && n == e.count)) && lost != Some(k) ==>
              Counts(Kickout(s, e, t, i, kicks, total, bits), k, n, bits)
    decreases kicks
  {
    hide Alt;
    hide KeyOf;
    hide Counts;
    hide IsHeavyHitter;
    lost := Some(KeyOf(Heavy(t, i, 0), e.fp, bits));
    if kicks > 0 && IsHeavyHitter(e.count, total) {
      var p := Victim(s, 1 - t, Alt(e.fp, i, bits));
      OtherBucket(e.fp, t, i, p.j, bits);
      if s[p].count > 0 {
        SameBucket(p, s[p].fp, bits);
        lost := KickoutLosesOne(s[p := e], s[p], p.t, p.i, kicks - 1, total, bits);
      } else {
        lost := None;
      }
      forall k, n | (Counts(s, k, n, bits) || (k == KeyOf(Heavy(t, i, 0), e.fp, bits) && n == e.count)) && lost != Some(k)
        ensures Counts(Kickout(s, e, t, i, kicks, total, bits), k, n, bits)
      {
        PutCounts(s, p, e, k, n, bits);
        if s[p].count == 0 { NothingLive(s, p); }
      }
    }
  }

  lemma NothingLive(s: Slots, p: Pos)
    requires p in s && s[p].count == 0
    ensures !Live(s, p)
  {
  }

  lemma LobbyPutCounts(s: Slots, l: Pos, e: Entry, bits: nat)
    requires l in s && l.Lobby?
    ensures forall k, n: nat :: Counts(s[l := e], k, n, bits) <==> Counts(s, k, n, bits)
  {
    hide KeyOf;
    var r := s[l := e];
    forall k, n ensures Counts(r, k, n, bits) <==> Counts(s, k, n, bits) {
      if p :| HeavyOwn(s, p, k, n, bits) { assert HeavyOwn(r, p, k, n, bits); }
      if p :| HeavyOwn(r, p, k, n, bits) { assert HeavyOwn(s, p, k, n, bits); }
    }
  }

  /** A promotion gives the lobby's item the count of the weaker heavy entry, makes up no other
      count and loses at most one entry. */
  lemma TryPromoteCounts(u: Slots, k: Key, count: nat, t: nat, roll: real, keys: iset<Key>, total: nat, bits: nat) returns (lost: Option<Key>)
    requires Inv(u, keys, total, bits) && ValidKey(k, bits) && t < 2 && count >= THRESHOLD && Promotable(u, k, t, keys, bits)
    ensures Complete(u, bits)
    ensures var r := TryPromote(u, k, count, t, roll, total, bits).slots;
            var own := KeyAt(u, LobbySlot(k, t, bits), bits);
            && (forall x, n :: Counts(r, x, n, bits) ==>
                  Counts(u, x, n, bits) || (x == own && n == Weakest(u, t, Index(k, t, bits))))
            && (forall x, n :: Counts(u, x, n, bits) && lost != Some(x) ==> Counts(r, x, n, bits))
  {
    hide Alt;
    hide Inv;
    hide Index;
    hide KeyOf;
    hide Counts;
    hide Kickout;
    hide Promotes;
    hide AbsentBut;
    InvParts(u, keys, total, bits);
    var p, l := Victim(u, t, Index(k, t, bits)), LobbySlot(k, t, bits);
    lost := None;
    if Promotes(count, u[p].count, roll) {
      var e := Entry(u[p].count, u[l].fp);
      var taken := u[p := e][l := EMPTY];
      LobbyPutCounts(u[p := e], l, EMPTY, bits);
      SameBucket(p, u[p].fp, bits);
      SameOwner(p, l, u[l].fp, bits);
      lost := KickoutLosesOne(taken, u[p], t, p.i, MAX_KICKS, total, bits);
      var r := Kickout(taken, u[p], t, p.i, MAX_KICKS, total, bits);
      forall x, n ensures (Counts(r, x, n, bits) ==> Counts(u, x, n, bits) || (x == KeyAt(u, l, bits) && n == u[p].count))
                       && (Counts(u, x, n, bits) && lost != Some(x) ==> Counts(r, x, n, bits))
      {
        PutCounts(u, p, e, x, n, bits);
        if Counts(r, x, n, bits) { KickoutMakesNothing(taken, u[p], t, p.i, MAX_KICKS, total, bits, x, n); }
      }
    }
  }

  lemma SameOwner(p: Pos, l: Pos, fp: nat, bits: nat)
    requires p.t == l.t && p.i == l.i
    ensures KeyOf(p, fp, bits) == KeyOf(l, fp, bits)
  {
  }

  /** An update that touches no heavy slot leaves them all alone. */
  lemma NoHeavyTouched(s: Slots, k: Key, weight: nat, decay: real, decayRoll: real, roll: real, total: nat, bits: nat)
    requires Complete(s, bits) && ValidKey(k, bits) && decay > 0.0 && weight > 0
    ensures var r := UpdateTables(s, k, weight, decay, decayRoll, roll, total, bits);
            !r.touched.HeavyOf? ==> forall x, n :: Counts(r.slots, x, n, bits) <==> Counts(s, x, n, bits)
  {
    hide Index;
    hide Kickout;
    hide Counts;
    hide Contested;
    hide FirstHolding;
    hide FirstEmpty;
    hide Promotes;
    var r := UpdateTables(s, k, weight, decay, decayRoll, roll, total, bits);
    if !r.touched.HeavyOf? {
      var l, e := OneLobbySlot(s, k, weight, decay, decayRoll, roll, total, bits);
      LobbyPutCounts(s, l, e, bits);
    }
  }

  lemma OneLobbySlot(s: Slots, k: Key, weight: nat, decay: real, decayRoll: real, roll: real, total: nat, bits: nat) returns (l: Pos, e: Entry)
    requires Complete(s, bits) && ValidKey(k, bits) && decay > 0.0 && weight > 0
    requires !UpdateTables(s, k, weight, decay, decayRoll, roll, total, bits).touched.HeavyOf?
    ensures l in s && l.Lobby? && UpdateTables(s, k, weight, decay, decayRoll, roll, total, bits).slots == s[l := e]
  {
    hide Index;
    hide Contested;
    hide TryPromote;
    hide FirstHolding;
    hide FirstEmpty;
    var a, b := LobbySlot(k, 0, bits), LobbySlot(k, 1, bits);
    if Holds(s, a, k.fp) {
      l, e := RaiseSlot(s, k, s[a].count + weight, 0, roll, total, bits);
    } else if Holds(s, b, k.fp) {
      assert CheckLobby(s, k, weight, 1, roll, total, bits) == Raise(s, k, s[b].count + weight, 1, roll, total, bits);
      l, e := RaiseSlot(s, k, s[b].count + weight, 1, roll, total, bits);
    } else {
      assert CheckLobby(s, k, weight, 1, roll, total, bits) == Outcome(s, Nowhere);
      if !Live(s, a) {
        l, e := RaiseSlot(s[a := Entry(0, k.fp)], k, weight, 0, roll, total, bits);
      } else if !Live(s, b) {
        assert EnterLobby(s, k, weight, 1, roll, total, bits) == Raise(s[b := Entry(0, k.fp)], k, weight, 1, roll, total, bits);
        l, e := RaiseSlot(s[b := Entry(0, k.fp)], k, weight, 1, roll, total, bits);
      } else {
        assert EnterLobby(s, k, weight, 1, roll, total, bits) == Outcome(s, Nowhere);
        l := LobbySlot(k, k.fp % 2, bits);
        e := Contested(s[l], k.fp, weight, decay, decayRoll);
        if e.count >= THRESHOLD { Touches(s[l := e], k, e.count, k.fp % 2, roll, total, bits); }
      }
    }
  }

  lemma RaiseSlot(s: Slots, k: Key, count: nat, t: nat, roll: real, total: nat, bits: nat) returns (l: Pos, e: Entry)
    requires Complete(s, bits) && ValidKey(k, bits) && t < 2
    ensures l == LobbySlot(k, t, bits) && l in s
    ensures var r := Raise(s, k, count, t, roll, total, bits); !r.touched.HeavyOf? ==> r.slots == s[l := e]
    ensures Raise(s, k, count, t, roll, total, bits).touched != Nowhere
  {
    hide Index;
    hide TryPromote;
    l := LobbySlot(k, t, bits);
    e := Raise(s, k, count, t, roll, total, bits).slots[l];
    if count >= THRESHOLD { Touches(s, k, count, t, roll, total, bits); }
  }

  /** What a whole update of `x` does to heavy counters: the count of any item afterwards is its
      count before, plus the weight if it is `x` itself; an item that becomes heavy enters with
      the weight if a heavy slot was free, else with the count of the weaker entry of the bucket
      that it pushes out; and at most one other item stops being heavy. */
  lemma UpdateCounts(s: Slots, x: Key, weight: nat, decay: real, decayRoll: real, roll: real, keys: iset<Key>, total: nat, bits: nat)
    returns (lost: Option<Key>)
    requires Inv(s, keys, total, bits) && ValidKey(x, bits) && weight > 0 && decay > 0.0
    ensures Complete(s, bits)
    ensures var r := UpdateTables(s, x, weight, decay, decayRoll, roll, total + weight, bits);
            && (forall k, m: nat, n: nat :: Counts(s, k, m, bits) && Counts(r.slots, k, n, bits) ==> n == m + if k == x then weight else 0)
            && (forall n: nat :: NotHeavy(s, x, bits) && !Full(s, x, bits) && Counts(r.slots, x, n, bits) ==> n == weight)
            && (forall n: nat :: Waits(s, x, bits) && Counts(r.slots, x, n, bits) ==>
                  r.touched.HeavyOf? && EntersWith(s, x, r.touched.t, n, bits))
            && (forall k, m: nat :: Counts(s, k, m, bits) && lost != Some(k) && k != x ==> Counts(r.slots, k, m, bits))
            && (forall m: nat :: Counts(s, x, m, bits) ==> Counts(r.slots, x, m + weight, bits))
  {
    hide Alt;
    hide Inv;
    hide Index;
    hide Counts;
    hide Full;
    hide NotHeavy;
    hide Waits;
    hide UpdateTables;
    hide EntersWith;
    InvParts(s, keys, total, bits);
    UpdateKeeps(s, x, weight, decay, decayRoll, roll, keys, total, bits);
    lost := None;
    if !Full(s, x, bits) || !NotHeavy(s, x, bits) {
      OneHeavyPut(s, x, weight, decay, decayRoll, roll, keys, total, bits);
    } else {
      WaitsIs(s, x, bits);
      lost := PromotionCounts(s, x, weight, decay, decayRoll, roll, keys, total, bits);
    }
  }

  /** The item enters in table `t` with the count it takes over there. */
  predicate EntersWith(s: Slots, k: Key, t: nat, n: nat, bits: nat) {
    && t < 2 && Heavy(t, Index(k, t, bits), 0) in s && Heavy(t, Index(k, t, bits), 1) in s
    && n == Weakest(s, t, Index(k, t, bits))
  }

  lemma WaitsIs(s: Slots, k: Key, bits: nat)
    requires Full(s, k, bits) && NotHeavy(s, k, bits)
    ensures Waits(s, k, bits) && forall n: nat :: !Counts(s, k, n, bits)
  {
  }

  /** Two counts of one item are the same. */
  lemma OneCount(s: Slots, keys: iset<Key>, total: nat, bits: nat)
    requires Inv(s, keys, total, bits)
    ensures forall k, m: nat, n: nat :: Counts(s, k, m, bits) && Counts(s, k, n, bits) ==> m == n
  {
    forall k, m, n | Counts(s, k, m, bits) && Counts(s, k, n, bits) ensures m == n {
      var p :| HeavyOwn(s, p, k, m, bits);
      var q :| HeavyOwn(s, q, k, n, bits);
      assert p == q;
    }
  }

  /** An update that finds or takes a heavy slot for its item. */
  lemma OneHeavyPut(s: Slots, x: Key, weight: nat, decay: real, decayRoll: real, roll: real, keys: iset<Key>, total: nat, bits: nat)
    requires Inv(s, keys, total, bits) && ValidKey(x, bits) && weight > 0 && decay > 0.0 && Complete(s, bits)
    requires !Full(s, x, bits) || !NotHeavy(s, x, bits)
    ensures !Waits(s, x, bits)
    ensures var r := UpdateTables(s, x, weight, decay, decayRoll, roll, total + weight, bits);
            && (forall k, m: nat, n: nat :: Counts(s, k, m, bits) && Counts(r.slots, k, n, bits) ==> n == m + if k == x then weight else 0)
            && (forall n: nat :: NotHeavy(s, x, bits) && Counts(r.slots, x, n, bits) ==> n == weight)
            && (forall k, m: nat :: Counts(s, k, m, bits) && k != x ==> Counts(r.slots, k, m, bits))
            && (forall m: nat :: Counts(s, x, m, bits) ==> Counts(r.slots, x, m + weight, bits))
  {
    hide Alt;
    hide Inv;
    hide Index;
    hide Counts;
    hide KeyOf;
    hide UpdateTables;
    hide Absent;
    OneCount(s, keys, total, bits);
    UpdateKeeps(s, x, weight, decay, decayRoll, roll, keys, total, bits);
    var r := UpdateTables(s, x, weight, decay, decayRoll, roll, total + weight, bits);
    OneCount(r.slots, keys + iset{x}, total + weight, bits);
    var p, e;
    if p0 :| Live(s, p0) && p0.Heavy? && KeyAt(s, p0, bits) == x {
      p, e := p0, Entry(s[p0].count + weight, s[p0].fp);
      HeavyGains(s, x, weight, decay, decayRoll, roll, keys, total, bits, p);
    } else {
      var c := FirstEmpty(s, x, 0, bits);
      NotWaiting(s, x, keys, total, bits);
      FreeHeavyGets(s, x, weight, decay, decayRoll, roll, keys, total, bits, c);
      p, e := HeavySlot(x, c, bits), Entry(weight, x.fp);
      HeldKey(x, p, bits);
    }
    forall k, n ensures Counts(r.slots, k, n, bits) ==> Counts(s, k, n, bits) || (k == x && n == e.count)
                ensures Counts(s, k, n, bits) && k != x ==> Counts(r.slots, k, n, bits)
    {
      PutCounts(s, p, e, k, n, bits);
    }
    PutCounts(s, p, e, x, 0, bits);
    OwnCounts(s, x, bits);
  }

  lemma OwnCounts(s: Slots, k: Key, bits: nat)
    ensures NotHeavy(s, k, bits) <==> forall n: nat :: !Counts(s, k, n, bits)
  {
    hide KeyOf;
    if !NotHeavy(s, k, bits) {
      var p :| Live(s, p) && p.Heavy? && KeyAt(s, p, bits) == k;
      assert HeavyOwn(s, p, k, s[p].count, bits);
      assert Counts(s, k, s[p].count, bits);
    }
  }

  /** An update that finds none, and promotes at most. */
  lemma PromotionCounts(s: Slots, x: Key, weight: nat, decay: real, decayRoll: real, roll: real, keys: iset<Key>, total: nat, bits: nat)
    returns (lost: Option<Key>)
    requires Inv(s, keys, total, bits) && ValidKey(x, bits) && weight > 0 && decay > 0.0 && Complete(s, bits) && Waits(s, x, bits)
    ensures var r := UpdateTables(s, x, weight, decay, decayRoll, roll, total + weight, bits);
            && (forall k, m: nat, n: nat :: Counts(s, k, m, bits) && Counts(r.slots, k, n, bits) ==> n == m)
            && (forall n: nat :: Counts(r.slots, x, n, bits) ==> r.touched.HeavyOf? && EntersWith(s, x, r.touched.t, n, bits))
            && (forall k, m: nat :: Counts(s, k, m, bits) && lost != Some(k) ==> Counts(r.slots, k, m, bits))
  {
    hide Alt;
    hide Inv;
    hide Index;
    hide Counts;
    hide UpdateTables;
    hide Promoting;
    hide TryPromote;
    hide Full;
    hide NotHeavy;
    hide CheckHeavy;
    hide EntersWith;
    hide Promotable;
    lost := None;
    OneCount(s, keys, total, bits);
    WaitsNowhere(s, x, weight, bits);
    WaitsIs(s, x, bits);
    var m := total + weight;
    var r := UpdateTables(s, x, weight, decay, decayRoll, roll, m, bits);
    if !r.touched.HeavyOf? {
      NoHeavyTouched(s, x, weight, decay, decayRoll, roll, m, bits);
    } else {
      InvGrows(s, keys, total, x, weight, bits);
      PromotingKeeps(s, x, weight, decay, decayRoll, keys + iset{x}, m, bits);
      var pr := Promoting(s, x, weight, decay, decayRoll, bits);
      var count := ByPromotion(s, x, weight, decay, decayRoll, roll, m, bits);
      lost := TryPromoteCounts(pr.slots, x, count, pr.t, roll, keys + iset{x}, m, bits);
      PromotingSlots(s, x, weight, decay, decayRoll, bits);
      Touches(pr.slots, x, count, pr.t, roll, m, bits);
      PromotedIsNew(pr.slots, x, pr.t, keys + iset{x}, bits);
    }
  }

  lemma PromotedIsNew(u: Slots, x: Key, t: nat, keys: iset<Key>, bits: nat)
    requires Complete(u, bits) && ValidKey(x, bits) && t < 2 && Promotable(u, x, t, keys, bits)
    ensures forall n: nat :: !Counts(u, KeyAt(u, LobbySlot(x, t, bits), bits), n, bits)
  {
    hide Alt;
    hide Index;
  }

  /** Up to the promotion only a lobby slot has changed. */
  lemma PromotingSlots(s: Slots, x: Key, weight: nat, decay: real, decayRoll: real, bits: nat)
    requires Complete(s, bits) && ValidKey(x, bits) && decay > 0.0 && weight > 0
    ensures var pr := Promoting(s, x, weight, decay, decayRoll, bits);
            && (forall k, n: nat :: Counts(pr.slots, k, n, bits) <==> Counts(s, k, n, bits))
            && forall n: nat :: EntersWith(s, x, pr.t, n, bits) <==> n == Weakest(pr.slots, pr.t, Index(x, pr.t, bits))
  {
    hide Alt;
    hide Index;
    hide Counts;
    hide Contested;
    var pr := Promoting(s, x, weight, decay, decayRoll, bits);
    var l := LobbySlot(x, pr.t, bits);
    assert pr.slots == s[l := pr.slots[l]];
    LobbyPutCounts(s, l, pr.slots[l], bits);
  }

  // ---- over runs ----

  /** The weight a run gives to one item. */
  function WeightOf(calls: seq<Call>, k: Key): (n: nat) {
    if calls == [] then 0
    else WeightOf(calls[..|calls| - 1], k) + if calls[|calls| - 1].key == k then calls[|calls| - 1].weight else 0
  }

  ghost predicate IsHeavy(s: Slots, k: Key, bits: nat) { exists n :: Counts(s, k, n, bits) }

  /** The item is heavy after each of the calls from the `m`-th on. */
  ghost predicate StaysHeavy(calls: seq<Call>, m: nat, decay: real, bits: nat, k: Key)
    requires ValidCalls(calls, bits) && decay > 0.0 && m <= |calls|
  {
    forall j :: m <= j <= |calls| ==> IsHeavy(Run(calls[..j], decay, bits), k, bits)
  }

  /** Over every run and every draw: while an item stays heavy, its count is the one it had plus
      exactly its own weights since. */
  lemma {:induction false} RunCounts(calls: seq<Call>, m: nat, decay: real, bits: nat, k: Key, a: nat, b: nat)
    requires ValidCalls(calls, bits) && decay > 0.0 && m <= |calls| && StaysHeavy(calls, m, decay, bits, k)
    requires Counts(Run(calls[..m], decay, bits), k, a, bits) && Counts(Run(calls, decay, bits), k, b, bits)
    ensures b == a + WeightOf(calls[m..], k)
  {
    hide Run;
    hide Inv;
    hide Counts;
    if m == |calls| {
      assert calls[..m] == calls && calls[m..] == [];
      RunInv(calls, decay, bits);
      OneCount(Run(calls, decay, bits), Recorded(calls), Total(calls), bits);
    } else {
      var n := |calls| - 1;
      var init, c := calls[..n], calls[n];
      EarlierHeavy(calls, m, decay, bits, k);
      var mid: nat :| Counts(Run(init, decay, bits), k, mid, bits);
      assert init[..m] == calls[..m];
      RunCounts(init, m, decay, bits, k, a, mid);
      assert calls[m..][..n - m] == init[m..];
      LastCall(calls, decay, bits, k, mid, b);
    }
  }

  lemma EarlierHeavy(calls: seq<Call>, m: nat, decay: real, bits: nat, k: Key)
    requires ValidCalls(calls, bits) && decay > 0.0 && m < |calls| && StaysHeavy(calls, m, decay, bits, k)
    ensures var init := calls[..|calls| - 1]; StaysHeavy(init, m, decay, bits, k) && IsHeavy(Run(init, decay, bits), k, bits)
  {
    hide Run;
    hide IsHeavy;
    var n := |calls| - 1;
    var init := calls[..n];
    assert forall j :: m <= j <= n ==> init[..j] == calls[..j];
    assert init[..n] == init;
  }

  lemma LastCall(calls: seq<Call>, decay: real, bits: nat, k: Key, a: nat, b: nat)
    requires ValidCalls(calls, bits) && decay > 0.0 && calls != []
    requires Counts(Run(calls[..|calls| - 1], decay, bits), k, a, bits) && Counts(Run(calls, decay, bits), k, b, bits)
    ensures b == a + if calls[|calls| - 1].key == k then calls[|calls| - 1].weight else 0
  {
    hide UpdateTables;
    hide Inv;
    hide Counts;
    var init, c := calls[..|calls| - 1], calls[|calls| - 1];
    var s := Run(init, decay, bits);
    RunInv(init, decay, bits);
    if c.weight > 0 {
      var _ := UpdateCounts(s, c.key, c.weight, decay, c.decayRoll, c.roll, Recorded(init), Total(init), bits);
    } else {
      OneCount(s, Recorded(init), Total(init), bits);
    }
  }

  // ---- the contested lobby entry ----

  /** Nothing of the item is recorded and nothing is free for it. */
  ghost predicate MustContest(s: Slots, k: Key, bits: nat) {
    && Waits(s, k, bits) && Absent(s, k, bits)
    && Live(s, LobbySlot(k, 0, bits)) && Live(s, LobbySlot(k, 1, bits))
  }

  /** The lobby entry after the contest: the old one with its decayed count, or, if that is 0, the
      new item's with what the decay left of its weight, at least 1 and at most 255. */
  function Survivor(e: Entry, fp: nat, weight: nat, decay: real, decayRoll: real): (r: Entry)
    requires decay > 0.0 && weight > 0
  {
    var c, left := Decayed(decay, e.count, weight, decayRoll), weight - ExpDecay(decay, e.count).Floor;
    if c > 0 then Entry(c, e.fp) else Entry(if left < 1 then 1 else if left > 255 then 255 else left, fp)
  }

  /** An item that must contest meets the lobby entry of the table its fingerprint chooses. The
      survivor stays there unless it is promoted; nothing else in any lobby changes. */
  lemma ContestGives(s: Slots, k: Key, weight: nat, decay: real, decayRoll: real, roll: real, keys: iset<Key>, total: nat, bits: nat)
    requires Inv(s, keys, total, bits) && ValidKey(k, bits) && weight > 0 && decay > 0.0 && MustContest(s, k, bits)
    ensures Complete(s, bits)
    ensures var t := k.fp % 2;
            var l, i := LobbySlot(k, t, bits), Index(k, t, bits);
            var e := Survivor(s[l], k.fp, weight, decay, decayRoll);
            var r := UpdateTables(s, k, weight, decay, decayRoll, roll, total + weight, bits);
            && (e.count < 16 || Refused(e.count, Weakest(s, t, i), roll) ==> r == Outcome(s[l := e], Nowhere))
            && (e.count >= 16 && !Refused(e.count, Weakest(s, t, i), roll) ==>
                  && r.touched.HeavyOf? && r.touched.t == t && r.slots[l] == EMPTY
                  && forall q :: q in s && q.Lobby? && q != l ==> r.slots[q] == s[q])
  {
    hide Alt;
    hide Inv;
    hide Index;
    hide Waits;
    hide CheckHeavy;
    hide TryPromote;
    hide Promotes;
    hide Refused;
    hide Decayed;
    hide Absent;
    InvParts(s, keys, total, bits);
    WaitsNowhere(s, k, weight, bits);
    AbsentHolds(s, k, bits);
    var t, m := k.fp % 2, total + weight;
    var l, i := LobbySlot(k, t, bits), Index(k, t, bits);
    UpdateIsContest(s, k, weight, decay, decayRoll, roll, m, bits);
    var e := Survivor(s[l], k.fp, weight, decay, decayRoll);
    assert Contested(s[l], k.fp, weight, decay, decayRoll) == e;
    WaitsFull(s, k, t, bits);
    if e.count >= 16 {
      PromotionExact(s[l := e], k, e.count, t, roll, m, bits);
      assert Weakest(s[l := e], t, i) == Weakest(s, t, i);
    } else {
      NotRefused(e.count, Weakest(s, t, i), roll);
    }
  }

  lemma NotRefused(n: nat, weakest: nat, roll: real)
    ensures Refused(n, weakest, roll) ==> n < weakest
  {
  }

  lemma PromotionExact(u: Slots, k: Key, n: nat, t: nat, roll: real, total: nat, bits: nat)
    requires Complete(u, bits) && ValidKey(k, bits) && t < 2 && n >= 16
    requires Live(u, Heavy(t, Index(k, t, bits), 0)) && Live(u, Heavy(t, Index(k, t, bits), 1))
    ensures var l, i := LobbySlot(k, t, bits), Index(k, t, bits);
            var r := TryPromote(u, k, n, t, roll, total, bits);
            && (Refused(n, Weakest(u, t, i), roll) ==> r == Outcome(u, Nowhere))
            && (!Refused(n, Weakest(u, t, i), roll) ==>
                  && r.touched == HeavyOf(t, if u[Heavy(t, i, 1)].count < u[Heavy(t, i, 0)].count then 1 else 0)
                  && r.slots[l] == EMPTY && forall q :: q in u && q.Lobby? && q != l ==> r.slots[q] == u[q])
  {
    hide Alt;
    hide Index;
    hide Kickout;
    hide Promotes;
    hide Refused;
    var l, i := LobbySlot(k, t, bits), Index(k, t, bits);
    RefusedExact(n, Weakest(u, t, i), roll);
    forall q | q in u && q.Lobby?
      ensures var r := TryPromote(u, k, n, t, roll, total, bits);
              r.slots[q] == if r.touched != Nowhere && q == l then EMPTY else u[q]
    {
      TryPromoteLobby(u, k, n, t, roll, total, bits, q);
    }
  }

  // ---- how far a chain goes ----

  /** An entry moves on only while its count is at least 0.8 percent of the total. */
  lemma HitterExact(count: nat, total: nat)
    ensures IsHeavyHitter(count, total) <==> 125 * count >= total
  {
    assert (total as real * HEAVY_RATIO) * 125.0 == total as real;
  }

  ghost predicate AllHitters(s: Slots, total: nat) {
    forall p :: p in s && p.Heavy? ==> Live(s, p) && 125 * s[p].count >= total
  }

  /** A chain makes at most 16 moves, all of entries of at least 0.8 percent; among nothing but
      such entries it makes exactly 16. */
  lemma ChainLength(s: Slots, e: Entry, t: nat, i: nat, total: nat, bits: nat)
    requires Complete(s, bits) && t < 2
    ensures var route := Route(s, e, t, i, MAX_KICKS, total, bits);
            && |route| <= 16 && (forall m :: 0 <= m < |route| ==> 125 * route[m].entry.count >= total)
            && (e.count > 0 && 125 * e.count >= total && AllHitters(s, total) ==> |route| == 16)
  {
    RouteLength(s, e, t, i, MAX_KICKS, total, bits);
  }

  lemma {:induction false} RouteLength(s: Slots, e: Entry, t: nat, i: nat, kicks: nat, total: nat, bits: nat)
    requires Complete(s, bits) && t < 2
    ensures var route := Route(s, e, t, i, kicks, total, bits);
            && |route| <= kicks && (forall m :: 0 <= m < |route| ==> 125 * route[m].entry.count >= total)
            && (e.count > 0 && 125 * e.count >= total && AllHitters(s, total) ==> |route| == kicks)
    decreases kicks
  {
    hide Alt;
    hide IsHeavyHitter;
    hide Victim;
    HitterExact(e.count, total);
    if kicks > 0 && IsHeavyHitter(e.count, total) {
      var p := Victim(s, 1 - t, Alt(e.fp, i, bits));
      if s[p].count > 0 { RouteLength(s[p := e], s[p], p.t, p.i, kicks - 1, total, bits); }
    }
  }

  /** Each move goes to the weaker slot of the entry's other bucket, or an empty one, the first of
      two equal ones. */
  lemma MoveTo(s: Slots, e: Entry, t: nat, i: nat, kicks: nat, total: nat, bits: nat)
    requires Complete(s, bits) && t < 2 && Route(s, e, t, i, kicks, total, bits) != []
    ensures var m := Route(s, e, t, i, kicks, total, bits)[0];
            var a := Alt(e.fp, i, bits);
            && m.entry == e && m.to in s && m.to.Heavy? && m.to.t == 1 - t && m.to.i == a
            && Heavy(1 - t, a, 0) in s && Heavy(1 - t, a, 1) in s && s[m.to].count == Weakest(s, 1 - t, a)
            && (m.to.j == 1 ==> s[m.to].count < s[Heavy(1 - t, a, 0)].count)
  {
    hide Alt;
  }
}
