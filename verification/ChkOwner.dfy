/** Whose entry the slot is that an update reports to the heap, and where a lobby counter can
    pass the promotion threshold. */
module ChkOwner {
  import opened Wrappers
  import opened ChkIndex
  import opened ChkTables
  import opened ChkDecay
  import opened ChkUpdate

  // ---- the way of a kick-out chain ----

  datatype Move = Move(to: Pos, entry: Entry)

  /** The moves of a kick-out chain, in order, computed from the slots it starts with. */
  function Route(s: Slots, e: Entry, t: nat, i: nat, kicks: nat, total: nat, bits: nat): (r: seq<Move>)
    requires Complete(s, bits) && t < 2
    decreases kicks
  {
    if kicks == 0 || !IsHeavyHitter(e.count, total) then []
    else
      var p := Victim(s, 1 - t, Alt(e.fp, i, bits));
      [Move(p, e)] + if s[p].count == 0 then [] else Route(s[p := e], s[p], p.t, p.i, kicks - 1, total, bits)
  }

  /** The last entry a route puts at a position, if it comes there at all. */
  function LastTo(route: seq<Move>, p: Pos): (e: Option<Entry>) {
    if route == [] then None
    else if LastTo(route[1..], p).Some? then LastTo(route[1..], p)
    else if route[0].to == p then Some(route[0].entry)
    else None
  }

  /** After the chain a slot holds the last entry that came to it, or what it held before; the
      lobby is not touched. */
  lemma {:induction false} KickoutByRoute(s: Slots, e: Entry, t: nat, i: nat, kicks: nat, total: nat, bits: nat, p: Pos)
    requires Complete(s, bits) && t < 2 && p in s
    ensures p in Kickout(s, e, t, i, kicks, total, bits)
    ensures var last := LastTo(Route(s, e, t, i, kicks, total, bits), p);
            Kickout(s, e, t, i, kicks, total, bits)[p] == if last.Some? then last.value else s[p]
    ensures p.Lobby? ==> Kickout(s, e, t, i, kicks, total, bits)[p] == s[p]
    decreases kicks
  {
    hide Alt;
    hide IsHeavyHitter;
    hide Victim;
    if kicks > 0 && IsHeavyHitter(e.count, total) {
      var q := Victim(s, 1 - t, Alt(e.fp, i, bits));
      var route := Route(s, e, t, i, kicks, total, bits);
      if s[q].count == 0 {
        assert route[1..] == [];
      } else {
        assert route[1..] == Route(s[q := e], s[q], q.t, q.i, kicks - 1, total, bits);
        KickoutByRoute(s[q := e], s[q], q.t, q.i, kicks - 1, total, bits, p);
      }
    }
  }

  // ---- the promotion an update comes to ----

  /** The slots as a promotion finds them, and the table it happens in. */
  datatype Promotion = Promotion(slots: Slots, t: nat)

  /** The lobby slot of an update that finds no heavy slot: where the item waits, the first free
      one, or the contested one after its decay. */
  function Promoting(s: Slots, k: Key, weight: nat, decay: real, decayRoll: real, bits: nat): (r: Promotion)
    requires Complete(s, bits) && ValidKey(k, bits) && decay > 0.0 && weight > 0
    ensures Complete(r.slots, bits) && r.t < 2
  {
    var a, b, c := LobbySlot(k, 0, bits), LobbySlot(k, 1, bits), LobbySlot(k, k.fp % 2, bits);
    if Holds(s, a, k.fp) then Promotion(s, 0)
    else if Holds(s, b, k.fp) then Promotion(s, 1)
    else if !Live(s, a) then Promotion(s[a := Entry(0, k.fp)], 0)
    else if !Live(s, b) then Promotion(s[b := Entry(0, k.fp)], 1)
    else Promotion(s[c := Contested(s[c], k.fp, weight, decay, decayRoll)], k.fp % 2)
  }

  /** What a promotion in a bucket leaves before the chain starts. */
  function TakenOver(u: Slots, p: Pos, l: Pos): (r: Slots)
    requires p in u && l in u
  {
    u[p := Entry(u[p].count, u[l].fp)][l := EMPTY]
  }

  /** The promoted entry is the item's, and the chain either stays away from its slot or comes
      there last with the item's entry. */
  predicate PromotesOwn(u: Slots, k: Key, t: nat, total: nat, bits: nat)
    requires Complete(u, bits) && ValidKey(k, bits) && t < 2
  {
    var p, l := Victim(u, t, Index(k, t, bits)), LobbySlot(k, t, bits);
    && u[l].fp == k.fp
    && var last := LastTo(Route(TakenOver(u, p, l), u[p], t, p.i, MAX_KICKS, total, bits), p);
       last.Some? ==> last.value.fp == k.fp
  }

  /** Decided on the slots before an update: a heavy slot it touches will be the item's own. */
  predicate TouchesOwn(s: Slots, k: Key, weight: nat, decay: real, decayRoll: real, total: nat, bits: nat)
    requires Complete(s, bits) && ValidKey(k, bits) && decay > 0.0 && weight > 0
  {
    || FirstHolding(s, k, 0, bits) < 4 || FirstEmpty(s, k, 0, bits) < 4
    || var pr := Promoting(s, k, weight, decay, decayRoll, bits); PromotesOwn(pr.slots, k, pr.t, total, bits)
  }

  lemma TryPromoteOwner(u: Slots, k: Key, count: nat, t: nat, roll: real, keys: iset<Key>, total: nat, bits: nat)
    requires Inv(u, keys, total, bits) && ValidKey(k, bits) && t < 2 && count >= THRESHOLD
    requires Promotable(u, k, t, keys, bits) && u[LobbySlot(k, t, bits)].fp == k.fp
    ensures var r := TryPromote(u, k, count, t, roll, total, bits);
            r.touched.HeavyOf? ==>
              && r.touched.t == t && Heavy(t, Index(k, t, bits), r.touched.j) in r.slots
              && (r.slots[Heavy(t, Index(k, t, bits), r.touched.j)].fp == k.fp <==> PromotesOwn(u, k, t, total, bits))
  {
    hide Alt;
    hide Inv;
    hide Kickout;
    hide Route;
    hide LastTo;
    hide Promotes;
    InvParts(u, keys, total, bits);
    var p, l := Victim(u, t, Index(k, t, bits)), LobbySlot(k, t, bits);
    assert Heavy(t, Index(k, t, bits), p.j) == p;
    KickoutByRoute(TakenOver(u, p, l), u[p], t, p.i, MAX_KICKS, total, bits, p);
  }

  /** A heavy slot touched when none was found was touched by the promotion above. */
  lemma ByPromotion(s: Slots, k: Key, weight: nat, decay: real, decayRoll: real, roll: real, total: nat, bits: nat) returns (count: nat)
    requires Complete(s, bits) && ValidKey(k, bits) && decay > 0.0 && weight > 0
    requires CheckHeavy(s, k, weight, bits).touched == Nowhere
    ensures var r := UpdateTables(s, k, weight, decay, decayRoll, roll, total, bits);
            var pr := Promoting(s, k, weight, decay, decayRoll, bits);
            r.touched.HeavyOf? ==> count >= THRESHOLD && r == TryPromote(pr.slots, k, count, pr.t, roll, total, bits)
  {
    hide Index;
    hide TryPromote;
    hide CheckHeavy;
    hide Contested;
    var a, b := LobbySlot(k, 0, bits), LobbySlot(k, 1, bits);
    if Holds(s, a, k.fp) {
      count := s[a].count + weight;
    } else if Holds(s, b, k.fp) {
      count := s[b].count + weight;
      assert CheckLobby(s, k, weight, 1, roll, total, bits) == Raise(s, k, count, 1, roll, total, bits);
    } else {
      assert CheckLobby(s, k, weight, 1, roll, total, bits) == Outcome(s, Nowhere);
      count := weight;
      if Live(s, a) && !Live(s, b) {
        assert EnterLobby(s, k, weight, 1, roll, total, bits) == Raise(s[b := Entry(0, k.fp)], k, count, 1, roll, total, bits);
      } else if Live(s, a) {
        assert EnterLobby(s, k, weight, 1, roll, total, bits) == Outcome(s, Nowhere);
        count := Contested(s[LobbySlot(k, k.fp % 2, bits)], k.fp, weight, decay, decayRoll).count;
      }
    }
  }

  lemma OwnPromotable(u: Slots, k: Key, t: nat, keys: iset<Key>, bits: nat)
    requires Complete(u, bits) && ValidKey(k, bits) && t < 2 && k in keys && Full(u, k, bits)
    requires u[LobbySlot(k, t, bits)].fp == k.fp && AbsentBut(u, k, LobbySlot(k, t, bits), bits)
    ensures Promotable(u, k, t, keys, bits)
  {
    hide Alt;
    FullBucket(u, k, t, bits);
    HeldKey(k, LobbySlot(k, t, bits), bits);
  }

  /** The slots of a promotion keep the invariant, and unless a contested entry survived, the
      lobby entry to promote is the item's, recorded nowhere else. */
  lemma PromotingKeeps(s: Slots, k: Key, weight: nat, decay: real, decayRoll: real, keys: iset<Key>, total: nat, bits: nat)
    requires Inv(s, keys, total, bits) && ValidKey(k, bits) && decay > 0.0 && 0 < weight <= total && k in keys
    requires NotHeavy(s, k, bits) && Full(s, k, bits)
    ensures var pr := Promoting(s, k, weight, decay, decayRoll, bits);
            && Inv(pr.slots, keys, total, bits) && Promotable(pr.slots, k, pr.t, keys, bits)
  {
    hide Alt;
    hide Inv;
    hide Full;
    hide Index;
    hide Decayed;
    hide Replacing;
    hide Promotable;
    hide AbsentBut;
    hide Absent;
    hide NotHeavy;
    InvParts(s, keys, total, bits);
    var a, b, c := LobbySlot(k, 0, bits), LobbySlot(k, 1, bits), LobbySlot(k, k.fp % 2, bits);
    if Holds(s, a, k.fp) {
      HeldAlone(s, k, 0, keys, total, bits);
      OwnPromotable(s, k, 0, keys, bits);
    } else if Holds(s, b, k.fp) {
      HeldAlone(s, k, 1, keys, total, bits);
      OwnPromotable(s, k, 1, keys, bits);
    } else {
      NotRecorded(s, k, bits);
      if !Live(s, a) || !Live(s, b) {
        var t, l := if !Live(s, a) then 0 else 1, if !Live(s, a) then a else b;
        Reserve(s, k, t, keys, total, bits);
        FullKept(s, s[l := Entry(0, k.fp)], k, bits);
        OwnPromotable(s[l := Entry(0, k.fp)], k, t, keys, bits);
      } else {
        LobbyByte(s, c, keys, total, bits);
        ContestedKeeps(s, k, k.fp % 2, Contested(s[c], k.fp, weight, decay, decayRoll), keys, total, bits);
      }
    }
  }

  /** When the lobby entry to promote is not the item's, it is a contested one that survived. */
  lemma SurvivorOnly(s: Slots, k: Key, weight: nat, decay: real, decayRoll: real, bits: nat)
    requires Complete(s, bits) && ValidKey(k, bits) && decay > 0.0 && weight > 0
    ensures var pr := Promoting(s, k, weight, decay, decayRoll, bits);
            pr.slots[LobbySlot(k, pr.t, bits)].fp != k.fp ==>
              && (forall u :: 0 <= u < 2 ==> Live(s, LobbySlot(k, u, bits)) && !Holds(s, LobbySlot(k, u, bits), k.fp))
              && Decayed(decay, s[LobbySlot(k, k.fp % 2, bits)].count, weight, decayRoll) > 0
  {
    hide Index;
    hide Decayed;
    hide Replacing;
  }

  /** For every update: the heavy slot it reports to the heap records the item iff the item was
      found or placed there, or the promoted entry is its own and the kick-out chain does not
      leave another entry in that slot. */
  lemma TouchedOwner(s: Slots, k: Key, weight: nat, decay: real, decayRoll: real, roll: real, keys: iset<Key>, total: nat, bits: nat)
    requires Inv(s, keys, total, bits) && ValidKey(k, bits) && weight > 0 && decay > 0.0
    ensures var r := UpdateTables(s, k, weight, decay, decayRoll, roll, total + weight, bits);
            r.touched.HeavyOf? ==>
              var p := Heavy(r.touched.t, Index(k, r.touched.t, bits), r.touched.j);
              p in r.slots && (KeyAt(r.slots, p, bits) == k <==> TouchesOwn(s, k, weight, decay, decayRoll, total + weight, bits))
  {
    hide Alt;
    hide Inv;
    hide Index;
    hide UpdateTables;
    hide PromotesOwn;
    hide FirstHolding;
    hide FirstEmpty;
    hide Full;
    hide HeavyKept;
    UpdateKeeps(s, k, weight, decay, decayRoll, roll, keys, total, bits);
    CheckHeavyKeeps(s, k, weight, keys, total, bits);
    InvGrows(s, keys, total, k, weight, bits);
    var r := UpdateTables(s, k, weight, decay, decayRoll, roll, total + weight, bits);
    InvParts(r.slots, keys + iset{k}, total + weight, bits);
    InvParts(s, keys, total, bits);
    if r.touched.HeavyOf? {
      var p := Heavy(r.touched.t, Index(k, r.touched.t, bits), r.touched.j);
      OwnFingerprint(r.slots, p, k, bits);
      if CheckHeavy(s, k, weight, bits).touched != Nowhere {
        FoundIsOwn(s, k, weight, decay, decayRoll, roll, total + weight, bits);
      } else {
        PromotedOwner(s, k, weight, decay, decayRoll, roll, keys + iset{k}, total + weight, bits);
      }
    }
  }

  lemma OwnFingerprint(s: Slots, p: Pos, k: Key, bits: nat)
    requires Complete(s, bits) && ValidKey(k, bits) && ValidPos(p, bits) && p.i == Index(k, p.t, bits)
    ensures p in s && (KeyAt(s, p, bits) == k <==> s[p].fp == k.fp)
  {
    hide Alt;
    KeyOfExact(p, k, bits);
  }

  lemma FoundIsOwn(s: Slots, k: Key, weight: nat, decay: real, decayRoll: real, roll: real, total: nat, bits: nat)
    requires Complete(s, bits) && ValidKey(k, bits) && weight > 0 && decay > 0.0
    requires CheckHeavy(s, k, weight, bits).touched != Nowhere
    ensures var r := UpdateTables(s, k, weight, decay, decayRoll, roll, total, bits);
            && (FirstHolding(s, k, 0, bits) < 4 || FirstEmpty(s, k, 0, bits) < 4)
            && r.touched.HeavyOf? && r.touched.t < 2 && r.touched.j < 2
            && r.slots[Heavy(r.touched.t, Index(k, r.touched.t, bits), r.touched.j)].fp == k.fp
  {
    hide Index;
    hide FirstHolding;
    hide FirstEmpty;
  }

  lemma PromotedOwner(s: Slots, k: Key, weight: nat, decay: real, decayRoll: real, roll: real, keys: iset<Key>, total: nat, bits: nat)
    requires Inv(s, keys, total, bits) && ValidKey(k, bits) && 0 < weight <= total && decay > 0.0 && k in keys
    requires CheckHeavy(s, k, weight, bits).touched == Nowhere && NotHeavy(s, k, bits) && Full(s, k, bits)
    ensures Complete(s, bits)
    ensures var r := UpdateTables(s, k, weight, decay, decayRoll, roll, total, bits);
            r.touched.HeavyOf? && r.touched.t < 2 && r.touched.j < 2 ==>
              var p := Heavy(r.touched.t, Index(k, r.touched.t, bits), r.touched.j);
              r.slots[p].fp == k.fp <==> TouchesOwn(s, k, weight, decay, decayRoll, total, bits)
  {
    hide Alt;
    hide Inv;
    hide Index;
    hide UpdateTables;
    hide TryPromote;
    hide Promoting;
    hide Promotable;
    hide NotHeavy;
    InvParts(s, keys, total, bits);
    var r := UpdateTables(s, k, weight, decay, decayRoll, roll, total, bits);
    var pr := Promoting(s, k, weight, decay, decayRoll, bits);
    NoneFree(s, k, weight, bits);
    var count := ByPromotion(s, k, weight, decay, decayRoll, roll, total, bits);
    PromotingKeeps(s, k, weight, decay, decayRoll, keys, total, bits);
    hide Full;
    if r.touched.HeavyOf? && r.touched.t < 2 && r.touched.j < 2 {
      if pr.slots[LobbySlot(k, pr.t, bits)].fp == k.fp {
        TryPromoteOwner(pr.slots, k, count, pr.t, roll, keys, total, bits);
      } else {
        NotOwn(s, k, weight, decay, decayRoll, roll, keys, total, bits);
      }
    }
  }

  lemma NoneFree(s: Slots, k: Key, weight: nat, bits: nat)
    requires Complete(s, bits) && ValidKey(k, bits) && CheckHeavy(s, k, weight, bits).touched == Nowhere
    ensures FirstHolding(s, k, 0, bits) == 4 && FirstEmpty(s, k, 0, bits) == 4
  {
  }

  /** When a contested entry survives, no slot holds the item afterwards. */
  lemma NotOwn(s: Slots, k: Key, weight: nat, decay: real, decayRoll: real, roll: real, keys: iset<Key>, total: nat, bits: nat)
    requires Inv(s, keys, total, bits) && ValidKey(k, bits) && 0 < weight <= total && decay > 0.0
    requires Complete(s, bits)
    requires CheckHeavy(s, k, weight, bits).touched == Nowhere && NotHeavy(s, k, bits) && Full(s, k, bits)
    requires var pr := Promoting(s, k, weight, decay, decayRoll, bits); pr.slots[LobbySlot(k, pr.t, bits)].fp != k.fp
    ensures var r := UpdateTables(s, k, weight, decay, decayRoll, roll, total, bits);
            && Absent(r.slots, k, bits)
            && (r.touched.HeavyOf? && r.touched.t < 2 && r.touched.j < 2 ==>
                  r.slots[Heavy(r.touched.t, Index(k, r.touched.t, bits), r.touched.j)].fp != k.fp)
            && !PromotesOwn(Promoting(s, k, weight, decay, decayRoll, bits).slots, k, Promoting(s, k, weight, decay, decayRoll, bits).t, total, bits)
  {
    hide Alt;
    hide Inv;
    hide Index;
    hide Promoting;
    hide Full;
    hide Decayed;
    hide Contest;
    hide Route;
    SurvivorOnly(s, k, weight, decay, decayRoll, bits);
    NotRecorded(s, k, bits);
    ContestOwner(s, k, weight, decay, decayRoll, roll, keys, total, bits);
    UpdateIsContest(s, k, weight, decay, decayRoll, roll, total, bits);
    ContestSlots(s, k, weight, decay, decayRoll, roll, keys, total, bits);
  }

  lemma UpdateIsContest(s: Slots, k: Key, weight: nat, decay: real, decayRoll: real, roll: real, total: nat, bits: nat)
    requires Complete(s, bits) && ValidKey(k, bits) && weight > 0 && decay > 0.0
    requires CheckHeavy(s, k, weight, bits).touched == Nowhere
    requires forall u :: 0 <= u < 2 ==> Live(s, LobbySlot(k, u, bits)) && !Holds(s, LobbySlot(k, u, bits), k.fp)
    ensures UpdateTables(s, k, weight, decay, decayRoll, roll, total, bits) == Contest(s, k, weight, decay, decayRoll, roll, total, bits)
  {
    hide Index;
    hide CheckHeavy;
    hide Contest;
    assert CheckLobby(s, k, weight, 1, roll, total, bits) == Outcome(s, Nowhere);
    assert EnterLobby(s, k, weight, 1, roll, total, bits) == Outcome(s, Nowhere);
  }

  /** A slot of the item's buckets that does not record it is taken by another fingerprint. */
  lemma ContestSlots(s: Slots, k: Key, weight: nat, decay: real, decayRoll: real, roll: real, keys: iset<Key>, total: nat, bits: nat)
    requires Inv(s, keys, total, bits) && ValidKey(k, bits) && 0 < weight <= total && decay > 0.0 && Full(s, k, bits)
    requires Complete(s, bits) && Absent(s, k, bits) && Absent(Contest(s, k, weight, decay, decayRoll, roll, total, bits).slots, k, bits)
    requires forall u :: 0 <= u < 2 ==> Live(s, LobbySlot(k, u, bits))
    ensures forall t, j :: 0 <= t < 2 && 0 <= j < 2 ==>
              && Heavy(t, Index(k, t, bits), j) in s
              && Contest(s, k, weight, decay, decayRoll, roll, total, bits).slots[Heavy(t, Index(k, t, bits), j)].fp != k.fp
  {
    hide Alt;
    hide Contest;
    hide Index;
    hide Inv;
    InvGrowsKey(s, keys, total, k, bits);
    ContestKeeps(s, k, weight, decay, decayRoll, roll, keys + iset{k}, total, bits);
    var r := Contest(s, k, weight, decay, decayRoll, roll, total, bits).slots;
    forall t, j | 0 <= t < 2 && 0 <= j < 2 ensures Heavy(t, Index(k, t, bits), j) in s && r[Heavy(t, Index(k, t, bits), j)].fp != k.fp {
      FullBucket(s, k, t, bits);
      var p := Heavy(t, Index(k, t, bits), j);
      assert Live(s, p) && Live(r, p);
      OwnFingerprint(r, p, k, bits);
    }
  }

  lemma InvGrowsKey(s: Slots, keys: iset<Key>, total: nat, k: Key, bits: nat)
    requires Inv(s, keys, total, bits)
    ensures Inv(s, keys + iset{k}, total, bits)
  {
  }

  // ---- lobby counters above the threshold ----

  /** Nothing of the item is recorded and nothing is free: it contests a lobby entry. */
  predicate Contests(s: Slots, k: Key, bits: nat) {
    && FirstHolding(s, k, 0, bits) == 4 && FirstEmpty(s, k, 0, bits) == 4
    && (forall u :: 0 <= u < 2 ==> Live(s, LobbySlot(k, u, bits)) && !Holds(s, LobbySlot(k, u, bits), k.fp))
  }

  /** Decided on the slots before an update: the item replaces the contested entry `l` with more
      than the threshold left of its weight, and its promotion fails. */
  predicate LeftAbove(s: Slots, k: Key, weight: nat, decay: real, decayRoll: real, roll: real, bits: nat, l: Pos)
    requires Complete(s, bits) && ValidKey(k, bits) && decay > 0.0 && weight > 0 && l in s
  {
    && Contests(s, k, bits) && l == LobbySlot(k, k.fp % 2, bits)
    && Decayed(decay, s[l].count, weight, decayRoll) == 0
    && weight > ExpDecay(decay, s[l].count).Floor + THRESHOLD
    && !Promotes(Replacing(decay, s[l].count, weight), s[Victim(s, l.t, l.i)].count, roll)
  }

  /** A promotion changes one lobby slot, which it empties. */
  lemma TryPromoteLobby(u: Slots, k: Key, count: nat, t: nat, roll: real, total: nat, bits: nat, l: Pos)
    requires Complete(u, bits) && ValidKey(k, bits) && t < 2 && count >= THRESHOLD && l in u && l.Lobby?
    requires Live(u, Heavy(t, Index(k, t, bits), 0)) && Live(u, Heavy(t, Index(k, t, bits), 1))
    ensures var r := TryPromote(u, k, count, t, roll, total, bits);
            && (r.touched == Nowhere <==> !Promotes(count, u[Victim(u, t, Index(k, t, bits))].count, roll))
            && r.slots[l] == if r.touched != Nowhere && l == LobbySlot(k, t, bits) then EMPTY else u[l]
  {
    hide Alt;
    hide Kickout;
    hide Promotes;
    var p, c := Victim(u, t, Index(k, t, bits)), LobbySlot(k, t, bits);
    KickoutByRoute(TakenOver(u, p, c), u[p], t, p.i, MAX_KICKS, total, bits, l);
  }

  lemma RaiseLobbyBelow(s: Slots, k: Key, count: nat, t: nat, roll: real, total: nat, bits: nat, l: Pos)
    requires Complete(s, bits) && ValidKey(k, bits) && t < 2 && l in s && l.Lobby? && s[l].count <= THRESHOLD
    requires Live(s, Heavy(t, Index(k, t, bits), 0)) && Live(s, Heavy(t, Index(k, t, bits), 1))
    ensures Raise(s, k, count, t, roll, total, bits).slots[l].count <= THRESHOLD
    ensures Raise(s, k, count, t, roll, total, bits).touched != Nowhere
  {
    hide Alt;
    hide TryPromote;
    if count >= THRESHOLD { TryPromoteLobby(s, k, count, t, roll, total, bits, l); }
  }

  lemma CheckLobbyBelow(s: Slots, k: Key, weight: nat, t: nat, roll: real, total: nat, bits: nat, l: Pos)
    requires Complete(s, bits) && ValidKey(k, bits) && t <= 2 && l in s && l.Lobby? && s[l].count <= THRESHOLD && Full(s, k, bits)
    ensures var r := CheckLobby(s, k, weight, t, roll, total, bits);
            && r.slots[l].count <= THRESHOLD
            && (r.touched == Nowhere <==> forall u :: t <= u < 2 ==> !Holds(s, LobbySlot(k, u, bits), k.fp))
    decreases 2 - t
  {
    hide Raise;
    hide Full;
    hide Index;
    if t < 2 {
      FullBucket(s, k, t, bits);
      if Holds(s, LobbySlot(k, t, bits), k.fp) {
        RaiseLobbyBelow(s, k, s[LobbySlot(k, t, bits)].count + weight, t, roll, total, bits, l);
      } else {
        CheckLobbyBelow(s, k, weight, t + 1, roll, total, bits, l);
      }
    }
  }

  lemma EnterLobbyBelow(s: Slots, k: Key, weight: nat, t: nat, roll: real, total: nat, bits: nat, l: Pos)
    requires Complete(s, bits) && ValidKey(k, bits) && t <= 2 && l in s && l.Lobby? && s[l].count <= THRESHOLD && Full(s, k, bits)
    ensures var r := EnterLobby(s, k, weight, t, roll, total, bits);
            && r.slots[l].count <= THRESHOLD
            && (r.touched == Nowhere <==> forall u :: t <= u < 2 ==> Live(s, LobbySlot(k, u, bits)))
    decreases 2 - t
  {
    hide Raise;
    hide Full;
    hide Index;
    if t < 2 {
      var c := LobbySlot(k, t, bits);
      FullBucket(s, k, t, bits);
      if !Live(s, c) {
        RaiseLobbyBelow(s[c := Entry(0, k.fp)], k, weight, t, roll, total, bits, l);
      } else {
        EnterLobbyBelow(s, k, weight, t + 1, roll, total, bits, l);
      }
    }
  }

  lemma ContestLobbyExact(s: Slots, k: Key, weight: nat, decay: real, decayRoll: real, roll: real, total: nat, bits: nat, l: Pos)
    requires Complete(s, bits) && ValidKey(k, bits) && decay > 0.0 && weight > 0 && l in s && l.Lobby? && s[l].count <= THRESHOLD
    requires Full(s, k, bits) && Contests(s, k, bits)
    ensures Contest(s, k, weight, decay, decayRoll, roll, total, bits).slots[l].count > THRESHOLD
       <==> LeftAbove(s, k, weight, decay, decayRoll, roll, bits, l)
  {
    hide TryPromote;
    hide Full;
    hide Index;
    hide Decayed;
    hide Promotes;
    var t := k.fp % 2;
    var c := LobbySlot(k, t, bits);
    var e := Contested(s[c], k.fp, weight, decay, decayRoll);
    FullBucket(s, k, t, bits);
    SameVictim(s, c, e);
    hide Victim;
    hide Replacing;
    if e.count >= THRESHOLD { TryPromoteLobby(s[c := e], k, e.count, t, roll, total, bits, l); }
  }

  lemma SameVictim(s: Slots, c: Pos, e: Entry)
    requires c in s && c.Lobby? && Heavy(c.t, c.i, 0) in s && Heavy(c.t, c.i, 1) in s
    ensures Victim(s[c := e], c.t, c.i) == Victim(s, c.t, c.i)
  {
  }

  /** For every update: a lobby counter at or below the threshold is above it afterwards iff its
      entry was replaced with more than the threshold left and the promotion failed. */
  lemma LobbyAboveExact(s: Slots, k: Key, weight: nat, decay: real, decayRoll: real, roll: real, keys: iset<Key>, total: nat, bits: nat, l: Pos)
    requires Inv(s, keys, total, bits) && ValidKey(k, bits) && weight > 0 && decay > 0.0
    requires l in s && l.Lobby? && s[l].count <= THRESHOLD
    ensures Complete(s, bits)
    ensures UpdateTables(s, k, weight, decay, decayRoll, roll, total + weight, bits).slots[l].count > THRESHOLD
       <==> LeftAbove(s, k, weight, decay, decayRoll, roll, bits, l)
  {
    hide Alt;
    hide Inv;
    hide Index;
    hide CheckLobby;
    hide EnterLobby;
    hide Contest;
    hide Full;
    hide Decayed;
    hide Replacing;
    hide FirstHolding;
    hide FirstEmpty;
    InvParts(s, keys, total, bits);
    CheckHeavyKeeps(s, k, weight, keys, total, bits);
    if CheckHeavy(s, k, weight, bits).touched == Nowhere {
      CheckLobbyBelow(s, k, weight, 0, roll, total + weight, bits, l);
      EnterLobbyBelow(s, k, weight, 0, roll, total + weight, bits, l);
      if Contests(s, k, bits) { ContestLobbyExact(s, k, weight, decay, decayRoll, roll, total + weight, bits, l); }
    }
  }
}
