/** Short runs from an empty structure that reach the cases described in ChkOwner. */
module ChkExamples {
  import opened Wrappers
  import opened ChkIndex
  import opened ChkTables
  import opened ChkDecay
  import opened ChkUpdate
  import opened ChkOwner
  import opened ChkRuns
  import H = ChkHeap

  // ---- two buckets per table: a kick-out chain that comes back ----

  /** With two buckets an even fingerprint pairs equal indices and an odd one different ones. */
  lemma AltOfTwo(fp: nat, i: nat)
    requires i < 2
    ensures Size(1) == 2 && Alt(fp, i, 1) == (i + fp) % 2
  {
    assert MULTIPLIER * fp % 2 == fp % 2;
    assert XorMask(i / 2, MULTIPLIER * fp / 2, 0) == 0;
  }

  const ITEM := Key(1, 0)

  /** The heavy slots filled one by one by six items of bucket 0, in this order. */
  function Place(n: nat): (p: Pos)
    requires n < 6
  {
    if n == 0 then Heavy(0, 0, 0) else if n == 1 then Heavy(0, 0, 1) else if n == 2 then Heavy(1, 0, 0)
    else if n == 3 then Heavy(1, 0, 1) else if n == 4 then Heavy(1, 1, 0) else Heavy(1, 1, 1)
  }

  function Mark(n: nat): (e: Entry)
    requires n < 6
  {
    if n == 0 then Entry(22, 2) else if n == 1 then Entry(33, 8) else if n == 2 then Entry(41, 4)
    else if n == 3 then Entry(42, 6) else if n == 4 then Entry(1, 3) else Entry(23, 5)
  }

  /** After the first `n` of them. */
  ghost function Filled(n: nat): (s: Slots)
    requires n <= 6
  {
    imap p | ValidPos(p, 1) ::
      if 0 < n && p == Place(0) then Mark(0) else if 1 < n && p == Place(1) then Mark(1)
      else if 2 < n && p == Place(2) then Mark(2) else if 3 < n && p == Place(3) then Mark(3)
      else if 4 < n && p == Place(4) then Mark(4) else if 5 < n && p == Place(5) then Mark(5)
      else EMPTY
  }

  /** The four heavy slots of an item of bucket 0. */
  lemma SlotsOfItem(fp: nat)
    ensures HeavySlot(Key(fp, 0), 0, 1) == Heavy(0, 0, 0) && HeavySlot(Key(fp, 0), 1, 1) == Heavy(0, 0, 1)
    ensures HeavySlot(Key(fp, 0), 2, 1) == Heavy(1, fp % 2, 0) && HeavySlot(Key(fp, 0), 3, 1) == Heavy(1, fp % 2, 1)
    ensures LobbySlot(Key(fp, 0), 0, 1) == Lobby(0, 0) && LobbySlot(Key(fp, 0), 1, 1) == Lobby(1, fp % 2)
    ensures ValidKey(Key(fp, 0), 1) && Size(1) == 2
  {
    AltOfTwo(fp, 0);
  }

  /** Which of its heavy slots an item takes when it comes as number `n`. */
  function Turn(n: nat): (c: nat)
    requires n < 6
  {
    if n < 2 then n else if n % 2 == 0 then 2 else 3
  }

  lemma FilledValues(n: nat)
    requires n <= 6
    ensures Complete(Filled(n), 1)
    ensures forall m :: 0 <= m < 6 ==> Filled(n)[Place(m)] == if m < n then Mark(m) else EMPTY
    ensures forall l: Pos :: l.Lobby? && ValidPos(l, 1) ==> Filled(n)[l] == EMPTY
  {
  }

  lemma FillOne(n: nat, decay: real, total: nat)
    requires n < 6 && decay > 0.0
    ensures Complete(Filled(n), 1) && ValidKey(Key(Mark(n).fp, 0), 1)
    ensures UpdateTables(Filled(n), Key(Mark(n).fp, 0), Mark(n).count, decay, 0.0, 1.0, total, 1)
         == Outcome(Filled(n + 1), HeavyOf(Turn(n) / 2, Turn(n) % 2))
  {
    hide Alt;
    hide FirstHolding;
    hide FirstEmpty;
    hide HeavySlot;
    var k, s := Key(Mark(n).fp, 0), Filled(n);
    FilledValues(n);
    FilledNext(n);
    SlotsOfItem(Mark(n).fp);
    hide Filled;
    PlacesOf(n);
    assert FirstHolding(s, k, 0, 1) == 4;
    assert FirstEmpty(s, k, 0, 1) == Turn(n);
  }

  /** The slots an item looks at are filled before it except the one it takes and later ones. */
  lemma PlacesOf(n: nat)
    requires n < 6
    ensures var k := Key(Mark(n).fp, 0);
            && HeavySlot(k, 0, 1) == Place(0) && HeavySlot(k, 1, 1) == Place(1) && HeavySlot(k, Turn(n), 1) == Place(n)
            && HeavySlot(k, 2, 1) == Place(if n < 4 then 2 else 4) && HeavySlot(k, 3, 1) == Place(if n < 4 then 3 else 5)
    ensures forall m :: 0 <= m < n ==> Mark(m).fp != Mark(n).fp && Mark(m).count > 0
  {
    hide Alt;
    SlotsOfItem(Mark(n).fp);
  }

  lemma FilledNext(n: nat)
    requires n < 6
    ensures Filled(n)[Place(n) := Mark(n)] == Filled(n + 1)
  {
    AltOfTwo(0, 0);
    var a, b := Filled(n)[Place(n) := Mark(n)], Filled(n + 1);
    assert ValidPos(Place(n), 1);
    assert forall p :: p in a <==> p in b;
    forall p | p in b ensures a[p] == b[p] {
      if p == Place(n) { assert b[p] == Mark(n); }
    }
  }

  lemma {:induction false} NoneFound(s: Slots, k: Key, c: nat, bits: nat)
    requires c <= 4
    requires forall b :: c <= b < 4 ==> Live(s, HeavySlot(k, b, bits)) && s[HeavySlot(k, b, bits)].fp != k.fp
    ensures FirstHolding(s, k, c, bits) == 4 && FirstEmpty(s, k, c, bits) == 4
    decreases 4 - c
  {
    hide HeavySlot;
    if c < 4 { NoneFound(s, k, c + 1, bits); }
  }

  /** With all four heavy slots of an item of bucket 0 taken by others, none is found. */
  lemma NoRoom(s: Slots, fp: nat)
    requires forall j :: 0 <= j < 2 ==> Live(s, Heavy(0, 0, j)) && s[Heavy(0, 0, j)].fp != fp
    requires forall j :: 0 <= j < 2 ==> Live(s, Heavy(1, fp % 2, j)) && s[Heavy(1, fp % 2, j)].fp != fp
    ensures FirstHolding(s, Key(fp, 0), 0, 1) == 4 && FirstEmpty(s, Key(fp, 0), 0, 1) == 4
  {
    hide Alt;
    hide FirstHolding;
    hide FirstEmpty;
    SlotsOfItem(fp);
    hide HeavySlot;
    forall c | 0 <= c < 4 ensures Live(s, HeavySlot(Key(fp, 0), c, 1)) && s[HeavySlot(Key(fp, 0), c, 1)].fp != fp {
      assert c == 0 || c == 1 || c == 2 || c == 3;
    }
    NoneFound(s, Key(fp, 0), 0, 1);
  }

  /** Then the item waits in its lobby. */
  ghost function Lobbied(): (s: Slots) { Filled(6)[Lobby(0, 0) := Entry(15, 1)] }

  lemma LobbyOne(decay: real, total: nat)
    requires decay > 0.0
    ensures Complete(Filled(6), 1) && ValidKey(ITEM, 1)
    ensures UpdateTables(Filled(6), ITEM, 15, decay, 0.0, 1.0, total, 1) == Outcome(Lobbied(), LobbyOf(0))
  {
    hide Alt;
    hide FirstHolding;
    hide FirstEmpty;
    hide HeavySlot;
    hide LobbySlot;
    var s := Filled(6);
    Values();
    FilledValues(6);
    SlotsOfItem(1);
    NoRoom(s, 1);
    hide Filled;
    assert CheckLobby(s, ITEM, 15, 1, 1.0, total, 1) == Outcome(s, Nowhere);
    assert s[Lobby(0, 0) := Entry(0, 1)][Lobby(0, 0) := Entry(15, 1)] == Lobbied();
  }

  /** The full tables, spelled out. */
  lemma Values()
    ensures var s := Filled(6);
            && Complete(s, 1) && Size(1) == 2
            && s[Heavy(0, 0, 0)] == Entry(22, 2) && s[Heavy(0, 0, 1)] == Entry(33, 8)
            && s[Heavy(1, 0, 0)] == Entry(41, 4) && s[Heavy(1, 0, 1)] == Entry(42, 6)
            && s[Heavy(1, 1, 0)] == Entry(1, 3) && s[Heavy(1, 1, 1)] == Entry(23, 5)
            && s[Lobby(0, 0)] == EMPTY && s[Lobby(1, 1)] == EMPTY
  {
    AltOfTwo(0, 0);
    FilledValues(6);
    hide Filled;
    assert Place(0) == Heavy(0, 0, 0) && Place(1) == Heavy(0, 0, 1) && Place(2) == Heavy(1, 0, 0);
    assert Place(3) == Heavy(1, 0, 1) && Place(4) == Heavy(1, 1, 0) && Place(5) == Heavy(1, 1, 1);
  }

  /** It is promoted over the first entry, which pushes out the third, which pushes out the item,
      which pushes out the fifth; that one is too light to go on. */
  ghost function Returned(): (s: Slots) {
    Filled(6)[Heavy(0, 0, 0) := Entry(41, 4)][Heavy(1, 0, 0) := Entry(22, 2)][Heavy(1, 1, 0) := Entry(22, 1)]
  }

  ghost function Promoted(): (s: Slots) { Filled(6)[Heavy(0, 0, 0) := Entry(22, 1)] }

  lemma ChainReturns()
    ensures Complete(Promoted(), 1)
    ensures Kickout(Promoted(), Entry(22, 2), 0, 0, MAX_KICKS, 188, 1) == Returned()
  {
    Values();
    hide Filled;
    hide Alt;
    hide Kickout;
    hide Victim;
    var a := Promoted();
    var b := a[Heavy(1, 0, 0) := Entry(22, 2)];
    var c := b[Heavy(0, 0, 0) := Entry(41, 4)];
    var d := c[Heavy(1, 1, 0) := Entry(22, 1)];
    OneKick(a, Entry(22, 2), 0, 0, 16, Heavy(1, 0, 0));
    OneKick(b, Entry(41, 4), 1, 0, 15, Heavy(0, 0, 0));
    OneKick(c, Entry(22, 1), 0, 0, 14, Heavy(1, 1, 0));
    KickoutStep(d, Entry(1, 3), 1, 1, 13, 188, 1);
    assert !IsHeavyHitter(1, 188);
    assert d == Returned();
  }

  /** One kick of an entry heavy enough into the first slot of its other bucket. */
  lemma OneKick(s: Slots, e: Entry, t: nat, i: nat, kicks: nat, p: Pos)
    requires Complete(s, 1) && t < 2 && i < 2 && kicks > 0 && e.count >= 22
    requires p == Heavy(1 - t, (i + e.fp) % 2, 0) && p in s && Heavy(p.t, p.i, 1) in s
    requires 0 < s[p].count <= s[Heavy(p.t, p.i, 1)].count
    ensures Kickout(s, e, t, i, kicks, 188, 1) == Kickout(s[p := e], s[p], p.t, p.i, kicks - 1, 188, 1)
  {
    hide Alt;
    hide Kickout;
    AltOfTwo(e.fp, i);
    KickoutStep(s, e, t, i, kicks, 188, 1);
  }

  lemma KickoutStep(s: Slots, e: Entry, t: nat, i: nat, kicks: nat, total: nat, bits: nat)
    requires Complete(s, bits) && t < 2 && kicks > 0
    ensures Kickout(s, e, t, i, kicks, total, bits) ==
            if !IsHeavyHitter(e.count, total) then s
            else
              var p := Victim(s, 1 - t, Alt(e.fp, i, bits));
              if s[p].count == 0 then s[p := e] else Kickout(s[p := e], s[p], p.t, p.i, kicks - 1, total, bits)
  {
  }

  lemma ReturnOne(decay: real)
    requires decay > 0.0
    ensures Complete(Lobbied(), 1) && ValidKey(ITEM, 1)
    ensures UpdateTables(Lobbied(), ITEM, 11, decay, 0.0, 1.0, 188, 1) == Outcome(Returned(), HeavyOf(0, 0))
  {
    hide Alt;
    hide FirstHolding;
    hide FirstEmpty;
    hide HeavySlot;
    hide LobbySlot;
    hide Kickout;
    var s := Lobbied();
    Values();
    hide Filled;
    SlotsOfItem(1);
    NoRoom(s, 1);
    assert Holds(s, LobbySlot(ITEM, 0, 1), 1);
    assert Victim(s, 0, 0) == Heavy(0, 0, 0);
    assert s[Heavy(0, 0, 0) := Entry(22, 1)][Lobby(0, 0) := EMPTY] == Promoted();
    ChainReturns();
  }

  /** The next update of the item finds its own entry, in the other table. */
  lemma BumpOne(decay: real, total: nat)
    requires decay > 0.0
    ensures Complete(Returned(), 1) && ValidKey(ITEM, 1)
    ensures UpdateTables(Returned(), ITEM, 1, decay, 0.0, 1.0, total, 1)
         == Outcome(Returned()[Heavy(1, 1, 0) := Entry(23, 1)], HeavyOf(1, 0))
  {
    hide Alt;
    hide FirstHolding;
    hide FirstEmpty;
    hide HeavySlot;
    var s := Returned();
    Values();
    hide Filled;
    SlotsOfItem(1);
    assert FirstHolding(s, ITEM, 0, 1) == 2;
  }

  // ---- the heap over the same run ----

  /** The names of the six items and of the seventh, all different, and their buckets. */
  ghost predicate Names(n: seq<string>) { |n| == 7 && Distinct(n) }

  function B(n: seq<string>, hash: string -> nat, i: nat, count: nat): (b: H.Bucket)
    requires i < |n|
  {
    H.Bucket(count, Some(n[i]), hash(n[i]))
  }

  const Z := H.Bucket(0, None, 0)

  /** The heap of size 5 after each of the nine updates. */
  function HeapAt(n: seq<string>, hash: string -> nat, j: nat): (h: H.Heap)
    requires |n| == 7 && j <= 9
    ensures |h| == 5
  {
    var a, b, c, d, f := B(n, hash, 0, 22), B(n, hash, 1, 33), B(n, hash, 2, 41), B(n, hash, 3, 42), B(n, hash, 5, 23);
    if j == 0 then [Z, Z, Z, Z, Z]
    else if j == 1 then [Z, Z, Z, a, Z]
    else if j == 2 then [Z, Z, Z, a, b]
    else if j == 3 then [Z, a, Z, c, b]
    else if j == 4 then [Z, a, d, c, b]
    else if j == 5 then [B(n, hash, 4, 1), a, d, c, b]
    else if j <= 7 then [a, f, d, c, b]
    else if j == 8 then [f, b, d, c, B(n, hash, 6, 41)]
    else [f, b, d, c, B(n, hash, 6, 23)]
  }

  /** Recording a new item replaces the root and sifts it down. */
  lemma RecordNew(h: H.Heap, item: string, fp: nat, count: nat)
    requires |h| > 0 && count >= h[0].count && forall i :: 0 <= i < |h| ==> h[i].item != Some(item)
    ensures H.Record(h, item, fp, count) == H.Recorded(H.Sift(h[0 := H.Bucket(count, Some(item), fp)], 0), h[0].item)
  {
    hide H.Sift;
    hide H.Find;
  }

  /** Sifting in a heap of five from the root, by the children it meets. */
  lemma SiftFive(h: H.Heap)
    requires |h| == 5
    ensures var c := if h[1].count > h[2].count then 2 else 1;
            var d := if h[3].count > h[4].count then 4 else 3;
            H.Sift(h, 0) ==
            if h[c].count > h[0].count then h
            else if c == 1 && h[d].count < h[0].count then H.Swap(H.Swap(h, 0, 1), 1, d)
            else H.Swap(h, 0, c)
  {
    var c := H.Child(h, 0);
    if h[c].count <= h[0].count {
      var g := H.Swap(h, 0, c);
      H.SiftOnStep(g, c);
      if c == 1 { H.SiftOnStep(H.Swap(g, 1, H.Child(g, 1)), H.Child(g, 1)); }
    }
  }

  /** The seven recordings up to the returning chain. */
  lemma RecordAt(n: seq<string>, hash: string -> nat, j: nat)
    requires Names(n) && j < 6
    ensures H.Record(HeapAt(n, hash, j), n[j], hash(n[j]), Mark(j).count).heap == HeapAt(n, hash, j + 1)
  {
    hide H.Sift;
    hide H.Record;
    var h := HeapAt(n, hash, j);
    assert forall i :: 0 <= i < 5 ==> h[i].item != Some(n[j]);
    RecordNew(h, n[j], hash(n[j]), Mark(j).count);
    SiftFive(h[0 := B(n, hash, j, Mark(j).count)]);
  }

  lemma RecordReturned(n: seq<string>, hash: string -> nat)
    requires Names(n)
    ensures H.Record(HeapAt(n, hash, 7), n[6], hash(n[6]), 41).heap == HeapAt(n, hash, 8)
  {
    hide H.Sift;
    hide H.Record;
    var h := HeapAt(n, hash, 7);
    assert forall i :: 0 <= i < 5 ==> h[i].item != Some(n[6]);
    RecordNew(h, n[6], hash(n[6]), 41);
    SiftFive(h[0 := B(n, hash, 6, 41)]);
  }

  /** The item is found where the larger count had put it, below a count between the two. */
  lemma RecordDropped(n: seq<string>, hash: string -> nat)
    requires Names(n)
    ensures H.Record(HeapAt(n, hash, 8), n[6], hash(n[6]), 23).heap == HeapAt(n, hash, 9)
    ensures H.Ordered(HeapAt(n, hash, 8)) && !H.Ordered(HeapAt(n, hash, 9))
  {
    var h := HeapAt(n, hash, 8);
    assert H.Find(h, n[6], hash(n[6]), 5) == 4;
    assert H.Parent(4) == 1 && !H.Above(HeapAt(n, hash, 9), 1, 4);
    forall i | 1 <= i < 5 ensures H.Above(h, H.Parent(i), i) {
      assert i == 1 || i == 2 || i == 3 || i == 4;
    }
  }

  /** The nine updates: six items, then the seventh three times. */
  function UseAt(n: seq<string>, j: nat): (u: Use)
    requires |n| == 7 && j < 9
  {
    if j < 6 then Use(n[j], Call(Key(Mark(j).fp, 0), Mark(j).count, 0.0, 1.0))
    else Use(n[6], Call(ITEM, if j == 6 then 15 else if j == 7 then 11 else 1, 0.0, 1.0))
  }

  function Uses(n: seq<string>, j: nat): (us: seq<Use>)
    requires |n| == 7 && j <= 9
    ensures |us| == j && forall i :: 0 <= i < j ==> us[i] == UseAt(n, i)
  {
    seq(j, i requires 0 <= i < j => UseAt(n, i))
  }

  ghost function SlotsAt(j: nat): (s: Slots)
    requires j <= 9
  {
    if j <= 6 then Filled(j) else if j == 7 then Lobbied() else if j == 8 then Returned()
    else Returned()[Heavy(1, 1, 0) := Entry(23, 1)]
  }

  function TotalAt(j: nat): (t: nat)
    requires j <= 9
  {
    if j == 0 then 0 else if j == 1 then 22 else if j == 2 then 55 else if j == 3 then 96 else if j == 4 then 138
    else if j == 5 then 139 else if j == 6 then 162 else if j == 7 then 177 else if j == 8 then 188 else 189
  }

  lemma TotalNext(n: seq<string>, j: nat)
    requires |n| == 7 && j < 9
    ensures TotalAt(j + 1) == TotalAt(j) + UseAt(n, j).call.weight && UseAt(n, j).call.weight > 0
    ensures ValidKey(UseAt(n, j).call.key, 1)
  {
    AltOfTwo(0, 0);
  }

  lemma OnceAt(n: seq<string>, hash: string -> nat, decay: real, j: nat)
    requires Names(n) && decay > 0.0 && j < 9
    ensures Complete(SlotsAt(j), 1) && ValidKey(UseAt(n, j).call.key, 1)
    ensures Once(Top(SlotsAt(j), HeapAt(n, hash, j), TotalAt(j)), UseAt(n, j), decay, hash, 1)
         == Top(SlotsAt(j + 1), HeapAt(n, hash, j + 1), TotalAt(j + 1))
  {
    hide UpdateTables;
    hide H.Record;
    hide HeapAt;
    hide Once;
    TotalNext(n, j);
    if j < 6 {
      FillStep(n, hash, decay, j);
    } else if j == 6 {
      LobbyStep(n, hash, decay);
    } else if j == 7 {
      ReturnStep(n, hash, decay);
    } else {
      DropStep(n, hash, decay);
    }
  }

  lemma FillStep(n: seq<string>, hash: string -> nat, decay: real, j: nat)
    requires Names(n) && decay > 0.0 && j < 6
    ensures Complete(Filled(j), 1) && ValidKey(UseAt(n, j).call.key, 1)
    ensures Once(Top(Filled(j), HeapAt(n, hash, j), TotalAt(j)), UseAt(n, j), decay, hash, 1)
         == Top(Filled(j + 1), HeapAt(n, hash, j + 1), TotalAt(j + 1))
  {
    hide UpdateTables;
    hide H.Record;
    hide HeapAt;
    TotalNext(n, j);
    hide TotalAt;
    FillOne(j, decay, TotalAt(j + 1));
    FilledValues(j + 1);
    PlacesOf(j);
    RecordAt(n, hash, j);
    hide Filled;
  }

  lemma LobbyStep(n: seq<string>, hash: string -> nat, decay: real)
    requires Names(n) && decay > 0.0
    ensures Complete(Filled(6), 1) && ValidKey(ITEM, 1)
    ensures Once(Top(Filled(6), HeapAt(n, hash, 6), 162), UseAt(n, 6), decay, hash, 1) == Top(Lobbied(), HeapAt(n, hash, 7), 177)
  {
    hide UpdateTables;
    hide Filled;
    hide Lobbied;
    LobbyOne(decay, 177);
  }

  lemma ReturnStep(n: seq<string>, hash: string -> nat, decay: real)
    requires Names(n) && decay > 0.0
    ensures Complete(Lobbied(), 1) && ValidKey(ITEM, 1)
    ensures Once(Top(Lobbied(), HeapAt(n, hash, 7), 177), UseAt(n, 7), decay, hash, 1) == Top(Returned(), HeapAt(n, hash, 8), 188)
  {
    hide UpdateTables;
    hide Filled;
    hide Lobbied;
    hide HeapAt;
    hide H.Record;
    hide Alt;
    ReturnOne(decay);
    RecordReturned(n, hash);
    assert Index(ITEM, 0, 1) == 0 && Returned()[Heavy(0, 0, 0)].count == 41;
  }

  lemma DropStep(n: seq<string>, hash: string -> nat, decay: real)
    requires Names(n) && decay > 0.0
    ensures Complete(Returned(), 1) && ValidKey(ITEM, 1)
    ensures Once(Top(Returned(), HeapAt(n, hash, 8), 188), UseAt(n, 8), decay, hash, 1)
         == Top(Returned()[Heavy(1, 1, 0) := Entry(23, 1)], HeapAt(n, hash, 9), 189)
  {
    hide UpdateTables;
    hide Returned;
    hide HeapAt;
    hide H.Record;
    hide Alt;
    BumpOne(decay, 189);
    RecordDropped(n, hash);
    AltOfTwo(1, 0);
  }

  /** The run reaches these states. */
  lemma {:induction false} RunAt(n: seq<string>, hash: string -> nat, decay: real, j: nat)
    requires Names(n) && decay > 0.0 && j <= 9
    ensures ValidUses(Uses(n, j), 1)
    ensures RunTop(Uses(n, j), 5, decay, hash, 1) == Top(SlotsAt(j), HeapAt(n, hash, j), TotalAt(j))
  {
    hide Once;
    hide HeapAt;
    hide SlotsAt;
    if j == 0 {
      AtStart(n, hash);
    } else {
      RunAt(n, hash, decay, j - 1);
      TotalNext(n, j - 1);
      assert Uses(n, j)[..j - 1] == Uses(n, j - 1);
      OnceAt(n, hash, decay, j - 1);
    }
  }

  lemma AtStart(n: seq<string>, hash: string -> nat)
    requires |n| == 7
    ensures SlotsAt(0) == Fresh(1) && HeapAt(n, hash, 0) == Unused(5)
  {
  }

  lemma NotOwnHere(n: seq<string>, hash: string -> nat, decay: real)
    requires Names(n) && decay > 0.0
    ensures Complete(SlotsAt(7), 1) && ValidKey(ITEM, 1) && !TouchesOwn(SlotsAt(7), ITEM, 11, decay, 0.0, 188, 1)
  {
    hide RunTop;
    hide Run;
    hide TouchesOwn;
    hide UpdateTables;
    hide Alt;
    hide Inv;
    RunAt(n, hash, decay, 7);
    RunTopTables(Uses(n, 7), 5, decay, hash, 1);
    RunInv(Calls(Uses(n, 7)), decay, 1);
    ReturnOne(decay);
    TouchedOwner(Lobbied(), ITEM, 11, decay, 0.0, 1.0, Recorded(Calls(Uses(n, 7))), 177, 1);
    Values();
    hide Filled;
    hide Lobbied;
    assert KeyAt(Returned(), Heavy(0, 0, 0), 1).fp == 4;
  }

  /** From an empty structure, for any seven items hashed to these keys: the eighth update hands the
      heap a slot that by then holds another item's entry, with its count of 41, while the item's
      own entry has 22; the ninth records 23, and the heap loses its order. */
  lemma HeapGetsForeignCount(n: seq<string>, hash: string -> nat, decay: real)
    requires Names(n) && decay > 0.0
    ensures ValidUses(Uses(n, 8), 1) && ValidUses(Uses(n, 9), 1)
    ensures var top := RunTop(Uses(n, 8), 5, decay, hash, 1);
            && top.slots[Heavy(0, 0, 0)] == Entry(41, 4) && top.slots[Heavy(1, 1, 0)] == Entry(22, 1)
            && top.heap[4] == H.Bucket(41, Some(n[6]), hash(n[6])) && H.Ordered(top.heap)
    ensures !H.Ordered(RunTop(Uses(n, 9), 5, decay, hash, 1).heap)
    ensures Complete(SlotsAt(7), 1) && ValidKey(ITEM, 1) && !TouchesOwn(SlotsAt(7), ITEM, 11, decay, 0.0, 188, 1)
  {
    hide TouchesOwn;
    hide RunTop;
    hide SlotsAt;
    hide HeapAt;
    hide H.Ordered;
    NotOwnHere(n, hash, decay);
    RunAt(n, hash, decay, 8);
    RunAt(n, hash, decay, 9);
    RecordDropped(n, hash);
    AtEight(n, hash);
  }

  lemma AtEight(n: seq<string>, hash: string -> nat)
    requires |n| == 7
    ensures var s := SlotsAt(8);
            && Heavy(0, 0, 0) in s && s[Heavy(0, 0, 0)] == Entry(41, 4) && Heavy(1, 1, 0) in s && s[Heavy(1, 1, 0)] == Entry(22, 1)
    ensures HeapAt(n, hash, 8)[4] == H.Bucket(41, Some(n[6]), hash(n[6]))
  {
    hide Filled;
  }

  // ---- one bucket per table: a contested lobby entry ----

  /** With one bucket every item has the same six slots. */
  lemma OneBucket(fp: nat)
    ensures Size(0) == 1 && ValidKey(Key(fp, 0), 0)
    ensures forall c :: 0 <= c < 4 ==> HeavySlot(Key(fp, 0), c, 0) == Heavy(c / 2, 0, c % 2)
    ensures forall t :: 0 <= t < 2 ==> LobbySlot(Key(fp, 0), t, 0) == Lobby(t, 0)
    ensures forall t :: 0 <= t < 2 ==> Index(Key(fp, 0), t, 0) == 0
  {
    hide Alt;
  }

  /** Four items of weight 1000 fill the heavy slots, two of weight 1 the lobbies. */
  ghost function Packed(n: nat): (s: Slots)
    requires n <= 6
  {
    imap p | ValidPos(p, 0) ::
      if p.Heavy? then (if 2 * p.t + p.j < n then Entry(1000, 2 + 2 * (2 * p.t + p.j)) else EMPTY)
      else if 4 + p.t < n then Entry(1, 10 + 2 * p.t) else EMPTY
  }

  lemma PackedValues(n: nat)
    requires n <= 6
    ensures Complete(Packed(n), 0) && Size(0) == 1
    ensures forall c :: 0 <= c < 4 ==> Packed(n)[Heavy(c / 2, 0, c % 2)] == if c < n then Entry(1000, 2 + 2 * c) else EMPTY
    ensures forall t :: 0 <= t < 2 ==> Packed(n)[Lobby(t, 0)] == if 4 + t < n then Entry(1, 10 + 2 * t) else EMPTY
  {
  }

  function Weight(n: nat): (w: nat) { if n < 4 then 1000 else if n < 6 then 1 else 100 }

  lemma {:induction false} FirstEmptyIs(s: Slots, k: Key, c: nat, n: nat, bits: nat)
    requires c <= n <= 4 && (n < 4 ==> !Live(s, HeavySlot(k, n, bits)))
    requires forall b :: c <= b < n ==> Live(s, HeavySlot(k, b, bits))
    ensures FirstEmpty(s, k, c, bits) == n
    decreases 4 - c
  {
    hide HeavySlot;
    if c < n { FirstEmptyIs(s, k, c + 1, n, bits); }
  }

  lemma {:induction false} FirstHoldingIs(s: Slots, k: Key, c: nat, bits: nat)
    requires c <= 4 && forall b :: c <= b < 4 ==> !Holds(s, HeavySlot(k, b, bits), k.fp)
    ensures FirstHolding(s, k, c, bits) == 4
    decreases 4 - c
  {
    hide HeavySlot;
    if c < 4 { FirstHoldingIs(s, k, c + 1, bits); }
  }

  lemma PackHeavy(n: nat, decay: real, total: nat)
    requires n < 4 && decay > 0.0
    ensures Complete(Packed(n), 0) && ValidKey(Key(2 + 2 * n, 0), 0)
    ensures UpdateTables(Packed(n), Key(2 + 2 * n, 0), 1000, decay, 0.0, 1.0, total, 0).slots == Packed(n + 1)
  {
    hide Alt;
    hide FirstHolding;
    hide FirstEmpty;
    var s, k := Packed(n), Key(2 + 2 * n, 0);
    PackedValues(n);
    OneBucket(k.fp);
    PackedNext(n);
    hide Packed;
    hide HeavySlot;
    FirstHoldingIs(s, k, 0, 0);
    FirstEmptyIs(s, k, 0, n, 0);
  }

  lemma PackedNext(n: nat)
    requires n < 6
    ensures n < 4 ==> Packed(n)[Heavy(n / 2, 0, n % 2) := Entry(1000, 2 + 2 * n)] == Packed(n + 1)
    ensures n >= 4 ==> Packed(n)[Lobby(n - 4, 0) := Entry(1, 2 + 2 * n)] == Packed(n + 1)
  {
  }

  lemma PackLobby(n: nat, decay: real, total: nat)
    requires 4 <= n < 6 && decay > 0.0
    ensures Complete(Packed(n), 0) && ValidKey(Key(2 + 2 * n, 0), 0)
    ensures UpdateTables(Packed(n), Key(2 + 2 * n, 0), 1, decay, 0.0, 1.0, total, 0).slots == Packed(n + 1)
  {
    hide Alt;
    hide FirstHolding;
    hide FirstEmpty;
    hide Packed;
    hide HeavySlot;
    hide LobbySlot;
    var s, k := Packed(n), Key(2 + 2 * n, 0);
    PackedValues(n);
    OneBucket(k.fp);
    PackedNext(n);
    NoneFound(s, k, 0, 0);
    assert CheckLobby(s, k, 1, 1, 1.0, total, 0) == Outcome(s, Nowhere);
    var l := Lobby(n - 4, 0);
    assert EnterLobby(s, k, 1, n - 4, 1.0, total, 0).slots == s[l := Entry(0, k.fp)][l := Entry(1, k.fp)];
    assert s[l := Entry(0, k.fp)][l := Entry(1, k.fp)] == Packed(n + 1);
  }

  function CallAt(j: nat): (c: Call) {
    if j < 6 then Call(Key(2 + 2 * j, 0), Weight(j), 0.0, 1.0)
    else if j == 6 then Call(Key(14, 0), 100, 0.0, 0.5)
    else Call(Key(16, 0), 1, 1.0, 0.0)
  }

  function CallsTo(j: nat): (cs: seq<Call>)
    ensures |cs| == j && forall i :: 0 <= i < j ==> cs[i] == CallAt(i)
  {
    seq(j, i requires 0 <= i < j => CallAt(i))
  }

  lemma ValidCallsTo(j: nat)
    ensures ValidCalls(CallsTo(j), 0)
  {
  }

  lemma {:induction false} PackRun(decay: real, j: nat)
    requires decay > 0.0 && j <= 6
    ensures ValidCalls(CallsTo(j), 0) && Run(CallsTo(j), decay, 0) == Packed(j)
  {
    hide UpdateTables;
    ValidCallsTo(j);
    if j == 0 {
      assert Packed(0) == Fresh(0);
    } else {
      hide Packed;
      PackRun(decay, j - 1);
      assert CallsTo(j)[..j - 1] == CallsTo(j - 1);
      if j - 1 < 4 {
        PackHeavy(j - 1, decay, Total(CallsTo(j)));
      } else {
        PackLobby(j - 1, decay, Total(CallsTo(j)));
      }
    }
  }

  /** A count of 1 decays to 0 under a weight of 100, and 99 of it are left. */
  lemma HeavyBlow(decay: real)
    requires decay > 0.0
    ensures Decayed(decay, 1, 100, 0.0) == 0 && Replacing(decay, 1, 100) == 99
  {
    assert ExpDecay(decay, 0) == 0.0 && Pow(decay, 0) == 1.0 && ExpDecay(decay, 1) == 1.0;
  }

  lemma AboveStep(decay: real, total: nat)
    requires decay > 0.0
    ensures Complete(Packed(6), 0) && ValidKey(Key(14, 0), 0)
    ensures UpdateTables(Packed(6), Key(14, 0), 100, decay, 0.0, 0.5, total, 0)
         == Outcome(Packed(6)[Lobby(0, 0) := Entry(99, 14)], Nowhere)
  {
    hide Alt;
    hide Decayed;
    hide Replacing;
    hide Kickout;
    var s, k := Packed(6), Key(14, 0);
    PackedValues(6);
    OneBucket(14);
    hide Packed;
    hide HeavySlot;
    hide LobbySlot;
    hide FirstHolding;
    hide FirstEmpty;
    NoneFound(s, k, 0, 0);
    HeavyBlow(decay);
    assert s[Heavy(0, 0, 0)] == Entry(1000, 2) && s[Heavy(0, 0, 1)] == Entry(1000, 4) by {
      assert Heavy(0 / 2, 0, 0 % 2) == Heavy(0, 0, 0) && Heavy(1 / 2, 0, 1 % 2) == Heavy(0, 0, 1);
    }
    assert !Promotes(99, 1000, 0.5);
    UpdateIsContest(s, k, 100, decay, 0.0, 0.5, total, 0);
  }

  lemma RunToSeven(decay: real)
    requires decay > 0.0
    ensures ValidCalls(CallsTo(7), 0) && Run(CallsTo(7), decay, 0) == Packed(6)[Lobby(0, 0) := Entry(99, 14)]
  {
    hide UpdateTables;
    hide Packed;
    PackRun(decay, 6);
    ValidCallsTo(7);
    assert CallsTo(7)[..6] == CallsTo(6);
    AboveStep(decay, Total(CallsTo(7)));
  }

  /** From an empty structure: the seventh update leaves a lobby counter of 99. */
  lemma LobbyAboveThreshold(decay: real)
    requires decay > 0.0
    ensures ValidCalls(CallsTo(7), 0) && Run(CallsTo(7), decay, 0)[Lobby(0, 0)] == Entry(99, 14)
  {
    hide Run;
    hide Packed;
    RunToSeven(decay);
    ValidCallsTo(7);
  }

  lemma {:induction false} PowAtMostOne(x: real, n: nat)
    requires 0.0 < x <= 1.0
    ensures 0.0 < Pow(x, n) <= 1.0
  {
    if n > 0 {
      PowAtMostOne(x, n - 1);
      SmallProduct(x, Pow(x, n - 1));
    }
  }

  lemma SmallProduct(x: real, p: real)
    requires 0.0 < x <= 1.0 && 0.0 < p <= 1.0
    ensures 0.0 < x * p <= 1.0
  {
    var y := 1.0 - x;
    assert y * p >= 0.0;
    assert x * p + y * p == p;
  }

  /** A draw of 1 decays nothing when the decay base is at least 1. */
  lemma Survives(decay: real)
    requires decay >= 1.0
    ensures Decayed(decay, 99, 1, 1.0) == 99
  {
    PowAtMostOne(1.0 / decay, 99);
  }

  lemma ForeignStep(decay: real, total: nat)
    requires decay >= 1.0
    ensures var s := Packed(6)[Lobby(0, 0) := Entry(99, 14)];
            && Complete(s, 0) && ValidKey(Key(16, 0), 0) && Contests(s, Key(16, 0), 0)
            && UpdateTables(s, Key(16, 0), 1, decay, 1.0, 0.0, total, 0).touched == HeavyOf(0, 0)
  {
    hide Alt;
    hide UpdateTables;
    hide Contest;
    var s, k := Packed(6)[Lobby(0, 0) := Entry(99, 14)], Key(16, 0);
    PackedValues(6);
    OneBucket(16);
    hide Packed;
    hide HeavySlot;
    hide LobbySlot;
    hide FirstHolding;
    hide FirstEmpty;
    NoneFound(s, k, 0, 0);
    assert s[Heavy(0, 0, 0)] == Entry(1000, 2) && s[Heavy(0, 0, 1)] == Entry(1000, 4) by {
      assert Heavy(0 / 2, 0, 0 % 2) == Heavy(0, 0, 0) && Heavy(1 / 2, 0, 1 % 2) == Heavy(0, 0, 1);
    }
    ForeignContest(s, decay, total);
    UpdateIsContest(s, k, 1, decay, 1.0, 0.0, total, 0);
  }

  lemma ForeignContest(s: Slots, decay: real, total: nat)
    requires decay >= 1.0 && Complete(s, 0) && ValidKey(Key(16, 0), 0) && Lobby(0, 0) in s && s[Lobby(0, 0)] == Entry(99, 14)
    requires Heavy(0, 0, 0) in s && Heavy(0, 0, 1) in s && s[Heavy(0, 0, 0)].count == 1000 == s[Heavy(0, 0, 1)].count
    ensures Contest(s, Key(16, 0), 1, decay, 1.0, 0.0, total, 0).touched == HeavyOf(0, 0)
  {
    hide Alt;
    hide Decayed;
    hide Replacing;
    hide Kickout;
    Survives(decay);
    assert s[Lobby(0, 0) := Entry(99, 14)] == s;
    assert Victim(s, 0, 0) == Heavy(0, 0, 0) && Promotes(99, 1000, 0.0);
    assert TryPromote(s, Key(16, 0), 99, 0, 0.0, total, 0).touched == HeavyOf(0, 0);
  }

  /** From an empty structure: the eighth update hands the heap a slot for an item that has no
      entry at all, because the contested entry survived and was promoted. */
  lemma HeapGetsAbsentItem(decay: real)
    requires decay >= 1.0
    ensures ValidCalls(CallsTo(7), 0) && ValidKey(Key(16, 0), 0)
    ensures var o := UpdateTables(Run(CallsTo(7), decay, 0), Key(16, 0), 1, decay, 1.0, 0.0, Total(CallsTo(8)), 0);
            o.touched == HeavyOf(0, 0) && Absent(o.slots, Key(16, 0), 0)
  {
    hide Run;
    hide UpdateTables;
    hide Packed;
    hide Inv;
    hide Contests;
    hide Full;
    hide Absent;
    hide Alt;
    hide Index;
    var s, k := Packed(6)[Lobby(0, 0) := Entry(99, 14)], Key(16, 0);
    RunToSeven(decay);
    assert CallsTo(8)[..7] == CallsTo(7);
    var n := Total(CallsTo(8));
    ForeignStep(decay, n);
    RunInv(CallsTo(7), decay, 0);
    ForeignAbsent(s, decay, Recorded(CallsTo(7)), Total(CallsTo(7)));
  }

  lemma ForeignAbsent(s: Slots, decay: real, keys: iset<Key>, total: nat)
    requires decay >= 1.0 && s == Packed(6)[Lobby(0, 0) := Entry(99, 14)]
    requires Inv(s, keys, total, 0) && Complete(s, 0) && ValidKey(Key(16, 0), 0) && Contests(s, Key(16, 0), 0)
    ensures Absent(UpdateTables(s, Key(16, 0), 1, decay, 1.0, 0.0, total + 1, 0).slots, Key(16, 0), 0)
  {
    hide UpdateTables;
    hide Packed;
    hide Inv;
    hide Alt;
    hide Decayed;
    hide Index;
    hide Contest;
    hide HeavySlot;
    hide FirstHolding;
    hide FirstEmpty;
    var k := Key(16, 0);
    OneBucket(16);
    InvGrows(s, keys, total, k, 1, 0);
    NotHeld(s, k, 0);
    NotRecorded(s, k, 0);
    Survives(decay);
    ContestOwner(s, k, 1, decay, 1.0, 0.0, keys + iset{k}, total + 1, 0);
    UpdateIsContest(s, k, 1, decay, 1.0, 0.0, total + 1, 0);
  }

  // ---- decay ----

  /** A weighted decay that leaves the count as it was: base 1.5, count 3, weight 2. */
  lemma SearchLeavesThree()
    ensures MinDecay(1.5, 3).Floor == 2 && ExpDecay(1.5, 3).Floor == 4
    ensures forall roll: real :: Decayed(1.5, 3, 2, roll) == 3
  {
    assert Pow(1.5, 0) == 1.0 && Pow(1.5, 1) == 1.5 && Pow(1.5, 2) == 2.25;
    assert ExpDecay(1.5, 0) == 0.0 && ExpDecay(1.5, 1) == 1.0 && ExpDecay(1.5, 2) == 2.5;
    assert ExpDecay(1.5, 3) == 4.75;
    SearchRange(1.5, 3, 2);
  }
}
