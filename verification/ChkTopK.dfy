/** The top-K object: tables, lobby and heap are arrays changed in place. */
module ChkTopKs {
  import opened Wrappers
  import opened ChkIndex
  import opened ChkTables
  import opened ChkDecay
  import opened ChkUpdate
  import opened ChkRuns
  import H = ChkHeap

  const COUNTER_MAX: nat := 0xFFFF_FFFF_FFFF_FFFF

  /** No counter has reached the value that stands for "no minimum yet". */
  ghost predicate NoWrap(s: Slots) {
    forall p :: p in s ==> s[p].count < COUNTER_MAX
  }

  class ChkTopK {
    const bits: nat                 // numbuckets is Size(bits)
    const heavy: array3<Entry>      // table, bucket, slot
    const lobby: array2<Entry>      // table, bucket
    const heap: array<H.Bucket>
    const decay: real
    const lutDecayExp: seq<real>
    const lutMinDecay: seq<real>
    const lutDecayProb: seq<real>
    const hash: string -> nat       // the 64-bit hash of an item
    const heapHash: string -> nat   // the same with the seed of the heap
    var total: nat
    ghost var keys: iset<Key>       // items recorded so far, as the tables see them

    ghost predicate Shaped() {
      && heavy.Length0 == 2 && heavy.Length1 == Size(bits) && heavy.Length2 == 2
      && lobby.Length0 == 2 && lobby.Length1 == Size(bits)
      && heap.Length > 0 && decay > 0.0
      && ValidTables(lutDecayExp, lutMinDecay, lutDecayProb, decay)
    }

    ghost function View(): (s: Slots)
      requires Shaped()
      reads heavy, lobby
      ensures Complete(s, bits)
    {
      imap p | ValidPos(p, bits) :: if p.Heavy? then heavy[p.t, p.i, p.j] else lobby[p.t, p.i]
    }

    ghost predicate Valid()
      reads this, heavy, lobby, heap
    {
      Shaped() && Inv(View(), keys, total, bits) && H.Distinct(heap[..], heapHash)
    }

    function KeyFor(item: string): (k: Key)
      ensures ValidKey(k, bits)
    {
      Key(hash(item) % 0x1_0000, (hash(item) / 0x1_0000_0000) % Size(bits))
    }

    /** The fingerprint is the low 16 bits of the hash, the first bucket the low bits of its high
        half; the bits between are not used. */
    lemma KeyParts(item: string, low: nat, middle: nat, high: nat)
      requires hash(item) == low + 65536 * middle + 4294967296 * high && low < 65536 && middle < 65536
      ensures KeyFor(item) == Key(low, high % Size(bits))
    {
      hide Size;
      LowPart(low, middle + 65536 * high);
      HighPart(low + 65536 * middle, high);
    }

    constructor (k: nat, bits: nat, decay: real, hash: string -> nat, heapHash: string -> nat)
      requires k > 0 && decay > 0.0
      ensures Valid() && total == 0 && heap.Length == k && keys == iset{}
      ensures View() == Fresh(bits) && H.Ordered(heap[..])
      ensures forall i :: 0 <= i < k ==> heap[i] == H.Bucket(0, None, 0)
    {
      hide Inv;
      hide ValidTables;
      hide Size;
      hide Fresh;
      this.bits, this.decay, this.hash, this.heapHash := bits, decay, hash, heapHash;
      heavy := new Entry[2, Size(bits), 2]((t, i, j) => EMPTY);
      lobby := new Entry[2, Size(bits)]((t, i) => EMPTY);
      heap := new H.Bucket[k](i => H.Bucket(0, None, 0));
      var exp, min, prob := FillTables(decay);
      lutDecayExp, lutMinDecay, lutDecayProb := exp[..], min[..], prob[..];
      total := 0;
      keys := iset{};
      new;
      FreshInv(bits);
      FreshView();
    }

    lemma FreshView()
      requires Shaped() && (forall t: nat, i: nat, j: nat :: ValidPos(Heavy(t, i, j), bits) ==> heavy[t, i, j] == EMPTY)
      requires forall t: nat, i: nat :: ValidPos(Lobby(t, i), bits) ==> lobby[t, i] == EMPTY
      ensures View() == Fresh(bits)
    {
    }

    function HeavyAt(t: nat, i: nat, j: nat): (e: Entry)
      requires Shaped() && ValidPos(Heavy(t, i, j), bits)
      reads heavy, lobby
      ensures e == View()[Heavy(t, i, j)]
    {
      heavy[t, i, j]
    }

    function LobbyAt(t: nat, i: nat): (e: Entry)
      requires Shaped() && ValidPos(Lobby(t, i), bits)
      reads heavy, lobby
      ensures e == View()[Lobby(t, i)]
    {
      lobby[t, i]
    }

    method SetHeavy(t: nat, i: nat, j: nat, e: Entry)
      requires Shaped() && ValidPos(Heavy(t, i, j), bits)
      modifies heavy
      ensures View() == old(View())[Heavy(t, i, j) := e]
    {
      heavy[t, i, j] := e;
    }

    method SetLobby(t: nat, i: nat, e: Entry)
      requires Shaped() && ValidPos(Lobby(t, i), bits)
      modifies lobby
      ensures View() == old(View())[Lobby(t, i) := e]
    {
      lobby[t, i] := e;
    }

    /** Bumps the item if it is heavy, else puts it in the first free heavy slot. */
    method CheckHeavyEntries(k: Key, weight: nat) returns (r: Touched)
      requires Shaped() && ValidKey(k, bits)
      modifies heavy
      ensures Outcome(View(), r) == CheckHeavy(old(View()), k, weight, bits)
    {
      hide View;
      hide FirstHolding;
      hide FirstEmpty;
      hide Index;
      hide ValidTables;
      hide HeavySlot;
      var emptyTable, emptyPos := -1, -1;
      ghost var s := View();
      for i := 0 to 2
        invariant View() == s
        invariant forall c :: 0 <= c < 2 * i ==> !Holds(s, HeavySlot(k, c, bits), k.fp)
        invariant EmptySoFar(s, k, emptyTable, emptyPos, 2 * i)
      {
        var idx := Index(k, i, bits);
        for j := 0 to 2
          invariant View() == s
          invariant forall c :: 0 <= c < 2 * i + j ==> !Holds(s, HeavySlot(k, c, bits), k.fp)
          invariant EmptySoFar(s, k, emptyTable, emptyPos, 2 * i + j)
        {
          HeavySlotAt(k, i, j, bits);
          var e := HeavyAt(i, idx, j);
          if e.count > 0 {
            if e.fp == k.fp {
              assert FirstHolding(s, k, 0, bits) == 2 * i + j;
              SetHeavy(i, idx, j, Entry(e.count + weight, e.fp));
              return HeavyOf(i, j);
            }
          } else if emptyTable == -1 {
            emptyTable, emptyPos := i, j;
          }
        }
      }
      if emptyTable == -1 { return Nowhere; }
      HeavySlotAt(k, emptyTable, emptyPos, bits);
      assert FirstEmpty(s, k, 0, bits) == 2 * emptyTable + emptyPos;
      SetHeavy(emptyTable, Index(k, emptyTable, bits), emptyPos, Entry(weight, k.fp));
      return HeavyOf(emptyTable, emptyPos);
    }

    ghost predicate EmptySoFar(s: Slots, k: Key, t: int, j: int, n: nat) {
      if t == -1 then forall c :: 0 <= c < n ==> Live(s, HeavySlot(k, c, bits))
      else
        && 0 <= t < 2 && 0 <= j < 2 && 2 * t + j < n
        && !Live(s, HeavySlot(k, 2 * t + j, bits))
        && forall c :: 0 <= c < 2 * t + j ==> Live(s, HeavySlot(k, c, bits))
    }

    /** The scan of a bucket for an empty heavy slot or else the one with the least count. */
    method FindVictim(t: nat, i: nat) returns (j: nat)
      requires Shaped() && t < 2 && i < Size(bits) && NoWrap(View())
      ensures j < 2 && Heavy(t, i, j) == Victim(View(), t, i)
    {
      var min, minPos := COUNTER_MAX, -1;
      for c := 0 to 2
        invariant c == 0 ==> min == COUNTER_MAX && minPos == -1
        invariant c >= 1 ==> View()[Heavy(t, i, 0)].count > 0
        invariant c == 1 ==> minPos == 0 && min == View()[Heavy(t, i, 0)].count
        invariant c == 2 ==> View()[Heavy(t, i, 1)].count > 0 && 0 <= minPos < 2 && Heavy(t, i, minPos) == Victim(View(), t, i)
      {
        var e := HeavyAt(t, i, c);
        if e.count == 0 { return c; }
        if e.count < min { min, minPos := e.count, c; }
      }
      return minPos;
    }

    /** The kick-out chain. */
    method KickOut(e: Entry, t: nat, i: nat)
      requires Shaped() && t < 2 && i < Size(bits) && NoWrap(View()) && e.count < COUNTER_MAX
      modifies heavy
      ensures View() == Kickout(old(View()), e, t, i, MAX_KICKS, total, bits)
    {
      hide Victim;
      hide IsHeavyHitter;
      hide Alt;
      hide View;
      hide ValidTables;
      var entry: Entry, table: nat, idx: nat := e, t, i;
      for n := 0 to MAX_KICKS
        invariant NoWrap(View()) && entry.count < COUNTER_MAX && table < 2 && idx < Size(bits)
        invariant Kickout(old(View()), e, t, i, MAX_KICKS, total, bits) == Kickout(View(), entry, table, idx, MAX_KICKS - n, total, bits)
      {
        if !IsHeavyHitter(entry.count, total) { return; }
        table := 1 - table;
        idx := Alt(entry.fp, idx, bits);
        var j := FindVictim(table, idx);
        var out := HeavyAt(table, idx, j);
        SetHeavy(table, idx, j, entry);
        if out.count == 0 { return; }
        entry := out;
      }
    }

    method TryPromoteAndKickout(k: Key, count: nat, t: nat, roll: real) returns (r: Touched)
      requires Shaped() && ValidKey(k, bits) && t < 2 && count >= THRESHOLD && NoWrap(View())
      modifies heavy, lobby
      ensures Outcome(View(), r) == TryPromote(old(View()), k, count, t, roll, total, bits)
    {
      hide Victim;
      hide Kickout;
      hide View;
      hide ValidTables;
      hide Index;
      var idx := Index(k, t, bits);
      var j := FindVictim(t, idx);
      var victim := HeavyAt(t, idx, j);
      if victim.count == 0 {
        SetHeavy(t, idx, j, Entry(count, k.fp));
        return HeavyOf(t, j);
      }
      if victim.count > count {
        var prob := (count - THRESHOLD) as real / (victim.count - THRESHOLD) as real;
        if roll >= prob { return Nowhere; }
      }
      var promoted := LobbyAt(t, idx);
      SetHeavy(t, idx, j, Entry(victim.count, promoted.fp));
      SetLobby(t, idx, EMPTY);
      KickOut(victim, t, idx);
      return HeavyOf(t, j);
    }

    /** Setting the item's lobby counter, with promotion from the threshold on. */
    method RaiseLobby(k: Key, count: nat, t: nat, roll: real) returns (r: Touched)
      requires Shaped() && ValidKey(k, bits) && t < 2 && NoWrap(View())
      modifies heavy, lobby
      ensures Outcome(View(), r) == Raise(old(View()), k, count, t, roll, total, bits)
    {
      hide View;
      hide ValidTables;
      hide Index;
      hide TryPromote;
      var idx := Index(k, t, bits);
      var e := LobbyAt(t, idx);
      if count < THRESHOLD {
        SetLobby(t, idx, Entry(count, e.fp));
        return LobbyOf(t);
      }
      r := TryPromoteAndKickout(k, count, t, roll);
      if r != Nowhere { return r; }
      e := LobbyAt(t, idx);
      SetLobby(t, idx, Entry(THRESHOLD, e.fp));
      return LobbyOf(t);
    }

    method CheckLobbyEntries(k: Key, weight: nat, roll: real) returns (r: Touched)
      requires Shaped() && ValidKey(k, bits) && NoWrap(View())
      modifies heavy, lobby
      ensures Outcome(View(), r) == CheckLobby(old(View()), k, weight, 0, roll, total, bits)
    {
      hide View;
      hide ValidTables;
      hide Index;
      hide Raise;
      for i := 0 to 2
        invariant View() == old(View())
        invariant CheckLobby(View(), k, weight, i, roll, total, bits) == CheckLobby(old(View()), k, weight, 0, roll, total, bits)
      {
        var e := LobbyAt(i, Index(k, i, bits));
        if e.fp != k.fp || e.count == 0 { continue; }
        r := RaiseLobby(k, e.count + weight, i, roll);
        return r;
      }
      return Nowhere;
    }

    method EnterEmptyLobby(k: Key, weight: nat, roll: real) returns (r: Touched)
      requires Shaped() && ValidKey(k, bits) && NoWrap(View())
      modifies heavy, lobby
      ensures Outcome(View(), r) == EnterLobby(old(View()), k, weight, 0, roll, total, bits)
    {
      hide View;
      hide ValidTables;
      hide Index;
      hide Raise;
      for i := 0 to 2
        invariant View() == old(View())
        invariant EnterLobby(View(), k, weight, i, roll, total, bits) == EnterLobby(old(View()), k, weight, 0, roll, total, bits)
      {
        var idx := Index(k, i, bits);
        var e := LobbyAt(i, idx);
        if e.count == 0 {
          SetLobby(i, idx, Entry(0, k.fp));
          r := RaiseLobby(k, weight, i, roll);
          return r;
        }
      }
      return Nowhere;
    }

    /** Both lobby entries taken: the one chosen by the fingerprint decays. */
    method ContestLobby(k: Key, weight: nat, decayRoll: real, roll: real) returns (r: Touched)
      requires Shaped() && ValidKey(k, bits) && NoWrap(View()) && weight > 0 && decayRoll >= 0.0
      requires LobbyBytes(View())
      modifies heavy, lobby
      ensures Outcome(View(), r) == Contest(old(View()), k, weight, decay, decayRoll, roll, total, bits)
    {
      hide View;
      hide Index;
      hide TryPromote;
      hide Decayed;
      hide Replacing;
      hide ValidTables;
      var t := k.fp % 2;
      var idx := Index(k, t, bits);
      var e := LobbyAt(t, idx);
      var c := DecayCounter(lutDecayExp, lutMinDecay, lutDecayProb, decay, e.count, weight, decayRoll);
      var count := c;
      if c == 0 {
        count := ReplacingCount(e.count, weight);
        SetLobby(t, idx, Entry(count, k.fp));
      } else {
        SetLobby(t, idx, Entry(count, e.fp));
      }
      if count < THRESHOLD { return Nowhere; }
      r := TryPromoteAndKickout(k, count, t, roll);
    }

    method ReplacingCount(was: nat, weight: nat) returns (count: nat)
      requires Shaped() && was <= 255 && weight > 0
      ensures count == Replacing(decay, was, weight)
    {
      var steps := lutDecayExp[was].Floor;
      count := if steps >= weight then 1 else if 255 < weight - steps then 255 else weight - steps;
    }

    method UpdateSlots(k: Key, weight: nat, decayRoll: real, roll: real) returns (r: Touched)
      requires Shaped() && ValidKey(k, bits) && NoWrap(View()) && weight > 0 && decayRoll >= 0.0
      requires LobbyBytes(View())
      modifies heavy, lobby
      ensures Outcome(View(), r) == UpdateTables(old(View()), k, weight, decay, decayRoll, roll, total, bits)
    {
      hide View;
      hide ValidTables;
      hide CheckHeavy;
      hide CheckLobby;
      hide EnterLobby;
      hide Contest;
      hide LobbyBytes;
      hide NoWrap;
      NowhereMeansUnchanged(View(), k, weight, roll, total, bits);
      r := CheckHeavyEntries(k, weight);
      if r != Nowhere { return r; }
      r := CheckLobbyEntries(k, weight, roll);
      if r != Nowhere { return r; }
      r := EnterEmptyLobby(k, weight, roll);
      if r != Nowhere { return r; }
      r := ContestLobby(k, weight, decayRoll, roll);
    }

    method UpdateHeap(item: string, touched: Touched) returns (expelled: Option<string>)
      requires Shaped() && touched.HeavyOf? && touched.t < 2 && touched.j < 2
      modifies heap
      ensures H.Recorded(heap[..], expelled) == Listed(old(heap[..]), View(), touched, KeyFor(item), item, heapHash(item), bits)
    {
      hide View;
      hide ValidTables;
      hide Index;
      hide H.Sift;
      hide H.Find;
      var entry := HeavyAt(touched.t, Index(KeyFor(item), touched.t, bits), touched.j);
      if entry.count < heap[0].count { return None; }
      var fp := heapHash(item);
      var i := H.CheckExistInHeap(heap, item, fp);
      ghost var h := heap[..];
      if i >= 0 {
        heap[i] := heap[i].(count := entry.count);
        assert heap[..] == h[i := h[i].(count := entry.count)];
        H.HeapifyDown(heap, i);
        return None;
      }
      expelled := heap[0].item;
      heap[0] := H.Bucket(entry.count, Some(item), fp);
      assert heap[..] == h[0 := H.Bucket(entry.count, Some(item), fp)];
      H.HeapifyDown(heap, 0);
    }

    /** One update. The draws are the values of two calls of the random generator, scaled to
        the unit interval. */
    method Update(item: string, weight: nat, decayRoll: real, roll: real) returns (expelled: Option<string>)
      requires Valid() && total + weight < COUNTER_MAX && decayRoll >= 0.0
      modifies this, heavy, lobby, heap
      ensures Valid() && total == old(total) + weight
      ensures HeavyKept(old(View()), View())
      ensures weight == 0 ==> View() == old(View()) && heap[..] == old(heap[..]) && keys == old(keys) && expelled == None
      ensures weight > 0 ==> keys == old(keys) + iset{KeyFor(item)}
      ensures weight > 0 ==>
                var r := UpdateTables(old(View()), KeyFor(item), weight, decay, decayRoll, roll, total, bits);
                && View() == r.slots && (r.touched.HeavyOf? ==> r.touched.t < 2 && r.touched.j < 2)
                && H.Recorded(heap[..], expelled) == Listed(old(heap[..]), View(), r.touched, KeyFor(item), item, heapHash(item), bits)
      ensures Top(View(), heap[..], total) ==
              Once(old(Top(View(), heap[..], total)), Use(item, Call(KeyFor(item), weight, decayRoll, roll)), decay, heapHash, bits)
      ensures expelled.Some? ==> H.InHeap(old(heap[..]), expelled.value) && !H.InHeap(heap[..], expelled.value)
    {
      hide View;
      hide ValidTables;
      hide Inv;
      hide HeavyKept;
      hide Index;
      hide UpdateTables;
      hide H.Distinct;
      hide H.Record;
      hide H.InHeap;
      hide Listed;
      hide KeyFor;
      hide NoWrap;
      hide LobbyBytes;
      ghost var s, h := View(), heap[..];
      HeavyKeptTrans(s, s, s);
      if weight == 0 { return None; }
      UpdateKeeps(s, KeyFor(item), weight, decay, decayRoll, roll, keys, total, bits);
      Sizes(s, keys, total, bits);
      total := total + weight;
      keys := keys + iset{KeyFor(item)};
      var touched := UpdateSlots(KeyFor(item), weight, decayRoll, roll);
      ListedKeeps(h, View(), touched, KeyFor(item), item, heapHash, bits);
      NotListed(h, View(), touched, KeyFor(item), item, heapHash(item), bits);
      if !touched.HeavyOf? { return None; }
      expelled := UpdateHeap(item, touched);
    }
  }

  ghost predicate LobbyBytes(s: Slots) {
    forall p :: p in s && p.Lobby? ==> s[p].count <= 255
  }

  lemma Sizes(s: Slots, keys: iset<Key>, total: nat, bits: nat)
    requires Inv(s, keys, total, bits) && total < COUNTER_MAX
    ensures NoWrap(s) && LobbyBytes(s)
  {
  }

  lemma NowhereMeansUnchanged(s: Slots, k: Key, weight: nat, roll: real, total: nat, bits: nat)
    requires Complete(s, bits) && ValidKey(k, bits)
    ensures CheckHeavy(s, k, weight, bits).touched == Nowhere ==> CheckHeavy(s, k, weight, bits).slots == s
    ensures CheckLobby(s, k, weight, 0, roll, total, bits).touched == Nowhere ==> CheckLobby(s, k, weight, 0, roll, total, bits).slots == s
    ensures EnterLobby(s, k, weight, 0, roll, total, bits).touched == Nowhere ==> EnterLobby(s, k, weight, 0, roll, total, bits).slots == s
  {
    hide Index;
    hide TryPromote;
    hide Complete;
    assert CheckLobby(s, k, weight, 1, roll, total, bits).touched == Nowhere ==> CheckLobby(s, k, weight, 1, roll, total, bits).slots == s;
    assert EnterLobby(s, k, weight, 1, roll, total, bits).touched == Nowhere ==> EnterLobby(s, k, weight, 1, roll, total, bits).slots == s;
  }

  lemma LowPart(low: nat, rest: nat)
    requires low < 65536
    ensures (low + 65536 * rest) % 65536 == low
  {
  }

  lemma HighPart(low: nat, high: nat)
    requires low < 4294967296
    ensures (low + 4294967296 * high) / 4294967296 == high
  {
  }

  lemma NotListed(h: H.Heap, s: Slots, touched: Touched, k: Key, item: string, fp: nat, bits: nat)
    requires |h| > 0 && Complete(s, bits) && ValidKey(k, bits)
    ensures !touched.HeavyOf? ==> Listed(h, s, touched, k, item, fp, bits) == H.Recorded(h, None)
  {
  }
}
