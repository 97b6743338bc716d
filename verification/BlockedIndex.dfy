/** Clients waiting for keys: the table of keys of each client and the waiting list of each key
    are two views of one relation, with counts kept beside them. */
module BlockedIndex {
  import opened Wrappers

  datatype Client = Client(id: int)
  type Key = string

  type ClientKeys = map<Client, set<Key>>   // bstate.keys of each client; absent is empty
  type Waiting = map<Key, seq<Client>>      // db->blocking_keys
  type Counts = map<Key, nat>               // db->blocking_keys_unblock_on_nokey

  function KeysOf(ck: ClientKeys, c: Client): (ks: set<Key>) { if c in ck then ck[c] else {} }

  function Waiters(w: Waiting, k: Key): (cs: seq<Client>) { if k in w then w[k] else [] }

  /** A key is in a client's table iff the client is in the key's list. */
  ghost predicate Inverse(ck: ClientKeys, w: Waiting) {
    forall c, k :: k in KeysOf(ck, c) <==> c in Waiters(w, k)
  }

  /** Lists are never empty, and a client is in a list at most once. */
  ghost predicate Lists(w: Waiting) { forall k :: k in w ==> w[k] != [] && Distinct(w[k]) }

  /** How many clients of a list asked to be woken when the key goes away. */
  function NokeyIn(s: seq<Client>, nokey: set<Client>): (n: nat) {
    if s == [] then 0 else NokeyIn(s[..|s| - 1], nokey) + (if s[|s| - 1] in nokey then 1 else 0)
  }

  ghost predicate NokeyCounted(w: Waiting, nokey: set<Client>, counts: Counts) {
    forall k :: (k in counts <==> NokeyIn(Waiters(w, k), nokey) > 0) && (k in counts ==> counts[k] == NokeyIn(Waiters(w, k), nokey))
  }

  ghost predicate Index(ck: ClientKeys, w: Waiting, nokey: set<Client>, counts: Counts) {
    Inverse(ck, w) && Lists(w) && NokeyCounted(w, nokey, counts)
  }

  // ---- lists ----

  /** A list without a client, the others in their order. */
  function Without(s: seq<Client>, c: Client): (r: seq<Client>) {
    if s == [] then []
    else
      var r := Without(s[..|s| - 1], c);
      if s[|s| - 1] == c then r else r + [s[|s| - 1]]
  }

  lemma {:induction false} WithoutKeeps(s: seq<Client>, c: Client)
    requires Distinct(s)
    ensures Distinct(Without(s, c)) && (forall d :: d in Without(s, c) <==> d in s && d != c)
  {
    if s != [] {
      var n := |s| - 1;
      WithoutKeeps(s[..n], c);
      assert s == s[..n] + [s[n]];
      assert s[n] !in s[..n];
    }
  }

  lemma {:induction false} WithoutCounts(s: seq<Client>, c: Client, nokey: set<Client>)
    requires Distinct(s)
    ensures NokeyIn(Without(s, c), nokey) == NokeyIn(s, nokey) - (if c in s && c in nokey then 1 else 0)
  {
    if s != [] {
      var n := |s| - 1;
      WithoutCounts(s[..n], c, nokey);
      assert s == s[..n] + [s[n]] && s[n] !in s[..n];
      var r := Without(s[..n], c);
      assert (r + [s[n]])[..|r|] == r;
    }
  }

  lemma PushCounts(s: seq<Client>, c: Client, nokey: set<Client>)
    ensures NokeyIn(s + [c], nokey) == NokeyIn(s, nokey) + if c in nokey then 1 else 0
  {
    assert (s + [c])[..|s|] == s;
  }

  lemma {:induction false} CountOthers(s: seq<Client>, a: set<Client>, b: set<Client>)
    requires forall c :: c in s ==> (c in a <==> c in b)
    ensures NokeyIn(s, a) == NokeyIn(s, b)
  {
    if s != [] { CountOthers(s[..|s| - 1], a, b); }
  }

  // ---- adding and removing one pair ----

  function AddWaiter(w: Waiting, k: Key, c: Client): (r: Waiting) { w[k := Waiters(w, k) + [c]] }

  function AddNokey(counts: Counts, k: Key, asked: bool): (r: Counts) {
    if !asked then counts else if k in counts then counts[k := counts[k] + 1] else counts[k := 1]
  }

  function RemoveWaiter(w: Waiting, k: Key, c: Client): (r: Waiting) {
    var l := Without(Waiters(w, k), c);
    if l == [] then w - {k} else w[k := l]
  }

  /** The whole entry goes with the list; otherwise a client that asked is uncounted. */
  function RemoveNokey(w: Waiting, counts: Counts, k: Key, c: Client, asked: bool): (r: Counts) {
    if Without(Waiters(w, k), c) == [] then counts - {k}
    else if !asked || k !in counts then counts
    else if counts[k] <= 1 then counts - {k}
    else counts[k := counts[k] - 1]
  }

  lemma AddPair(ck: ClientKeys, w: Waiting, c: Client, k: Key)
    requires Inverse(ck, w) && Lists(w) && k !in KeysOf(ck, c)
    ensures Inverse(ck[c := KeysOf(ck, c) + {k}], AddWaiter(w, k, c)) && Lists(AddWaiter(w, k, c))
  {
    var ck2, w2 := ck[c := KeysOf(ck, c) + {k}], AddWaiter(w, k, c);
    assert c !in Waiters(w, k);
    forall d, j ensures j in KeysOf(ck2, d) <==> d in Waiters(w2, j) {
      assert j in KeysOf(ck, d) <==> d in Waiters(w, j);
    }
  }

  lemma RemovePair(ck: ClientKeys, w: Waiting, c: Client, k: Key)
    requires Inverse(ck, w) && Lists(w) && k in KeysOf(ck, c)
    ensures k in w && c in w[k]
    ensures Inverse(ck[c := KeysOf(ck, c) - {k}], RemoveWaiter(w, k, c)) && Lists(RemoveWaiter(w, k, c))
  {
    hide Without;
    var ck2, w2 := ck[c := KeysOf(ck, c) - {k}], RemoveWaiter(w, k, c);
    assert c in Waiters(w, k);
    WithoutKeeps(w[k], c);
    forall d, j ensures j in KeysOf(ck2, d) <==> d in Waiters(w2, j) {
      assert j in KeysOf(ck, d) <==> d in Waiters(w, j);
    }
  }

  /** Adding a key to a client that does not wait for it yet; `nokey` already says what the client
      asked for. */
  lemma AddKeeps(ck: ClientKeys, w: Waiting, nokey: set<Client>, counts: Counts, c: Client, k: Key)
    requires Index(ck, w, nokey, counts) && k !in KeysOf(ck, c)
    ensures Index(ck[c := KeysOf(ck, c) + {k}], AddWaiter(w, k, c), nokey, AddNokey(counts, k, c in nokey))
  {
    hide NokeyIn;
    AddPair(ck, w, c, k);
    PushCounts(Waiters(w, k), c, nokey);
    hide Inverse;
    hide Lists;
    var w2, n2 := AddWaiter(w, k, c), AddNokey(counts, k, c in nokey);
    assert forall j :: j != k ==> Waiters(w2, j) == Waiters(w, j);
    assert k in counts <==> NokeyIn(Waiters(w, k), nokey) > 0;
    assert NokeyCounted(w2, nokey, n2);
  }

  /** Removing one also finds the entry that counts the client. */
  lemma RemoveKeeps(ck: ClientKeys, w: Waiting, nokey: set<Client>, counts: Counts, c: Client, k: Key)
    requires Index(ck, w, nokey, counts) && k in KeysOf(ck, c)
    ensures k in w && (c in nokey ==> k in counts)
    ensures Index(ck[c := KeysOf(ck, c) - {k}], RemoveWaiter(w, k, c), nokey, RemoveNokey(w, counts, k, c, c in nokey))
  {
    hide NokeyIn;
    hide Without;
    RemovePair(ck, w, c, k);
    WithoutCounts(w[k], c, nokey);
    NoneIn(nokey);
    AskedIsCounted(w[k], c, nokey);
    hide Inverse;
    hide Lists;
    var w2, n2 := RemoveWaiter(w, k, c), RemoveNokey(w, counts, k, c, c in nokey);
    assert Waiters(w2, k) == Without(w[k], c);
    assert forall j :: j != k ==> Waiters(w2, j) == Waiters(w, j);
    assert k in counts <==> NokeyIn(Waiters(w, k), nokey) > 0;
    assert NokeyCounted(w2, nokey, n2);
  }

  lemma NoneIn(nokey: set<Client>)
    ensures NokeyIn([], nokey) == 0
  {
  }

  lemma {:induction false} AskedIsCounted(s: seq<Client>, c: Client, nokey: set<Client>)
    ensures c in s && c in nokey ==> NokeyIn(s, nokey) > 0
  {
    if s != [] {
      AskedIsCounted(s[..|s| - 1], c, nokey);
      assert s == s[..|s| - 1] + [s[|s| - 1]];
    }
  }

  /** What a client asked for does not matter while it waits for nothing. */
  lemma NokeyOfIdle(ck: ClientKeys, w: Waiting, nokey: set<Client>, counts: Counts, c: Client, asked: bool)
    requires Index(ck, w, nokey, counts) && KeysOf(ck, c) == {}
    ensures Index(ck, w, if asked then nokey + {c} else nokey - {c}, counts)
  {
    hide NokeyIn;
    var now := if asked then nokey + {c} else nokey - {c};
    forall k ensures NokeyIn(Waiters(w, k), nokey) == NokeyIn(Waiters(w, k), now) {
      assert k !in KeysOf(ck, c);
      CountOthers(Waiters(w, k), nokey, now);
    }
    hide Inverse;
    hide Lists;
    assert NokeyCounted(w, now, counts) by {
      forall k
        ensures (k in counts <==> NokeyIn(Waiters(w, k), now) > 0) && (k in counts ==> counts[k] == NokeyIn(Waiters(w, k), now))
      {
        assert NokeyIn(Waiters(w, k), nokey) == NokeyIn(Waiters(w, k), now);
      }
    }
  }
}
