/** The min-heap that names the top items. */
module ChkHeap {
  import opened Wrappers

  datatype Bucket = Bucket(count: nat, item: Option<string>, fp: nat)

  type Heap = seq<Bucket>

  predicate HasChild(n: nat, p: nat) { n >= 2 && p <= (n - 2) / 2 }

  function Parent(i: nat): (p: nat)
    requires i > 0
    ensures p < i
  {
    (i - 1) / 2
  }

  /** The child with the smaller count, the left one on a tie. */
  function Child(h: Heap, p: nat): (c: nat)
    requires HasChild(|h|, p)
    ensures p < c < |h| && Parent(c) == p
  {
    var c := 2 * p + 1;
    if c + 1 < |h| && h[c].count > h[c + 1].count then c + 1 else c
  }

  lemma ChildIsSmaller(h: Heap, p: nat, d: nat)
    requires HasChild(|h|, p) && 0 < d < |h| && Parent(d) == p
    ensures h[Child(h, p)].count <= h[d].count
  {
    assert d == 2 * p + 1 || d == 2 * p + 2;
  }

  function Swap(h: Heap, i: nat, j: nat): (r: Heap)
    requires i < |h| && j < |h|
    ensures |r| == |h|
  {
    h[i := h[j]][j := h[i]]
  }

  /** Moving the bucket at `p` down while a child is strictly smaller. */
  function SiftOn(h: Heap, p: nat): (r: Heap)
    requires p < |h|
    ensures |r| == |h|
    decreases |h| - p
  {
    if HasChild(|h|, p) && h[Child(h, p)].count < h[p].count then SiftOn(Swap(h, p, Child(h, p)), Child(h, p)) else h
  }

  /** The first move is also made on a tie. */
  function Sift(h: Heap, p: nat): (r: Heap)
    requires p < |h|
    ensures |r| == |h|
  {
    if HasChild(|h|, p) && h[Child(h, p)].count <= h[p].count then SiftOn(Swap(h, p, Child(h, p)), Child(h, p)) else h
  }

  lemma SwapPermutes(h: Heap, i: nat, j: nat)
    requires i < |h| && j < |h|
    ensures multiset(Swap(h, i, j)) == multiset(h)
  {
  }

  lemma {:induction false} SiftOnPermutes(h: Heap, p: nat)
    requires p < |h|
    ensures multiset(SiftOn(h, p)) == multiset(h)
    decreases |h| - p
  {
    hide Child;
    hide Swap;
    if HasChild(|h|, p) && h[Child(h, p)].count < h[p].count {
      SwapPermutes(h, p, Child(h, p));
      SiftOnPermutes(Swap(h, p, Child(h, p)), Child(h, p));
    }
  }

  /** Sifting loses and invents no bucket. */
  lemma SiftPermutes(h: Heap, p: nat)
    requires p < |h|
    ensures multiset(Sift(h, p)) == multiset(h)
  {
    hide Child;
    hide Swap;
    hide SiftOn;
    if HasChild(|h|, p) && h[Child(h, p)].count <= h[p].count {
      SwapPermutes(h, p, Child(h, p));
      SiftOnPermutes(Swap(h, p, Child(h, p)), Child(h, p));
    }
  }

  ghost predicate Above(h: Heap, p: nat, i: nat)
    requires p < |h| && i < |h|
  {
    h[p].count <= h[i].count
  }

  ghost predicate Ordered(h: Heap) {
    forall i :: 1 <= i < |h| ==> Above(h, Parent(i), i)
  }

  /** Ordered except that the bucket at `p` may be too large for its place. */
  ghost predicate OrderedBut(h: Heap, p: nat)
    requires p < |h|
  {
    forall i :: 1 <= i < |h| ==>
      if Parent(i) != p then Above(h, Parent(i), i) else p > 0 ==> Above(h, Parent(p), i)
  }

  lemma SwapDown(h: Heap, p: nat)
    requires p < |h| && OrderedBut(h, p) && HasChild(|h|, p) && h[Child(h, p)].count <= h[p].count
    ensures OrderedBut(Swap(h, p, Child(h, p)), Child(h, p))
  {
    hide Child;
    hide Parent;
    var c := Child(h, p);
    var r := Swap(h, p, c);
    forall i | 1 <= i < |r|
      ensures if Parent(i) != c then Above(r, Parent(i), i) else Above(r, Parent(c), i)
    {
      if Parent(i) == p { ChildIsSmaller(h, p, i); }
      assert Parent(i) != p ==> Above(h, Parent(i), i);
      assert p > 0 ==> Above(h, Parent(p), c);
    }
  }

  lemma {:induction false} SiftOnOrders(h: Heap, p: nat)
    requires p < |h| && OrderedBut(h, p)
    ensures Ordered(SiftOn(h, p))
    decreases |h| - p
  {
    hide Child;
    hide Parent;
    if HasChild(|h|, p) && h[Child(h, p)].count < h[p].count {
      SwapDown(h, p);
      SiftOnOrders(Swap(h, p, Child(h, p)), Child(h, p));
    } else {
      InPlace(h, p);
    }
  }

  lemma InPlace(h: Heap, p: nat)
    requires p < |h| && OrderedBut(h, p)
    requires HasChild(|h|, p) ==> h[p].count <= h[Child(h, p)].count
    ensures Ordered(h)
  {
    hide Child;
    forall i | 1 <= i < |h| ensures Above(h, Parent(i), i) {
      if Parent(i) == p {
        ChildIsSmaller(h, p, i);
      } else {
        assert OrderedBut(h, p);
      }
    }
  }

  lemma SiftOrders(h: Heap, p: nat)
    requires p < |h| && OrderedBut(h, p)
    ensures Ordered(Sift(h, p))
  {
    hide Child;
    hide Parent;
    hide SiftOn;
    if HasChild(|h|, p) && h[Child(h, p)].count <= h[p].count {
      SwapDown(h, p);
      SiftOnOrders(Swap(h, p, Child(h, p)), Child(h, p));
    } else {
      InPlace(h, p);
    }
  }

  /** Replacing one bucket of an ordered heap and sifting it down restores the order exactly
      when the new count is not below the parent's: always at the root, and always when the
      count did not drop. */
  lemma ReplaceExact(h: Heap, p: nat, b: Bucket)
    requires p < |h| && Ordered(h)
    ensures Ordered(Sift(h[p := b], p)) <==> p == 0 || h[Parent(p)].count <= b.count
    ensures b.count >= h[p].count ==> Ordered(Sift(h[p := b], p))
  {
    hide Sift;
    hide Parent;
    assert p > 0 ==> Above(h, Parent(p), p);
    if p == 0 || h[Parent(p)].count <= b.count {
      Replaced(h, p, b);
      SiftOrders(h[p := b], p);
    } else {
      TooSmall(h, p, b);
    }
  }

  lemma Replaced(h: Heap, p: nat, b: Bucket)
    requires p < |h| && Ordered(h) && (p == 0 || h[Parent(p)].count <= b.count)
    ensures OrderedBut(h[p := b], p)
  {
    hide Parent;
    var g := h[p := b];
    forall i | 1 <= i < |g|
      ensures if Parent(i) != p then Above(g, Parent(i), i) else p > 0 ==> Above(g, Parent(p), i)
    {
      assert Above(h, Parent(i), i);
      assert p > 0 ==> Above(h, Parent(p), p);
    }
  }

  lemma TooSmall(h: Heap, p: nat, b: Bucket)
    requires 0 < p < |h| && Ordered(h) && b.count < h[Parent(p)].count
    ensures Sift(h[p := b], p) == h[p := b] && !Ordered(h[p := b])
  {
    hide Child;
    hide SiftOn;
    hide Parent;
    var g := h[p := b];
    assert Above(h, Parent(p), p);
    assert HasChild(|g|, p) ==> Above(h, Parent(Child(g, p)), Child(g, p));
    assert !Above(g, Parent(p), p);
  }

  method SmallerChild(a: array<Bucket>, p: nat) returns (c: nat)
    requires HasChild(a.Length, p)
    ensures c == Child(a[..], p)
  {
    c := 2 * p + 1;
    if c + 1 < a.Length && a[c].count > a[c + 1].count { c := c + 1; }
  }

  /** The bucket in the hole is not looked at when a child is chosen. */
  lemma ChildOfHole(s: Heap, p: nat, b: Bucket)
    requires HasChild(|s|, p)
    ensures p < |s| && Child(s[p := b], p) == Child(s, p)
  {
  }

  lemma MoveHole(s: Heap, p: nat, c: nat, b: Bucket)
    requires p < |s| && c < |s| && p != c
    ensures Swap(s[p := b], p, c) == s[p := s[c]][c := b]
  {
  }

  /** The loop of the code: children move up into a hole and the moved bucket is written back
      once at the end. */
  method HeapifyDown(a: array<Bucket>, from: nat)
    requires from < a.Length
    modifies a
    ensures a[..] == Sift(old(a[..]), from)
  {
    hide SiftOn;
    hide Child;
    hide Swap;
    var len := a.Length;
    if len < 2 || (len - 2) / 2 < from { return; }
    var start := from;
    var child := SmallerChild(a, start);
    if a[child].count > a[start].count { return; }
    var top := a[start];
    ghost var goal := Sift(a[..], from);
    assert a[..][start := top] == a[..];
    while true
      invariant start < len && HasChild(len, start) && child == Child(a[..], start)
      invariant goal == SiftOn(Swap(a[..][start := top], start, child), child)
      decreases len - start
    {
      MoveHole(a[..], start, child, top);
      ghost var s := a[..];
      a[start] := a[child];
      assert a[..] == s[start := s[child]];
      start := child;
      SiftOnStep(a[..][start := top], start);
      if (len - 2) / 2 < start { break; }
      ChildOfHole(a[..], start, top);
      child := SmallerChild(a, start);
      if !(a[child].count < top.count) { break; }
    }
    assert a[..][start := top] == goal;
    ghost var s := a[..];
    a[start] := top;
    assert a[..] == s[start := top];
  }

  lemma SiftOnStep(h: Heap, p: nat)
    requires p < |h|
    ensures SiftOn(h, p) ==
            if HasChild(|h|, p) && h[Child(h, p)].count < h[p].count then SiftOn(Swap(h, p, Child(h, p)), Child(h, p)) else h
  {
  }

  // ---- looking up and recording an item ----

  predicate Names(b: Bucket, item: string) { b.item == Some(item) }

  /** Each item has at most one bucket, filed under its own hash. */
  ghost predicate Distinct(h: Heap, hash: string -> nat) {
    && (forall i, j :: 0 <= i < j < |h| && h[i].item.Some? ==> h[i].item != h[j].item)
    && (forall i :: 0 <= i < |h| && h[i].item.Some? ==> h[i].fp == hash(h[i].item.value))
  }

  ghost predicate InHeap(h: Heap, item: string) { exists i :: 0 <= i < |h| && Names(h[i], item) }

  /** Index of the last bucket naming the item among the first `n`, or -1. */
  function Find(h: Heap, item: string, fp: nat, n: nat): (r: int)
    requires n <= |h|
    ensures -1 <= r < n
    ensures r >= 0 ==> Names(h[r], item) && h[r].fp == fp
    ensures forall i :: r < i < n ==> !(Names(h[i], item) && h[i].fp == fp)
  {
    if n == 0 then -1
    else if h[n - 1].fp == fp && Names(h[n - 1], item) then n - 1
    else Find(h, item, fp, n - 1)
  }

  method CheckExistInHeap(a: array<Bucket>, item: string, fp: nat) returns (r: int)
    ensures r == Find(a[..], item, fp, a.Length)
  {
    var i := a.Length - 1;
    while i >= 0
      invariant -1 <= i < a.Length
      invariant Find(a[..], item, fp, a.Length) == Find(a[..], item, fp, i + 1)
    {
      if a[i].fp == fp && Names(a[i], item) { return i; }
      i := i - 1;
    }
    return -1;
  }

  datatype Recorded = Recorded(heap: Heap, expelled: Option<string>)

  function Record(h: Heap, item: string, fp: nat, count: nat): (r: Recorded)
    requires |h| > 0
    ensures |r.heap| == |h|
  {
    if count < h[0].count then Recorded(h, None)
    else
      var i := Find(h, item, fp, |h|);
      if i >= 0 then Recorded(Sift(h[i := h[i].(count := count)], i), None)
      else Recorded(Sift(h[0 := Bucket(count, Some(item), fp)], 0), h[0].item)
  }

  lemma {:induction false} SiftOnDistinct(h: Heap, p: nat, hash: string -> nat)
    requires p < |h| && Distinct(h, hash)
    ensures Distinct(SiftOn(h, p), hash)
    decreases |h| - p
  {
    hide Child;
    if HasChild(|h|, p) && h[Child(h, p)].count < h[p].count {
      SwapDistinct(h, p, Child(h, p), hash);
      SiftOnDistinct(Swap(h, p, Child(h, p)), Child(h, p), hash);
    }
  }

  lemma SwapDistinct(h: Heap, i: nat, j: nat, hash: string -> nat)
    requires i < |h| && j < |h| && Distinct(h, hash)
    ensures Distinct(Swap(h, i, j), hash)
  {
  }

  lemma SiftDistinct(h: Heap, p: nat, hash: string -> nat)
    requires p < |h| && Distinct(h, hash)
    ensures Distinct(Sift(h, p), hash)
  {
    hide Child;
    hide SiftOn;
    if HasChild(|h|, p) && h[Child(h, p)].count <= h[p].count {
      SwapDistinct(h, p, Child(h, p), hash);
      SiftOnDistinct(Swap(h, p, Child(h, p)), Child(h, p), hash);
    }
  }

  lemma SameNames(h: Heap, r: Heap, item: string)
    requires multiset(h) == multiset(r)
    ensures InHeap(h, item) <==> InHeap(r, item)
  {
    if i :| 0 <= i < |h| && Names(h[i], item) { assert h[i] in multiset(r); }
    if i :| 0 <= i < |r| && Names(r[i], item) { assert r[i] in multiset(h); }
  }

  /** Recording keeps buckets distinct; an item that enters takes the place of the expelled one,
      and no other item comes or goes. */
  lemma RecordKeeps(h: Heap, item: string, count: nat, hash: string -> nat)
    requires |h| > 0 && Distinct(h, hash)
    ensures var r := Record(h, item, hash(item), count);
            && Distinct(r.heap, hash)
            && (count >= h[0].count ==> InHeap(r.heap, item))
            && (r.expelled.Some? ==> InHeap(h, r.expelled.value) && !InHeap(r.heap, r.expelled.value))
            && (forall x :: x != item ==> (InHeap(r.heap, x) <==> InHeap(h, x) && r.expelled != Some(x)))
  {
    hide Sift;
    hide Find;
    var fp := hash(item);
    if count >= h[0].count {
      var i := Find(h, item, fp, |h|);
      var p, b := if i >= 0 then i else 0, if i >= 0 then h[i].(count := count) else Bucket(count, Some(item), fp);
      var g := h[p := b];
      assert Distinct(g, hash);
      SiftDistinct(g, p, hash);
      assert Names(g[p], item);
      forall x: string ensures InHeap(Sift(g, p), x) <==> InHeap(g, x) {
        SiftPermutes(g, p);
        SameNames(g, Sift(g, p), x);
      }
      forall x: string | x != item ensures InHeap(g, x) <==> InHeap(h, x) && !(i < 0 && h[0].item == Some(x)) {
        ReplacedNames(h, p, b, x, hash);
      }
    }
  }

  /** Recording exactly: a count below the root's changes nothing. Otherwise the bucket of the item,
      or the root if it has none, becomes the item's bucket with exactly that count; no other
      bucket changes, and what the root named is expelled. */
  lemma RecordExact(h: Heap, item: string, count: nat, hash: string -> nat)
    requires |h| > 0 && Distinct(h, hash)
    ensures var r := Record(h, item, hash(item), count);
            && (count < h[0].count ==> r == Recorded(h, None))
            && (forall i :: 0 <= i < |h| && Names(h[i], item) && count >= h[0].count ==>
                  r.expelled == None && multiset(r.heap) == multiset(h) - multiset{h[i]} + multiset{Bucket(count, Some(item), hash(item))})
            && (!InHeap(h, item) && count >= h[0].count ==>
                  && r.expelled == h[0].item
                  && multiset(r.heap) == multiset(h) - multiset{h[0]} + multiset{Bucket(count, Some(item), hash(item))})
  {
    hide Sift;
    hide Find;
    var fp := hash(item);
    if count >= h[0].count {
      var i := Find(h, item, fp, |h|);
      var p, b := if i >= 0 then i else 0, Bucket(count, Some(item), fp);
      SiftPermutes(h[p := b], p);
      ReplacedBag(h, p, b);
      if i >= 0 { assert h[i].(count := count) == b; }
      forall j | 0 <= j < |h| && Names(h[j], item) ensures i == j { assert h[j].fp == fp; }
    }
  }

  lemma ReplacedBag(h: Heap, p: nat, b: Bucket)
    requires p < |h|
    ensures multiset(h[p := b]) == multiset(h) - multiset{h[p]} + multiset{b}
  {
  }

  /** The root of an ordered heap has the least count, so an item enters exactly when its count is
      not below any other. */
  lemma {:induction false} RootIsLeast(h: Heap, i: nat)
    requires Ordered(h) && i < |h|
    ensures h[0].count <= h[i].count
  {
    if i > 0 {
      assert Above(h, Parent(i), i);
      RootIsLeast(h, Parent(i));
    }
  }

  lemma ReplacedNames(h: Heap, p: nat, b: Bucket, x: string, hash: string -> nat)
    requires p < |h| && Distinct(h, hash) && !Names(b, x)
    ensures InHeap(h[p := b], x) <==> InHeap(h, x) && !Names(h[p], x)
  {
    var g := h[p := b];
    if i :| 0 <= i < |g| && Names(g[i], x) { assert Names(h[i], x); }
    if i :| 0 <= i < |h| && Names(h[i], x) { if i != p { assert Names(g[i], x); } }
  }
}
