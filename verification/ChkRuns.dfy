/** Tables and heap together: what a whole update does to both, over runs. */
module ChkRuns {
  import opened Wrappers
  import opened ChkIndex
  import opened ChkTables
  import opened ChkUpdate
  import H = ChkHeap

  datatype Top = Top(slots: Slots, heap: H.Heap, total: nat)

  /** One update: the name of an item and the call it hashes to. */
  datatype Use = Use(item: string, call: Call)

  /** The heap after an update that touched the given slot. */
  ghost function Listed(h: H.Heap, s: Slots, touched: Touched, k: Key, item: string, fp: nat, bits: nat): (r: H.Recorded)
    requires |h| > 0 && Complete(s, bits) && ValidKey(k, bits)
    ensures |r.heap| == |h|
  {
    if !touched.HeavyOf? || touched.t >= 2 || touched.j >= 2 then H.Recorded(h, None)
    else H.Record(h, item, fp, s[Heavy(touched.t, Index(k, touched.t, bits), touched.j)].count)
  }

  ghost function Once(top: Top, u: Use, decay: real, hash: string -> nat, bits: nat): (r: Top)
    requires Complete(top.slots, bits) && |top.heap| > 0 && ValidKey(u.call.key, bits) && decay > 0.0
    ensures Complete(r.slots, bits) && |r.heap| == |top.heap|
  {
    if u.call.weight == 0 then top
    else
      var n := top.total + u.call.weight;
      var o := UpdateTables(top.slots, u.call.key, u.call.weight, decay, u.call.decayRoll, u.call.roll, n, bits);
      Top(o.slots, Listed(top.heap, o.slots, o.touched, u.call.key, u.item, hash(u.item), bits).heap, n)
  }

  function Unused(k: nat): (h: H.Heap)
    ensures |h| == k
  {
    seq(k, i => H.Bucket(0, None, 0))
  }

  ghost predicate ValidUses(uses: seq<Use>, bits: nat) {
    forall u :: u in uses ==> ValidKey(u.call.key, bits)
  }

  ghost function RunTop(uses: seq<Use>, k: nat, decay: real, hash: string -> nat, bits: nat): (r: Top)
    requires ValidUses(uses, bits) && k > 0 && decay > 0.0
    ensures Complete(r.slots, bits) && |r.heap| == k
  {
    if uses == [] then Top(Fresh(bits), Unused(k), 0)
    else Once(RunTop(uses[..|uses| - 1], k, decay, hash, bits), uses[|uses| - 1], decay, hash, bits)
  }

  function Calls(uses: seq<Use>): (calls: seq<Call>)
    ensures |calls| == |uses| && forall i :: 0 <= i < |uses| ==> calls[i] == uses[i].call
  {
    seq(|uses|, i requires 0 <= i < |uses| => uses[i].call)
  }

  /** The tables of a run are those of its calls. */
  lemma {:induction false} RunTopTables(uses: seq<Use>, k: nat, decay: real, hash: string -> nat, bits: nat)
    requires ValidUses(uses, bits) && k > 0 && decay > 0.0
    ensures ValidCalls(Calls(uses), bits)
    ensures var r := RunTop(uses, k, decay, hash, bits); r.slots == Run(Calls(uses), decay, bits) && r.total == Total(Calls(uses))
  {
    hide UpdateTables;
    hide Once;
    if uses != [] {
      var n := |uses| - 1;
      RunTopTables(uses[..n], k, decay, hash, bits);
      assert Calls(uses)[..n] == Calls(uses[..n]) && Calls(uses)[n] == uses[n].call;
      OnceTables(RunTop(uses[..n], k, decay, hash, bits), uses[n], decay, hash, bits);
      hide Calls;
      hide Fresh;
      hide Complete;
    }
  }

  lemma OnceTables(top: Top, u: Use, decay: real, hash: string -> nat, bits: nat)
    requires Complete(top.slots, bits) && |top.heap| > 0 && ValidKey(u.call.key, bits) && decay > 0.0
    ensures var r := Once(top, u, decay, hash, bits);
            && r.total == top.total + u.call.weight
            && r.slots ==
               if u.call.weight == 0 then top.slots
               else UpdateTables(top.slots, u.call.key, u.call.weight, decay, u.call.decayRoll, u.call.roll, r.total, bits).slots
  {
    hide UpdateTables;
    hide Listed;
  }

  /** Over every run the heap keeps at most one bucket per item, and only for items used. */
  lemma {:induction false} RunTopHeap(uses: seq<Use>, k: nat, decay: real, hash: string -> nat, bits: nat)
    requires ValidUses(uses, bits) && k > 0 && decay > 0.0
    ensures var h := RunTop(uses, k, decay, hash, bits).heap;
            H.Distinct(h, hash) && forall x :: H.InHeap(h, x) ==> exists u :: u in uses && u.item == x
  {
    hide UpdateTables;
    hide H.Record;
    hide H.Distinct;
    hide H.InHeap;
    if uses == [] {
      UnusedHeap(k, hash);
    } else {
      var n := |uses| - 1;
      var u := uses[n];
      assert uses == uses[..n] + [u];
      RunTopHeap(uses[..n], k, decay, hash, bits);
      OnceHeap(RunTop(uses[..n], k, decay, hash, bits), u, decay, hash, bits);
    }
  }

  lemma UnusedHeap(k: nat, hash: string -> nat)
    ensures H.Distinct(Unused(k), hash) && forall x :: !H.InHeap(Unused(k), x)
  {
  }

  /** Listing keeps buckets distinct, adds at most the item, and expels what it names. */
  lemma ListedKeeps(h: H.Heap, s: Slots, touched: Touched, k: Key, item: string, hash: string -> nat, bits: nat)
    requires |h| > 0 && Complete(s, bits) && ValidKey(k, bits) && H.Distinct(h, hash)
    ensures var r := Listed(h, s, touched, k, item, hash(item), bits);
            && H.Distinct(r.heap, hash)
            && (forall x :: H.InHeap(r.heap, x) ==> H.InHeap(h, x) || x == item)
            && (r.expelled.Some? ==> H.InHeap(h, r.expelled.value) && !H.InHeap(r.heap, r.expelled.value))
  {
    hide H.Record;
    hide H.Distinct;
    hide H.InHeap;
    if touched.HeavyOf? && touched.t < 2 && touched.j < 2 {
      H.RecordKeeps(h, item, s[Heavy(touched.t, Index(k, touched.t, bits), touched.j)].count, hash);
    }
  }

  lemma OnceHeap(top: Top, u: Use, decay: real, hash: string -> nat, bits: nat)
    requires Complete(top.slots, bits) && |top.heap| > 0 && ValidKey(u.call.key, bits) && decay > 0.0
    requires H.Distinct(top.heap, hash)
    ensures var h := Once(top, u, decay, hash, bits).heap;
            H.Distinct(h, hash) && forall x :: H.InHeap(h, x) ==> H.InHeap(top.heap, x) || x == u.item
  {
    hide UpdateTables;
    hide Listed;
    hide H.Distinct;
    hide H.InHeap;
    if u.call.weight > 0 {
      var o := UpdateTables(top.slots, u.call.key, u.call.weight, decay, u.call.decayRoll, u.call.roll, top.total + u.call.weight, bits);
      ListedKeeps(top.heap, o.slots, o.touched, u.call.key, u.item, hash, bits);
    }
  }
}
