/** The manifest of append-only files: one BASE, an ordered list of INCRs and the HISTORY
    files that a finished rewrite left behind. File names carry a sequence number, so a
    name is its kind and number. */
module AofManifests {
  import opened Wrappers

  datatype FileName = Base(number: nat) | Incr(number: nat)

  /** What the manifest file on disk lists. */
  datatype Listing = Listing(base: Option<nat>, incrs: seq<nat>, history: seq<FileName>)

  /** The manifest in memory: a listing, the last numbers handed out and the dirty mark. */
  datatype Manifest = Manifest(list: Listing, currBase: nat, currIncr: nat, dirty: bool)

  predicate Increasing(s: seq<nat>) {
    forall i, j :: 0 <= i < j < |s| ==> s[i] < s[j]
  }

  predicate Consecutive(s: seq<nat>) {
    forall i :: 0 < i < |s| ==> s[i] == s[i - 1] + 1
  }

  /** Numbers are handed out in order: the BASE carries the last base number, the INCRs
      run without a gap up to the last incr number, and HISTORY files are older than all of them. */
  predicate WellNumbered(m: Manifest) {
    && m.list.base == Some(m.currBase)
    && Increasing(m.list.incrs) && Consecutive(m.list.incrs) && |m.list.incrs| > 0 && m.list.incrs[|m.list.incrs| - 1] == m.currIncr
    && Outdated(m.list.history, m.currBase, m.list.incrs[0])
  }

  predicate Outdated(history: seq<FileName>, base: nat, incr: nat) {
    forall h :: h in history ==> match h case Base(n) => n < base case Incr(n) => n < incr
  }

  /** A new BASE name; the previous BASE becomes HISTORY. */
  function NewBase(m: Manifest): (r: Manifest) {
    var history := if m.list.base.Some? then [Base(m.list.base.value)] + m.list.history else m.list.history;
    Manifest(Listing(Some(m.currBase + 1), m.list.incrs, history), m.currBase + 1, m.currIncr, true)
  }

  /** A new INCR name at the end of the list. */
  function NewIncr(m: Manifest): (r: Manifest) {
    Manifest(m.list.(incrs := m.list.incrs + [m.currIncr + 1]), m.currBase, m.currIncr + 1, true)
  }

  function IncrNames(s: seq<nat>): (r: seq<FileName>)
    ensures |r| == |s| && forall i :: 0 <= i < |s| ==> r[i] == Incr(s[i])
  {
    seq(|s|, i requires 0 <= i < |s| => Incr(s[i]))
  }

  /** All INCRs but the one being written become HISTORY. */
  function MarkRewritten(m: Manifest): (r: Manifest) {
    if m.list.incrs == [] then m
    else
      var n := |m.list.incrs| - 1;
      Manifest(Listing(m.list.base, m.list.incrs[n..], IncrNames(m.list.incrs[..n]) + m.list.history),
               m.currBase, m.currIncr, true)
  }

  /** The manifest a server starts with after reading a listing. */
  function FromListing(l: Listing): (m: Manifest) {
    Manifest(l, if l.base.Some? then l.base.value else 0,
             if l.incrs == [] then 0 else l.incrs[|l.incrs| - 1], false)
  }

  /** The move to HISTORY as the code does it: from the tail, one entry at a time, each put
      at the head of the history list, skipping the file that is being written. */
  method MarkRewrittenIncrAofAsHistory(m: Manifest) returns (r: Manifest)
    ensures r == MarkRewritten(m)
  {
    if m.list.incrs == [] { return m; }
    var n := |m.list.incrs| - 1;
    var incrs, history := m.list.incrs, m.list.history;
    var k := n;
    while k > 0
      invariant 0 <= k <= n
      invariant incrs == m.list.incrs[..k] + m.list.incrs[n..]
      invariant history == IncrNames(m.list.incrs[k..n]) + m.list.history
    {
      k := k - 1;
      assert IncrNames(m.list.incrs[k..n]) == [Incr(m.list.incrs[k])] + IncrNames(m.list.incrs[k + 1..n]);
      history := [Incr(incrs[k])] + history;
      assert incrs[..k] + incrs[k + 1..] == m.list.incrs[..k] + m.list.incrs[n..];
      incrs := incrs[..k] + incrs[k + 1..];
    }
    assert m.list.incrs[0..n] == m.list.incrs[..n];
    r := Manifest(Listing(m.list.base, incrs, history), m.currBase, m.currIncr, true);
  }

  lemma NewIncrWellNumbered(m: Manifest)
    requires WellNumbered(m)
    ensures WellNumbered(NewIncr(m))
  {
    assert forall i :: 0 <= i < |m.list.incrs| ==> m.list.incrs[i] <= m.currIncr;
  }

  /** After a successful rewrite: the new BASE, the INCR being written, and everything else
      in HISTORY, older than both. */
  predicate Rewritten(m: Manifest, r: Manifest) {
    && WellNumbered(r) && WellNumbered(FromListing(r.list))
    && r.list.base == Some(m.currBase + 1) && r.list.incrs == [m.currIncr]
    && r.currBase == m.currBase + 1 && r.currIncr == m.currIncr
  }

  lemma RewrittenWellNumbered(m: Manifest)
    requires WellNumbered(m)
    ensures Rewritten(m, MarkRewritten(NewBase(m)))
  {
    var r := MarkRewritten(NewBase(m));
    var n := |m.list.incrs| - 1;
    assert m.list.incrs[n..] == [m.currIncr];
    forall h | h in r.list.history ensures match h case Base(k) => k < r.currBase case Incr(k) => k < m.currIncr {
      if h in IncrNames(m.list.incrs[..n]) {
        var i :| 0 <= i < n && h == Incr(m.list.incrs[i]);
      } else if h in m.list.history {
        assert m.list.incrs[0] <= m.currIncr;
      }
    }
  }

  /** Marking changes which list a file is in, never the set of files named. */
  lemma MarkingForgetsNothing(m: Manifest, f: FileName)
    requires f.Incr?
    ensures (f.number in m.list.incrs || f in m.list.history)
       <==> (f.number in MarkRewritten(m).list.incrs || f in MarkRewritten(m).list.history)
  {
    if m.list.incrs != [] {
      var n := |m.list.incrs| - 1;
      var s := m.list.incrs;
      assert s == s[..n] + s[n..];
      assert f in IncrNames(s[..n]) <==> f.number in s[..n] by {
        if f.number in s[..n] { var i :| 0 <= i < n && s[..n][i] == f.number; assert IncrNames(s[..n])[i] == f; }
      }
    }
  }
}
