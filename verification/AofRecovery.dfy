/** What happens after a recovered load: loading the shortened file again, appending to it, and
    the round trip from the commands a server feeds to the commands a loader runs. */
module AofRecovery {
  import opened AofCodec
  import opened AofLoad
  import opened Ascii

  /* ------------------------------------------------------------------ reloading */

  lemma WholeLoad(known: Argv -> bool, items: seq<Item>)
    requires AllStorable(items) && AllKnown(known, items)
    ensures Loop(known, Encode(items), 0, START) == (AtEnd, After(items))
  {
    hide ParseItem;
    hide Through;
    LoopThrough(known, items, "", 0, START);
    assert Encode(items) + "" == Encode(items);
    ReadNothing();
  }

  /** The items wholly inside the first `c` bytes. */
  function Complete(items: seq<Item>, c: nat): (r: seq<Item>) { items[..Whole(items, c)] }

  /** The cut tore a note that follows closed commands: the file is left as it is. */
  predicate TornNote(items: seq<Item>, c: nat)
    requires c <= |Encode(items)|
  {
    CutInsideNote(items, c) && !After(Complete(items, c)).client.multi
  }

  /** The cut tore a command of an open transaction: the file is cut inside that transaction. */
  predicate OpenLeft(items: seq<Item>, c: nat)
    requires c <= |Encode(items)|
  {
    CutInsideCommand(items, c) && After(Complete(items, c)).client.multi
  }

  /** The items of the file that loading leaves behind, a torn note aside. */
  function Kept(items: seq<Item>, c: nat): (r: seq<Item>)
    requires c <= |Encode(items)|
  {
    var done := Complete(items, c);
    if CutInsideCommand(items, c) then done[..LastValid(done)] else ClosedItems(done)
  }

  function FileAfter(known: Argv -> bool, items: seq<Item>, c: nat): (r: string)
    requires c <= |Encode(items)|
  {
    var f := Encode(items)[..c];
    var n := Load(RECOVERING, known, f).size;
    if n <= |f| then f[..n] else f
  }

  predicate Loadable(known: Argv -> bool, items: seq<Item>) {
    AllStorable(items) && AllKnown(known, items)
  }

  lemma LoadablePrefix(known: Argv -> bool, items: seq<Item>, k: nat)
    requires Loadable(known, items) && k <= |items|
    ensures Loadable(known, items[..k])
  {
  }

  lemma EncodePrefix(items: seq<Item>, k: nat)
    requires k <= |items|
    ensures |Encode(items[..k])| <= |Encode(items)| && Encode(items)[..|Encode(items[..k])|] == Encode(items[..k])
  {
    assert items == items[..k] + items[k..];
    EncodeAppend(items[..k], items[k..]);
  }

  lemma KeptIsPrefix(items: seq<Item>, c: nat) returns (j: nat)
    requires c <= |Encode(items)|
    ensures j <= Whole(items, c) && Kept(items, c) == items[..j]
  {
    var done := Complete(items, c);
    if CutInsideCommand(items, c) {
      j := LastValid(done);
    } else {
      j := if After(done).client.multi then LastMulti(done) else |done|;
    }
    assert done[..j] == items[..j];
  }

  /** The torn part of the item that the cut goes through. */
  function Piece(items: seq<Item>, c: nat): (r: string)
    requires c <= |Encode(items)|
  {
    CutShape(items, c);
    Encode(items)[|Encode(Complete(items, c))|..c]
  }

  lemma PieceOfItem(items: seq<Item>, c: nat)
    requires c <= |Encode(items)|
    ensures Encode(items)[..c] == Encode(Complete(items, c)) + Piece(items, c)
    ensures !CutInside(items, c) ==> Piece(items, c) == ""
    ensures CutInside(items, c) ==>
              var n := c - |Encode(Complete(items, c))|;
              1 <= n < |EncodeItem(items[Whole(items, c)])| && Piece(items, c) == EncodeItem(items[Whole(items, c)])[..n]
  {
    hide EncodeItem;
    hide Encode;
    hide Whole;
    CutShape(items, c);
    EncodePrefix(items, Whole(items, c));
    var n := |Encode(Complete(items, c))|;
    if CutInside(items, c) {
      SplitAt(Encode(items), n, c, EncodeItem(items[Whole(items, c)])[..c - n]);
    } else {
      SplitAt(Encode(items), n, c, "");
    }
  }

  lemma SplitAt(s: string, n: nat, c: nat, p: string)
    requires n <= c <= |s|
    ensures s[..c] == s[..n] + s[n..c]
    ensures s[..c] == s[..n] + p ==> s[n..c] == p
  {
    assert (s[..n] + p)[n..] == p && s[..c][n..] == s[n..c];
  }

  /** The length that loading leaves: all of what is kept, or everything if only a note is torn. */
  lemma SizeAfter(known: Argv -> bool, items: seq<Item>, c: nat)
    requires Loadable(known, items) && NoNesting(items) && 1 <= c <= |Encode(items)|
    ensures Load(RECOVERING, known, Encode(items)[..c]).size == if TornNote(items, c) then c else |Encode(Kept(items, c))|
    ensures |Encode(Kept(items, c))| <= c
  {
    hide Load;
    hide Through;
    hide EncodeItem;
    TruncatedLoad(known, items, c);
    CutShape(items, c);
    var j := KeptIsPrefix(items, c);
    EncodePrefix(Complete(items, c), j);
    assert Complete(items, c)[..j] == items[..j];
    if !CutInside(items, c) {
      PieceOfItem(items, c);
      assert Encode(Complete(items, c)) + "" == Encode(Complete(items, c));
    }
  }

  /** The file left behind is the encoding of what is kept; a torn note stays as it is. */
  lemma FileShape(known: Argv -> bool, items: seq<Item>, c: nat)
    requires Loadable(known, items) && NoNesting(items) && 1 <= c <= |Encode(items)|
    ensures FileAfter(known, items, c) == if TornNote(items, c) then Encode(items)[..c] else Encode(Kept(items, c))
  {
    hide Load;
    hide Through;
    hide EncodeItem;
    SizeAfter(known, items, c);
    if !TornNote(items, c) {
      var j := KeptIsPrefix(items, c);
      EncodePrefix(items, j);
      var n := |Encode(items[..j])|;
      assert Encode(items)[..c][..n] == Encode(items)[..n];
    }
  }

  /** What the first load ran, and where it left its client. */
  lemma KeptClient(items: seq<Item>, c: nat)
    requires NoNesting(items) && c <= |Encode(items)|
    ensures After(Kept(items, c)).client.runs == After(ClosedItems(Complete(items, c))).client.runs
    ensures After(Kept(items, c)).client.multi <==> OpenLeft(items, c)
    ensures !OpenLeft(items, c) ==> After(Kept(items, c)).client == After(ClosedItems(Complete(items, c))).client
  {
    hide Through;
    hide EncodeItem;
    var done := Complete(items, c);
    NoNestingPrefix(items, Whole(items, c));
    ValidIsBoundary(done);
    MultiIsBoundary(done);
  }

  /** Loading the shortened file runs the same commands again; a second load no longer
      changes it unless the first one cut inside an open transaction. */
  lemma ReloadSame(known: Argv -> bool, items: seq<Item>, c: nat)
    requires Loadable(known, items) && NoNesting(items) && 1 <= c <= |Encode(items)|
    ensures var first := Load(RECOVERING, known, Encode(items)[..c]);
            var again := Load(RECOVERING, known, FileAfter(known, items, c));
            again.runs == first.runs && (!OpenLeft(items, c) ==> again.status == Ok || again.status == Empty)
  {
    hide Loop;
    hide Through;
    hide EncodeItem;
    TruncatedLoad(known, items, c);
    FileShape(known, items, c);
    var kept := Kept(items, c);
    if !TornNote(items, c) {
      var j := KeptIsPrefix(items, c);
      LoadablePrefix(known, items, j);
      WholeLoad(known, kept);
      KeptClient(items, c);
      EmptyEncoding(kept);
    }
  }

  /** An empty encoding ran nothing. */
  lemma EmptyEncoding(items: seq<Item>)
    ensures Encode(items) == "" ==> After(items).client == NEW_CLIENT
  {
    if items != [] { assert |Encode(items)| >= |EncodeItem(items[0])| >= 3; }
  }

  /* ------------------------------------------------------------------ appending */

  /** The client after the commands of a list of items. */
  function DoItems(c: Client, items: seq<Item>): (r: Client) {
    if items == [] then c
    else
      var p := DoItems(c, items[..|items| - 1]);
      if items[|items| - 1].Cmd? then Do(p, items[|items| - 1].argv) else p
  }

  lemma {:induction false} ThroughClient(st: Progress, items: seq<Item>, pos: nat)
    ensures Through(st, items, pos).client == DoItems(st.client, items)
    decreases |items|
  {
    hide Do;
    hide EncodeItem;
    if items != [] {
      var init, last := items[..|items| - 1], items[|items| - 1];
      assert items == init + [last];
      ThroughAppend(st, init, [last], pos);
      ThroughClient(st, init, pos);
      assert [last][1..] == [];
      var mid, at := Through(st, init, pos), pos + |Encode(init)|;
      assert Through(mid, [last], at).client == (if last.Cmd? then Do(mid.client, last.argv) else mid.client) by {
        var end := at + |EncodeItem(last)|;
        assert Through(mid, [last], at) == Through(if last.Cmd? then Took(mid, last.argv, end) else mid, [], end);
      }
    }
  }

  predicate NoTransactions(more: seq<Item>) {
    forall i :: 0 <= i < |more| && more[i].Cmd? ==> KindOf(more[i].argv) != Multi && KindOf(more[i].argv) != Exec
  }

  /** Appended items without MULTI or EXEC, at least one of them an ordinary command, the
      first item a command. */
  predicate PlainAppend(more: seq<Item>) {
    && more != [] && more[0].Cmd? && NoTransactions(more)
    && exists i :: 0 <= i < |more| && more[i].Cmd? && KindOf(more[i].argv) == Other
  }

  /** Outside a transaction appended commands run; inside an open one none of them does. */
  lemma {:induction false} PlainRuns(c: Client, more: seq<Item>)
    requires NoTransactions(more)
    ensures c.multi ==> DoItems(c, more).runs == c.runs && DoItems(c, more).multi
    ensures !c.multi ==> !DoItems(c, more).multi && |DoItems(c, more).runs| >= |c.runs|
    ensures !c.multi && (exists i :: 0 <= i < |more| && more[i].Cmd? && KindOf(more[i].argv) == Other) ==>
              |DoItems(c, more).runs| > |c.runs|
  {
    if more != [] {
      var init, last := more[..|more| - 1], more[|more| - 1];
      PlainRuns(c, init);
      if !c.multi && (exists i :: 0 <= i < |more| && more[i].Cmd? && KindOf(more[i].argv) == Other)
         && !(last.Cmd? && KindOf(last.argv) == Other) {
        var i :| 0 <= i < |more| && more[i].Cmd? && KindOf(more[i].argv) == Other;
        assert init[i] == more[i];
      }
    }
  }

  /** A torn note swallows the header of the command appended after it. */
  lemma TornNoteSwallows(ts: nat, r: nat, argv: Argv, t: string)
    requires ts < LIMIT && 1 <= r < |EncodeItem(Note(ts))| && Storable(Cmd(argv))
    ensures ParseItem(EncodeItem(Note(ts))[..r] + EncodeItem(Cmd(argv)) + t) == Skip(Bulks(argv) + t)
  {
    hide ParseItem;
    hide Bulks;
    hide Header;
    var piece := EncodeItem(Note(ts))[..r];
    TornNotePiece(ts, r);
    SwallowHeader(piece, |argv|, Bulks(argv) + t);
    assert piece + EncodeItem(Cmd(argv)) + t == piece + Header('*', |argv|) + (Bulks(argv) + t);
  }

  lemma TornNotePiece(ts: nat, r: nat)
    requires ts < LIMIT && 1 <= r < |EncodeItem(Note(ts))|
    ensures var piece := EncodeItem(Note(ts))[..r];
            piece[0] == '#' && |piece| <= 30 && forall i :: 0 <= i < |piece| ==> piece[i] != '\n'
  {
    hide Dec;
    DecFits(ts);
  }

  lemma SwallowHeader(piece: string, n: nat, body: string)
    requires 1 <= |piece| <= 30 && piece[0] == '#' && n < LIMIT && forall i :: 0 <= i < |piece| ==> piece[i] != '\n'
    ensures ParseItem(piece + Header('*', n) + body) == Skip(body)
  {
    hide ParseItem;
    hide Dec;
    DecFits(n);
    var line := piece + "*" + Dec(n) + "\r";
    LineEndsAtNewline(line, body, LINE_MAX);
    var s := line + "\n" + body;
    assert piece + Header('*', n) + body == s;
    NoteLine(s, |line| + 1);
    assert s[|line| + 1..] == body;
  }

  /** A line that starts with a hash is skipped whole. */
  lemma NoteLine(s: string, n: nat)
    requires s != "" && s[0] == '#' && LineLength(s, LINE_MAX) == n
    ensures n <= |s| && ParseItem(s) == Skip(s[n..])
  {
  }

  lemma BulksAreNoItem(argv: Argv, t: string)
    requires argv != []
    ensures ParseItem(Bulks(argv) + t) == Bad
  {
    var s := Bulks(argv) + t;
    assert s[0] == '$';
    assert Line(s) != "" && Line(s)[0] == s[0];
  }

  lemma EncodeHead(items: seq<Item>)
    requires items != []
    ensures Encode(items) == EncodeItem(items[0]) + Encode(items[1..])
  {
  }

  lemma LoadAfterTornNote(known: Argv -> bool, items: seq<Item>, c: nat, more: seq<Item>)
    requires Loadable(known, items) && c <= |Encode(items)| && CutInsideNote(items, c)
    requires Loadable(known, more) && more != [] && more[0].Cmd?
    ensures Loop(known, Encode(items)[..c] + Encode(more), 0, START) == (BadFormat, After(Complete(items, c)))
  {
    hide ParseItem;
    hide Through;
    hide Whole;
    hide Bulks;
    hide Loop;
    hide Piece;
    hide Encode;
    hide EncodeItem;
    PieceOfItem(items, c);
    EncodeHead(more);
    var k, done, piece := Whole(items, c), Complete(items, c), Piece(items, c);
    var argv, t := more[0].argv, Encode(more[1..]);
    LoadablePrefix(known, items, k);
    assert Storable(items[k]) && Storable(more[0]);
    assert Encode(items)[..c] + Encode(more) == Encode(done) + (piece + EncodeItem(more[0]) + t);
    LoopThrough(known, done, piece + EncodeItem(more[0]) + t, 0, START);
    TornNoteSwallows(items[k].ts, c - |Encode(done)|, argv, t);
    BulksAreNoItem(argv, t);
    StopsAfterSkip(known, piece + EncodeItem(more[0]) + t, Bulks(argv) + t, |Encode(done)|, After(done));
  }

  lemma StopsAfterSkip(known: Argv -> bool, s: string, t: string, pos: nat, st: Progress)
    requires ParseItem(s) == Skip(t) && ParseItem(t) == Bad
    ensures Loop(known, s, pos, st) == (BadFormat, st)
  {
    hide ParseItem;
  }

  /** Loading the file left behind with more items after it. */
  lemma LoadAfterKept(known: Argv -> bool, items: seq<Item>, c: nat, more: seq<Item>)
    requires Loadable(known, items) && NoNesting(items) && 1 <= c <= |Encode(items)| && !TornNote(items, c)
    requires Loadable(known, more)
    ensures var r := Loop(known, FileAfter(known, items, c) + Encode(more), 0, START);
            r.0 == AtEnd && r.1 == Through(After(Kept(items, c)), more, |Encode(Kept(items, c))|)
            && r.1.client == DoItems(After(Kept(items, c)).client, more)
  {
    hide Load;
    hide Loop;
    hide Through;
    hide EncodeItem;
    hide Encode;
    hide Kept;
    hide TornNote;
    hide FileAfter;
    hide DoItems;
    hide Storable;
    hide NoNesting;
    FileShape(known, items, c);
    var kept := Kept(items, c);
    var j := KeptIsPrefix(items, c);
    LoadablePrefix(known, items, j);
    EncodeAppend(kept, more);
    assert Loadable(known, kept + more);
    WholeLoad(known, kept + more);
    ThroughAppend(START, kept, more, 0);
    ThroughClient(After(kept), more, |Encode(kept)|);
  }

  /** Appending to the file that a recovered load left behind and loading it all: the result
      is what the first load ran followed by the appended commands, if and only if the cut
      neither tore a note after closed commands nor a command of an open transaction. */
  lemma AppendAfterRecovery(known: Argv -> bool, items: seq<Item>, c: nat, more: seq<Item>)
    requires Loadable(known, items) && NoNesting(items) && 1 <= c <= |Encode(items)|
    requires Loadable(known, more) && PlainAppend(more)
    ensures var client := After(ClosedItems(Complete(items, c))).client;
            var again := Load(RECOVERING, known, FileAfter(known, items, c) + Encode(more));
            again.runs == DoItems(client, more).runs <==> !TornNote(items, c) && !OpenLeft(items, c)
  {
    hide Loop;
    hide Through;
    hide EncodeItem;
    hide DoItems;
    hide FileAfter;
    hide NoNesting;
    var done := Complete(items, c);
    ClosedAfterLoad(items, c);
    PlainRuns(After(ClosedItems(done)).client, more);
    NonEmptyEncoding(more);
    if TornNote(items, c) {
      FileShape(known, items, c);
      LoadAfterTornNote(known, items, c, more);
    } else {
      LoadAfterKept(known, items, c, more);
      KeptClient(items, c);
      PlainRuns(After(Kept(items, c)).client, more);
    }
  }

  lemma ClosedAfterLoad(items: seq<Item>, c: nat)
    requires NoNesting(items) && c <= |Encode(items)|
    ensures !After(ClosedItems(Complete(items, c))).client.multi
    ensures !After(Complete(items, c)).client.multi ==> ClosedItems(Complete(items, c)) == Complete(items, c)
  {
    hide Through;
    NoNestingPrefix(items, Whole(items, c));
    MultiIsBoundary(Complete(items, c));
  }

  lemma NonEmptyEncoding(items: seq<Item>)
    requires items != []
    ensures Encode(items) != ""
  {
    assert |EncodeItem(items[0])| >= 3;
  }

  /** In the second case everything appended is thrown away by the next load. */
  lemma OpenTransactionSwallows(known: Argv -> bool, items: seq<Item>, c: nat, more: seq<Item>)
    requires Loadable(known, items) && NoNesting(items) && 1 <= c <= |Encode(items)| && OpenLeft(items, c)
    requires Loadable(known, more) && PlainAppend(more)
    ensures var first := Load(RECOVERING, known, Encode(items)[..c]);
            var again := Load(RECOVERING, known, FileAfter(known, items, c) + Encode(more));
            again.status == Truncated && again.runs == first.runs && again.size <= |FileAfter(known, items, c)|
  {
    hide Loop;
    hide Through;
    hide EncodeItem;
    hide DoItems;
    KeptClient(items, c);
    NonEmptyEncoding(more);
    TruncatedLoad(known, items, c);
    LoadAfterKept(known, items, c, more);
    var kept := Kept(items, c);
    PlainRuns(After(kept).client, more);
    MultiStays(After(kept), more, |Encode(kept)|);
    FileShape(known, items, c);
    MultiOffsetInside(items, c);
  }

  lemma MultiOffsetInside(items: seq<Item>, c: nat)
    requires NoNesting(items) && c <= |Encode(items)|
    ensures After(Kept(items, c)).beforeMulti <= |Encode(Kept(items, c))|
  {
    hide Through;
    hide EncodeItem;
    var j := KeptIsPrefix(items, c);
    NoNestingPrefix(items, j);
    MultiIsBoundary(items[..j]);
    EncodePrefix(items[..j], LastMulti(items[..j]));
  }

  /** Without another MULTI the recorded offset before it does not move. */
  lemma {:induction false} MultiStays(st: Progress, more: seq<Item>, pos: nat)
    requires NoTransactions(more)
    ensures Through(st, more, pos).beforeMulti == st.beforeMulti
    decreases |more|
  {
    hide Do;
    hide EncodeItem;
    if more != [] {
      var end := pos + |EncodeItem(more[0])|;
      MultiStays(if more[0].Cmd? then Took(st, more[0].argv, end) else st, more[1..], end);
    }
  }
}
