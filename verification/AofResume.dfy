/** A server that recovers a cut log and appends anything at all to it, transactions and notes
    included: what the next load runs. */
module AofResume {
  import opened AofCodec
  import opened AofLoad
  import opened AofRecovery
  import opened AofFeed

  /* ------------------------------------------------------ clients with a queue */

  /** Outside a transaction nothing is queued. */
  predicate Ready(c: Client) { c.multi || c.queue == [] }

  predicate IsExec(it: Item) { it.Cmd? && KindOf(it.argv) == Exec }

  predicate Execs(items: seq<Item>) {
    items != [] && (Execs(items[..|items| - 1]) || IsExec(items[|items| - 1]))
  }

  /** Seen through its drained form, a client executes everything but EXEC at once. */
  lemma DrainStep(c: Client, argv: Argv)
    requires Ready(c)
    ensures Ready(Do(c, argv))
    ensures KindOf(argv) == Exec ==> Do(c, argv) == Drained(c)
    ensures KindOf(argv) != Exec ==> Drained(Do(c, argv)) == Call(Drained(c), argv)
  {
    hide KindOf;
    if c.multi {
      DrainedQueue(c, argv);
      ReadyDrained(c);
    } else {
      DrainedIdle(c);
      var d := Do(c, argv);
      if KindOf(argv) == Multi {
        assert d.queue == [] && Drained(d) == c.(multi := false, queue := []);
      } else {
        DrainedIdle(d);
      }
    }
  }

  lemma ReadyDrained(c: Client)
    ensures !Drained(c).multi && Drained(c).queue == [] && c.runs <= Drained(c).runs
  {
  }

  /** Once an EXEC comes along, a client with a queue is as one that executed its queue first. */
  lemma {:induction false} ExecRunsQueueFirst(c: Client, more: seq<Item>)
    requires Ready(c)
    ensures Ready(DoItems(c, more)) && Ready(DoItems(Drained(c), more))
    ensures Drained(DoItems(c, more)) == Drained(DoItems(Drained(c), more))
    ensures Execs(more) ==> DoItems(c, more) == DoItems(Drained(c), more)
  {
    hide Do;
    hide Drained;
    hide KindOf;
    ReadyDrained(c);
    if more == [] {
      DrainedIdle(Drained(c));
    } else {
      var init, last := more[..|more| - 1], more[|more| - 1];
      ExecRunsQueueFirst(c, init);
      if last.Cmd? {
        DrainStep(DoItems(c, init), last.argv);
        DrainStep(DoItems(Drained(c), init), last.argv);
      }
    }
  }

  /** Without one nothing runs. */
  lemma {:induction false} NoExecNoRun(c: Client, more: seq<Item>)
    requires c.multi && !Execs(more)
    ensures DoItems(c, more).multi && DoItems(c, more).runs == c.runs
  {
    hide KindOf;
    if more != [] { NoExecNoRun(c, more[..|more| - 1]); }
  }

  /* ------------------------------------------------- how many commands are run */

  function Others(queue: seq<Argv>): (n: nat) {
    if queue == [] then 0
    else Others(queue[..|queue| - 1]) + if KindOf(queue[|queue| - 1]) == Other then 1 else 0
  }

  lemma {:induction false} CallAllCount(c: Client, queue: seq<Argv>)
    ensures |CallAll(c, queue).runs| == |c.runs| + Others(queue)
  {
    hide KindOf;
    if queue != [] { CallAllCount(c, queue[..|queue| - 1]); }
  }

  /** How many commands run depends neither on the database nor on what ran before. */
  lemma {:induction false} CountIsShared(c: Client, d: Client, more: seq<Item>)
    requires c.multi == d.multi && c.queue == d.queue
    ensures var x, y := DoItems(c, more), DoItems(d, more);
            x.multi == y.multi && x.queue == y.queue && |x.runs| - |c.runs| == |y.runs| - |d.runs|
  {
    if more != [] {
      var init, last := more[..|more| - 1], more[|more| - 1];
      CountIsShared(c, d, init);
      if last.Cmd? { CountStep(DoItems(c, init), DoItems(d, init), last.argv); }
    }
  }

  lemma CountStep(c: Client, d: Client, argv: Argv)
    requires c.multi == d.multi && c.queue == d.queue
    ensures var x, y := Do(c, argv), Do(d, argv);
            x.multi == y.multi && x.queue == y.queue && |x.runs| - |c.runs| == |y.runs| - |d.runs|
  {
    hide KindOf;
    hide CallAll;
    CallAllCount(c.(multi := false, queue := []), c.queue);
    CallAllCount(d.(multi := false, queue := []), d.queue);
  }

  /* -------------------------------------------------------- a note after a note */

  /** A torn note and a note appended to it are one line to skip. */
  lemma TornNoteMerges(ts: nat, r: nat, next: nat, t: string)
    requires ts < LIMIT && 1 <= r < |EncodeItem(Note(ts))| && next < LIMIT
    ensures ParseItem(EncodeItem(Note(ts))[..r] + EncodeItem(Note(next)) + t) == Skip(t)
  {
    hide ParseItem;
    hide EncodeItem;
    TornNotePiece(ts, r);
    SwallowNote(EncodeItem(Note(ts))[..r], next, t);
  }

  lemma SwallowNote(piece: string, next: nat, t: string)
    requires 1 <= |piece| <= 30 && piece[0] == '#' && next < LIMIT && forall i :: 0 <= i < |piece| ==> piece[i] != '\n'
    ensures ParseItem(piece + EncodeItem(Note(next)) + t) == Skip(t)
  {
    hide ParseItem;
    hide Dec;
    hide EncodeItem;
    DecFits(next);
    NoteText(next);
    var line := piece + "#TS:" + Dec(next) + "\r";
    LineEndsAtNewline(line, t, LINE_MAX);
    var s := line + "\n" + t;
    assert piece + ("#TS:" + Dec(next) + "\r\n") + t == s;
    NoteLine(s, |line| + 1);
    assert s[|line| + 1..] == t;
  }

  lemma LoadAfterMergedNote(known: Argv -> bool, items: seq<Item>, c: nat, more: seq<Item>)
    requires Loadable(known, items) && c <= |Encode(items)| && CutInsideNote(items, c)
    requires Loadable(known, more) && more != [] && more[0].Note?
    ensures var r := Loop(known, Encode(items)[..c] + Encode(more), 0, START);
            r.1.client == DoItems(After(Complete(items, c)).client, more)
  {
    hide ParseItem;
    hide EncodeItem;
    hide Encode;
    hide Through;
    hide Whole;
    hide Loop;
    hide Piece;
    hide DoItems;
    PieceOfItem(items, c);
    var k, done, piece := Whole(items, c), Complete(items, c), Piece(items, c);
    var t := Encode(more[1..]);
    EncodeHead(more);
    LoadablePrefix(known, items, k);
    assert Storable(items[k]) && Storable(more[0]);
    var s := piece + EncodeItem(more[0]) + t;
    assert Encode(items)[..c] + Encode(more) == Encode(done) + s;
    LoopThrough(known, done, s, 0, START);
    TornNoteMerges(items[k].ts, c - |Encode(done)|, more[0].ts, t);
    GoesOnAfterSkip(known, s, t, |Encode(done)|, After(done));
    LoadsToTheEnd(known, more[1..], |Encode(done)| + |s| - |t|, After(done));
    SkipFirst(After(done).client, more);
  }

  lemma GoesOnAfterSkip(known: Argv -> bool, s: string, t: string, pos: nat, st: Progress)
    requires ParseItem(s) == Skip(t)
    ensures |t| < |s| && Loop(known, s, pos, st) == Loop(known, t, pos + |s| - |t|, st)
  {
    hide ParseItem;
  }

  lemma LoadsToTheEnd(known: Argv -> bool, more: seq<Item>, pos: nat, st: Progress)
    requires Loadable(known, more)
    ensures Loop(known, Encode(more), pos, st).1.client == DoItems(st.client, more)
  {
    hide ParseItem;
    hide Through;
    hide DoItems;
    LoopThrough(known, more, "", pos, st);
    assert Encode(more) + "" == Encode(more);
    ReadNothing();
    ThroughClient(st, more, pos);
  }

  lemma SkipFirst(c: Client, more: seq<Item>)
    requires more != [] && more[0].Note?
    ensures DoItems(c, more) == DoItems(c, more[1..])
  {
    hide Do;
    DoItemsAppend(c, more[..1], more[1..]);
    assert more[..1] + more[1..] == more && more[..1][..0] == [];
    assert DoItems(c, more[..1]) == c;
  }

  /* ------------------------------------------------------------ the next load */

  /** What the load after appending `more` runs. */
  function NextRuns(items: seq<Item>, c: nat, more: seq<Item>): (runs: seq<Run>)
    requires c <= |Encode(items)|
  {
    var kept, closed := After(Kept(items, c)).client, After(ClosedItems(Complete(items, c))).client;
    if TornNote(items, c) && more != [] && more[0].Cmd? then closed.runs
    else if OpenLeft(items, c) then (if Execs(more) then DoItems(Drained(kept), more).runs else closed.runs)
    else DoItems(closed, more).runs
  }

  lemma LoadRuns(known: Argv -> bool, f: string)
    ensures Load(RECOVERING, known, f).runs == Loop(known, f, 0, START).1.client.runs
  {
    hide ParseItem;
    if f == "" { ReadNothing(); }
  }

  /** Whatever is appended to the file a recovered load left behind, the next load runs what
      the first one ran and then what was appended, except that a command after a torn note
      loses everything appended, and that after a cut inside a transaction everything is lost
      without an EXEC, while with one the torn half of that transaction runs first. */
  lemma AppendAnything(known: Argv -> bool, items: seq<Item>, c: nat, more: seq<Item>)
    requires Loadable(known, items) && NoNesting(items) && 1 <= c <= |Encode(items)| && Loadable(known, more)
    ensures Load(RECOVERING, known, FileAfter(known, items, c) + Encode(more)).runs == NextRuns(items, c, more)
  {
    hide Load;
    hide Loop;
    hide Through;
    hide Encode;
    hide EncodeItem;
    hide DoItems;
    hide Drained;
    hide FileAfter;
    hide NoNesting;
    hide Kept;
    hide ClosedItems;
    LoadRuns(known, FileAfter(known, items, c) + Encode(more));
    if TornNote(items, c) {
      ClosedAfterLoad(items, c);
      FileShape(known, items, c);
      if more == [] {
        NothingAppended(known, items, c);
      } else if more[0].Cmd? {
        LoadAfterTornNote(known, items, c, more);
      } else {
        LoadAfterMergedNote(known, items, c, more);
      }
    } else {
      LoadAfterKept(known, items, c, more);
      KeptClient(items, c);
      if OpenLeft(items, c) {
        var kept := After(Kept(items, c)).client;
        if Execs(more) { ExecRunsQueueFirst(kept, more); } else { NoExecNoRun(kept, more); }
      }
    }
  }

  lemma NothingAppended(known: Argv -> bool, items: seq<Item>, c: nat)
    requires Loadable(known, items) && NoNesting(items) && 1 <= c <= |Encode(items)| && TornNote(items, c)
    ensures Encode([]) == "" && DoItems(After(Complete(items, c)).client, []) == After(Complete(items, c)).client
    ensures Loop(known, Encode(items)[..c] + "", 0, START).1 == After(Complete(items, c))
  {
    hide Loop;
    hide Through;
    hide EncodeItem;
    LoopOfCut(known, items, c);
    assert Encode(items)[..c] + "" == Encode(items)[..c];
  }

  /** After a cut inside a transaction and an appended EXEC, the next load runs as many commands
      too many as the torn half holds, and those come right after what the first load ran. If
      the torn half left the database alone, the result is right exactly when it holds none. */
  lemma TornHalfRuns(known: Argv -> bool, items: seq<Item>, c: nat, more: seq<Item>)
    requires Loadable(known, items) && NoNesting(items) && 1 <= c <= |Encode(items)| && Loadable(known, more)
    requires OpenLeft(items, c) && Execs(more)
    ensures var kept, closed := After(Kept(items, c)).client, After(ClosedItems(Complete(items, c))).client;
            var runs := Load(RECOVERING, known, FileAfter(known, items, c) + Encode(more)).runs;
            && |runs| == |DoItems(closed, more).runs| + Others(kept.queue)
            && Drained(kept).runs <= runs
            && (Drained(kept).db == closed.db ==>
                  (runs == DoItems(closed, more).runs <==> Others(kept.queue) == 0))
  {
    hide Load;
    hide Through;
    hide Encode;
    hide EncodeItem;
    hide FileAfter;
    hide NoNesting;
    hide Kept;
    hide ClosedItems;
    hide DoItems;
    hide CallAll;
    hide TornNote;
    var kept, closed := After(Kept(items, c)).client, After(ClosedItems(Complete(items, c))).client;
    AppendAnything(known, items, c, more);
    KeptClient(items, c);
    ClosedAfterLoad(items, c);
    NeverBoth(items, c);
    ReadyDrained(kept);
    CallAllCount(kept.(multi := false, queue := []), kept.queue);
    ClosedIsReady(items, c);
    CountIsShared(Drained(kept), closed, more);
    DoItemsGrows(Drained(kept), more);
    if Others(kept.queue) == 0 && Drained(kept).db == closed.db {
      assert Drained(kept).runs == kept.runs;
      assert Drained(kept) == closed;
    }
  }

  lemma NeverBoth(items: seq<Item>, c: nat)
    requires c <= |Encode(items)|
    ensures !(TornNote(items, c) && OpenLeft(items, c))
  {
  }

  lemma ClosedIsReady(items: seq<Item>, c: nat)
    requires NoNesting(items) && c <= |Encode(items)|
    ensures After(ClosedItems(Complete(items, c))).client.queue == []
  {
    hide Through;
    var closed := ClosedItems(Complete(items, c));
    ClosedAfterLoad(items, c);
    ThroughClient(START, closed, 0);
    IdleQueueEmpty(closed);
  }

  lemma {:induction false} DoItemsGrows(c: Client, more: seq<Item>)
    ensures c.runs <= DoItems(c, more).runs
  {
    hide KindOf;
    if more != [] { DoItemsGrows(c, more[..|more| - 1]); }
  }
}
