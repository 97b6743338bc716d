/** The feeder: every executed command is appended to the buffer with a SELECT only when the
    database changed since the last one and a timestamp note only when the clock moved; and
    what a loader runs from it. */
module AofFeed {
  import opened AofCodec
  import opened AofLoad
  import opened AofRecovery
  import opened Ascii

  /** One call of the feeder. `db` is -1 where no SELECT is wanted (MULTI and EXEC). `now` is
      the clock, or none when timestamps are off. */
  datatype Clock = Off | Now(time: nat)
  datatype Fed = Fed(now: Clock, db: int, argv: Argv)

  /** The feeder's memory: the selected database and the last timestamp written. */
  datatype Memory = Memory(selected: int, stamp: nat)

  const RESET: Memory := Memory(-1, 0)

  function NeedsStamp(m: Memory, f: Fed): (b: bool) { f.now.Now? && m.stamp < f.now.time }

  function NeedsSelect(m: Memory, f: Fed): (b: bool) { f.db != -1 && f.db != m.selected }

  function SelectArgv(db: int): (argv: Argv)
    requires db >= 0
  {
    ["SELECT", Dec(db)]
  }

  function FeedOne(m: Memory, f: Fed): (items: seq<Item>)
    requires f.db >= -1
  {
    (if NeedsStamp(m, f) then [Note(f.now.time)] else [])
    + (if NeedsSelect(m, f) then [Cmd(SelectArgv(f.db))] else [])
    + [Cmd(f.argv)]
  }

  function Remember(m: Memory, f: Fed): (r: Memory) {
    Memory(if NeedsSelect(m, f) then f.db else m.selected, if NeedsStamp(m, f) then f.now.time else m.stamp)
  }

  function MemoryAfter(m: Memory, fed: seq<Fed>): (r: Memory) {
    if fed == [] then m else Remember(MemoryAfter(m, fed[..|fed| - 1]), fed[|fed| - 1])
  }

  function FeedAll(m: Memory, fed: seq<Fed>): (items: seq<Item>)
    requires forall i :: 0 <= i < |fed| ==> fed[i].db >= -1
  {
    if fed == [] then []
    else FeedAll(m, fed[..|fed| - 1]) + FeedOne(MemoryAfter(m, fed[..|fed| - 1]), fed[|fed| - 1])
  }

  /* ----------------------------------------------------------- the buffer itself */

  /** catAppendOnlyGenericCommand: the array header, then each argument as a bulk string. */
  method CatGenericCommand(dst: string, argv: Argv) returns (r: string)
    ensures r == dst + EncodeItem(Cmd(argv))
  {
    hide Dec;
    hide Bulks;
    r := dst + "*" + Dec(|argv|) + "\r\n";
    ghost var head := r;
    assert head == dst + Header('*', |argv|);
    NoBulks();
    for j := 0 to |argv|
      invariant r == head + Bulks(argv[..j])
    {
      var arg := argv[j];
      var o := "$" + Dec(|arg|) + "\r\n";
      o := o + arg;
      o := o + "\r\n";
      assert o == Bulk(arg);
      r := r + o;
      BulksSnoc(argv[..j], arg);
      assert argv[..j] + [arg] == argv[..j + 1];
      assert r == head + (Bulks(argv[..j]) + Bulk(arg));
    }
    assert argv[..|argv|] == argv;
    assert r == dst + (Header('*', |argv|) + Bulks(argv));
  }

  lemma NoBulks()
    ensures Bulks([]) == ""
  {
  }

  lemma {:induction false} BulksSnoc(argv: Argv, arg: string)
    ensures Bulks(argv + [arg]) == Bulks(argv) + Bulk(arg)
  {
    if argv == [] {
      assert argv + [arg] == [arg] && [arg][1..] == [];
    } else {
      assert (argv + [arg])[1..] == argv[1..] + [arg];
      BulksSnoc(argv[1..], arg);
    }
  }

  class Feeder {
    var aofBuf: string
    var selectedDb: int
    var curTimestamp: nat

    /** The state a rewrite leaves: the next command must select its database again. */
    constructor ()
      ensures aofBuf == "" && Memory(selectedDb, curTimestamp) == RESET
    {
      aofBuf, selectedDb, curTimestamp := "", -1, 0;
    }

    method FeedAppendOnlyFile(f: Fed)
      requires f.db >= -1
      modifies this
      ensures aofBuf == old(aofBuf) + Encode(FeedOne(old(Memory(selectedDb, curTimestamp)), f))
      ensures Memory(selectedDb, curTimestamp) == Remember(old(Memory(selectedDb, curTimestamp)), f)
    {
      hide EncodeItem;
      hide Dec;
      hide Encode;
      ghost var m := Memory(selectedDb, curTimestamp);
      EncodeFeedOne(m, f);
      var buf := "";
      if f.now.Now? && curTimestamp < f.now.time {
        curTimestamp := f.now.time;
        buf := buf + ("#TS:" + Dec(curTimestamp) + "\r\n");
        NoteText(curTimestamp);
      }
      assert buf == if NeedsStamp(m, f) then EncodeItem(Note(f.now.time)) else "";
      ghost var note := buf;
      if f.db != -1 && f.db != selectedDb {
        buf := CatGenericCommand(buf, ["SELECT", Dec(f.db)]);
        selectedDb := f.db;
      }
      assert buf == note + if NeedsSelect(m, f) then EncodeItem(Cmd(SelectArgv(f.db))) else "";
      buf := CatGenericCommand(buf, f.argv);
      aofBuf := aofBuf + buf;
    }
  }

  lemma NoteText(ts: nat)
    ensures EncodeItem(Note(ts)) == "#TS:" + Dec(ts) + "\r\n"
  {
  }

  lemma EncodeFeedOne(m: Memory, f: Fed)
    requires f.db >= -1
    ensures Encode(FeedOne(m, f))
         == (if NeedsStamp(m, f) then EncodeItem(Note(f.now.time)) else "")
            + (if NeedsSelect(m, f) then EncodeItem(Cmd(SelectArgv(f.db))) else "")
            + EncodeItem(Cmd(f.argv))
  {
    hide EncodeItem;
    var note := if NeedsStamp(m, f) then [Note(f.now.time)] else [];
    var select := if NeedsSelect(m, f) then [Cmd(SelectArgv(f.db))] else [];
    EncodeAppend(note + select, [Cmd(f.argv)]);
    EncodeAppend(note, select);
    EncodeSingle(Cmd(f.argv));
    if NeedsStamp(m, f) { EncodeSingle(Note(f.now.time)); }
    if NeedsSelect(m, f) { EncodeSingle(Cmd(SelectArgv(f.db))); }
  }

  lemma EncodeSingle(it: Item)
    ensures Encode([it]) == EncodeItem(it)
  {
    hide EncodeItem;
    assert [it][1..] == [];
    assert Encode([]) == "";
  }

  /* -------------------------------------------- what was fed, independently of SELECT */

  /** The reference: commands run in the database they were fed for; inside MULTI they wait
      for EXEC. */
  datatype Reference = Reference(multi: bool, waiting: seq<Run>, runs: seq<Run>)

  function Expect(r: Reference, f: Fed): (r': Reference) {
    match KindOf(f.argv)
    case Multi => r.(multi := true)
    case Exec => Reference(false, [], r.runs + r.waiting)
    case Select => r
    case Other =>
      if r.multi then r.(waiting := r.waiting + [Run(f.db, f.argv)]) else r.(runs := r.runs + [Run(f.db, f.argv)])
  }

  function ExpectAll(r: Reference, fed: seq<Fed>): (r': Reference) {
    if fed == [] then r else Expect(ExpectAll(r, fed[..|fed| - 1]), fed[|fed| - 1])
  }

  /** What a server feeds: ordinary commands with their database, transactions bracketed by
      MULTI and EXEC without one, never a SELECT of its own. */
  predicate WellFed(r: Reference, f: Fed) {
    match KindOf(f.argv)
    case Multi => f.db == -1 && !r.multi
    case Exec => f.db == -1 && r.multi
    case Select => false
    case Other => 0 <= f.db
  }

  predicate AllWellFed(r: Reference, fed: seq<Fed>) {
    fed == [] || (AllWellFed(r, fed[..|fed| - 1]) && WellFed(ExpectAll(r, fed[..|fed| - 1]), fed[|fed| - 1]))
  }

  lemma {:induction false} WellFedDb(r: Reference, fed: seq<Fed>)
    requires AllWellFed(r, fed)
    ensures forall i :: 0 <= i < |fed| ==> fed[i].db >= -1
  {
    if fed != [] {
      WellFedDb(r, fed[..|fed| - 1]);
      assert forall i :: 0 <= i < |fed| - 1 ==> fed[i] == fed[..|fed| - 1][i];
    }
  }

  /** The client that would result from executing what is queued now. */
  function Drained(c: Client): (r: Client) { CallAll(c.(multi := false, queue := []), c.queue) }

  /** Client, feeder and reference agree: same commands run, same commands waiting, and the
      database the feeder believes selected is the one the client will be in. */
  predicate Agrees(c: Client, m: Memory, r: Reference) {
    && c.multi == r.multi && c.runs == r.runs
    && (!c.multi ==> c.queue == [] && r.waiting == [])
    && Drained(c).runs == r.runs + r.waiting
    && (m.selected >= 0 ==> Drained(c).db == m.selected)
  }

  lemma DrainedQueue(c: Client, argv: Argv)
    ensures Drained(c.(queue := c.queue + [argv])) == Call(Drained(c), argv)
  {
    assert (c.queue + [argv])[..|c.queue|] == c.queue;
  }

  lemma DrainedIdle(c: Client)
    requires !c.multi && c.queue == []
    ensures Drained(c) == c
  {
    assert c.(multi := false, queue := []) == c;
  }

  lemma SelectCalls(c: Client, db: nat)
    ensures KindOf(SelectArgv(db)) == Select
    ensures Call(c, SelectArgv(db)) == c.(db := db)
  {
    assert Lower("SELECT") == "select";
    DigitsOfDec(db);
  }

  /** A SELECT in front brings the client, now or once drained, into the wanted database. */
  lemma SelectAgrees(c: Client, m: Memory, r: Reference, db: nat)
    requires Agrees(c, m, r)
    ensures Agrees(Do(c, SelectArgv(db)), Memory(db, m.stamp), r)
  {
    hide KindOf;
    SelectCalls(c, db);
    SelectCalls(Drained(c), db);
    if c.multi {
      DrainedQueue(c, SelectArgv(db));
    } else {
      DrainedIdle(c);
      DrainedIdle(c.(db := db));
    }
  }

  /** Then the command itself keeps the agreement. */
  lemma CommandAgrees(c: Client, m: Memory, r: Reference, f: Fed)
    requires Agrees(c, m, r) && WellFed(r, f) && (f.db >= 0 ==> m.selected == f.db)
    ensures Agrees(Do(c, f.argv), m, Expect(r, f))
  {
    hide KindOf;
    var d := Do(c, f.argv);
    match KindOf(f.argv) {
      case Multi =>
        assert d.queue == [];
        DrainedIdle(c);
        assert Drained(d) == c.(multi := false, queue := []);
        assert r.runs + [] == r.runs;
      case Exec =>
        assert d == Drained(c);
        DrainedIdle(d);
        assert r.runs + r.waiting + [] == r.runs + r.waiting;
      case Other =>
        if c.multi {
          DrainedQueue(c, f.argv);
          assert r.runs + r.waiting + [Run(f.db, f.argv)] == r.runs + (r.waiting + [Run(f.db, f.argv)]);
        } else {
          DrainedIdle(c);
          DrainedIdle(d);
          assert r.runs + [] == r.runs;
        }
    }
  }

  lemma FeedAgrees(c: Client, m: Memory, r: Reference, f: Fed)
    requires Agrees(c, m, r) && WellFed(r, f) && f.db >= -1
    ensures Agrees(DoItems(c, FeedOne(m, f)), Remember(m, f), Expect(r, f))
  {
    hide KindOf;
    hide Do;
    hide Agrees;
    DoFeedOne(c, m, f);
    var c' := if NeedsSelect(m, f) then Do(c, SelectArgv(f.db)) else c;
    if NeedsSelect(m, f) { SelectAgrees(c, m, r, f.db); }
    var m' := Memory(if NeedsSelect(m, f) then f.db else m.selected, m.stamp);
    assert Agrees(c', m', r);
    CommandAgrees(c', m', r, f);
    StampIrrelevant(Do(c', f.argv), m', Remember(m, f), Expect(r, f));
  }

  lemma StampIrrelevant(c: Client, m: Memory, n: Memory, r: Reference)
    requires Agrees(c, m, r) && m.selected == n.selected
    ensures Agrees(c, n, r)
  {
  }

  lemma DoFeedOne(c: Client, m: Memory, f: Fed)
    requires f.db >= -1
    ensures DoItems(c, FeedOne(m, f)) == Do(if NeedsSelect(m, f) then Do(c, SelectArgv(f.db)) else c, f.argv)
  {
    hide Do;
    var note := if NeedsStamp(m, f) then [Note(f.now.time)] else [];
    var select := if NeedsSelect(m, f) then [Cmd(SelectArgv(f.db))] else [];
    var all := note + select + [Cmd(f.argv)];
    assert all[..|all| - 1] == note + select;
    if NeedsSelect(m, f) { assert (note + select)[..|note|] == note; } else { assert note + select == note; }
    if NeedsStamp(m, f) { assert note[..0] == []; }
    assert DoItems(c, note) == c;
  }

  lemma {:induction false} DoItemsAppend(c: Client, a: seq<Item>, b: seq<Item>)
    ensures DoItems(c, a + b) == DoItems(DoItems(c, a), b)
  {
    hide Do;
    if b == [] {
      assert a + b == a;
    } else {
      assert (a + b)[..|a + b| - 1] == a + b[..|b| - 1];
      DoItemsAppend(c, a, b[..|b| - 1]);
    }
  }

  lemma {:induction false} FeedAllAgrees(c: Client, m: Memory, r: Reference, fed: seq<Fed>)
    requires Agrees(c, m, r) && AllWellFed(r, fed)
    ensures forall i :: 0 <= i < |fed| ==> fed[i].db >= -1
    ensures Agrees(DoItems(c, FeedAll(m, fed)), MemoryAfter(m, fed), ExpectAll(r, fed))
  {
    hide Agrees;
    hide Expect;
    hide WellFed;
    hide FeedOne;
    hide DoItems;
    WellFedDb(r, fed);
    if fed == [] {
      assert FeedAll(m, fed) == [];
      DoNothing(c);
    } else {
      var init, last := fed[..|fed| - 1], fed[|fed| - 1];
      FeedAllAgrees(c, m, r, init);
      var c', m' := DoItems(c, FeedAll(m, init)), MemoryAfter(m, init);
      FeedAgrees(c', m', ExpectAll(r, init), last);
      DoItemsAppend(c, FeedAll(m, init), FeedOne(m', last));
    }
  }

  lemma DoNothing(c: Client)
    ensures DoItems(c, []) == c
  {
  }

  /** A fresh feeder agrees with any client outside a transaction. */
  lemma ResetAgrees(c: Client)
    requires !c.multi && c.queue == []
    ensures Agrees(c, RESET, Reference(false, [], c.runs))
  {
    DrainedIdle(c);
    assert c.runs + [] == c.runs;
  }

  /** Round trip: whatever is fed after a reset, the loader recovers the same commands in the
      same order, each in the database it was fed for, up to an unclosed transaction. */
  lemma FeedRoundTrip(known: Argv -> bool, cfg: Config, fed: seq<Fed>)
    requires AllWellFed(Reference(false, [], []), fed) && fed != []
    requires (forall i :: 0 <= i < |fed| ==> fed[i].db >= -1) && Loadable(known, FeedAll(RESET, fed))
    ensures var r := Load(cfg, known, Encode(FeedAll(RESET, fed)));
            var want := ExpectAll(Reference(false, [], []), fed);
            r.runs == want.runs && (!want.multi ==> r.status == Ok)
  {
    hide Loop;
    hide Through;
    hide Do;
    hide EncodeItem;
    hide FeedAll;
    var items := FeedAll(RESET, fed);
    ResetAgrees(NEW_CLIENT);
    FeedAllAgrees(NEW_CLIENT, RESET, Reference(false, [], []), fed);
    WholeLoad(known, items);
    ThroughClient(START, items, 0);
    FedIsNonEmpty(RESET, fed);
    NonEmptyEncoding(items);
  }

  lemma FedIsNonEmpty(m: Memory, fed: seq<Fed>)
    requires fed != [] && forall i :: 0 <= i < |fed| ==> fed[i].db >= -1
    ensures FeedAll(m, fed) != []
  {
    assert |FeedOne(MemoryAfter(m, fed[..|fed| - 1]), fed[|fed| - 1])| >= 1;
  }

  /** Outside a transaction the client's queue is empty. */
  lemma {:induction false} IdleQueueEmpty(items: seq<Item>)
    ensures !DoItems(NEW_CLIENT, items).multi ==> DoItems(NEW_CLIENT, items).queue == []
  {
    hide KindOf;
    if items != [] { IdleQueueEmpty(items[..|items| - 1]); }
  }

  /** A server that recovers a cut log and goes on feeding: unless the cut tore a note after
      closed commands or a command of an open transaction, the next load runs what the first
      one ran and then every command fed since, each in its own database. */
  lemma ContinueAfterRecovery(known: Argv -> bool, items: seq<Item>, c: nat, fed: seq<Fed>)
    requires Loadable(known, items) && NoNesting(items) && 1 <= c <= |Encode(items)|
    requires !TornNote(items, c) && !OpenLeft(items, c)
    requires AllWellFed(Reference(false, [], Load(RECOVERING, known, Encode(items)[..c]).runs), fed) && fed != []
    requires (forall i :: 0 <= i < |fed| ==> fed[i].db >= -1) && Loadable(known, FeedAll(RESET, fed))
    ensures var first := Load(RECOVERING, known, Encode(items)[..c]);
            Load(RECOVERING, known, FileAfter(known, items, c) + Encode(FeedAll(RESET, fed))).runs
              == ExpectAll(Reference(false, [], first.runs), fed).runs
  {
    hide Loop;
    hide Through;
    hide Do;
    hide EncodeItem;
    hide FeedAll;
    hide DoItems;
    hide NoNesting;
    hide AllWellFed;
    hide FileAfter;
    var more, kept := FeedAll(RESET, fed), Kept(items, c);
    var client := After(kept).client;
    TruncatedLoad(known, items, c);
    KeptClient(items, c);
    ThroughClient(START, kept, 0);
    IdleQueueEmpty(kept);
    ResetAgrees(client);
    FeedAllAgrees(client, RESET, Reference(false, [], client.runs), fed);
    LoadAfterKept(known, items, c, more);
    FedIsNonEmpty(RESET, fed);
    NonEmptyEncoding(more);
  }
}
