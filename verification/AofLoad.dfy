/** Replaying an append-only log: the loading loop with its truncation rules, what it executes
    for any well-formed log cut at any byte, and what the feeder's log replays to. */
module AofLoad {
  import opened AofCodec
  import opened Ascii

  /* ----------------------------------------------------------- the fake client */

  datatype Kind = Multi | Exec | Select | Other

  function KindOf(argv: Argv): (k: Kind) {
    if argv == [] then Other
    else if Lower(argv[0]) == "multi" then Multi
    else if Lower(argv[0]) == "exec" then Exec
    else if Lower(argv[0]) == "select" then Select
    else Other
  }

  /** A command executed in a database. */
  datatype Run = Run(db: int, argv: Argv)

  datatype Client = Client(db: int, multi: bool, queue: seq<Argv>, runs: seq<Run>)

  const NEW_CLIENT: Client := Client(0, false, [], [])

  predicate IsIndex(s: string) { s != "" && forall i :: 0 <= i < |s| ==> IsDigit(s[i]) }

  /** Executing one command outside of queueing. */
  function Call(c: Client, argv: Argv): (r: Client)
    ensures r.multi == c.multi && r.queue == c.queue && c.runs <= r.runs
  {
    match KindOf(argv)
    case Multi => c
    case Exec => c
    case Select => if |argv| == 2 && IsIndex(argv[1]) then c.(db := Digits(argv[1], 0)) else c
    case Other => c.(runs := c.runs + [Run(c.db, argv)])
  }

  function CallAll(c: Client, queue: seq<Argv>): (r: Client)
    ensures r.multi == c.multi && r.queue == c.queue && c.runs <= r.runs
  {
    if queue == [] then c else Call(CallAll(c, queue[..|queue| - 1]), queue[|queue| - 1])
  }

  /** One loaded command: queued inside MULTI, otherwise executed; EXEC executes the queue. */
  function Do(c: Client, argv: Argv): (r: Client) {
    var k := KindOf(argv);
    if c.multi && k != Exec then c.(queue := c.queue + [argv])
    else if k == Multi then c.(multi := true)
    else if k == Exec then (if c.multi then CallAll(c.(multi := false, queue := []), c.queue) else c)
    else Call(c, argv)
  }

  /* ----------------------------------------------------------------- the loop */

  /** The client, the end of the last complete command, and that end before the last MULTI. */
  datatype Progress = Progress(client: Client, valid: nat, beforeMulti: nat)

  const START: Progress := Progress(NEW_CLIENT, 0, 0)

  datatype Stop = AtEnd | ShortRead | BadFormat | ReadError | UnknownCommand | OutOfMemory

  function Took(st: Progress, argv: Argv, end: nat): (r: Progress) {
    Progress(Do(st.client, argv), end, if KindOf(argv) == Multi then st.valid else st.beforeMulti)
  }

  function Loop(known: Argv -> bool, s: string, pos: nat, st: Progress): (r: (Stop, Progress))
    decreases |s|
  {
    match ParseItem(s)
    case End => (AtEnd, st)
    case Skip(rest) => Loop(known, rest, pos + |s| - |rest|, st)
    case Command(argv, rest) =>
      if !known(argv) then (UnknownCommand, st)
      else Loop(known, rest, pos + |s| - |rest|, Took(st, argv, pos + |s| - |rest|))
    case Short => (ShortRead, st)
    case Broken => (ReadError, st)
    case Bad => (BadFormat, st)
    case Abort => (OutOfMemory, st)
  }

  datatype Status = Ok | Empty | Truncated | BrokenRecovered | Failed

  /** `size` is the length of the file after loading. */
  datatype Loaded = Loaded(status: Status, runs: seq<Run>, size: nat)

  datatype Config = Config(loadTruncated: bool, corruptTailMax: nat)

  function Finish(cfg: Config, size: nat, stop: Stop, st: Progress): (r: Loaded) {
    var runs := st.client.runs;
    match stop
    case AtEnd =>
      if !st.client.multi then Loaded(Ok, runs, size)
      else if cfg.loadTruncated then Loaded(Truncated, runs, st.beforeMulti)
      else Loaded(Failed, runs, size)
    case ShortRead =>
      if cfg.loadTruncated then Loaded(Truncated, runs, st.valid) else Loaded(Failed, runs, size)
    case BadFormat =>
      // the end of the last command is tracked only when one of the two options is on
      if cfg.corruptTailMax != 0 && size < cfg.corruptTailMax + st.valid then Loaded(BrokenRecovered, runs, st.valid)
      else Loaded(Failed, runs, size)
    case _ => Loaded(Failed, runs, size)
  }

  function Load(cfg: Config, known: Argv -> bool, file: string): (r: Loaded) {
    if file == "" then Loaded(Empty, [], 0)
    else var (stop, st) := Loop(known, file, 0, START); Finish(cfg, |file|, stop, st)
  }

  /** The loading loop as it runs, with its offsets in local variables. */
  method LoadSingleAppendOnlyFile(cfg: Config, known: Argv -> bool, file: string) returns (r: Loaded)
    ensures r == Load(cfg, known, file)
  {
    hide ParseItem;
    hide Do;
    if file == "" { return Loaded(Empty, [], 0); }
    var rest, pos: nat := file, 0;
    var client, validUpTo: nat, validBeforeMulti: nat := NEW_CLIENT, 0, 0;
    var stop := AtEnd;
    var running := true;
    while running
      invariant running ==> Loop(known, rest, pos, Progress(client, validUpTo, validBeforeMulti)) == Loop(known, file, 0, START)
      invariant !running ==> Loop(known, file, 0, START) == (stop, Progress(client, validUpTo, validBeforeMulti))
      decreases running, |rest|
    {
      match ParseItem(rest)
      case End => stop, running := AtEnd, false;
      case Skip(more) => pos, rest := pos + |rest| - |more|, more;
      case Command(argv, more) =>
        if !known(argv) {
          stop, running := UnknownCommand, false;
        } else {
          if KindOf(argv) == Multi { validBeforeMulti := validUpTo; }
          client := Do(client, argv);
          pos, rest := pos + |rest| - |more|, more;
          validUpTo := pos;
        }
      case Short => stop, running := ShortRead, false;
      case Broken => stop, running := ReadError, false;
      case Bad => stop, running := BadFormat, false;
      case Abort => stop, running := OutOfMemory, false;
    }
    r := Finish(cfg, |file|, stop, Progress(client, validUpTo, validBeforeMulti));
  }

  /* ------------------------------------------------------------ logs of items */

  predicate AllKnown(known: Argv -> bool, items: seq<Item>) {
    forall i :: 0 <= i < |items| && items[i].Cmd? ==> known(items[i].argv)
  }

  /** Where loading a whole log of items leads, starting at byte `pos`. */
  function Through(st: Progress, items: seq<Item>, pos: nat): (r: Progress)
    decreases |items|
  {
    if items == [] then st
    else
      var end := pos + |EncodeItem(items[0])|;
      Through(if items[0].Cmd? then Took(st, items[0].argv, end) else st, items[1..], end)
  }

  /** Loading goes through a log item by item, whatever follows it. */
  lemma {:induction false} LoopThrough(known: Argv -> bool, items: seq<Item>, t: string, pos: nat, st: Progress)
    requires AllStorable(items) && AllKnown(known, items)
    ensures Loop(known, Encode(items) + t, pos, st) == Loop(known, t, pos + |Encode(items)|, Through(st, items, pos))
    decreases |items|
  {
    hide ParseItem;
    hide EncodeItem;
    hide Took;
    if items == [] {
      assert Encode(items) + t == t;
    } else {
      var it, more := items[0], Encode(items[1..]) + t;
      assert Encode(items) + t == EncodeItem(it) + more;
      if it.Cmd? { ReadCommand(it.argv, more); } else { ReadNote(it.ts, more); }
      var end := pos + |EncodeItem(it)|;
      LoopThrough(known, items[1..], t, end, if it.Cmd? then Took(st, it.argv, end) else st);
    }
  }

  lemma {:induction false} EncodeAppend(a: seq<Item>, b: seq<Item>)
    ensures Encode(a + b) == Encode(a) + Encode(b)
  {
    if a == [] {
      assert a + b == b;
    } else {
      assert (a + b)[1..] == a[1..] + b;
      EncodeAppend(a[1..], b);
    }
  }

  lemma {:induction false} ThroughAppend(st: Progress, a: seq<Item>, b: seq<Item>, pos: nat)
    ensures Through(st, a + b, pos) == Through(Through(st, a, pos), b, pos + |Encode(a)|)
    decreases |a|
  {
    hide EncodeItem;
    hide Took;
    if a == [] {
      assert a + b == b;
    } else {
      assert (a + b)[1..] == a[1..] + b;
      var end := pos + |EncodeItem(a[0])|;
      ThroughAppend(if a[0].Cmd? then Took(st, a[0].argv, end) else st, a[1..], b, end);
    }
  }

  /** How many items lie wholly within the first `c` bytes. */
  function Whole(items: seq<Item>, c: nat): (k: nat)
    ensures k <= |items|
  {
    if items == [] || c < |EncodeItem(items[0])| then 0 else 1 + Whole(items[1..], c - |EncodeItem(items[0])|)
  }

  /** A cut log is the whole items, then a proper piece of the next one. */
  lemma {:induction false} CutShape(items: seq<Item>, c: nat)
    requires c <= |Encode(items)|
    ensures var k := Whole(items, c);
            && |Encode(items[..k])| <= c
            && (k == |items| ==> c == |Encode(items)| && Encode(items)[..c] == Encode(items[..k]))
            && (k < |items| ==> c - |Encode(items[..k])| < |EncodeItem(items[k])|)
            && (k < |items| ==> Encode(items)[..c] == Encode(items[..k]) + EncodeItem(items[k])[..c - |Encode(items[..k])|])
  {
    hide EncodeItem;
    if items != [] && c >= |EncodeItem(items[0])| {
      var n := |EncodeItem(items[0])|;
      CutShape(items[1..], c - n);
      var k := Whole(items[1..], c - n);
      assert items[..k + 1] == [items[0]] + items[1..][..k];
      assert items[..k + 1][1..] == items[1..][..k];
      assert Encode(items)[..c] == EncodeItem(items[0]) + Encode(items[1..])[..c - n];
      if k < |items[1..]| {
        var r := c - n - |Encode(items[1..][..k])|;
        assert Encode(items)[..c] == EncodeItem(items[0]) + (Encode(items[1..][..k]) + EncodeItem(items[1..][k])[..r]);
      }
    } else {
      assert items[..0] == [];
      if items != [] { assert Encode(items)[..c] == EncodeItem(items[0])[..c]; }
    }
  }

  /** The log is cut strictly inside an item. */
  predicate CutInside(items: seq<Item>, c: nat)
    requires c <= |Encode(items)|
  {
    Whole(items, c) < |items| && |Encode(items[..Whole(items, c)])| < c
  }

  predicate CutInsideCommand(items: seq<Item>, c: nat)
    requires c <= |Encode(items)|
  {
    CutInside(items, c) && items[Whole(items, c)].Cmd?
  }

  predicate CutInsideNote(items: seq<Item>, c: nat)
    requires c <= |Encode(items)|
  {
    CutInside(items, c) && items[Whole(items, c)].Note?
  }

  /** What loading a cut log does: it goes through the complete items, and reports a short
      read exactly when the cut is inside a command. */
  lemma LoopOfCut(known: Argv -> bool, items: seq<Item>, c: nat)
    requires AllStorable(items) && AllKnown(known, items) && c <= |Encode(items)|
    ensures Loop(known, Encode(items)[..c], 0, START)
         == (if CutInsideCommand(items, c) then ShortRead else AtEnd, Through(START, items[..Whole(items, c)], 0))
  {
    hide ParseItem;
    hide EncodeItem;
    hide Encode;
    hide Whole;
    hide Through;
    CutShape(items, c);
    ReadNothing();
    var k := Whole(items, c);
    var done, n := items[..k], |Encode(items[..k])|;
    var piece := if k < |items| then EncodeItem(items[k])[..c - n] else "";
    assert Encode(items)[..c] == Encode(done) + piece;
    LoopThrough(known, done, piece, 0, START);
    if CutInside(items, c) {
      assert Storable(items[k]);
      if items[k].Cmd? { ReadCutCommand(items[k].argv, c - n); } else { ReadCutNote(items[k].ts, c - n); }
    } else {
      assert piece == "";
    }
  }

  /* ------------------------------------------------------- boundaries in a log */

  /** The progress after all of a log. */
  function After(items: seq<Item>): (r: Progress) { Through(START, items, 0) }

  /** Index just past the last command. */
  function LastValid(items: seq<Item>): (j: nat)
    ensures j <= |items|
  {
    if items == [] then 0
    else if items[|items| - 1].Cmd? then |items|
    else LastValid(items[..|items| - 1])
  }

  /** Index just past the last command before the last MULTI. */
  function LastMulti(items: seq<Item>): (j: nat)
    ensures j <= |items|
  {
    if items == [] then 0
    else
      var init, last := items[..|items| - 1], items[|items| - 1];
      if last.Cmd? && KindOf(last.argv) == Multi then LastValid(init) else LastMulti(init)
  }

  lemma EncodeInitLast(items: seq<Item>)
    requires items != []
    ensures Encode(items) == Encode(items[..|items| - 1]) + EncodeItem(items[|items| - 1])
  {
    hide EncodeItem;
    var init, last := items[..|items| - 1], items[|items| - 1];
    assert items == init + [last];
    EncodeAppend(init, [last]);
    EncodeOne(last);
  }

  lemma EncodeOne(item: Item)
    ensures Encode([item]) == EncodeItem(item)
  {
    hide EncodeItem;
    assert [item][1..] == [];
  }

  /** The last item decides the last change. */
  lemma AfterInitLast(items: seq<Item>)
    requires items != []
    ensures After(items) == var init, last := After(items[..|items| - 1]), items[|items| - 1];
                            if last.Cmd? then Took(init, last.argv, |Encode(items)|) else init
  {
    hide Took;
    hide EncodeItem;
    var init, last := items[..|items| - 1], items[|items| - 1];
    assert items == init + [last];
    EncodeInitLast(items);
    ThroughAppend(START, init, [last], 0);
    assert [last][1..] == [];
    var st, end := After(init), |Encode(items)|;
    assert Through(st, [last], |Encode(init)|) == Through(if last.Cmd? then Took(st, last.argv, end) else st, [], end);
  }

  /** The recorded end of the last command is an item boundary; notes after it change nothing. */
  lemma {:induction false} ValidIsBoundary(items: seq<Item>)
    ensures After(items).valid == |Encode(items[..LastValid(items)])|
    ensures After(items[..LastValid(items)]) == After(items)
  {
    hide Do;
    if items == [] {
      assert items[..0] == [];
    } else {
      AfterInitLast(items);
      var init, last := items[..|items| - 1], items[|items| - 1];
      if last.Cmd? {
        assert items[..|items|] == items;
      } else {
        ValidIsBoundary(init);
        assert init[..LastValid(init)] == items[..LastValid(init)];
      }
    }
  }

  /** No MULTI is logged inside an open transaction. */
  predicate NoNesting(items: seq<Item>) {
    items == [] ||
    (NoNesting(items[..|items| - 1]) &&
     (items[|items| - 1].Cmd? && KindOf(items[|items| - 1].argv) == Multi ==> !After(items[..|items| - 1]).client.multi))
  }

  lemma {:induction false} NoNestingPrefix(items: seq<Item>, k: nat)
    requires NoNesting(items) && k <= |items|
    ensures NoNesting(items[..k])
  {
    if k == |items| {
      assert items[..k] == items;
    } else {
      NoNestingPrefix(items[..|items| - 1], k);
      assert items[..|items| - 1][..k] == items[..k];
    }
  }

  /** The recorded offset before the last MULTI is an item boundary; while the transaction is
      open, nothing has run since, and at that boundary none is open. */
  lemma {:induction false} MultiIsBoundary(items: seq<Item>)
    requires NoNesting(items)
    ensures After(items).beforeMulti == |Encode(items[..LastMulti(items)])|
    ensures var j := LastMulti(items);
            After(items).client.multi ==>
              !After(items[..j]).client.multi && After(items[..j]).client.runs == After(items).client.runs
  {
    hide Through;
    hide EncodeItem;
    if items == [] {
      assert items[..0] == [];
      EmptyLog();
    } else {
      AfterInitLast(items);
      var init, last := items[..|items| - 1], items[|items| - 1];
      MultiIsBoundary(init);
      ValidIsBoundary(init);
      assert init[..LastMulti(init)] == items[..LastMulti(init)];
      assert init[..LastValid(init)] == items[..LastValid(init)];
    }
  }

  lemma EmptyLog()
    ensures After([]) == START && Encode([]) == ""
  {
  }

  /* ----------------------------------------------------------- truncated loading */

  /** The complete commands of a cut log, up to an unclosed MULTI. */
  function ClosedItems(items: seq<Item>): (r: seq<Item>) {
    if After(items).client.multi then items[..LastMulti(items)] else items
  }

  const RECOVERING: Config := Config(true, 0)

  /** Loading a log cut at any byte, with truncated loading on, succeeds; it runs exactly the
      complete commands outside an unclosed transaction; a shortened file ends on a command
      boundary. */
  lemma TruncatedLoad(known: Argv -> bool, items: seq<Item>, c: nat)
    requires AllStorable(items) && AllKnown(known, items) && NoNesting(items) && 1 <= c <= |Encode(items)|
    ensures var done := items[..Whole(items, c)];
            var r := Load(RECOVERING, known, Encode(items)[..c]);
            && r.runs == After(ClosedItems(done)).client.runs && !After(ClosedItems(done)).client.multi
            && (CutInsideCommand(items, c) ==>
                  r.status == Truncated && r.size == |Encode(done[..LastValid(done)])|)
            && (!CutInsideCommand(items, c) && After(done).client.multi ==>
                  r.status == Truncated && r.size == |Encode(ClosedItems(done))|)
            && (!CutInsideCommand(items, c) && !After(done).client.multi ==> r.status == Ok && r.size == c)
  {
    hide Loop;
    hide Through;
    hide EncodeItem;
    var k := Whole(items, c);
    var done := items[..k];
    LoopOfCut(known, items, c);
    NoNestingPrefix(items, k);
    MultiIsBoundary(done);
    ValidIsBoundary(done);
  }
}
