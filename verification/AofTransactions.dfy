/** Transactions in the append-only file as bytes: which words open and close one, what a complete
    one loads to, and what any piece of it loads to, with and without truncated loading. */
module AofTransactions {
  import opened Ascii
  import opened AofCodec
  import opened AofLoad
  import opened AofRecovery
  import opened AofFeed

  predicate Opens(argv: Argv) { |argv| == 1 && InEitherCase(argv[0], "MULTI", "multi") }

  predicate Closes(argv: Argv) { |argv| == 1 && InEitherCase(argv[0], "EXEC", "exec") }

  /** A command that has nothing to do with transactions or databases. */
  predicate Ordinary(argv: Argv) {
    && argv != [] && !InEitherCase(argv[0], "MULTI", "multi") && !InEitherCase(argv[0], "EXEC", "exec")
    && !InEitherCase(argv[0], "SELECT", "select")
  }

  predicate AllOrdinary(cmds: seq<Argv>) { forall i :: 0 <= i < |cmds| ==> Ordinary(cmds[i]) }

  lemma Kinds(argv: Argv)
    ensures Opens(argv) ==> KindOf(argv) == Multi
    ensures Closes(argv) ==> KindOf(argv) == Exec
    ensures Ordinary(argv) ==> KindOf(argv) == Other
  {
    hide Lower;
    if argv != [] {
      EitherCaseExact(argv[0], "MULTI", "multi");
      EitherCaseExact(argv[0], "EXEC", "exec");
      EitherCaseExact(argv[0], "SELECT", "select");
    }
  }

  // ---- logs of commands ----

  function Cmds(cmds: seq<Argv>): (items: seq<Item>)
    ensures |items| == |cmds| && forall i :: 0 <= i < |cmds| ==> items[i] == Item.Cmd(cmds[i])
  {
    seq(|cmds|, i requires 0 <= i < |cmds| => Item.Cmd(cmds[i]))
  }

  /** Each command run once in database `db`. */
  function RunsIn(db: int, cmds: seq<Argv>): (runs: seq<Run>)
    ensures |runs| == |cmds| && forall i :: 0 <= i < |cmds| ==> runs[i] == Run(db, cmds[i])
  {
    seq(|cmds|, i requires 0 <= i < |cmds| => Run(db, cmds[i]))
  }

  lemma CmdsSnoc(cmds: seq<Argv>, argv: Argv)
    ensures Cmds(cmds + [argv]) == Cmds(cmds) + [Item.Cmd(argv)] && RunsIn(0, cmds + [argv]) == RunsIn(0, cmds) + [Run(0, argv)]
  {
  }

  /** Outside a transaction ordinary commands run at once; inside one they queue. */
  lemma {:induction false} OrdinaryRuns(c: Client, cmds: seq<Argv>)
    requires AllOrdinary(cmds) && c.db == 0
    ensures !c.multi ==> DoItems(c, Cmds(cmds)) == c.(runs := c.runs + RunsIn(0, cmds))
    ensures c.multi ==> DoItems(c, Cmds(cmds)) == c.(queue := c.queue + cmds)
  {
    hide KindOf;
    if cmds == [] {
      assert c.runs + RunsIn(0, cmds) == c.runs && c.queue + cmds == c.queue;
    } else {
      var init, last := cmds[..|cmds| - 1], cmds[|cmds| - 1];
      assert cmds == init + [last];
      OrdinaryRuns(c, init);
      CmdsSnoc(init, last);
      assert Cmds(cmds)[..|cmds| - 1] == Cmds(init);
      Kinds(last);
      assert c.runs + RunsIn(0, init) + [Run(0, last)] == c.runs + (RunsIn(0, init) + [Run(0, last)]);
      assert c.queue + init + [last] == c.queue + cmds;
    }
  }

  lemma {:induction false} QueueRuns(c: Client, cmds: seq<Argv>)
    requires AllOrdinary(cmds) && c.db == 0
    ensures CallAll(c, cmds) == c.(runs := c.runs + RunsIn(0, cmds))
  {
    hide KindOf;
    if cmds == [] {
      assert c.runs + RunsIn(0, cmds) == c.runs;
    } else {
      var init, last := cmds[..|cmds| - 1], cmds[|cmds| - 1];
      assert cmds == init + [last];
      QueueRuns(c, init);
      CmdsSnoc(init, last);
      Kinds(last);
      assert c.runs + RunsIn(0, init) + [Run(0, last)] == c.runs + (RunsIn(0, init) + [Run(0, last)]);
    }
  }

  lemma DoOne(c: Client, argv: Argv)
    ensures DoItems(c, [Item.Cmd(argv)]) == Do(c, argv)
  {
    hide Do;
    assert [Item.Cmd(argv)][..0] == [];
    assert DoItems(c, []) == c;
  }

  /** The beginning of a log with a transaction, up to some of its commands. */
  function Begun(before: seq<Argv>, open: Argv, cmds: seq<Argv>): (items: seq<Item>) {
    Cmds(before) + [Item.Cmd(open)] + Cmds(cmds)
  }

  /** The whole of it. */
  function Transaction(before: seq<Argv>, open: Argv, cmds: seq<Argv>, close: Argv, rest: seq<Argv>): (items: seq<Item>) {
    Begun(before, open, cmds) + [Item.Cmd(close)] + Cmds(rest)
  }

  lemma BegunRuns(before: seq<Argv>, open: Argv, cmds: seq<Argv>)
    requires AllOrdinary(before) && AllOrdinary(cmds) && Opens(open)
    ensures DoItems(NEW_CLIENT, Begun(before, open, cmds)) == Client(0, true, cmds, RunsIn(0, before))
  {
    hide DoItems;
    hide KindOf;
    OrdinaryRuns(NEW_CLIENT, before);
    assert [] + RunsIn(0, before) == RunsIn(0, before);
    DoItemsAppend(NEW_CLIENT, Cmds(before), [Item.Cmd(open)]);
    var c := DoItems(NEW_CLIENT, Cmds(before));
    DoOne(c, open);
    Kinds(open);
    DoItemsAppend(NEW_CLIENT, Cmds(before) + [Item.Cmd(open)], Cmds(cmds));
    OrdinaryRuns(Do(c, open), cmds);
    assert [] + cmds == cmds;
  }

  lemma TransactionRuns(before: seq<Argv>, open: Argv, cmds: seq<Argv>, close: Argv, rest: seq<Argv>)
    requires AllOrdinary(before) && AllOrdinary(cmds) && AllOrdinary(rest) && Opens(open) && Closes(close)
    ensures DoItems(NEW_CLIENT, Transaction(before, open, cmds, close, rest))
         == Client(0, false, [], RunsIn(0, before) + RunsIn(0, cmds) + RunsIn(0, rest))
  {
    hide DoItems;
    hide KindOf;
    hide CallAll;
    var begun := Begun(before, open, cmds);
    BegunRuns(before, open, cmds);
    DoItemsAppend(NEW_CLIENT, begun, [Item.Cmd(close)]);
    var c := DoItems(NEW_CLIENT, begun);
    DoOne(c, close);
    Kinds(close);
    QueueRuns(c.(multi := false, queue := []), cmds);
    DoItemsAppend(NEW_CLIENT, begun + [Item.Cmd(close)], Cmds(rest));
    OrdinaryRuns(Do(c, close), rest);
  }

  // ---- loading ----

  /** A complete transaction, in any spelling and between any ordinary commands, loads with every
      command run once and in order, for every configuration, and the file is left alone. */
  lemma TransactionLoads(cfg: Config, known: Argv -> bool, before: seq<Argv>, open: Argv, cmds: seq<Argv>, close: Argv, rest: seq<Argv>)
    requires AllOrdinary(before) && AllOrdinary(cmds) && AllOrdinary(rest) && Opens(open) && Closes(close)
    requires Loadable(known, Transaction(before, open, cmds, close, rest))
    ensures var file := Encode(Transaction(before, open, cmds, close, rest));
            Load(cfg, known, file) == Loaded(Ok, RunsIn(0, before) + RunsIn(0, cmds) + RunsIn(0, rest), |file|)
  {
    hide Loop;
    hide Through;
    hide EncodeItem;
    hide DoItems;
    var items := Transaction(before, open, cmds, close, rest);
    TransactionRuns(before, open, cmds, close, rest);
    WholeLoad(known, items);
    ThroughClient(START, items, 0);
    NonEmptyEncoding(items);
  }

  /** How many items of a log lie within its first `c` bytes, between two marks. */
  lemma WholeBetween(items: seq<Item>, m: nat, c: nat)
    requires m < |items| && |Encode(items[..m])| <= c <= |Encode(items)|
    ensures m <= Whole(items, c)
    ensures c < |Encode(items[..m + 1])| ==> Whole(items, c) == m
  {
    hide EncodeItem;
    CutShape(items, c);
    var k := Whole(items, c);
    if k < m {
      EncodeMono(items, k + 1, m);
      EncodeUpTo(items, k);
    }
    if k > m { EncodeMono(items, m + 1, k); }
  }

  lemma EncodeUpTo(items: seq<Item>, k: nat)
    requires k < |items|
    ensures Encode(items[..k + 1]) == Encode(items[..k]) + EncodeItem(items[k])
  {
    hide EncodeItem;
    EncodeInitLast(items[..k + 1]);
    assert items[..k + 1][..k] == items[..k];
  }

  lemma EncodeMono(items: seq<Item>, a: nat, b: nat)
    requires a <= b <= |items|
    ensures |Encode(items[..a])| <= |Encode(items[..b])|
  {
    assert items[..b] == items[..a] + items[a..b];
    EncodeAppend(items[..a], items[a..b]);
  }

  /** A log cut anywhere after MULTI and before the end of EXEC: none of the transaction runs,
      whatever the configuration. Without truncated loading the load fails and the file stays;
      with it the load succeeds and the file is cut no later than it was. */
  lemma CutTransaction(cfg: Config, known: Argv -> bool, before: seq<Argv>, open: Argv, cmds: seq<Argv>, close: Argv, rest: seq<Argv>, c: nat)
    requires AllOrdinary(before) && AllOrdinary(cmds) && Opens(open) && Closes(close)
    requires Loadable(known, Transaction(before, open, cmds, close, rest))
    requires |Encode(Begun(before, open, []))| <= c < |Encode(Transaction(before, open, cmds, close, []))|
    ensures |Encode(Transaction(before, open, cmds, close, []))| <= |Encode(Transaction(before, open, cmds, close, rest))|
    ensures var r := Load(cfg, known, Encode(Transaction(before, open, cmds, close, rest))[..c]);
            && r.runs == RunsIn(0, before)
            && (cfg.loadTruncated ==> r.status == Truncated && r.size <= c)
            && (!cfg.loadTruncated ==> r.status == Failed && r.size == c)
  {
    hide Loop;
    hide Through;
    hide EncodeItem;
    hide Encode;
    hide DoItems;
    hide Whole;
    var items := Transaction(before, open, cmds, close, rest);
    var j := Reached(before, open, cmds, close, rest, c);
    LoopOfCut(known, items, c);
    ThroughClient(START, items[..Whole(items, c)], 0);
    BegunRuns(before, open, cmds[..j]);
    OffsetsInside(items[..Whole(items, c)]);
    CutShape(items, c);
  }

  /** Such a cut keeps MULTI and some of the commands after it. */
  lemma Reached(before: seq<Argv>, open: Argv, cmds: seq<Argv>, close: Argv, rest: seq<Argv>, c: nat) returns (j: nat)
    requires |Encode(Begun(before, open, []))| <= c < |Encode(Transaction(before, open, cmds, close, []))|
    ensures |Encode(Transaction(before, open, cmds, close, []))| <= |Encode(Transaction(before, open, cmds, close, rest))|
    ensures j <= |cmds| && c >= 1
    ensures var items := Transaction(before, open, cmds, close, rest); items[..Whole(items, c)] == Begun(before, open, cmds[..j])
  {
    hide EncodeItem;
    hide Encode;
    hide Whole;
    var items := Transaction(before, open, cmds, close, rest);
    var m, n := |before| + 1, |before| + 1 + |cmds|;
    assert items[..m] == Begun(before, open, []);
    assert items[..n + 1] == Transaction(before, open, cmds, close, []);
    EncodeMono(items, n + 1, |items|);
    assert items[..|items|] == items;
    WholeBetween(items, m, c);
    EncodeMono(items, m, n);
    if |Encode(items[..n])| <= c { WholeBetween(items, n, c); }
    NotPast(items, n, c);
    j := Whole(items, c) - m;
    assert items[..m + j] == Begun(before, open, cmds[..j]);
    NonEmptyEncoding(items[..m]);
  }

  lemma NotPast(items: seq<Item>, n: nat, c: nat)
    requires n < |items| && c < |Encode(items[..n + 1])| && c <= |Encode(items)|
    ensures Whole(items, c) <= n
  {
    hide EncodeItem;
    CutShape(items, c);
    if Whole(items, c) > n { EncodeMono(items, n + 1, Whole(items, c)); }
  }

  /** The two recorded offsets are within what was read. */
  lemma OffsetsInside(items: seq<Item>)
    ensures After(items).valid <= |Encode(items)| && After(items).beforeMulti <= |Encode(items)|
  {
    ThroughInside(START, items, 0);
  }

  lemma {:induction false} ThroughInside(st: Progress, items: seq<Item>, pos: nat)
    requires st.valid <= pos && st.beforeMulti <= pos
    ensures var r := Through(st, items, pos); r.valid <= pos + |Encode(items)| && r.beforeMulti <= pos + |Encode(items)|
    decreases |items|
  {
    hide EncodeItem;
    hide Do;
    if items != [] {
      var end := pos + |EncodeItem(items[0])|;
      ThroughInside(if items[0].Cmd? then Took(st, items[0].argv, end) else st, items[1..], end);
    }
  }

  /** An EXEC outside a transaction does nothing. */
  lemma LoneExec(c: Client, close: Argv)
    requires !c.multi && Closes(close)
    ensures Do(c, close) == c
  {
    hide KindOf;
    Kinds(close);
  }

  /** A SELECT, in any spelling, moves to the database written by its one argument; with another
      number of arguments, or one that is not a decimal number, it does nothing. */
  lemma SelectExact(c: Client, argv: Argv)
    requires argv != [] && InEitherCase(argv[0], "SELECT", "select") && !c.multi
    ensures forall n: nat :: argv == [argv[0], Dec(n)] ==> Do(c, argv) == c.(db := n)
    ensures |argv| != 2 || argv[1] == "" || (exists i :: 0 <= i < |argv[1]| && !('0' <= argv[1][i] <= '9')) ==> Do(c, argv) == c
  {
    hide Lower;
    EitherCaseExact(argv[0], "SELECT", "select");
    assert KindOf(argv) == Select;
    hide KindOf;
    forall n: nat | argv == [argv[0], Dec(n)] ensures Do(c, argv) == c.(db := n) {
      assert argv[1] == Dec(n);
      DigitsOfDec(n);
    }
  }

  // ---- without truncated loading ----

  /** A log cut at any byte, truncated loading off: the load runs what a recovering load would
      run, never changes the file, and succeeds exactly when the cut is inside no command and
      no transaction is open there. */
  lemma StrictLoad(known: Argv -> bool, tailMax: nat, items: seq<Item>, c: nat)
    requires Loadable(known, items) && NoNesting(items) && 1 <= c <= |Encode(items)|
    ensures var r := Load(Config(false, tailMax), known, Encode(items)[..c]);
            && r.runs == Load(RECOVERING, known, Encode(items)[..c]).runs && r.size == c
            && r.status == if CutInsideCommand(items, c) || After(items[..Whole(items, c)]).client.multi then Failed else Ok
  {
    hide Loop;
    hide Through;
    hide EncodeItem;
    LoopOfCut(known, items, c);
  }
}
