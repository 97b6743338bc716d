/** The append-only file byte by byte where it matters to others: what is on the wire, what is
    written in front of a command, and what a load makes of a tail that is no log. */
module AofTails {
  import opened AofCodec
  import opened AofLoad
  import opened AofRecovery
  import opened AofFeed

  // ---- on the wire ----

  lemma DecStep(n: nat)
    requires n >= 10
    ensures Dec(n) == Dec(n / 10) + [Digit(n % 10)]
  {
  }

  lemma OneDigit(n: nat)
    requires n < 10
    ensures Dec(n) == [Digit(n)]
  {
  }

  lemma Stamp()
    ensures Dec(1628217470) == "1628217470"
  {
    hide Dec;
    OneDigit(1);
    DecStep(16);
    DecStep(162);
    DecStep(1628);
    DecStep(16282);
    DecStep(162821);
    DecStep(1628217);
    DecStep(16282174);
    DecStep(162821747);
    DecStep(1628217470);
  }

  lemma BulkText(arg: string)
    requires |arg| < 10
    ensures Bulk(arg) == "$" + [Digit(|arg|)] + "\r\n" + arg + "\r\n"
  {
  }

  lemma EncodeTwo(a: string, b: string)
    ensures EncodeItem(Cmd([a, b])) == "*2\r\n" + Bulk(a) + Bulk(b)
  {
    hide Bulk;
    OneDigit(2);
    assert [a, b][1..] == [b] && [b][1..] == [];
    assert Bulks([b]) == Bulk(b) + "";
  }

  /** A timestamp and a command as they stand in the file. */
  lemma NoteOnTheWire()
    ensures EncodeItem(Note(1628217470)) == "#TS:1628217470\r\n"
  {
    hide Dec;
    Stamp();
  }

  lemma CommandOnTheWire()
    ensures EncodeItem(Cmd(["SET", "key"])) == "*2\r\n$3\r\nSET\r\n$3\r\nkey\r\n"
  {
    hide EncodeItem;
    hide Bulk;
    EncodeTwo("SET", "key");
    BulkText("SET");
    BulkText("key");
  }

  /** The SELECT that the feeder writes. */
  lemma SelectOnTheWire()
    ensures EncodeItem(Cmd(SelectArgv(10))) == "*2\r\n$6\r\nSELECT\r\n$2\r\n10\r\n"
  {
    hide EncodeItem;
    hide Bulk;
    hide Dec;
    OneDigit(1);
    DecStep(10);
    assert Dec(10) == "10";
    EncodeTwo("SELECT", "10");
    BulkText("SELECT");
    BulkText("10");
  }

  // ---- in front of a command ----

  /** The database of the last command that had one is `db`; -1 if none had. */
  predicate LastDb(fed: seq<Fed>, db: int) {
    if db == -1 then forall j :: 0 <= j < |fed| ==> fed[j].db == -1
    else exists i :: 0 <= i < |fed| && fed[i].db == db && forall j :: i < j < |fed| ==> fed[j].db == -1
  }

  /** The latest time of any command is `t`; 0 if none had one. */
  predicate Latest(fed: seq<Fed>, t: nat) {
    && (forall j :: 0 <= j < |fed| && fed[j].now.Now? ==> fed[j].now.time <= t)
    && (t == 0 || exists j :: 0 <= j < |fed| && fed[j].now == Now(t))
  }

  /** What the feeder remembers: the database of the last command that had one, and the latest
      time seen. */
  lemma {:induction false} MemoryMeans(fed: seq<Fed>)
    requires forall i :: 0 <= i < |fed| ==> fed[i].db >= -1
    ensures LastDb(fed, MemoryAfter(RESET, fed).selected) && Latest(fed, MemoryAfter(RESET, fed).stamp)
  {
    if fed != [] {
      var n := |fed| - 1;
      var init, last := fed[..n], fed[n];
      MemoryMeans(init);
      var was, now := MemoryAfter(RESET, init), MemoryAfter(RESET, fed);
      if last.db == -1 && was.selected != -1 {
        var i :| 0 <= i < n && init[i].db == was.selected && forall j :: i < j < n ==> init[j].db == -1;
        assert fed[i].db == now.selected && forall j :: i < j < |fed| ==> fed[j].db == -1;
      } else if last.db != -1 {
        assert fed[n].db == now.selected;
      }
      if now.stamp == was.stamp && was.stamp != 0 {
        var j :| 0 <= j < n && init[j].now == Now(was.stamp);
        assert fed[j].now == Now(now.stamp);
      } else if now.stamp != was.stamp {
        assert fed[n].now == Now(now.stamp);
      }
    }
  }

  /** So a command is preceded by a SELECT exactly when it has a database and the last one that
      had one had another, and by a timestamp exactly when its time is later than all before. */
  lemma FeedExact(fed: seq<Fed>, f: Fed, db: int, t: nat)
    requires (forall i :: 0 <= i < |fed| ==> fed[i].db >= -1) && f.db >= -1 && LastDb(fed, db) && Latest(fed, t)
    ensures FeedOne(MemoryAfter(RESET, fed), f) == Stamped(f, t) + Selected(f, db) + [Cmd(f.argv)]
  {
    var m := MemoryAfter(RESET, fed);
    MemoryMeans(fed);
    OneLast(fed, db, m.selected);
    OneLatest(fed, t, m.stamp);
  }

  function Stamped(f: Fed, latest: nat): (r: seq<Item>) {
    if f.now.Now? && f.now.time > latest then [Note(f.now.time)] else []
  }

  function Selected(f: Fed, last: int): (r: seq<Item>)
    requires f.db >= -1
  {
    if f.db != -1 && f.db != last then [Cmd(["SELECT", Dec(f.db)])] else []
  }

  lemma OneLatest(fed: seq<Fed>, a: nat, b: nat)
    requires Latest(fed, a) && Latest(fed, b)
    ensures a == b
  {
  }

  lemma OneLast(fed: seq<Fed>, a: int, b: int)
    requires LastDb(fed, a) && LastDb(fed, b)
    ensures a == b
  {
  }

  // ---- tails that are no log ----

  /** A log followed by something that is neither a command nor a note: the commands of the log run,
      and the load recovers, cutting the file where they end, if and only if the tail is shorter
      than the limit; otherwise it fails and the file stays. */
  lemma CorruptTail(cfg: Config, known: Argv -> bool, items: seq<Item>, tail: string)
    requires Loadable(known, items) && (items == [] || items[|items| - 1].Cmd?)
    requires tail != "" && tail[0] != '#' && tail[0] != '*'
    ensures var file := Encode(items) + tail;
            var runs := DoItems(NEW_CLIENT, items).runs;
            Load(cfg, known, file) ==
              if |tail| < cfg.corruptTailMax then Loaded(BrokenRecovered, runs, |Encode(items)|) else Loaded(Failed, runs, |file|)
  {
    hide ParseItem;
    hide EncodeItem;
    hide Through;
    hide DoItems;
    LoopThrough(known, items, tail, 0, START);
    ThroughClient(START, items, 0);
    NoItem(tail);
    ValidIsBoundary(items);
    AllValid(items);
  }

  lemma AllValid(items: seq<Item>)
    requires items == [] || items[|items| - 1].Cmd?
    ensures LastValid(items) == |items| && items[..|items|] == items
  {
  }

  lemma NoItem(s: string)
    requires s != "" && s[0] != '#' && s[0] != '*'
    ensures ParseItem(s) == Bad
  {
    assert Line(s) != "" && Line(s)[0] == s[0];
  }

  /** A command the server does not know ends the load as failed; what came before has run, and
      the file stays. */
  lemma UnknownStops(cfg: Config, known: Argv -> bool, items: seq<Item>, argv: Argv, more: string)
    requires Loadable(known, items) && Storable(Cmd(argv)) && !known(argv)
    ensures var file := Encode(items) + (EncodeItem(Cmd(argv)) + more);
            Load(cfg, known, file) == Loaded(Failed, DoItems(NEW_CLIENT, items).runs, |file|)
  {
    hide ParseItem;
    hide EncodeItem;
    hide Through;
    hide DoItems;
    var tail := EncodeItem(Cmd(argv)) + more;
    LoopThrough(known, items, tail, 0, START);
    ThroughClient(START, items, 0);
    ReadCommand(argv, more);
    NonEmptyCommand(argv);
  }

  lemma NonEmptyCommand(argv: Argv)
    ensures EncodeItem(Cmd(argv)) != ""
  {
  }

  // ---- numbers and lines that the server does not write ----

  /** White space in front of a number is skipped, and a sign is taken. */
  lemma NumberText(n: nat, c: char, s: string)
    ensures c in {' ', '\t', '\n', 11 as char, 12 as char, '\r'} ==> Number([c] + s) == Number(s)
    ensures Number("-" + Dec(n)) == 0 - n && Number("+" + Dec(n)) == n
  {
    DigitsOfDec(n);
    assert ([c] + s)[1..] == s;
    assert ("-" + Dec(n))[1..] == Dec(n) && ("+" + Dec(n))[1..] == Dec(n);
  }

  /** A count below one is a format error. */
  lemma NoCount(n: nat, t: string)
    requires n <= ARGC_LIMIT
    ensures ParseItem("*-" + Dec(n) + "\r\n" + t) == Bad && ParseItem("*0\r\n" + t) == Bad
  {
    hide Dec;
    hide ParseArgs;
    NegativeLine(n, t);
    OneDigit(0);
    ReadHeader('*', 0, t);
    assert Header('*', 0) == "*0\r\n";
  }

  lemma NegativeLine(n: nat, t: string)
    requires n <= ARGC_LIMIT
    ensures ParseItem("*-" + Dec(n) + "\r\n" + t) == Bad
  {
    hide ParseArgs;
    hide Number;
    hide LineLength;
    hide Dec;
    var line := "*-" + Dec(n) + "\r\n";
    NegativeHeader(n, t);
    NegativeNumber(n);
    assert line[1..] == "-" + Dec(n) + "\r\n" && line[1] == '-';
    NegativeCount(line[1..], n);
  }

  lemma NegativeCount(s: string, n: nat)
    requires Number(s) == 0 - n && n <= ARGC_LIMIT
    ensures Atoi(s) < 1
  {
    hide Number;
  }

  lemma NegativeHeader(n: nat, t: string)
    requires n < LIMIT
    ensures Line("*-" + Dec(n) + "\r\n" + t) == "*-" + Dec(n) + "\r\n"
  {
    hide Dec;
    DecFits(n);
    var h := "*-" + Dec(n) + "\r";
    assert "*-" + Dec(n) + "\r\n" + t == h + "\n" + t;
    LineEndsAtNewline(h, t, LINE_MAX);
  }

  lemma NegativeNumber(n: nat)
    ensures Number("-" + Dec(n) + "\r\n") == 0 - n
  {
    var s := "-" + Dec(n) + "\r\n";
    assert s[1..] == Dec(n) + "\r\n";
    DigitsOfDec(n);
    DigitsAppend(Dec(n), "\r\n", 0);
  }
}
