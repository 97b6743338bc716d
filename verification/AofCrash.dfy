/** Feeding, flushing, crashing and loading put together: what is recovered from the file of a
    server that stopped at any moment, cut at any byte that was not yet synced. */
module AofCrash {
  import opened AofCodec
  import opened AofLoad
  import opened AofRecovery
  import opened AofFeed
  import F = AofFlush

  const NOTHING: Reference := Reference(false, [], [])

  /* ------------------------------------------------------------------ the server */

  datatype Act = Execute(fed: Fed) | Flush(call: F.Call)

  /** The flushing state, the feeder's memory and all commands fed. */
  datatype Server = Server(outcome: F.Outcome, memory: Memory, fed: seq<Fed>)

  function Boot(append: bool): (s: Server) {
    Server(F.Running(F.State(F.File("", 0, append), "", 0, 0, false, 0, 0, "", [])), RESET, [])
  }

  function Step(s: Server, a: Act): (r: Server)
    requires a.Execute? ==> a.fed.db >= -1
  {
    if s.outcome.Exited? then s
    else
      match a
      case Execute(f) =>
        Server(F.Running(F.Feed(s.outcome.state, Encode(FeedOne(s.memory, f)))), Remember(s.memory, f), s.fed + [f])
      case Flush(c) => s.(outcome := F.Flush(s.outcome.state, c))
  }

  predicate WellTyped(acts: seq<Act>) { forall i :: 0 <= i < |acts| && acts[i].Execute? ==> acts[i].fed.db >= -1 }

  function Serve(append: bool, acts: seq<Act>): (s: Server)
    requires WellTyped(acts)
  {
    if acts == [] then Boot(append) else Step(Serve(append, acts[..|acts| - 1]), acts[|acts| - 1])
  }

  /** No flush misplaces a write. */
  predicate Placed(append: bool, acts: seq<Act>)
    requires WellTyped(acts)
  {
    acts == [] ||
    (var init, last := acts[..|acts| - 1], acts[|acts| - 1];
     && Placed(append, init)
     && (last.Flush? && Serve(append, init).outcome.Running? ==> !F.Misplaced(Serve(append, init).outcome.state, last.call)))
  }

  predicate AllDb(fed: seq<Fed>) { forall i :: 0 <= i < |fed| ==> fed[i].db >= -1 }

  /** The file is a prefix of the encoding of the commands fed, and nothing synced is missing. */
  predicate Sound(s: Server) {
    var st := s.outcome.state;
    && AllDb(s.fed) && st.fed == Encode(FeedAll(RESET, s.fed)) && s.memory == MemoryAfter(RESET, s.fed)
    && st.file.bytes <= st.fed && F.Ahead(st.file)
    && (s.outcome.Running? ==> F.Conserved(st))
  }

  lemma ExecuteSound(s: Server, f: Fed)
    requires Sound(s) && s.outcome.Running? && f.db >= -1
    ensures Sound(Step(s, Execute(f)))
  {
    hide EncodeItem;
    hide FeedOne;
    hide Encode;
    var st, more := s.outcome.state, FeedOne(s.memory, f);
    assert (s.fed + [f])[..|s.fed|] == s.fed;
    EncodeAppend(FeedAll(RESET, s.fed), more);
    assert st.file.bytes + (st.buf + Encode(more)) == st.file.bytes + st.buf + Encode(more);
  }

  lemma FlushSound(s: Server, c: F.Call)
    requires Sound(s) && s.outcome.Running? && !F.Misplaced(s.outcome.state, c)
    ensures Sound(Step(s, Flush(c)))
  {
    hide F.Flush;
    hide F.Misplaced;
    hide FeedAll;
    hide Encode;
    F.FlushConservesIff(s.outcome.state, c);
  }

  lemma {:induction false} ServeSound(append: bool, acts: seq<Act>)
    requires WellTyped(acts) && Placed(append, acts)
    ensures Sound(Serve(append, acts))
  {
    hide Sound;
    hide Step;
    hide F.Misplaced;
    if acts == [] {
      BootSound(append);
    } else {
      var init, last := acts[..|acts| - 1], acts[|acts| - 1];
      ServeSound(append, init);
      var s := Serve(append, init);
      if s.outcome.Exited? {
        ExitedStays(s, last);
      } else if last.Execute? {
        ExecuteSound(s, last.fed);
      } else {
        FlushSound(s, last.call);
      }
    }
  }

  lemma BootSound(append: bool)
    ensures Sound(Boot(append))
  {
  }

  lemma ExitedStays(s: Server, a: Act)
    requires s.outcome.Exited? && (a.Execute? ==> a.fed.db >= -1)
    ensures Step(s, a) == s
  {
  }

  /** In append mode nothing is ever misplaced. */
  lemma {:induction false} AppendIsPlaced(acts: seq<Act>)
    requires WellTyped(acts)
    ensures Placed(true, acts) && Serve(true, acts).outcome.state.file.append
  {
    hide F.Flush;
    if acts != [] {
      var init, last := acts[..|acts| - 1], acts[|acts| - 1];
      AppendIsPlaced(init);
      if last.Flush? { F.FlushKeepsMode(Serve(true, init).outcome.state, last.call); }
    }
  }

  /* ----------------------------------------------------- cut logs of a feeder */

  /** How many fed commands lie wholly, with what was written in front of them, within the
      first `c` bytes. */
  function Within(fed: seq<Fed>, c: nat): (j: nat)
    requires AllDb(fed)
    ensures j <= |fed|
  {
    if fed == [] then 0
    else if |Encode(FeedAll(RESET, fed))| <= c then |fed|
    else Within(fed[..|fed| - 1], c)
  }

  /** The first bytes of one log after another. */
  lemma {:induction false} WholeAppend(a: seq<Item>, b: seq<Item>, c: nat)
    ensures c <= |Encode(a)| ==> Whole(a + b, c) == Whole(a, c)
    ensures c >= |Encode(a)| ==> Whole(a + b, c) == |a| + Whole(b, c - |Encode(a)|)
  {
    hide EncodeItem;
    if a == [] {
      assert a + b == b;
      if b != [] { NonEmptyItem(b[0]); }
    } else {
      var n := |EncodeItem(a[0])|;
      assert (a + b)[1..] == a[1..] + b && (a + b)[0] == a[0];
      if c >= n { WholeAppend(a[1..], b, c - n); }
    }
  }

  lemma NonEmptyItem(it: Item)
    ensures |EncodeItem(it)| >= 3
  {
  }

  lemma WholeOfAll(items: seq<Item>, c: nat)
    requires c <= |Encode(items)|
    ensures Whole(items, c) == |items| <==> c == |Encode(items)|
  {
    hide EncodeItem;
    CutShape(items, c);
    EncodePrefix(items, Whole(items, c));
  }

  /** What the feeder writes in front of a command runs nothing. */
  lemma PartRunsNothing(c: Client, m: Memory, f: Fed, w: nat)
    requires f.db >= -1 && w < |FeedOne(m, f)|
    ensures DoItems(c, FeedOne(m, f)[..w]).runs == c.runs
  {
    hide Do;
    hide DoItems;
    hide KindOf;
    hide SelectArgv;
    var one := FeedOne(m, f);
    assert one[..0] == [];
    DoNothing(c);
    if NeedsSelect(m, f) { SelectKind(f.db); }
    if w >= 1 {
      PrefixStep(c, one, 0);
      Quiet(c, one[0]);
    }
    if w == 2 {
      PrefixStep(c, one, 1);
      Quiet(DoItems(c, one[..1]), one[1]);
    }
  }

  lemma Quiet(c: Client, it: Item)
    requires it.Cmd? ==> KindOf(it.argv) == Select
    ensures it.Cmd? ==> Do(c, it.argv).runs == c.runs
  {
    hide KindOf;
  }

  lemma PrefixStep(c: Client, items: seq<Item>, w: nat)
    requires w < |items|
    ensures DoItems(c, items[..w + 1])
         == var p := DoItems(c, items[..w]); if items[w].Cmd? then Do(p, items[w].argv) else p
  {
    hide Do;
    assert items[..w + 1][..w] == items[..w];
  }

  lemma SelectKind(db: nat)
    ensures KindOf(SelectArgv(db)) == Select
  {
    SelectCalls(NEW_CLIENT, db);
  }

  /** A feeder's log cut at any byte holds the commands that lie wholly within, and no more. */
  lemma {:induction false} CutRuns(fed: seq<Fed>, c: nat)
    requires AllDb(fed) && AllWellFed(NOTHING, fed) && c <= |Encode(FeedAll(RESET, fed))|
    ensures DoItems(NEW_CLIENT, Complete(FeedAll(RESET, fed), c)).runs == ExpectAll(NOTHING, fed[..Within(fed, c)]).runs
  {
    hide EncodeItem;
    hide Encode;
    hide DoItems;
    hide FeedOne;
    hide Whole;
    hide Expect;
    hide WellFed;
    var items := FeedAll(RESET, fed);
    WholeOfAll(items, c);
    if c == |Encode(items)| {
      WholeCutRuns(fed);
      assert items[..|items|] == items && fed[..|fed|] == fed;
    } else if fed == [] {
      EmptyLog();
      assert false;
    } else {
      var init, last := fed[..|fed| - 1], fed[|fed| - 1];
      var before, one := FeedAll(RESET, init), FeedOne(MemoryAfter(RESET, init), last);
      assert init[..Within(init, c)] == fed[..Within(init, c)];
      if c <= |Encode(before)| {
        CutRuns(init, c);
        CutBefore(before, one, c);
      } else {
        WholeCutRuns(init);
        CutInLast(before, MemoryAfter(RESET, init), last, c);
        AllWithin(init, c);
        assert init[..|init|] == init;
      }
    }
  }

  lemma CutBefore(before: seq<Item>, one: seq<Item>, c: nat)
    requires c <= |Encode(before)|
    ensures Complete(before + one, c) == Complete(before, c)
  {
    hide Encode;
    hide Whole;
    WholeAppend(before, one, c);
    var w := Whole(before, c);
    assert (before + one)[..w] == before[..w];
  }

  lemma CutInLast(before: seq<Item>, m: Memory, f: Fed, c: nat)
    requires f.db >= -1 && |Encode(before)| <= c < |Encode(before + FeedOne(m, f))|
    ensures DoItems(NEW_CLIENT, Complete(before + FeedOne(m, f), c)).runs == DoItems(NEW_CLIENT, before).runs
  {
    hide Encode;
    hide Whole;
    hide FeedOne;
    hide DoItems;
    var one := FeedOne(m, f);
    EncodeAppend(before, one);
    WholeAppend(before, one, c);
    WholeOfAll(one, c - |Encode(before)|);
    var w := Whole(one, c - |Encode(before)|);
    assert (before + one)[..|before| + w] == before + one[..w];
    DoItemsAppend(NEW_CLIENT, before, one[..w]);
    PartRunsNothing(DoItems(NEW_CLIENT, before), m, f, w);
  }

  lemma AllWithin(fed: seq<Fed>, c: nat)
    requires AllDb(fed)
    ensures |Encode(FeedAll(RESET, fed))| <= c ==> Within(fed, c) == |fed|
  {
  }

  lemma WholeCutRuns(fed: seq<Fed>)
    requires AllDb(fed) && AllWellFed(NOTHING, fed)
    ensures DoItems(NEW_CLIENT, FeedAll(RESET, fed)).runs == ExpectAll(NOTHING, fed).runs
    ensures DoItems(NEW_CLIENT, FeedAll(RESET, fed)).multi == ExpectAll(NOTHING, fed).multi
  {
    ResetAgrees(NEW_CLIENT);
    FeedAllAgrees(NEW_CLIENT, RESET, NOTHING, fed);
  }

  /** A feeder never logs a MULTI inside an open transaction. */
  lemma {:induction false} FedNests(fed: seq<Fed>)
    requires AllDb(fed) && AllWellFed(NOTHING, fed)
    ensures NoNesting(FeedAll(RESET, fed))
  {
    hide DoItems;
    hide FeedOne;
    hide Expect;
    if fed != [] {
      var init, last := fed[..|fed| - 1], fed[|fed| - 1];
      FedNests(init);
      WholeCutRuns(init);
      OneNests(FeedAll(RESET, init), MemoryAfter(RESET, init), last);
    }
  }

  lemma OneNests(items: seq<Item>, m: Memory, f: Fed)
    requires NoNesting(items) && f.db >= -1
    requires KindOf(f.argv) == Multi ==> !DoItems(NEW_CLIENT, items).multi && f.db == -1
    ensures NoNesting(items + FeedOne(m, f))
  {
    hide KindOf;
    hide Do;
    hide NoNesting;
    var note := if NeedsStamp(m, f) then [Note(f.now.time)] else [];
    var select := if NeedsSelect(m, f) then [Cmd(SelectArgv(f.db))] else [];
    if NeedsStamp(m, f) {
      ExtendNests(items, note[0]);
      assert note == [note[0]];
    } else {
      assert items + note == items;
    }
    if NeedsSelect(m, f) {
      SelectKind(f.db);
      ExtendNests(items + note, select[0]);
      assert select == [select[0]];
    } else {
      assert items + note + select == items + note;
    }
    ExtendNests(items + note + select, Cmd(f.argv));
    assert items + note + select + [Cmd(f.argv)] == items + FeedOne(m, f);
  }

  lemma ExtendNests(items: seq<Item>, it: Item)
    requires NoNesting(items) && (it.Cmd? && KindOf(it.argv) == Multi ==> !DoItems(NEW_CLIENT, items).multi)
    ensures NoNesting(items + [it])
    ensures !it.Cmd? ==> DoItems(NEW_CLIENT, items + [it]) == DoItems(NEW_CLIENT, items)
  {
    hide KindOf;
    hide Through;
    hide Do;
    assert (items + [it])[..|items|] == items;
    ThroughClient(START, items, 0);
  }

  /* ------------------------------------------------------------------ recovery */

  /** A crash at any moment that keeps at least what was synced: the load runs exactly the
      commands that lie wholly within what is left, in order, each in the database it was fed
      for, without those of a transaction still open there. */
  lemma CrashRecovers(known: Argv -> bool, append: bool, acts: seq<Act>, c: nat)
    requires WellTyped(acts) && Placed(append, acts)
    requires var s := Serve(append, acts); AllWellFed(NOTHING, s.fed) && AllDb(s.fed) && Loadable(known, FeedAll(RESET, s.fed))
    requires c <= |Serve(append, acts).outcome.state.file.bytes|
    ensures var s := Serve(append, acts);
            && Load(RECOVERING, known, s.outcome.state.file.bytes[..c]).runs == ExpectAll(NOTHING, s.fed[..Within(s.fed, c)]).runs
            && (s.outcome.state.synced <= c ==> Within(s.fed, s.outcome.state.synced) <= Within(s.fed, c))
  {
    hide Load;
    hide Through;
    hide EncodeItem;
    hide DoItems;
    hide FeedAll;
    hide Serve;
    hide Placed;
    hide AllWellFed;
    hide Encode;
    var s := Serve(append, acts);
    var items, bytes := FeedAll(RESET, s.fed), s.outcome.state.file.bytes;
    ServeSound(append, acts);
    assert bytes[..c] == Encode(items)[..c];
    CutRuns(s.fed, c);
    LoadedRuns(known, s.fed, c);
    if s.outcome.state.synced <= c { WithinGrows(s.fed, s.outcome.state.synced, c); }
  }

  lemma LoadedRuns(known: Argv -> bool, fed: seq<Fed>, c: nat)
    requires AllDb(fed) && AllWellFed(NOTHING, fed) && Loadable(known, FeedAll(RESET, fed))
    requires c <= |Encode(FeedAll(RESET, fed))|
    ensures var items := FeedAll(RESET, fed);
            Load(RECOVERING, known, Encode(items)[..c]).runs == DoItems(NEW_CLIENT, Complete(items, c)).runs
  {
    hide Loop;
    hide Through;
    hide EncodeItem;
    hide FeedAll;
    hide NoNesting;
    var items := FeedAll(RESET, fed);
    LoopOfCut(known, items, c);
    ThroughClient(START, Complete(items, c), 0);
    if c == 0 { NothingWhole(items); }
  }

  lemma NothingWhole(items: seq<Item>)
    ensures Complete(items, 0) == [] && DoItems(NEW_CLIENT, []) == NEW_CLIENT
  {
    if items != [] { NonEmptyItem(items[0]); }
  }

  lemma {:induction false} WithinGrows(fed: seq<Fed>, a: nat, b: nat)
    requires AllDb(fed) && a <= b
    ensures Within(fed, a) <= Within(fed, b)
  {
    hide Encode;
    hide FeedAll;
    if fed != [] { WithinGrows(fed[..|fed| - 1], a, b); }
  }

  /** Under the strictest policy, once a flush returned, no command fed before it can be lost. */
  lemma AlwaysIsDurable(append: bool, acts: seq<Act>, c: F.Call)
    requires WellTyped(acts) && Placed(append, acts + [Flush(c)]) && c.policy.Always? && !c.suspended
    ensures var s := Serve(append, acts + [Flush(c)]);
            s.outcome.Running? ==>
              AllDb(s.fed) && s.outcome.state.synced == |s.outcome.state.file.bytes|
              && Within(s.fed, s.outcome.state.synced) == |s.fed|
  {
    hide Encode;
    hide FeedAll;
    hide F.AofWrite;
    var all := acts + [Flush(c)];
    assert all[..|acts|] == acts;
    ServeSound(append, all);
    var s, before := Serve(append, all), Serve(append, acts);
    if s.outcome.Running? {
      assert before.outcome.Running?;
      EmptiesBuffer(before.outcome.state, c);
      AllWithin(s.fed, s.outcome.state.synced);
    }
  }

  lemma EmptiesBuffer(s: F.State, c: F.Call)
    requires c.policy.Always? && !c.suspended
    ensures var r := F.Flush(s, c); r.Running? ==> r.state.buf == "" && r.state.synced == r.state.size
  {
    hide F.AofWrite;
  }
}
