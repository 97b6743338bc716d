/** The background rewrite of the append-only files as a transition system over (dataset,
    memory buffer, files, manifest on disk), one event per disk effect, with a crash allowed
    anywhere. A dataset is the sequence of commands that built it, so equal here means equal
    under every meaning the commands may have. */
module AofRewrite {
  import opened Wrappers
  import opened AofManifests

  datatype Command = Command(argv: seq<string>)
  type Log = seq<Command>
  type Files = map<FileName, Log>

  /** `temp` is the rewriting child's output, outside the AOF directory. */
  datatype Disk = Disk(files: Files, listing: Listing, temp: Option<Log>)

  /** Where the server is in the rewrite: `snapshot` is the dataset at the fork, `pending`
      what the buffer still held then. */
  datatype Phase =
    | Idle
    | Opening(next: Manifest)
    | Forking
    | Child(snapshot: Log, pending: Log)
    | Exited(snapshot: Log, pending: Log)
    | Renamed(next: Manifest, snapshot: Log, pending: Log)
    | Deleting

  datatype State = State(mem: Manifest, buf: Log, data: Log, phase: Phase, disk: Disk)

  /** How persisting the manifest may end: done, failed with the old file still in place, or
      failed after the rename (the directory sync) with the new file in place. */
  datatype Persist = Done | FailedBefore | FailedAfter

  datatype Event =
    | Feed(c: Command)
    | Flush(n: nat)
    | OpenIncr
    | PersistIncr(outcome: Persist)
    | Fork(started: bool)
    | ChildExits(success: bool)
    | RenameBase(renamed: bool)
    | PersistBase(outcome: Persist, unlinked: bool)
    | DeleteHistory(unlinked: bool)
    | FinishDeletion(outcome: Persist)
    | Crash

  /* --------------------------------------------------------------- recovering */

  predicate Live(files: Files, l: Listing) {
    (l.base.Some? ==> Base(l.base.value) in files) && forall i :: 0 <= i < |l.incrs| ==> Incr(l.incrs[i]) in files
  }

  function Concat(files: Files, incrs: seq<nat>): (r: Log)
    requires forall i :: 0 <= i < |incrs| ==> Incr(incrs[i]) in files
  {
    if incrs == [] then []
    else Concat(files, incrs[..|incrs| - 1]) + files[Incr(incrs[|incrs| - 1])]
  }

  function Replay(files: Files, l: Listing): (r: Log)
    requires Live(files, l)
  {
    (if l.base.Some? then files[Base(l.base.value)] else []) + Concat(files, l.incrs)
  }

  /** Loading what the manifest on disk lists; a listed file that is missing is fatal. */
  function Recover(d: Disk): (r: Option<Log>) {
    if Live(d.files, d.listing) then Some(Replay(d.files, d.listing)) else None
  }

  /** The commands that left the buffer: all that a crash may preserve. */
  function Flushed(s: State): (r: Log)
    requires |s.buf| <= |s.data|
  {
    s.data[..|s.data| - |s.buf|]
  }

  /* -------------------------------------------------------------------- steps */

  predicate Serving(s: State) { s.phase.Idle? || s.phase.Child? || s.phase.Exited? }

  predicate Enabled(s: State, e: Event) {
    match e
    case Feed(_) => Serving(s)
    case Flush(n) => Serving(s) && n <= |s.buf|
    case OpenIncr => s.phase.Idle?
    case PersistIncr(_) => s.phase.Opening?
    case Fork(_) => s.phase.Forking?
    case ChildExits(_) => s.phase.Child?
    case RenameBase(_) => s.phase.Exited?
    case PersistBase(_, _) => s.phase.Renamed?
    case DeleteHistory(_) => s.phase.Deleting? && s.mem.list.history != []
    case FinishDeletion(_) => s.phase.Deleting?
    case Crash => Recover(s.disk).Some?
  }

  function Append(files: Files, f: FileName, more: Log): (r: Files) {
    files[f := (if f in files then files[f] else []) + more]
  }

  /** A rename or a removal leaves the other files alone. */
  function Unlink(files: Files, f: FileName, gone: bool): (r: Files) {
    if gone then files - {f} else files
  }

  function Next(s: State, e: Event): (r: State)
    requires Enabled(s, e)
  {
    var d := s.disk;
    match e
    case Feed(c) => s.(data := s.data + [c], buf := s.buf + [c])
    case Flush(n) => s.(disk := d.(files := Append(d.files, Incr(s.mem.currIncr), s.buf[..n])), buf := s.buf[n..])
    case OpenIncr =>
      s.(phase := Opening(NewIncr(s.mem)), disk := d.(files := d.files[Incr(s.mem.currIncr + 1) := []]))
    case PersistIncr(o) =>
      var listed := if o.FailedBefore? then d else d.(listing := s.phase.next.list);
      if o.Done? then s.(mem := s.phase.next.(dirty := false), phase := Forking, disk := listed)
      else s.(phase := Idle, disk := listed)
    case Fork(started) => s.(phase := if started then Child(s.data, s.buf) else Idle)
    case ChildExits(success) =>
      if success then s.(phase := Exited(s.phase.snapshot, s.phase.pending), disk := d.(temp := Some(s.phase.snapshot)))
      else s.(phase := Idle, disk := d.(temp := None))
    case RenameBase(renamed) =>
      if renamed && d.temp.Some? then WithBase(s, MarkRewritten(NewBase(s.mem)))
      else s.(phase := Idle, disk := d.(temp := None))
    case PersistBase(o, unlinked) =>
      var listed := if o.FailedBefore? then d else d.(listing := s.phase.next.list);
      if o.Done? then s.(mem := s.phase.next.(dirty := false), phase := Deleting, disk := listed)
      else s.(phase := Idle, disk := listed.(files := Unlink(d.files, Base(s.mem.currBase + 1), unlinked)))
    case DeleteHistory(unlinked) =>
      s.(mem := s.mem.(list := s.mem.list.(history := s.mem.list.history[1..]), dirty := true),
         disk := d.(files := Unlink(d.files, s.mem.list.history[0], unlinked)))
    case FinishDeletion(o) =>
      s.(phase := Idle, mem := s.mem.(dirty := s.mem.dirty && !o.Done?),
         disk := if o.FailedBefore? then d else d.(listing := s.mem.list))
    case Crash => // the process restarts: memory is what the manifest lists, the buffer is gone
      State(FromListing(d.listing), [], Recover(d).value, Deleting, d.(temp := None))
  }

  /* ------------------------------------------------------------- the invariant */

  /** The file being written is listed, and what is listed after it is still empty. */
  predicate WrittenLast(files: Files, incrs: seq<nat>, k: nat) {
    exists i :: 0 <= i < |incrs| && incrs[i] == k
             && forall j :: i < j < |incrs| ==> Incr(incrs[j]) in files && files[Incr(incrs[j])] == []
  }

  /** Replaying `l`, then performing the buffer, gives the dataset. */
  predicate Covers(s: State, l: Listing) {
    Live(s.disk.files, l) && Replay(s.disk.files, l) + s.buf == s.data
  }

  /** What was written since the fork, with the buffer, is what was pending at the fork and
      what was executed since. */
  predicate SinceFork(s: State, snapshot: Log, pending: Log) {
    && snapshot <= s.data && Incr(s.mem.currIncr) in s.disk.files
    && s.disk.files[Incr(s.mem.currIncr)] + s.buf == pending + s.data[|snapshot|..]
  }

  predicate PhaseOk(s: State) {
    match s.phase
    case Idle => true
    case Opening(next) =>
      next == NewIncr(s.mem) && Incr(next.currIncr) in s.disk.files && s.disk.files[Incr(next.currIncr)] == []
    case Forking => SinceFork(s, s.data, s.buf)
    case Child(snapshot, pending) => SinceFork(s, snapshot, pending)
    case Exited(snapshot, pending) => SinceFork(s, snapshot, pending) && s.disk.temp == Some(snapshot)
    case Renamed(next, snapshot, pending) =>
      && Rewritten(s.mem, next) && SinceFork(s, snapshot, pending)
      && Base(next.currBase) in s.disk.files && s.disk.files[Base(next.currBase)] == snapshot
    case Deleting => true
  }

  /** Outside Idle and Opening the manifest on disk agrees with the one in memory. */
  predicate InStep(s: State) {
    s.phase.Idle? || s.phase.Opening?
    || (s.disk.listing.base == s.mem.list.base && s.disk.listing.incrs == s.mem.list.incrs)
  }

  ghost predicate Inv(s: State) {
    && WellNumbered(s.mem) && WellNumbered(FromListing(s.disk.listing))
    && Covers(s, s.mem.list) && Covers(s, s.disk.listing)
    && WrittenLast(s.disk.files, s.disk.listing.incrs, s.mem.currIncr)
    && InStep(s) && PhaseOk(s)
  }

  const INIT: State :=
    State(Manifest(Listing(Some(1), [1], []), 1, 1, false), [], [], Idle,
          Disk(map[Base(1) := [], Incr(1) := []], Listing(Some(1), [1], []), None))

  /** In every state of the invariant a restart recovers exactly the flushed commands. */
  lemma InvRecovers(s: State)
    requires Inv(s)
    ensures |s.buf| <= |s.data| && Recover(s.disk) == Some(Flushed(s))
  {
    var r := Replay(s.disk.files, s.disk.listing);
    assert s.data[..|r|] == r;
  }

  /* ---------------------------------------------------------- file system facts */

  lemma {:induction false} ConcatSame(f: Files, g: Files, incrs: seq<nat>)
    requires forall i :: 0 <= i < |incrs| ==> Incr(incrs[i]) in f && Incr(incrs[i]) in g && f[Incr(incrs[i])] == g[Incr(incrs[i])]
    ensures Concat(f, incrs) == Concat(g, incrs)
  {
    if incrs != [] { ConcatSame(f, g, incrs[..|incrs| - 1]); }
  }

  /** Appending to the file being written appends to the replay. */
  lemma {:induction false} ConcatGrows(f: Files, incrs: seq<nat>, k: nat, more: Log)
    requires Increasing(incrs) && forall i :: 0 <= i < |incrs| ==> Incr(incrs[i]) in f
    requires WrittenLast(f, incrs, k)
    ensures Concat(Append(f, Incr(k), more), incrs) == Concat(f, incrs) + more
  {
    hide WrittenLast;
    var n := |incrs| - 1;
    var g := Append(f, Incr(k), more);
    WrittenLastFacts(f, incrs, k);
    if incrs[n] == k {
      ConcatSame(f, g, incrs[..n]);
      assert Concat(f, incrs[..n]) + (f[Incr(k)] + more) == Concat(f, incrs[..n]) + f[Incr(k)] + more;
    } else {
      ConcatGrows(f, incrs[..n], k, more);
      assert Concat(g, incrs) == Concat(f, incrs[..n]) + more + [];
    }
  }

  /** Either the last listed file is the written one, or it is empty and the rest still ends
      with the written one. */
  lemma WrittenLastFacts(f: Files, incrs: seq<nat>, k: nat)
    requires WrittenLast(f, incrs, k)
    ensures incrs != []
    ensures incrs[|incrs| - 1] != k ==>
              Incr(incrs[|incrs| - 1]) in f && f[Incr(incrs[|incrs| - 1])] == [] && WrittenLast(f, incrs[..|incrs| - 1], k)
  {
    var n := |incrs| - 1;
    var i :| 0 <= i < |incrs| && incrs[i] == k
             && forall j :: i < j < |incrs| ==> Incr(incrs[j]) in f && f[Incr(incrs[j])] == [];
    if incrs[n] != k { assert incrs[..n][i] == k; }
  }

  /** The replay of a listing depends only on the files it lists. */
  lemma ReplaySame(f: Files, g: Files, l: Listing)
    requires Live(f, l)
    requires l.base.Some? ==> Base(l.base.value) in g && f[Base(l.base.value)] == g[Base(l.base.value)]
    requires forall i :: 0 <= i < |l.incrs| ==> Incr(l.incrs[i]) in g && f[Incr(l.incrs[i])] == g[Incr(l.incrs[i])]
    ensures Live(g, l) && Replay(f, l) == Replay(g, l)
  {
    ConcatSame(f, g, l.incrs);
  }

  lemma LastIsWritten(m: Manifest, f: Files)
    requires WellNumbered(m) && Live(f, m.list)
    ensures WrittenLast(f, m.list.incrs, m.currIncr) && Incr(m.currIncr) in f
  {
    assert m.list.incrs[|m.list.incrs| - 1] == m.currIncr;
  }

  /* -------------------------------------------------- every event keeps the invariant */

  lemma FeedKeeps(s: State, c: Command)
    requires Inv(s) && Serving(s)
    ensures Inv(Next(s, Feed(c)))
  {
    var r := Next(s, Feed(c));
    forall l | Covers(s, l) ensures Covers(r, l) {
      assert Replay(s.disk.files, l) + r.buf == Replay(s.disk.files, l) + s.buf + [c];
    }
    if !s.phase.Idle? { SinceForkFeed(s, c, s.phase.snapshot, s.phase.pending); }
  }

  lemma SinceForkFeed(s: State, c: Command, snapshot: Log, pending: Log)
    requires SinceFork(s, snapshot, pending)
    ensures SinceFork(s.(data := s.data + [c], buf := s.buf + [c]), snapshot, pending)
  {
    var last := s.disk.files[Incr(s.mem.currIncr)];
    assert (s.data + [c])[|snapshot|..] == s.data[|snapshot|..] + [c];
    assert last + (s.buf + [c]) == last + s.buf + [c];
    assert pending + (s.data[|snapshot|..] + [c]) == pending + s.data[|snapshot|..] + [c];
  }

  lemma FlushKeeps(s: State, n: nat)
    requires Inv(s) && Serving(s) && n <= |s.buf|
    ensures Inv(Next(s, Flush(n)))
  {
    hide Concat;
    hide Replay;
    hide Live;
    hide SinceFork;
    hide WrittenLast;
    LastIsWritten(s.mem, s.disk.files);
    FlushCovers(s, n, s.mem.list);
    FlushCovers(s, n, s.disk.listing);
    if !s.phase.Idle? { FlushSinceFork(s, n, s.phase.snapshot, s.phase.pending); }
    FlushWrittenLast(s, n);
  }

  lemma FlushSinceFork(s: State, n: nat, snapshot: Log, pending: Log)
    requires Serving(s) && n <= |s.buf| && SinceFork(s, snapshot, pending)
    ensures SinceFork(Next(s, Flush(n)), snapshot, pending)
  {
    var last := s.disk.files[Incr(s.mem.currIncr)];
    assert s.buf[..n] + s.buf[n..] == s.buf;
    assert last + s.buf[..n] + s.buf[n..] == last + (s.buf[..n] + s.buf[n..]);
  }

  lemma FlushCovers(s: State, n: nat, l: Listing)
    requires Serving(s) && n <= |s.buf| && Covers(s, l) && Increasing(l.incrs)
    requires WrittenLast(s.disk.files, l.incrs, s.mem.currIncr)
    ensures Covers(Next(s, Flush(n)), l)
  {
    var f, g := s.disk.files, Append(s.disk.files, Incr(s.mem.currIncr), s.buf[..n]);
    ConcatGrows(f, l.incrs, s.mem.currIncr, s.buf[..n]);
    assert s.buf[..n] + s.buf[n..] == s.buf;
    assert Replay(g, l) == Replay(f, l) + s.buf[..n];
  }

  lemma FlushWrittenLast(s: State, n: nat)
    requires Inv(s) && Serving(s) && n <= |s.buf|
    ensures WrittenLast(Next(s, Flush(n)).disk.files, s.disk.listing.incrs, s.mem.currIncr)
  {
    var incrs, f := s.disk.listing.incrs, s.disk.files;
    var i :| 0 <= i < |incrs| && incrs[i] == s.mem.currIncr
             && forall j :: i < j < |incrs| ==> Incr(incrs[j]) in f && f[Incr(incrs[j])] == [];
    var g := Next(s, Flush(n)).disk.files;
    assert forall j :: i < j < |incrs| ==> Incr(incrs[j]) in g && g[Incr(incrs[j])] == [];
  }

  /** Creating (or truncating) the next INCR harms no listing in which that number is either
      absent or listed after the written file. */
  lemma OpenIncrHarmless(f: Files, l: Listing, k: nat)
    requires Live(f, l) && Increasing(l.incrs) && WrittenLast(f, l.incrs, k)
    ensures var g := f[Incr(k + 1) := []];
            Live(g, l) && Replay(g, l) == Replay(f, l) && WrittenLast(g, l.incrs, k)
  {
    var g, incrs := f[Incr(k + 1) := []], l.incrs;
    var i :| 0 <= i < |incrs| && incrs[i] == k
             && forall j :: i < j < |incrs| ==> Incr(incrs[j]) in f && f[Incr(incrs[j])] == [];
    assert forall j :: i < j < |incrs| ==> Incr(incrs[j]) in g && g[Incr(incrs[j])] == [];
    assert forall j :: 0 <= j < |incrs| && incrs[j] == k + 1 ==> i < j;
    ReplaySame(f, g, l);
  }

  lemma OpenIncrKeeps(s: State)
    requires Inv(s) && s.phase.Idle?
    ensures Inv(Next(s, OpenIncr))
  {
    LastIsWritten(s.mem, s.disk.files);
    OpenIncrHarmless(s.disk.files, s.mem.list, s.mem.currIncr);
    OpenIncrHarmless(s.disk.files, s.disk.listing, s.mem.currIncr);
  }

  /** The listing with the new INCR, while that file is empty. */
  lemma NewIncrListing(s: State)
    requires Inv(s) && s.phase.Opening?
    ensures WellNumbered(s.phase.next) && WellNumbered(FromListing(s.phase.next.list))
    ensures Covers(s, s.phase.next.list)
    ensures WrittenLast(s.disk.files, s.phase.next.list.incrs, s.mem.currIncr)
  {
    var next := s.phase.next;
    NewIncrWellNumbered(s.mem);
    var incrs, k := next.list.incrs, |s.mem.list.incrs| - 1;
    assert incrs[..|incrs| - 1] == s.mem.list.incrs;
    assert incrs[k] == s.mem.currIncr;
    assert Replay(s.disk.files, next.list) == Replay(s.disk.files, s.mem.list);
  }

  lemma PersistIncrKeeps(s: State, o: Persist)
    requires Inv(s) && s.phase.Opening?
    ensures Inv(Next(s, PersistIncr(o)))
  {
    hide Replay;
    hide Recover;
    NewIncrListing(s);
    var r := Next(s, PersistIncr(o));
    if o.Done? {
      LastIsWritten(r.mem, r.disk.files);
      assert r.disk.files[Incr(r.mem.currIncr)] == [];
      assert r.data[|r.data|..] == [];
      assert [] + r.buf == r.buf + [];
    }
  }

  lemma ForkKeeps(s: State, started: bool)
    requires Inv(s) && s.phase.Forking?
    ensures Inv(Next(s, Fork(started)))
  {
  }

  lemma ChildExitsKeeps(s: State, success: bool)
    requires Inv(s) && s.phase.Child?
    ensures Inv(Next(s, ChildExits(success)))
  {
  }

  /** A BASE file that no listing names may come and go. */
  lemma ForeignBase(f: Files, g: Files, l: Listing, k: nat, n: nat)
    requires Live(f, l) && WrittenLast(f, l.incrs, k) && l.base != Some(n)
    requires forall x :: x != Base(n) ==> (x in f <==> x in g) && (x in f ==> f[x] == g[x])
    ensures Live(g, l) && Replay(g, l) == Replay(f, l) && WrittenLast(g, l.incrs, k)
  {
    ReplaySame(f, g, l);
    WrittenLastSame(f, g, l.incrs, k);
  }

  /** The child's output under the new BASE name, not yet listed. */
  function WithBase(s: State, next: Manifest): (r: State)
    requires s.phase.Exited? && s.disk.temp.Some?
  {
    s.(phase := Renamed(next, s.phase.snapshot, s.phase.pending),
       disk := s.disk.(files := s.disk.files[Base(s.mem.currBase + 1) := s.disk.temp.value], temp := None))
  }

  lemma WithBaseKeeps(s: State, next: Manifest)
    requires Inv(s) && s.phase.Exited? && Rewritten(s.mem, next)
    ensures Inv(WithBase(s, next))
  {
    var f, g, n := s.disk.files, WithBase(s, next).disk.files, s.mem.currBase + 1;
    LastIsWritten(s.mem, f);
    ForeignBase(f, g, s.mem.list, s.mem.currIncr, n);
    ForeignBase(f, g, s.disk.listing, s.mem.currIncr, n);
  }

  lemma RenameBaseKeeps(s: State, renamed: bool)
    requires Inv(s) && s.phase.Exited?
    ensures Inv(Next(s, RenameBase(renamed)))
  {
    if renamed {
      RewrittenWellNumbered(s.mem);
      WithBaseKeeps(s, MarkRewritten(NewBase(s.mem)));
      assert Next(s, RenameBase(true)) == WithBase(s, MarkRewritten(NewBase(s.mem)));
    }
  }

  lemma WrittenLastSame(f: Files, g: Files, incrs: seq<nat>, k: nat)
    requires WrittenLast(f, incrs, k)
    requires forall i :: 0 <= i < |incrs| && Incr(incrs[i]) in f ==> Incr(incrs[i]) in g && g[Incr(incrs[i])] == f[Incr(incrs[i])]
    ensures WrittenLast(g, incrs, k)
  {
    var i :| 0 <= i < |incrs| && incrs[i] == k
             && forall j :: i < j < |incrs| ==> Incr(incrs[j]) in f && f[Incr(incrs[j])] == [];
    assert forall j :: i < j < |incrs| ==> Incr(incrs[j]) in g && g[Incr(incrs[j])] == [];
  }

  /** What the rewritten listing replays to: the snapshot, then everything written since. */
  lemma RewrittenReplay(s: State, files: Files)
    requires Inv(s) && s.phase.Renamed?
    requires Base(s.mem.currBase + 1) in files && files[Base(s.mem.currBase + 1)] == s.phase.snapshot
    requires Incr(s.mem.currIncr) in files && files[Incr(s.mem.currIncr)] == s.disk.files[Incr(s.mem.currIncr)]
    ensures Live(files, s.phase.next.list)
    ensures Replay(files, s.phase.next.list) + s.buf == s.phase.snapshot + s.phase.pending + s.data[|s.phase.snapshot|..]
  {
    hide Recover;
    hide WellNumbered;
    var k := s.mem.currIncr;
    assert s.phase.next.list.incrs == [k];
    assert Concat(files, [k]) == files[Incr(k)] by { assert [k][..0] == []; assert Concat(files, []) == []; }
    assert Replay(files, s.phase.next.list) == s.phase.snapshot + files[Incr(k)];
    assert s.phase.snapshot + files[Incr(k)] + s.buf == s.phase.snapshot + (files[Incr(k)] + s.buf);
    assert s.phase.snapshot + (s.phase.pending + s.data[|s.phase.snapshot|..])
        == s.phase.snapshot + s.phase.pending + s.data[|s.phase.snapshot|..];
  }

  /** The two ways in which the last persist of a rewrite goes wrong: adopting a BASE whose
      snapshot already holds commands that were still in the buffer at the fork, or removing
      the new BASE after the new manifest reached the disk. */
  predicate Bad(s: State, e: Event) {
    s.phase.Renamed? && e.PersistBase? && !e.outcome.FailedBefore?
    && (s.phase.pending != [] || (e.outcome.FailedAfter? && e.unlinked))
  }

  /** The rewritten listing is a sound one as long as nothing was pending at the fork. */
  lemma RewrittenListing(s: State)
    requires Inv(s) && s.phase.Renamed? && s.phase.pending == []
    ensures WellNumbered(s.phase.next) && WellNumbered(FromListing(s.phase.next.list))
    ensures Covers(s, s.phase.next.list)
    ensures WrittenLast(s.disk.files, s.phase.next.list.incrs, s.mem.currIncr)
  {
    hide Consecutive;
    RewrittenReplay(s, s.disk.files);
    assert s.phase.snapshot + [] + s.data[|s.phase.snapshot|..] == s.data;
    assert s.phase.next.list.incrs[0] == s.mem.currIncr;
  }

  lemma PersistBaseKeeps(s: State, o: Persist, unlinked: bool)
    requires Inv(s) && s.phase.Renamed? && !Bad(s, PersistBase(o, unlinked))
    ensures Inv(Next(s, PersistBase(o, unlinked)))
  {
    var r, f := Next(s, PersistBase(o, unlinked)), s.disk.files;
    LastIsWritten(s.mem, f);
    if o.FailedBefore? {
      ForeignBase(f, r.disk.files, s.mem.list, s.mem.currIncr, s.mem.currBase + 1);
      ForeignBase(f, r.disk.files, s.disk.listing, s.mem.currIncr, s.mem.currBase + 1);
    } else {
      RewrittenListing(s);
    }
  }

  lemma DeleteHistoryKeeps(s: State, unlinked: bool)
    requires Inv(s) && s.phase.Deleting? && s.mem.list.history != []
    ensures Inv(Next(s, DeleteHistory(unlinked)))
  {
    var r, f := Next(s, DeleteHistory(unlinked)), s.disk.files;
    var g, h := r.disk.files, s.mem.list.history[0];
    assert h in s.mem.list.history;
    assert forall x :: x in r.mem.list.history ==> x in s.mem.list.history;
    assert forall i :: 0 <= i < |s.mem.list.incrs| ==> s.mem.list.incrs[0] <= s.mem.list.incrs[i];
    ReplaySame(f, g, s.mem.list);
    ReplaySame(f, g, s.disk.listing);
    WrittenLastSame(f, g, s.disk.listing.incrs, s.mem.currIncr);
    assert Replay(g, r.mem.list) == Replay(g, s.mem.list);
  }

  lemma FinishDeletionKeeps(s: State, o: Persist)
    requires Inv(s) && s.phase.Deleting?
    ensures Inv(Next(s, FinishDeletion(o)))
  {
    LastIsWritten(s.mem, s.disk.files);
  }

  lemma CrashKeeps(s: State)
    requires Inv(s)
    ensures Enabled(s, Crash) && Inv(Next(s, Crash))
  {
    var r := Next(s, Crash);
    LastIsWritten(r.mem, r.disk.files);
    assert r.data == Replay(r.disk.files, r.mem.list) + [];
  }

  lemma NextKeeps(s: State, e: Event)
    requires Inv(s) && Enabled(s, e) && !Bad(s, e)
    ensures Inv(Next(s, e))
  {
    match e
    case Feed(c) => FeedKeeps(s, c);
    case Flush(n) => FlushKeeps(s, n);
    case OpenIncr => OpenIncrKeeps(s);
    case PersistIncr(o) => PersistIncrKeeps(s, o);
    case Fork(b) => ForkKeeps(s, b);
    case ChildExits(b) => ChildExitsKeeps(s, b);
    case RenameBase(b) => RenameBaseKeeps(s, b);
    case PersistBase(o, u) => PersistBaseKeeps(s, o, u);
    case DeleteHistory(u) => DeleteHistoryKeeps(s, u);
    case FinishDeletion(o) => FinishDeletionKeeps(s, o);
    case Crash => CrashKeeps(s);
  }

  /* --------------------------------------------------------------- whole runs */

  /** Each event is possible where it happens. */
  predicate Possible(s: State, es: seq<Event>)
    decreases |es|
  {
    es == [] || (Enabled(s, es[0]) && Possible(Next(s, es[0]), es[1..]))
  }

  function Exec(s: State, es: seq<Event>): (r: State)
    requires Possible(s, es)
    decreases |es|
  {
    if es == [] then s else Exec(Next(s, es[0]), es[1..])
  }

  /** No event of the run is a bad last persist. */
  predicate Sound(s: State, es: seq<Event>)
    requires Possible(s, es)
    decreases |es|
  {
    es == [] || (!Bad(s, es[0]) && Sound(Next(s, es[0]), es[1..]))
  }

  lemma {:induction false} ExecKeeps(s: State, es: seq<Event>)
    requires Inv(s) && Possible(s, es) && Sound(s, es)
    ensures Inv(Exec(s, es))
    decreases |es|
  {
    if es != [] {
      NextKeeps(s, es[0]);
      ExecKeeps(Next(s, es[0]), es[1..]);
    }
  }

  /** One more event at the end of a run. */
  lemma {:induction false} ExecAppend(s: State, es: seq<Event>, e: Event)
    requires Possible(s, es) && Enabled(Exec(s, es), e)
    ensures Possible(s, es + [e]) && Exec(s, es + [e]) == Next(Exec(s, es), e)
    ensures Sound(s, es + [e]) <==> Sound(s, es) && !Bad(Exec(s, es), e)
    decreases |es|
  {
    if es == [] {
      assert es + [e] == [e] && [e][1..] == [];
    } else {
      assert (es + [e])[1..] == es[1..] + [e];
      ExecAppend(Next(s, es[0]), es[1..], e);
    }
  }

  lemma InitInv()
    ensures Inv(INIT)
  {
    var f := INIT.disk.files;
    assert [1][..0] == [];
    assert Concat(f, []) == [];
    assert Concat(f, [1]) == [];
    assert Replay(f, INIT.mem.list) == [];
    LastIsWritten(INIT.mem, f);
  }

  /** Crash safety: after any run, through any number of rewrites, failures and restarts,
      replaying the manifest on disk gives exactly the commands flushed so far. */
  lemma CrashSafety(es: seq<Event>)
    requires Possible(INIT, es) && Sound(INIT, es)
    ensures var s := Exec(INIT, es); |s.buf| <= |s.data| && Recover(s.disk) == Some(Flushed(s))
  {
    InitInv();
    ExecKeeps(INIT, es);
    InvRecovers(Exec(INIT, es));
  }

  /** Exactly the bad events break recovery: from any state of the invariant, the last
      persist of a rewrite leaves a recoverable disk if and only if it is not one of them. */
  lemma LastPersistExact(s: State, o: Persist, unlinked: bool)
    requires Inv(s) && s.phase.Renamed?
    ensures var r := Next(s, PersistBase(o, unlinked));
            |r.buf| <= |r.data| && (Recover(r.disk) == Some(Flushed(r)) <==> !Bad(s, PersistBase(o, unlinked)))
  {
    var r := Next(s, PersistBase(o, unlinked));
    InvRecovers(s);
    if !Bad(s, PersistBase(o, unlinked)) {
      PersistBaseKeeps(s, o, unlinked);
      InvRecovers(r);
    } else {
      BadPersistBreaks(s, o, unlinked);
    }
  }

  /** Which way it breaks: the new BASE is missing, or the pending commands count twice. */
  lemma BadPersistBreaks(s: State, o: Persist, unlinked: bool)
    requires Inv(s) && s.phase.Renamed? && Bad(s, PersistBase(o, unlinked))
    ensures var r := Next(s, PersistBase(o, unlinked));
            if o.FailedAfter? && unlinked then Recover(r.disk) == None
            else Recover(r.disk).Some? && |Recover(r.disk).value| + |r.buf| == |r.data| + |s.phase.pending| > |r.data|
  {
    var r := Next(s, PersistBase(o, unlinked));
    if o.FailedAfter? && unlinked {
      assert Base(s.mem.currBase + 1) !in r.disk.files;
    } else {
      RewrittenReplay(s, r.disk.files);
      var x := Replay(r.disk.files, s.phase.next.list);
      assert |x + s.buf| == |x| + |s.buf|;
      assert |s.data[|s.phase.snapshot|..]| == |s.data| - |s.phase.snapshot|;
    }
  }

  lemma NoEvents(s: State)
    ensures Possible(s, []) && Exec(s, []) == s && Sound(s, [])
  {
  }

  /** The phases of one rewrite, step by step. */
  lemma PathOfPhases(c: Command, full: bool)
    ensures Enabled(INIT, Feed(c)) && !Bad(INIT, Feed(c))
    ensures var s1 := if full then Next(INIT, Feed(c)) else INIT;
            Enabled(s1, OpenIncr) && !Bad(s1, OpenIncr)
    ensures var s2 := Next(if full then Next(INIT, Feed(c)) else INIT, OpenIncr);
            Enabled(s2, PersistIncr(Done)) && !Bad(s2, PersistIncr(Done))
    ensures var s3 := Next(Next(if full then Next(INIT, Feed(c)) else INIT, OpenIncr), PersistIncr(Done));
            Enabled(s3, Fork(true)) && !Bad(s3, Fork(true))
    ensures var s4 := Next(Next(Next(if full then Next(INIT, Feed(c)) else INIT, OpenIncr), PersistIncr(Done)), Fork(true));
            Enabled(s4, ChildExits(true)) && !Bad(s4, ChildExits(true))
    ensures var s4 := Next(Next(Next(if full then Next(INIT, Feed(c)) else INIT, OpenIncr), PersistIncr(Done)), Fork(true));
            var s5 := Next(s4, ChildExits(true));
            Enabled(s5, RenameBase(true)) && !Bad(s5, RenameBase(true))
    ensures var s4 := Next(Next(Next(if full then Next(INIT, Feed(c)) else INIT, OpenIncr), PersistIncr(Done)), Fork(true));
            var s6 := Next(Next(s4, ChildExits(true)), RenameBase(true));
            s6.phase.Renamed? && s6.phase.pending == if full then [c] else []
  {
  }

  /** Both kinds of bad event do occur: a rewrite started while the buffer could not be
      flushed reaches its last persist with that command pending, and an ordinary one reaches
      it with nothing pending. */
  lemma BadIsReachable(c: Command, full: bool)
    ensures var es := (if full then [Feed(c)] else []) + [OpenIncr, PersistIncr(Done), Fork(true), ChildExits(true), RenameBase(true)];
            && Possible(INIT, es) && Sound(INIT, es)
            && Exec(INIT, es).phase.Renamed?
            && Exec(INIT, es).phase.pending == if full then [c] else []
  {
    hide Exec;
    hide Possible;
    hide Sound;
    hide Next;
    hide Bad;
    hide Enabled;
    var s0 := INIT;
    PathOfPhases(c, full);
    var e1 := if full then [Feed(c)] else [];
    NoEvents(s0);
    if full { ExecAppend(s0, [], Feed(c)); assert [] + [Feed(c)] == e1; }
    ExecAppend(s0, e1, OpenIncr);
    var e2 := e1 + [OpenIncr];
    ExecAppend(s0, e2, PersistIncr(Done));
    var e3 := e2 + [PersistIncr(Done)];
    ExecAppend(s0, e3, Fork(true));
    var e4 := e3 + [Fork(true)];
    ExecAppend(s0, e4, ChildExits(true));
    var e5 := e4 + [ChildExits(true)];
    ExecAppend(s0, e5, RenameBase(true));
    var e6 := e5 + [RenameBase(true)];
    assert e6 == e1 + [OpenIncr, PersistIncr(Done), Fork(true), ChildExits(true), RenameBase(true)];
  }
}
