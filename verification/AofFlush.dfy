/** Writing the append-only buffer to the file: postponed, complete, short and failed writes,
    with the truncation that undoes a short one, for a descriptor opened with or without
    append mode. */
module AofFlush {

  /** An open file: its bytes, the descriptor's offset, and whether writes go to the end. */
  datatype File = File(bytes: string, offset: nat, append: bool)

  function Zeros(n: nat): (s: string)
    ensures |s| == n && forall i :: 0 <= i < n ==> s[i] == '\0'
  {
    seq(n, i => '\0')
  }

  /** write(2): at the end in append mode, else at the offset, leaving a hole of NULs when the
      offset is past the end. */
  function Write(f: File, data: string): (r: File)
    ensures r.append == f.append
  {
    var at := if f.append then |f.bytes| else f.offset;
    var head := if at <= |f.bytes| then f.bytes[..at] else f.bytes + Zeros(at - |f.bytes|);
    var tail := if at + |data| < |f.bytes| then f.bytes[at + |data|..] else "";
    if data == "" then f else File(head + data + tail, at + |data|, f.append)
  }

  /** ftruncate(2) leaves the offset where it is. */
  function Truncate(f: File, size: nat): (r: File) {
    f.(bytes := if size <= |f.bytes| then f.bytes[..size] else f.bytes + Zeros(size - |f.bytes|))
  }

  /** What one write call may do. */
  datatype WriteResult = Wrote(n: nat) | Interrupted | Error

  /** How many bytes went out in all, or None for an error before any. */
  datatype Written = None | Bytes(n: nat)

  /** The retrying writer, given the results of its write calls. */
  function AofWrite(f: File, data: string, oracle: seq<WriteResult>, sofar: nat): (r: (File, Written))
    decreases |oracle|
  {
    if data == "" then (f, Bytes(sofar))
    else if oracle == [] || oracle[0].Error? then (f, if sofar == 0 then None else Bytes(sofar))
    else if oracle[0].Interrupted? then AofWrite(f, data, oracle[1..], sofar)
    else
      var n := if oracle[0].n <= |data| then oracle[0].n else |data|;
      AofWrite(Write(f, data[..n]), data[n..], oracle[1..], sofar + n)
  }

  method AofWriteLoop(f: File, data: string, oracle: seq<WriteResult>) returns (g: File, w: Written)
    ensures (g, w) == AofWrite(f, data, oracle, 0)
  {
    g := f;
    var rest, total, k := data, 0, 0;
    while rest != ""
      invariant 0 <= k <= |oracle|
      invariant AofWrite(g, rest, oracle[k..], total) == AofWrite(f, data, oracle, 0)
      decreases |oracle| - k
    {
      if k == |oracle| || oracle[k].Error? {
        w := if total == 0 then None else Bytes(total);
        return;
      }
      if oracle[k].Wrote? {
        var n := if oracle[k].n <= |rest| then oracle[k].n else |rest|;
        g := Write(g, rest[..n]);
        rest := rest[n..];
        total := total + n;
      }
      k := k + 1;
    }
    w := Bytes(total);
  }

  /** Writes will go to the end of the file. */
  predicate Aligned(f: File) { f.append || f.offset == |f.bytes| }

  /** Undoing short writes can leave the offset past the end, never before it. */
  predicate Ahead(f: File) { f.append || |f.bytes| <= f.offset }

  function Count(w: Written): (n: nat) { if w.Bytes? then w.n else 0 }

  lemma WriteAligned(f: File, data: string)
    requires Aligned(f)
    ensures Write(f, data).bytes == f.bytes + data && Aligned(Write(f, data))
  {
    assert f.bytes[..|f.bytes|] == f.bytes;
  }

  lemma SplitTail(b: string, data: string, n: nat, m: nat)
    requires n <= m <= |data|
    ensures b + data[..n] + data[n..][..m - n] == b + data[..m]
  {
    assert data[..n] + data[n..][..m - n] == data[..m];
  }

  /** On an aligned descriptor the writer appends exactly a prefix of the data: all of it, or
      as much as it reports; a partial write is never reported as none. */
  lemma {:induction false} AofWriteAppends(f: File, data: string, oracle: seq<WriteResult>, sofar: nat)
    requires Aligned(f)
    ensures var (g, w) := AofWrite(f, data, oracle, sofar);
            && sofar <= Count(w) <= sofar + |data|
            && Aligned(g) && g.append == f.append && g.bytes == f.bytes + data[..Count(w) - sofar]
            && (w.None? ==> sofar == 0)
    decreases |oracle|
  {
    hide Write;
    if data == "" {
    } else if oracle == [] || oracle[0].Error? {
      assert f.bytes + data[..0] == f.bytes;
    } else if oracle[0].Interrupted? {
      AofWriteAppends(f, data, oracle[1..], sofar);
    } else {
      var n := if oracle[0].n <= |data| then oracle[0].n else |data|;
      WriteAligned(f, data[..n]);
      AofWriteAppends(Write(f, data[..n]), data[n..], oracle[1..], sofar + n);
      SplitTail(f.bytes, data, n, Count(AofWrite(f, data, oracle, sofar).1) - sofar);
    }
  }

  /* ---------------------------------------------------------------- the flush */

  datatype Policy = Always | EverySecond | No

  /** An fsync of the file that was started: the length of the file then, and when. */
  datatype Fsync = Fsync(length: nat, time: nat)

  /** The buffer, the recorded file size, the recorded fsync offset, the error flag, when a
      postponement started (0: none), the time of the last sync, all bytes ever fed, and all
      fsyncs ever started. */
  datatype State = State(file: File, buf: string, size: nat, synced: nat, failing: bool, postponed: nat, lastFsync: int,
                         fed: string, fsyncs: seq<Fsync>)

  /** One call: its argument, the clock, what the system calls answer, and whether syncing is
      suspended because a child is doing I/O. */
  datatype Call = Call(policy: Policy, force: bool, syncing: bool, now: nat, oracle: seq<WriteResult>,
                       truncates: bool, fsyncs: bool, suspended: bool)

  datatype Outcome = Running(state: State) | Exited(state: State)

  function Synced(s: State, now: nat): (r: State) {
    s.(fsyncs := s.fsyncs + [Fsync(|s.file.bytes|, now)], synced := s.size, lastFsync := now)
  }

  function TryFsync(s: State, c: Call, syncing: bool): (r: Outcome) {
    if c.suspended then Running(s)
    else if c.policy.Always? then
      (if c.fsyncs then Running(Synced(s, c.now)) else Exited(s))
    else if c.policy.EverySecond? && c.now - s.lastFsync >= 1000 then
      Running(if syncing then s.(lastFsync := c.now) else Synced(s, c.now))
    else Running(s)
  }

  predicate Postpones(s: State, c: Call) {
    c.policy.EverySecond? && !c.force && c.syncing && (s.postponed == 0 || c.now - s.postponed < 2000)
  }

  /** A write that did not take the whole buffer. */
  function Unfinished(s: State, c: Call, g: File, w: Written): (r: Outcome) {
    var undone := w.Bytes? && c.truncates;
    var t := s.(file := if undone then Truncate(g, s.size) else g, postponed := 0);
    if c.policy.Always? then Exited(t)
    else if undone || w.None? || w.n == 0 then Running(t.(failing := true))
    else Running(t.(failing := true, size := s.size + w.n, buf := if w.n <= |s.buf| then s.buf[w.n..] else ""))
  }

  function Flush(s: State, c: Call): (r: Outcome) {
    if s.buf == "" then
      if s.synced == s.size then Running(s)
      else if (c.policy.EverySecond? && c.now - s.lastFsync >= 1000 && !c.syncing) || c.policy.Always? then TryFsync(s, c, false)
      else Running(s)
    else if Postpones(s, c) then Running(s.(postponed := if s.postponed == 0 then c.now else s.postponed))
    else
      var (g, w) := AofWrite(s.file, s.buf, c.oracle, 0);
      if w != Bytes(|s.buf|) then Unfinished(s, c, g, w)
      else
        var t := s.(file := g, postponed := 0, failing := false, size := s.size + |s.buf|, buf := "");
        TryFsync(t, c, c.policy.EverySecond? && c.syncing)
  }

  function Feed(s: State, bytes: string): (r: State) { s.(buf := s.buf + bytes, fed := s.fed + bytes) }

  /** Nothing is lost, doubled or reordered; the recorded size is the real one; what is synced
      is part of it. */
  predicate Conserved(s: State) {
    s.file.bytes + s.buf == s.fed && s.size == |s.file.bytes| && s.synced <= s.size
  }

  /** A write cut short and then undone by truncation. */
  predicate Undone(s: State, c: Call) {
    var w := AofWrite(s.file, s.buf, c.oracle, 0).1;
    s.buf != "" && !Postpones(s, c) && w.Bytes? && w.n < |s.buf| && c.truncates
  }

  /** Every call the process survives conserves the bytes, and even a fatal one leaves a file
      that is a prefix of what was fed; the descriptor stays aligned if and only if it is in
      append mode or the call did not undo a short write. */
  lemma FlushConserves(s: State, c: Call)
    requires Conserved(s) && Aligned(s.file)
    ensures Flush(s, c).Running? ==> Conserved(Flush(s, c).state)
    ensures Flush(s, c).state.fed == s.fed && Flush(s, c).state.file.bytes <= s.fed
    ensures Aligned(Flush(s, c).state.file) <==> s.file.append || !Undone(s, c)
    ensures Ahead(Flush(s, c).state.file)
  {
    hide AofWrite;
    hide Unfinished;
    hide TryFsync;
    if s.buf != "" && !Postpones(s, c) {
      var (g, w) := AofWrite(s.file, s.buf, c.oracle, 0);
      AofWriteAppends(s.file, s.buf, c.oracle, 0);
      ProgressIsReported(s.file, s.buf, c.oracle, 0);
      if w == Bytes(|s.buf|) {
        assert s.buf[..|s.buf|] == s.buf;
        var t := s.(file := g, postponed := 0, failing := false, size := s.size + |s.buf|, buf := "");
        assert t.file.bytes + "" == s.fed;
        FsyncKeeps(t, c, c.policy.EverySecond? && c.syncing);
      } else {
        UnfinishedConserves(s, c, g, w);
      }
    } else {
      FsyncKeeps(s, c, false);
    }
  }

  /** Syncing moves the synced mark at most up to the size and nothing else that matters. */
  lemma FsyncKeeps(s: State, c: Call, syncing: bool)
    requires Conserved(s)
    ensures Conserved(TryFsync(s, c, syncing).state)
    ensures TryFsync(s, c, syncing).state.file == s.file && TryFsync(s, c, syncing).state.fed == s.fed
  {
  }

  lemma UnfinishedConserves(s: State, c: Call, g: File, w: Written)
    requires Conserved(s) && Aligned(s.file) && Aligned(g) && w != Bytes(0) && Count(w) <= |s.buf|
    requires g.append == s.file.append && g.bytes == s.file.bytes + s.buf[..Count(w)]
    ensures var r := Unfinished(s, c, g, w);
            && (r.Running? ==> Conserved(r.state)) && r.state.fed == s.fed && r.state.file.bytes <= s.fed
            && (Aligned(r.state.file) <==> s.file.append || w.None? || !c.truncates) && Ahead(r.state.file)
  {
    var n := Count(w);
    PrefixFacts(s, n);
    if w.None? {
      assert s.file.bytes + s.buf[..0] == s.file.bytes;
    } else {
      assert g.bytes[..s.size] == s.file.bytes;
    }
  }

  lemma PrefixFacts(s: State, n: nat)
    requires Conserved(s) && n <= |s.buf|
    ensures s.file.bytes + s.buf[..n] + s.buf[n..] == s.fed
    ensures s.file.bytes <= s.fed && s.file.bytes + s.buf[..n] <= s.fed
  {
    assert s.buf[..n] + s.buf[n..] == s.buf;
    assert s.file.bytes + s.buf[..n] + s.buf[n..] == s.file.bytes + (s.buf[..n] + s.buf[n..]);
  }

  /** The writer reports a byte count only if it wrote at least one. */
  lemma {:induction false} ProgressIsReported(f: File, data: string, oracle: seq<WriteResult>, sofar: nat)
    requires data != ""
    ensures AofWrite(f, data, oracle, sofar).1 != Bytes(0)
    decreases |oracle|
  {
    if oracle != [] && !oracle[0].Error? {
      if oracle[0].Interrupted? {
        ProgressIsReported(f, data, oracle[1..], sofar);
      } else {
        var n := if oracle[0].n <= |data| then oracle[0].n else |data|;
        if data[n..] != "" { ProgressIsReported(Write(f, data[..n]), data[n..], oracle[1..], sofar + n); }
      }
    }
  }

  /* ------------------------------------------------ descriptors past the end */

  lemma WritePastEnd(f: File, data: string)
    requires Ahead(f) && !Aligned(f)
    ensures data == "" ==> Write(f, data) == f
    ensures data != "" ==>
              var g := Write(f, data);
              !g.append && |g.bytes| == f.offset + |data| == g.offset && g.bytes[..|f.bytes|] == f.bytes
  {
  }

  /** Through a descriptor past the end the writer first leaves a hole. */
  lemma {:induction false} AofWritePastEnd(f: File, data: string, oracle: seq<WriteResult>, sofar: nat)
    requires Ahead(f) && !Aligned(f)
    ensures var (g, w) := AofWrite(f, data, oracle, sofar);
            && sofar <= Count(w) <= sofar + |data| && !g.append
            && (Count(w) == sofar ==> g == f)
            && (Count(w) > sofar ==> |g.bytes| == f.offset + Count(w) - sofar == g.offset
                                     && g.bytes[..|f.bytes|] == f.bytes)
            && (w.None? ==> sofar == 0)
    decreases |oracle|
  {
    hide Write;
    if data != "" && oracle != [] && !oracle[0].Error? {
      if oracle[0].Interrupted? {
        AofWritePastEnd(f, data, oracle[1..], sofar);
      } else {
        var n := if oracle[0].n <= |data| then oracle[0].n else |data|;
        WritePastEnd(f, data[..n]);
        if n == 0 {
          assert data[0..] == data;
          AofWritePastEnd(f, data, oracle[1..], sofar);
        } else {
          AofWriteAppends(Write(f, data[..n]), data[n..], oracle[1..], sofar + n);
        }
      }
    }
  }

  /** A write through a descriptor past the end that is not undone. */
  predicate Misplaced(s: State, c: Call) {
    && s.buf != "" && !Postpones(s, c) && !Aligned(s.file)
    && Count(AofWrite(s.file, s.buf, c.oracle, 0).1) > 0 && !Undone(s, c)
  }

  /** Through any descriptor a call conserves the bytes if and only if it misplaces none. */
  lemma FlushConservesIff(s: State, c: Call)
    requires Conserved(s) && Ahead(s.file)
    ensures Flush(s, c).Running? ==> (Conserved(Flush(s, c).state) <==> !Misplaced(s, c))
    ensures !Misplaced(s, c) ==> Flush(s, c).state.file.bytes <= s.fed && Ahead(Flush(s, c).state.file)
    ensures Flush(s, c).state.fed == s.fed && Flush(s, c).state.file.append == s.file.append
  {
    hide AofWrite;
    hide Unfinished;
    hide TryFsync;
    if Aligned(s.file) {
      FlushConserves(s, c);
      FlushKeepsMode(s, c);
    } else if s.buf != "" && !Postpones(s, c) {
      var (g, w) := AofWrite(s.file, s.buf, c.oracle, 0);
      AofWritePastEnd(s.file, s.buf, c.oracle, 0);
      ProgressIsReported(s.file, s.buf, c.oracle, 0);
      if w == Bytes(|s.buf|) {
        var t := s.(file := g, postponed := 0, failing := false, size := s.size + |s.buf|, buf := "");
        FsyncKeepsFile(t, c, c.policy.EverySecond? && c.syncing);
      } else {
        UnfinishedPastEnd(s, c, g, w);
      }
    } else {
      FsyncKeeps(s, c, false);
    }
  }

  lemma FsyncKeepsFile(s: State, c: Call, syncing: bool)
    ensures TryFsync(s, c, syncing).state.file == s.file && TryFsync(s, c, syncing).state.fed == s.fed
    ensures TryFsync(s, c, syncing).state.size == s.size
  {
  }

  lemma UnfinishedPastEnd(s: State, c: Call, g: File, w: Written)
    requires Conserved(s) && Ahead(s.file) && !Aligned(s.file) && !g.append && w != Bytes(0) && Count(w) <= |s.buf|
    requires Count(w) == 0 ==> g == s.file
    requires Count(w) > 0 ==> |g.bytes| == s.file.offset + Count(w) == g.offset && g.bytes[..|s.file.bytes|] == s.file.bytes
    ensures var r := Unfinished(s, c, g, w);
            && (r.Running? ==> (Conserved(r.state) <==> w.None? || c.truncates))
            && (w.None? || c.truncates ==> r.state.file.bytes <= s.fed && Ahead(r.state.file))
            && r.state.fed == s.fed && !r.state.file.append
  {
    PrefixFacts(s, 0);
  }

  /* --------------------------------------------------------------- whole runs */

  datatype Event = FeedBytes(bytes: string) | FlushCall(call: Call)

  /** Runs end when the process exits. */
  function Run(o: Outcome, es: seq<Event>): (r: Outcome)
    decreases |es|
  {
    if es == [] || o.Exited? then o else Run(Next(o.state, es[0]), es[1..])
  }

  function Next(s: State, e: Event): (r: Outcome) {
    match e
    case FeedBytes(b) => Running(Feed(s, b))
    case FlushCall(c) => Flush(s, c)
  }

  /** Over every run of feeds and flushes through a descriptor in append mode, the file
      followed by the buffer is everything fed, and the recorded size is the file's; if the
      process exits, the file is a prefix of everything fed. */
  lemma {:induction false} RunConserves(o: Outcome, es: seq<Event>)
    requires o.Running? ==> Conserved(o.state)
    requires o.state.file.append && o.state.file.bytes <= o.state.fed
    ensures Run(o, es).Running? ==> Conserved(Run(o, es).state)
    ensures Run(o, es).state.file.bytes <= Run(o, es).state.fed
    decreases |es|
  {
    hide Flush;
    if es != [] && o.Running? {
      match es[0] {
        case FeedBytes(b) =>
          var s := o.state;
          assert s.file.bytes + (s.buf + b) == s.file.bytes + s.buf + b;
          RunConserves(Running(Feed(s, b)), es[1..]);
        case FlushCall(c) =>
          FlushConserves(o.state, c);
          FlushKeepsMode(o.state, c);
          RunConserves(Flush(o.state, c), es[1..]);
      }
    }
  }

  /** The bytes are conserved after every event that the process survives. */
  predicate ConservedThroughout(o: Outcome, es: seq<Event>)
    decreases |es|
  {
    o.Running? ==> Conserved(o.state) && (es != [] ==> ConservedThroughout(Next(o.state, es[0]), es[1..]))
  }

  /** No flush that the process survives misplaces a write. */
  predicate NeverMisplaces(o: Outcome, es: seq<Event>)
    decreases |es|
  {
    es != [] && o.Running? ==>
      && (es[0].FlushCall? && Flush(o.state, es[0].call).Running? ==> !Misplaced(o.state, es[0].call))
      && NeverMisplaces(Next(o.state, es[0]), es[1..])
  }

  /** Over every run, in append mode or not, the bytes are conserved all along if and only if
      no write follows an undone one through the descriptor that it left past the end. */
  lemma {:induction false} RunConservesIff(o: Outcome, es: seq<Event>)
    requires o.Running? ==> Conserved(o.state) && Ahead(o.state.file)
    ensures ConservedThroughout(o, es) <==> NeverMisplaces(o, es)
    decreases |es|
  {
    hide Flush;
    hide Misplaced;
    if es != [] && o.Running? {
      var s, next := o.state, Next(o.state, es[0]);
      match es[0] {
        case FeedBytes(b) =>
          assert s.file.bytes + (s.buf + b) == s.file.bytes + s.buf + b;
          RunConservesIff(next, es[1..]);
        case FlushCall(c) =>
          FlushConservesIff(s, c);
          if next.Running? && Misplaced(s, c) {
            assert !ConservedThroughout(next, es[1..]);
          } else {
            RunConservesIff(next, es[1..]);
          }
      }
    }
  }

  lemma FlushKeepsMode(s: State, c: Call)
    requires Aligned(s.file)
    ensures Flush(s, c).state.file.append == s.file.append
  {
    AofWriteAppends(s.file, s.buf, c.oracle, 0);
  }

  /** Without append mode, after an undone short write of n bytes the next complete write
      leaves a hole of n NULs: the bytes are no longer conserved. */
  lemma HoleAfterUndoneWrite(s: State, c: Call, d: Call)
    requires Conserved(s) && Aligned(s.file) && !s.file.append && Undone(s, c) && !c.policy.Always?
    requires d.force && d.oracle == [Wrote(|s.buf|)]
    ensures var n := AofWrite(s.file, s.buf, c.oracle, 0).1.n;
            var u := Flush(Flush(s, c).state, d).state;
            n >= 1 && u.file.bytes == s.file.bytes + Zeros(n) + s.buf && u.buf == "" && !Conserved(u)
  {
    var (g, w) := AofWrite(s.file, s.buf, c.oracle, 0);
    AofWriteAppends(s.file, s.buf, c.oracle, 0);
    ProgressIsReported(s.file, s.buf, c.oracle, 0);
    var t := Flush(s, c).state;
    assert g.bytes[..s.size] == s.file.bytes;
    assert t.buf == s.buf && t.file == File(s.file.bytes, |s.file.bytes| + w.n, false);
    FullWrite(t.file, t.buf);
    assert Write(t.file, t.buf).bytes == s.file.bytes + Zeros(w.n) + s.buf;
    assert |s.fed| == |s.file.bytes| + |s.buf|;
  }

  lemma FullWrite(f: File, data: string)
    requires data != ""
    ensures AofWrite(f, data, [Wrote(|data|)], 0) == (Write(f, data), Bytes(|data|))
  {
    assert data[..|data|] == data && data[|data|..] == "";
  }

  /* --------------------------------------------------------------- fsyncs */

  /** A write after which an fsync is due but another is still under way: its turn is passed over,
      and the clock starts again. */
  predicate Skips(s: State, c: Call) {
    s.buf != "" && c.policy.EverySecond? && c.syncing && !c.suspended && c.now - s.lastFsync >= 1000
  }

  /** Exactly when a call starts an fsync, and of what: the whole buffer is in the file, something
      is not yet covered, syncing is not suspended, and under the every-second policy a second
      has passed and no fsync is under way. Otherwise the recorded offset stays. */
  lemma FsyncStarts(s: State, c: Call)
    ensures var r := Flush(s, c);
            var due := c.policy.Always? || (c.policy.EverySecond? && !c.syncing && c.now - s.lastFsync >= 1000);
            var starts := r.Running? && due && !c.suspended && r.state.buf == "" && (s.buf != "" || s.synced != s.size);
            && (starts ==> r.state.fsyncs == s.fsyncs + [Fsync(|r.state.file.bytes|, c.now)] && r.state.synced == r.state.size)
            && (!starts ==> r.state.fsyncs == s.fsyncs && r.state.synced == s.synced)
            && (starts ==> r.state.lastFsync == c.now)
            && (!starts ==> r.state.lastFsync == if Skips(s, c) && r.state.buf == "" then c.now else s.lastFsync)
  {
    hide AofWrite;
    AofWriteCount(s.file, s.buf, c.oracle, 0);
  }

  lemma {:induction false} AofWriteCount(f: File, data: string, oracle: seq<WriteResult>, sofar: nat)
    ensures Count(AofWrite(f, data, oracle, sofar).1) <= sofar + |data|
    decreases |oracle|
  {
    hide Write;
    if data != "" && oracle != [] && !oracle[0].Error? {
      if oracle[0].Interrupted? {
        AofWriteCount(f, data, oracle[1..], sofar);
      } else {
        var n := if oracle[0].n <= |data| then oracle[0].n else |data|;
        AofWriteCount(Write(f, data[..n]), data[n..], oracle[1..], sofar + n);
      }
    }
  }

  /** The recorded offset is the length of the file at the last fsync started. */
  predicate SyncedIsLast(s: State) {
    s.synced == if s.fsyncs == [] then 0 else s.fsyncs[|s.fsyncs| - 1].length
  }

  /** Over every run that conserves the bytes, the recorded fsync offset is exactly the length
      the file had when the last fsync was started. */
  lemma {:induction false} RunSynced(o: Outcome, es: seq<Event>)
    requires SyncedIsLast(o.state) && ConservedThroughout(o, es)
    ensures SyncedIsLast(Run(o, es).state)
    decreases |es|
  {
    hide Flush;
    hide Conserved;
    if es != [] && o.Running? {
      if es[0].FlushCall? { FlushSynced(o.state, es[0].call); }
      RunSynced(Next(o.state, es[0]), es[1..]);
    }
  }

  lemma FlushSynced(s: State, c: Call)
    requires SyncedIsLast(s) && (Flush(s, c).Running? ==> Conserved(Flush(s, c).state))
    ensures SyncedIsLast(Flush(s, c).state)
  {
    hide Flush;
    FsyncStarts(s, c);
  }

  /** Once a second has passed and no fsync is under way, a call that leaves the buffer empty
      leaves nothing uncovered either. */
  lemma EverySecondCovers(s: State, c: Call)
    requires c.policy.EverySecond? && !c.syncing && !c.suspended && c.now - s.lastFsync >= 1000
    ensures var r := Flush(s, c).state; r.buf == "" ==> r.synced == r.size
  {
    hide AofWrite;
    AofWriteCount(s.file, s.buf, c.oracle, 0);
  }

  predicate EachSecond(fsyncs: seq<Fsync>) {
    forall i :: 0 < i < |fsyncs| ==> fsyncs[i].time - fsyncs[i - 1].time >= 1000
  }

  predicate Spaced(s: State) {
    EachSecond(s.fsyncs) && (s.fsyncs != [] ==> s.fsyncs[|s.fsyncs| - 1].time <= s.lastFsync)
  }

  /** Under the every-second policy at most one fsync is started in any second. */
  lemma {:induction false} RunSpaced(o: Outcome, es: seq<Event>)
    requires Spaced(o.state) && forall i :: 0 <= i < |es| && es[i].FlushCall? ==> es[i].call.policy.EverySecond?
    ensures Spaced(Run(o, es).state)
    decreases |es|
  {
    hide Flush;
    if es != [] && o.Running? {
      if es[0].FlushCall? { FlushSpaced(o.state, es[0].call); }
      RunSpaced(Next(o.state, es[0]), es[1..]);
    }
  }

  lemma FlushSpaced(s: State, c: Call)
    requires Spaced(s) && c.policy.EverySecond?
    ensures Spaced(Flush(s, c).state)
  {
    hide AofWrite;
    hide Unfinished;
    var r := Flush(s, c).state;
    FsyncStarts(s, c);
    UnfinishedKeepsSync(s, c, AofWrite(s.file, s.buf, c.oracle, 0).0, AofWrite(s.file, s.buf, c.oracle, 0).1);
  }

  lemma UnfinishedKeepsSync(s: State, c: Call, g: File, w: Written)
    ensures var r := Unfinished(s, c, g, w).state; r.lastFsync == s.lastFsync && r.fsyncs == s.fsyncs
  {
  }

  /* ------------------------------------------------------------ postponed writes */

  /** Exactly when a call with something to write puts it off: under the every-second policy, not
      forced, an fsync under way, and no earlier call put it off two seconds ago or more. A call
      that does not writes through the descriptor, and its postponement is over. */
  lemma PostponesExact(s: State, c: Call)
    requires s.buf != ""
    ensures var r := Flush(s, c).state;
            var w := AofWrite(s.file, s.buf, c.oracle, 0);
            if c.policy.EverySecond? && c.syncing && !c.force && (s.postponed == 0 || c.now < s.postponed + 2000)
            then r == s.(postponed := if s.postponed == 0 then c.now else s.postponed)
            else
              && r.postponed == 0
              && (w.1 == Bytes(|s.buf|) ==> r.buf == "" && r.file == w.0 && r.size == s.size + |s.buf| && !r.failing)
              && (w.1 != Bytes(|s.buf|) && Flush(s, c).Running? ==> r.failing)
  {
    hide AofWrite;
  }

  /** The process ends exactly when every write is to be synced and the write fell short, or the
      fsync failed. */
  lemma ExitsExact(s: State, c: Call)
    ensures Flush(s, c).Exited? <==>
            && c.policy.Always? && (s.buf != "" || s.synced != s.size)
            && if s.buf != "" && AofWrite(s.file, s.buf, c.oracle, 0).1 != Bytes(|s.buf|) then true else !c.suspended && !c.fsyncs
  {
    hide AofWrite;
  }

  /** Something is put off only while there is something to write, and never for two seconds after
      the time of the last call. */
  predicate PutOff(s: State, now: nat) {
    s.postponed != 0 ==> s.buf != "" && now < s.postponed + 2000
  }

  lemma NeverTwoSeconds(s: State, c: Call)
    requires s.postponed != 0 ==> s.buf != ""
    ensures PutOff(Flush(s, c).state, c.now)
  {
    hide AofWrite;
  }

  /* ------------------------------------------------------------ in-place server */

  class FlushServer {
    var file: File
    var aofBuf: string
    var lastIncrSize: nat
    var lastIncrFsyncOffset: nat
    var lastWriteFailed: bool
    var flushPostponedStart: nat
    var lastFsync: int
    ghost var fed: string
    ghost var fsyncs: seq<Fsync>

    ghost function View(): (s: State)
      reads this
    {
      State(file, aofBuf, lastIncrSize, lastIncrFsyncOffset, lastWriteFailed, flushPostponedStart, lastFsync, fed, fsyncs)
    }

    constructor (append: bool)
      ensures Conserved(View()) && Aligned(file) && file.append == append && fed == "" && fsyncs == []
    {
      file := File("", 0, append);
      aofBuf, lastIncrSize, lastIncrFsyncOffset := "", 0, 0;
      lastWriteFailed, flushPostponedStart, lastFsync, fed, fsyncs := false, 0, 0, "", [];
    }

    method FeedBytesIn(bytes: string)
      modifies this
      ensures View() == Feed(old(View()), bytes)
    {
      aofBuf := aofBuf + bytes;
      fed := fed + bytes;
    }

    method FsyncIfNeeded(c: Call, syncing: bool) returns (exited: bool)
      modifies this`lastIncrFsyncOffset, this`lastFsync, this`fsyncs
      ensures (if exited then Exited(View()) else Running(View())) == TryFsync(old(View()), c, syncing)
    {
      if c.suspended { return false; }
      if c.policy.Always? {
        if !c.fsyncs { return true; }
        fsyncs := fsyncs + [Fsync(|file.bytes|, c.now)];
        lastIncrFsyncOffset := lastIncrSize;
        lastFsync := c.now;
      } else if c.policy.EverySecond? && c.now - lastFsync >= 1000 {
        if !syncing {
          fsyncs := fsyncs + [Fsync(|file.bytes|, c.now)];
          lastIncrFsyncOffset := lastIncrSize;
        }
        lastFsync := c.now;
      }
      return false;
    }

    /** flushAppendOnlyFile; `exited` when the policy cannot live with the failure. */
    method FlushAppendOnlyFile(c: Call) returns (exited: bool)
      modifies this
      ensures (if exited then Exited(View()) else Running(View())) == Flush(old(View()), c)
    {
      hide AofWrite;
      hide Unfinished;
      if aofBuf == "" {
        if lastIncrFsyncOffset != lastIncrSize
           && ((c.policy.EverySecond? && c.now - lastFsync >= 1000 && !c.syncing) || c.policy.Always?) {
          exited := FsyncIfNeeded(c, false);
          return;
        }
        return false;
      }
      var syncing := c.policy.EverySecond? && c.syncing;
      if c.policy.EverySecond? && !c.force && syncing {
        if flushPostponedStart == 0 {
          flushPostponedStart := c.now;
          return false;
        } else if c.now - flushPostponedStart < 2000 {
          return false;
        }
      }
      var g, w := AofWriteLoop(file, aofBuf, c.oracle);
      if w != Bytes(|aofBuf|) {
        exited := HandleUnfinished(c, g, w);
        return;
      }
      file := g;
      flushPostponedStart := 0;
      lastWriteFailed := false;
      lastIncrSize := lastIncrSize + |aofBuf|;
      aofBuf := "";
      exited := FsyncIfNeeded(c, syncing);
    }

    /** The write failed or was cut short: undo it if possible, keep what did not go out. */
    method HandleUnfinished(c: Call, g: File, w: Written) returns (exited: bool)
      modifies this
      ensures (if exited then Exited(View()) else Running(View())) == Unfinished(old(View()), c, g, w)
    {
      file := g;
      flushPostponedStart := 0;
      var written := w;
      if w.Bytes? && c.truncates {
        file := Truncate(file, lastIncrSize);
        written := None;
      }
      if c.policy.Always? { return true; }
      lastWriteFailed := true;
      if written.Bytes? && written.n > 0 {
        lastIncrSize := lastIncrSize + written.n;
        aofBuf := if written.n <= |aofBuf| then aofBuf[written.n..] else "";
      }
      return false;
    }
  }
}
