/** The server's side of the rewrite as the code runs it: fields updated in place, one method
    per function, the results of system calls as parameters. Every disk effect is recorded as
    an event, so the states between two effects are states of the transition system. */
module AofServers {
  import opened Wrappers
  import opened AofManifests
  import opened AofRewrite

  /** The list with its last element only. */
  function LastOf(s: seq<nat>): (r: seq<nat>) { if s == [] then [] else [s[|s| - 1]] }

  class AofServer {
    var manifest: Manifest
    var aofBuf: Log
    var dataset: Log
    var childSnapshot: Log            // the forked child's copy of the dataset
    var files: Files                  // the AOF directory
    var listing: Listing              // the manifest file in it
    var temp: Option<Log>             // the child's output file
    ghost var phase: Phase
    ghost var trace: seq<Event>

    ghost function View(): (s: State)
      reads this
    {
      State(manifest, aofBuf, dataset, phase, Disk(files, listing, temp))
    }

    /** The object is where its recorded events lead. */
    ghost predicate Valid()
      reads this
    {
      && Possible(INIT, trace) && Exec(INIT, trace) == View()
      && (phase.Child? ==> childSnapshot == phase.snapshot)
    }

    constructor ()
      ensures Valid() && View() == INIT && trace == []
    {
      manifest := Manifest(Listing(Some(1), [1], []), 1, 1, false);
      aofBuf, dataset, childSnapshot := [], [], [];
      files := map[Base(1) := [], Incr(1) := []];
      listing := Listing(Some(1), [1], []);
      temp := None;
      phase := Idle;
      trace := [];
    }

    /** feedAppendOnlyFile: the executed command joins the buffer. */
    method FeedAppendOnlyFile(c: Command)
      requires Valid() && Serving(View())
      modifies this`dataset, this`aofBuf, this`trace
      ensures Valid() && trace == old(trace) + [Feed(c)]
      ensures dataset == old(dataset) + [c] && aofBuf == old(aofBuf) + [c]
    {
      ExecAppend(INIT, trace, Feed(c));
      dataset := dataset + [c];
      aofBuf := aofBuf + [c];
      trace := trace + [Feed(c)];
    }

    /** flushAppendOnlyFile: the first `n` buffered commands reach the INCR being written. */
    method FlushAppendOnlyFile(n: nat)
      requires Valid() && Serving(View()) && n <= |aofBuf|
      modifies this`files, this`aofBuf, this`trace
      ensures Valid() && trace == old(trace) + [Flush(n)]
      ensures aofBuf == old(aofBuf)[n..]
    {
      ExecAppend(INIT, trace, Flush(n));
      files := Append(files, Incr(manifest.currIncr), aofBuf[..n]);
      aofBuf := aofBuf[n..];
      trace := trace + [Flush(n)];
    }

    /** openNewIncrAofForAppend: a new INCR file, then the manifest that lists it; in memory
        nothing changes unless both succeed. */
    method OpenNewIncrAofForAppend(created: bool, persisted: Persist) returns (ok: bool)
      requires Valid() && phase.Idle?
      modifies this
      ensures Valid() && aofBuf == old(aofBuf) && dataset == old(dataset)
      ensures trace == old(trace) + if created then [OpenIncr, PersistIncr(persisted)] else []
      ensures ok == (created && persisted.Done?)
      ensures if ok then phase.Forking? && manifest == NewIncr(old(manifest)).(dirty := false)
              else phase.Idle? && manifest == old(manifest)
    {
      hide Exec;
      hide Possible;
      hide NewIncr;
      var tempAm := NewIncr(manifest);
      assert tempAm.currIncr == manifest.currIncr + 1 by { NextNumber(manifest); }
      if !created { return false; }
      ExecAppend(INIT, trace, OpenIncr);
      files := files[Incr(tempAm.currIncr) := []];
      trace := trace + [OpenIncr];
      phase := Opening(tempAm);

      ExecAppend(INIT, trace, PersistIncr(persisted));
      if !persisted.FailedBefore? { listing := tempAm.list; }
      trace := trace + [PersistIncr(persisted)];
      assert trace == old(trace) + [OpenIncr, PersistIncr(persisted)];
      if !persisted.Done? {
        phase := Idle;
        return false;
      }
      manifest := tempAm.(dirty := false);
      phase := Forking;
      return true;
    }

    /** rewriteAppendOnlyFileBackground: flush what can be flushed, switch to a new INCR, fork. */
    method RewriteAppendOnlyFileBackground(written: nat, created: bool, persisted: Persist, forked: bool) returns (ok: bool)
      requires Valid() && phase.Idle? && written <= |aofBuf|
      modifies this
      ensures Valid() && old(trace) <= trace && dataset == old(dataset)
      ensures ok == (created && persisted.Done? && forked)
      ensures if ok then phase == Child(dataset, aofBuf) else phase.Idle?
      ensures aofBuf == old(aofBuf)[written..]
    {
      FlushAppendOnlyFile(written);
      ok := OpenNewIncrAofForAppend(created, persisted);
      if !ok { return; }
      ExecAppend(INIT, trace, Fork(forked));
      trace := trace + [Fork(forked)];
      if forked {
        childSnapshot := dataset;
        phase := Child(dataset, aofBuf);
      } else {
        phase := Idle;
      }
      ok := forked;
    }

    /** The child wrote its snapshot, or failed. */
    method ChildTerminated(success: bool)
      requires Valid() && phase.Child?
      modifies this`temp, this`phase, this`trace
      ensures Valid() && trace == old(trace) + [ChildExits(success)]
      ensures if success then phase == Exited(old(phase).snapshot, old(phase).pending) && temp == Some(childSnapshot) else phase.Idle?
    {
      ExecAppend(INIT, trace, ChildExits(success));
      temp := if success then Some(childSnapshot) else None;
      phase := if success then Exited(phase.snapshot, phase.pending) else Idle;
      trace := trace + [ChildExits(success)];
    }

    /** The first half of the done handler: a new BASE name for the child's file, and the
        rewritten INCRs marked as history, all on a copy of the manifest. */
    method AdoptBase(renamed: bool) returns (tempAm: Manifest)
      requires Valid() && phase.Exited? && temp.Some?
      modifies this`files, this`temp, this`phase, this`trace
      ensures Valid() && trace == old(trace) + [RenameBase(renamed)]
      ensures if renamed then phase.Renamed? && phase.next == tempAm && phase.pending == old(phase).pending else phase.Idle?
      ensures tempAm == MarkRewritten(NewBase(manifest))
    {
      ExecAppend(INIT, trace, RenameBase(renamed));
      tempAm := NewBase(manifest);
      if renamed { files := files[Base(tempAm.currBase) := temp.value]; }
      temp := None;
      tempAm := MarkRewrittenIncrAofAsHistory(tempAm);
      phase := if renamed then Renamed(tempAm, phase.snapshot, phase.pending) else Idle;
      trace := trace + [RenameBase(renamed)];
    }

    /** The second half: persist the copy, then make it the manifest, or give the file up. */
    method PersistBaseManifest(tempAm: Manifest, persisted: Persist, unlinked: bool)
      requires Valid() && phase.Renamed? && phase.next == tempAm
      modifies this`files, this`listing, this`manifest, this`phase, this`trace
      ensures Valid() && trace == old(trace) + [PersistBase(persisted, unlinked)]
      ensures if persisted.Done? then phase.Deleting? && manifest == tempAm.(dirty := false)
              else phase.Idle? && manifest == old(manifest)
    {
      hide Exec;
      hide Possible;
      ExecAppend(INIT, trace, PersistBase(persisted, unlinked));
      trace := trace + [PersistBase(persisted, unlinked)];
      if !persisted.FailedBefore? { listing := tempAm.list; }
      if persisted.Done? {
        manifest := tempAm.(dirty := false);
        phase := Deleting;
      } else {
        files := Unlink(files, Base(manifest.currBase + 1), unlinked);
        phase := Idle;
      }
    }

    /** aofDelHistoryFiles: remove the history files one by one, then persist the shorter
        manifest; with garbage collection off, nothing at all. */
    method DeleteOne(gone: bool)
      requires Valid() && phase.Deleting? && manifest.list.history != []
      modifies this`files, this`manifest, this`trace
      ensures Valid() && trace == old(trace) + [DeleteHistory(gone)]
      ensures manifest == old(manifest).(list := old(manifest.list).(history := old(manifest.list.history)[1..]), dirty := true)
    {
      hide Exec;
      hide Possible;
      ExecAppend(INIT, trace, DeleteHistory(gone));
      files := Unlink(files, manifest.list.history[0], gone);
      manifest := manifest.(list := manifest.list.(history := manifest.list.history[1..]), dirty := true);
      trace := trace + [DeleteHistory(gone)];
    }

    method DelHistoryFiles(gc: bool, unlinks: seq<bool>, persisted: Persist)
      requires Valid() && phase.Deleting?
      modifies this`files, this`listing, this`manifest, this`phase, this`trace
      ensures Valid() && phase.Idle? && old(trace) <= trace
      ensures manifest.list.base == old(manifest.list.base) && manifest.list.incrs == old(manifest.list.incrs)
      ensures if gc then manifest.list.history == [] else manifest == old(manifest) && files == old(files) && listing == old(listing)
    {
      hide Exec;
      hide Possible;
      var outcome := FailedBefore;
      if gc && manifest.list.history != [] {
        var k := 0;
        while manifest.list.history != []
          invariant Valid() && phase.Deleting? && old(trace) <= trace
          invariant manifest.list.base == old(manifest.list.base) && manifest.list.incrs == old(manifest.list.incrs)
          decreases |manifest.list.history|
        {
          DeleteOne(if k < |unlinks| then unlinks[k] else true);
          k := k + 1;
        }
        outcome := persisted;
      }
      ExecAppend(INIT, trace, FinishDeletion(outcome));
      if !outcome.FailedBefore? { listing := manifest.list; }
      if outcome.Done? { manifest := manifest.(dirty := false); }
      phase := Idle;
      trace := trace + [FinishDeletion(outcome)];
    }

    /** backgroundRewriteDoneHandler. */
    method BackgroundRewriteDoneHandler(success: bool, renamed: bool, persisted: Persist, unlinked: bool,
                                        gc: bool, unlinks: seq<bool>, cleaned: Persist)
      requires Valid() && phase.Child?
      modifies this
      ensures Valid() && phase.Idle? && old(trace) <= trace
      ensures dataset == old(dataset) && aofBuf == old(aofBuf)
      ensures if success && renamed && persisted.Done?
              then manifest.list.base == Some(old(manifest.currBase) + 1)
                   && manifest.list.incrs == LastOf(old(manifest.list.incrs))
                   && (gc ==> manifest.list.history == [])
              else manifest == old(manifest)
    {
      ChildTerminated(success);
      if !success { return; }
      var tempAm := AdoptBase(renamed);
      if !renamed { return; }
      PersistBaseManifest(tempAm, persisted, unlinked);
      if persisted.Done? { DelHistoryFiles(gc, unlinks, cleaned); }
    }

    /** A crash and a restart: the manifest and the dataset come from the disk, the history
        files are swept. */
    method Restart(gc: bool, unlinks: seq<bool>, cleaned: Persist)
      requires Valid() && Recover(Disk(files, listing, temp)).Some?
      modifies this
      ensures Valid() && phase.Idle? && old(trace) <= trace && aofBuf == []
      ensures Some(dataset) == old(Recover(Disk(files, listing, temp)))
    {
      ExecAppend(INIT, trace, Crash);
      dataset := Recover(Disk(files, listing, temp)).value;
      manifest := FromListing(listing);
      aofBuf := [];
      temp := None;
      phase := Deleting;
      trace := trace + [Crash];
      DelHistoryFiles(gc, unlinks, cleaned);
    }

    /** Whatever the server went through, as long as no last persist was a bad one, the disk
        recovers exactly what was flushed. */
    lemma DiskRecovers()
      requires Valid() && Sound(INIT, trace)
      ensures |aofBuf| <= |dataset| && Recover(Disk(files, listing, temp)) == Some(dataset[..|dataset| - |aofBuf|])
    {
      CrashSafety(trace);
    }
  }

  lemma NextNumber(m: Manifest)
    ensures NewIncr(m).currIncr == m.currIncr + 1
  {
  }
}
