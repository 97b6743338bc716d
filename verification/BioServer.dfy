/** The shared state of the background jobs as the threads update it: one method per critical
    section, and the drain and the count as the main thread asks for them. */
module BioServers {
  import opened Bio

  class BioServer {
    var jobs: seq<seq<Job>>             // bio_jobs, one queue per worker
    var phases: seq<Phase>              // where each worker thread is
    var jobsCounter: map<JobType, int>
    var compList: seq<Job>
    var pipe: nat                       // bytes in job_comp_pipe
    var main: Main
    var tmpList: seq<Job>
    ghost var submitted: seq<seq<Job>>
    ghost var ran: seq<seq<Job>>
    ghost var responded: seq<Job>
    ghost var delivered: seq<Job>

    ghost predicate Shaped()
      reads this
    {
      |jobs| == |phases| == |submitted| == |ran| == WORKERS
    }

    ghost function WorkerAt(w: nat): (v: Worker)
      requires Shaped() && w < WORKERS
      reads this
    {
      Worker(jobs[w], phases[w], submitted[w], ran[w])
    }

    ghost function View(): (s: State)
      requires Shaped()
      reads this
      ensures |s.workers| == WORKERS
    {
      State([WorkerAt(0), WorkerAt(1), WorkerAt(2)], jobsCounter, compList, pipe, main, tmpList, responded, delivered)
    }

    ghost predicate Valid()
      reads this
    {
      Shaped() && Inv(View())
    }

    constructor ()
      ensures Valid() && View() == Start()
    {
      jobs, phases := [[], [], []], [Idle, Idle, Idle];
      jobsCounter := map[CloseFile := 0, AofFsync := 0, CloseAof := 0, LazyFree := 0, CompCloseFile := 0, CompAofFsync := 0, CompLazyFree := 0];
      compList, pipe, main, tmpList := [], 0, Looping, [];
      submitted, ran, responded, delivered := [[], [], []], [[], [], []], [], [];
      new;
      hide Inv;
      StartInv();
    }

    /** Adds a job to the queue of the worker for its type. */
    method SubmitJob(job: Job)
      requires Valid() && Enabled(View(), Submit(job))
      modifies this
      ensures Valid() && View() == Next(old(View()), Submit(job))
    {
      hide Inv;
      InvShape(View());
      NextKeeps(View(), Submit(job));
      var w := WorkerOf(job.kind);
      jobs := jobs[w := jobs[w] + [job]];
      jobsCounter := jobsCounter[job.kind := jobsCounter[job.kind] + 1];
      submitted := submitted[w := submitted[w] + [job]];
      assert View().workers == old(View()).workers[w := WorkerAt(w)];
    }

    /** The worker finds its first job and releases the lock. */
    method PickJob(w: nat)
      requires Valid() && Enabled(View(), Pick(w))
      modifies this
      ensures Valid() && View() == Next(old(View()), Pick(w))
    {
      hide Inv;
      InvShape(View());
      NextKeeps(View(), Pick(w));
      phases := phases[w := Running];
      assert View().workers == old(View()).workers[w := WorkerAt(w)];
    }

    /** The worker does the job; a completion request puts its response in the list. */
    method ProcessJob(w: nat)
      requires Valid() && Enabled(View(), Process(w))
      modifies this
      ensures Valid() && View() == Next(old(View()), Process(w))
    {
      hide Inv;
      InvShape(View());
      NextKeeps(View(), Process(w));
      var job := jobs[w][0];
      ran := ran[w := ran[w] + [job]];
      if IsCompletion(job.kind) {
        compList := compList + [job];
        responded := responded + [job];
        phases := phases[w := Appended];
      } else {
        phases := phases[w := Processed];
      }
      assert View().workers == old(View()).workers[w := WorkerAt(w)];
    }

    /** The worker writes one byte to the pipe, which may be full. */
    method AnnounceResponse(w: nat, written: bool)
      requires Valid() && Enabled(View(), Announce(w, written))
      modifies this
      ensures Valid() && View() == Next(old(View()), Announce(w, written))
    {
      hide Inv;
      InvShape(View());
      NextKeeps(View(), Announce(w, written));
      if written { pipe := pipe + 1; }
      phases := phases[w := Processed];
      assert View().workers == old(View()).workers[w := WorkerAt(w)];
    }

    /** The worker, under the lock again, removes the job from its queue. */
    method FinishJob(w: nat)
      requires Valid() && Enabled(View(), Finish(w))
      modifies this
      ensures Valid() && View() == Next(old(View()), Finish(w))
    {
      hide Inv;
      InvShape(View());
      NextKeeps(View(), Finish(w));
      var t := jobs[w][0].kind;
      jobs := jobs[w := jobs[w][1..]];
      jobsCounter := jobsCounter[t := jobsCounter[t] - 1];
      phases := phases[w := Idle];
      assert View().workers == old(View()).workers[w := WorkerAt(w)];
    }

    /** The number of jobs of a type that are queued or running. */
    method PendingJobsOfType(t: JobType) returns (n: int)
      requires Valid()
      ensures n == CountKind(jobs[WorkerOf(t)], t)
    {
      n := jobsCounter[t];
    }

    /** The test of the drain loop: it ends exactly when the queue of the worker is empty, and then
        all that was ever submitted to that worker has run, in order. */
    method Drained(t: JobType) returns (done: bool)
      requires Valid()
      ensures done <==> jobs[WorkerOf(t)] == []
      ensures done ==> ran[WorkerOf(t)] == submitted[WorkerOf(t)]
    {
      var w := WorkerOf(t);
      done := jobs[w] == [];
      if done { DrainMeansRan(View(), w); }
    }

    /** The event loop calls the handler because the pipe is readable. */
    method WakeUp()
      requires Valid() && Enabled(View(), Wake)
      modifies this
      ensures Valid() && View() == Next(old(View()), Wake)
    {
      hide Inv;
      NextKeeps(View(), Wake);
      main := Reading;
    }

    /** One read of the loop that empties the pipe. */
    method ReadPipe()
      requires Valid() && Enabled(View(), Read)
      modifies this
      ensures Valid() && View() == Next(old(View()), Read)
    {
      hide Inv;
      NextKeeps(View(), Read);
      var n := if pipe < CHUNK then pipe else CHUNK;
      pipe := pipe - n;
      if n != CHUNK { main := Taking; }
    }

    /** Under the lock of the list: it is taken whole, when there is something in it. */
    method TakeList()
      requires Valid() && Enabled(View(), Take)
      modifies this
      ensures Valid() && View() == Next(old(View()), Take)
    {
      hide Inv;
      NextKeeps(View(), Take);
      if compList != [] {
        tmpList := compList;
        compList := [];
        main := Calling;
      } else {
        NothingTaken(View());
        main := Looping;
      }
    }

    /** One callback. */
    method CallBack()
      requires Valid() && Enabled(View(), Call)
      modifies this
      ensures Valid() && View() == Next(old(View()), Call)
    {
      hide Inv;
      NextKeeps(View(), Call);
      delivered := delivered + [tmpList[0]];
      tmpList := tmpList[1..];
    }

    /** All callbacks made. */
    method ReturnToLoop()
      requires Valid() && Enabled(View(), Return)
      modifies this
      ensures Valid() && View() == Next(old(View()), Return)
    {
      hide Inv;
      NextKeeps(View(), Return);
      main := Looping;
    }
  }

  lemma InvShape(s: State)
    requires Inv(s)
    ensures Shape(s)
  {
  }

  /** Outside of the callbacks nothing is left over from an earlier list. */
  lemma NothingTaken(s: State)
    requires Inv(s) && !s.main.Calling?
    ensures s.taken == []
  {
  }
}
