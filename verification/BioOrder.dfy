/** What callers of the background workers rely on, told by the types of jobs and the order of
    their submissions in an interleaving. */
module BioOrder {
  import opened Wrappers
  import opened Bio

  /** The job has run, on some worker. */
  ghost predicate Ran(s: State, job: Job) { exists w :: 0 <= w < |s.workers| && job in s.workers[w].ran }

  /** The requests that are answered, and the jobs each of them is to wait for. */
  predicate Answers(request: JobType, kind: JobType) {
    || (request.CompLazyFree? && kind.LazyFree?)
    || (request.CompCloseFile? && kind.CloseFile?)
    || (request.CompAofFsync? && (kind.AofFsync? || kind.CloseAof?))
  }

  /** Its response has been delivered, taken for delivery, or put in the list. */
  predicate Answered(s: State, job: Job) { job in s.delivered + s.taken + s.compList }

  predicate OnTheLog(kind: JobType) { kind.AofFsync? || kind.CloseAof? }

  // ---- submissions ----

  lemma SubmittedNext(s: State, e: Event, w: nat)
    requires Shape(s) && Enabled(s, e) && w < WORKERS && Shape(Next(s, e))
    ensures s.workers[w].submitted <= Next(s, e).workers[w].submitted
  {
  }

  lemma {:induction false} SubmittedGrows(s: State, events: seq<Event>, w: nat)
    requires Possible(s, events) && w < WORKERS
    ensures |Exec(s, events).workers| == WORKERS && s.workers[w].submitted <= Exec(s, events).workers[w].submitted
    decreases |events|
  {
    hide Enabled;
    hide Next;
    if events != [] {
      SubmittedNext(s, events[0], w);
      SubmittedGrows(Next(s, events[0]), events[1..], w);
    }
  }

  /** A job submitted during a run comes after all that its worker had before. */
  lemma {:induction false} SubmittedLater(s: State, events: seq<Event>, j: nat, w: nat) returns (n: nat)
    requires Possible(s, events) && j < |events| && events[j].Submit? && w == WorkerOf(events[j].job.kind)
    ensures |Exec(s, events).workers| == WORKERS
    ensures |s.workers[w].submitted| <= n < |Exec(s, events).workers[w].submitted|
    ensures Exec(s, events).workers[w].submitted[n] == events[j].job
    decreases |events|
  {
    hide WorkerOf;
    hide Enabled;
    var r := Next(s, events[0]);
    SubmittedGrows(r, events[1..], w);
    if j == 0 {
      n := |s.workers[w].submitted|;
      SubmittedNow(s, events[0].job);
    } else {
      SubmittedNext(s, events[0], w);
      n := SubmittedLater(r, events[1..], j - 1, w);
    }
  }

  lemma SubmittedNow(s: State, job: Job)
    requires Shape(s) && Enabled(s, Submit(job)) && Shape(Next(s, Submit(job)))
    ensures var w := WorkerOf(job.kind); Next(s, Submit(job)).workers[w].submitted == s.workers[w].submitted + [job]
  {
  }

  /** Two jobs of one worker are queued in the order of their submissions. */
  lemma {:induction false} SubmittedInOrder(s: State, events: seq<Event>, i: nat, j: nat, w: nat) returns (m: nat, n: nat)
    requires Possible(s, events) && i < j < |events| && events[i].Submit? && events[j].Submit?
    requires WorkerOf(events[i].job.kind) == w == WorkerOf(events[j].job.kind)
    ensures |Exec(s, events).workers| == WORKERS
    ensures m < n < |Exec(s, events).workers[w].submitted|
    ensures Exec(s, events).workers[w].submitted[m] == events[i].job && Exec(s, events).workers[w].submitted[n] == events[j].job
    decreases |events|
  {
    hide WorkerOf;
    hide Enabled;
    var r := Next(s, events[0]);
    if i == 0 {
      m := |s.workers[w].submitted|;
      SubmittedNow(s, events[0].job);
      SubmittedGrows(r, events[1..], w);
      n := SubmittedLater(r, events[1..], j - 1, w);
    } else {
      m, n := SubmittedInOrder(r, events[1..], i - 1, j - 1, w);
    }
  }

  // ---- what callers rely on ----

  /** In every interleaving, when the response to a completion request is delivered, every job of
      the types it stands for that was submitted before the request has run. */
  lemma ResponseAfterJobs(events: seq<Event>, i: nat, j: nat)
    requires Possible(Start(), events) && i < j < |events| && events[i].Submit? && events[j].Submit?
    requires Answers(events[j].job.kind, events[i].job.kind)
    requires events[j].job in Exec(Start(), events).delivered
    ensures Ran(Exec(Start(), events), events[i].job)
  {
    hide Possible;
    hide Exec;
    hide Inv;
    hide Start;
    var s, w := Exec(Start(), events), WorkerOf(events[j].job.kind);
    Protocol(events);
    var m, n := SubmittedInOrder(Start(), events, i, j, w);
    DeliveredAfterEarlier(s, w, m, n);
    assert s.workers[w].ran[m] in s.workers[w].ran;
  }

  /** Fsyncs and closes of the append-only file run in the order of their submissions. */
  lemma LogJobsInOrder(events: seq<Event>, i: nat, j: nat)
    requires Possible(Start(), events) && i < j < |events| && events[i].Submit? && events[j].Submit?
    requires OnTheLog(events[i].job.kind) && OnTheLog(events[j].job.kind)
    requires Ran(Exec(Start(), events), events[j].job)
    ensures exists w, m, n :: 0 <= w < |Exec(Start(), events).workers| && 0 <= m < n < |Exec(Start(), events).workers[w].ran|
              && Exec(Start(), events).workers[w].ran[m] == events[i].job && Exec(Start(), events).workers[w].ran[n] == events[j].job
  {
    hide Possible;
    hide Exec;
    hide Start;
    hide Counters;
    hide Responses;
    hide Awake;
    var s, w := Exec(Start(), events), WorkerOf(events[j].job.kind);
    Protocol(events);
    var m, n := SubmittedInOrder(Start(), events, i, j, w);
    AtWorker(s.workers, w);
    RanIsSubmitted(s, events[j].job, w, n);
    assert s.workers[w].ran[m] == events[i].job && s.workers[w].ran[n] == events[j].job;
  }

  /** What has run on any worker has run on its own, where it was submitted. */
  lemma RanIsSubmitted(s: State, job: Job, w: nat, n: nat)
    requires |s.workers| == WORKERS && AllInOrder(s.workers) && Ran(s, job) && w == WorkerOf(job.kind)
    requires n < |s.workers[w].submitted| && s.workers[w].submitted[n] == job
    ensures n < |s.workers[w].ran| && s.workers[w].ran == s.workers[w].submitted[..|s.workers[w].ran|]
  {
    hide WorkerOf;
    var u :| 0 <= u < |s.workers| && job in s.workers[u].ran;
    AtWorker(s.workers, u);
    AtWorker(s.workers, w);
    var x :| 0 <= x < |s.workers[u].ran| && s.workers[u].ran[x] == job;
    assert s.workers[u].submitted[x] == job;
    assert u == w;
    assert x == n;
  }

  /** A job is answered, at the latest when the main thread comes to it, if and only if it is one of
      the three requests and has run. */
  lemma RespondedExact(events: seq<Event>, job: Job)
    requires Possible(Start(), events)
    ensures Answered(Exec(Start(), events), job) <==>
            Ran(Exec(Start(), events), job) && (job.kind.CompCloseFile? || job.kind.CompAofFsync? || job.kind.CompLazyFree?)
  {
    hide Possible;
    hide Exec;
    hide Start;
    hide Counters;
    hide Awake;
    hide WorkerOf;
    var s, w := Exec(Start(), events), WorkerOf(job.kind);
    Protocol(events);
    assert s.responded == s.delivered + s.taken + s.compList;
    OfWorkerExact(s.responded, job, w);
    CompletionsExact(s.workers[w].ran, job);
    if Ran(s, job) { RanOnOwn(s, job, w); }
  }

  lemma RanOnOwn(s: State, job: Job, w: nat)
    requires |s.workers| == WORKERS && AllInOrder(s.workers) && Ran(s, job) && w == WorkerOf(job.kind)
    ensures job in s.workers[w].ran
  {
    hide WorkerOf;
    var u :| 0 <= u < |s.workers| && job in s.workers[u].ran;
    AtWorker(s.workers, u);
    var x :| 0 <= x < |s.workers[u].ran| && s.workers[u].ran[x] == job;
    assert s.workers[u].submitted[x] == job;
  }

  lemma {:induction false} OfWorkerExact(jobs: seq<Job>, job: Job, w: nat)
    requires w == WorkerOf(job.kind)
    ensures job in OfWorker(jobs, w) <==> job in jobs
  {
    hide WorkerOf;
    if jobs != [] {
      var n := |jobs| - 1;
      assert jobs == jobs[..n] + [jobs[n]];
      OfWorkerExact(jobs[..n], job, w);
    }
  }

  lemma {:induction false} CompletionsExact(jobs: seq<Job>, job: Job)
    ensures job in Completions(jobs) <==>
            job in jobs && (job.kind.CompCloseFile? || job.kind.CompAofFsync? || job.kind.CompLazyFree?)
  {
    if jobs != [] {
      var n := |jobs| - 1;
      assert jobs == jobs[..n] + [jobs[n]];
      CompletionsExact(jobs[..n], job);
    }
  }
}
