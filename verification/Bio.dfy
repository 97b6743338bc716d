/** Background jobs: three workers, each with its own queue, and completion responses handed back
    to the main thread through a list and a pipe. One event is one critical section or one
    action between two of them; a run is any interleaving of events. */
module Bio {
  import opened Wrappers

  datatype JobType = CloseFile | AofFsync | CloseAof | LazyFree | CompCloseFile | CompAofFsync | CompLazyFree

  const WORKERS: nat := 3

  function WorkerOf(t: JobType): (w: nat)
    ensures w < WORKERS
  {
    match t
    case CloseFile => 0
    case AofFsync => 1
    case CloseAof => 1
    case LazyFree => 2
    case CompCloseFile => 0
    case CompAofFsync => 1
    case CompLazyFree => 2
  }

  predicate IsCompletion(t: JobType) { t.CompCloseFile? || t.CompAofFsync? || t.CompLazyFree? }

  datatype Job = Job(id: nat, kind: JobType)

  /** Where a worker is with the first job of its queue: not started, taken, its response in the
      list but not announced, or processed. */
  datatype Phase = Idle | Running | Appended | Processed

  datatype Worker = Worker(jobs: seq<Job>, phase: Phase, submitted: seq<Job>, ran: seq<Job>)

  /** The main thread: in the event loop, emptying the pipe, about to take the list, calling back. */
  datatype Main = Looping | Reading | Taking | Calling

  datatype State = State(
    workers: seq<Worker>,
    counters: map<JobType, int>,
    compList: seq<Job>,
    pipe: nat,
    main: Main,
    taken: seq<Job>,
    responded: seq<Job>,   // every response ever put in the list
    delivered: seq<Job>)   // every callback made

  datatype Event =
    | Submit(job: Job)
    | Pick(w: nat)
    | Process(w: nat)
    | Announce(w: nat, written: bool)
    | Finish(w: nat)
    | Wake
    | Read
    | Take
    | Call
    | Return

  const CHUNK: nat := 128

  ghost predicate Shape(s: State) { |s.workers| == WORKERS && forall t: JobType :: t in s.counters }

  ghost predicate Enabled(s: State, e: Event)
    requires Shape(s)
  {
    match e
    case Submit(job) => job !in s.workers[WorkerOf(job.kind)].submitted
    case Pick(w) => w < WORKERS && s.workers[w].phase.Idle? && s.workers[w].jobs != []
    case Process(w) => w < WORKERS && s.workers[w].phase.Running? && s.workers[w].jobs != []
    case Announce(w, written) => w < WORKERS && s.workers[w].phase.Appended? && (!written ==> s.pipe > 0)  // only a full pipe refuses
    case Finish(w) => w < WORKERS && s.workers[w].phase.Processed? && s.workers[w].jobs != []
    case Wake => s.main.Looping? && s.pipe > 0
    case Read => s.main.Reading?
    case Take => s.main.Taking?
    case Call => s.main.Calling? && s.taken != []
    case Return => s.main.Calling? && s.taken == []
  }

  function Put(s: State, w: nat, v: Worker): (r: State)
    requires w < |s.workers|
  {
    s.(workers := s.workers[w := v])
  }

  ghost function Next(s: State, e: Event): (r: State)
    requires Shape(s) && Enabled(s, e)
  {
    match e
    case Submit(job) =>
      var w := WorkerOf(job.kind);
      var v := s.workers[w];
      Put(s, w, v.(jobs := v.jobs + [job], submitted := v.submitted + [job]))
        .(counters := s.counters[job.kind := s.counters[job.kind] + 1])
    case Pick(w) => Put(s, w, s.workers[w].(phase := Running))
    case Process(w) =>
      var v := s.workers[w];
      var job := v.jobs[0];
      if IsCompletion(job.kind) then
        Put(s, w, v.(phase := Appended, ran := v.ran + [job]))
          .(compList := s.compList + [job], responded := s.responded + [job])
      else Put(s, w, v.(phase := Processed, ran := v.ran + [job]))
    case Announce(w, written) =>
      Put(s, w, s.workers[w].(phase := Processed)).(pipe := if written then s.pipe + 1 else s.pipe)
    case Finish(w) =>
      var v := s.workers[w];
      var t := v.jobs[0].kind;
      Put(s, w, v.(phase := Idle, jobs := v.jobs[1..])).(counters := s.counters[t := s.counters[t] - 1])
    case Wake => s.(main := Reading)
    case Read =>
      if s.pipe >= CHUNK then s.(pipe := s.pipe - CHUNK) else s.(pipe := 0, main := Taking)
    case Take => s.(main := if s.compList == [] then Looping else Calling, taken := s.compList, compList := [])
    case Call => s.(taken := s.taken[1..], delivered := s.delivered + [s.taken[0]])
    case Return => s.(main := Looping)
  }

  // ---- the invariant ----

  function CountKind(jobs: seq<Job>, t: JobType): (n: nat) {
    if jobs == [] then 0 else CountKind(jobs[..|jobs| - 1], t) + (if jobs[|jobs| - 1].kind == t then 1 else 0)
  }

  /** The completion requests among some jobs, and the jobs of one worker. */
  function Completions(jobs: seq<Job>): (r: seq<Job>) {
    if jobs == [] then []
    else Completions(jobs[..|jobs| - 1]) + (if IsCompletion(jobs[|jobs| - 1].kind) then [jobs[|jobs| - 1]] else [])
  }

  function OfWorker(jobs: seq<Job>, w: nat): (r: seq<Job>) {
    if jobs == [] then []
    else OfWorker(jobs[..|jobs| - 1], w) + (if WorkerOf(jobs[|jobs| - 1].kind) == w then [jobs[|jobs| - 1]] else [])
  }

  /** The queue is what was submitted and not finished; what ran is the finished jobs in order of
      submission, and the first of the queue once it has been processed. */
  ghost predicate InOrder(v: Worker, w: nat) {
    && |v.jobs| <= |v.submitted| && Distinct(v.submitted)
    && (forall i :: 0 <= i < |v.submitted| ==> WorkerOf(v.submitted[i].kind) == w)
    && (v.phase != Idle ==> v.jobs != [])
    && var n := |v.submitted| - |v.jobs|;
       && v.jobs == v.submitted[n..]
       && v.ran == v.submitted[..if v.phase.Appended? || v.phase.Processed? then n + 1 else n]
  }

  /** A counter is the number of jobs of its type queued or running. */
  ghost predicate Counters(s: State)
    requires Shape(s)
  {
    forall t: JobType :: s.counters[t] == CountKind(s.workers[WorkerOf(t)].jobs, t)
  }

  /** Responses are delivered in the order they were put, none lost and none twice, and each
      worker responded exactly to the completion requests it ran, in order. */
  ghost predicate Responses(s: State)
    requires Shape(s)
  {
    && s.responded == s.delivered + s.taken + s.compList
    && forall w :: 0 <= w < WORKERS ==> OfWorker(s.responded, w) == Completions(s.workers[w].ran)
  }

  /** While responses are in the list, the main thread is on its way to it or will be woken. */
  ghost predicate Awake(s: State)
    requires Shape(s)
  {
    && (s.compList != [] ==>
          s.pipe > 0 || s.main.Reading? || s.main.Taking? || exists w :: 0 <= w < WORKERS && s.workers[w].phase.Appended?)
    && (!s.main.Calling? ==> s.taken == [])
  }

  ghost predicate Inv(s: State) {
    && Shape(s) && Counters(s) && Responses(s) && Awake(s)
    && AllInOrder(s.workers)
  }

  ghost predicate AllInOrder(workers: seq<Worker>) {
    forall w :: 0 <= w < |workers| ==> InOrder(workers[w], w)
  }

  // ---- queues and counters ----

  lemma CountPush(jobs: seq<Job>, job: Job, t: JobType)
    ensures CountKind(jobs + [job], t) == CountKind(jobs, t) + if job.kind == t then 1 else 0
  {
    assert (jobs + [job])[..|jobs|] == jobs;
  }

  lemma {:induction false} CountPop(jobs: seq<Job>, t: JobType)
    requires jobs != []
    ensures CountKind(jobs[1..], t) == CountKind(jobs, t) - if jobs[0].kind == t then 1 else 0
  {
    var n := |jobs| - 1;
    if n == 0 {
      assert jobs[..0] == [] && jobs[1..] == [];
    } else {
      CountPop(jobs[..n], t);
      assert jobs[..n][1..] == jobs[1..][..n - 1];
    }
  }

  lemma CompletionsPush(jobs: seq<Job>, job: Job)
    ensures Completions(jobs + [job]) == Completions(jobs) + if IsCompletion(job.kind) then [job] else []
  {
    assert (jobs + [job])[..|jobs|] == jobs;
  }

  lemma OfWorkerPush(jobs: seq<Job>, job: Job, w: nat)
    ensures OfWorker(jobs + [job], w) == OfWorker(jobs, w) + if WorkerOf(job.kind) == w then [job] else []
  {
    assert (jobs + [job])[..|jobs|] == jobs;
  }

  // ---- one worker ----

  lemma SubmitOrder(v: Worker, w: nat, job: Job)
    requires InOrder(v, w) && job !in v.submitted && WorkerOf(job.kind) == w
    ensures InOrder(v.(jobs := v.jobs + [job], submitted := v.submitted + [job]), w)
  {
    var n := |v.submitted| - |v.jobs|;
    assert (v.submitted + [job])[n..] == v.submitted[n..] + [job];
    assert forall m :: 0 <= m <= |v.submitted| ==> (v.submitted + [job])[..m] == v.submitted[..m];
  }

  lemma ProcessOrder(v: Worker, w: nat, phase: Phase)
    requires InOrder(v, w) && v.phase.Running? && v.jobs != [] && (phase.Appended? || phase.Processed?)
    ensures InOrder(v.(phase := phase, ran := v.ran + [v.jobs[0]]), w) && WorkerOf(v.jobs[0].kind) == w
  {
    var n := |v.submitted| - |v.jobs|;
    assert v.jobs[0] == v.submitted[n];
    assert v.submitted[..n + 1] == v.submitted[..n] + [v.submitted[n]];
  }

  lemma PhaseOrder(v: Worker, w: nat)
    requires InOrder(v, w)
    ensures v.phase.Idle? && v.jobs != [] ==> InOrder(v.(phase := Running), w)
    ensures v.phase.Appended? ==> InOrder(v.(phase := Processed), w)
  {
  }

  lemma FinishOrder(v: Worker, w: nat)
    requires InOrder(v, w) && v.phase.Processed? && v.jobs != []
    ensures InOrder(v.(phase := Idle, jobs := v.jobs[1..]), w) && WorkerOf(v.jobs[0].kind) == w
  {
    var n := |v.submitted| - |v.jobs|;
    assert v.jobs[0] == v.submitted[n];
    assert v.submitted[n..][1..] == v.submitted[n + 1..];
  }

  // ---- every event keeps the invariant ----

  /** A step that leaves the list, the main thread, and each worker's phase and history alone. */
  lemma SameResponses(s: State, r: State)
    requires Shape(s) && Shape(r) && Responses(s) && Awake(s)
    requires r.compList == s.compList && r.pipe == s.pipe && r.main == s.main && r.taken == s.taken
    requires r.responded == s.responded && r.delivered == s.delivered
    requires forall u :: 0 <= u < WORKERS ==> r.workers[u].phase == s.workers[u].phase && r.workers[u].ran == s.workers[u].ran
    ensures Responses(r) && Awake(r)
  {
    hide OfWorker;
    hide Completions;
    if u :| 0 <= u < WORKERS && s.workers[u].phase.Appended? { assert r.workers[u].phase.Appended?; }
  }

  lemma SameCounters(s: State, r: State)
    requires Shape(s) && Shape(r) && Counters(s) && r.counters == s.counters
    requires forall u :: 0 <= u < WORKERS ==> r.workers[u].jobs == s.workers[u].jobs
    ensures Counters(r)
  {
    hide CountKind;
    hide WorkerOf;
  }

  lemma SubmitCounts(s: State, job: Job)
    requires Shape(s) && Counters(s) && Enabled(s, Submit(job))
    ensures Counters(Next(s, Submit(job)))
  {
    hide CountKind;
    hide WorkerOf;
    var r, w := Next(s, Submit(job)), WorkerOf(job.kind);
    forall t: JobType ensures r.counters[t] == CountKind(r.workers[WorkerOf(t)].jobs, t) {
      CountPush(s.workers[w].jobs, job, t);
    }
  }

  lemma FinishCounts(s: State, w: nat)
    requires Shape(s) && Counters(s) && Enabled(s, Finish(w)) && WorkerOf(s.workers[w].jobs[0].kind) == w
    ensures Counters(Next(s, Finish(w)))
  {
    hide CountKind;
    hide WorkerOf;
    var r := Next(s, Finish(w));
    forall t: JobType ensures r.counters[t] == CountKind(r.workers[WorkerOf(t)].jobs, t) {
      CountPop(s.workers[w].jobs, t);
    }
  }

  lemma PutInOrder(workers: seq<Worker>, w: nat, v: Worker)
    requires AllInOrder(workers) && w < |workers| && InOrder(v, w)
    ensures AllInOrder(workers[w := v])
  {
    hide InOrder;
  }

  lemma AtWorker(workers: seq<Worker>, w: nat)
    requires AllInOrder(workers) && w < |workers|
    ensures InOrder(workers[w], w)
  {
  }

  /** A step of a worker that has nothing to announce and runs nothing. */
  lemma Quiet(s: State, r: State, w: nat)
    requires Shape(s) && Shape(r) && Responses(s) && Awake(s) && w < WORKERS && s.workers[w].phase != Appended
    requires r.compList == s.compList && r.pipe == s.pipe && r.main == s.main && r.taken == s.taken
    requires r.responded == s.responded && r.delivered == s.delivered && r.workers[w].ran == s.workers[w].ran
    requires forall u :: 0 <= u < WORKERS && u != w ==> r.workers[u] == s.workers[u]
    ensures Responses(r) && Awake(r)
  {
    hide OfWorker;
    hide Completions;
    StillAppended(s, r, w);
  }

  lemma SubmitKeeps(s: State, job: Job)
    requires Inv(s) && Enabled(s, Submit(job))
    ensures Inv(Next(s, Submit(job)))
  {
    hide AllInOrder;
    hide InOrder;
    hide Responses;
    hide Awake;
    hide Counters;
    var w := WorkerOf(job.kind);
    var v := s.workers[w];
    AtWorker(s.workers, w);
    SubmitOrder(v, w, job);
    PutInOrder(s.workers, w, v.(jobs := v.jobs + [job], submitted := v.submitted + [job]));
    SameResponses(s, Next(s, Submit(job)));
    SubmitCounts(s, job);
  }

  lemma PickKeeps(s: State, w: nat)
    requires Inv(s) && Enabled(s, Pick(w))
    ensures Inv(Next(s, Pick(w)))
  {
    hide AllInOrder;
    hide InOrder;
    hide Responses;
    hide Awake;
    hide Counters;
    var r := Next(s, Pick(w));
    AtWorker(s.workers, w);
    PhaseOrder(s.workers[w], w);
    PutInOrder(s.workers, w, s.workers[w].(phase := Running));
    Quiet(s, r, w);
    SameCounters(s, r);
  }

  /** Another worker that has to announce still has to. */
  lemma StillAppended(s: State, r: State, w: nat)
    requires Shape(s) && Shape(r) && w < WORKERS && s.workers[w].phase != Appended
    requires forall u :: 0 <= u < WORKERS && u != w ==> r.workers[u] == s.workers[u]
    ensures (exists u :: 0 <= u < WORKERS && s.workers[u].phase.Appended?) ==> exists u :: 0 <= u < WORKERS && r.workers[u].phase.Appended?
  {
    if u :| 0 <= u < WORKERS && s.workers[u].phase.Appended? {
      assert r.workers[u].phase.Appended?;
    }
  }

  lemma ProcessKeeps(s: State, w: nat)
    requires Inv(s) && Enabled(s, Process(w))
    ensures Inv(Next(s, Process(w)))
  {
    hide AllInOrder;
    hide InOrder;
    hide Responses;
    hide Awake;
    hide Counters;
    hide IsCompletion;
    var v := s.workers[w];
    var job := v.jobs[0];
    var phase := if IsCompletion(job.kind) then Appended else Processed;
    AtWorker(s.workers, w);
    ProcessOrder(v, w, phase);
    PutInOrder(s.workers, w, v.(phase := phase, ran := v.ran + [job]));
    if IsCompletion(job.kind) { RespondKeeps(s, w); } else { RunKeeps(s, w); }
    SameCounters(s, Next(s, Process(w)));
  }

  lemma RespondKeeps(s: State, w: nat)
    requires Shape(s) && Responses(s) && Awake(s) && Enabled(s, Process(w)) && IsCompletion(s.workers[w].jobs[0].kind)
    requires WorkerOf(s.workers[w].jobs[0].kind) == w
    ensures Responses(Next(s, Process(w))) && Awake(Next(s, Process(w)))
  {
    hide OfWorker;
    hide Completions;
    var v, job := s.workers[w], s.workers[w].jobs[0];
    var r := Next(s, Process(w));
    CompletionsPush(v.ran, job);
    forall u | 0 <= u < WORKERS ensures OfWorker(r.responded, u) == Completions(r.workers[u].ran) {
      OfWorkerPush(s.responded, job, u);
    }
    assert r.workers[w].phase.Appended?;
    assert r.responded == r.delivered + r.taken + r.compList;
  }

  lemma RunKeeps(s: State, w: nat)
    requires Shape(s) && Responses(s) && Awake(s) && Enabled(s, Process(w)) && !IsCompletion(s.workers[w].jobs[0].kind)
    ensures Responses(Next(s, Process(w))) && Awake(Next(s, Process(w)))
  {
    hide OfWorker;
    hide Completions;
    CompletionsPush(s.workers[w].ran, s.workers[w].jobs[0]);
    StillAppended(s, Next(s, Process(w)), w);
  }

  lemma AnnounceKeeps(s: State, w: nat, written: bool)
    requires Inv(s) && Enabled(s, Announce(w, written))
    ensures Inv(Next(s, Announce(w, written)))
  {
    hide AllInOrder;
    hide InOrder;
    hide OfWorker;
    hide Completions;
    hide Counters;
    AtWorker(s.workers, w);
    PhaseOrder(s.workers[w], w);
    PutInOrder(s.workers, w, s.workers[w].(phase := Processed));
    SameCounters(s, Next(s, Announce(w, written)));
  }

  lemma FinishKeeps(s: State, w: nat)
    requires Inv(s) && Enabled(s, Finish(w))
    ensures Inv(Next(s, Finish(w)))
  {
    hide AllInOrder;
    hide InOrder;
    hide Responses;
    hide Awake;
    hide Counters;
    var v := s.workers[w];
    AtWorker(s.workers, w);
    FinishOrder(v, w);
    PutInOrder(s.workers, w, v.(phase := Idle, jobs := v.jobs[1..]));
    Quiet(s, Next(s, Finish(w)), w);
    FinishCounts(s, w);
  }

  lemma MainKeeps(s: State, e: Event)
    requires Inv(s) && Enabled(s, e) && (e.Wake? || e.Read? || e.Take? || e.Call? || e.Return?)
    ensures Inv(Next(s, e))
  {
    hide AllInOrder;
    hide OfWorker;
    hide Completions;
    hide Counters;
    var r := Next(s, e);
    SameCounters(s, r);
    assert r.delivered + r.taken + r.compList == s.delivered + s.taken + s.compList;
  }

  lemma NextKeeps(s: State, e: Event)
    requires Inv(s) && Enabled(s, e)
    ensures Inv(Next(s, e))
  {
    hide Inv;
    hide Enabled;
    hide Next;
    match e
    case Submit(job) => SubmitKeeps(s, job);
    case Pick(w) => PickKeeps(s, w);
    case Process(w) => ProcessKeeps(s, w);
    case Announce(w, written) => AnnounceKeeps(s, w, written);
    case Finish(w) => FinishKeeps(s, w);
    case _ => MainKeeps(s, e);
  }

  // ---- runs ----

  ghost function Start(): (s: State) {
    var idle := Worker([], Idle, [], []);
    var zero := map[CloseFile := 0, AofFsync := 0, CloseAof := 0, LazyFree := 0, CompCloseFile := 0, CompAofFsync := 0, CompLazyFree := 0];
    State([idle, idle, idle], zero, [], 0, Looping, [], [], [])
  }

  lemma AllKinds(t: JobType)
    ensures t in {CloseFile, AofFsync, CloseAof, LazyFree, CompCloseFile, CompAofFsync, CompLazyFree}
  {
  }

  lemma StartInv()
    ensures Inv(Start())
  {
    var s := Start();
    forall t: JobType ensures t in s.counters && s.counters[t] == 0 { AllKinds(t); }
    assert forall u :: 0 <= u < WORKERS ==> s.workers[u] == Worker([], Idle, [], []);
    hide WorkerOf;
    hide Start;
  }

  ghost predicate Possible(s: State, events: seq<Event>)
    decreases |events|
  {
    Shape(s) && (events == [] || (Enabled(s, events[0]) && Possible(Next(s, events[0]), events[1..])))
  }

  ghost function Exec(s: State, events: seq<Event>): (r: State)
    requires Possible(s, events)
    decreases |events|
  {
    if events == [] then s else Exec(Next(s, events[0]), events[1..])
  }

  lemma {:induction false} ExecKeeps(s: State, events: seq<Event>)
    requires Inv(s) && Possible(s, events)
    ensures Inv(Exec(s, events))
    decreases |events|
  {
    if events != [] {
      NextKeeps(s, events[0]);
      ExecKeeps(Next(s, events[0]), events[1..]);
    }
  }

  /** In every interleaving: jobs run in order of submission on each worker, counters count the
      jobs queued or running, responses are never lost, reordered or repeated, and a waiting
      response never goes unnoticed. */
  lemma Protocol(events: seq<Event>)
    requires Possible(Start(), events)
    ensures Inv(Exec(Start(), events))
  {
    StartInv();
    ExecKeeps(Start(), events);
  }

  /** A response that has been delivered came after everything submitted to its worker before it
      had run. */
  lemma {:induction false} DeliveredAfterEarlier(s: State, w: nat, i: nat, j: nat)
    requires Inv(s) && w < WORKERS && i <= j < |s.workers[w].submitted| && s.workers[w].submitted[j] in s.delivered
    ensures i < |s.workers[w].ran| && s.workers[w].ran[i] == s.workers[w].submitted[i]
  {
    hide Counters;
    hide Awake;
    var v, job := s.workers[w], s.workers[w].submitted[j];
    assert job in s.responded && WorkerOf(job.kind) == w;
    InOfWorker(s.responded, job, w);
    InCompletions(v.ran, job);
    assert forall k :: 0 <= k < |v.ran| ==> v.ran[k] == v.submitted[k];
  }

  lemma {:induction false} InOfWorker(jobs: seq<Job>, job: Job, w: nat)
    requires job in jobs && WorkerOf(job.kind) == w
    ensures job in OfWorker(jobs, w)
  {
    var n := |jobs| - 1;
    if jobs[n] != job {
      assert jobs == jobs[..n] + [jobs[n]];
      InOfWorker(jobs[..n], job, w);
    }
  }

  lemma {:induction false} InCompletions(jobs: seq<Job>, job: Job)
    ensures job in Completions(jobs) ==> job in jobs
  {
    if jobs != [] {
      var n := |jobs| - 1;
      assert jobs == jobs[..n] + [jobs[n]];
      InCompletions(jobs[..n], job);
    }
  }

  /** A drain returns only when the queue of the worker is empty; then everything ever submitted
      to the worker has run, in order, and its counters are 0. */
  lemma DrainMeansRan(s: State, w: nat)
    requires Inv(s) && w < WORKERS && s.workers[w].jobs == []
    ensures s.workers[w].ran == s.workers[w].submitted
    ensures forall t: JobType :: WorkerOf(t) == w ==> s.counters[t] == 0
  {
    hide Responses;
    hide Awake;
    var v := s.workers[w];
    assert v.submitted[..|v.submitted|] == v.submitted;
  }

  /** Each response is delivered at most once. */
  lemma DeliveredOnce(s: State, a: nat, b: nat)
    requires Inv(s) && a < b < |s.delivered|
    ensures s.delivered[a] != s.delivered[b]
  {
    hide Counters;
    hide Awake;
    var x, y := s.responded[a], s.responded[b];
    var w := WorkerOf(x.kind);
    if WorkerOf(y.kind) == w {
      TwoOfWorker(s.responded, a, b, w);
      CompletionsDistinct(s.workers[w].ran);
    }
  }

  lemma {:induction false} TwoOfWorker(jobs: seq<Job>, a: nat, b: nat, w: nat)
    requires a < b < |jobs| && WorkerOf(jobs[a].kind) == w == WorkerOf(jobs[b].kind)
    ensures Distinct(OfWorker(jobs, w)) ==> jobs[a] != jobs[b]
  {
    var n := |jobs| - 1;
    var r := OfWorker(jobs[..n], w);
    if b < n {
      if Distinct(OfWorker(jobs, w)) {
        assert OfWorker(jobs, w)[..|r|] == r;
        assert Distinct(r);
      }
      TwoOfWorker(jobs[..n], a, b, w);
    } else {
      assert jobs[a] in jobs[..n];
      InOfWorker(jobs[..n], jobs[a], w);
      var i :| 0 <= i < |r| && r[i] == jobs[a];
      assert OfWorker(jobs, w)[i] == r[i] && OfWorker(jobs, w)[|r|] == jobs[b];
    }
  }

  lemma {:induction false} CompletionsDistinct(jobs: seq<Job>)
    requires Distinct(jobs)
    ensures Distinct(Completions(jobs))
  {
    if jobs != [] {
      var n := |jobs| - 1;
      CompletionsDistinct(jobs[..n]);
      InCompletions(jobs[..n], jobs[n]);
      assert jobs[n] !in jobs[..n];
    }
  }
}
