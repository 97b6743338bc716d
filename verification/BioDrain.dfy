/** The condition variable of one background worker. The worker waits on it for jobs, and
    threads that drain the queue wait on the same one; each signal wakes one waiter, of the
    system's choice. One event is one critical section. */
module BioDrain {

  /** At the top of its loop, asleep, or busy with the first job. */
  datatype Worker = Ready | Sleeping | Busy

  /** A thread that drains: not draining, about to test the queue, or asleep. */
  datatype Drainer = Away | Testing | Waiting

  datatype State = State(jobs: nat, worker: Worker, drainers: seq<Drainer>)

  /** Who is woken by a signal. */
  datatype Woken = Nobody | TheWorker | TheDrainer(i: nat)

  datatype Event =
    | Submit(woken: Woken)
    | Work
    | Finish(woken: Woken)
    | Begin(i: nat)
    | Test(i: nat)
    | Spurious(woken: Woken)

  predicate Sleeps(s: State, w: Woken) {
    match w
    case Nobody => false
    case TheWorker => s.worker.Sleeping?
    case TheDrainer(i) => i < |s.drainers| && s.drainers[i].Waiting?
  }

  /** A signal wakes some waiter if there is one. */
  predicate CanWake(s: State, w: Woken) {
    if w.Nobody? then !s.worker.Sleeping? && forall i :: 0 <= i < |s.drainers| ==> !s.drainers[i].Waiting?
    else Sleeps(s, w)
  }

  function Wake(s: State, w: Woken): (r: State) {
    match w
    case Nobody => s
    case TheWorker => s.(worker := Ready)
    case TheDrainer(i) => if i < |s.drainers| then s.(drainers := s.drainers[i := Testing]) else s
  }

  predicate Enabled(s: State, e: Event) {
    match e
    case Submit(w) => CanWake(s, w)
    case Work => s.worker.Ready?
    case Finish(w) => s.worker.Busy? && s.jobs > 0 && CanWake(s, w)
    case Begin(i) => i < |s.drainers| && s.drainers[i].Away?
    case Test(i) => i < |s.drainers| && s.drainers[i].Testing?
    case Spurious(w) => Sleeps(s, w)
  }

  function Next(s: State, e: Event): (r: State)
    requires Enabled(s, e)
    ensures |r.drainers| == |s.drainers|
  {
    match e
    case Submit(w) => Wake(s.(jobs := s.jobs + 1), w)
    case Work => s.(worker := if s.jobs == 0 then Sleeping else Busy)
    case Finish(w) => Wake(s.(jobs := s.jobs - 1, worker := Ready), w)
    case Begin(i) => s.(drainers := s.drainers[i := Testing])
    case Test(i) => s.(drainers := s.drainers[i := if s.jobs == 0 then Away else Waiting])
    case Spurious(w) => Wake(s, w)
  }

  predicate Possible(s: State, events: seq<Event>)
    decreases |events|
  {
    events == [] || (Enabled(s, events[0]) && Possible(Next(s, events[0]), events[1..]))
  }

  function Exec(s: State, events: seq<Event>): (r: State)
    requires Possible(s, events)
    decreases |events|
  {
    if events == [] then s else Exec(Next(s, events[0]), events[1..])
  }

  function Start(n: nat): (s: State) { State(0, Ready, seq(n, i => Away)) }

  /** No wake-up is lost: a queued job has a worker that is not asleep, and whoever waits for
      the queue to empty has a reason to. */
  predicate NoLostWakeup(s: State) {
    && (s.jobs > 0 ==> !s.worker.Sleeping?)
    && (forall i :: 0 <= i < |s.drainers| && s.drainers[i].Waiting? ==> s.jobs > 0)
  }

  predicate Inv(s: State) {
    NoLostWakeup(s) && (s.worker.Busy? ==> s.jobs > 0)
  }

  lemma NextKeeps(s: State, e: Event)
    requires Inv(s) && |s.drainers| <= 1 && Enabled(s, e)
    ensures Inv(Next(s, e))
  {
    if e.Finish? && |s.drainers| == 1 {
      assert s.drainers[0].Waiting? ==> e.woken == TheDrainer(0);
    }
  }

  lemma {:induction false} ExecKeeps(s: State, events: seq<Event>)
    requires Inv(s) && |s.drainers| <= 1 && Possible(s, events)
    ensures Inv(Exec(s, events))
    decreases |events|
  {
    hide Inv;
    hide Enabled;
    if events != [] {
      NextKeeps(s, events[0]);
      ExecKeeps(Next(s, events[0]), events[1..]);
    }
  }

  /** Worker steps still needed if nothing more is submitted. */
  function Remaining(s: State): (n: nat) { 2 * s.jobs + if s.worker.Ready? then 1 else 0 }

  /** While a thread waits for the queue to empty the worker can go on, and everything it does
      brings the end nearer. */
  lemma WaitingIsFed(s: State, i: nat)
    requires Inv(s) && i < |s.drainers| && s.drainers[i].Waiting?
    ensures Enabled(s, Work) || exists w :: Enabled(s, Finish(w))
    ensures Enabled(s, Work) ==> Remaining(Next(s, Work)) < Remaining(s)
    ensures forall w :: Enabled(s, Finish(w)) ==> Remaining(Next(s, Finish(w))) < Remaining(s)
  {
    if s.worker.Busy? { assert Enabled(s, Finish(TheDrainer(i))); }
  }

  /** Nothing can happen but new submissions, new drains and spurious wake-ups. */
  predicate Stuck(s: State) {
    && s.jobs > 0 && s.worker.Sleeping?
    && (forall i :: 0 <= i < |s.drainers| ==> !s.drainers[i].Testing?)
    && exists i :: 0 <= i < |s.drainers| && s.drainers[i].Waiting?
  }

  /** With a second drainer the last signal wakes one of the two, and the next submission can
      wake the other instead of the worker. */
  function LosingRun(): (events: seq<Event>) {
    [Work, Submit(TheWorker), Begin(0), Test(0), Begin(1), Test(1), Work, Finish(TheDrainer(0)), Work,
     Submit(TheDrainer(1)), Test(1), Test(0)]
  }

  lemma {:induction false} ExecAppend(s: State, a: seq<Event>, b: seq<Event>)
    requires Possible(s, a) && Possible(Exec(s, a), b)
    ensures Possible(s, a + b) && Exec(s, a + b) == Exec(Exec(s, a), b)
    decreases |a|
  {
    hide Enabled;
    hide Next;
    if a == [] {
      assert a + b == b;
    } else {
      assert (a + b)[1..] == a[1..] + b;
      ExecAppend(Next(s, a[0]), a[1..], b);
    }
  }

  lemma OneMore(s: State, events: seq<Event>, e: Event)
    requires Possible(s, events) && Enabled(Exec(s, events), e)
    ensures Possible(s, events + [e]) && Exec(s, events + [e]) == Next(Exec(s, events), e)
  {
    hide Enabled;
    hide Next;
    assert [e][1..] == [];
    ExecAppend(s, events, [e]);
  }

  /** The states along that run. */
  lemma LosingSteps(n: nat, d: seq<Drainer>)
    requires n >= 2 && d == Start(n).drainers
    ensures var s := Start(n);
            && Possible(s, LosingRun()[..6])
            && Exec(s, LosingRun()[..6]) == State(1, Ready, d[0 := Waiting][1 := Waiting])
  {
    hide Possible;
    hide Exec;
    var s, run := Start(n), LosingRun();
    assert run[..0] == [];
    NothingYet(s);
    Along(s, run, 0, s);
    Along(s, run, 1, State(0, Sleeping, d));
    Along(s, run, 2, State(1, Ready, d));
    Along(s, run, 3, State(1, Ready, d[0 := Testing]));
    Along(s, run, 4, State(1, Ready, d[0 := Waiting]));
    Along(s, run, 5, State(1, Ready, d[0 := Waiting][1 := Testing]));
  }

  lemma NothingYet(s: State)
    ensures Possible(s, []) && Exec(s, []) == s
  {
  }

  lemma Along(s: State, run: seq<Event>, k: nat, at: State)
    requires k < |run| && Possible(s, run[..k]) && Exec(s, run[..k]) == at && Enabled(at, run[k])
    ensures Possible(s, run[..k + 1]) && Exec(s, run[..k + 1]) == Next(at, run[k])
  {
    assert run[..k + 1] == run[..k] + [run[k]];
    OneMore(s, run[..k], run[k]);
  }

  lemma TwoDrainersLose(n: nat)
    requires n >= 2
    ensures Possible(Start(n), LosingRun()) && Stuck(Exec(Start(n), LosingRun()))
  {
    hide Possible;
    hide Exec;
    var s, run := Start(n), LosingRun();
    var d := s.drainers;
    LosingSteps(n, d);
    var both := d[0 := Waiting][1 := Waiting];
    Along(s, run, 6, State(1, Ready, both));
    Along(s, run, 7, State(1, Busy, both));
    Along(s, run, 8, State(0, Ready, both[0 := Testing]));
    Along(s, run, 9, State(0, Sleeping, both[0 := Testing]));
    Along(s, run, 10, State(1, Sleeping, both[0 := Testing][1 := Testing]));
    Along(s, run, 11, State(1, Sleeping, both[0 := Testing][1 := Waiting]));
    assert run[..12] == run;
    assert Exec(s, run).drainers[1].Waiting?;
  }

  /** Over every run with n threads that may drain, no wake-up is lost, if and only if n is at
      most one. */
  lemma DrainExact(n: nat)
    ensures (forall events :: Possible(Start(n), events) ==> NoLostWakeup(Exec(Start(n), events))) <==> n <= 1
  {
    hide Possible;
    hide Exec;
    if n <= 1 {
      forall events | Possible(Start(n), events) ensures NoLostWakeup(Exec(Start(n), events)) {
        ExecKeeps(Start(n), events);
      }
    } else {
      TwoDrainersLose(n);
      assert !NoLostWakeup(Exec(Start(n), LosingRun()));
    }
  }
}
