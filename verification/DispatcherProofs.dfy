/** Invariants, progress, termination and exit status of the dispatcher, over every interleaving. */
module DispatcherProofs {
  import opened Options
  import opened Dispatcher

  // ---- how far the main thread has come ----

  /** Threads started, jobs dispatched, sentinels sent, results collected and threads joined. */
  datatype Progress = Progress(started: nat, dispatched: nat, sent: nat, collected: nat, joined: nat)

  function ProgressOf(c: Config, m: Main): Progress {
    match m
    case Starting(i) => Progress(i, 0, 0, 0, 0)
    case Dispatching(i) => Progress(c.workers, i, 0, 0, 0)
    case Stopping(i) => Progress(c.workers, |c.plan|, i, 0, 0)
    case Collecting(i) => Progress(c.workers, |c.plan|, c.workers, i, 0)
    case Joining(i) => Progress(c.workers, |c.plan|, c.workers, |c.plan|, i)
    case Exited(_) => Progress(c.workers, |c.plan|, c.workers, |c.plan|, c.workers)
  }

  ghost predicate InRange(c: Config, m: Main) {
    match m
    case Starting(i) => i < c.workers
    case Dispatching(i) => i < |c.plan|
    case Stopping(i) => i < c.workers
    case Collecting(i) => i < |c.plan|
    case Joining(i) => i < c.workers
    case Exited(_) => true
  }

  ghost predicate StatusOk(m: Main, t: Tally) {
    m.Exited? ==> m.status == if t.passed + t.skipped == t.total then 0 else 1
  }

  /** Where a finished loop hands over, empty loops included. */
  lemma Handover(c: Config, s: State, i: nat)
    ensures i <= c.workers ==>
              var m := AfterStarting(c, s, i);
              InRange(c, m) && StatusOk(m, s.tally) && ProgressOf(c, m) == Progress(i, 0, 0, 0, 0)
    ensures i <= |c.plan| ==>
              var m := AfterDispatching(c, s, i);
              InRange(c, m) && StatusOk(m, s.tally) && ProgressOf(c, m) == Progress(c.workers, i, 0, 0, 0)
    ensures i <= c.workers ==>
              var m := AfterStopping(c, s, i);
              InRange(c, m) && StatusOk(m, s.tally) && ProgressOf(c, m) == Progress(c.workers, |c.plan|, i, 0, 0)
    ensures i <= |c.plan| ==>
              var m := AfterCollecting(c, s, i);
              InRange(c, m) && StatusOk(m, s.tally)
              && ProgressOf(c, m) == Progress(c.workers, |c.plan|, c.workers, i, 0)
    ensures i <= c.workers ==>
              var m := AfterJoining(c, s, i);
              InRange(c, m) && StatusOk(m, s.tally)
              && ProgressOf(c, m) == Progress(c.workers, |c.plan|, c.workers, |c.plan|, i)
  {
  }

  /** One step of the main thread moves exactly one of the five counts, by one. */
  lemma MainAdvances(c: Config, s: State)
    requires InRange(c, s.main) && Enabled(c, s, MainStep)
    ensures var s' := MainApply(c, s);
            var p, p' := ProgressOf(c, s.main), ProgressOf(c, s'.main);
            && InRange(c, s'.main) && StatusOk(s'.main, s'.tally)
            && match s.main
               case Starting(_) => p' == p.(started := p.started + 1)
               case Dispatching(_) => p' == p.(dispatched := p.dispatched + 1)
               case Stopping(_) => p' == p.(sent := p.sent + 1)
               case Collecting(_) => p' == p.(collected := p.collected + 1)
               case Joining(_) => p' == p.(joined := p.joined + 1)
  {
    hide AfterStarting, AfterDispatching, AfterStopping, AfterCollecting, AfterJoining;
    match s.main
    case Starting(i) => Handover(c, s, i + 1);
    case Dispatching(i) =>
      Handover(c, s.(input := s.input + [NewJob(c, i)], tally := s.tally.(total := s.tally.total + 1)), i + 1);
    case Stopping(i) => Handover(c, s, i + 1);
    case Collecting(i) =>
      var job := s.output[0];
      Handover(c, s.(output := s.output[1..], tally := Count(s.tally, job), collected := s.collected + [job]), i + 1);
    case Joining(i) => Handover(c, s, i + 1);
  }

  // ---- counting over jobs and workers ----

  /** How often a job with this id occurs. */
  ghost function Occurs(jobs: seq<Job>, id: int): nat {
    if jobs == [] then 0
    else Occurs(jobs[..|jobs| - 1], id) + if jobs[|jobs| - 1].id == id then 1 else 0
  }

  predicate Holds(w: Worker) {
    w.Checking? || w.Running? || w.Putting?
  }

  /** The sum of a weight over all workers. */
  ghost function Total(ws: seq<Worker>, weight: Worker -> nat): nat {
    if ws == [] then 0 else Total(ws[..|ws| - 1], weight) + weight(ws[|ws| - 1])
  }

  ghost function HoldsJob(id: int): Worker -> nat {
    (w: Worker) => if Holds(w) && w.job.id == id then 1 else 0
  }

  ghost function HeldOccurs(ws: seq<Worker>, id: int): nat {
    Total(ws, HoldsJob(id))
  }

  ghost function HoldsAny(): Worker -> nat {
    (w: Worker) => if Holds(w) then 1 else 0
  }

  ghost function HeldCount(ws: seq<Worker>): nat {
    Total(ws, HoldsAny())
  }

  ghost function HasStopped(): Worker -> nat {
    (w: Worker) => if w.Stopped? then 1 else 0
  }

  ghost function StoppedCount(ws: seq<Worker>): nat {
    Total(ws, HasStopped())
  }

  ghost function WorkerWeight(): Worker -> nat {
    (w: Worker) =>
      match w
      case Checking(_) => 4
      case Running(_) => 3
      case Putting(_) => 2
      case _ => 0
  }

  ghost function HeldWeight(ws: seq<Worker>): nat {
    Total(ws, WorkerWeight())
  }

  /** When one worker changes, a sum changes by that worker's weight. */
  lemma {:induction false} UpdateTotal(ws: seq<Worker>, i: nat, w: Worker, weight: Worker -> nat)
    requires i < |ws|
    ensures Total(ws[i := w], weight) + weight(ws[i]) == Total(ws, weight) + weight(w)
    decreases |ws|
  {
    var n := |ws| - 1;
    if i == n {
      assert ws[i := w][..n] == ws[..n];
    } else {
      assert ws[i := w][..n] == ws[..n][i := w];
      UpdateTotal(ws[..n], i, w, weight);
    }
  }

  lemma AppendOccurs(jobs: seq<Job>, job: Job, id: int)
    ensures Occurs(jobs + [job], id) == Occurs(jobs, id) + if job.id == id then 1 else 0
  {
    assert (jobs + [job])[..|jobs|] == jobs;
  }

  lemma {:induction false} HeadOccurs(jobs: seq<Job>, id: int)
    requires jobs != []
    ensures Occurs(jobs, id) == (if jobs[0].id == id then 1 else 0) + Occurs(jobs[1..], id)
    decreases |jobs|
  {
    if |jobs| <= 1 {
    } else {
      var n := |jobs| - 1;
      HeadOccurs(jobs[..n], id);
      assert jobs[1..][..n - 1] == jobs[..n][1..];
    }
  }

  lemma {:induction false} StoppedBound(ws: seq<Worker>)
    ensures StoppedCount(ws) <= |ws|
    ensures StoppedCount(ws) == |ws| <==> forall i :: 0 <= i < |ws| ==> ws[i].Stopped?
    ensures StoppedCount(ws) == 0 <==> forall i :: 0 <= i < |ws| ==> !ws[i].Stopped?
    decreases |ws|
  {
    if ws == [] {
    } else {
      StoppedBound(ws[..|ws| - 1]);
    }
  }

  lemma {:induction false} SomebodyHolds(ws: seq<Worker>)
    requires HeldCount(ws) > 0
    ensures exists i :: 0 <= i < |ws| && Holds(ws[i])
    decreases |ws|
  {
    if Holds(ws[|ws| - 1]) {
    } else {
      SomebodyHolds(ws[..|ws| - 1]);
      var i :| 0 <= i < |ws| - 1 && Holds(ws[..|ws| - 1][i]);
      assert Holds(ws[i]);
    }
  }

  // ---- the invariant ----

  /** How many of the queued items are real jobs. */
  ghost function RealJobs(c: Config, s: State): int {
    |s.input| - (ProgressOf(c, s.main).sent - StoppedCount(s.workers))
  }

  ghost predicate IsPlanned(c: Config, job: Job) {
    0 <= job.id < |c.plan| && job.isSkip == c.plan[job.id]
  }

  /** A job on its way back: abandoned after an interrupt, skipped, or run to an exit code. */
  ghost predicate Settled(c: Config, threadExit: bool, job: Job) {
    && IsPlanned(c, job)
    && if job.isBreak then threadExit && job.returncode == None
       else (job.isSkip <==> job.returncode == None)
  }

  ghost predicate WorkerOk(c: Config, threadExit: bool, w: Worker) {
    match w
    case Checking(job) => IsPlanned(c, job) && !job.isBreak && job.returncode == None
    case Running(job) => IsPlanned(c, job) && !job.isBreak && job.returncode == None && !job.isSkip
    case Putting(job) => Settled(c, threadExit, job)
    case _ => true
  }

  /** Real jobs in dispatch order, then sentinels only. */
  ghost predicate InputOk(c: Config, input: seq<Job>, live: int, dispatched: nat) {
    && 0 <= live <= |input| && live <= dispatched <= |c.plan|
    && (forall i :: 0 <= i < live ==> input[i] == NewJob(c, dispatched - live + i))
    && (forall i :: live <= i < |input| ==> input[i] == SENTINEL)
  }

  /** Worker and sentinel counts, and the shape of the input queue. */
  ghost predicate Control(c: Config, s: State) {
    && InRange(c, s.main)
    && |s.workers| == ProgressOf(c, s.main).started
    && StoppedCount(s.workers) <= ProgressOf(c, s.main).sent
    && InputOk(c, s.input, RealJobs(c, s), ProgressOf(c, s.main).dispatched)
    && (StoppedCount(s.workers) > 0 ==> RealJobs(c, s) == 0)
    && (forall i :: 0 <= i < ProgressOf(c, s.main).joined ==> i < |s.workers| && s.workers[i].Stopped?)
  }

  /** Every job outside the input queue is in a state that fits the plan and the flag. */
  ghost predicate Fitting(c: Config, s: State) {
    && (forall i :: 0 <= i < |s.workers| ==> WorkerOk(c, s.threadExit, s.workers[i]))
    && (forall i :: 0 <= i < |s.output| ==> Settled(c, s.threadExit, s.output[i]))
    && (forall i :: 0 <= i < |s.collected| ==> Settled(c, s.threadExit, s.collected[i]))
  }

  /** How many jobs have been taken off the input queue; they are the first ones in dispatch order. */
  ghost function Taken(c: Config, s: State): int {
    ProgressOf(c, s.main).dispatched - RealJobs(c, s)
  }

  /** The jobs taken are each in one place: with a worker, on the output queue, or collected. */
  ghost predicate Conserved(c: Config, s: State) {
    && HeldCount(s.workers) + |s.output| + |s.collected| == Taken(c, s)
    && forall id :: Places(s, id) == if 0 <= id < Taken(c, s) then 1 else 0
  }

  ghost function Places(s: State, id: int): nat {
    HeldOccurs(s.workers, id) + Occurs(s.output, id) + Occurs(s.collected, id)
  }

  /** The counters say what has been collected. */
  ghost predicate Counted(c: Config, s: State) {
    && |s.collected| == ProgressOf(c, s.main).collected
    && s.tally == TallyOf(ProgressOf(c, s.main).dispatched, s.collected)
    && StatusOk(s.main, s.tally)
  }

  ghost predicate Inv(c: Config, s: State) {
    Control(c, s) && Fitting(c, s) && Conserved(c, s) && Counted(c, s)
  }

  ghost function TallyOf(total: nat, collected: seq<Job>): Tally {
    if collected == [] then Tally(total, 0, 0, 0, 0, 0)
    else Count(TallyOf(total, collected[..|collected| - 1]), collected[|collected| - 1])
  }

  lemma {:induction false} TallyTotal(total: nat, total': nat, collected: seq<Job>)
    ensures TallyOf(total', collected) == TallyOf(total, collected).(total := total')
    decreases |collected|
  {
    if collected == [] {
    } else {
      TallyTotal(total, total', collected[..|collected| - 1]);
    }
  }

  lemma AppendTally(total: nat, collected: seq<Job>, job: Job)
    ensures TallyOf(total, collected + [job]) == Count(TallyOf(total, collected), job)
  {
    assert (collected + [job])[..|collected|] == collected;
  }

  // ---- every step keeps the invariant ----

  lemma InitialProgress(c: Config)
    ensures var s := Initial(c);
            && InRange(c, s.main) && StatusOk(s.main, s.tally) && ProgressOf(c, s.main) == Progress(0, 0, 0, 0, 0)
            && s == State(false, [], [], [], s.main, Tally(0, 0, 0, 0, 0, 0), [])
  {
    hide AfterStarting, InRange, ProgressOf, StatusOk;
    Handover(c, State(false, [], [], [], Starting(0), Tally(0, 0, 0, 0, 0, 0), []), 0);
  }

  lemma InitialInv(c: Config)
    ensures Inv(c, Initial(c))
  {
    hide Initial, InRange, ProgressOf, StatusOk;
    InitialProgress(c);
  }

  lemma HeadOfInput(c: Config, s: State)
    requires Control(c, s) && s.input != []
    ensures s.input[0]
            == if RealJobs(c, s) > 0 then NewJob(c, ProgressOf(c, s.main).dispatched - RealJobs(c, s)) else SENTINEL
  {
  }

  lemma StartKeepsControl(c: Config, s: State)
    requires Control(c, s) && Enabled(c, s, MainStep) && s.main.Starting?
    ensures Control(c, MainApply(c, s))
  {
    hide AfterStarting, AfterDispatching, AfterStopping, AfterCollecting, AfterJoining, StatusOk, Count;
    hide InRange, InputOk;
    MainAdvances(c, s);
    assert MainApply(c, s).workers[..|s.workers|] == s.workers;
  }

  lemma PutKeepsInput(c: Config, input: seq<Job>, live: int, dispatched: nat)
    requires InputOk(c, input, live, dispatched)
    ensures InputOk(c, input + [SENTINEL], live, dispatched)
    ensures live == |input| && dispatched < |c.plan| ==>
              InputOk(c, input + [NewJob(c, dispatched)], live + 1, dispatched + 1)
  {
  }

  lemma DispatchKeepsControl(c: Config, s: State)
    requires Control(c, s) && Enabled(c, s, MainStep) && (s.main.Dispatching? || s.main.Stopping?)
    ensures Control(c, MainApply(c, s))
  {
    hide AfterStarting, AfterDispatching, AfterStopping, AfterCollecting, AfterJoining, StatusOk, Count;
    hide InputOk;
    MainAdvances(c, s);
    PutKeepsInput(c, s.input, RealJobs(c, s), ProgressOf(c, s.main).dispatched);
  }

  lemma CollectKeepsControl(c: Config, s: State)
    requires Control(c, s) && Enabled(c, s, MainStep) && (s.main.Collecting? || s.main.Joining?)
    ensures Control(c, MainApply(c, s))
  {
    hide AfterStarting, AfterDispatching, AfterStopping, AfterCollecting, AfterJoining, StatusOk, Count;
    hide InputOk;
    MainAdvances(c, s);
  }

  lemma WorkerKeepsControl(c: Config, s: State, step: Step)
    requires Control(c, s) && Enabled(c, s, step) && (step.Check? || step.Finish? || step.Put?)
    ensures Control(c, Apply(c, s, step))
  {
    hide InputOk, InRange, ProgressOf;
    UpdateTotal(s.workers, step.w, Apply(c, s, step).workers[step.w], HasStopped());
  }

  lemma GetKeepsControl(c: Config, s: State, w: nat)
    requires Control(c, s) && Enabled(c, s, Get(w))
    ensures Control(c, Apply(c, s, Get(w)))
  {
    hide InRange, ProgressOf;
    var s' := Apply(c, s, Get(w));
    UpdateTotal(s.workers, w, s'.workers[w], HasStopped());
    HeadOfInput(c, s);
    assert forall i :: 0 <= i < |s'.input| ==> s'.input[i] == s.input[i + 1];
  }

  lemma StepKeepsControl(c: Config, s: State, step: Step)
    requires Control(c, s) && Enabled(c, s, step)
    ensures Control(c, Apply(c, s, step))
  {
    match step
    case MainStep =>
      match s.main {
       case Starting(_) => StartKeepsControl(c, s);
       case Collecting(_) => CollectKeepsControl(c, s);
       case Joining(_) => CollectKeepsControl(c, s);
       case _ => DispatchKeepsControl(c, s);
      }
    case Get(w) => GetKeepsControl(c, s, w);
    case Interrupt =>
    case _ => WorkerKeepsControl(c, s, step);
  }

  lemma StepKeepsFitting(c: Config, s: State, step: Step)
    requires Control(c, s) && Fitting(c, s) && Enabled(c, s, step)
    ensures Fitting(c, Apply(c, s, step))
  {
    hide AfterStarting, AfterDispatching, AfterStopping, AfterCollecting, AfterJoining;
    if step.Get? {
      HeadOfInput(c, s);
    }
  }

  lemma MainKeepsTaken(c: Config, s: State)
    requires InRange(c, s.main) && Enabled(c, s, MainStep)
    ensures Taken(c, MainApply(c, s)) == Taken(c, s)
    ensures HeldCount(MainApply(c, s).workers) == HeldCount(s.workers)
    ensures |MainApply(c, s).output| + |MainApply(c, s).collected| == |s.output| + |s.collected|
  {
    hide AfterStarting, AfterDispatching, AfterStopping, AfterCollecting, AfterJoining, StatusOk, Count;
    hide ProgressOf, InRange;
    MainAdvances(c, s);
    if s.main.Starting? {
      assert MainApply(c, s).workers[..|s.workers|] == s.workers;
    }
  }

  lemma MainKeepsPlaces(c: Config, s: State, id: int)
    requires Enabled(c, s, MainStep)
    ensures Places(MainApply(c, s), id) == Places(s, id)
  {
    hide AfterStarting, AfterDispatching, AfterStopping, AfterCollecting, AfterJoining, StatusOk, Count;
    if s.main.Starting? {
      assert MainApply(c, s).workers[..|s.workers|] == s.workers;
    }
    if s.main.Collecting? {
      HeadOccurs(s.output, id);
      AppendOccurs(s.collected, s.output[0], id);
    }
  }

  lemma MainKeepsConserved(c: Config, s: State)
    requires InRange(c, s.main) && Conserved(c, s) && Enabled(c, s, MainStep)
    ensures Conserved(c, MainApply(c, s))
  {
    hide MainApply, Taken, Places, InRange;
    MainKeepsTaken(c, s);
    forall id ensures Places(MainApply(c, s), id) == Places(s, id) {
      MainKeepsPlaces(c, s, id);
    }
  }

  lemma WorkerKeepsConserved(c: Config, s: State, step: Step)
    requires Control(c, s) && Conserved(c, s) && Enabled(c, s, step) && !step.MainStep? && !step.Interrupt?
    ensures Conserved(c, Apply(c, s, step))
  {
    hide InputOk, ProgressOf, InRange, Total, Occurs;
    var s' := Apply(c, s, step);
    UpdateTotal(s.workers, step.w, s'.workers[step.w], HoldsAny());
    UpdateTotal(s.workers, step.w, s'.workers[step.w], HasStopped());
    if step.Get? {
      HeadOfInput(c, s);
    }
    forall id ensures Places(s', id) == if 0 <= id < Taken(c, s') then 1 else 0 {
      assert Places(s, id) == if 0 <= id < Taken(c, s) then 1 else 0;
      UpdateTotal(s.workers, step.w, s'.workers[step.w], HoldsJob(id));
      if step.Put? {
        AppendOccurs(s.output, s.workers[step.w].job, id);
      }
    }
  }

  lemma StepKeepsConserved(c: Config, s: State, step: Step)
    requires Control(c, s) && Conserved(c, s) && Enabled(c, s, step)
    ensures Conserved(c, Apply(c, s, step))
  {
    hide Control, InRange, ProgressOf, Taken, Places;
    match step
    case MainStep => InRangeOf(c, s); MainKeepsConserved(c, s);
    case Interrupt => InterruptKeepsPlaces(c, s);
    case _ => WorkerKeepsConserved(c, s, step);
  }

  lemma InterruptKeepsPlaces(c: Config, s: State)
    requires Conserved(c, s)
    ensures Conserved(c, s.(threadExit := true))
  {
    assert forall id :: Places(s.(threadExit := true), id) == Places(s, id);
  }

  lemma InRangeOf(c: Config, s: State)
    requires Control(c, s)
    ensures InRange(c, s.main)
  {
  }

  lemma StepKeepsCounted(c: Config, s: State, step: Step)
    requires InRange(c, s.main) && Counted(c, s) && Enabled(c, s, step)
    ensures Counted(c, Apply(c, s, step))
  {
    hide AfterStarting, AfterDispatching, AfterStopping, AfterCollecting, AfterJoining, Count;
    if step.MainStep? {
      MainAdvances(c, s);
      match s.main {
        case Dispatching(i) => TallyTotal(i, i + 1, s.collected);
        case Collecting(i) => AppendTally(|c.plan|, s.collected, s.output[0]);
        case _ =>
      }
    }
  }

  /** Every step of every thread, and an interrupt at any moment, keeps the invariant. */
  lemma StepKeepsInv(c: Config, s: State, step: Step)
    requires Inv(c, s) && Enabled(c, s, step)
    ensures Inv(c, Apply(c, s, step))
  {
    hide Control, Fitting, Conserved, Counted, Apply;
    InRangeOf(c, s);
    StepKeepsControl(c, s, step);
    StepKeepsFitting(c, s, step);
    StepKeepsConserved(c, s, step);
    StepKeepsCounted(c, s, step);
  }
}
