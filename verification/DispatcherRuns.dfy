/** What the dispatcher promises over whole runs: safety, progress, termination and exit status. */
module DispatcherRuns {
  import opened Options
  import opened Dispatcher
  import opened DispatcherProofs

  /** The invariant holds in every state of every run. */
  lemma {:induction false} RunInv(c: Config, run: seq<State>, k: nat)
    requires IsRun(c, run) && k < |run|
    ensures Inv(c, run[k])
    decreases k
  {
    hide Inv, Apply, Enabled;
    if k == 0 {
      InitialInv(c);
    } else {
      RunInv(c, run, k - 1);
      assert Next(c, run[k - 1], run[k - 1 + 1]);
      var step :| Enabled(c, run[k - 1], step) && run[k] == Apply(c, run[k - 1], step);
      StepKeepsInv(c, run[k - 1], step);
    }
  }

  /** On the input queue, real jobs stand in dispatch order and every sentinel stands behind all of them. */
  lemma SentinelsStayBehind(c: Config, run: seq<State>, k: nat, i: nat, j: nat)
    requires IsRun(c, run) && k < |run| && i < j < |run[k].input|
    ensures run[k].input[i].isBreak ==> run[k].input[j].isBreak
    ensures !run[k].input[j].isBreak ==> run[k].input[i].id < run[k].input[j].id
  {
    RunInv(c, run, k);
  }

  /** No job is ever in two places, and a worker only runs a job that is not to be skipped. */
  lemma JobsAreNeverDuplicated(c: Config, run: seq<State>, k: nat, id: int)
    requires IsRun(c, run) && k < |run|
    ensures Places(run[k], id) <= 1
    ensures forall w :: 0 <= w < |run[k].workers| && run[k].workers[w].Running? ==>
              var job := run[k].workers[w].job;
              0 <= job.id < |c.plan| && !c.plan[job.id]
  {
    RunInv(c, run, k);
  }

  /** Once the flag is up no worker starts another process. */
  lemma NothingStartsAfterInterrupt(c: Config, s: State, s': State, w: nat)
    requires Next(c, s, s') && s.threadExit && w < |s'.workers| && s'.workers[w].Running?
    ensures s'.threadExit && w < |s.workers| && s.workers[w].Running?
  {
    hide AfterStarting, AfterDispatching, AfterStopping, AfterCollecting, AfterJoining;
  }

  // ---- termination ----

  /** Stages still ahead of all jobs, sentinels, threads and the flag. */
  ghost function Measure(c: Config, s: State): int {
    var p := ProgressOf(c, s.main);
    (if s.threadExit then 0 else 1)
    + (c.workers - p.started)
    + 6 * (|c.plan| - p.dispatched)
    + 2 * (c.workers - p.sent)
    + 5 * RealJobs(c, s) + (|s.input| - RealJobs(c, s))
    + HeldWeight(s.workers)
    + |s.output|
    + (c.workers - p.joined)
  }

  lemma MeasureIsNat(c: Config, s: State)
    requires Control(c, s)
    ensures Measure(c, s) >= 0
  {
  }

  lemma MainStepsDown(c: Config, s: State)
    requires Control(c, s) && Enabled(c, s, MainStep)
    ensures Measure(c, MainApply(c, s)) < Measure(c, s)
  {
    hide AfterStarting, AfterDispatching, AfterStopping, AfterCollecting, AfterJoining, StatusOk, Count, InputOk;
    MainAdvances(c, s);
    if s.main.Starting? {
      assert MainApply(c, s).workers[..|s.workers|] == s.workers;
    }
  }

  lemma WorkerStepsDown(c: Config, s: State, step: Step)
    requires Control(c, s) && Enabled(c, s, step) && !step.MainStep? && !step.Interrupt?
    ensures Measure(c, Apply(c, s, step)) < Measure(c, s)
  {
    hide InputOk, InRange, ProgressOf;
    var s' := Apply(c, s, step);
    UpdateTotal(s.workers, step.w, s'.workers[step.w], WorkerWeight());
    UpdateTotal(s.workers, step.w, s'.workers[step.w], HasStopped());
    if step.Get? {
      HeadOfInput(c, s);
    }
  }

  lemma EveryStepCounts(c: Config, s: State, step: Step)
    requires Control(c, s) && Enabled(c, s, step)
    ensures Measure(c, Apply(c, s, step)) < Measure(c, s)
  {
    match step
    case MainStep => MainStepsDown(c, s);
    case Interrupt =>
    case _ => WorkerStepsDown(c, s, step);
  }

  lemma {:induction false} MeasureAlong(c: Config, run: seq<State>, k: nat)
    requires IsRun(c, run) && k < |run|
    ensures Measure(c, run[k]) + k <= Measure(c, run[0])
    decreases k
  {
    hide Measure, Control, Apply, Enabled;
    if k == 0 {
    } else {
      MeasureAlong(c, run, k - 1);
      RunInv(c, run, k - 1);
      assert Next(c, run[k - 1], run[k - 1 + 1]);
      var step :| Enabled(c, run[k - 1], step) && run[k] == Apply(c, run[k - 1], step);
      EveryStepCounts(c, run[k - 1], step);
    }
  }

  /** No interleaving goes on for ever: a run has at most this many steps, interrupt included. */
  lemma RunsTerminate(c: Config, run: seq<State>)
    requires IsRun(c, run)
    ensures |run| - 1 <= 1 + 4 * c.workers + 6 * |c.plan|
  {
    MeasureAlong(c, run, |run| - 1);
    RunInv(c, run, |run| - 1);
    MeasureIsNat(c, run[|run| - 1]);
    hide AfterStarting;
    Handover(c, State(false, [], [], [], Starting(0), Tally(0, 0, 0, 0, 0, 0), []), 0);
  }

  // ---- progress ----

  /** Unless the main thread has exited, some thread can take a step. */
  lemma NotStuck(c: Config, s: State) returns (step: Step)
    requires Inv(c, s) && !s.main.Exited? && (c.workers > 0 || c.plan == [])
    ensures Enabled(c, s, step) && !step.Interrupt?
  {
    if s.main.Starting? || s.main.Dispatching? || s.main.Stopping? || Enabled(c, s, MainStep) {
      step := MainStep;
    } else if HeldCount(s.workers) > 0 {
      SomebodyHolds(s.workers);
      var w :| 0 <= w < |s.workers| && Holds(s.workers[w]);
      step := if s.workers[w].Checking? then Check(w) else if s.workers[w].Running? then Finish(w, 0) else Put(w);
    } else {
      StoppedBound(s.workers);
      var w: nat :| w < |s.workers| && !s.workers[w].Stopped?;
      NobodyHolds(s.workers, w);
      step := Get(w);
    }
  }

  lemma {:induction false} NobodyHolds(ws: seq<Worker>, w: nat)
    requires HeldCount(ws) == 0 && w < |ws|
    ensures !Holds(ws[w])
    decreases |ws|
  {
    if w == |ws| - 1 {
    } else {
      NobodyHolds(ws[..|ws| - 1], w);
    }
  }

  /** Without a processor nothing is ever taken off the input queue. */
  lemma {:induction false} NoWorkersNothingTaken(c: Config, run: seq<State>, k: nat)
    requires IsRun(c, run) && k < |run| && c.workers == 0
    ensures Taken(c, run[k]) == 0
    decreases k
  {
    hide Taken, Inv, Next, Initial;
    if k == 0 {
      InitiallyNothingTaken(c);
    } else {
      var s, s' := run[k - 1], run[k - 1 + 1];
      NoWorkersNothingTaken(c, run, k - 1);
      RunInv(c, run, k - 1);
      assert Next(c, s, s');
      NoWorkersStep(c, s, s');
    }
  }

  lemma InitiallyNothingTaken(c: Config)
    ensures Taken(c, Initial(c)) == 0
  {
    hide Initial, ProgressOf;
    InitialProgress(c);
  }

  lemma NoWorkersStep(c: Config, s: State, s': State)
    requires c.workers == 0 && Inv(c, s) && Next(c, s, s')
    ensures Taken(c, s') == Taken(c, s)
  {
    hide InputOk, Taken, RealJobs, Fitting, Conserved, Counted, MainApply;
    var step :| Enabled(c, s, step) && s' == Apply(c, s, step);
    assert step.MainStep? || step.Interrupt?;
    if step.MainStep? {
      MainKeepsTaken(c, s);
    } else {
      InterruptTakesNothing(c, s);
    }
  }

  lemma InterruptTakesNothing(c: Config, s: State)
    ensures Taken(c, s.(threadExit := true)) == Taken(c, s)
  {
  }

  /**
   * A run that no thread can continue has ended with the main thread's exit, if and only if there is a processor
   * or there is nothing to do.
   */
  lemma MaximalRunsExit(c: Config, run: seq<State>)
    requires IsRun(c, run) && Final(c, run[|run| - 1])
    ensures run[|run| - 1].main.Exited? <==> c.workers > 0 || c.plan == []
  {
    var s := run[|run| - 1];
    RunInv(c, run, |run| - 1);
    if c.workers > 0 || c.plan == [] {
      if !s.main.Exited? {
        var step := NotStuck(c, s);
      }
    } else {
      NoWorkersNothingTaken(c, run, |run| - 1);
    }
  }

  // ---- the end ----

  ghost predicate Good(job: Job) {
    !job.isBreak && (job.isSkip || job.returncode == Some(0))
  }

  lemma {:induction false} TallyGood(total: nat, jobs: seq<Job>)
    ensures TallyOf(total, jobs).total == total
    ensures TallyOf(total, jobs).passed + TallyOf(total, jobs).skipped <= |jobs|
    ensures TallyOf(total, jobs).passed + TallyOf(total, jobs).skipped == |jobs|
            <==> forall i :: 0 <= i < |jobs| ==> Good(jobs[i])
    decreases |jobs|
  {
    if jobs == [] {
    } else {
      TallyGood(total, jobs[..|jobs| - 1]);
    }
  }

  ghost function HowMany(jobs: seq<Job>, counted: Job -> bool): nat {
    if jobs == [] then 0
    else HowMany(jobs[..|jobs| - 1], counted) + if counted(jobs[|jobs| - 1]) then 1 else 0
  }

  /** A job that was run and returned `code`. */
  ghost predicate Returned(job: Job, code: int) {
    !job.isBreak && !job.isSkip && job.returncode == Some(code)
  }

  /** Which counter each result goes to: abandoned ones to none, exit codes other than 0, 1 and 2 to the crashed. */
  lemma {:induction false} TallyCounts(total: nat, jobs: seq<Job>)
    ensures var t := TallyOf(total, jobs);
            && t.skipped == HowMany(jobs, (j: Job) => !j.isBreak && j.isSkip)
            && t.passed == HowMany(jobs, (j: Job) => Returned(j, 0))
            && t.failed == HowMany(jobs, (j: Job) => Returned(j, 1))
            && t.valgrind == HowMany(jobs, (j: Job) => Returned(j, 2))
            && t.skipped + t.passed + t.failed + t.valgrind + t.crashed == HowMany(jobs, (j: Job) => !j.isBreak)
    decreases |jobs|
  {
    if jobs == [] {
    } else {
      TallyCounts(total, jobs[..|jobs| - 1]);
    }
  }

  /**
   * When the main thread exits, every worker has been joined, both queues are empty, each dispatched job has come
   * back exactly once, and the status is 0 exactly when every job was skipped or returned 0 and none was abandoned.
   */
  lemma ExitIsClean(c: Config, run: seq<State>)
    requires IsRun(c, run) && run[|run| - 1].main.Exited?
    ensures var s := run[|run| - 1];
            && |s.workers| == c.workers && (forall w :: 0 <= w < c.workers ==> s.workers[w].Stopped?)
            && s.input == [] && s.output == []
            && |s.collected| == |c.plan|
            && (forall id :: 0 <= id < |c.plan| ==> Occurs(s.collected, id) == 1)
            && s.main.status in {0, 1}
            && (s.main.status == 0 <==> forall i :: 0 <= i < |s.collected| ==> Good(s.collected[i]))
  {
    var s := run[|run| - 1];
    RunInv(c, run, |run| - 1);
    StoppedBound(s.workers);
    TallyGood(|c.plan|, s.collected);
    assert HeldCount(s.workers) == 0 && s.output == [] && Taken(c, s) == |c.plan|;
    forall id | 0 <= id < |c.plan| ensures Occurs(s.collected, id) == 1 {
      assert Places(s, id) == 1;
      NobodyHoldsId(s.workers, id);
    }
  }

  lemma {:induction false} NobodyHoldsId(ws: seq<Worker>, id: int)
    requires HeldCount(ws) == 0
    ensures HeldOccurs(ws, id) == 0
    decreases |ws|
  {
    if ws == [] {
    } else {
      NobodyHoldsId(ws[..|ws| - 1], id);
    }
  }

  /** Without an interrupt no job is abandoned: each comes back skipped as planned, or with an exit code. */
  lemma NothingAbandonedWithoutInterrupt(c: Config, run: seq<State>, i: nat)
    requires IsRun(c, run) && !run[|run| - 1].threadExit && i < |run[|run| - 1].collected|
    ensures var job := run[|run| - 1].collected[i];
            && 0 <= job.id < |c.plan|
            && !job.isBreak
            && (c.plan[job.id] <==> job.isSkip)
            && (job.isSkip <==> job.returncode == None)
  {
    RunInv(c, run, |run| - 1);
  }

  // ---- single steps, seen from outside ----

  /** Results reach the main thread in the order in which workers put them on the output queue. */
  lemma ResultsKeepOrder(c: Config, s: State, s': State)
    requires Next(c, s, s')
    ensures s.collected + s.output <= s'.collected + s'.output
    ensures |s'.collected + s'.output| <= |s.collected + s.output| + 1
  {
    hide AfterStarting, AfterDispatching, AfterStopping, AfterCollecting, AfterJoining, Count;
    var step :| Enabled(c, s, step) && s' == Apply(c, s, step);
    if s.main.Collecting? && step.MainStep? {
      assert s.output == [s.output[0]] + s.output[1..];
      assert s.collected + [s.output[0]] + s.output[1..] == s.collected + s.output;
    } else if step.Put? {
      assert s.collected + (s.output + [s.workers[step.w].job]) == s.collected + s.output + [s.workers[step.w].job];
    }
  }

  /** A worker that runs a job can come out of it with any exit code, and then holds the job with that code. */
  lemma RunningEndsWithCode(c: Config, s: State, w: nat)
    requires w < |s.workers| && s.workers[w].Running?
    ensures var job := s.workers[w].job;
            && (forall code: int :: Next(c, s, s.(workers := s.workers[w := Putting(job.(returncode := Some(code)))])))
            && (forall s' :: Next(c, s, s') && w < |s'.workers| && s'.workers[w] != s.workers[w] ==>
                  exists code: int :: s'.workers[w] == Putting(job.(returncode := Some(code))))
  {
    hide AfterStarting, AfterDispatching, AfterStopping, AfterCollecting, AfterJoining;
    var job := s.workers[w].job;
    forall code: int ensures Next(c, s, s.(workers := s.workers[w := Putting(job.(returncode := Some(code)))])) {
      assert Enabled(c, s, Finish(w, code));
    }
  }

  /**
   * All workers run before the first job is dispatched, all jobs and sentinels are dispatched before the first result
   * is looked at, and all results before the first worker is joined.
   */
  lemma PhasesInOrder(c: Config, run: seq<State>, k: nat)
    requires IsRun(c, run) && k < |run|
    ensures var s := run[k];
            && (s.input != [] || s.output != [] || s.collected != [] ==> |s.workers| == c.workers)
            && (s.collected != [] ==> s.tally.total == |c.plan|)
            && (s.main.Joining? || s.main.Exited? ==> |s.collected| == |c.plan|)
  {
    RunInv(c, run, k);
    hide IsRun, Fitting, InputOk;
    assert Places(run[k], 0) >= 0;
    TallyGood(ProgressOf(c, run[k].main).dispatched, run[k].collected);
  }

  /** The collecting loop and the exit status of `run_tests`, over the results in the order they arrive. */
  method Summarize(results: seq<Job>) returns (tally: Tally, status: int)
    ensures tally == TallyOf(|results|, results)
    ensures tally.passed == HowMany(results, (j: Job) => Returned(j, 0))
    ensures tally.failed == HowMany(results, (j: Job) => Returned(j, 1))
    ensures tally.valgrind == HowMany(results, (j: Job) => Returned(j, 2))
    ensures status == 0 <==> forall i :: 0 <= i < |results| ==> Good(results[i])
  {
    var passed, failed, crashed, valgrind, skipped := 0, 0, 0, 0, 0;
    for i := 0 to |results|
      invariant Tally(|results|, passed, failed, crashed, valgrind, skipped) == TallyOf(|results|, results[..i])
    {
      var job := results[i];
      assert results[..i + 1] == results[..i] + [job];
      AppendTally(|results|, results[..i], job);
      if job.isBreak {
        continue;
      }
      if job.isSkip {
        skipped := skipped + 1;
      } else if job.returncode == Some(0) {
        passed := passed + 1;
      } else if job.returncode == Some(1) {
        failed := failed + 1;
      } else if job.returncode == Some(2) {
        valgrind := valgrind + 1;
      } else {
        crashed := crashed + 1;
      }
    }
    assert results[..|results|] == results;
    TallyGood(|results|, results);
    TallyCounts(|results|, results);
    tally := Tally(|results|, passed, failed, crashed, valgrind, skipped);
    status := if passed + skipped == |results| then 0 else 1;
  }
}
