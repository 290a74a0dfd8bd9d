/** What the interrupt of test.py does to each job, over whole runs. */
module DispatcherInterrupts {
  import opened Options
  import opened Dispatcher
  import opened DispatcherProofs
  import opened DispatcherRuns

  /** In step `i` worker `w` looks at the flag and the skip mark of the job `id`. */
  ghost predicate Looks(run: seq<State>, i: nat, w: nat, id: int)
    requires i + 1 < |run|
  {
    var s, s' := run[i], run[i + 1];
    && w < |s.workers| && w < |s'.workers|
    && s.workers[w].Checking? && s.workers[w].job.id == id && !s'.workers[w].Checking?
  }

  ghost predicate SomeoneLooks(run: seq<State>, i: nat, id: int)
    requires i + 1 < |run|
  {
    exists w: nat :: Looks(run, i, w, id)
  }

  /** Among the first `k` steps a worker looked at the job `id` while the flag was up. */
  ghost predicate LookedBehind(run: seq<State>, k: nat, id: int)
    requires k < |run|
  {
    exists i: nat, w: nat :: i < k && run[i].threadExit && Looks(run, i, w, id)
  }

  /** A job on its way back to the main thread or there already. */
  ghost predicate Back(s: State, job: Job) {
    (exists w :: 0 <= w < |s.workers| && s.workers[w] == Putting(job)) || job in s.output || job in s.collected
  }

  /**
   * With the flag up a worker that looks at a job abandons it, whether it is to be skipped or not; with the flag down
   * it skips exactly the jobs to be skipped.
   */
  lemma LookOutcome(c: Config, run: seq<State>, k: nat, w: nat, id: int)
    requires IsRun(c, run) && k + 1 < |run| && Looks(run, k, w, id)
    ensures 0 <= id < |c.plan|
    ensures var after := run[k + 1].workers[w];
            if run[k].threadExit then after == Putting(Job(id, c.plan[id], true, None))
            else if c.plan[id] then after == Putting(Job(id, true, false, None))
            else after == Running(Job(id, false, false, None))
  {
    RunInv(c, run, k);
    hide AfterStarting, AfterDispatching, AfterStopping, AfterCollecting, AfterJoining;
    assert Next(c, run[k], run[k + 1]);
  }

  // ---- a job is in one place ----

  lemma {:induction false} HeldBy(ws: seq<Worker>, a: nat, id: int)
    requires a < |ws| && Holds(ws[a]) && ws[a].job.id == id
    ensures HeldOccurs(ws, id) >= 1
    ensures forall b :: 0 <= b < |ws| && b != a && Holds(ws[b]) && ws[b].job.id == id ==> HeldOccurs(ws, id) >= 2
    decreases |ws|
  {
    var n := |ws| - 1;
    if a == n {
      forall b | 0 <= b < n && Holds(ws[b]) && ws[b].job.id == id ensures HeldOccurs(ws, id) >= 2 {
        assert ws[..n][b] == ws[b];
        HeldBy(ws[..n], b, id);
      }
    } else {
      assert ws[..n][a] == ws[a];
      HeldBy(ws[..n], a, id);
      forall b | 0 <= b < n && b != a && Holds(ws[b]) && ws[b].job.id == id ensures HeldOccurs(ws, id) >= 2 {
        assert ws[..n][b] == ws[b];
      }
    }
  }

  lemma {:induction false} OccursIn(jobs: seq<Job>, job: Job)
    requires job in jobs
    ensures Occurs(jobs, job.id) >= 1
    decreases |jobs|
  {
    var n := |jobs| - 1;
    if jobs[n] == job {
    } else {
      assert jobs == jobs[..n] + [jobs[n]];
      OccursIn(jobs[..n], job);
    }
  }

  /** No other worker holds the job that worker `w` holds, and it is not back. */
  lemma Alone(c: Config, s: State, w: nat, job: Job)
    requires Inv(c, s) && w < |s.workers| && Holds(s.workers[w]) && s.workers[w].job.id == job.id
    ensures forall v :: 0 <= v < |s.workers| && v != w && Holds(s.workers[v]) ==> s.workers[v].job.id != job.id
    ensures job !in s.output && job !in s.collected
    ensures 0 <= job.id < Taken(c, s)
  {
    hide Control, Fitting, Counted, HeldOccurs, Occurs, Taken;
    HeldBy(s.workers, w, job.id);
    assert Places(s, job.id) <= 1;
    if job in s.output {
      OccursIn(s.output, job);
    }
    if job in s.collected {
      OccursIn(s.collected, job);
    }
  }

  // ---- which jobs come back abandoned ----

  /** The jobs of `behind` have been looked at behind the interrupt, and no others. */
  ghost predicate History(c: Config, s: State, behind: set<int>) {
    && (forall job :: Back(s, job) ==> (job.isBreak <==> job.id in behind))
    && (forall w :: 0 <= w < |s.workers| && (s.workers[w].Checking? || s.workers[w].Running?) ==>
          s.workers[w].job.id !in behind)
    && (forall id :: id in behind ==> 0 <= id < Taken(c, s))
  }

  lemma MainKeepsHistory(c: Config, s: State, behind: set<int>)
    requires Inv(c, s) && Enabled(c, s, MainStep) && History(c, s, behind)
    ensures History(c, MainApply(c, s), behind)
  {
    MainKeepsTaken(c, s);
    hide Inv, Taken, MainApply, Enabled, Back;
    var s' := MainApply(c, s);
    forall job ensures Back(s', job) ==> Back(s, job) {
      MainMoves(c, s, job);
    }
    MainStartsOnly(c, s);
  }

  lemma MainStartsOnly(c: Config, s: State)
    requires Enabled(c, s, MainStep)
    ensures MainApply(c, s).workers in [s.workers, s.workers + [Getting]]
  {
    hide AfterStarting, AfterDispatching, AfterStopping, AfterCollecting, AfterJoining, Count, NewJob;
  }

  lemma MainMoves(c: Config, s: State, job: Job)
    requires Enabled(c, s, MainStep)
    ensures Back(MainApply(c, s), job) ==> Back(s, job)
  {
    MainStartsOnly(c, s);
    hide AfterStarting, AfterDispatching, AfterStopping, AfterCollecting, AfterJoining, Count, NewJob;
    var s' := MainApply(c, s);
    if s.main.Collecting? {
      assert s.output == [s.output[0]] + s.output[1..];
    }
    assert job in s'.output || job in s'.collected ==> job in s.output || job in s.collected;
    hide MainApply;
    if w :| 0 <= w < |s'.workers| && s'.workers[w] == Putting(job) {
      assert s.workers[w] == Putting(job);
    }
  }

  lemma GetKeepsHistory(c: Config, s: State, w: nat, behind: set<int>)
    requires Inv(c, s) && Enabled(c, s, Get(w)) && History(c, s, behind)
    ensures History(c, Apply(c, s, Get(w)), behind)
  {
    var s' := Apply(c, s, Get(w));
    HeadOfInput(c, s);
    UpdateTotal(s.workers, w, s'.workers[w], HasStopped());
    assert Taken(c, s') >= Taken(c, s);
    hide Inv;
    forall job ensures Back(s', job) ==> Back(s, job) {
    }
  }

  lemma PutKeepsHistory(c: Config, s: State, w: nat, behind: set<int>)
    requires Inv(c, s) && Enabled(c, s, Put(w)) && History(c, s, behind)
    ensures History(c, Apply(c, s, Put(w)), behind)
  {
    var s' := Apply(c, s, Put(w));
    UpdateTotal(s.workers, w, s'.workers[w], HasStopped());
    assert Taken(c, s') == Taken(c, s);
    hide Inv;
    forall job ensures Back(s', job) ==> Back(s, job) {
      assert s.workers[w] == Putting(s.workers[w].job);
    }
  }

  lemma FinishKeepsHistory(c: Config, s: State, w: nat, returncode: int, behind: set<int>)
    requires Inv(c, s) && Enabled(c, s, Finish(w, returncode)) && History(c, s, behind)
    ensures History(c, Apply(c, s, Finish(w, returncode)), behind)
  {
    var s' := Apply(c, s, Finish(w, returncode));
    UpdateTotal(s.workers, w, s'.workers[w], HasStopped());
    assert Taken(c, s') == Taken(c, s);
    assert WorkerOk(c, s.threadExit, s.workers[w]);
    hide Inv;
    forall job ensures Back(s', job) ==> Back(s, job) || job == s'.workers[w].job {
    }
  }

  lemma CheckKeepsHistory(c: Config, s: State, w: nat, behind: set<int>)
    requires Inv(c, s) && Enabled(c, s, Check(w)) && History(c, s, behind)
    ensures History(c, Apply(c, s, Check(w)), if s.threadExit then behind + {s.workers[w].job.id} else behind)
  {
    var s', looked := Apply(c, s, Check(w)), s.workers[w].job;
    UpdateTotal(s.workers, w, s'.workers[w], HasStopped());
    assert Taken(c, s') == Taken(c, s);
    assert WorkerOk(c, s.threadExit, s.workers[w]);
    assert looked.id !in behind;
    forall job: Job | job.id == looked.id ensures !Back(s, job) && job.id < Taken(c, s) && job.id >= 0 {
      Alone(c, s, w, job);
    }
    forall v | 0 <= v < |s.workers| && v != w && Holds(s.workers[v]) ensures s.workers[v].job.id != looked.id {
      Alone(c, s, w, looked);
    }
    hide Inv;
    forall job ensures Back(s', job) ==> Back(s, job) || s'.workers[w] == Putting(job) {
    }
  }

  lemma StepKeepsHistory(c: Config, s: State, step: Step, behind: set<int>)
    requires Inv(c, s) && Enabled(c, s, step) && History(c, s, behind)
    ensures History(c, Apply(c, s, step),
                    if step.Check? && s.threadExit then behind + {s.workers[step.w].job.id} else behind)
  {
    hide Inv, History, MainApply;
    match step
    case MainStep => MainKeepsHistory(c, s, behind);
    case Get(w) => GetKeepsHistory(c, s, w, behind);
    case Check(w) => CheckKeepsHistory(c, s, w, behind);
    case Finish(w, returncode) => FinishKeepsHistory(c, s, w, returncode, behind);
    case Put(w) => PutKeepsHistory(c, s, w, behind);
    case Interrupt => InterruptKeepsHistory(c, s, behind);
  }

  lemma InterruptKeepsHistory(c: Config, s: State, behind: set<int>)
    requires History(c, s, behind)
    ensures History(c, s.(threadExit := true), behind)
  {
    InterruptTakesNothing(c, s);
    hide Taken;
    forall job ensures Back(s.(threadExit := true), job) ==> Back(s, job) {
    }
  }

  /** Which step it is that looks at a job. */
  lemma LooksIsCheck(c: Config, run: seq<State>, i: nat, step: Step)
    requires i + 1 < |run| && Enabled(c, run[i], step) && run[i + 1] == Apply(c, run[i], step)
    ensures step.Check? ==> step.w < |run[i].workers| && run[i].workers[step.w].Checking?
    ensures forall w: nat, id :: Looks(run, i, w, id) <==> step == Check(w) && run[i].workers[w].job.id == id
  {
    hide AfterStarting, AfterDispatching, AfterStopping, AfterCollecting, AfterJoining;
  }

  lemma {:induction false} RunHistory(c: Config, run: seq<State>, k: nat) returns (behind: set<int>)
    requires IsRun(c, run) && k < |run|
    ensures History(c, run[k], behind)
    ensures forall id :: id in behind <==> LookedBehind(run, k, id)
    decreases k
  {
    hide Inv, Apply, Enabled, History, Looks;
    if k == 0 {
      behind := {};
      NothingYet(c);
    } else {
      var before := RunHistory(c, run, k - 1);
      RunInv(c, run, k - 1);
      var s := run[k - 1];
      assert Next(c, s, run[k - 1 + 1]);
      var step :| Enabled(c, s, step) && run[k] == Apply(c, s, step);
      StepKeepsHistory(c, s, step, before);
      LooksIsCheck(c, run, k - 1, step);
      behind := if step.Check? && s.threadExit then before + {s.workers[step.w].job.id} else before;
      forall id ensures id in behind <==> LookedBehind(run, k, id) {
        LookedStep(run, k, id);
        if step.Check? {
          assert Looks(run, k - 1, step.w, s.workers[step.w].job.id);
        }
      }
    }
  }

  lemma LookedStep(run: seq<State>, k: nat, id: int)
    requires 0 < k < |run|
    ensures LookedBehind(run, k, id)
            <==> LookedBehind(run, k - 1, id) || (run[k - 1].threadExit && SomeoneLooks(run, k - 1, id))
  {
    hide Looks;
  }

  lemma NothingYet(c: Config)
    ensures History(c, Initial(c), {})
  {
    hide AfterStarting;
    InitialProgress(c);
  }

  /**
   * In every state of every run, the jobs come back abandoned are exactly those that a worker looked at behind the
   * interrupt.
   */
  lemma AbandonedIff(c: Config, run: seq<State>, k: nat, i: nat)
    requires IsRun(c, run) && k < |run| && i < |run[k].collected|
    ensures run[k].collected[i].isBreak <==> LookedBehind(run, k, run[k].collected[i].id)
  {
    var behind := RunHistory(c, run, k);
    assert Back(run[k], run[k].collected[i]);
  }

  /** A job looked at behind the interrupt, to be skipped or not, makes the exit status 1. */
  lemma InterruptedRunFails(c: Config, run: seq<State>, id: int)
    requires IsRun(c, run) && run[|run| - 1].main.Exited? && LookedBehind(run, |run| - 1, id)
    ensures run[|run| - 1].main.status == 1
  {
    hide LookedBehind, Inv;
    var s := run[|run| - 1];
    var behind := RunHistory(c, run, |run| - 1);
    ExitIsClean(c, run);
    RunInv(c, run, |run| - 1);
    TakenOnlyPlanned(c, s);
    var i := Collected(s.collected, id);
    AbandonedIff(c, run, |run| - 1, i);
  }

  lemma TakenOnlyPlanned(c: Config, s: State)
    requires Inv(c, s)
    ensures Taken(c, s) <= |c.plan|
  {
  }

  lemma {:induction false} Collected(jobs: seq<Job>, id: int) returns (i: nat)
    requires Occurs(jobs, id) > 0
    ensures i < |jobs| && jobs[i].id == id
    decreases |jobs|
  {
    if jobs[|jobs| - 1].id == id {
      i := |jobs| - 1;
    } else {
      i := Collected(jobs[..|jobs| - 1], id);
    }
  }
}
