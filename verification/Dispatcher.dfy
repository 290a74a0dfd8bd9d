/**
 * The test dispatcher of test.py: a main thread, `workers` worker threads, a first-in-first-out input queue, an
 * output queue and an asynchronous `thread_exit` flag, as a step relation.
 */
module Dispatcher {

  import opened Options

  /** `id` is the position in dispatch order; sentinels have id -1. The return code is absent until the job has run. */
  datatype Job = Job(id: int, isSkip: bool, isBreak: bool, returncode: Option<int>)

  const SENTINEL := Job(-1, false, true, None)

  /** Where a worker stands in the loop of `worker_thread.run`. */
  datatype Worker =
    | Getting
    | Checking(job: Job)
    | Running(job: Job)
    | Putting(job: Job)
    | Stopped

  /** Where the main thread stands in `run_tests`; the argument is the loop counter. */
  datatype Main =
    | Starting(i: nat)
    | Dispatching(i: nat)
    | Stopping(i: nat)
    | Collecting(i: nat)
    | Joining(i: nat)
    | Exited(status: int)

  datatype Tally = Tally(total: nat, passed: nat, failed: nat, crashed: nat, valgrind: nat, skipped: nat)

  /** The number of processors, and for each dispatched job whether it is to be skipped. */
  datatype Config = Config(workers: nat, plan: seq<bool>)

  /** `collected` records the jobs the main thread has taken off the output queue. */
  datatype State = State(
    threadExit: bool,
    input: seq<Job>,
    output: seq<Job>,
    workers: seq<Worker>,
    main: Main,
    tally: Tally,
    collected: seq<Job>)

  datatype Step =
    | MainStep
    | Get(w: nat)
    | Check(w: nat)
    | Finish(w: nat, returncode: int)
    | Put(w: nat)
    | Interrupt

  // ---- the transitions ----

  function AfterCollecting(c: Config, s: State, i: nat): Main {
    if i < |c.plan| then Collecting(i) else AfterJoining(c, s, 0)
  }

  function AfterJoining(c: Config, s: State, i: nat): Main {
    if i < c.workers then Joining(i)
    else Exited(if s.tally.passed + s.tally.skipped == s.tally.total then 0 else 1)
  }

  function AfterStopping(c: Config, s: State, i: nat): Main {
    if i < c.workers then Stopping(i) else AfterCollecting(c, s, 0)
  }

  function AfterDispatching(c: Config, s: State, i: nat): Main {
    if i < |c.plan| then Dispatching(i) else AfterStopping(c, s, 0)
  }

  function AfterStarting(c: Config, s: State, i: nat): Main {
    if i < c.workers then Starting(i) else AfterDispatching(c, s, 0)
  }

  function Initial(c: Config): State {
    var s := State(false, [], [], [], Starting(0), Tally(0, 0, 0, 0, 0, 0), []);
    s.(main := AfterStarting(c, s, 0))
  }

  function NewJob(c: Config, id: nat): Job
    requires id < |c.plan|
  {
    Job(id, c.plan[id], false, None)
  }

  /** One round of the collecting loop's status chain. */
  function Count(t: Tally, job: Job): Tally {
    if job.isBreak then t
    else if job.isSkip then t.(skipped := t.skipped + 1)
    else if job.returncode == Some(0) then t.(passed := t.passed + 1)
    else if job.returncode == Some(1) then t.(failed := t.failed + 1)
    else if job.returncode == Some(2) then t.(valgrind := t.valgrind + 1)
    else t.(crashed := t.crashed + 1)
  }

  predicate Enabled(c: Config, s: State, step: Step) {
    match step
    case MainStep =>
      (match s.main
       case Starting(i) => i < c.workers
       case Dispatching(i) => i < |c.plan|
       case Stopping(i) => i < c.workers
       case Collecting(i) => i < |c.plan| && s.output != []
       case Joining(i) => i < |s.workers| && s.workers[i].Stopped?
       case Exited(_) => false)
    case Get(w) => w < |s.workers| && s.workers[w].Getting? && s.input != []
    case Check(w) => w < |s.workers| && s.workers[w].Checking?
    case Finish(w, _) => w < |s.workers| && s.workers[w].Running?
    case Put(w) => w < |s.workers| && s.workers[w].Putting?
    case Interrupt => !s.threadExit
  }

  function MainApply(c: Config, s: State): State
    requires Enabled(c, s, MainStep)
  {
    match s.main
    case Starting(i) =>
      s.(workers := s.workers + [Getting], main := AfterStarting(c, s, i + 1))
    case Dispatching(i) =>
      var t := s.(input := s.input + [NewJob(c, i)], tally := s.tally.(total := s.tally.total + 1));
      t.(main := AfterDispatching(c, t, i + 1))
    case Stopping(i) =>
      s.(input := s.input + [SENTINEL], main := AfterStopping(c, s, i + 1))
    case Collecting(i) =>
      var job := s.output[0];
      var t := s.(output := s.output[1..], tally := Count(s.tally, job), collected := s.collected + [job]);
      t.(main := AfterCollecting(c, t, i + 1))
    case Joining(i) =>
      s.(main := AfterJoining(c, s, i + 1))
  }

  /** Reading the flag and then the skip mark. */
  function Checked(s: State, job: Job): Worker {
    if s.threadExit then Putting(job.(isBreak := true))
    else if job.isSkip then Putting(job)
    else Running(job)
  }

  function Apply(c: Config, s: State, step: Step): State
    requires Enabled(c, s, step)
  {
    match step
    case MainStep => MainApply(c, s)
    case Get(w) =>
      var job := s.input[0];
      s.(input := s.input[1..], workers := s.workers[w := if job.isBreak then Stopped else Checking(job)])
    case Check(w) =>
      s.(workers := s.workers[w := Checked(s, s.workers[w].job)])
    case Finish(w, returncode) =>
      s.(workers := s.workers[w := Putting(s.workers[w].job.(returncode := Some(returncode)))])
    case Put(w) =>
      s.(output := s.output + [s.workers[w].job], workers := s.workers[w := Getting])
    case Interrupt =>
      s.(threadExit := true)
  }

  ghost predicate Next(c: Config, s: State, s': State) {
    exists step :: Enabled(c, s, step) && s' == Apply(c, s, step)
  }

  /** The states of an execution, any interleaving, from the start. */
  ghost predicate IsRun(c: Config, run: seq<State>) {
    && |run| > 0 && run[0] == Initial(c)
    && forall k :: 0 <= k < |run| - 1 ==> Next(c, run[k], run[k + 1])
  }

  ghost predicate Final(c: Config, s: State) {
    forall step :: !Enabled(c, s, step) || step.Interrupt?
  }
}
