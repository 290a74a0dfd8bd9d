/**
 * What running a parsed pipeline means: pipe groups joined by && and ||, evaluated with short-circuiting that
 * associates to the right.
 */
module ShellEval {
  import opened Options
  import opened ShellParse
  import opened ShellCanon
  import opened ShellRun

  /** A command with the directory that the preceding directory changes add up to. */
  datatype Placed = Placed(cmd: Node, dir: string)

  /** Pipe groups joined by && or ||. `Broken` ends in a directory change that `run` cannot carry out. */
  datatype AndOr =
    | Only(g: seq<Placed>)
    | Joined(g: seq<Placed>, op: Operator, rest: AndOr)
    | Broken(g: seq<Placed>, error: RunResult)

  /** What a standard stream of a process is tied to; a file by its name, seen from the caller's directory. */
  datatype Tie =
    | Inherited
    | NullDevice
    | NamedFile(name: string, writing: bool)
    | FromProcess(proc: nat)
    | ToPipe
    | LikeStdout

  /** What is launched: arguments, assignments, directory, and the three standard streams. */
  datatype View = View(
    argv: seq<string>, env: map<string, string>, cwd: Option<string>, stdin: Tie, stdout: Tie, stderr: Tie)

  function ViewOf(p: Placed, feeder: Option<nat>): View
    requires p.cmd.Command?
  {
    View(p.cmd.argv, p.cmd.envVars, if p.dir == "." then None else Some(p.dir),
         StdinTie(p.cmd.stdin, feeder), StdoutTie(p.cmd.stdout), StderrTie(p.cmd.stderr))
  }

  /** A command fed by a pipe ignores its own input redirection. */
  function StdinTie(stdin: Option<string>, feeder: Option<nat>): Tie {
    match feeder
    case Some(proc) => FromProcess(proc)
    case None =>
      match stdin
      case Some(name) => NamedFile(name, false)
      case None => Inherited
  }

  function OutTie(name: string): Tie {
    if IsDevNull(name) then NullDevice else NamedFile(name, true)
  }

  function StdoutTie(stdout: Stdout): Tie {
    match stdout
    case DefaultOut => Inherited
    case Piped => ToPipe
    case OutFile(name) => OutTie(name)
  }

  function StderrTie(stderr: Stderr): Tie {
    match stderr
    case DefaultErr => Inherited
    case SameAsStdout => LikeStdout
    case ErrFile(name) => OutTie(name)
  }

  predicate AllCommands(g: seq<Placed>) {
    forall k :: 0 <= k < |g| ==> g[k].cmd.Command?
  }

  predicate Solid(a: AndOr) {
    AllCommands(a.g) && (!a.Broken? ==> a.g != []) && (a.Joined? ==> !a.op.Pipe? && Solid(a.rest))
  }

  /** The processes of a group are numbered from `n`; each is fed by the one before it. */
  function GroupViews(g: seq<Placed>, n: nat): seq<View>
    requires AllCommands(g)
  {
    if g == [] then []
    else
      var k := |g| - 1;
      GroupViews(g[..k], n) + [ViewOf(g[k], if k == 0 then None else Some(n + k - 1))]
  }

  function StatusOf(g: seq<Placed>, n: nat, exits: nat -> int): int
    requires g != []
  {
    exits(n + |g| - 1)
  }

  predicate Proceeds(op: Operator, status: int) {
    op.And? == (status == 0)
  }

  /** Right-associated evaluation: an operator that short-circuits ends everything. */
  function Eval(a: AndOr, exits: nat -> int, n: nat): (seq<View>, RunResult)
    requires Solid(a)
  {
    match a
    case Only(g) => (GroupViews(g, n), Status(StatusOf(g, n, exits)))
    case Broken(g, error) => (GroupViews(g, n), error)
    case Joined(g, op, rest) =>
      var status := StatusOf(g, n, exits);
      if Proceeds(op, status) then
        var r := Eval(rest, exits, n + |g|);
        (GroupViews(g, n) + r.0, r.1)
      else (GroupViews(g, n), Status(status))
  }

  /** The groups of a well-formed pipeline; `g` are the commands of the current group so far. */
  function Grouping(nodes: seq<Node>, dir: string, g: seq<Placed>): AndOr
    requires |nodes| % 2 == 1
    decreases |nodes|
  {
    var n := nodes[0];
    if n.Chdir? then
      if |nodes| == 1 then Broken(g, IndexError)
      else if n.dir.None? then Broken(g, AttributeError)
      else Grouping(nodes[2..], JoinPath(dir, n.dir.value), g)
    else
      var g' := g + [Placed(n, dir)];
      if |nodes| == 1 then Only(g')
      else if IsOp(nodes[1], Pipe) then Grouping(nodes[2..], dir, g')
      else Joined(g', if IsOp(nodes[1], And) then And else Or, Grouping(nodes[2..], dir, []))
  }

  lemma {:induction false} OddLength(nodes: seq<Node>)
    requires PipelineOk(nodes)
    ensures |nodes| % 2 == 1
    decreases |nodes|
  {
    if |nodes| <= 1 {
    } else {
      OddLength(nodes[2..]);
    }
  }

  lemma {:induction false} GroupingSolid(nodes: seq<Node>, dir: string, g: seq<Placed>)
    requires |nodes| % 2 == 1 && PipelineOk(nodes) && AllCommands(g)
    ensures Solid(Grouping(nodes, dir, g))
    decreases |nodes|
  {
    hide CommandOk;
    var n := nodes[0];
    if |nodes| <= 1 {
    } else {
      if n.Chdir? {
        if n.dir.Some? {
          GroupingSolid(nodes[2..], JoinPath(dir, n.dir.value), g);
        }
      } else {
        GroupingSolid(nodes[2..], dir, g + [Placed(n, dir)]);
        GroupingSolid(nodes[2..], dir, []);
      }
    }
  }

  lemma GroupingStep(nodes: seq<Node>, dir: string, g: seq<Placed>)
    requires |nodes| % 2 == 1 && PipelineOk(nodes) && nodes[0].Command?
    ensures var g' := g + [Placed(nodes[0], dir)];
            Grouping(nodes, dir, g)
            == if |nodes| == 1 then Only(g')
               else if nodes[1].op.Pipe? then Grouping(nodes[2..], dir, g')
               else Joined(g', nodes[1].op, Grouping(nodes[2..], dir, []))
  {
    hide CommandOk;
  }

  // ---- what the events show ----

  function HandleTie(h: Handle): Tie {
    match h
    case DevNull => NullDevice
    case FileHandle(file) => NamedFile(file.name, file.writing)
  }

  function StreamsView(argv: seq<string>, env: map<string, string>, cwd: Option<string>, s: Streams): View {
    View(argv, env, cwd,
         match s.stdin
         { case InheritIn => Inherited case InHandle(h) => HandleTie(h) case InPipe(p) => FromProcess(p) },
         match s.stdout { case InheritOut => Inherited case OutHandle(h) => HandleTie(h) case OutPipe => ToPipe },
         match s.stderr { case InheritErr => Inherited case ErrHandle(h) => HandleTie(h) case ErrStdout => LikeStdout })
  }

  function Launches(events: seq<Event>): seq<View> {
    if events == [] then []
    else
      var e := events[|events| - 1];
      Launches(events[..|events| - 1])
      + match e
        case Launched(_, argv, stdin, stdout, stderr, env, cwd) =>
          [StreamsView(argv, env, cwd, Streams(stdin, stdout, stderr))]
        case _ => []
  }

  lemma {:induction false} LaunchesConcat(a: seq<Event>, b: seq<Event>)
    ensures Launches(a + b) == Launches(a) + Launches(b)
    decreases |b|
  {
    if b == [] {
      assert a + b == a;
    } else {
      assert (a + b)[..|a + b| - 1] == a + b[..|b| - 1];
      LaunchesConcat(a, b[..|b| - 1]);
    }
  }

  lemma {:induction false} WaitsLaunchNothing(procs: seq<nat>)
    ensures Launches(Waits(procs)) == []
    decreases |procs|
  {
    if procs == [] {
    } else {
      WaitsLaunchNothing(procs[..|procs| - 1]);
      LaunchesConcat(Waits(procs[..|procs| - 1]), [Waited(procs[|procs| - 1])]);
    }
  }

  lemma {:induction false} ClosesLaunchNothing(files: seq<Handle>)
    ensures Launches(Closes(files)) == []
    decreases |files|
  {
    if files == [] {
    } else {
      ClosesLaunchNothing(files[..|files| - 1]);
      LaunchesConcat(Closes(files[..|files| - 1]), CloseEvents(files[|files| - 1]));
    }
  }

  lemma GroupEndLaunchesNothing(before: seq<Event>, procs: seq<nat>, files: seq<Handle>, exits: nat -> int)
    ensures Launches(before + GroupEnd(procs, files, exits)) == Launches(before)
  {
    WaitsLaunchNothing(procs);
    ClosesLaunchNothing(files);
    var d := [Decided(GroupStatus(procs, exits))];
    assert Launches(d) == [];
    LaunchesConcat(Waits(procs) + Closes(files), d);
    LaunchesConcat(Waits(procs), Closes(files));
    LaunchesConcat(before, GroupEnd(procs, files, exits));
  }

  lemma {:induction false} NothingLaunched(events: seq<Event>)
    requires forall k :: 0 <= k < |events| ==> !events[k].Launched?
    ensures Launches(events) == []
    decreases |events|
  {
    if events == [] {
    } else {
      NothingLaunched(events[..|events| - 1]);
    }
  }

  lemma OpeningLaunchesNothing(cmd: Node, feeder: Option<nat>, next: nat)
    requires cmd.Command?
    ensures Launches(OpenAll(cmd, feeder, next).events) == []
  {
    OnlyOpens(cmd, feeder, next);
    hide OpenAll, Launches;
    NothingLaunched(OpenAll(cmd, feeder, next).events);
  }

  lemma OnlyOpens(cmd: Node, feeder: Option<nat>, next: nat)
    requires cmd.Command?
    ensures var events := OpenAll(cmd, feeder, next).events;
            forall k :: 0 <= k < |events| ==> events[k].Opened?
  {
    var i := OpenStdin(cmd.stdin, feeder, next);
    var o := OpenStdout(cmd.stdout, i.next);
    var e := OpenStderr(cmd.stderr, o.next);
    assert forall k :: 0 <= k < |i.events| ==> i.events[k].Opened?;
    assert forall k :: 0 <= k < |o.events| ==> o.events[k].Opened?;
    assert forall k :: 0 <= k < |e.events| ==> e.events[k].Opened?;
  }

  /** The streams opened for a command are tied to the files it names. */
  lemma StreamsShowTies(cmd: Node, feeder: Option<nat>, next: nat, dir: string)
    requires cmd.Command?
    ensures StreamsView(cmd.argv, cmd.envVars, if dir == "." then None else Some(dir),
                        OpenAll(cmd, feeder, next).target)
            == ViewOf(Placed(cmd, dir), feeder)
  {
  }

  lemma LaunchShowsView(m: Machine)
    requires MachineOk(m) && m.nodes != [] && m.nodes[0].Command?
    ensures Launches(LaunchEvents(m)) == [ViewOf(Placed(m.nodes[0], m.cwd), Feeder(m))]
  {
    var o := OpenAll(m.nodes[0], Feeder(m), m.fileCount);
    OpeningLaunchesNothing(m.nodes[0], Feeder(m), m.fileCount);
    StreamsShowTies(m.nodes[0], Feeder(m), m.fileCount, m.cwd);
    hide OpenAll, ViewOf, StreamsView;
    var e := LaunchEvent(m.nodes[0], o.target, m.procCount, m.cwd);
    LaunchesConcat(o.events, [e]);
    assert [e][..0] == [];
  }

  // ---- the loop evaluates the groups ----

  /** The machine in the middle of a group whose commands `g` are running already. */
  predicate InGroup(m: Machine, g: seq<Placed>) {
    && AllCommands(g)
    && |g| <= m.procCount
    && m.procs == seq(|g|, k => m.procCount - |g| + k)
    && (m.piping <==> g != [])
  }

  lemma LaunchInGroup(m: Machine, g: seq<Placed>)
    requires InGroup(m, g) && m.nodes != [] && m.nodes[0].Command?
    ensures MachineOk(m)
    ensures var g' := g + [Placed(m.nodes[0], m.cwd)];
            var n := m.procCount - |g|;
            var m1 := AfterLaunch(m);
            && InGroup(m1.(piping := true), g')
            && m1.procCount - |g'| == n
            && m1.nodes == m.nodes[1..] && m1.cwd == m.cwd
            && GroupViews(g', n) == GroupViews(g, n) + Launches(LaunchEvents(m))
            && forall exits :: GroupStatus(m1.procs, exits) == StatusOf(g', n, exits)
  {
    hide OpenAll, LaunchEvents, Launches;
    assert MachineOk(m);
    LaunchShowsView(m);
    var g' := g + [Placed(m.nodes[0], m.cwd)];
    assert g'[..|g|] == g;
  }

  /** The loop launches what the evaluator launches, in order, and ends with its result. */
  lemma {:induction false} LoopEvaluates(m: Machine, g: seq<Placed>, exits: nat -> int)
    requires |m.nodes| % 2 == 1 && PipelineOk(m.nodes) && InGroup(m, g)
    ensures MachineOk(m) && Solid(Grouping(m.nodes, m.cwd, g))
    ensures Matches(g, m.procCount - |g|, RunMachine(m, exits),
                    Eval(Grouping(m.nodes, m.cwd, g), exits, m.procCount - |g|))
    decreases |m.nodes|
  {
    GroupingSolid(m.nodes, m.cwd, g);
    if m.nodes[0].Chdir? {
      ChdirEvaluates(m, g, exits);
    } else {
      CommandEvaluates(m, g, exits);
    }
  }

  lemma {:induction false} ChdirEvaluates(m: Machine, g: seq<Placed>, exits: nat -> int)
    requires |m.nodes| % 2 == 1 && PipelineOk(m.nodes) && InGroup(m, g) && m.nodes[0].Chdir?
    ensures MachineOk(m) && Solid(Grouping(m.nodes, m.cwd, g))
    ensures Matches(g, m.procCount - |g|, RunMachine(m, exits),
                    Eval(Grouping(m.nodes, m.cwd, g), exits, m.procCount - |g|))
    decreases |m.nodes|, 0
  {
    hide GroupViews, CommandOk, JoinPath;
    GroupingSolid(m.nodes, m.cwd, g);
    var n: nat := m.procCount - |g|;
    assert GroupViews(g, n) + [] == GroupViews(g, n);
    if |m.nodes| == 1 || m.nodes[0].dir.None? {
    } else {
      LoopEvaluates(m.(nodes := m.nodes[2..], cwd := JoinPath(m.cwd, m.nodes[0].dir.value)), g, exits);
    }
  }

  /** `r` is what `RunMachine` gives and `v` what the evaluator gives for the group begun with `g`. */
  ghost predicate Matches(g: seq<Placed>, n: nat, r: (seq<Event>, RunResult), v: (seq<View>, RunResult))
    requires AllCommands(g)
  {
    GroupViews(g, n) + Launches(r.0) == v.0 && r.1 == v.1
  }

  lemma MatchesEnd(g: seq<Placed>, g': seq<Placed>, n: nat, done: seq<Event>, m1: Machine, exits: nat -> int)
    requires AllCommands(g) && AllCommands(g') && g' != []
    requires GroupViews(g', n) == GroupViews(g, n) + Launches(done)
    requires GroupStatus(m1.procs, exits) == StatusOf(g', n, exits)
    ensures Matches(g, n, (done + GroupEnd(m1.procs, m1.files, exits), Status(GroupStatus(m1.procs, exits))),
                    (GroupViews(g', n), Status(StatusOf(g', n, exits))))
  {
    GroupEndLaunchesNothing(done, m1.procs, m1.files, exits);
  }

  lemma MatchesPipe(g: seq<Placed>, g': seq<Placed>, n: nat, done: seq<Event>,
                    r: (seq<Event>, RunResult), v: (seq<View>, RunResult))
    requires AllCommands(g) && AllCommands(g') && GroupViews(g', n) == GroupViews(g, n) + Launches(done)
    requires Matches(g', n, r, v)
    ensures Matches(g, n, (done + r.0, r.1), v)
  {
    hide GroupViews, Launches;
    LaunchesConcat(done, r.0);
    assert GroupViews(g, n) + (Launches(done) + Launches(r.0)) == GroupViews(g, n) + Launches(done) + Launches(r.0);
  }

  lemma MatchesNext(g: seq<Placed>, g': seq<Placed>, n: nat, n': nat, done: seq<Event>, m1: Machine, exits: nat -> int,
                    r: (seq<Event>, RunResult), v: (seq<View>, RunResult))
    requires AllCommands(g) && AllCommands(g') && GroupViews(g', n) == GroupViews(g, n) + Launches(done)
    requires Matches([], n', r, v)
    ensures Matches(g, n, (done + GroupEnd(m1.procs, m1.files, exits) + r.0, r.1), (GroupViews(g', n) + v.0, v.1))
  {
    hide GroupViews, Launches, GroupEnd;
    NoViews(n');
    var ended := done + GroupEnd(m1.procs, m1.files, exits);
    GroupEndLaunchesNothing(done, m1.procs, m1.files, exits);
    LaunchesConcat(ended, r.0);
    assert GroupViews([], n') + Launches(r.0) == Launches(r.0);
    assert GroupViews(g, n) + (Launches(ended) + Launches(r.0)) == GroupViews(g, n) + Launches(ended) + Launches(r.0);
  }

  lemma {:induction false} CommandEvaluates(m: Machine, g: seq<Placed>, exits: nat -> int)
    requires |m.nodes| % 2 == 1 && PipelineOk(m.nodes) && InGroup(m, g) && m.nodes[0].Command?
    ensures MachineOk(m) && Solid(Grouping(m.nodes, m.cwd, g))
    ensures Matches(g, m.procCount - |g|, RunMachine(m, exits),
                    Eval(Grouping(m.nodes, m.cwd, g), exits, m.procCount - |g|))
    decreases |m.nodes|, 0
  {
    hide GroupViews, CommandOk, LaunchEvents, AfterLaunch, GroupEnd, Launches, GroupStatus, StatusOf, Matches;
    GroupingSolid(m.nodes, m.cwd, g);
    LaunchInGroup(m, g);
    var n: nat := m.procCount - |g|;
    var g' := g + [Placed(m.nodes[0], m.cwd)];
    var m1, done := AfterLaunch(m), LaunchEvents(m);
    var status := GroupStatus(m1.procs, exits);
    assert status == StatusOf(g', n, exits);
    if |m.nodes| > 1 && IsOp(m.nodes[1], Pipe) {
      assert m1.nodes[1..] == m.nodes[2..];
      var m2 := m1.(nodes := m1.nodes[1..], piping := true);
      LoopEvaluates(m2, g', exits);
      MatchesPipe(g, g', n, done, RunMachine(m2, exits), Eval(Grouping(m2.nodes, m2.cwd, g'), exits, n));
    } else if |m.nodes| > 1 && IsOp(m.nodes[1], And) == (status == 0) {
      assert m1.nodes[1..] == m.nodes[2..];
      var m2 := NextGroup(m1);
      LoopEvaluates(m2, [], exits);
      MatchesNext(g, g', n, m2.procCount, done, m1, exits, RunMachine(m2, exits),
                  Eval(Grouping(m2.nodes, m2.cwd, []), exits, m2.procCount));
    } else {
      MatchesEnd(g, g', n, done, m1, exits);
    }
  }

  lemma NoViews(n: nat)
    ensures GroupViews([], n) == []
  {
  }

  /**
   * Running a parsed pipeline returns the status and launches the commands, in order, in their directories and with
   * their pipes, that the right-associated evaluator says.
   */
  lemma RunIsEval(tokens: seq<string>, nodes: seq<Node>, exits: nat -> int, fileCount: nat, procCount: nat)
    requires Parse(tokens) == Some(nodes)
    ensures |nodes| % 2 == 1 && Solid(Grouping(nodes, ".", []))
    ensures var r := RunMachine(Start(nodes, fileCount, procCount), exits);
            (Launches(r.0), r.1) == Eval(Grouping(nodes, ".", []), exits, procCount)
  {
    hide RunMachine, Eval, Grouping, Parse, PipelineOk, Solid, Launches;
    ParsedPipelines(nodes);
    OddLength(nodes);
    LoopEvaluates(Start(nodes, fileCount, procCount), [], exits);
    NoViews(procCount);
    assert [] + Launches(RunMachine(Start(nodes, fileCount, procCount), exits).0)
        == Launches(RunMachine(Start(nodes, fileCount, procCount), exits).0);
  }
}
