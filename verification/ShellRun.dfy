/**
 * The loop `Pipeline.run` of shellcmd.py. Processes are reduced to their exit codes, files to numbered handles; what
 * the loop does to them is recorded as a list of events.
 */
module ShellRun {
  import opened Options
  import opened ShellParse

  /** A file object: its number, and the name and mode it was opened with. */
  datatype File = File(id: nat, name: string, writing: bool)

  /** `dev_null` is shared and never opened or closed by `run`. */
  datatype Handle = DevNull | FileHandle(file: File)

  datatype Input = InheritIn | InHandle(h: Handle) | InPipe(proc: nat)
  datatype Output = InheritOut | OutPipe | OutHandle(h: Handle)
  datatype Errors = InheritErr | ErrStdout | ErrHandle(h: Handle)

  /** `Decided` marks the moment the status of a finished pipe group is looked at. */
  datatype Event =
    | Opened(file: File)
    | Launched(proc: nat, argv: seq<string>, stdin: Input, stdout: Output, stderr: Errors,
               env: map<string, string>, cwd: Option<string>)
    | Waited(proc: nat)
    | Closed(file: File)
    | Decided(status: int)

  /** `NoStatus` is falling off the end of the loop, where the source returns None. */
  datatype RunResult = Status(value: int) | NoStatus | IndexError | AssertionError | AttributeError

  /** `os.path.join` on POSIX. */
  function JoinPath(cwd: string, dir: string): string {
    if dir != "" && dir[0] == '/' then dir
    else if cwd == "" || cwd[|cwd| - 1] == '/' then cwd + dir
    else cwd + "/" + dir
  }

  predicate IsDevNull(name: string) {
    name == "NUL:" || name == "/dev/null"
  }

  // ---- what one round of the loop does ----

  /** Where one stream goes, the handles appended to `files_to_close` for it, the events, and the next file number. */
  datatype Stream<T> = Stream(target: T, files: seq<Handle>, events: seq<Event>, next: nat)

  function OpenOut(name: string, next: nat): Stream<Handle> {
    if IsDevNull(name) then Stream(DevNull, [DevNull], [], next)
    else
      var file := File(next, name, true);
      Stream(FileHandle(file), [FileHandle(file)], [Opened(file)], next + 1)
  }

  /** A command fed by a pipe ignores its own input redirection. */
  function OpenStdin(stdin: Option<string>, feeder: Option<nat>, next: nat): Stream<Input> {
    match feeder
    case Some(p) => Stream(InPipe(p), [], [], next)
    case None =>
      match stdin
      case Some(name) =>
        var file := File(next, name, false);
        Stream(InHandle(FileHandle(file)), [FileHandle(file)], [Opened(file)], next + 1)
      case None => Stream(InheritIn, [], [], next)
  }

  function OpenStdout(stdout: Stdout, next: nat): Stream<Output> {
    match stdout
    case DefaultOut => Stream(InheritOut, [], [], next)
    case Piped => Stream(OutPipe, [], [], next)
    case OutFile(name) => var o := OpenOut(name, next); Stream(OutHandle(o.target), o.files, o.events, o.next)
  }

  function OpenStderr(stderr: Stderr, next: nat): Stream<Errors> {
    match stderr
    case DefaultErr => Stream(InheritErr, [], [], next)
    case SameAsStdout => Stream(ErrStdout, [], [], next)
    case ErrFile(name) => var o := OpenOut(name, next); Stream(ErrHandle(o.target), o.files, o.events, o.next)
  }

  datatype Streams = Streams(stdin: Input, stdout: Output, stderr: Errors)

  function OpenAll(cmd: Node, feeder: Option<nat>, next: nat): Stream<Streams>
    requires cmd.Command?
  {
    var i := OpenStdin(cmd.stdin, feeder, next);
    var o := OpenStdout(cmd.stdout, i.next);
    var e := OpenStderr(cmd.stderr, o.next);
    Stream(Streams(i.target, o.target, e.target), i.files + o.files + e.files, i.events + o.events + e.events, e.next)
  }

  function LaunchEvent(cmd: Node, s: Streams, proc: nat, cwd: string): Event
    requires cmd.Command?
  {
    Launched(proc, cmd.argv, s.stdin, s.stdout, s.stderr, cmd.envVars, if cwd == "." then None else Some(cwd))
  }

  /** Events of waiting for the processes of a group in order. */
  function Waits(procs: seq<nat>): seq<Event> {
    if procs == [] then [] else Waits(procs[..|procs| - 1]) + [Waited(procs[|procs| - 1])]
  }

  function CloseEvents(h: Handle): seq<Event> {
    match h
    case FileHandle(file) => [Closed(file)]
    case DevNull => []
  }

  function Closes(files: seq<Handle>): seq<Event> {
    if files == [] then [] else Closes(files[..|files| - 1]) + CloseEvents(files[|files| - 1])
  }

  /** The status of a group is the exit code of its last command. */
  function GroupStatus(procs: seq<nat>, exits: nat -> int): int {
    if procs == [] then 0 else exits(procs[|procs| - 1])
  }

  function GroupEnd(procs: seq<nat>, files: seq<Handle>, exits: nat -> int): seq<Event> {
    Waits(procs) + Closes(files) + [Decided(GroupStatus(procs, exits))]
  }

  // ---- the loop ----

  predicate IsOp(n: Node, op: Operator) {
    n.Op? && n.op == op
  }

  /** The loop's variables, and the numbers of files opened and processes started so far. */
  datatype Machine = Machine(
    nodes: seq<Node>, piping: bool, cwd: string, procs: seq<nat>, files: seq<Handle>, fileCount: nat, procCount: nat)

  predicate MachineOk(m: Machine) {
    m.piping ==> m.procs != []
  }

  function Feeder(m: Machine): Option<nat>
    requires MachineOk(m)
  {
    if m.piping then Some(m.procs[|m.procs| - 1]) else None
  }

  /** The machine after launching its first node, a command, that node removed. */
  function AfterLaunch(m: Machine): (r: Machine)
    requires MachineOk(m) && m.nodes != [] && m.nodes[0].Command?
    ensures r.procs != [] && |r.nodes| == |m.nodes| - 1
  {
    var o := OpenAll(m.nodes[0], Feeder(m), m.fileCount);
    m.(nodes := m.nodes[1..], procs := m.procs + [m.procCount], files := m.files + o.files,
       fileCount := o.next, procCount := m.procCount + 1)
  }

  function LaunchEvents(m: Machine): seq<Event>
    requires MachineOk(m) && m.nodes != [] && m.nodes[0].Command?
  {
    var o := OpenAll(m.nodes[0], Feeder(m), m.fileCount);
    o.events + [LaunchEvent(m.nodes[0], o.target, m.procCount, m.cwd)]
  }

  function NextGroup(m: Machine): Machine
    requires m.nodes != []
  {
    m.(nodes := m.nodes[1..], piping := false, procs := [], files := [])
  }

  function RunMachine(m: Machine, exits: nat -> int): (seq<Event>, RunResult)
    requires MachineOk(m)
    decreases |m.nodes|
  {
    if m.nodes == [] then ([], NoStatus)
    else if m.nodes[0].Chdir? then
      if |m.nodes| == 1 then ([], IndexError)
      else if !IsOp(m.nodes[1], And) then ([], RunResult.AssertionError)
      else if m.nodes[0].dir.None? then ([], AttributeError)
      else RunMachine(m.(nodes := m.nodes[2..], cwd := JoinPath(m.cwd, m.nodes[0].dir.value)), exits)
    else if !m.nodes[0].Command? then ([], RunResult.AssertionError)
    else
      var m1 := AfterLaunch(m);
      var done := LaunchEvents(m);
      var status := GroupStatus(m1.procs, exits);
      var ended := done + GroupEnd(m1.procs, m1.files, exits);
      if m1.nodes == [] then (ended, Status(status))
      else if m1.nodes[0].Op? then
        if IsOp(m1.nodes[0], Pipe) then
          var r := RunMachine(m1.(nodes := m1.nodes[1..], piping := true), exits);
          (done + r.0, r.1)
        else if IsOp(m1.nodes[0], And) == (status == 0) then
          var r := RunMachine(NextGroup(m1), exits);
          (ended + r.0, r.1)
        else (ended, Status(status))
      else
        var r := RunMachine(m1.(nodes := m1.nodes[1..]), exits);
        (done + r.0, r.1)
  }

  function Start(nodes: seq<Node>, fileCount: nat, procCount: nat): Machine {
    Machine(nodes, false, ".", [], [], fileCount, procCount)
  }

  // ---- the order of events ----

  /** The file a command opens for one stream, if any. */
  function OpensFile(wanted: bool, name: string, writing: bool, next: nat): seq<Event> {
    if wanted && !(writing && name in {"NUL:", "/dev/null"}) then [Opened(File(next, name, writing))] else []
  }

  /** Input, unless a pipe feeds the command, then output, then errors. */
  lemma OpensInOrder(cmd: Node, feeder: Option<nat>, next: nat)
    requires cmd.Command?
    ensures var i := OpensFile(cmd.stdin.Some? && feeder.None?, cmd.stdin.GetOr(""), false, next);
            var out := if cmd.stdout.OutFile? then cmd.stdout.name else "";
            var o := OpensFile(cmd.stdout.OutFile?, out, true, next + |i|);
            var err := if cmd.stderr.ErrFile? then cmd.stderr.name else "";
            var e := OpensFile(cmd.stderr.ErrFile?, err, true, next + |i| + |o|);
            && OpenAll(cmd, feeder, next).events == i + o + e
            && OpenAll(cmd, feeder, next).next == next + |i| + |o| + |e|
  {
  }

  lemma {:induction false} WaitsInOrder(procs: seq<nat>)
    ensures |Waits(procs)| == |procs| && forall k :: 0 <= k < |procs| ==> Waits(procs)[k] == Waited(procs[k])
    decreases |procs|
  {
    if procs == [] {
    } else {
      WaitsInOrder(procs[..|procs| - 1]);
    }
  }

  lemma CloseOne(h: Handle)
    ensures Closes([h]) == CloseEvents(h) == if h.FileHandle? then [Closed(h.file)] else []
  {
    assert [h][..0] == [];
    assert [] + CloseEvents(h) == CloseEvents(h);
  }

  lemma {:induction false} ClosesInOrder(a: seq<Handle>, b: seq<Handle>)
    ensures Closes(a + b) == Closes(a) + Closes(b)
    decreases |b|
  {
    hide CloseEvents;
    if b == [] {
      assert a + b == a;
    } else {
      var n := |b| - 1;
      assert (a + b)[..|a| + n] == a + b[..n];
      ClosesInOrder(a, b[..n]);
    }
  }

  lemma {:induction false} OnlyCloses(files: seq<Handle>)
    ensures forall k :: 0 <= k < |Closes(files)| ==> Closes(files)[k].Closed?
    decreases |files|
  {
    if files == [] {
    } else {
      OnlyCloses(files[..|files| - 1]);
    }
  }

  /** A group ends with all waits, then all closes, then the look at its status. */
  lemma GroupEndInOrder(procs: seq<nat>, files: seq<Handle>, exits: nat -> int)
    ensures var events := GroupEnd(procs, files, exits);
            && (forall i :: 0 <= i < |events| ==> (events[i].Decided? <==> i == |events| - 1))
            && (forall i, j :: 0 <= i < j < |events| && events[j].Waited? ==> events[i].Waited?)
            && events[|events| - 1] == Decided(if procs == [] then 0 else exits(procs[|procs| - 1]))
  {
    WaitsInOrder(procs);
    OnlyCloses(files);
    hide Waits, Closes;
  }

  // ---- one round at a time ----

  /** All events and the result, when `before` has happened already. */
  ghost function Outcome(before: seq<Event>, m: Machine, exits: nat -> int): (seq<Event>, RunResult)
    requires MachineOk(m)
  {
    var r := RunMachine(m, exits);
    (before + r.0, r.1)
  }

  lemma EmptyRound(before: seq<Event>, m: Machine, exits: nat -> int)
    requires MachineOk(m)
    ensures Outcome(before, m, exits) == (before + RunMachine(m, exits).0, RunMachine(m, exits).1)
    ensures m.nodes == [] ==> Outcome(before, m, exits) == (before, NoStatus)
    ensures m.nodes != [] && m.nodes[0].Op? ==> Outcome(before, m, exits) == (before, RunResult.AssertionError)
  {
    assert before + [] == before;
  }

  lemma ChdirRound(before: seq<Event>, m: Machine, exits: nat -> int)
    requires MachineOk(m) && m.nodes != [] && m.nodes[0].Chdir?
    ensures Outcome(before, m, exits) ==
            if |m.nodes| == 1 then (before, IndexError)
            else if !IsOp(m.nodes[1], And) then (before, RunResult.AssertionError)
            else if m.nodes[0].dir.None? then (before, AttributeError)
            else Outcome(before, m.(nodes := m.nodes[2..], cwd := JoinPath(m.cwd, m.nodes[0].dir.value)), exits)
  {
    assert before + [] == before;
  }

  lemma LaunchRound(m: Machine)
    requires MachineOk(m) && m.nodes != [] && m.nodes[0].Command?
    ensures var o := OpenAll(m.nodes[0], Feeder(m), m.fileCount);
            && AfterLaunch(m) == Machine(m.nodes[1..], m.piping, m.cwd, m.procs + [m.procCount], m.files + o.files,
                                         o.next, m.procCount + 1)
            && LaunchEvents(m) == o.events + [LaunchEvent(m.nodes[0], o.target, m.procCount, m.cwd)]
  {
  }

  lemma CommandRound(before: seq<Event>, m: Machine, exits: nat -> int)
    requires MachineOk(m) && m.nodes != [] && m.nodes[0].Command?
    ensures var m1 := AfterLaunch(m);
            var done := before + LaunchEvents(m);
            var ended := done + GroupEnd(m1.procs, m1.files, exits);
            var status := GroupStatus(m1.procs, exits);
            Outcome(before, m, exits) ==
            if m1.nodes == [] then (ended, Status(status))
            else if IsOp(m1.nodes[0], Pipe) then Outcome(done, m1.(nodes := m1.nodes[1..], piping := true), exits)
            else if m1.nodes[0].Op? then
              if IsOp(m1.nodes[0], And) == (status == 0) then Outcome(ended, NextGroup(m1), exits)
              else (ended, Status(status))
            else Outcome(done, m1.(nodes := m1.nodes[1..]), exits)
  {
    hide OpenAll, GroupEnd, LaunchEvents, AfterLaunch, GroupStatus;
    var m1 := AfterLaunch(m);
    var done := LaunchEvents(m);
    var ends := GroupEnd(m1.procs, m1.files, exits);
    assert before + (done + ends) == before + done + ends;
    if m1.nodes != [] && m1.nodes[0].Op? && !m1.nodes[0].op.Pipe? {
      var r := RunMachine(NextGroup(m1), exits);
      assert before + ((done + ends) + r.0) == (before + done + ends) + r.0;
    } else if m1.nodes != [] {
      var r := RunMachine(m1.(nodes := m1.nodes[1..], piping := m1.piping || m1.nodes[0].Op?), exits);
      assert before + (done + r.0) == (before + done) + r.0;
    }
  }

  // ---- the imperative loop ----

  /** The operating system: it numbers files and processes and fixes the exit code of each process. */
  class World {
    const exits: nat -> int
    var events: seq<Event>
    var fileCount: nat
    var procCount: nat

    constructor (exits: nat -> int)
      ensures this.exits == exits && events == [] && fileCount == 0 && procCount == 0
    {
      this.exits := exits;
      events, fileCount, procCount := [], 0, 0;
    }

    method OpenFile(name: string, writing: bool) returns (h: Handle)
      modifies this
      ensures h == FileHandle(File(old(fileCount), name, writing))
      ensures fileCount == old(fileCount) + 1 && procCount == old(procCount)
      ensures events == old(events) + [Opened(h.file)]
    {
      h := FileHandle(File(fileCount, name, writing));
      events := events + [Opened(h.file)];
      fileCount := fileCount + 1;
    }

    /** `_open_out_file` */
    method OpenOutFile(name: string) returns (h: Handle)
      modifies this
      ensures var o := OpenOut(name, old(fileCount));
              h == o.target && [h] == o.files && events == old(events) + o.events && fileCount == o.next
      ensures procCount == old(procCount)
    {
      if IsDevNull(name) {
        h := DevNull;
      } else {
        h := OpenFile(name, true);
      }
    }

    method OpenInput(stdin: Option<string>, state: bool, pipedCommands: seq<nat>)
      returns (target: Input, files: seq<Handle>)
      requires state ==> pipedCommands != []
      modifies this
      ensures var feeder := if state then Some(pipedCommands[|pipedCommands| - 1]) else None;
              var o := OpenStdin(stdin, feeder, old(fileCount));
              target == o.target && files == o.files && events == old(events) + o.events && fileCount == o.next
      ensures procCount == old(procCount)
    {
      if state {
        target, files := InPipe(pipedCommands[|pipedCommands| - 1]), [];
      } else if stdin.Some? {
        var h := OpenFile(stdin.value, false);
        target, files := InHandle(h), [h];
      } else {
        target, files := InheritIn, [];
      }
    }

    method OpenOutput(stdout: Stdout) returns (target: Output, files: seq<Handle>)
      modifies this
      ensures var o := OpenStdout(stdout, old(fileCount));
              target == o.target && files == o.files && events == old(events) + o.events && fileCount == o.next
      ensures procCount == old(procCount)
    {
      match stdout
      case DefaultOut => target, files := InheritOut, [];
      case Piped => target, files := OutPipe, [];
      case OutFile(name) =>
        var h := OpenOutFile(name);
        target, files := OutHandle(h), [h];
    }

    method OpenErrors(stderr: Stderr) returns (target: Errors, files: seq<Handle>)
      modifies this
      ensures var o := OpenStderr(stderr, old(fileCount));
              target == o.target && files == o.files && events == old(events) + o.events && fileCount == o.next
      ensures procCount == old(procCount)
    {
      match stderr
      case DefaultErr => target, files := InheritErr, [];
      case SameAsStdout => target, files := ErrStdout, [];
      case ErrFile(name) =>
        var h := OpenOutFile(name);
        target, files := ErrHandle(h), [h];
    }

    method Launch(argv: seq<string>, stdin: Input, stdout: Output, stderr: Errors, env: map<string, string>,
                  cwd: Option<string>) returns (proc: nat)
      modifies this
      ensures proc == old(procCount) && procCount == old(procCount) + 1 && fileCount == old(fileCount)
      ensures events == old(events) + [Launched(proc, argv, stdin, stdout, stderr, env, cwd)]
    {
      proc := procCount;
      events := events + [Launched(proc, argv, stdin, stdout, stderr, env, cwd)];
      procCount := procCount + 1;
    }

    method Wait(proc: nat) returns (code: int)
      modifies this`events
      ensures code == exits(proc) && events == old(events) + [Waited(proc)]
    {
      code := exits(proc);
      events := events + [Waited(proc)];
    }

    method Close(h: Handle)
      modifies this`events
      ensures events == old(events) + CloseEvents(h)
    {
      if h != DevNull {
        events := events + [Closed(h.file)];
      }
    }

    method Decide(status: int)
      modifies this`events
      ensures events == old(events) + [Decided(status)]
    {
      events := events + [Decided(status)];
    }

    /** `_exec_piped_commands`: all are waited for; the loop over the exit codes amounts to taking the last one. */
    method ExecPipedCommands(commands: seq<nat>) returns (retval: int)
      modifies this`events
      ensures retval == GroupStatus(commands, exits) && events == old(events) + Waits(commands)
    {
      var retvals: seq<int> := [];
      for i := 0 to |commands|
        invariant |retvals| == i && forall j :: 0 <= j < i ==> retvals[j] == exits(commands[j])
        invariant events == old(events) + Waits(commands[..i])
      {
        assert commands[..i + 1][..i] == commands[..i];
        var code := Wait(commands[i]);
        retvals := retvals + [code];
      }
      assert commands[..|commands|] == commands;
      retval := 0;
      for i := 0 to |retvals|
        invariant retval == 0 && forall j :: 0 <= j < i ==> retvals[j] == 0
      {
        if retvals[i] != 0 {
          retval := retvals[|retvals| - 1];
          break;
        }
      }
    }

    method CloseAll(files: seq<Handle>)
      modifies this`events
      ensures events == old(events) + Closes(files)
    {
      for i := 0 to |files|
        invariant events == old(events) + Closes(files[..i])
      {
        assert files[..i + 1][..i] == files[..i];
        Close(files[i]);
      }
      assert files[..|files|] == files;
    }

    /** Wait, close, and look at the status. */
    method FinishGroup(commands: seq<nat>, files: seq<Handle>) returns (retval: int)
      modifies this`events
      ensures retval == GroupStatus(commands, exits)
      ensures events == old(events) + GroupEnd(commands, files, exits)
    {
      retval := ExecPipedCommands(commands);
      CloseAll(files);
      Decide(retval);
    }

    /** Opens a command's files and launches it. */
    method LaunchCommand(cmd: Node, state: bool, pipedCommands: seq<nat>, cwd: string)
      returns (proc: nat, files: seq<Handle>)
      requires cmd.Command? && (state ==> pipedCommands != [])
      modifies this
      ensures var feeder := if state then Some(pipedCommands[|pipedCommands| - 1]) else None;
              var o := OpenAll(cmd, feeder, old(fileCount));
              && proc == old(procCount) && files == o.files
              && fileCount == o.next && procCount == old(procCount) + 1
              && events == old(events) + (o.events + [LaunchEvent(cmd, o.target, old(procCount), cwd)])
    {
      hide OpenStdin, OpenStdout, OpenStderr;
      var stdin, f0 := OpenInput(cmd.stdin, state, pipedCommands);
      var stdout, f1 := OpenOutput(cmd.stdout);
      var stderr, f2 := OpenErrors(cmd.stderr);
      files := f0 + f1 + f2;
      proc := Launch(cmd.argv, stdin, stdout, stderr, cmd.envVars, if cwd == "." then None else Some(cwd));
    }

    /** Launches a command and appends it and its files to the group. */
    method LaunchNext(ghost m: Machine, cmd: Node, state: bool, cwd: string, procs: seq<nat>, files: seq<Handle>)
      returns (pipedCommands: seq<nat>, filesToClose: seq<Handle>)
      requires MachineOk(m) && m.nodes != [] && m.nodes[0] == cmd && cmd.Command?
      requires m == Machine(m.nodes, state, cwd, procs, files, fileCount, procCount)
      modifies this
      ensures AfterLaunch(m) == Machine(m.nodes[1..], state, cwd, pipedCommands, filesToClose, fileCount, procCount)
      ensures events == old(events) + LaunchEvents(m)
    {
      hide OpenAll, LaunchEvent;
      LaunchRound(m);
      var proc, opening := LaunchCommand(cmd, state, procs, cwd);
      filesToClose := files + opening;
      pipedCommands := procs + [proc];
    }
  }

  /** `run` does to the world what the machine does, and leaves the pipeline as it is. */
  method Run(p: Pipeline, w: World) returns (r: RunResult)
    modifies w
    ensures var spec := RunMachine(Start(p.pipeline, old(w.fileCount), old(w.procCount)), w.exits);
            w.events == old(w.events) + spec.0 && r == spec.1
  {
    EmptyRound(w.events, Start(p.pipeline, w.fileCount, w.procCount), w.exits);
    hide OpenAll, GroupEnd, GroupStatus, LaunchEvent, LaunchEvents, AfterLaunch, JoinPath, RunMachine, Outcome;
    var pipeline := p.pipeline;
    var filesToClose: seq<Handle> := [];
    var pipedCommands: seq<nat> := [];
    var piping := false;
    var cwd := ".";
    while pipeline != []
      invariant piping ==> pipedCommands != []
      invariant Outcome(old(w.events), Start(p.pipeline, old(w.fileCount), old(w.procCount)), w.exits)
             == Outcome(w.events,
                         Machine(pipeline, piping, cwd, pipedCommands, filesToClose, w.fileCount, w.procCount), w.exits)
      decreases |pipeline|
    {
      ghost var m := Machine(pipeline, piping, cwd, pipedCommands, filesToClose, w.fileCount, w.procCount);
      EmptyRound(w.events, m, w.exits);
      var node := pipeline[0];
      pipeline := pipeline[1..];
      if node.Chdir? {
        ChdirRound(w.events, m, w.exits);
        if pipeline == [] {
          return IndexError;
        }
        var nextOp := pipeline[0];
        pipeline := pipeline[1..];
        if !IsOp(nextOp, And) {
          return RunResult.AssertionError;
        }
        if node.dir.None? {
          return AttributeError;
        }
        cwd := JoinPath(cwd, node.dir.value);
        continue;
      }
      if !node.Command? {
        return RunResult.AssertionError;
      }
      CommandRound(w.events, m, w.exits);
      pipedCommands, filesToClose := w.LaunchNext(m, node, piping, cwd, pipedCommands, filesToClose);
      if pipeline == [] {
        var retval := w.FinishGroup(pipedCommands, filesToClose);
        return Status(retval);
      }
      var nextNode := pipeline[0];
      pipeline := pipeline[1..];
      if IsOp(nextNode, Pipe) {
        piping := true;
      } else if IsOp(nextNode, Or) {
        var thisRetval := w.FinishGroup(pipedCommands, filesToClose);
        filesToClose := [];
        if thisRetval == 0 {
          return Status(thisRetval);
        }
        piping := false;
        pipedCommands := [];
      } else if IsOp(nextNode, And) {
        var thisRetval := w.FinishGroup(pipedCommands, filesToClose);
        filesToClose := [];
        if thisRetval != 0 {
          return Status(thisRetval);
        }
        piping := false;
        pipedCommands := [];
      }
    }
    EmptyRound(w.events, Machine([], piping, cwd, pipedCommands, filesToClose, w.fileCount, w.procCount), w.exits);
    return NoStatus;
  }
}
