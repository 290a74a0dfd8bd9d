/** What `Pipeline.run` leaves running or open, and the pipelines for which it can leave anything. */
module ShellLeftovers {
  import opened Options
  import opened ShellParse
  import opened ShellCanon
  import opened ShellRun
  import opened ShellEval
  import opened ShellList
  import opened ShellFiles

  /** The processes of the group that an error interrupts; `running` are those started for the present group. */
  function Unwaited(nodes: seq<Node>, running: set<nat>, exits: nat -> int, n: nat): set<nat>
    requires PipelineOk(nodes)
    decreases |nodes|
  {
    if nodes[0].Chdir? then
      if |nodes| == 1 || nodes[0].dir.None? then running else Unwaited(nodes[2..], running, exits, n)
    else if |nodes| == 1 then {}
    else if nodes[1].op.Pipe? then Unwaited(nodes[2..], running + {n}, exits, n + 1)
    else if Proceeds(nodes[1].op, exits(n)) then Unwaited(nodes[2..], {}, exits, n + 1)
    else {}
  }

  /** Nothing is open and every process has been waited for. */
  predicate Tidy(events: seq<Event>) {
    var end := Audit(EMPTY, events);
    end.ok && end.open == {} && end.running == {}
  }

  /** The machine after a pipe, or in front of a group. */
  ghost predicate Between(l: Ledger, m: Machine) {
    && Linked(l, m) && PipelineOk(m.nodes)
    && (m.piping <==> m.procs != []) && (m.procs == [] ==> m.files == [])
  }

  ghost predicate Leaves(l: Ledger, m: Machine, exits: nat -> int)
    requires MachineOk(m) && PipelineOk(m.nodes)
  {
    var end := Audit(l, RunMachine(m, exits).0);
    && end.running == Unwaited(m.nodes, l.running, exits, m.procCount)
    && (end.running == {} ==> end.open == {})
  }

  lemma {:induction false} LoopLeaves(l: Ledger, m: Machine, exits: nat -> int)
    requires Between(l, m)
    ensures Leaves(l, m, exits)
    decreases |m.nodes|
  {
    if m.nodes[0].Chdir? {
      ChdirLeaves(l, m, exits);
    } else {
      CommandLeaves(l, m, exits);
    }
  }

  lemma {:induction false} ChdirLeaves(l: Ledger, m: Machine, exits: nat -> int)
    requires Between(l, m) && m.nodes[0].Chdir?
    ensures Leaves(l, m, exits)
    decreases |m.nodes|, 0
  {
    hide CommandOk, JoinPath;
    if |m.nodes| == 1 || m.nodes[0].dir.None? {
      assert l.running == {} ==> m.procs == [] by {
        if m.procs != [] {
          assert m.procs[0] in l.running;
        }
      }
    } else {
      LoopLeaves(l, m.(nodes := m.nodes[2..], cwd := JoinPath(m.cwd, m.nodes[0].dir.value)), exits);
    }
  }

  lemma {:induction false} CommandLeaves(l: Ledger, m: Machine, exits: nat -> int)
    requires Between(l, m) && m.nodes[0].Command?
    ensures Leaves(l, m, exits)
    decreases |m.nodes|, 0
  {
    hide RunMachine, AfterLaunch, LaunchEvents, GroupEnd, Audit, Linked, CommandOk;
    LinkedIsOk(l, m);
    var m1, done := AfterLaunch(m), LaunchEvents(m);
    var ends := GroupEnd(m1.procs, m1.files, exits);
    var l1, l2 := Audit(l, done), Audit(l, done + ends);
    LaunchStaysLinked(l, m);
    LaunchStarts(l, m);
    GroupEndSettles(l1, m1, exits);
    AuditConcat(l, done, ends);
    CommandRound([], m, exits);
    EmptyRound([], m, exits);
    assert [] + done == done;
    var r := RunMachine(m, exits);
    assert [] + r.0 == r.0;
    if m1.nodes == [] || !(m1.nodes[0].op.Pipe? || Proceeds(m1.nodes[0].op, exits(m.procCount))) {
      assert r.0 == done + ends;
    } else if m1.nodes[0].op.Pipe? {
      var m2 := m1.(nodes := m1.nodes[1..], piping := true);
      assert m2.nodes == m.nodes[2..];
      StillLinked(l1, m1, m1.nodes[1..]);
      LoopLeaves(l1, m2, exits);
      AuditConcat(l, done, RunMachine(m2, exits).0);
      assert r.0 == done + RunMachine(m2, exits).0;
    } else {
      var m2 := NextGroup(m1);
      assert m2.nodes == m.nodes[2..];
      EmptyGroupLinked(l1, m1);
      LoopLeaves(l2, m2, exits);
      AuditConcat(l, done + ends, RunMachine(m2, exits).0);
      assert r.0 == done + ends + RunMachine(m2, exits).0;
    }
  }

  lemma LaunchStarts(l: Ledger, m: Machine)
    requires Linked(l, m) && m.nodes != [] && m.nodes[0].Command?
    ensures MachineOk(m)
    ensures AfterLaunch(m).nodes == m.nodes[1..] && AfterLaunch(m).procCount == m.procCount + 1
    ensures AfterLaunch(m).procs == m.procs + [m.procCount]
    ensures Audit(l, LaunchEvents(m)).running == l.running + {m.procCount}
  {
    hide Audit, OpenAll;
    LaunchStaysLinked(l, m);
    var p := AfterLaunch(m).procs;
    assert (set q | q in p) == (set q | q in m.procs) + {m.procCount};
  }

  /** What `run` leaves running on an accepted pipeline; and with nothing running, nothing is open. */
  lemma RunLeaves(tokens: seq<string>, nodes: seq<Node>, exits: nat -> int, fileCount: nat, procCount: nat)
    requires Parse(tokens) == Some(nodes)
    ensures PipelineOk(nodes)
    ensures var events := RunMachine(Start(nodes, fileCount, procCount), exits).0;
            && Audit(EMPTY, events).running == Unwaited(nodes, {}, exits, procCount)
            && (Tidy(events) <==> Unwaited(nodes, {}, exits, procCount) == {})
  {
    hide Parse, PipelineOk, RunMachine, Audit;
    ParsedPipelines(nodes);
    assert FilesOf([]) == {} && DistinctFiles([]) && DistinctProcs([]);
    LoopLeaves(EMPTY, Start(nodes, fileCount, procCount), exits);
    RunIsOrderly(nodes, exits, fileCount, procCount);
  }

  // ---- when anything is left ----

  /**
   * The first directory change that stands last or lacks its directory stands in a group that has a command already:
   * going back from it over other directory changes leads to a pipe.
   */
  predicate Strands(nodes: seq<Node>, piped: bool)
    requires PipelineOk(nodes)
    decreases |nodes|
  {
    if nodes[0].Chdir? && (|nodes| == 1 || nodes[0].dir.None?) then piped
    else |nodes| > 1 && Strands(nodes[2..], if nodes[0].Chdir? then piped else nodes[1].op.Pipe?)
  }

  lemma {:induction false} LeftOnlyIfStranded(nodes: seq<Node>, running: set<nat>, exits: nat -> int, n: nat)
    requires PipelineOk(nodes)
    ensures Unwaited(nodes, running, exits, n) != {} ==> Strands(nodes, running != {})
    ensures GoesOn(nodes, n, exits) && Strands(nodes, running != {}) ==> Unwaited(nodes, running, exits, n) != {}
    decreases |nodes|
  {
    hide CommandOk, GoesOn, Onward;
    if |nodes| == 1 || nodes[0] == Chdir(None) {
    } else {
      if GoesOn(nodes, n, exits) {
        GoesOnStep(nodes, n, exits);
      }
      var tail := nodes[2..];
      if nodes[0].Chdir? {
        LeftOnlyIfStranded(tail, running, exits, n);
      } else if nodes[1].op.Pipe? {
        assert n in running + {n};
        LeftOnlyIfStranded(tail, running + {n}, exits, n + 1);
      } else {
        LeftOnlyIfStranded(tail, {}, exits, n + 1);
      }
    }
  }

  /**
   * For all exit codes each file `run` opens is closed and each process it starts is waited for, if and only if the
   * pipeline strands no group.
   */
  lemma RunIsTidyIff(tokens: seq<string>, nodes: seq<Node>, fileCount: nat, procCount: nat)
    requires Parse(tokens) == Some(nodes)
    ensures PipelineOk(nodes)
    ensures (forall exits: nat -> int :: Tidy(RunMachine(Start(nodes, fileCount, procCount), exits).0))
            <==> !Strands(nodes, false)
  {
    hide Parse, PipelineOk, RunMachine, Tidy, Strands, Onward, Unwaited, Audit;
    ParsedPipelines(nodes);
    var m := Start(nodes, fileCount, procCount);
    forall exits: nat -> int ensures Tidy(RunMachine(m, exits).0) <==> Unwaited(nodes, {}, exits, procCount) == {} {
      RunLeaves(tokens, nodes, exits, fileCount, procCount);
    }
    forall exits: nat -> int ensures Unwaited(nodes, {}, exits, procCount) != {} ==> Strands(nodes, false) {
      LeftOnlyIfStranded(nodes, {}, exits, procCount);
    }
    var onward: nat -> int := (proc: nat) => Onward(nodes, procCount, proc);
    assert GoesOn(nodes, procCount, onward);
    LeftOnlyIfStranded(nodes, {}, onward, procCount);
    assert Strands(nodes, false) ==> !Tidy(RunMachine(m, onward).0);
  }

  /** `a | cd x`, or `a | cd` with anything behind it, leaves the process of `a` unwaited for, for all exit codes. */
  lemma PipeIntoCdLeavesProcess(a: Node, dir: Option<string>, rest: seq<Node>, exits: nat -> int, f: nat, p: nat)
    requires a.Command? && PipelineOk([a, Op(Pipe), Chdir(dir)] + rest) && (rest == [] || dir == None)
    ensures var r := RunMachine(Start([a, Op(Pipe), Chdir(dir)] + rest, f, p), exits);
            && r.1 == (if rest == [] then IndexError else AttributeError)
            && Audit(EMPTY, r.0).running == {p}
  {
    hide Parse, RunMachine, Audit, NodeOk;
    var nodes := [a, Op(Pipe), Chdir(dir)] + rest;
    ParsedPipelines(nodes);
    var tokens :| Parse(tokens) == Some(nodes);
    var tail := nodes[2..];
    assert nodes[0] == a && nodes[1] == Op(Pipe) && tail[0] == Chdir(dir) && |tail| == 1 + |rest|;
    RunIsList(tokens, nodes, exits, f, p);
    RunLeaves(tokens, nodes, exits, f, p);
    assert RunList(tail, ".", Some(p), exits, p + 1).1 == if rest == [] then IndexError else AttributeError;
    assert Unwaited(tail, {} + {p}, exits, p + 1) == {p};
  }
}
