/**
 * A parsed pipeline evaluated element by element, which is what `run` comes to; and the errors it can end in, read off
 * the pipeline before the call.
 */
module ShellList {
  import opened Options
  import opened ShellParse
  import opened ShellCanon
  import opened ShellRun
  import opened ShellEval

  /**
   * `n` processes have been launched, `feeder` feeds the next one. A directory change lasts to the end of the run, and
   * an operator that short-circuits ends everything.
   */
  function RunList(nodes: seq<Node>, dir: string, feeder: Option<nat>, exits: nat -> int, n: nat)
    : (seq<View>, RunResult)
    requires PipelineOk(nodes)
    decreases |nodes|
  {
    var node := nodes[0];
    match node
    case Chdir(to) =>
      if |nodes| == 1 then ([], IndexError)
      else if to.None? then ([], AttributeError)
      else RunList(nodes[2..], JoinPath(dir, to.value), feeder, exits, n)
    case Command(_, _, _, _, _, _) =>
      var view := ViewOf(Placed(node, dir), feeder);
      if |nodes| == 1 then ([view], Status(exits(n)))
      else
        var op := nodes[1].op;
        if op.Pipe? || Proceeds(op, exits(n)) then
          var r := RunList(nodes[2..], dir, if op.Pipe? then Some(n) else None, exits, n + 1);
          ([view] + r.0, r.1)
        else ([view], Status(exits(n)))
  }

  /** The process whose output the next command of a group reads. */
  function LastOf(g: seq<Placed>, n: nat): Option<nat>
    requires |g| <= n
  {
    if g == [] then None else Some(n - 1)
  }

  lemma GroupGrows(g: seq<Placed>, p: Placed, n: nat)
    requires AllCommands(g) && p.cmd.Command? && |g| <= n
    ensures AllCommands(g + [p])
    ensures GroupViews(g + [p], n - |g|) == GroupViews(g, n - |g|) + [ViewOf(p, LastOf(g, n))]
  {
    assert (g + [p])[..|g|] == g;
  }

  ghost predicate SameAsList(nodes: seq<Node>, dir: string, g: seq<Placed>, exits: nat -> int, n: nat)
    requires |nodes| % 2 == 1 && PipelineOk(nodes) && AllCommands(g) && |g| <= n && Solid(Grouping(nodes, dir, g))
  {
    var r := RunList(nodes, dir, LastOf(g, n), exits, n);
    Eval(Grouping(nodes, dir, g), exits, n - |g|) == (GroupViews(g, n - |g|) + r.0, r.1)
  }

  /** The evaluation by groups and the evaluation by elements are one, from the middle of any group. */
  lemma {:induction false} GroupsAreList(nodes: seq<Node>, dir: string, g: seq<Placed>, exits: nat -> int, n: nat)
    requires |nodes| % 2 == 1 && PipelineOk(nodes) && AllCommands(g) && |g| <= n
    ensures Solid(Grouping(nodes, dir, g)) && SameAsList(nodes, dir, g, exits, n)
    decreases |nodes|
  {
    GroupingSolid(nodes, dir, g);
    if nodes[0].Command? {
      CommandIsList(nodes, dir, g, exits, n);
    } else {
      hide CommandOk, JoinPath, GroupViews;
      var views := GroupViews(g, n - |g|);
      assert views + [] == views;
      if |nodes| > 1 && nodes[0].dir.Some? {
        GroupsAreList(nodes[2..], JoinPath(dir, nodes[0].dir.value), g, exits, n);
      }
    }
  }

  lemma {:induction false} CommandIsList(nodes: seq<Node>, dir: string, g: seq<Placed>, exits: nat -> int, n: nat)
    requires |nodes| % 2 == 1 && PipelineOk(nodes) && AllCommands(g) && |g| <= n && nodes[0].Command?
    ensures Solid(Grouping(nodes, dir, g)) && SameAsList(nodes, dir, g, exits, n)
    decreases |nodes|, 0
  {
    hide CommandOk, GroupViews, ViewOf, Grouping, Proceeds, JoinPath;
    GroupingSolid(nodes, dir, g);
    GroupingStep(nodes, dir, g);
    var p, views := Placed(nodes[0], dir), GroupViews(g, n - |g|);
    var view := ViewOf(p, LastOf(g, n));
    GroupGrows(g, p, n);
    if |nodes| == 1 {
    } else {
      var g' := if nodes[1].op.Pipe? then g + [p] else [];
      GroupsAreList(nodes[2..], dir, g', exits, n + 1);
      NoViews(n + 1);
      var r := RunList(nodes[2..], dir, LastOf(g', n + 1), exits, n + 1);
      assert views + [view] + r.0 == views + ([view] + r.0);
      assert [] + r.0 == r.0;
    }
  }

  /** On every accepted token list `run` does what the evaluation of its pipeline, element by element, says. */
  lemma RunIsList(tokens: seq<string>, nodes: seq<Node>, exits: nat -> int, fileCount: nat, procCount: nat)
    requires Parse(tokens) == Some(nodes)
    ensures PipelineOk(nodes)
    ensures var r := RunMachine(Start(nodes, fileCount, procCount), exits);
            (Launches(r.0), r.1) == RunList(nodes, ".", None, exits, procCount)
  {
    hide RunMachine, Eval, Grouping, Parse, PipelineOk, Solid, Launches, RunList;
    ParsedPipelines(nodes);
    OddLength(nodes);
    RunIsEval(tokens, nodes, exits, fileCount, procCount);
    GroupsAreList(nodes, ".", [], exits, procCount);
    NoViews(procCount);
    var views := RunList(nodes, ".", None, exits, procCount).0;
    assert [] + views == views;
  }

  // ---- errors ----

  /** What the first directory change that stands last or lacks its directory makes `run` raise. */
  function FirstError(nodes: seq<Node>): Option<RunResult>
    requires PipelineOk(nodes)
    decreases |nodes|
  {
    if |nodes| == 1 then if nodes[0].Chdir? then Some(IndexError) else None
    else if nodes[0] == Chdir(None) then Some(AttributeError)
    else FirstError(nodes[2..])
  }

  /** No directory change stands last or lacks its directory. */
  predicate CdsComplete(nodes: seq<Node>) {
    forall k :: 0 <= k < |nodes| && nodes[k].Chdir? ==> nodes[k].dir.Some? && k + 1 < |nodes|
  }

  lemma {:induction false} CompleteWithoutError(nodes: seq<Node>)
    requires PipelineOk(nodes)
    ensures CdsComplete(nodes) <==> FirstError(nodes).None?
    decreases |nodes|
  {
    if |nodes| == 1 {
    } else {
      var tail := nodes[2..];
      CompleteWithoutError(tail);
      assert forall k :: 0 <= k < |tail| ==> tail[k] == nodes[k + 2];
      if CdsComplete(tail) && nodes[0] != Chdir(None) {
        forall k | 0 <= k < |nodes| && nodes[k].Chdir? ensures nodes[k].dir.Some? && k + 1 < |nodes| {
          assert k >= 2 ==> nodes[k] == tail[k - 2];
        }
      }
    }
  }

  lemma {:induction false} EndsAsExpected(nodes: seq<Node>, dir: string, feeder: Option<nat>, exits: nat -> int, n: nat)
    requires PipelineOk(nodes)
    ensures var r := RunList(nodes, dir, feeder, exits, n).1;
            r.Status? || FirstError(nodes) == Some(r)
    decreases |nodes|
  {
    hide CommandOk, JoinPath, ViewOf;
    var node := nodes[0];
    if |nodes| == 1 || node == Chdir(None) {
    } else if node.Chdir? {
      EndsAsExpected(nodes[2..], JoinPath(dir, node.dir.value), feeder, exits, n);
    } else {
      EndsAsExpected(nodes[2..], dir, if nodes[1].op.Pipe? then Some(n) else None, exits, n + 1);
    }
  }

  /** An exit code for each process, the first numbered `n`, with which every && and || proceeds. */
  function Onward(nodes: seq<Node>, n: nat, proc: nat): int
    requires PipelineOk(nodes)
    decreases |nodes|
  {
    if |nodes| == 1 then 0
    else if nodes[0].Chdir? then Onward(nodes[2..], n, proc)
    else if proc == n then if nodes[1].op.Or? then 1 else 0
    else Onward(nodes[2..], n + 1, proc)
  }

  ghost predicate GoesOn(nodes: seq<Node>, n: nat, exits: nat -> int)
    requires PipelineOk(nodes)
  {
    forall proc: nat :: proc >= n ==> exits(proc) == Onward(nodes, n, proc)
  }

  lemma GoesOnStep(nodes: seq<Node>, n: nat, exits: nat -> int)
    requires PipelineOk(nodes) && |nodes| > 1 && GoesOn(nodes, n, exits)
    ensures nodes[0].Chdir? ==> GoesOn(nodes[2..], n, exits)
    ensures nodes[0].Command? ==>
              GoesOn(nodes[2..], n + 1, exits) && (nodes[1].op.Pipe? || Proceeds(nodes[1].op, exits(n)))
  {
  }

  lemma {:induction false} ErrorIsReached(nodes: seq<Node>, dir: string, feeder: Option<nat>, exits: nat -> int, n: nat)
    requires PipelineOk(nodes) && GoesOn(nodes, n, exits) && FirstError(nodes).Some?
    ensures RunList(nodes, dir, feeder, exits, n).1 == FirstError(nodes).value
    decreases |nodes|
  {
    hide CommandOk, JoinPath, ViewOf, GoesOn, Onward;
    var node := nodes[0];
    if |nodes| == 1 || node == Chdir(None) {
    } else {
      GoesOnStep(nodes, n, exits);
      if node.Chdir? {
        ErrorIsReached(nodes[2..], JoinPath(dir, node.dir.value), feeder, exits, n);
      } else {
        ErrorIsReached(nodes[2..], dir, if nodes[1].op.Pipe? then Some(n) else None, exits, n + 1);
      }
    }
  }

  /**
   * On any pipeline that `parse` returns, `run` never trips an assertion and never falls off its loop: it returns a
   * status or raises the one error that the pipeline shows.
   */
  lemma RunNeverAsserts(tokens: seq<string>, nodes: seq<Node>, exits: nat -> int, fileCount: nat, procCount: nat)
    requires Parse(tokens) == Some(nodes)
    ensures PipelineOk(nodes)
    ensures var r := RunMachine(Start(nodes, fileCount, procCount), exits).1;
            r.Status? || (FirstError(nodes) == Some(r) && (r.IndexError? || r.AttributeError?))
  {
    RunIsList(tokens, nodes, exits, fileCount, procCount);
    EndsAsExpected(nodes, ".", None, exits, procCount);
    ErrorKinds(nodes);
  }

  lemma {:induction false} ErrorKinds(nodes: seq<Node>)
    requires PipelineOk(nodes)
    ensures FirstError(nodes).Some? ==> FirstError(nodes).value in [IndexError, AttributeError]
    decreases |nodes|
  {
    if |nodes| == 1 || nodes[0] == Chdir(None) {
    } else {
      ErrorKinds(nodes[2..]);
    }
  }

  /** `run` returns a status for all exit codes exactly when every `cd` has its directory and something behind it. */
  lemma RunReturnsIff(tokens: seq<string>, nodes: seq<Node>, fileCount: nat, procCount: nat)
    requires Parse(tokens) == Some(nodes)
    ensures PipelineOk(nodes)
    ensures (forall exits: nat -> int :: RunMachine(Start(nodes, fileCount, procCount), exits).1.Status?)
            <==> CdsComplete(nodes)
    ensures forall error: RunResult :: !error.Status? ==>
              ((exists exits: nat -> int :: RunMachine(Start(nodes, fileCount, procCount), exits).1 == error)
               <==> FirstError(nodes) == Some(error))
  {
    hide RunMachine, Parse, PipelineOk, FirstError, CdsComplete, Onward, RunList;
    ParsedPipelines(nodes);
    CompleteWithoutError(nodes);
    ErrorKinds(nodes);
    var m := Start(nodes, fileCount, procCount);
    forall exits: nat -> int
      ensures RunMachine(m, exits).1.Status? || FirstError(nodes) == Some(RunMachine(m, exits).1) {
      RunNeverAsserts(tokens, nodes, exits, fileCount, procCount);
    }
    if FirstError(nodes).Some? {
      var onward: nat -> int := (proc: nat) => Onward(nodes, procCount, proc);
      RunIsList(tokens, nodes, onward, fileCount, procCount);
      ErrorIsReached(nodes, ".", None, onward, procCount);
      assert RunMachine(m, onward).1 == FirstError(nodes).value;
    }
  }
}
