/**
 * A parsed pipeline as the POSIX.1-2008 Shell Command Language reads it, and exactly when `run` does the same. Paths
 * are compared as text.
 */
module ShellPosix {
  import opened Options
  import opened ShellParse
  import opened ShellCanon
  import opened ShellRun
  import opened ShellEval
  import opened ShellAndOr
  import opened ShellList

  // ---- the semantics ----

  /** A redirection names a file in the shell's current directory; "." stands for the caller's. */
  function InDir(dir: string, name: string): string {
    if dir == "." then name else JoinPath(dir, name)
  }

  function PosixOut(path: string): Tie {
    if path == "/dev/null" then NullDevice else NamedFile(path, true)
  }

  /** Section 2.9.2: a pipe ties the standard streams before the command's own redirections do. */
  function PosixView(cmd: Node, dir: string, feeder: Option<nat>): View
    requires cmd.Command?
  {
    View(cmd.argv, cmd.envVars, if dir == "." then None else Some(dir),
         match cmd.stdin
         { case Some(name) => NamedFile(InDir(dir, name), false)
           case None => if feeder.Some? then FromProcess(feeder.value) else Inherited },
         match cmd.stdout
         { case DefaultOut => Inherited case Piped => ToPipe case OutFile(name) => PosixOut(InDir(dir, name)) },
         match cmd.stderr
         { case DefaultErr => Inherited
           case SameAsStdout => LikeStdout
           case ErrFile(name) => PosixOut(InDir(dir, name)) })
  }

  /**
   * Section 2.9.3: && and || have equal precedence and associate to the left, so each pipeline of the list runs or is
   * skipped by itself; `skipped` is None while one runs, and else the status so far. A `cd` has status 0. It changes
   * the directory of what follows, unless a pipe leads to it: then it sits in a subshell, changes nothing and feeds
   * nothing. Without argument it goes to `home`.
   */
  function PosixList(nodes: seq<Node>, dir: string, feeder: Option<nat>, skipped: Option<int>, home: string,
                     exits: nat -> int, n: nat): (seq<View>, RunResult)
    requires PipelineOk(nodes)
    decreases |nodes|
  {
    var node := nodes[0];
    var runs := skipped.None?;
    var launches := runs && node.Command?;
    var views := if launches then [PosixView(node, dir, feeder)] else [];
    var status := if !runs then skipped.value else if launches then exits(n) else 0;
    var dir' := if runs && node.Chdir? && feeder.None? then JoinPath(dir, node.dir.GetOr(home)) else dir;
    if |nodes| == 1 then (views, Status(status))
    else
      var op := nodes[1].op;
      var skipped' := if op.Pipe? then skipped else if Proceeds(op, status) then None else Some(status);
      var feeder' := if op.Pipe? && launches then Some(n) else None;
      var r := PosixList(nodes[2..], dir', feeder', skipped', home, exits, if launches then n + 1 else n);
      (views + r.0, r.1)
  }

  // ---- the condition ----

  predicate Absolute(name: string) {
    name != "" && name[0] == '/'
  }

  /** `moved` says that a directory change precedes. */
  predicate SameOut(name: string, moved: bool) {
    name != "NUL:" && (moved ==> Absolute(name))
  }

  predicate SameTies(cmd: Node, fed: bool, moved: bool)
    requires cmd.Command?
  {
    && (cmd.stdin.Some? ==> !fed && (moved ==> Absolute(cmd.stdin.value)))
    && (cmd.stdout.OutFile? ==> SameOut(cmd.stdout.name, moved))
    && (cmd.stderr.ErrFile? ==> SameOut(cmd.stderr.name, moved))
  }

  /**
   * No pipe leads into a directory change or a redirected input, redirections behind a directory change are absolute,
   * and nothing is written to "NUL:".
   */
  predicate SameFiles(nodes: seq<Node>, fed: bool, moved: bool)
    requires PipelineOk(nodes)
    decreases |nodes|
  {
    && (if nodes[0].Chdir? then !fed else SameTies(nodes[0], fed, moved))
    && (|nodes| > 1 ==> SameFiles(nodes[2..], nodes[1].op.Pipe?, moved || nodes[0].Chdir?))
  }

  /** Every && and || is `op`. */
  predicate OneOperator(nodes: seq<Node>, op: Operator) {
    forall k :: 0 <= k < |nodes| && nodes[k].Op? && !nodes[k].op.Pipe? ==> nodes[k].op == op
  }

  function AfterLeadingCds(nodes: seq<Node>): (r: seq<Node>)
    decreases |nodes|
  {
    if |nodes| > 1 && nodes[0].Chdir? then AfterLeadingCds(nodes[2..]) else nodes
  }

  /** Behind the leading directory changes only one of && and || occurs, the && behind later ones included. */
  predicate OneList(nodes: seq<Node>) {
    OneOperator(AfterLeadingCds(nodes), And) || OneOperator(AfterLeadingCds(nodes), Or)
  }

  lemma OneOperatorStep(nodes: seq<Node>, op: Operator)
    requires PipelineOk(nodes)
    ensures |nodes| == 1 ==> OneOperator(nodes, op)
    ensures |nodes| > 1 ==>
              (OneOperator(nodes, op) <==> (nodes[1].op.Pipe? || nodes[1].op == op) && OneOperator(nodes[2..], op))
  {
    hide CommandOk;
    if |nodes| > 1 {
      var tail := nodes[2..];
      assert forall k :: 0 <= k < |tail| ==> tail[k] == nodes[k + 2];
      if (nodes[1].op.Pipe? || nodes[1].op == op) && OneOperator(tail, op) {
        forall k | 0 <= k < |nodes| && nodes[k].Op? && !nodes[k].op.Pipe? ensures nodes[k].op == op {
          assert k >= 2 ==> nodes[k] == tail[k - 2];
        }
      }
    }
  }

  lemma {:induction false} LeadingCdsDropped(nodes: seq<Node>, op: Operator)
    requires PipelineOk(nodes) && OneOperator(nodes, op)
    ensures OneOperator(AfterLeadingCds(nodes), op)
    decreases |nodes|
  {
    hide NodeOk, OneOperator;
    if |nodes| > 1 && nodes[0].Chdir? {
      OneOperatorStep(nodes, op);
      LeadingCdsDropped(nodes[2..], op);
    } else {
    }
  }

  // ---- single commands ----

  lemma JoinedDirMoves(dir: string, to: string)
    requires dir != ""
    ensures JoinPath(dir, to) != "." && JoinPath(dir, to) != ""
    ensures JoinPath(dir, to) == to <==> Absolute(to)
  {
    var path := JoinPath(dir, to);
    if Absolute(to) {
      assert path == to && path[0] == '/' && "."[0] == '.';
    } else if dir[|dir| - 1] == '/' {
      assert path == dir + to && path[|dir| - 1] == '/' && |path| > |to|;
    } else {
      assert path == dir + "/" + to && |path| == |dir| + 1 + |to| && |path| > 1;
    }
  }

  lemma SameOutTie(dir: string, name: string)
    requires dir != ""
    ensures OutTie(name) == PosixOut(InDir(dir, name)) <==> SameOut(name, dir != ".")
  {
    JoinedDirMoves(dir, name);
    var path := InDir(dir, name);
    if name == "NUL:" {
      assert path[|path| - 1] == ':' && "/dev/null"[|"/dev/null"| - 1] == 'l';
    }
  }

  /** A single command is launched alike exactly when its redirections mean the same. */
  lemma SameViews(cmd: Node, dir: string, feeder: Option<nat>)
    requires cmd.Command? && dir != ""
    ensures ViewOf(Placed(cmd, dir), feeder) == PosixView(cmd, dir, feeder) <==> SameTies(cmd, feeder.Some?, dir != ".")
  {
    hide JoinPath, SameOut, OutTie, PosixOut;
    if cmd.stdin.Some? {
      JoinedDirMoves(dir, cmd.stdin.value);
    }
    if cmd.stdout.OutFile? {
      SameOutTie(dir, cmd.stdout.name);
    }
    if cmd.stderr.ErrFile? {
      SameOutTie(dir, cmd.stderr.name);
    }
  }

  // ---- where the two agree ----

  lemma {:induction false} SkipsRest(nodes: seq<Node>, op: Operator, dir: string, status: int, home: string,
                                     exits: nat -> int, n: nat)
    requires PipelineOk(nodes) && OneOperator(nodes, op) && !Proceeds(op, status)
    ensures PosixList(nodes, dir, None, Some(status), home, exits, n) == ([], Status(status))
    decreases |nodes|
  {
    hide NodeOk, OneOperator, JoinPath, PosixView;
    OneOperatorStep(nodes, op);
    if |nodes| == 1 {
    } else {
      SkipsRest(nodes[2..], op, dir, status, home, exits, n);
      var nothing: seq<View> := [];
      assert nothing + nothing == nothing;
    }
  }

  lemma {:induction false} ListsAgree(nodes: seq<Node>, op: Operator, dir: string, feeder: Option<nat>, home: string,
                                      exits: nat -> int, n: nat)
    requires PipelineOk(nodes) && FirstError(nodes).None? && dir != ""
    requires SameFiles(nodes, feeder.Some?, dir != ".") && OneOperator(AfterLeadingCds(nodes), op)
    ensures PosixList(nodes, dir, feeder, None, home, exits, n) == RunList(nodes, dir, feeder, exits, n)
    decreases |nodes|
  {
    hide CommandOk, OneOperator, JoinPath, PosixView, ViewOf, SameTies;
    var node := nodes[0];
    OneOperatorStep(nodes, op);
    if node.Chdir? {
      JoinedDirMoves(dir, node.dir.value);
      CdStep(nodes, dir, home, exits, n);
      ListsAgree(nodes[2..], op, JoinPath(dir, node.dir.value), None, home, exits, n);
    } else {
      SameViews(node, dir, feeder);
      if |nodes| > 1 {
        CommandStep(nodes, dir, feeder, home, exits, n);
        LeadingCdsDropped(nodes[2..], op);
        if nodes[1].op.Pipe? || Proceeds(nodes[1].op, exits(n)) {
          ListsAgree(nodes[2..], op, dir, if nodes[1].op.Pipe? then Some(n) else None, home, exits, n + 1);
        } else {
          SkipsRest(nodes[2..], op, dir, exits(n), home, exits, n + 1);
        }
      }
    }
  }

  // ---- where they differ ----

  lemma {:induction false} FirstLaunch(nodes: seq<Node>, dir: string, feeder: Option<nat>, home: string,
                                       exits: nat -> int, n: nat)
    requires PipelineOk(nodes) && FirstError(nodes).None?
    ensures var views := PosixList(nodes, dir, feeder, None, home, exits, n).0;
            views != [] && (feeder.None? ==> !views[0].stdin.FromProcess?)
    ensures var views := RunList(nodes, dir, feeder, exits, n).0;
            views != [] && (feeder.Some? ==> views[0].stdin.FromProcess?)
    decreases |nodes|
  {
    hide CommandOk, JoinPath;
    var node := nodes[0];
    if node.Command? {
    } else {
      var dir' := if feeder.None? then JoinPath(dir, node.dir.value) else dir;
      FirstLaunch(nodes[2..], dir', None, home, exits, n);
      FirstLaunch(nodes[2..], JoinPath(dir, node.dir.value), feeder, home, exits, n);
    }
  }

  /** Behind `op` a skipped list wakes up at the other operator and launches something. */
  lemma {:induction false} WakesUp(nodes: seq<Node>, op: Operator, dir: string, status: int, home: string,
                                   exits: nat -> int, n: nat)
    requires PipelineOk(nodes) && FirstError(nodes).None?
    requires !OneOperator(nodes, op) && !op.Pipe? && !Proceeds(op, status)
    ensures PosixList(nodes, dir, None, Some(status), home, exits, n).0 != []
    decreases |nodes|
  {
    hide NodeOk, OneOperator, JoinPath, PosixView;
    OneOperatorStep(nodes, op);
    if nodes[1].op.Pipe? || nodes[1].op == op {
      WakesUp(nodes[2..], op, dir, status, home, exits, n);
    } else {
      FirstLaunch(nodes[2..], dir, None, home, exits, n);
    }
  }

  lemma {:induction false} RunLooksAhead(nodes: seq<Node>, dir: string, feeder: Option<nat>,
                                         e: nat -> int, f: nat -> int, n: nat)
    requires PipelineOk(nodes) && forall k :: k >= n ==> e(k) == f(k)
    ensures RunList(nodes, dir, feeder, e, n) == RunList(nodes, dir, feeder, f, n)
    decreases |nodes|
  {
    hide CommandOk, JoinPath, ViewOf;
    var node := nodes[0];
    if |nodes| == 1 || node == Chdir(None) {
    } else if node.Chdir? {
      RunLooksAhead(nodes[2..], JoinPath(dir, node.dir.value), feeder, e, f, n);
    } else {
      RunLooksAhead(nodes[2..], dir, if nodes[1].op.Pipe? then Some(n) else None, e, f, n + 1);
    }
  }

  lemma {:induction false} PosixLooksAhead(nodes: seq<Node>, dir: string, feeder: Option<nat>, skipped: Option<int>,
                                           home: string, e: nat -> int, f: nat -> int, n: nat)
    requires PipelineOk(nodes) && forall k :: k >= n ==> e(k) == f(k)
    ensures PosixList(nodes, dir, feeder, skipped, home, e, n) == PosixList(nodes, dir, feeder, skipped, home, f, n)
    decreases |nodes|
  {
    hide CommandOk, JoinPath, PosixView;
    var node := nodes[0];
    if |nodes| == 1 {
    } else {
      var launches := skipped.None? && node.Command?;
      var status := if skipped.Some? then skipped.value else if launches then e(n) else 0;
      var dir' := if skipped.None? && node.Chdir? && feeder.None? then JoinPath(dir, node.dir.GetOr(home)) else dir;
      var op := nodes[1].op;
      PosixLooksAhead(nodes[2..], dir', if op.Pipe? && launches then Some(n) else None,
                      if op.Pipe? then skipped else if Proceeds(op, status) then None else Some(status),
                      home, e, f, if launches then n + 1 else n);
    }
  }

  ghost predicate SomeExitsDiffer(nodes: seq<Node>, dir: string, feeder: Option<nat>, home: string, n: nat)
    requires PipelineOk(nodes)
  {
    exists exits: nat -> int ::
      PosixList(nodes, dir, feeder, None, home, exits, n) != RunList(nodes, dir, feeder, exits, n)
  }

  lemma {:induction false} ListsDiffer(nodes: seq<Node>, dir: string, feeder: Option<nat>, home: string, n: nat)
    requires PipelineOk(nodes) && FirstError(nodes).None? && dir != ""
    requires !(SameFiles(nodes, feeder.Some?, dir != ".") && OneList(nodes))
    ensures SomeExitsDiffer(nodes, dir, feeder, home, n)
    decreases |nodes|
  {
    hide CommandOk, OneOperator, JoinPath, PosixView, ViewOf, SameTies, PosixList, RunList;
    var node := nodes[0];
    var zeros: nat -> int := (k: nat) => 0;
    if node.Chdir? && feeder.Some? {
      PipedCdDiffers(nodes, dir, feeder, home, zeros, n);
    } else if node.Chdir? {
      var dir' := JoinPath(dir, node.dir.value);
      JoinedDirMoves(dir, node.dir.value);
      ListsDiffer(nodes[2..], dir', None, home, n);
      var exits: nat -> int :| PosixList(nodes[2..], dir', None, None, home, exits, n)
                               != RunList(nodes[2..], dir', None, exits, n);
      CdStep(nodes, dir, home, exits, n);
    } else if !SameTies(node, feeder.Some?, dir != ".") {
      SameViews(node, dir, feeder);
      FirstViews(nodes, dir, feeder, home, zeros, n);
    } else {
      CommandDiffers(nodes, dir, feeder, home, n);
    }
  }

  lemma FirstViews(nodes: seq<Node>, dir: string, feeder: Option<nat>, home: string, exits: nat -> int, n: nat)
    requires PipelineOk(nodes) && nodes[0].Command?
    ensures var p := PosixList(nodes, dir, feeder, None, home, exits, n).0;
            p != [] && p[0] == PosixView(nodes[0], dir, feeder)
    ensures var r := RunList(nodes, dir, feeder, exits, n).0;
            r != [] && r[0] == ViewOf(Placed(nodes[0], dir), feeder)
  {
    hide PosixView, ViewOf, CommandOk;
  }

  lemma CdStep(nodes: seq<Node>, dir: string, home: string, exits: nat -> int, n: nat)
    requires PipelineOk(nodes) && FirstError(nodes).None? && nodes[0].Chdir?
    ensures nodes[0].dir.Some? && |nodes| > 1
    ensures var dir' := JoinPath(dir, nodes[0].dir.value);
            && PosixList(nodes, dir, None, None, home, exits, n)
               == PosixList(nodes[2..], dir', None, None, home, exits, n)
            && RunList(nodes, dir, None, exits, n) == RunList(nodes[2..], dir', None, exits, n)
  {
    hide JoinPath, CommandOk, PosixView, ViewOf;
    var p := PosixList(nodes[2..], JoinPath(dir, nodes[0].dir.value), None, None, home, exits, n);
    assert [] + p.0 == p.0;
  }

  /** What `cd` feeds nothing in the shell reads from the pipe in `run`. */
  lemma PipedCdDiffers(nodes: seq<Node>, dir: string, feeder: Option<nat>, home: string, exits: nat -> int, n: nat)
    requires PipelineOk(nodes) && FirstError(nodes).None? && nodes[0].Chdir? && feeder.Some?
    ensures PosixList(nodes, dir, feeder, None, home, exits, n) != RunList(nodes, dir, feeder, exits, n)
  {
    hide JoinPath, CommandOk;
    FirstLaunch(nodes[2..], dir, None, home, exits, n);
    FirstLaunch(nodes[2..], JoinPath(dir, nodes[0].dir.value), feeder, home, exits, n);
    assert PosixList(nodes, dir, feeder, None, home, exits, n).0
        == PosixList(nodes[2..], dir, None, None, home, exits, n).0;
  }

  /** One command and its operator, in both semantics. */
  lemma CommandStep(nodes: seq<Node>, dir: string, feeder: Option<nat>, home: string, exits: nat -> int, n: nat)
    requires PipelineOk(nodes) && nodes[0].Command? && |nodes| > 1
    requires ViewOf(Placed(nodes[0], dir), feeder) == PosixView(nodes[0], dir, feeder)
    ensures var view := PosixView(nodes[0], dir, feeder);
            var op, status := nodes[1].op, exits(n);
            var goes := op.Pipe? || Proceeds(op, status);
            var feeder' := if op.Pipe? then Some(n) else None;
            var p := PosixList(nodes[2..], dir, feeder', if goes then None else Some(status), home, exits, n + 1);
            var r := if goes then RunList(nodes[2..], dir, feeder', exits, n + 1) else ([], Status(status));
            && PosixList(nodes, dir, feeder, None, home, exits, n) == ([view] + p.0, p.1)
            && RunList(nodes, dir, feeder, exits, n) == ([view] + r.0, r.1)
  {
    hide PosixView, ViewOf, CommandOk, JoinPath;
    var view := PosixView(nodes[0], dir, feeder);
    assert [view] + [] == [view];
  }

  lemma {:induction false} CommandDiffers(nodes: seq<Node>, dir: string, feeder: Option<nat>, home: string, n: nat)
    requires PipelineOk(nodes) && FirstError(nodes).None? && dir != ""
    requires !(SameFiles(nodes, feeder.Some?, dir != ".") && OneList(nodes))
    requires nodes[0].Command? && SameTies(nodes[0], feeder.Some?, dir != ".")
    ensures SomeExitsDiffer(nodes, dir, feeder, home, n)
    decreases |nodes|, 0
  {
    hide CommandOk, OneOperator, JoinPath, PosixView, ViewOf, SameTies, PosixList, RunList;
    var view := PosixView(nodes[0], dir, feeder);
    SameViews(nodes[0], dir, feeder);
    OneOperatorStep(nodes, And);
    OneOperatorStep(nodes, Or);
    var tail, op := nodes[2..], nodes[1].op;
    if op.Pipe? || OneOperator(nodes, op) {
      var feeder' := if op.Pipe? then Some(n) else None;
      ListsDiffer(tail, dir, feeder', home, n + 1);
      var later: nat -> int :| PosixList(tail, dir, feeder', None, home, later, n + 1)
                               != RunList(tail, dir, feeder', later, n + 1);
      var go := if op.Or? then 1 else 0;
      var exits: nat -> int := (k: nat) => if k <= n then go else later(k);
      PosixLooksAhead(tail, dir, feeder', None, home, later, exits, n + 1);
      RunLooksAhead(tail, dir, feeder', later, exits, n + 1);
      CommandStep(nodes, dir, feeder, home, exits, n);
      DifferentTails([view], PosixList(tail, dir, feeder', None, home, exits, n + 1),
                     RunList(tail, dir, feeder', exits, n + 1));
    } else {
      var stop := if op.Or? then 0 else 1;
      var exits: nat -> int := (k: nat) => stop;
      CommandStep(nodes, dir, feeder, home, exits, n);
      WakesUp(tail, op, dir, stop, home, exits, n + 1);
    }
  }

  // ---- the run ----

  /**
   * On the pipeline of any accepted token list: `run` launches, for all exit codes, the commands that the POSIX
   * semantics launches, in the same order, directories and files, and returns its status, if and only if every `cd` is
   * complete, one operator joins the list behind its leading directory changes, and the redirections mean the same.
   */
  lemma RunIsPosixIff(tokens: seq<string>, nodes: seq<Node>, home: string, fileCount: nat, procCount: nat)
    requires Parse(tokens) == Some(nodes)
    ensures PipelineOk(nodes)
    ensures (forall exits: nat -> int ::
               var r := RunMachine(Start(nodes, fileCount, procCount), exits);
               (Launches(r.0), r.1) == PosixList(nodes, ".", None, None, home, exits, procCount))
            <==> CdsComplete(nodes) && OneList(nodes) && SameFiles(nodes, false, false)
  {
    hide CdsComplete, OneOperator, SameFiles, RunMachine, Launches, PosixList, RunList, Parse, PipelineOk, FirstError;
    ParsedPipelines(nodes);
    CompleteWithoutError(nodes);
    var m := Start(nodes, fileCount, procCount);
    forall exits: nat -> int
      ensures var r := RunMachine(m, exits); (Launches(r.0), r.1) == RunList(nodes, ".", None, exits, procCount) {
      RunIsList(tokens, nodes, exits, fileCount, procCount);
    }
    if !CdsComplete(nodes) {
      RunReturnsIff(tokens, nodes, fileCount, procCount);
      var exits: nat -> int :| !RunMachine(m, exits).1.Status?;
      PosixReturns(nodes, ".", None, None, home, exits, procCount);
    } else if OneList(nodes) && SameFiles(nodes, false, false) {
      var op := if OneOperator(AfterLeadingCds(nodes), And) then And else Or;
      forall exits: nat -> int ensures RunList(nodes, ".", None, exits, procCount)
                                       == PosixList(nodes, ".", None, None, home, exits, procCount) {
        ListsAgree(nodes, op, ".", None, home, exits, procCount);
      }
    } else {
      ListsDiffer(nodes, ".", None, home, procCount);
      var exits: nat -> int :| PosixList(nodes, ".", None, None, home, exits, procCount)
                               != RunList(nodes, ".", None, exits, procCount);
      var r := RunMachine(m, exits);
      assert (Launches(r.0), r.1) != PosixList(nodes, ".", None, None, home, exits, procCount);
    }
  }

  lemma {:induction false} PosixReturns(nodes: seq<Node>, dir: string, feeder: Option<nat>, skipped: Option<int>,
                                        home: string, exits: nat -> int, n: nat)
    requires PipelineOk(nodes)
    ensures PosixList(nodes, dir, feeder, skipped, home, exits, n).1.Status?
    decreases |nodes|
  {
    hide CommandOk, JoinPath, PosixView;
    var node := nodes[0];
    if |nodes| == 1 {
    } else {
      var launches := skipped.None? && node.Command?;
      var status := if skipped.Some? then skipped.value else if launches then exits(n) else 0;
      var dir' := if skipped.None? && node.Chdir? && feeder.None? then JoinPath(dir, node.dir.GetOr(home)) else dir;
      var op := nodes[1].op;
      PosixReturns(nodes[2..], dir', if op.Pipe? && launches then Some(n) else None,
                   if op.Pipe? then skipped else if Proceeds(op, status) then None else Some(status),
                   home, exits, if launches then n + 1 else n);
    }
  }

  // ---- lists without directory changes ----

  predicate NoCd(nodes: seq<Node>) {
    forall k :: 0 <= k < |nodes| ==> !nodes[k].Chdir?
  }

  lemma {:induction false} GroupingComplete(nodes: seq<Node>, dir: string, g: seq<Placed>)
    requires |nodes| % 2 == 1 && PipelineOk(nodes) && NoCd(nodes) && AllCommands(g)
    ensures Complete(Grouping(nodes, dir, g))
    decreases |nodes|
  {
    hide CommandOk;
    GroupingSolid(nodes, dir, g);
    if |nodes| == 1 {
    } else {
      GroupingComplete(nodes[2..], dir, if nodes[1].op.Pipe? then g + [Placed(nodes[0], dir)] else []);
    }
  }

  /** The evaluation by groups, one command at a time. */
  lemma GroupsStep(nodes: seq<Node>, g: seq<Placed>, exits: nat -> int, n: nat)
    requires |nodes| % 2 == 1 && PipelineOk(nodes) && NoCd(nodes) && nodes[0].Command? && AllCommands(g) && |g| <= n
    ensures AllCommands(g + [Placed(nodes[0], ".")]) && Complete(Grouping(nodes, ".", g))
    ensures |nodes| > 1 && nodes[1].op.Pipe? ==> Complete(Grouping(nodes[2..], ".", g + [Placed(nodes[0], ".")]))
    ensures |nodes| > 1 && !nodes[1].op.Pipe? ==> Complete(Grouping(nodes[2..], ".", []))
    ensures var g' := g + [Placed(nodes[0], ".")];
            EvalLeft(Grouping(nodes, ".", g), exits, n - |g|)
            == if |nodes| == 1 then (GroupViews(g', n - |g|), Status(exits(n)))
               else if nodes[1].op.Pipe? then EvalLeft(Grouping(nodes[2..], ".", g'), exits, n - |g|)
               else
                 var r := EvalLeftRest(exits(n), nodes[1].op, Grouping(nodes[2..], ".", []), exits, n + 1);
                 (GroupViews(g', n - |g|) + r.0, r.1)
  {
    hide GroupViews, EvalLeft, EvalLeftRest, Grouping, NoCd, NodeOk, Complete, AllCommands, Solid;
    GroupingComplete(nodes, ".", g);
    GroupGrows(g, Placed(nodes[0], "."), n);
    GroupingStep(nodes, ".", g);
    var g' := g + [Placed(nodes[0], ".")];
    if |nodes| == 1 {
      LeftOnly(g', exits, n - |g|);
    } else if nodes[1] != Op(Pipe) {
      LeftJoined(g', nodes[1].op, Grouping(nodes[2..], ".", []), exits, n - |g|);
    }
  }

  lemma LeftOnly(g: seq<Placed>, exits: nat -> int, n: nat)
    requires Complete(Only(g))
    ensures EvalLeft(Only(g), exits, n) == (GroupViews(g, n), Status(exits(n + |g| - 1)))
  {
  }

  lemma LeftJoined(g: seq<Placed>, op: Operator, rest: AndOr, exits: nat -> int, n: nat)
    requires Complete(Joined(g, op, rest))
    ensures AllCommands(g) && g != [] && Complete(rest)
    ensures var r := EvalLeftRest(exits(n + |g| - 1), op, rest, exits, n + |g|);
            EvalLeft(Joined(g, op, rest), exits, n) == (GroupViews(g, n) + r.0, r.1)
  {
    hide GroupViews, EvalLeftRest;
  }

  /** Without directory changes the two readings of section 2.9.3, by groups and by elements, are one. */
  lemma {:induction false} GroupsArePosix(nodes: seq<Node>, g: seq<Placed>, home: string, exits: nat -> int, n: nat)
    requires |nodes| % 2 == 1 && PipelineOk(nodes) && NoCd(nodes) && SameFiles(nodes, g != [], false)
    requires AllCommands(g) && |g| <= n
    ensures Complete(Grouping(nodes, ".", g))
    ensures var p := PosixList(nodes, ".", LastOf(g, n), None, home, exits, n);
            EvalLeft(Grouping(nodes, ".", g), exits, n - |g|) == (GroupViews(g, n - |g|) + p.0, p.1)
    decreases |nodes|, 1
  {
    hide CommandOk, GroupViews, ViewOf, PosixView, SameTies, EvalLeft, EvalLeftRest, Grouping, Complete;
    hide PosixList, RunList;
    GroupsStep(nodes, g, exits, n);
    var p, views := Placed(nodes[0], "."), GroupViews(g, n - |g|);
    GroupGrows(g, p, n);
    SameViews(nodes[0], ".", LastOf(g, n));
    var view := ViewOf(p, LastOf(g, n));
    if |nodes| == 1 {
      LastStep(nodes, ".", LastOf(g, n), home, exits, n);
    } else {
      CommandStep(nodes, ".", LastOf(g, n), home, exits, n);
      var tail, op, status := nodes[2..], nodes[1].op, exits(n);
      if op.Pipe? {
        GroupsArePosix(tail, g + [p], home, exits, n + 1);
      } else if Proceeds(op, status) {
        GroupsArePosix(tail, [], home, exits, n + 1);
        NoViews(n + 1);
        RunsOn(status, op, Grouping(tail, ".", []), exits, n + 1);
      } else {
        SkippedGroups(tail, [], op, status, home, exits, n + 1);
      }
      var r := PosixList(tail, ".", if op.Pipe? then Some(n) else None,
                         if op.Pipe? || Proceeds(op, status) then None else Some(status), home, exits, n + 1);
      assert views + [view] + r.0 == views + ([view] + r.0);
      assert [] + r.0 == r.0;
    }
  }

  lemma LastStep(nodes: seq<Node>, dir: string, feeder: Option<nat>, home: string, exits: nat -> int, n: nat)
    requires PipelineOk(nodes) && nodes[0].Command? && |nodes| == 1
    ensures PosixList(nodes, dir, feeder, None, home, exits, n)
            == ([PosixView(nodes[0], dir, feeder)], Status(exits(n)))
  {
  }

  lemma {:induction false} SkippedGroups(nodes: seq<Node>, g: seq<Placed>, op: Operator, status: int, home: string,
                                         exits: nat -> int, n: nat)
    requires |nodes| % 2 == 1 && PipelineOk(nodes) && NoCd(nodes) && SameFiles(nodes, g != [], false)
    requires AllCommands(g) && !Proceeds(op, status)
    ensures Complete(Grouping(nodes, ".", g))
    ensures EvalLeftRest(status, op, Grouping(nodes, ".", g), exits, n)
            == PosixList(nodes, ".", None, Some(status), home, exits, n)
    decreases |nodes|, 0
  {
    hide CommandOk, JoinPath, GroupViews, PosixView, SameTies;
    GroupingComplete(nodes, ".", g);
    if |nodes| == 1 {
    } else {
      var tail, next := nodes[2..], nodes[1].op;
      if next.Pipe? {
        SkippedGroups(tail, g + [Placed(nodes[0], ".")], op, status, home, exits, n);
      } else if Proceeds(next, status) {
        GroupsArePosix(tail, [], home, exits, n);
        NoViews(n);
        RunsOn(status, next, Grouping(tail, ".", []), exits, n);
      } else {
        SkippedGroups(tail, [], next, status, home, exits, n);
      }
      var r := PosixList(tail, ".", None, if !next.Pipe? && Proceeds(next, status) then None else Some(status),
                         home, exits, n);
      assert [] + r.0 == r.0;
    }
  }
}
