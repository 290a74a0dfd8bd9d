/** What `os.path.join` makes of a path, and in which directory `Pipeline.run` launches each command. */
module ShellPaths {
  import opened Options
  import opened ShellParse
  import opened ShellCanon
  import opened ShellRun
  import opened ShellEval
  import opened ShellList
  import opened ShellPosix

  // ---- the pieces of a path ----

  /** Length of the longest prefix without '/'. */
  function Piece(path: string): (n: nat)
    ensures n <= |path| && (n < |path| ==> path[n] == '/')
  {
    if path == "" || path[0] == '/' then 0 else 1 + Piece(path[1..])
  }

  lemma {:induction false} PieceHasNoSlash(path: string)
    ensures forall k :: 0 <= k < Piece(path) ==> path[k] != '/'
  {
    if path == "" || path[0] == '/' {
    } else {
      PieceHasNoSlash(path[1..]);
      forall k | 0 <= k < Piece(path) ensures path[k] != '/' {
        assert k > 0 ==> path[k] == path[1..][k - 1];
      }
    }
  }

  /** The nonempty pieces between '/'. */
  function Components(path: string): seq<string>
    decreases |path|
  {
    if path == "" then []
    else
      var n := Piece(path);
      if n == 0 then Components(path[1..]) else [path[..n]] + Components(path[n..])
  }

  lemma PieceBefore(p: string, q: string)
    requires q == "" || q[0] == '/' || '/' in p
    ensures Piece(p + q) == Piece(p)
  {
    if p == "" {
      assert p + q == q;
    } else if p[0] != '/' {
      assert (p + q)[1..] == p[1..] + q;
      PieceBefore(p[1..], q);
    }
  }

  function First(path: string): seq<string> {
    if Piece(path) == 0 then [] else [path[..Piece(path)]]
  }

  function Rest(path: string): string
    requires path != ""
  {
    path[if Piece(path) == 0 then 1 else Piece(path)..]
  }

  lemma ComponentsStep(path: string)
    requires path != ""
    ensures Components(path) == First(path) + Components(Rest(path))
  {
  }

  /** The first piece ends inside `p`. */
  lemma FirstBefore(p: string, q: string)
    requires p != "" && (p[|p| - 1] == '/' || q == "" || q[0] == '/')
    ensures First(p + q) == First(p) && Rest(p + q) == Rest(p) + q && |Rest(p)| < |p|
    ensures Rest(p) != "" ==> Rest(p)[|Rest(p)| - 1] == p[|p| - 1]
  {
    assert p[|p| - 1] == '/' ==> '/' in p;
    PieceBefore(p, q);
    hide Piece;
    var n := Piece(p);
    var cut := if n == 0 then 1 else n;
    assert (p + q)[..n] == p[..n] && (p + q)[cut..] == p[cut..] + q;
  }

  lemma {:induction false} ComponentsConcat(p: string, q: string)
    requires p == "" || p[|p| - 1] == '/' || q == "" || q[0] == '/'
    ensures Components(p + q) == Components(p) + Components(q)
    decreases |p|
  {
    hide Components, First, Rest;
    if p == "" {
      assert p + q == q;
      NoComponents();
    } else {
      FirstBefore(p, q);
      ComponentsStep(p);
      ComponentsStep(p + q);
      ComponentsConcat(Rest(p), q);
      Regroup(First(p), Components(Rest(p)), Components(q));
    }
  }

  lemma NoComponents()
    ensures Components("") == []
  {
  }

  lemma Regroup<T>(a: seq<T>, b: seq<T>, c: seq<T>)
    ensures a + (b + c) == (a + b) + c
  {
  }

  /**
   * Joining keeps an absolute path as it is, and puts any other behind the directory, with one '/' where there is
   * none: the pieces of the result are those of the two, in order.
   */
  lemma JoinedPath(dir: string, to: string)
    requires dir != ""
    ensures Absolute(to) ==> JoinPath(dir, to) == to
    ensures !Absolute(to) ==> Components(JoinPath(dir, to)) == Components(dir) + Components(to)
    ensures !Absolute(to) ==>
              var path := JoinPath(dir, to);
              && |path| == |dir| + |to| + (if dir[|dir| - 1] == '/' then 0 else 1)
              && dir <= path && path[|path| - |to|..] == to
    ensures Absolute(JoinPath(dir, to)) <==> Absolute(to) || Absolute(dir)
  {
    if !Absolute(to) {
      var slash := if dir[|dir| - 1] == '/' then "" else "/";
      assert JoinPath(dir, to) == dir + (slash + to) == dir + slash + to;
      if slash == "" {
        assert slash + to == to;
        ComponentsConcat(dir, to);
      } else {
        ComponentsConcat(dir, slash + to);
        assert Components("/" + to) == Components(to) by { assert ("/" + to)[1..] == to; }
      }
    }
  }

  // ---- the directory of each command ----

  /**
   * The pieces of the directory that the `cd`s of a list of nodes lead to: those of all of them, in order, from the
   * last absolute one on, or from "." when none is absolute.
   */
  function Trail(before: seq<Node>): seq<string> {
    if before == [] then ["."]
    else
      var front, n := before[..|before| - 1], before[|before| - 1];
      if n.Chdir? && n.dir.Some? then
        if Absolute(n.dir.value) then Components(n.dir.value) else Trail(front) + Components(n.dir.value)
      else Trail(front)
  }

  predicate HasCd(before: seq<Node>) {
    exists k :: 0 <= k < |before| && before[k].Chdir?
  }

  predicate HasAbsoluteCd(before: seq<Node>) {
    exists k :: 0 <= k < |before| && before[k].Chdir? && before[k].dir.Some? && Absolute(before[k].dir.value)
  }

  /** `dir` is where the `cd`s of `before` lead. */
  predicate LeadsTo(before: seq<Node>, dir: string) {
    && dir != "" && (dir == "." <==> !HasCd(before))
    && Components(dir) == Trail(before) && (Absolute(dir) <==> HasAbsoluteCd(before))
  }

  function CountCommands(nodes: seq<Node>): nat {
    if nodes == [] then 0
    else CountCommands(nodes[..|nodes| - 1]) + if nodes[|nodes| - 1].Command? then 1 else 0
  }

  /** `view` shows the command at position `i`, launched in the directory that the `cd`s before it lead to. */
  predicate LaunchedAt(nodes: seq<Node>, i: nat, view: View) {
    && i < |nodes| && nodes[i].Command?
    && view.argv == nodes[i].argv && view.env == nodes[i].envVars
    && (view.cwd.None? <==> !HasCd(nodes[..i]))
    && (view.cwd.Some? ==> LeadsTo(nodes[..i], view.cwd.value))
  }

  lemma NothingBefore()
    ensures LeadsTo([], ".")
  {
    assert "."[1..] == "" && Piece("") == 0 && Piece(".") == 1;
    assert "."[..1] == "." && "."[1..] == "";
  }

  lemma OneMoreNode(before: seq<Node>, n: Node)
    ensures HasCd(before + [n]) <==> HasCd(before) || n.Chdir?
    ensures HasAbsoluteCd(before + [n])
            <==> HasAbsoluteCd(before) || (n.Chdir? && n.dir.Some? && Absolute(n.dir.value))
    ensures CountCommands(before + [n]) == CountCommands(before) + if n.Command? then 1 else 0
    ensures !n.Chdir? ==> Trail(before + [n]) == Trail(before)
    ensures n.Chdir? && n.dir.Some? ==>
              Trail(before + [n])
              == if Absolute(n.dir.value) then Components(n.dir.value) else Trail(before) + Components(n.dir.value)
  {
    var all := before + [n];
    assert all[..|before|] == before && all[|before|] == n;
    assert forall k :: 0 <= k < |before| ==> all[k] == before[k];
  }

  lemma StepOver(before: seq<Node>, n: Node, op: Operator, dir: string)
    requires LeadsTo(before, dir) && !n.Op? && (n.Chdir? ==> n.dir.Some?)
    ensures LeadsTo(before + [n, Op(op)], if n.Chdir? then JoinPath(dir, n.dir.value) else dir)
    ensures CountCommands(before + [n, Op(op)]) == CountCommands(before) + if n.Command? then 1 else 0
  {
    OneMoreNode(before, n);
    OneMoreNode(before + [n], Op(op));
    assert before + [n] + [Op(op)] == before + [n, Op(op)];
    hide Components, JoinPath, Trail, HasCd, HasAbsoluteCd;
    if n.Chdir? {
      JoinedPath(dir, n.dir.value);
      JoinedDirMoves(dir, n.dir.value);
    }
  }

  /** Every launch of the evaluation from `nodes` on, `before` standing in front. */
  lemma {:induction false} ListDirectories(before: seq<Node>, nodes: seq<Node>, dir: string, feeder: Option<nat>,
                                           exits: nat -> int, n: nat, k: nat) returns (i: nat)
    requires PipelineOk(nodes) && LeadsTo(before, dir) && k < |RunList(nodes, dir, feeder, exits, n).0|
    ensures LaunchedAt(before + nodes, i, RunList(nodes, dir, feeder, exits, n).0[k])
    ensures CountCommands((before + nodes)[..i]) == CountCommands(before) + k
    decreases |nodes|
  {
    hide CommandOk, JoinPath, LeadsTo, CountCommands, HasCd;
    var node := nodes[0];
    assert (before + nodes)[..|before|] == before && (before + nodes)[|before|] == node;
    if node.Command? && k == 0 {
      i := |before|;
      FirstView(nodes, dir, feeder, exits, n);
      NotDot(before, dir);
    } else {
      var op := nodes[1].op;
      assert before + [node, Op(op)] + nodes[2..] == before + nodes;
      var dir' := if node.Chdir? then JoinPath(dir, node.dir.value) else dir;
      StepOver(before, node, op, dir);
      if node.Chdir? {
        i := ListDirectories(before + [node, Op(op)], nodes[2..], dir', feeder, exits, n, k);
      } else {
        var feeder' := if op.Pipe? then Some(n) else None;
        i := ListDirectories(before + [node, Op(op)], nodes[2..], dir', feeder', exits, n + 1, k - 1);
      }
    }
  }

  lemma FirstView(nodes: seq<Node>, dir: string, feeder: Option<nat>, exits: nat -> int, n: nat)
    requires PipelineOk(nodes) && nodes[0].Command?
    ensures var views := RunList(nodes, dir, feeder, exits, n).0;
            views != [] && views[0] == ViewOf(Placed(nodes[0], dir), feeder)
  {
    hide NodeOk, ViewOf, JoinPath;
  }

  lemma NotDot(before: seq<Node>, dir: string)
    requires LeadsTo(before, dir)
    ensures dir == "." <==> !HasCd(before)
  {
  }

  /**
   * On every accepted token list, the k-th command that `run` launches is the k-th of the pipeline, with its arguments
   * and assignments, in the directory that the `cd`s before it lead to; in the caller's when there are none.
   */
  lemma RunDirectories(tokens: seq<string>, nodes: seq<Node>, exits: nat -> int, fileCount: nat, procCount: nat, k: nat)
    returns (i: nat)
    requires Parse(tokens) == Some(nodes)
    requires k < |Launches(RunMachine(Start(nodes, fileCount, procCount), exits).0)|
    ensures LaunchedAt(nodes, i, Launches(RunMachine(Start(nodes, fileCount, procCount), exits).0)[k])
    ensures CountCommands(nodes[..i]) == k
  {
    hide Parse, RunMachine, Launches, PipelineOk, RunList, LaunchedAt;
    RunIsList(tokens, nodes, exits, fileCount, procCount);
    NothingBefore();
    i := ListDirectories([], nodes, ".", None, exits, procCount, k);
    assert [] + nodes == nodes;
  }
}
