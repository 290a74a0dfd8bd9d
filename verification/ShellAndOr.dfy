/**
 * Pipe groups joined by && and ||: how right-associated short-circuiting compares with the left-associative lists of
 * section 2.9.3 of the POSIX.1-2008 Shell Command Language.
 */
module ShellAndOr {
  import opened ShellParse
  import opened ShellRun
  import opened ShellEval

  predicate Complete(a: AndOr) {
    !a.Broken? && Solid(a) && (a.Joined? ==> Complete(a.rest))
  }

  predicate AllOps(a: AndOr, op: Operator) {
    a.Joined? ==> a.op == op && AllOps(a.rest, op)
  }

  /** What follows an operator, given the status so far: each group runs or is skipped by itself. */
  function EvalLeftRest(status: int, op: Operator, a: AndOr, exits: nat -> int, n: nat): (seq<View>, RunResult)
    requires Complete(a)
    decreases a
  {
    var runs := Proceeds(op, status);
    var views := if runs then GroupViews(a.g, n) else [];
    var status' := if runs then StatusOf(a.g, n, exits) else status;
    if a.Only? then (views, Status(status'))
    else
      var r := EvalLeftRest(status', a.op, a.rest, exits, if runs then n + |a.g| else n);
      (views + r.0, r.1)
  }

  /** Section 2.9.3 of the POSIX.1-2008 Shell Command Language: && and || have equal precedence, left-associative. */
  function EvalLeft(a: AndOr, exits: nat -> int, n: nat): (seq<View>, RunResult)
    requires Complete(a)
  {
    if a.Only? then (GroupViews(a.g, n), Status(StatusOf(a.g, n, exits)))
    else
      var r := EvalLeftRest(StatusOf(a.g, n, exits), a.op, a.rest, exits, n + |a.g|);
      (GroupViews(a.g, n) + r.0, r.1)
  }

  lemma {:induction false} SkipsToTheEnd(status: int, op: Operator, a: AndOr, exits: nat -> int, n: nat)
    requires Complete(a) && AllOps(a, op) && !Proceeds(op, status)
    ensures EvalLeftRest(status, op, a, exits, n) == ([], Status(status))
    decreases a
  {
    if !a.Joined? {
    } else {
      SkipsToTheEnd(status, op, a.rest, exits, n);
      var nothing: seq<View> := [];
      assert nothing + nothing == nothing;
    }
  }

  lemma RunsOn(status: int, op: Operator, a: AndOr, exits: nat -> int, n: nat)
    requires Complete(a) && Proceeds(op, status)
    ensures EvalLeftRest(status, op, a, exits, n) == EvalLeft(a, exits, n)
  {
  }

  lemma {:induction false} SameOperatorAgrees(a: AndOr, op: Operator, exits: nat -> int, n: nat)
    requires Complete(a) && AllOps(a, op)
    ensures Eval(a, exits, n) == EvalLeft(a, exits, n)
    decreases a
  {
    if !a.Joined? {
    } else {
      var status := StatusOf(a.g, n, exits);
      if Proceeds(op, status) {
        RunsOn(status, op, a.rest, exits, n + |a.g|);
        SameOperatorAgrees(a.rest, op, exits, n + |a.g|);
      } else {
        SkipsToTheEnd(status, op, a.rest, exits, n + |a.g|);
        assert GroupViews(a.g, n) + [] == GroupViews(a.g, n);
      }
    }
  }

  lemma {:induction false} ViewCount(g: seq<Placed>, n: nat)
    requires AllCommands(g)
    ensures |GroupViews(g, n)| == |g|
    decreases |g|
  {
    if g == [] {
    } else {
      ViewCount(g[..|g| - 1], n);
    }
  }

  lemma {:induction false} EvalLooksAhead(a: AndOr, e: nat -> int, f: nat -> int, n: nat)
    requires Complete(a) && forall k :: k >= n ==> e(k) == f(k)
    ensures Eval(a, e, n) == Eval(a, f, n)
    ensures EvalLeft(a, e, n) == EvalLeft(a, f, n)
    decreases a
  {
    if !a.Joined? {
    } else {
      EvalLooksAhead(a.rest, e, f, n + |a.g|);
      LeftLooksAhead(StatusOf(a.g, n, e), a.op, a.rest, e, f, n + |a.g|);
    }
  }

  lemma {:induction false} LeftLooksAhead(status: int, op: Operator, a: AndOr, e: nat -> int, f: nat -> int, n: nat)
    requires Complete(a) && forall k :: k >= n ==> e(k) == f(k)
    ensures EvalLeftRest(status, op, a, e, n) == EvalLeftRest(status, op, a, f, n)
    decreases a
  {
    hide GroupViews;
    if !a.Joined? {
    } else {
      var runs := Proceeds(op, status);
      LeftLooksAhead(if runs then StatusOf(a.g, n, e) else status, a.op, a.rest, e, f, if runs then n + |a.g| else n);
    }
  }

  /** Where a list changes from one operator to the other, some exit codes tell the two semantics apart. */
  lemma {:induction false} MixedOperatorsDisagree(a: AndOr, n: nat)
    requires Complete(a) && !AllOps(a, And) && !AllOps(a, Or)
    ensures exists exits: nat -> int :: Eval(a, exits, n) != EvalLeft(a, exits, n)
    decreases a
  {
    var m := n + |a.g|;
    if a.rest.Joined? && a.rest.op != a.op {
      var stop := if a.op.And? then 1 else 0;
      var exits: nat -> int := _ => stop;
      var third := a.rest.rest;
      RunsOn(stop, a.rest.op, third, exits, m);
      ViewCount(third.g, m);
      var r := EvalLeft(third, exits, m);
      assert |r.0| >= |third.g| > 0;
      assert EvalLeftRest(stop, a.op, a.rest, exits, m).0 == [] + r.0;
      assert Eval(a, exits, n).0 == GroupViews(a.g, n);
      assert Eval(a, exits, n) != EvalLeft(a, exits, n);
    } else {
      MixedOperatorsDisagree(a.rest, m);
      var later: nat -> int :| Eval(a.rest, later, m) != EvalLeft(a.rest, later, m);
      var go := if a.op.And? then 0 else 1;
      var exits: nat -> int := k => if k < m then go else later(k);
      EvalLooksAhead(a.rest, later, exits, m);
      RunsOn(go, a.op, a.rest, exits, m);
      assert StatusOf(a.g, n, exits) == go;
      DifferentTails(GroupViews(a.g, n), Eval(a.rest, exits, m), EvalLeft(a.rest, exits, m));
      assert Eval(a, exits, n) != EvalLeft(a, exits, n);
    }
  }

  lemma DifferentTails(head: seq<View>, r: (seq<View>, RunResult), s: (seq<View>, RunResult))
    requires r != s
    ensures (head + r.0, r.1) != (head + s.0, s.1)
  {
    if head + r.0 == head + s.0 {
      assert r.0 == (head + r.0)[|head|..] == (head + s.0)[|head|..] == s.0;
    }
  }

  /**
   * The right-associated short-circuit of `run` agrees with the POSIX semantics, whatever the exit codes, exactly
   * for lists that use only && or only ||.
   */
  lemma AgreesWithPosixIff(a: AndOr, n: nat)
    requires Complete(a)
    ensures (forall exits: nat -> int :: Eval(a, exits, n) == EvalLeft(a, exits, n))
            <==> AllOps(a, And) || AllOps(a, Or)
  {
    if AllOps(a, And) || AllOps(a, Or) {
      forall exits: nat -> int ensures Eval(a, exits, n) == EvalLeft(a, exits, n) {
        SameOperatorAgrees(a, if AllOps(a, And) then And else Or, exits, n);
      }
    } else {
      MixedOperatorsDisagree(a, n);
    }
  }
}
