/** Short command lines on which `run` does not do what a POSIX shell does, and what is different about them. */
module ShellSeparations {
  import opened Options
  import opened ShellParse
  import opened ShellGrammar
  import opened ShellCanon
  import opened ShellRun
  import opened ShellEval
  import opened ShellList
  import opened ShellPosix

  /** The tokens are accepted with complete directory changes; the other two conditions hold or fail as given. */
  ghost predicate Verdict(tokens: seq<string>, oneList: bool, sameFiles: bool) {
    exists nodes :: Parse(tokens) == Some(nodes) && PipelineOk(nodes) && CdsComplete(nodes)
      && OneList(nodes) == oneList && SameFiles(nodes, false, false) == sameFiles
  }

  ghost predicate Differs(nodes: seq<Node>, home: string, fileCount: nat, procCount: nat)
    requires PipelineOk(nodes)
  {
    exists exits: nat -> int ::
      var r := RunMachine(Start(nodes, fileCount, procCount), exits);
      (Launches(r.0), r.1) != PosixList(nodes, ".", None, None, home, exits, procCount)
  }

  /** `a || cd x && b`, `a | cd x && b`, `a | b < f` and `cd x && a > f`, with the condition each of them fails. */
  lemma SeparatingInputs()
    ensures Verdict(["a", "||", "cd", "x", "&&", "b"], false, true)
    ensures Verdict(["a", "|", "cd", "x", "&&", "b"], true, false)
    ensures Verdict(["a", "|", "b", "<", "f"], true, false)
    ensures Verdict(["cd", "x", "&&", "a", ">", "f"], true, false)
  {
    OrBeforeCd();
    PipeIntoCd();
    PipeIntoRedirection();
    RelativeBehindCd();
  }

  /** On such tokens there are exit codes for which the two launch or return something else. */
  lemma VerdictDiffers(tokens: seq<string>, oneList: bool, sameFiles: bool,
                       home: string, fileCount: nat, procCount: nat)
    requires Verdict(tokens, oneList, sameFiles) && !(oneList && sameFiles)
    ensures Parse(tokens).Some? && PipelineOk(Parse(tokens).value)
    ensures Differs(Parse(tokens).value, home, fileCount, procCount)
  {
    hide Parse, PipelineOk, CdsComplete, OneList, SameFiles, RunMachine, Launches, PosixList;
    RunIsPosixIff(tokens, Parse(tokens).value, home, fileCount, procCount);
  }

  // ---- scripts of plain commands ----

  function Plain(name: string, items: seq<Item>): Clause {
    Simple([], name, items)
  }

  lemma PlainName(name: string)
    requires name in {"a", "b"}
    ensures EnvMatch(name).None? && name != "cd"
  {
    assert WordPrefix(name[1..]) == 0 && WordPrefix(name) == 1;
  }

  lemma PlainMeans(name: string)
    requires name in {"a", "b"}
    ensures ClauseOk(Plain(name, [])) && PrintClause(Plain(name, [])) == [name]
    ensures Meaning(Plain(name, [])) == NewCommand(name, map[])
  {
    PlainName(name);
    hide EnvMatch;
    assert [] + [name] + [] == [name];
  }

  lemma RedirectedMeans(name: string, item: Item)
    requires name in {"a", "b"} && (item.In? || item.OutTo?)
    ensures ClauseOk(Plain(name, [item])) && PrintClause(Plain(name, [item])) == [name] + PrintItem(item)
    ensures Meaning(Plain(name, [item])) == AddItem(NewCommand(name, map[]), item)
  {
    PlainName(name);
    hide EnvMatch;
    AddOne(NewCommand(name, map[]), item);
    assert [item][1..] == [];
    assert PrintItems([item]) == PrintItem(item);
    assert [] + [name] + PrintItem(item) == [name] + PrintItem(item);
  }

  lemma Accepted(s: Script)
    requires ScriptOk(s)
    ensures Parse(Print(s)) == Some(Denote(s)) && PipelineOk(Denote(s))
  {
    hide Parse, Print, Denote, PipelineOk, ScriptOk;
    ParseIsGrammar(Print(s), Denote(s));
    ParsedPipelines(Denote(s));
  }

  lemma TwoClauses(c: Clause, op: Operator, d: Clause)
    requires ClauseOk(c) && OpFits(c, op) && ClauseOk(d)
    ensures var nodes := [Before(c, op), Op(op), Meaning(d)];
            Parse(PrintClause(c) + [PrintOp(op)] + PrintClause(d)) == Some(nodes) && PipelineOk(nodes)
  {
    hide Parse, PipelineOk, ClauseOk, OpFits, Before, Meaning, PrintClause, PrintOp;
    var s := Then(c, op, Last(d, []));
    assert PrintClause(d) + [] == PrintClause(d);
    Accepted(s);
    assert Denote(s) == [Before(c, op), Op(op), Meaning(d)];
  }

  lemma ThreeClauses(c: Clause, op: Operator, d: Clause, op': Operator, e: Clause)
    requires ClauseOk(c) && OpFits(c, op) && ClauseOk(d) && OpFits(d, op') && ClauseOk(e)
    ensures var nodes := [Before(c, op), Op(op), Before(d, op'), Op(op'), Meaning(e)];
            && Parse(PrintClause(c) + [PrintOp(op)] + (PrintClause(d) + [PrintOp(op')] + PrintClause(e))) == Some(nodes)
            && PipelineOk(nodes)
  {
    hide Parse, PipelineOk, ClauseOk, OpFits, Before, Meaning, PrintClause, PrintOp;
    var s1 := Then(d, op', Last(e, []));
    var s := Then(c, op, s1);
    assert PrintClause(e) + [] == PrintClause(e);
    assert ScriptOk(s1) && Print(s1) == PrintClause(d) + [PrintOp(op')] + PrintClause(e);
    Accepted(s);
    assert Print(s) == PrintClause(c) + [PrintOp(op)] + Print(s1);
    assert Denote(s1) == [Before(d, op'), Op(op'), Meaning(e)];
    assert Denote(s) == [Before(c, op), Op(op), Before(d, op'), Op(op'), Meaning(e)];
  }

  // ---- the condition on short pipelines ----

  lemma TwoElements(n: Node, op: Operator, m: Node, fed: bool, moved: bool)
    requires PipelineOk([n, Op(op), m]) && !n.Op? && !m.Op?
    ensures AfterLeadingCds([n, Op(op), m]) == if n.Chdir? then [m] else [n, Op(op), m]
    ensures SameFiles([n, Op(op), m], fed, moved)
            <==> && (if n.Chdir? then !fed else SameTies(n, fed, moved))
                 && (if m.Chdir? then !op.Pipe? else SameTies(m, op.Pipe?, moved || n.Chdir?))
  {
    hide NodeOk, SameTies;
    assert [n, Op(op), m][2..] == [m];
  }

  lemma ThreeElements(n: Node, op: Operator, m: Node, op': Operator, k: Node)
    requires PipelineOk([n, Op(op), m, Op(op'), k]) && n.Command? && !m.Op? && !k.Op?
    ensures var nodes := [n, Op(op), m, Op(op'), k];
            && AfterLeadingCds(nodes) == nodes
            && (SameFiles(nodes, false, false)
                <==> && SameTies(n, false, false)
                     && (if m.Chdir? then !op.Pipe? else SameTies(m, op.Pipe?, false))
                     && (if k.Chdir? then !op'.Pipe? else SameTies(k, op'.Pipe?, m.Chdir?)))
  {
    hide NodeOk, SameTies;
    var nodes := [n, Op(op), m, Op(op'), k];
    assert nodes[2..] == [m, Op(op'), k];
    TwoElements(m, op', k, op.Pipe?, false);
  }

  // ---- the inputs ----

  lemma OrBeforeCd()
    ensures Verdict(["a", "||", "cd", "x", "&&", "b"], false, true)
  {
    hide Parse, PipelineOk, SameFiles, AfterLeadingCds, EnvMatch;
    PlainMeans("a");
    PlainMeans("b");
    ThreeClauses(Plain("a", []), Or, Cd(Some("x")), And, Plain("b", []));
    assert PrintClause(Cd(Some("x"))) == ["cd", "x"];
    hide PrintClause, Meaning, ClauseOk, OpFits, Before;
    var a, b, cd := NewCommand("a", map[]), NewCommand("b", map[]), Chdir(Some("x"));
    var nodes := [a, Op(Or), cd, Op(And), b];
    assert ["a"] + ["||"] + (["cd", "x"] + ["&&"] + ["b"]) == ["a", "||", "cd", "x", "&&", "b"];
    ThreeElements(a, Or, cd, And, b);
    assert nodes[1] == Op(Or) && nodes[3] == Op(And);
  }

  lemma PipeIntoCd()
    ensures Verdict(["a", "|", "cd", "x", "&&", "b"], true, false)
  {
    hide Parse, PipelineOk, SameFiles, AfterLeadingCds, EnvMatch;
    PlainMeans("a");
    PlainMeans("b");
    ThreeClauses(Plain("a", []), Pipe, Cd(Some("x")), And, Plain("b", []));
    assert PrintClause(Cd(Some("x"))) == ["cd", "x"];
    hide PrintClause, Meaning, ClauseOk, OpFits, Before;
    var a, b, cd := NewCommand("a", map[]).(stdout := Piped), NewCommand("b", map[]), Chdir(Some("x"));
    assert ["a"] + ["|"] + (["cd", "x"] + ["&&"] + ["b"]) == ["a", "|", "cd", "x", "&&", "b"];
    ThreeElements(a, Pipe, cd, And, b);
    assert OneOperator([a, Op(Pipe), cd, Op(And), b], And);
  }

  lemma PipeIntoRedirection()
    ensures Verdict(["a", "|", "b", "<", "f"], true, false)
  {
    hide Parse, PipelineOk, SameFiles, AfterLeadingCds, EnvMatch;
    PlainMeans("a");
    RedirectedMeans("b", In("f"));
    TwoClauses(Plain("a", []), Pipe, Plain("b", [In("f")]));
    hide PrintClause, Meaning, ClauseOk, OpFits, Before;
    var a, b := NewCommand("a", map[]).(stdout := Piped), NewCommand("b", map[]).(stdin := Some("f"));
    assert ["a"] + ["|"] + (["b"] + ["<", "f"]) == ["a", "|", "b", "<", "f"];
    TwoElements(a, Pipe, b, false, false);
    assert OneOperator([a, Op(Pipe), b], And);
  }

  lemma RelativeBehindCd()
    ensures Verdict(["cd", "x", "&&", "a", ">", "f"], true, false)
  {
    hide Parse, PipelineOk, SameFiles, AfterLeadingCds, EnvMatch;
    RedirectedMeans("a", OutTo("f"));
    TwoClauses(Cd(Some("x")), And, Plain("a", [OutTo("f")]));
    assert PrintClause(Cd(Some("x"))) == ["cd", "x"];
    hide PrintClause, Meaning, ClauseOk, OpFits, Before;
    var a, cd := NewCommand("a", map[]).(stdout := OutFile("f")), Chdir(Some("x"));
    assert ["cd", "x"] + ["&&"] + (["a"] + [">", "f"]) == ["cd", "x", "&&", "a", ">", "f"];
    TwoElements(cd, And, a, false, false);
    assert OneOperator([a], And);
  }
}
