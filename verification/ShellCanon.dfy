/** The pipelines that `Pipeline.parse` can return, and a canonical printer that `parse` inverts. */
module ShellCanon {
  import opened Options
  import opened ShellParse
  import opened ShellGrammar
  import opened ShellAssignments

  predicate BindingOk(key: string, value: string) {
    IsKey(key) && IsValue(value)
  }

  /** No key and value make this an assignment. */
  ghost predicate IsName(name: string) {
    name != "cd" && forall key, value :: !Assigns(name, key, value)
  }

  /** A command as `parse` builds it, seen apart from a pipe on its standard output. */
  ghost predicate CommandOk(n: Node)
    requires n.Command?
  {
    && |n.argv| > 0 && n.argv[0] == n.name
    && IsName(n.name)
    && (forall i :: 1 <= i < |n.argv| ==> !IsReserved(n.argv[i]))
    && (forall k :: k in n.envVars ==> BindingOk(k, n.envVars[k]))
  }

  /** An element that stands last (`op` absent) or before an operator. */
  ghost predicate NodeOk(n: Node, op: Option<Operator>) {
    match n
    case Command(_, _, _, stdout, _, _) => CommandOk(n) && (stdout == Piped <==> op == Some(Pipe))
    case Chdir(dir) => dir != Some("&&") && (op == None || op == Some(And))
    case Op(_) => false
  }

  /**
   * An odd-length alternation of elements and operators, standard output piped exactly before a pipe, and a
   * directory change only before && or at the end.
   */
  ghost predicate PipelineOk(nodes: seq<Node>) {
    && |nodes| > 0
    && if |nodes| == 1 then NodeOk(nodes[0], None)
       else nodes[1].Op? && NodeOk(nodes[0], Some(nodes[1].op)) && PipelineOk(nodes[2..])
  }

  // ---- what parse returns is well formed ----

  /** A matched assignment has a key and a value, and matches again when printed. */
  lemma MatchIsBinding(token: string)
    requires EnvMatch(token).Some?
    ensures BindingOk(EnvMatch(token).value.0, EnvMatch(token).value.1)
    ensures EnvMatch(EnvMatch(token).value.0 + "=" + EnvMatch(token).value.1) == EnvMatch(token)
  {
    hide EnvMatch, IsKey, IsValue;
    var (key, value) := EnvMatch(token).value;
    EnvMatchIff(token, key, value);
    BindingMatches(key, value);
  }

  lemma BindingMatches(key: string, value: string)
    requires BindingOk(key, value)
    ensures EnvMatch(key + "=" + value) == Some((key, value))
  {
    hide EnvMatch, IsKey, IsValue;
    EnvMatchIff(key + "=" + value, key, value);
  }

  lemma NameIff(name: string)
    ensures IsName(name) <==> EnvMatch(name).None? && name != "cd"
  {
    hide EnvMatch, Assigns;
    forall key, value ensures Assigns(name, key, value) <==> EnvMatch(name) == Some((key, value)) {
      EnvMatchIff(name, key, value);
    }
    if EnvMatch(name).Some? {
      var (key, value) := EnvMatch(name).value;
      assert Assigns(name, key, value);
    }
  }

  lemma {:induction false} BindGivesBindings(env: map<string, string>, tokens: seq<string>)
    requires forall t :: t in tokens ==> EnvMatch(t).Some?
    requires forall k :: k in env ==> BindingOk(k, env[k])
    ensures forall k :: k in Bind(env, tokens) ==> BindingOk(k, Bind(env, tokens)[k])
    decreases |tokens|
  {
    hide BindingOk, EnvMatch;
    if tokens == [] {
    } else {
      MatchIsBinding(tokens[0]);
      var binding := EnvMatch(tokens[0]).value;
      BindGivesBindings(env[binding.0 := binding.1], tokens[1..]);
    }
  }

  lemma {:induction false} ItemsKeepOk(cmd: Node, items: seq<Item>)
    requires cmd.Command? && CommandOk(cmd) && cmd.stdout != Piped && ItemsFit(cmd, items)
    ensures CommandOk(AddItems(cmd, items)) && AddItems(cmd, items).stdout != Piped
    decreases |items|
  {
    hide BindingOk, EnvMatch, IsReserved;
    if items == [] {
    } else {
      ItemsKeepOk(AddItem(cmd, items[0]), items[1..]);
    }
  }

  lemma ClauseMeansOk(c: Clause)
    requires ClauseOk(c)
    ensures NodeOk(Meaning(c), None)
    ensures forall op :: OpFits(c, op) ==> NodeOk(Before(c, op), Some(op))
  {
    hide EnvMatch, BindingOk;
    match c
    case Simple(env, name, items) =>
      BindGivesBindings(map[], env);
      NameIff(name);
      ItemsKeepOk(NewCommand(name, Bind(map[], env)), items);
    case Cd(_) =>
  }

  lemma {:induction false} DenotesOk(s: Script)
    requires ScriptOk(s)
    ensures PipelineOk(Denote(s))
  {
    hide ClauseOk, NodeOk, Meaning, Before;
    ClauseMeansOk(s.c);
    if s.Last? {
    } else {
      DenotesOk(s.rest);
      assert Denote(s)[2..] == Denote(s.rest);
    }
  }

  // ---- the canonical printer ----

  ghost function EnvTokens(env: map<string, string>): seq<string> {
    if env == map[] then []
    else
      var k :| k in env;
      EnvTokens(env - {k}) + [k + "=" + env[k]]
  }

  function Args(words: seq<string>): seq<Item> {
    seq(|words|, i requires 0 <= i < |words| => Arg(words[i]))
  }

  function Redirections(n: Node): seq<Item>
    requires n.Command?
  {
    (match n.stdin case None => [] case Some(f) => [In(f)])
    + (match n.stdout case OutFile(f) => [OutTo(f)] case _ => [])
    + (match n.stderr case DefaultErr => [] case SameAsStdout => [ErrToOut] case ErrFile(f) => [ErrTo(f)])
  }

  /** Assignments, name, arguments, then <, > and 2>. */
  ghost function ClauseOf(n: Node): Clause
    requires (n.Command? && |n.argv| > 0) || n.Chdir?
  {
    match n
    case Command(name, argv, _, _, _, env) => Simple(EnvTokens(env), name, Args(argv[1..]) + Redirections(n))
    case Chdir(dir) => Cd(dir)
  }

  ghost function ScriptOf(nodes: seq<Node>): Script
    requires PipelineOk(nodes)
    decreases |nodes|
  {
    if |nodes| == 1 then Last(ClauseOf(nodes[0]), [])
    else Then(ClauseOf(nodes[0]), nodes[1].op, ScriptOf(nodes[2..]))
  }

  lemma {:induction false} EnvTokensBind(env: map<string, string>)
    requires forall k :: k in env ==> BindingOk(k, env[k])
    ensures forall t :: t in EnvTokens(env) ==> EnvMatch(t).Some?
    ensures Bind(map[], EnvTokens(env)) == env
    decreases |env|
  {
    hide EnvMatch, BindingOk;
    if env == map[] {
    } else {
      var k :| k in env && EnvTokens(env) == EnvTokens(env - {k}) + [k + "=" + env[k]];
      EnvTokensBind(env - {k});
      BindingMatches(k, env[k]);
      BindAppend(map[], EnvTokens(env - {k}), k + "=" + env[k]);
      assert env == (env - {k})[k := env[k]];
    }
  }

  lemma {:induction false} AddArgs(cmd: Node, words: seq<string>)
    requires cmd.Command? && forall i :: 0 <= i < |words| ==> !IsReserved(words[i])
    ensures ItemsFit(cmd, Args(words)) && AddItems(cmd, Args(words)) == cmd.(argv := cmd.argv + words)
    decreases |words|
  {
    hide IsReserved;
    if words == [] {
      assert cmd.argv + words == cmd.argv;
    } else {
      assert Args(words)[1..] == Args(words[1..]);
      AddArgs(cmd.(argv := cmd.argv + [words[0]]), words[1..]);
      assert cmd.argv + [words[0]] + words[1..] == cmd.argv + words;
    }
  }

  lemma {:induction false} AddItemsConcat(cmd: Node, a: seq<Item>, b: seq<Item>)
    requires cmd.Command?
    ensures AddItems(cmd, a + b) == AddItems(AddItems(cmd, a), b)
    ensures ItemsFit(cmd, a + b) <==> ItemsFit(cmd, a) && ItemsFit(AddItems(cmd, a), b)
    decreases |a|
  {
    hide Fits, AddItem;
    if a == [] {
      assert a + b == b;
    } else {
      assert (a + b)[1..] == a[1..] + b;
      AddItemsConcat(AddItem(cmd, a[0]), a[1..], b);
    }
  }

  /** A command with its standard output not yet piped. */
  function Unpiped(n: Node): Node
    requires n.Command?
  {
    if n.stdout == Piped then n.(stdout := DefaultOut) else n
  }

  lemma AddOne(cmd: Node, item: Item)
    requires cmd.Command?
    ensures AddItems(cmd, [item]) == AddItem(cmd, item)
    ensures ItemsFit(cmd, [item]) <==> Fits(cmd, item)
  {
    assert [item][1..] == [];
  }

  lemma AddRedirections(cmd: Node, n: Node)
    requires cmd.Command? && n.Command? && cmd == n.(stdin := None, stdout := DefaultOut, stderr := DefaultErr)
    ensures ItemsFit(cmd, Redirections(n)) && AddItems(cmd, Redirections(n)) == Unpiped(n)
  {
    hide ItemsFit, AddItems;
    var a: seq<Item> := match n.stdin case None => [] case Some(f) => [In(f)];
    var b: seq<Item> := match n.stdout case OutFile(f) => [OutTo(f)] case _ => [];
    var c: seq<Item> :=
      match n.stderr case DefaultErr => [] case SameAsStdout => [ErrToOut] case ErrFile(f) => [ErrTo(f)];
    var c1 := cmd.(stdin := n.stdin);
    var c2 := c1.(stdout := Unpiped(n).stdout);
    AddNone(cmd); AddNone(c1); AddNone(c2);
    if a != [] { AddOne(cmd, a[0]); assert a == [a[0]]; }
    if b != [] { AddOne(c1, b[0]); assert b == [b[0]]; }
    if c != [] { AddOne(c2, c[0]); assert c == [c[0]]; }
    AddItemsConcat(cmd, a, b);
    AddItemsConcat(cmd, a + b, c);
  }

  lemma AddNone(cmd: Node)
    requires cmd.Command?
    ensures AddItems(cmd, []) == cmd && ItemsFit(cmd, [])
  {
  }

  lemma ClauseOfCommand(n: Node)
    requires n.Command? && CommandOk(n)
    ensures ClauseOk(ClauseOf(n)) && Meaning(ClauseOf(n)) == Unpiped(n)
  {
    hide EnvMatch, BindingOk, EnvTokens, AddItems, ItemsFit, IsReserved;
    NameIff(n.name);
    EnvTokensBind(n.envVars);
    var bare := NewCommand(n.name, n.envVars);
    AddArgs(bare, n.argv[1..]);
    assert [n.name] + n.argv[1..] == n.argv;
    AddItemsConcat(bare, Args(n.argv[1..]), Redirections(n));
    AddRedirections(bare.(argv := n.argv), n);
  }

  lemma {:induction false} ScriptOfDenotes(nodes: seq<Node>)
    requires PipelineOk(nodes)
    ensures ScriptOk(ScriptOf(nodes)) && Denote(ScriptOf(nodes)) == nodes
    decreases |nodes|
  {
    hide ClauseOk, ClauseOf, Meaning, CommandOk;
    var n := nodes[0];
    if n.Command? {
      ClauseOfCommand(n);
    } else {
      ClauseOfChdir(n);
    }
    if |nodes| <= 1 {
    } else {
      ScriptOfDenotes(nodes[2..]);
      assert [n, nodes[1]] + nodes[2..] == nodes;
      assert nodes[1] == Op(nodes[1].op);
    }
  }

  lemma ClauseOfChdir(n: Node)
    requires n.Chdir? && n.dir != Some("&&")
    ensures ClauseOf(n).Cd? && ClauseOk(ClauseOf(n)) && Meaning(ClauseOf(n)) == n
  {
  }

  /** `parse` inverts the canonical printer, each assignment going to exactly the command it was printed for. */
  lemma ParseInvertsPrinter(nodes: seq<Node>)
    requires PipelineOk(nodes)
    ensures Parse(Print(ScriptOf(nodes))) == Some(nodes)
  {
    ScriptOfDenotes(nodes);
    ParseOfPrint(ScriptOf(nodes));
  }

  /** The pipelines that some token list parses to are exactly the well-formed ones. */
  lemma ParsedPipelines(nodes: seq<Node>)
    ensures (exists tokens :: Parse(tokens) == Some(nodes)) <==> PipelineOk(nodes)
  {
    if tokens :| Parse(tokens) == Some(nodes) {
      ParseIsGrammar(tokens, nodes);
      var s :| ScriptOk(s) && Print(s) == tokens && Denote(s) == nodes;
      DenotesOk(s);
    }
    if PipelineOk(nodes) {
      ParseInvertsPrinter(nodes);
    }
  }
}
