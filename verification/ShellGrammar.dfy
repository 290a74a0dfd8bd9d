/**
 * The language that `Pipeline.parse` accepts: concrete syntax, its printed tokens and its meaning, with the proof
 * that `parse` accepts exactly the printed tokens of well-formed scripts and returns their meaning.
 */
module ShellGrammar {
  import opened Options
  import opened ShellParse

  datatype Item = Arg(word: string) | In(file: string) | OutTo(file: string) | ErrTo(file: string) | ErrToOut

  /** `env` holds the raw VAR=value tokens. */
  datatype Clause = Simple(env: seq<string>, name: string, items: seq<Item>) | Cd(dir: Option<string>)

  /** A trailing redirection operator without a file name is swallowed silently; `dangling` holds it. */
  datatype Script = Last(c: Clause, dangling: seq<string>) | Then(c: Clause, op: Operator, rest: Script)

  // ---- printing ----

  function PrintItem(item: Item): seq<string> {
    match item
    case Arg(word) => [word]
    case In(file) => ["<", file]
    case OutTo(file) => [">", file]
    case ErrTo(file) => ["2>", file]
    case ErrToOut => ["2>&1"]
  }

  function PrintItems(items: seq<Item>): seq<string> {
    if items == [] then [] else PrintItem(items[0]) + PrintItems(items[1..])
  }

  function PrintClause(c: Clause): seq<string> {
    match c
    case Simple(env, name, items) => env + [name] + PrintItems(items)
    case Cd(None) => ["cd"]
    case Cd(Some(dir)) => ["cd", dir]
  }

  function PrintOp(op: Operator): string {
    match op
    case Pipe => "|"
    case And => "&&"
    case Or => "||"
  }

  function Print(s: Script): seq<string> {
    match s
    case Last(c, dangling) => PrintClause(c) + dangling
    case Then(c, op, rest) => PrintClause(c) + [PrintOp(op)] + Print(rest)
  }

  // ---- meaning ----

  function Bind(env: map<string, string>, tokens: seq<string>): map<string, string>
    requires forall t :: t in tokens ==> EnvMatch(t).Some?
    decreases |tokens|
  {
    if tokens == [] then env
    else
      var binding := EnvMatch(tokens[0]).value;
      Bind(env[binding.0 := binding.1], tokens[1..])
  }

  function AddItem(cmd: Node, item: Item): (r: Node)
    requires cmd.Command?
    ensures r.Command?
  {
    match item
    case Arg(word) => cmd.(argv := cmd.argv + [word])
    case In(file) => cmd.(stdin := Some(file))
    case OutTo(file) => cmd.(stdout := OutFile(file))
    case ErrTo(file) => cmd.(stderr := ErrFile(file))
    case ErrToOut => cmd.(stderr := SameAsStdout)
  }

  function AddItems(cmd: Node, items: seq<Item>): (r: Node)
    requires cmd.Command?
    ensures r.Command?
    decreases |items|
  {
    if items == [] then cmd else AddItems(AddItem(cmd, items[0]), items[1..])
  }

  function Meaning(c: Clause): (r: Node)
    requires ClauseOk(c)
    ensures if c.Cd? then r == Chdir(c.dir) else r.Command?
  {
    match c
    case Simple(env, name, items) => AddItems(NewCommand(name, Bind(map[], env)), items)
    case Cd(dir) => Chdir(dir)
  }

  function Denote(s: Script): seq<Node>
    requires ScriptOk(s)
  {
    match s
    case Last(c, _) => [Meaning(c)]
    case Then(c, op, rest) =>
      [Before(c, op), Op(op)] + Denote(rest)
  }

  /** The node of a clause that stands before an operator. */
  function Before(c: Clause, op: Operator): Node
    requires ClauseOk(c) && OpFits(c, op)
  {
    if op.Pipe? then Meaning(c).(stdout := Piped) else Meaning(c)
  }

  // ---- well-formedness ----

  predicate IsReserved(token: string) {
    token in {">", "2>", "2>&1", "<", "|", "&&", "||"}
  }

  /** Arguments are not operators, and nothing is redirected twice. */
  predicate Fits(cmd: Node, item: Item)
    requires cmd.Command?
  {
    match item
    case Arg(word) => !IsReserved(word)
    case In(_) => cmd.stdin.None?
    case OutTo(_) => cmd.stdout == DefaultOut
    case ErrTo(_) => cmd.stderr == DefaultErr
    case ErrToOut => cmd.stderr == DefaultErr
  }

  predicate ItemsFit(cmd: Node, items: seq<Item>)
    requires cmd.Command?
    decreases |items|
  {
    items == [] || (Fits(cmd, items[0]) && ItemsFit(AddItem(cmd, items[0]), items[1..]))
  }

  predicate ClauseOk(c: Clause) {
    match c
    case Simple(env, name, items) =>
      && (forall t :: t in env ==> EnvMatch(t).Some?)
      && EnvMatch(name).None? && name != "cd"
      && ItemsFit(NewCommand(name, Bind(map[], env)), items)
    case Cd(dir) => dir != Some("&&")
  }

  predicate OpFits(c: Clause, op: Operator)
    requires ClauseOk(c)
  {
    if c.Cd? then op.And? else op.Pipe? ==> Meaning(c).stdout == DefaultOut
  }

  predicate ScriptOk(s: Script) {
    match s
    case Last(c, dangling) =>
      ClauseOk(c) && (dangling == [] || (c.Simple? && dangling in {[">"], ["2>"], ["<"]}))
    case Then(c, op, rest) =>
      ClauseOk(c) && OpFits(c, op) && ScriptOk(rest)
  }

  // ---- every printed script parses back ----

  function AtBegin(env: map<string, string>, nodes: seq<Node>): ParseState {
    ParseState(BEGIN, None, env, nodes)
  }

  function AtCommand(cmd: Node, nodes: seq<Node>): ParseState {
    ParseState(COMMAND, Some(cmd), map[], nodes)
  }

  function AtChdir(dir: Option<string>, nodes: seq<Node>): ParseState {
    ParseState(CHDIR, Some(Chdir(dir)), map[], nodes)
  }

  lemma FeedFirst(st: ParseState, t: string, rest: seq<string>)
    requires Consistent(st)
    ensures ParseFrom(st, [t] + rest)
            == var r := Feed(st, t); if r.Running? then ParseFrom(r.state, rest) else r
  {
    assert ([t] + rest)[1..] == rest;
  }

  lemma {:induction false} ParseEnv(env: map<string, string>, nodes: seq<Node>, tokens: seq<string>, rest: seq<string>)
    requires forall t :: t in tokens ==> EnvMatch(t).Some?
    ensures ParseFrom(AtBegin(env, nodes), tokens + rest) == ParseFrom(AtBegin(Bind(env, tokens), nodes), rest)
    decreases |tokens|
  {
    if tokens == [] {
      assert tokens + rest == rest;
    } else {
      var binding := EnvMatch(tokens[0]).value;
      assert (tokens + rest)[1..] == tokens[1..] + rest;
      ParseEnv(env[binding.0 := binding.1], nodes, tokens[1..], rest);
    }
  }

  lemma ParseItem(cmd: Node, nodes: seq<Node>, item: Item, rest: seq<string>)
    requires cmd.Command? && Fits(cmd, item)
    ensures ParseFrom(AtCommand(cmd, nodes), PrintItem(item) + rest)
            == ParseFrom(AtCommand(AddItem(cmd, item), nodes), rest)
  {
    var tokens := PrintItem(item) + rest;
    if |PrintItem(item)| == 1 {
      assert tokens[1..] == rest;
    } else {
      assert tokens[1..][1..] == rest;
      assert tokens[1..][0] == item.file;
    }
  }

  lemma {:induction false} ParseItems(cmd: Node, nodes: seq<Node>, items: seq<Item>, rest: seq<string>)
    requires cmd.Command? && ItemsFit(cmd, items)
    ensures ParseFrom(AtCommand(cmd, nodes), PrintItems(items) + rest)
            == ParseFrom(AtCommand(AddItems(cmd, items), nodes), rest)
    decreases |items|
  {
    hide ParseFrom, Fits, PrintItem;
    if items == [] {
      assert PrintItems(items) + rest == rest;
    } else {
      assert PrintItems(items) + rest == PrintItem(items[0]) + (PrintItems(items[1..]) + rest);
      ParseItem(cmd, nodes, items[0], PrintItems(items[1..]) + rest);
      ParseItems(AddItem(cmd, items[0]), nodes, items[1..], rest);
    }
  }

  function AfterClause(c: Clause, nodes: seq<Node>): ParseState
    requires ClauseOk(c)
  {
    match c
    case Simple(_, _, _) => AtCommand(Meaning(c), nodes)
    case Cd(dir) => AtChdir(dir, nodes)
  }

  lemma ParseName(name: string, env: map<string, string>, nodes: seq<Node>, items: seq<Item>, rest: seq<string>)
    requires EnvMatch(name).None? && name != "cd"
    ensures ParseFrom(AtBegin(env, nodes), [name] + (PrintItems(items) + rest))
            == ParseFrom(AtCommand(NewCommand(name, env), nodes), PrintItems(items) + rest)
  {
    hide EnvMatch;
    assert ([name] + (PrintItems(items) + rest))[1..] == PrintItems(items) + rest;
  }

  lemma ParseClause(c: Clause, nodes: seq<Node>, rest: seq<string>)
    requires ClauseOk(c)
    ensures ParseFrom(AtBegin(map[], nodes), PrintClause(c) + rest) == ParseFrom(AfterClause(c, nodes), rest)
  {
    match c
    case Simple(env, name, items) =>
      var tail := [name] + (PrintItems(items) + rest);
      assert PrintClause(c) + rest == env + tail;
      ParseEnv(map[], nodes, env, tail);
      ParseName(name, Bind(map[], env), nodes, items, rest);
      hide ParseFrom, EnvMatch, Bind, PrintItems;
      ParseItems(NewCommand(name, Bind(map[], env)), nodes, items, rest);
    case Cd(dir) =>
      assert EnvMatch("cd").None?;
      if dir.Some? {
        assert (PrintClause(c) + rest)[1..] == [dir.value] + rest;
        assert ([dir.value] + rest)[1..] == rest;
      } else {
        assert (PrintClause(c) + rest)[1..] == rest;
      }
  }

  lemma {:induction false} ParsePrinted(s: Script, nodes: seq<Node>)
    requires ScriptOk(s)
    ensures ParseFrom(AtBegin(map[], nodes), Print(s))
            == Running(ParseState(ParsedMode(s), None, map[], nodes + Denote(s)))
  {
    hide ParseFrom, Meaning, ClauseOk, OpFits, Before, PrintOp, PrintClause, AfterClause;
    match s
    case Last(c, dangling) =>
      ParseClause(c, nodes, dangling);
      ParseDangling(c, nodes, dangling);
    case Then(c, op, rest) =>
      var tail := [PrintOp(op)] + Print(rest);
      assert Print(s) == PrintClause(c) + tail;
      ParseClause(c, nodes, tail);
      var n := Before(c, op);
      ParseOperator(c, op, nodes, Print(rest));
      ParsePrinted(rest, nodes + [n, Op(op)]);
      assert nodes + Denote(s) == nodes + [n, Op(op)] + Denote(rest);
  }

  /** The value of the local state variable when `parse` stops; nothing depends on it any more. */
  function ParsedMode(s: Script): Mode {
    match s
    case Last(c, dangling) =>
      if c.Cd? then CHDIR
      else if dangling == [">"] then STDOUT
      else if dangling == ["2>"] then STDERR
      else if dangling == ["<"] then STDIN
      else COMMAND
    case Then(_, _, rest) => ParsedMode(rest)
  }

  lemma ParseDangling(c: Clause, nodes: seq<Node>, dangling: seq<string>)
    requires ScriptOk(Last(c, dangling))
    ensures ParseFrom(AfterClause(c, nodes), dangling)
            == Running(ParseState(ParsedMode(Last(c, dangling)), None, map[], nodes + [Meaning(c)]))
  {
    hide Meaning, ClauseOk;
    if dangling != [] {
      assert dangling[1..] == [];
    }
  }

  lemma ParseOperator(c: Clause, op: Operator, nodes: seq<Node>, rest: seq<string>)
    requires ClauseOk(c) && OpFits(c, op)
    ensures ParseFrom(AfterClause(c, nodes), [PrintOp(op)] + rest)
            == ParseFrom(AtBegin(map[], nodes + [Before(c, op), Op(op)]), rest)
  {
    hide Meaning, ClauseOk;
    assert ([PrintOp(op)] + rest)[1..] == rest;
  }

  /** Parsing the printed tokens of a well-formed script gives its meaning. */
  lemma ParseOfPrint(s: Script)
    requires ScriptOk(s)
    ensures Parse(Print(s)) == Some(Denote(s))
  {
    hide ParseFrom, Print, Denote, ScriptOk;
    ParsePrinted(s, []);
    assert [] + Denote(s) == Denote(s);
  }

  // ---- every accepted token list is a printed script ----

  lemma {:induction false} BindAppend(env: map<string, string>, tokens: seq<string>, t: string)
    requires (forall t :: t in tokens ==> EnvMatch(t).Some?) && EnvMatch(t).Some?
    ensures forall u :: u in tokens + [t] ==> EnvMatch(u).Some?
    ensures Bind(env, tokens + [t]) == Bind(env, tokens)[EnvMatch(t).value.0 := EnvMatch(t).value.1]
    decreases |tokens|
  {
    if tokens == [] {
      assert ([t])[1..] == [];
    } else {
      var binding := EnvMatch(tokens[0]).value;
      assert (tokens + [t])[1..] == tokens[1..] + [t];
      BindAppend(env[binding.0 := binding.1], tokens[1..], t);
    }
  }

  lemma {:induction false} BindKeeps(env: map<string, string>, tokens: seq<string>)
    requires forall t :: t in tokens ==> EnvMatch(t).Some?
    ensures env.Keys <= Bind(env, tokens).Keys
    ensures tokens != [] ==> Bind(env, tokens) != map[]
    decreases |tokens|
  {
    if tokens == [] {
    } else {
      var binding := EnvMatch(tokens[0]).value;
      BindKeeps(env[binding.0 := binding.1], tokens[1..]);
      assert binding.0 in Bind(env, tokens);
    }
  }

  lemma {:induction false} ItemsAppend(cmd: Node, items: seq<Item>, item: Item)
    requires cmd.Command?
    ensures AddItems(cmd, items + [item]) == AddItem(AddItems(cmd, items), item)
    ensures ItemsFit(cmd, items + [item]) <==> ItemsFit(cmd, items) && Fits(AddItems(cmd, items), item)
    ensures PrintItems(items + [item]) == PrintItems(items) + PrintItem(item)
    decreases |items|
  {
    hide Fits;
    if items == [] {
      assert ([item])[1..] == [];
    } else {
      assert (items + [item])[1..] == items[1..] + [item];
      ItemsAppend(AddItem(cmd, items[0]), items[1..], item);
    }
  }

  lemma AppendItem(env: seq<string>, name: string, items: seq<Item>, item: Item)
    requires ClauseOk(Simple(env, name, items)) && Fits(Meaning(Simple(env, name, items)), item)
    ensures ClauseOk(Simple(env, name, items + [item]))
    ensures Meaning(Simple(env, name, items + [item])) == AddItem(Meaning(Simple(env, name, items)), item)
    ensures PrintClause(Simple(env, name, items + [item])) == PrintClause(Simple(env, name, items)) + PrintItem(item)
  {
    ItemsAppend(NewCommand(name, Bind(map[], env)), items, item);
  }

  /** The item that a redirection operator and the token after it stand for. */
  function Redirection(operator: string, file: string): Item
    requires operator in {">", "2>", "<"}
  {
    if operator == ">" then OutTo(file) else if operator == "2>" then ErrTo(file) else In(file)
  }

  lemma RedirectionFed(cmd: Node, nodes: seq<Node>, operator: string, rest: seq<string>)
    requires cmd.Command? && operator in {">", "2>", "<"} && rest != []
    requires ParseFrom(AtCommand(cmd, nodes), [operator] + rest).Running?
    ensures Fits(cmd, Redirection(operator, rest[0]))
    ensures PrintItem(Redirection(operator, rest[0])) + rest[1..] == [operator] + rest
  {
    hide ParseFrom;
    FeedFirst(AtCommand(cmd, nodes), operator, rest);
    var st := Feed(AtCommand(cmd, nodes), operator).state;
    assert [rest[0]] + rest[1..] == rest;
    FeedFirst(st, rest[0], rest[1..]);
    assert PrintItem(Redirection(operator, rest[0])) == [operator, rest[0]];
  }

  lemma {:induction false} UnparseBegin(env: seq<string>, nodes: seq<Node>, tokens: seq<string>) returns (s: Script)
    requires forall t :: t in env ==> EnvMatch(t).Some?
    requires ParseFrom(AtBegin(Bind(map[], env), nodes), tokens).Running?
    ensures ScriptOk(s) && Print(s) == env + tokens
    ensures ParseFrom(AtBegin(Bind(map[], env), nodes), tokens).state.nodes == nodes + Denote(s)
    decreases |tokens|, 1
  {
    hide Print, Denote, ScriptOk, ClauseOk, EnvMatch, Bind, Meaning, PrintClause;
    var t, rest := tokens[0], tokens[1..];
    assert tokens == [t] + rest;
    BeginFed(Bind(map[], env), nodes, t, rest);
    match EnvMatch(t) {
      case Some(_) =>
        BindAppend(map[], env, t);
        s := UnparseBegin(env + [t], nodes, rest);
        assert env + [t] + rest == env + tokens;
      case None =>
        if t == "cd" {
          BindKeeps(map[], env);
          CdOk(None);
          s := UnparseChdir(None, nodes, rest);
          CdOk(None);
          assert env == [] && ["cd"] + rest == env + tokens;
        } else {
          CommandOk(env, t);
          s := UnparseCommand(env, t, [], nodes, rest);
          assert env + [t] + rest == env + tokens;
        }
    }
  }

  lemma BeginFed(env: map<string, string>, nodes: seq<Node>, t: string, rest: seq<string>)
    requires ParseFrom(AtBegin(env, nodes), [t] + rest).Running?
    ensures var r := ParseFrom(AtBegin(env, nodes), [t] + rest);
            match EnvMatch(t)
            case Some(binding) => r == ParseFrom(AtBegin(env[binding.0 := binding.1], nodes), rest)
            case None =>
              if t == "cd" then env == map[] && r == ParseFrom(AtChdir(None, nodes), rest)
              else r == ParseFrom(AtCommand(NewCommand(t, env), nodes), rest)
  {
    hide ParseFrom, EnvMatch;
    FeedFirst(AtBegin(env, nodes), t, rest);
  }

  lemma CdOk(dir: Option<string>)
    requires dir != Some("&&")
    ensures ClauseOk(Cd(dir))
    ensures Meaning(Cd(dir)) == Chdir(dir)
    ensures PrintClause(Cd(dir)) == if dir.Some? then ["cd", dir.value] else ["cd"]
  {
  }

  lemma CommandOk(env: seq<string>, name: string)
    requires (forall t :: t in env ==> EnvMatch(t).Some?) && EnvMatch(name).None? && name != "cd"
    ensures ClauseOk(Simple(env, name, []))
    ensures Meaning(Simple(env, name, [])) == NewCommand(name, Bind(map[], env))
    ensures PrintClause(Simple(env, name, [])) == env + [name]
  {
  }

  lemma PrintLast(s: Script)
    requires s.Last?
    ensures Print(s) == PrintClause(s.c) + s.dangling
  {
  }

  lemma PrintThen(s: Script)
    requires s.Then?
    ensures Print(s) == PrintClause(s.c) + ([PrintOp(s.op)] + Print(s.rest))
  {
  }

  lemma ChdirEnds(dir: Option<string>, nodes: seq<Node>)
    ensures var r := ParseFrom(AtChdir(dir, nodes), []);
            r.Running? && r.state.nodes == nodes + [Chdir(dir)]
  {
  }

  lemma ChdirFed(dir: Option<string>, nodes: seq<Node>, tokens: seq<string>)
    requires tokens != [] && ParseFrom(AtChdir(dir, nodes), tokens).Running?
    ensures tokens[0] == "&&" ==>
              ParseFrom(AtChdir(dir, nodes), tokens)
              == ParseFrom(AtBegin(map[], nodes + [Chdir(dir), Op(And)]), tokens[1..])
    ensures tokens[0] != "&&" ==>
              && dir == None
              && ParseFrom(AtChdir(dir, nodes), tokens) == ParseFrom(AtChdir(Some(tokens[0]), nodes), tokens[1..])
  {
  }

  lemma {:induction false} UnparseChdir(dir: Option<string>, nodes: seq<Node>, tokens: seq<string>) returns (s: Script)
    requires dir != Some("&&") && ParseFrom(AtChdir(dir, nodes), tokens).Running?
    ensures ScriptOk(s) && Print(s) == PrintClause(Cd(dir)) + tokens
    ensures ParseFrom(AtChdir(dir, nodes), tokens).state.nodes == nodes + Denote(s)
    decreases |tokens|, 0
  {
    hide ParseFrom, ClauseOk, Print, PrintClause, Meaning;
    CdOk(dir);
    if tokens == [] {
      ChdirEnds(dir, nodes);
      s := Last(Cd(dir), []);
      assert PrintClause(Cd(dir)) + [] == PrintClause(Cd(dir));
      PrintLast(s);
    } else if tokens[0] == "&&" {
      ChdirFed(dir, nodes, tokens);
      var s' := UnparseBegin([], nodes + [Chdir(dir), Op(And)], tokens[1..]);
      s := Then(Cd(dir), And, s');
      assert nodes + [Chdir(dir), Op(And)] + Denote(s') == nodes + Denote(s);
      assert tokens == ["&&"] + tokens[1..];
      PrintThen(s);
    } else {
      ChdirFed(dir, nodes, tokens);
      CdOk(Some(tokens[0]));
      s := UnparseChdir(Some(tokens[0]), nodes, tokens[1..]);
      assert PrintClause(Cd(Some(tokens[0]))) + tokens[1..] == PrintClause(Cd(dir)) + tokens;
    }
  }

  lemma {:induction false} UnparseCommand(env: seq<string>, name: string, items: seq<Item>, nodes: seq<Node>,
                                          tokens: seq<string>) returns (s: Script)
    requires ClauseOk(Simple(env, name, items))
    requires ParseFrom(AtCommand(Meaning(Simple(env, name, items)), nodes), tokens).Running?
    ensures ScriptOk(s) && Print(s) == PrintClause(Simple(env, name, items)) + tokens
    ensures ParseFrom(AtCommand(Meaning(Simple(env, name, items)), nodes), tokens).state.nodes == nodes + Denote(s)
    decreases |tokens|, 0
  {
    hide ClauseOk, Meaning, PrintClause;
    var c := Simple(env, name, items);
    if tokens == [] {
      s := Last(c, []);
      assert PrintClause(c) + [] == PrintClause(c);
    } else {
      var t, rest := tokens[0], tokens[1..];
      assert tokens == [t] + rest;
      if t in {">", "2>", "<"} {
        if rest == [] {
          s := Last(c, [t]);
        } else {
          var item := Redirection(t, rest[0]);
          RedirectionFed(Meaning(c), nodes, t, rest);
          s := UnparseItem(env, name, items, item, nodes, rest[1..]);
        }
      } else if t in {"|", "&&", "||"} {
        var op := if t == "|" then Pipe else if t == "&&" then And else Or;
        s := UnparseOperator(c, op, nodes, rest);
      } else {
        var item := if t == "2>&1" then ErrToOut else Arg(t);
        s := UnparseItem(env, name, items, item, nodes, rest);
      }
    }
  }

  lemma {:induction false} UnparseItem(env: seq<string>, name: string, items: seq<Item>, item: Item, nodes: seq<Node>,
                                       rest: seq<string>) returns (s: Script)
    requires ClauseOk(Simple(env, name, items)) && Fits(Meaning(Simple(env, name, items)), item)
    requires ParseFrom(AtCommand(Meaning(Simple(env, name, items)), nodes), PrintItem(item) + rest).Running?
    ensures ScriptOk(s) && Print(s) == PrintClause(Simple(env, name, items)) + (PrintItem(item) + rest)
    ensures ParseFrom(AtCommand(Meaning(Simple(env, name, items)), nodes), PrintItem(item) + rest).state.nodes
            == nodes + Denote(s)
    decreases |rest|, 1
  {
    hide ParseFrom, ClauseOk, Meaning, PrintClause, PrintItem, Print, Denote, ScriptOk, Fits;
    ParseItem(Meaning(Simple(env, name, items)), nodes, item, rest);
    AppendItem(env, name, items, item);
    s := UnparseCommand(env, name, items + [item], nodes, rest);
    assert PrintClause(Simple(env, name, items)) + PrintItem(item) + rest
        == PrintClause(Simple(env, name, items)) + (PrintItem(item) + rest);
  }

  lemma OperatorFits(c: Clause, op: Operator, nodes: seq<Node>, rest: seq<string>)
    requires c.Simple? && ClauseOk(c) && ParseFrom(AtCommand(Meaning(c), nodes), [PrintOp(op)] + rest).Running?
    ensures OpFits(c, op)
  {
    hide Meaning;
    assert ([PrintOp(op)] + rest)[1..] == rest;
  }

  lemma {:induction false} UnparseOperator(c: Clause, op: Operator, nodes: seq<Node>, rest: seq<string>)
    returns (s: Script)
    requires c.Simple? && ClauseOk(c)
    requires ParseFrom(AtCommand(Meaning(c), nodes), [PrintOp(op)] + rest).Running?
    ensures ScriptOk(s) && Print(s) == PrintClause(c) + ([PrintOp(op)] + rest)
    ensures ParseFrom(AtCommand(Meaning(c), nodes), [PrintOp(op)] + rest).state.nodes == nodes + Denote(s)
    decreases |rest|, 2
  {
    hide ClauseOk, Meaning, PrintClause, PrintOp, ParseFrom, Before, OpFits;
    OperatorFits(c, op, nodes, rest);
    ParseOperator(c, op, nodes, rest);
    var s' := UnparseBegin([], nodes + [Before(c, op), Op(op)], rest);
    s := Then(c, op, s');
    assert nodes + [Before(c, op), Op(op)] + Denote(s') == nodes + Denote(s);
    assert [] + rest == rest;
    assert PrintClause(c) + [PrintOp(op)] + Print(s') == PrintClause(c) + ([PrintOp(op)] + rest);
  }

  /**
   * The grammar of `parse`: it accepts a token list exactly when the list is the print of a well-formed script,
   * and then the pipeline it returns is the meaning of that script.
   */
  lemma ParseIsGrammar(tokens: seq<string>, nodes: seq<Node>)
    ensures Parse(tokens) == Some(nodes) <==> exists s :: ScriptOk(s) && Print(s) == tokens && Denote(s) == nodes
  {
    if Parse(tokens) == Some(nodes) {
      var s := UnparseBegin([], [], tokens);
      assert [] + tokens == tokens && [] + Denote(s) == Denote(s);
    }
    if s :| ScriptOk(s) && Print(s) == tokens && Denote(s) == nodes {
      ParseOfPrint(s);
    }
  }
}
