/** The token machine `Pipeline.parse` of shellcmd.py. */
module ShellParse {
  import opened Options

  datatype Operator = Pipe | And | Or

  datatype Stdout = DefaultOut | Piped | OutFile(name: string)
  datatype Stderr = DefaultErr | SameAsStdout | ErrFile(name: string)

  /** A parsed element. An empty `envVars` stands for the source's None. */
  datatype Node =
    | Command(name: string, argv: seq<string>, stdin: Option<string>, stdout: Stdout, stderr: Stderr,
              envVars: map<string, string>)
    | Chdir(dir: Option<string>)
    | Op(op: Operator)

  datatype Mode = BEGIN | COMMAND | CHDIR | STDERR | STDOUT | STDIN

  /** `parse` between two tokens: the state variable, `self.current_command`, `env_vars` and `self.pipeline`. */
  datatype ParseState = ParseState(mode: Mode, current: Option<Node>, env: map<string, string>, nodes: seq<Node>)

  /** An assertion of `parse` fails, leaving the object's fields as in `state`. */
  datatype ParseOutcome = Running(state: ParseState) | AssertionError(state: ParseState)

  // ---- environment assignments ----

  predicate IsWordChar(c: char) {
    'a' <= c <= 'z' || 'A' <= c <= 'Z' || '0' <= c <= '9' || c == '_'
  }

  predicate IsSpace(c: char) {
    c == ' ' || (9 as char) <= c <= (13 as char)
  }

  predicate NoSpace(s: string) {
    forall i :: 0 <= i < |s| ==> !IsSpace(s[i])
  }

  /** Length of the longest prefix of word characters. */
  function WordPrefix(s: string): (n: nat)
    ensures n <= |s| && (forall i :: 0 <= i < n ==> IsWordChar(s[i]))
    ensures n < |s| ==> !IsWordChar(s[n])
  {
    if s != "" && IsWordChar(s[0]) then 1 + WordPrefix(s[1..]) else 0
  }

  /** The regular expression `^([a-zA-Z0-9_]+)=(\S+)$`; its `$` also matches before one final newline. */
  function EnvMatch(token: string): Option<(string, string)> {
    var n := WordPrefix(token);
    if n == 0 || n == |token| || token[n] != '=' then None
    else
      var tail := token[n + 1..];
      var value := if tail != "" && tail[|tail| - 1] == '\n' then tail[..|tail| - 1] else tail;
      if value != "" && NoSpace(value) then Some((token[..n], value)) else None
  }

  // ---- the machine ----

  predicate Consistent(st: ParseState) {
    match st.mode
    case BEGIN => st.current.None?
    case CHDIR => st.current.Some? && st.current.value.Chdir? && st.env == map[]
    case _ => st.current.Some? && st.current.value.Command? && st.env == map[]
  }

  const START := ParseState(BEGIN, None, map[], [])

  function NewCommand(name: string, env: map<string, string>): Node {
    Command(name, [name], None, DefaultOut, DefaultErr, env)
  }

  /** `_commit_command` followed by an operator. */
  function Commit(st: ParseState, command: Node, op: Operator): ParseState {
    ParseState(BEGIN, None, st.env, st.nodes + [command, Op(op)])
  }

  function Feed(st: ParseState, token: string): (r: ParseOutcome)
    requires Consistent(st)
    ensures r.Running? ==> Consistent(r.state)
  {
    match st.mode
    case BEGIN =>
      (match EnvMatch(token)
       case Some(binding) => Running(st.(env := st.env[binding.0 := binding.1]))
       case None =>
         if token == "cd" then
           var st' := st.(current := Some(Chdir(None)));
           if st.env == map[] then Running(st'.(mode := CHDIR)) else AssertionError(st')
         else
           Running(st.(mode := COMMAND, current := Some(NewCommand(token, st.env)), env := map[])))
    case COMMAND =>
      var cmd := st.current.value;
      if token == ">" then Running(st.(mode := STDOUT))
      else if token == "2>" then Running(st.(mode := STDERR))
      else if token == "2>&1" then
        if cmd.stderr == DefaultErr then Running(st.(current := Some(cmd.(stderr := SameAsStdout))))
        else AssertionError(st)
      else if token == "<" then Running(st.(mode := STDIN))
      else if token == "|" then
        if cmd.stdout == DefaultOut then Running(Commit(st, cmd.(stdout := Piped), Pipe)) else AssertionError(st)
      else if token == "&&" then Running(Commit(st, cmd, And))
      else if token == "||" then Running(Commit(st, cmd, Or))
      else Running(st.(current := Some(cmd.(argv := cmd.argv + [token]))))
    case CHDIR =>
      if token == "&&" then Running(Commit(st, st.current.value, And))
      else if st.current.value.dir.None? then Running(st.(current := Some(Chdir(Some(token)))))
      else AssertionError(st)
    case STDOUT =>
      var cmd := st.current.value;
      if cmd.stdout == DefaultOut then Running(st.(mode := COMMAND, current := Some(cmd.(stdout := OutFile(token)))))
      else AssertionError(st)
    case STDERR =>
      var cmd := st.current.value;
      if cmd.stderr == DefaultErr then Running(st.(mode := COMMAND, current := Some(cmd.(stderr := ErrFile(token)))))
      else AssertionError(st)
    case STDIN =>
      var cmd := st.current.value;
      if cmd.stdin.None? then Running(st.(mode := COMMAND, current := Some(cmd.(stdin := Some(token)))))
      else AssertionError(st)
  }

  /** All tokens, then the final `_commit_command`. */
  function ParseFrom(st: ParseState, tokens: seq<string>): ParseOutcome
    requires Consistent(st)
    decreases |tokens|
  {
    if tokens == [] then
      if st.current.Some? then Running(st.(current := None, nodes := st.nodes + [st.current.value]))
      else AssertionError(st)
    else
      var r := Feed(st, tokens[0]);
      if r.Running? then ParseFrom(r.state, tokens[1..]) else r
  }

  /** The pipeline parsed from a token list, or None when `parse` raises AssertionError. */
  function Parse(tokens: seq<string>): Option<seq<Node>> {
    var r := ParseFrom(START, tokens);
    if r.Running? then Some(r.state.nodes) else None
  }

  class Pipeline {
    var currentCommand: Option<Node>
    var pipeline: seq<Node>

    constructor ()
      ensures currentCommand == None && pipeline == []
    {
      currentCommand, pipeline := None, [];
    }

    /** False when the assertion fails, and then nothing changes. */
    method CommitCommand() returns (ok: bool)
      modifies this
      ensures ok == old(currentCommand).Some?
      ensures pipeline == if ok then old(pipeline) + [old(currentCommand).value] else old(pipeline)
      ensures currentCommand == None
    {
      ok := currentCommand.Some?;
      if ok {
        pipeline := pipeline + [currentCommand.value];
        currentCommand := None;
      }
    }

    method CommitWith(op: Operator)
      requires currentCommand.Some?
      modifies this
      ensures currentCommand == None
      ensures pipeline == old(pipeline) + [old(currentCommand).value, Op(op)]
    {
      var _ := CommitCommand();
      pipeline := pipeline + [Op(op)];
    }

    /** `parse` does what the token machine does, also to the fields it leaves behind when an assertion fails. */
    method Parse(tokens: seq<string>) returns (ok: bool)
      modifies this
      ensures var r := ParseFrom(START, tokens);
              ok == r.Running? && currentCommand == r.state.current && pipeline == r.state.nodes
    {
      currentCommand, pipeline := None, [];
      var rest := tokens;
      var state := BEGIN;
      var envVars: map<string, string> := map[];
      ghost var st := START;
      while rest != []
        invariant st == ParseState(state, currentCommand, envVars, pipeline) && Consistent(st)
        invariant ParseFrom(START, tokens) == ParseFrom(st, rest)
        decreases |rest|
      {
        var token := rest[0];
        rest := rest[1..];
        ghost var fed := Feed(st, token);
        match state {
        case BEGIN =>
          var envVarMatch := EnvMatch(token);
          if envVarMatch.Some? {
            envVars := envVars[envVarMatch.value.0 := envVarMatch.value.1];
          } else {
            assert currentCommand == None;
            if token == "cd" {
              currentCommand := Some(Chdir(None));
              if envVars != map[] {
                return false;
              }
              state := CHDIR;
            } else {
              currentCommand := Some(NewCommand(token, envVars));
              envVars := map[];
              state := COMMAND;
            }
          }
        case COMMAND =>
          var cmd := currentCommand.value;
          if token == ">" {
            state := STDOUT;
          } else if token == "2>" {
            state := STDERR;
          } else if token == "2>&1" {
            if cmd.stderr != DefaultErr {
              return false;
            }
            currentCommand := Some(cmd.(stderr := SameAsStdout));
          } else if token == "<" {
            state := STDIN;
          } else if token == "|" {
            if cmd.stdout != DefaultOut {
              return false;
            }
            currentCommand := Some(cmd.(stdout := Piped));
            CommitWith(Pipe);
            state := BEGIN;
          } else if token == "&&" {
            CommitWith(And);
            state := BEGIN;
          } else if token == "||" {
            CommitWith(Or);
            state := BEGIN;
          } else {
            currentCommand := Some(cmd.(argv := cmd.argv + [token]));
          }
        case CHDIR =>
          if token == "&&" {
            CommitWith(And);
            state := BEGIN;
          } else {
            if currentCommand.value.dir.Some? {
              return false;
            }
            currentCommand := Some(Chdir(Some(token)));
          }
        case STDOUT =>
          if currentCommand.value.stdout != DefaultOut {
            return false;
          }
          currentCommand := Some(currentCommand.value.(stdout := OutFile(token)));
          state := COMMAND;
        case STDERR =>
          if currentCommand.value.stderr != DefaultErr {
            return false;
          }
          currentCommand := Some(currentCommand.value.(stderr := ErrFile(token)));
          state := COMMAND;
        case STDIN =>
          if currentCommand.value.stdin.Some? {
            return false;
          }
          currentCommand := Some(currentCommand.value.(stdin := Some(token)));
          state := COMMAND;
        }
        st := fed.state;
      }
      ok := CommitCommand();
    }
  }
}
