/** The small shell's parser: a token state machine that builds an alternating list of commands and operators. */
module ShellParser {
  import opened Wrappers

  /** Where a command's output or error stream goes. */
  datatype Target = Unset | ToPipe | ToStdout | ToFile(name: string)

  datatype Command = Command(name: string, argv: seq<string>, stdin: Option<string>, stdout: Target, stderr: Target,
                             env: map<string, string>)

  datatype Node = Cmd(command: Command) | Chdir(dir: Option<string>) | Pipe | And | Or

  datatype Mode = Begin | InCommand | InChdir | WantStderr | WantStdout | WantStdin

  // ----- the variable-assignment pattern

  predicate IsNameChar(c: char) {
    'a' <= c <= 'z' || 'A' <= c <= 'Z' || '0' <= c <= '9' || c == '_'
  }

  predicate IsSpace(c: char) {
    var n := c as int;
    || 0x09 <= n <= 0x0d || 0x1c <= n <= 0x20 || n == 0x85 || n == 0xa0 || n == 0x1680 || 0x2000 <= n <= 0x200a
    || n == 0x2028 || n == 0x2029 || n == 0x202f || n == 0x205f || n == 0x3000
  }

  predicate IsName(s: string) {
    s != [] && forall i :: 0 <= i < |s| ==> IsNameChar(s[i])
  }

  predicate IsValue(s: string) {
    s != [] && forall i :: 0 <= i < |s| ==> !IsSpace(s[i])
  }

  /** How many characters of `s` can start a variable name. */
  function NameLength(s: string): nat {
    if s == [] || !IsNameChar(s[0]) then 0 else 1 + NameLength(s[1..])
  }

  /** A name, an equals sign and a value without white space; one newline at the very end is not part of the value. */
  function EnvMatch(token: string): Option<(string, string)> {
    var n := NameLength(token);
    if 0 < n < |token| && token[n] == '=' then
      var rest := token[n + 1..];
      var value := if rest != [] && rest[|rest| - 1] == '\n' then rest[..|rest| - 1] else rest;
      if IsValue(value) then Some((token[..n], value)) else None
    else None
  }

  // ----- the machine

  datatype State = State(mode: Mode, current: Option<Node>, pipeline: seq<Node>, env: map<string, string>)

  const Start: State := State(Begin, None, [], map[])

  /** Append the command being built and an operator, and begin anew. */
  function Commit(s: State, node: Node, op: Node): State {
    State(Begin, None, s.pipeline + [node, op], s.env)
  }

  function BeginStep(s: State, token: string): Option<State> {
    match EnvMatch(token)
    case Some((key, value)) => Some(s.(env := s.env[key := value]))
    case None =>
      if s.current.Some? then None
      else if token == "cd" then
        if s.env != map[] then None else Some(s.(mode := InChdir, current := Some(Chdir(None))))
      else
        Some(s.(mode := InCommand, env := map[],
                current := Some(Cmd(Command(token, [token], None, Unset, Unset, s.env)))))
  }

  function CommandStep(s: State, c: Command, token: string): Option<State> {
    if token == ">" then Some(s.(mode := WantStdout))
    else if token == "2>" then Some(s.(mode := WantStderr))
    else if token == "2>&1" then
      if c.stderr.Unset? then Some(s.(current := Some(Cmd(c.(stderr := ToStdout))))) else None
    else if token == "<" then Some(s.(mode := WantStdin))
    else if token == "|" then
      if c.stdout.Unset? then Some(Commit(s, Cmd(c.(stdout := ToPipe)), Pipe)) else None
    else if token == "&&" then Some(Commit(s, Cmd(c), And))
    else if token == "||" then Some(Commit(s, Cmd(c), Or))
    else Some(s.(current := Some(Cmd(c.(argv := c.argv + [token])))))
  }

  function ChdirStep(s: State, dir: Option<string>, token: string): Option<State> {
    if token == "&&" then Some(Commit(s, Chdir(dir), And))
    else if dir.None? then Some(s.(current := Some(Chdir(Some(token)))))
    else None
  }

  function Redirect(s: State, c: Command, token: string): Option<State> {
    match s.mode
    case WantStdout => if c.stdout.Unset? then Some(Redirected(s, c.(stdout := ToFile(token)))) else None
    case WantStderr => if c.stderr.Unset? then Some(Redirected(s, c.(stderr := ToFile(token)))) else None
    case _ => if c.stdin.None? then Some(Redirected(s, c.(stdin := Some(token)))) else None
  }

  function Redirected(s: State, c: Command): State {
    s.(mode := InCommand, current := Some(Cmd(c)))
  }

  /** One token; `None` is a failed assertion. */
  function Step(s: State, token: string): Option<State> {
    match s.mode
    case Begin => BeginStep(s, token)
    case InCommand =>
      if s.current.Some? && s.current.value.Cmd? then CommandStep(s, s.current.value.command, token) else None
    case InChdir => if s.current.Some? && s.current.value.Chdir? then ChdirStep(s, s.current.value.dir, token) else None
    case _ => if s.current.Some? && s.current.value.Cmd? then Redirect(s, s.current.value.command, token) else None
  }

  function Scan(s: State, tokens: seq<string>): Option<State>
    decreases |tokens|
  {
    if tokens == [] then Some(s)
    else match Step(s, tokens[0])
      case None => None
      case Some(s') => Scan(s', tokens[1..])
  }

  /** The final commit, which fails if no command is being built. */
  function Finish(s: State): Option<seq<Node>> {
    if s.current.Some? then Some(s.pipeline + [s.current.value]) else None
  }

  function Parse(tokens: seq<string>): Option<seq<Node>> {
    match Scan(Start, tokens)
    case None => None
    case Some(s) => Finish(s)
  }

  /** What is being built in each mode. */
  predicate ModeFits(mode: Mode, current: Option<Node>) {
    match mode
    case Begin => current.None?
    case InChdir => current.Some? && current.value.Chdir?
    case _ => current.Some? && current.value.Cmd?
  }

  class Pipeline {
    var currentCommand: Option<Node>
    var pipeline: seq<Node>

    constructor ()
      ensures currentCommand == None && pipeline == []
    {
      currentCommand, pipeline := None, [];
    }

    method CommitCommand() returns (ok: bool)
      modifies this
      ensures ok <==> old(currentCommand).Some?
      ensures ok ==> pipeline == old(pipeline) + [old(currentCommand).value] && currentCommand == None
      ensures !ok ==> pipeline == old(pipeline) && currentCommand == old(currentCommand)
    {
      if currentCommand.None? {
        return false;
      }
      pipeline := pipeline + [currentCommand.value];
      currentCommand := None;
      return true;
    }

    /** The body of the parsing loop: acts on one token and returns the next mode, or fails an assertion. */
    method Consume(mode0: Mode, env0: map<string, string>, token: string)
      returns (ok: bool, mode: Mode, env: map<string, string>)
      requires ModeFits(mode0, currentCommand)
      modifies this
      ensures var r := Step(State(mode0, old(currentCommand), old(pipeline), env0), token);
              && (ok <==> r.Some?)
              && (ok ==> r.value == State(mode, currentCommand, pipeline, env) && ModeFits(mode, currentCommand))
    {
      ok, mode, env := true, mode0, env0;
      if mode == Begin {
        var assignment := EnvMatch(token);
        if assignment.Some? {
          env := env[assignment.value.0 := assignment.value.1];
        } else if token == "cd" {
          currentCommand := Some(Chdir(None));
          ok := env == map[];
          mode := InChdir;
        } else {
          currentCommand := Some(Cmd(Command(token, [token], None, Unset, Unset, env)));
          env := map[];
          mode := InCommand;
        }
      } else if mode == InChdir {
        if token == "&&" {
          ok := CommitCommand();
          pipeline := pipeline + [And];
          mode := Begin;
        } else {
          ok := currentCommand.value.dir.None?;
          currentCommand := Some(Chdir(Some(token)));
        }
      } else {
        var c := currentCommand.value.command;
        if mode == InCommand {
          if token == ">" {
            mode := WantStdout;
          } else if token == "2>" {
            mode := WantStderr;
          } else if token == "2>&1" {
            ok := c.stderr.Unset?;
            currentCommand := Some(Cmd(c.(stderr := ToStdout)));
          } else if token == "<" {
            mode := WantStdin;
          } else if token == "|" {
            if !c.stdout.Unset? {
              ok := false;
              return;
            }
            currentCommand := Some(Cmd(c.(stdout := ToPipe)));
            ok := CommitCommand();
            pipeline := pipeline + [Pipe];
            mode := Begin;
          } else if token == "&&" {
            ok := CommitCommand();
            pipeline := pipeline + [And];
            mode := Begin;
          } else if token == "||" {
            ok := CommitCommand();
            pipeline := pipeline + [Or];
            mode := Begin;
          } else {
            currentCommand := Some(Cmd(c.(argv := c.argv + [token])));
          }
        } else if mode == WantStdout {
          ok := c.stdout.Unset?;
          currentCommand := Some(Cmd(c.(stdout := ToFile(token))));
          mode := InCommand;
        } else if mode == WantStderr {
          ok := c.stderr.Unset?;
          currentCommand := Some(Cmd(c.(stderr := ToFile(token))));
          mode := InCommand;
        } else {
          ok := c.stdin.None?;
          currentCommand := Some(Cmd(c.(stdin := Some(token))));
          mode := InCommand;
        }
      }
    }

    /** Returns the pipeline, which the object keeps, or `None` where an assertion fails. */
    method ParseTokens(command: seq<string>) returns (r: Option<seq<Node>>)
      modifies this
      ensures r == Parse(command)
      ensures r.Some? ==> pipeline == r.value && currentCommand == None
    {
      currentCommand, pipeline := None, [];
      var tokens := command;
      var mode := Begin;
      var env: map<string, string> := map[];
      while tokens != []
        invariant ModeFits(mode, currentCommand)
        invariant Scan(Start, command) == Scan(State(mode, currentCommand, pipeline, env), tokens)
        decreases |tokens|
      {
        var token := tokens[0];
        tokens := tokens[1..];
        var ok: bool;
        ok, mode, env := Consume(mode, env, token);
        if !ok {
          return None;
        }
      }
      var ok := CommitCommand();
      return if ok then Some(pipeline) else None;
    }
  }
}
