/** What every accepted token list parses to, and how parsing distributes over `&&`. */
module ShellSyntax {
  import opened Wrappers
  import opened ShellParser

  // ----- shape of a parsed pipeline

  ghost predicate IsWork(n: Node) {
    n.Cmd? || n.Chdir?
  }

  ghost predicate IsOperator(n: Node) {
    n.Pipe? || n.And? || n.Or?
  }

  /** A command sends its output to a pipe exactly if a pipe follows; only `&&` follows a change of directory. */
  ghost predicate Joins(work: Node, op: Node) {
    && IsOperator(op)
    && (work.Cmd? ==> (work.command.stdout.ToPipe? <==> op.Pipe?))
    && (work.Chdir? ==> op.And?)
  }

  /** Work and operator in turn, ending with an operator. */
  ghost predicate AreJoined(nodes: seq<Node>) {
    nodes == [] ||
    (&& |nodes| >= 2 && AreJoined(nodes[..|nodes| - 2])
     && IsWork(nodes[|nodes| - 2]) && Joins(nodes[|nodes| - 2], nodes[|nodes| - 1]))
  }

  /** Starts and ends with work, alternates, and every operator fits the work before it. */
  ghost predicate IsPipeline(nodes: seq<Node>) {
    && nodes != [] && AreJoined(nodes[..|nodes| - 1]) && IsWork(nodes[|nodes| - 1])
    && (nodes[|nodes| - 1].Cmd? ==> !nodes[|nodes| - 1].command.stdout.ToPipe?)
  }

  ghost predicate IsState(s: State) {
    && ModeFits(s.mode, s.current)
    && AreJoined(s.pipeline)
    && (s.mode.Begin? || s.env == map[])
    && (s.current.Some? && s.current.value.Cmd? ==> !s.current.value.command.stdout.ToPipe?)
  }

  lemma {:induction false} JoinOne(pipeline: seq<Node>, work: Node, op: Node)
    requires AreJoined(pipeline) && IsWork(work) && Joins(work, op)
    ensures AreJoined(pipeline + [work, op])
  {
    assert (pipeline + [work, op])[..|pipeline|] == pipeline;
  }

  lemma {:induction false} BeginKeepsState(s: State, token: string)
    requires IsState(s) && s.mode.Begin? && BeginStep(s, token).Some?
    ensures IsState(BeginStep(s, token).value)
  {
  }

  lemma {:induction false} CommandKeepsState(s: State, c: Command, token: string)
    requires IsState(s) && s.mode.InCommand? && s.current == Some(Cmd(c)) && CommandStep(s, c, token).Some?
    ensures IsState(CommandStep(s, c, token).value)
  {
    if token == "|" {
      JoinOne(s.pipeline, Cmd(c.(stdout := ToPipe)), Pipe);
    } else if token == "&&" {
      JoinOne(s.pipeline, Cmd(c), And);
    } else if token == "||" {
      JoinOne(s.pipeline, Cmd(c), Or);
    }
  }

  lemma {:induction false} ChdirKeepsState(s: State, dir: Option<string>, token: string)
    requires IsState(s) && s.mode.InChdir? && s.current == Some(Chdir(dir)) && ChdirStep(s, dir, token).Some?
    ensures IsState(ChdirStep(s, dir, token).value)
  {
    if token == "&&" {
      JoinOne(s.pipeline, Chdir(dir), And);
    }
  }

  lemma {:induction false} StepKeepsState(s: State, token: string)
    requires IsState(s) && Step(s, token).Some?
    ensures IsState(Step(s, token).value)
  {
    match s.mode
    case Begin => BeginKeepsState(s, token);
    case InCommand => CommandKeepsState(s, s.current.value.command, token);
    case InChdir => ChdirKeepsState(s, s.current.value.dir, token);
    case _ =>
  }

  lemma {:induction false} ScanKeepsState(s: State, tokens: seq<string>)
    requires IsState(s) && Scan(s, tokens).Some?
    ensures IsState(Scan(s, tokens).value)
    decreases |tokens|
  {
    if tokens != [] {
      StepKeepsState(s, tokens[0]);
      ScanKeepsState(Step(s, tokens[0]).value, tokens[1..]);
    }
  }

  /** Whatever is accepted parses to a proper pipeline. */
  lemma {:induction false} ParsedIsPipeline(tokens: seq<string>)
    requires Parse(tokens).Some?
    ensures IsPipeline(Parse(tokens).value)
  {
    ScanKeepsState(Start, tokens);
    var s := Scan(Start, tokens).value;
    assert Parse(tokens).value[..|s.pipeline|] == s.pipeline;
  }

  // ----- parsing in parts

  lemma {:induction false} ScanAppend(s: State, a: seq<string>, b: seq<string>)
    ensures Scan(s, a + b) == match Scan(s, a) case None => None case Some(s') => Scan(s', b)
    decreases |a|
  {
    if a == [] {
      assert a + b == b;
    } else {
      assert (a + b)[0] == a[0] && (a + b)[1..] == a[1..] + b;
      if Step(s, a[0]).Some? {
        ScanAppend(Step(s, a[0]).value, a[1..], b);
      }
    }
  }

  ghost function Behind(p: seq<Node>, s: State): State {
    s.(pipeline := p + s.pipeline)
  }

  /** What has been committed does not influence what follows. */
  lemma {:induction false} StepBehind(p: seq<Node>, s: State, token: string)
    ensures Step(Behind(p, s), token) == match Step(s, token) case None => None case Some(s') => Some(Behind(p, s'))
  {
    assert forall x, y :: p + (s.pipeline + [x, y]) == p + s.pipeline + [x, y];
  }

  lemma {:induction false} ScanBehind(p: seq<Node>, s: State, tokens: seq<string>)
    ensures Scan(Behind(p, s), tokens) == match Scan(s, tokens) case None => None case Some(s') => Some(Behind(p, s'))
    decreases |tokens|
  {
    if tokens != [] {
      StepBehind(p, s, tokens[0]);
      if Step(s, tokens[0]).Some? {
        ScanBehind(p, Step(s, tokens[0]).value, tokens[1..]);
      }
    }
  }

  /** No redirection is left without its file name. */
  ghost predicate EndsComplete(tokens: seq<string>) {
    Scan(Start, tokens).Some? && (Scan(Start, tokens).value.mode.InCommand? || Scan(Start, tokens).value.mode.InChdir?)
  }

  /** `&&` between two accepted lists puts the And node between their pipelines. */
  ghost predicate AndJoins(a: seq<string>, b: seq<string>) {
    Parse(a).Some? && Parse(b).Some? ==> Parse(a + ["&&"] + b) == Some(Parse(a).value + [And] + Parse(b).value)
  }

  lemma {:induction false} AndJoinsComplete(a: seq<string>, b: seq<string>)
    requires EndsComplete(a)
    ensures Parse(a).Some?
    ensures Parse(a + ["&&"] + b) ==
            match Parse(b) case None => None case Some(nodes) => Some(Parse(a).value + [And] + nodes)
  {
    var s := Scan(Start, a).value;
    ScanKeepsState(Start, a);
    ScanAppend(Start, a + ["&&"], b);
    ScanAppend(Start, a, ["&&"]);
    assert ["&&"][1..] == [];
    var p := s.pipeline + [s.current.value, And];
    assert Behind(p, Start) == Step(s, "&&").value;
    ScanBehind(p, Start, b);
    if Scan(Start, b).Some? && Scan(Start, b).value.current.Some? {
      var t := Scan(Start, b).value;
      assert p + t.pipeline + [t.current.value] == Parse(a).value + [And] + (t.pipeline + [t.current.value]);
    }
  }

  // A dangling redirection swallows the operator instead.

  ghost predicate Overrides(n: Node, c: Command) {
    && n.Cmd?
    && (!c.stdout.Unset? ==> n.command.stdout == c.stdout)
    && (!c.stderr.Unset? ==> n.command.stderr == c.stderr)
    && (c.stdin.Some? ==> n.command.stdin == c.stdin)
  }

  /** A redirection, once set, is still there when the command has been committed. */
  ghost predicate HasNode(s: State, k: nat, c: Command) {
    || (k < |s.pipeline| && Overrides(s.pipeline[k], c))
    || (k == |s.pipeline| && s.current.Some? && Overrides(s.current.value, c) && !s.mode.Begin? && !s.mode.InChdir?)
  }

  lemma {:induction false} CommandKeepsNode(s: State, command: Command, token: string, k: nat, c: Command)
    requires s.mode.InCommand? && s.current == Some(Cmd(command)) && HasNode(s, k, c)
    requires CommandStep(s, command, token).Some?
    ensures HasNode(CommandStep(s, command, token).value, k, c)
  {
  }

  lemma {:induction false} StepKeepsNode(s: State, token: string, k: nat, c: Command)
    requires IsState(s) && HasNode(s, k, c) && Step(s, token).Some?
    ensures HasNode(Step(s, token).value, k, c)
  {
    if s.mode.InCommand? {
      CommandKeepsNode(s, s.current.value.command, token, k, c);
    }
  }

  lemma {:induction false} ScanKeepsNode(s: State, tokens: seq<string>, k: nat, c: Command)
    requires IsState(s) && HasNode(s, k, c) && Scan(s, tokens).Some?
    ensures HasNode(Scan(s, tokens).value, k, c)
    decreases |tokens|
  {
    if tokens != [] {
      StepKeepsState(s, tokens[0]);
      StepKeepsNode(s, tokens[0], k, c);
      ScanKeepsNode(Step(s, tokens[0]).value, tokens[1..], k, c);
    }
  }

  lemma {:induction false} AndIsSwallowed(a: seq<string>, b: seq<string>)
    requires Parse(a).Some? && !EndsComplete(a) && Parse(b).Some?
    ensures !AndJoins(a, b)
  {
    var s := Scan(Start, a).value;
    ScanKeepsState(Start, a);
    ScanAppend(Start, a + ["&&"], b);
    ScanAppend(Start, a, ["&&"]);
    assert ["&&"][1..] == [];
    if Parse(a + ["&&"] + b).Some? {
      var t := Step(s, "&&").value;
      StepKeepsState(s, "&&");
      ScanKeepsNode(t, b, |s.pipeline|, t.current.value.command);
      var expected := Parse(a).value + [And] + Parse(b).value;
      assert expected[|s.pipeline|] == s.current.value;
    }
  }

  /** The law holds for every continuation exactly when the first part ends complete. */
  lemma {:induction false} AndJoinsIff(a: seq<string>)
    requires Parse(a).Some?
    ensures (forall b :: AndJoins(a, b)) <==> EndsComplete(a)
  {
    if EndsComplete(a) {
      forall b ensures AndJoins(a, b) {
        AndJoinsComplete(a, b);
      }
    } else {
      var b := ["x"];
      assert b[1..] == [] && Parse(b).Some? by {
        assert NameLength("x") <= 1;
      }
      AndIsSwallowed(a, b);
    }
  }

  /** A redirection without its file name is accepted, and takes the `&&` for the name. */
  lemma {:induction false} DanglingRedirection()
    ensures Parse(["x", ">"]).Some? && !EndsComplete(["x", ">"]) && Parse(["y"]).Some? && !AndJoins(["x", ">"], ["y"])
  {
    PlainCommand("x");
    PlainCommand("y");
    var s := Step(Start, "x").value;
    assert ["x", ">"][1..] == [">"] && [">"][1..] == [] && ["y"][1..] == [];
    assert Scan(Start, ["x", ">"]) == Scan(s, [">"]) && Scan(s, [">"]) == Step(s, ">");
    assert Scan(Start, ["y"]) == Step(Start, "y");
    AndIsSwallowed(["x", ">"], ["y"]);
  }

  lemma {:induction false} PlainCommand(token: string)
    requires |token| == 1
    ensures Step(Start, token) ==
            Some(State(InCommand, Some(Cmd(Command(token, [token], None, Unset, Unset, map[]))), [], map[]))
  {
    assert NameLength(token[1..]) == 0;
    assert NameLength(token) <= 1;
    assert EnvMatch(token) == None;
  }
}
