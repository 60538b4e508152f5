/** Writing a pipeline back as tokens: parsing undoes it, and every parsed pipeline can be written back. */
module ShellPrinter {
  import opened Wrappers
  import opened ShellParser
  import opened ShellSyntax

  ghost predicate IsSpecial(token: string) {
    token == ">" || token == "2>" || token == "2>&1" || token == "<" || token == "|" || token == "&&" || token == "||"
  }

  ghost predicate IsEnv(env: map<string, string>) {
    forall k :: k in env ==> IsName(k) && IsValue(env[k])
  }

  ghost predicate IsArgs(args: seq<string>) {
    forall i :: 0 <= i < |args| ==> !IsSpecial(args[i])
  }

  /** The commands that have a spelling. */
  ghost predicate IsWritableCommand(c: Command) {
    && c.name != "cd" && EnvMatch(c.name).None?
    && c.argv != [] && c.argv[0] == c.name && IsArgs(c.argv[1..])
    && IsEnv(c.env) && !c.stdout.ToStdout? && !c.stderr.ToPipe?
  }

  ghost predicate IsWritable(n: Node) {
    match n
    case Cmd(c) => IsWritableCommand(c)
    case Chdir(dir) => dir.Some? ==> dir.value != "&&"
    case _ => true
  }

  ghost predicate AreWritable(nodes: seq<Node>) {
    forall i :: 0 <= i < |nodes| ==> IsWritable(nodes[i])
  }

  ghost function WriteEnv(env: map<string, string>): seq<string>
    decreases |env|
  {
    if env == map[] then []
    else
      var k :| k in env;
      [k + "=" + env[k]] + WriteEnv(env - {k})
  }

  ghost function WriteStdin(c: Command): seq<string> {
    if c.stdin.Some? then ["<", c.stdin.value] else []
  }

  ghost function WriteStdout(c: Command): seq<string> {
    if c.stdout.ToFile? then [">", c.stdout.name] else []
  }

  ghost function WriteStderr(c: Command): seq<string> {
    match c.stderr
    case ToFile(name) => ["2>", name]
    case ToStdout => ["2>&1"]
    case _ => []
  }

  ghost function WriteCommand(c: Command): seq<string>
    requires c.argv != []
  {
    WriteEnv(c.env) + ([c.name] + (c.argv[1..] + (WriteStdin(c) + (WriteStdout(c) + WriteStderr(c)))))
  }

  ghost function WriteNode(n: Node): seq<string>
    requires IsWritable(n)
  {
    match n
    case Cmd(c) => WriteCommand(c)
    case Chdir(dir) => if dir.Some? then ["cd", dir.value] else ["cd"]
    case Pipe => ["|"]
    case And => ["&&"]
    case Or => ["||"]
  }

  ghost function Write(nodes: seq<Node>): seq<string>
    requires AreWritable(nodes)
  {
    if nodes == [] then [] else Write(nodes[..|nodes| - 1]) + WriteNode(nodes[|nodes| - 1])
  }

  // ----- reading back what was written

  lemma {:induction false} NameLengthOf(k: string, v: string)
    requires forall i :: 0 <= i < |k| ==> IsNameChar(k[i])
    ensures NameLength(k + "=" + v) == |k|
  {
    if k != [] {
      NameLengthOf(k[1..], v);
      assert (k + "=" + v)[1..] == k[1..] + "=" + v;
    }
  }

  lemma {:induction false} EnvMatchBack(k: string, v: string)
    requires IsName(k) && IsValue(v)
    ensures EnvMatch(k + "=" + v) == Some((k, v))
  {
    NameLengthOf(k, v);
    assert (k + "=" + v)[..|k|] == k && (k + "=" + v)[|k| + 1..] == v;
  }

  lemma {:induction false} ScanOne(s: State, token: string)
    ensures Scan(s, [token]) == Step(s, token)
  {
    assert [token][1..] == [];
  }

  lemma {:induction false} ScanTwo(s: State, a: string, b: string)
    requires Step(s, a).Some?
    ensures Scan(s, [a, b]) == Step(Step(s, a).value, b)
  {
    assert [a, b][1..] == [b];
    ScanOne(Step(s, a).value, b);
  }

  lemma {:induction false} WriteEnvHead(env: map<string, string>) returns (k: string)
    requires env != map[]
    ensures k in env && WriteEnv(env) == [k + "=" + env[k]] + WriteEnv(env - {k})
  {
    k :| k in env && WriteEnv(env) == [k + "=" + env[k]] + WriteEnv(env - {k});
  }

  lemma {:induction false} ScanAssignment(p: seq<Node>, env: map<string, string>, k: string, v: string,
                                          rest: seq<string>)
    requires IsName(k) && IsValue(v)
    ensures Scan(State(Begin, None, p, env), [k + "=" + v] + rest) == Scan(State(Begin, None, p, env[k := v]), rest)
  {
    EnvMatchBack(k, v);
    assert ([k + "=" + v] + rest)[1..] == rest;
  }

  lemma {:induction false} ScanEnv(p: seq<Node>, env: map<string, string>, more: map<string, string>)
    requires IsEnv(more)
    ensures Scan(State(Begin, None, p, env), WriteEnv(more)) == Some(State(Begin, None, p, env + more))
    decreases |more|
  {
    if more == map[] {
      assert env + more == env;
    } else {
      var k := WriteEnvHead(more);
      ScanAssignment(p, env, k, more[k], WriteEnv(more - {k}));
      ScanEnv(p, env[k := more[k]], more - {k});
      MergeOne(env, more, k);
    }
  }

  lemma {:induction false} MergeOne(env: map<string, string>, more: map<string, string>, k: string)
    requires k in more
    ensures env[k := more[k]] + (more - {k}) == env + more
  {
  }

  lemma {:induction false} ScanArgs(p: seq<Node>, c: Command, args: seq<string>)
    requires IsArgs(args)
    ensures Scan(State(InCommand, Some(Cmd(c)), p, map[]), args) ==
            Some(State(InCommand, Some(Cmd(c.(argv := c.argv + args))), p, map[]))
    decreases |args|
  {
    if args == [] {
      assert c.argv + args == c.argv;
    } else {
      assert !IsSpecial(args[0]);
      ScanArgs(p, c.(argv := c.argv + [args[0]]), args[1..]);
      assert c.argv + [args[0]] + args[1..] == c.argv + args;
    }
  }

  /** Up to a pipe, which only the operator itself sets. */
  ghost function BeforeOperator(c: Command): Command {
    if c.stdout.ToPipe? then c.(stdout := Unset) else c
  }

  ghost function Building(c: Command, p: seq<Node>): State {
    State(InCommand, Some(Cmd(c)), p, map[])
  }

  lemma {:induction false} ScanStdin(p: seq<Node>, c0: Command, c: Command)
    requires c0.stdin.None?
    ensures Scan(Building(c0, p), WriteStdin(c)) == Some(Building(c0.(stdin := c.stdin), p))
  {
    if c.stdin.Some? {
      ScanTwo(Building(c0, p), "<", c.stdin.value);
    } else {
      assert c0.(stdin := c.stdin) == c0;
    }
  }

  lemma {:induction false} ScanStdout(p: seq<Node>, c0: Command, c: Command)
    requires c0.stdout.Unset? && !c.stdout.ToStdout?
    ensures Scan(Building(c0, p), WriteStdout(c)) == Some(Building(c0.(stdout := BeforeOperator(c).stdout), p))
  {
    if c.stdout.ToFile? {
      ScanTwo(Building(c0, p), ">", c.stdout.name);
    } else {
      assert c0.(stdout := BeforeOperator(c).stdout) == c0;
    }
  }

  lemma {:induction false} ScanStderr(p: seq<Node>, c0: Command, c: Command)
    requires c0.stderr.Unset? && !c.stderr.ToPipe?
    ensures Scan(Building(c0, p), WriteStderr(c)) == Some(Building(c0.(stderr := c.stderr), p))
  {
    if c.stderr.ToFile? {
      ScanTwo(Building(c0, p), "2>", c.stderr.name);
    } else if c.stderr.ToStdout? {
      ScanOne(Building(c0, p), "2>&1");
    } else {
      assert c0.(stderr := c.stderr) == c0;
    }
  }

  lemma {:induction false} ScanRedirections(p: seq<Node>, c0: Command, c: Command)
    requires c == c0.(stdin := c.stdin, stdout := c.stdout, stderr := c.stderr)
    requires c0.stdin.None? && c0.stdout.Unset? && c0.stderr.Unset? && !c.stdout.ToStdout? && !c.stderr.ToPipe?
    ensures Scan(State(InCommand, Some(Cmd(c0)), p, map[]), WriteStdin(c) + (WriteStdout(c) + WriteStderr(c))) ==
            Some(State(InCommand, Some(Cmd(BeforeOperator(c))), p, map[]))
  {
    var c1 := c0.(stdin := c.stdin);
    var c2 := c1.(stdout := BeforeOperator(c).stdout);
    ScanAppend(Building(c0, p), WriteStdin(c), WriteStdout(c) + WriteStderr(c));
    ScanStdin(p, c0, c);
    ScanAppend(Building(c1, p), WriteStdout(c), WriteStderr(c));
    ScanStdout(p, c1, c);
    ScanStderr(p, c2, c);
  }

  lemma {:induction false} ScanCommand(p: seq<Node>, c: Command)
    requires IsWritableCommand(c)
    ensures Scan(State(Begin, None, p, map[]), WriteCommand(c)) ==
            Some(State(InCommand, Some(Cmd(BeforeOperator(c))), p, map[]))
  {
    var s0 := State(Begin, None, p, map[]);
    var redirections := WriteStdin(c) + (WriteStdout(c) + WriteStderr(c));
    var args := c.argv[1..];
    ScanAppend(s0, WriteEnv(c.env), [c.name] + (args + redirections));
    ScanEnv(p, map[], c.env);
    assert map[] + c.env == c.env;
    var s1 := State(Begin, None, p, c.env);
    var c0 := Command(c.name, [c.name], None, Unset, Unset, c.env);
    var s2 := State(InCommand, Some(Cmd(c0)), p, map[]);
    ScanAppend(s1, [c.name], args + redirections);
    ScanOne(s1, c.name);
    ScanAppend(s2, args, redirections);
    ScanArgs(p, c0, args);
    assert [c.name] + args == c.argv;
    ScanRedirections(p, c0.(argv := c.argv), c);
  }

  lemma {:induction false} ScanWork(p: seq<Node>, n: Node)
    requires IsWork(n) && IsWritable(n)
    ensures Scan(State(Begin, None, p, map[]), WriteNode(n)) ==
            Some(State(if n.Cmd? then InCommand else InChdir,
                       Some(if n.Cmd? then Cmd(BeforeOperator(n.command)) else n), p, map[]))
  {
    var s0 := State(Begin, None, p, map[]);
    match n
    case Cmd(c) => ScanCommand(p, c);
    case Chdir(dir) =>
      assert NameLength("cd") <= 2;
      if dir.Some? {
        ScanTwo(s0, "cd", dir.value);
      } else {
        ScanOne(s0, "cd");
      }
  }

  lemma {:induction false} ScanPair(p: seq<Node>, work: Node, op: Node)
    requires IsWork(work) && IsWritable(work) && Joins(work, op)
    ensures Scan(State(Begin, None, p, map[]), WriteNode(work) + WriteNode(op)) ==
            Some(State(Begin, None, p + [work, op], map[]))
  {
    var s0 := State(Begin, None, p, map[]);
    ScanAppend(s0, WriteNode(work), WriteNode(op));
    ScanWork(p, work);
    var s := Scan(s0, WriteNode(work)).value;
    ScanOne(s, WriteNode(op)[0]);
  }

  lemma {:induction false} WriteSplit(nodes: seq<Node>, n: nat)
    requires |nodes| == n + 2 && AreWritable(nodes)
    ensures Write(nodes) == Write(nodes[..n]) + (WriteNode(nodes[n]) + WriteNode(nodes[n + 1]))
  {
    assert nodes[..n + 1][..n] == nodes[..n];
  }

  lemma {:induction false} ScanJoined(nodes: seq<Node>)
    requires AreJoined(nodes) && AreWritable(nodes)
    ensures Scan(Start, Write(nodes)) == Some(State(Begin, None, nodes, map[]))
    decreases |nodes|
  {
    if nodes != [] {
      var n := |nodes| - 2;
      var front := nodes[..n];
      ScanJoined(front);
      WriteSplit(nodes, n);
      ScanAppend(Start, Write(front), WriteNode(nodes[n]) + WriteNode(nodes[n + 1]));
      ScanPair(front, nodes[n], nodes[n + 1]);
      LastTwo(nodes, n);
    }
  }

  lemma {:induction false} LastTwo(nodes: seq<Node>, n: nat)
    requires |nodes| == n + 2
    ensures nodes[..n] + [nodes[n], nodes[n + 1]] == nodes
  {
  }

  /** Writing a pipeline and parsing it gives the pipeline back. */
  lemma {:induction false} RoundTrip(nodes: seq<Node>)
    requires IsPipeline(nodes) && AreWritable(nodes)
    ensures Parse(Write(nodes)) == Some(nodes)
  {
    var n := |nodes| - 1;
    var front, work := nodes[..n], nodes[n];
    ScanJoined(front);
    ScanAppend(Start, Write(front), WriteNode(work));
    ScanWork(front, work);
    LastOne(nodes, n);
  }

  lemma {:induction false} LastOne(nodes: seq<Node>, n: nat)
    requires |nodes| == n + 1
    ensures nodes[..n] + [nodes[n]] == nodes
  {
  }

  // ----- what is parsed can be written

  lemma {:induction false} NameLengthIs(s: string)
    ensures NameLength(s) <= |s| && forall i :: 0 <= i < NameLength(s) ==> IsNameChar(s[i])
  {
    if s != [] && IsNameChar(s[0]) {
      NameLengthIs(s[1..]);
      forall i | 0 <= i < NameLength(s) ensures IsNameChar(s[i]) {
        assert i > 0 ==> s[i] == s[1..][i - 1];
      }
    }
  }

  ghost predicate IsWritableState(s: State) {
    && AreWritable(s.pipeline) && IsEnv(s.env)
    && (s.current.Some? ==> IsWritable(s.current.value))
  }

  lemma {:induction false} ArgvSnoc(c: Command, token: string)
    requires IsWritableCommand(c) && !IsSpecial(token)
    ensures IsWritableCommand(c.(argv := c.argv + [token]))
  {
    assert (c.argv + [token])[1..] == c.argv[1..] + [token];
  }

  lemma {:induction false} BeginKeepsWritable(s: State, token: string)
    requires IsWritableState(s) && BeginStep(s, token).Some?
    ensures IsWritableState(BeginStep(s, token).value)
  {
    if EnvMatch(token).Some? {
      NameLengthIs(token);
      var (key, value) := EnvMatch(token).value;
      assert IsName(key) && IsValue(value);
    } else if token != "cd" {
      assert [token][1..] == [];
    }
  }

  lemma {:induction false} CommitKeepsWritable(s: State, node: Node, op: Node)
    requires IsWritableState(s) && IsWritable(node) && IsWritable(op)
    ensures IsWritableState(Commit(s, node, op))
  {
  }

  lemma {:induction false} CommandKeepsWritable(s: State, c: Command, token: string)
    requires IsWritableState(s) && IsWritableCommand(c) && CommandStep(s, c, token).Some?
    requires s.current == Some(Cmd(c))
    ensures IsWritableState(CommandStep(s, c, token).value)
  {
    if !IsSpecial(token) {
      ArgvSnoc(c, token);
    } else if token == "|" {
      CommitKeepsWritable(s, Cmd(c.(stdout := ToPipe)), Pipe);
    } else if token == "&&" {
      CommitKeepsWritable(s, Cmd(c), And);
    } else if token == "||" {
      CommitKeepsWritable(s, Cmd(c), Or);
    }
  }

  lemma {:induction false} StepKeepsWritable(s: State, token: string)
    requires IsWritableState(s) && Step(s, token).Some?
    ensures IsWritableState(Step(s, token).value)
  {
    match s.mode
    case Begin => BeginKeepsWritable(s, token);
    case InCommand => CommandKeepsWritable(s, s.current.value.command, token);
    case InChdir =>
      if token == "&&" {
        CommitKeepsWritable(s, s.current.value, And);
      }
    case _ =>
  }

  lemma {:induction false} ScanKeepsWritable(s: State, tokens: seq<string>)
    requires IsWritableState(s) && Scan(s, tokens).Some?
    ensures IsWritableState(Scan(s, tokens).value)
    decreases |tokens|
  {
    if tokens != [] {
      StepKeepsWritable(s, tokens[0]);
      ScanKeepsWritable(Step(s, tokens[0]).value, tokens[1..]);
    }
  }

  /** Every accepted token list has a normal form that parses to the same pipeline. */
  lemma {:induction false} NormalForm(tokens: seq<string>)
    requires Parse(tokens).Some?
    ensures AreWritable(Parse(tokens).value) && Parse(Write(Parse(tokens).value)) == Parse(tokens)
  {
    ScanKeepsWritable(Start, tokens);
    ParsedIsPipeline(tokens);
    RoundTrip(Parse(tokens).value);
  }
}
