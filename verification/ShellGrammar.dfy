/** The language of the small shell as a grammar: the machine accepts exactly its sentences, with their meaning. */
module ShellGrammar {
  import opened Wrappers
  import opened ShellParser
  import opened ShellSyntax

  // ----- the assignment pattern

  /** A nonempty name of letters, digits and underscores, an equals sign, and a nonempty value without white space. */
  ghost predicate IsAssignment(token: string, k: string, v: string) {
    && k != ""
    && (forall i :: 0 <= i < |k| ==> 'a' <= k[i] <= 'z' || 'A' <= k[i] <= 'Z' || '0' <= k[i] <= '9' || k[i] == '_')
    && v != "" && (forall i :: 0 <= i < |v| ==> !IsSpace(v[i]))
    && (token == k + "=" + v || token == k + "=" + v + "\n")
  }

  lemma {:induction false} SpacesAre()
    ensures IsSpace(' ') && IsSpace('\t') && IsSpace('\n') && IsSpace('\r')
    ensures !IsSpace('=') && !IsSpace('a') && !IsSpace('/')
  {
  }

  lemma {:induction false} NameLengthIs(s: string)
    ensures NameLength(s) <= |s| && forall i :: 0 <= i < NameLength(s) ==> IsNameChar(s[i])
    ensures NameLength(s) < |s| ==> !IsNameChar(s[NameLength(s)])
  {
    if s != [] && IsNameChar(s[0]) {
      NameLengthIs(s[1..]);
      assert forall i :: 1 <= i < |s| ==> s[i] == s[1..][i - 1];
    }
  }

  lemma {:induction false} NameEnds(s: string, n: nat)
    requires n < |s| && (forall i :: 0 <= i < n ==> IsNameChar(s[i])) && s[n] == '='
    ensures NameLength(s) == n
  {
    NameLengthIs(s);
    assert !IsNameChar(s[n]);
  }

  lemma {:induction false} NameAndTail(k: string, tail: string)
    requires k != "" && forall i :: 0 <= i < |k| ==> IsNameChar(k[i])
    ensures var token := k + "=" + tail;
            NameLength(token) == |k| && token[|k|] == '=' && token[..|k|] == k && token[|k| + 1..] == tail
  {
    var token := k + "=" + tail;
    assert forall i :: 0 <= i < |k| ==> token[i] == k[i];
    NameEnds(token, |k|);
  }

  lemma {:induction false} AssignmentMatches(token: string, k: string, v: string)
    requires IsAssignment(token, k, v)
    ensures EnvMatch(token) == Some((k, v))
  {
    var tail := if token == k + "=" + v then v else v + "\n";
    assert token == k + "=" + tail;
    NameAndTail(k, tail);
    LastIsNoNewline(v);
    assert (v + "\n")[..|v|] == v;
  }

  lemma {:induction false} LastIsNoNewline(v: string)
    requires v != "" && forall i :: 0 <= i < |v| ==> !IsSpace(v[i])
    ensures v[|v| - 1] != '\n' && IsValue(v)
  {
    SpacesAre();
  }

  lemma {:induction false} MatchIsAssignment(token: string)
    requires EnvMatch(token).Some?
    ensures IsAssignment(token, EnvMatch(token).value.0, EnvMatch(token).value.1)
  {
    var n := NameLength(token);
    var (k, v) := EnvMatch(token).value;
    NameLengthIs(token);
    assert k == token[..n] && token[n] == '=';
    SplitAtEquals(token, n, v);
    NameChars(k);
  }

  lemma {:induction false} NameChars(k: string)
    requires forall i :: 0 <= i < |k| ==> IsNameChar(k[i])
    ensures forall i :: 0 <= i < |k| ==>
              'a' <= k[i] <= 'z' || 'A' <= k[i] <= 'Z' || '0' <= k[i] <= '9' || k[i] == '_'
  {
  }

  lemma {:induction false} SplitAtEquals(token: string, n: nat, v: string)
    requires n < |token| && token[n] == '='
    requires var rest := token[n + 1..];
             v == if rest != [] && rest[|rest| - 1] == '\n' then rest[..|rest| - 1] else rest
    ensures token == token[..n] + "=" + v || token == token[..n] + "=" + v + "\n"
  {
    var rest := token[n + 1..];
    assert token == token[..n] + "=" + rest;
    if rest != v {
      assert rest == v + "\n";
    }
  }

  /** The machine takes a token for an assignment exactly if it has that form. */
  lemma {:induction false} EnvMatchIff(token: string, k: string, v: string)
    ensures EnvMatch(token) == Some((k, v)) <==> IsAssignment(token, k, v)
  {
    if EnvMatch(token) == Some((k, v)) {
      MatchIsAssignment(token);
    }
    if IsAssignment(token, k, v) {
      AssignmentMatches(token, k, v);
    }
  }

  // ----- sentences

  datatype Part =
    | Arg(word: string) | StdinFrom(file: string) | StdoutTo(file: string) | StderrTo(file: string) | StderrToStdout

  datatype Unit = Run(assignments: seq<string>, name: string, parts: seq<Part>) | Cd(dir: Option<string>)

  datatype Join = Join(work: Unit, op: string)

  /**
    A sentence, or the beginning of one: complete joins, and then assignments, or a last unit, which a redirection
    without its file name may follow.
   */
  datatype Sentence = Sentence(joins: seq<Join>, pending: seq<string>, last: Option<Unit>, dangling: Option<string>)

  function PartTokens(p: Part): seq<string> {
    match p
    case Arg(x) => [x]
    case StdinFrom(f) => ["<", f]
    case StdoutTo(f) => [">", f]
    case StderrTo(f) => ["2>", f]
    case StderrToStdout => ["2>&1"]
  }

  function PartsTokens(parts: seq<Part>): seq<string> {
    if parts == [] then [] else PartsTokens(parts[..|parts| - 1]) + PartTokens(parts[|parts| - 1])
  }

  function UnitTokens(u: Unit): seq<string> {
    match u
    case Run(a, name, parts) => a + [name] + PartsTokens(parts)
    case Cd(None) => ["cd"]
    case Cd(Some(d)) => ["cd", d]
  }

  function JoinsTokens(joins: seq<Join>): seq<string> {
    if joins == [] then []
    else JoinsTokens(joins[..|joins| - 1]) + UnitTokens(joins[|joins| - 1].work) + [joins[|joins| - 1].op]
  }

  function Tokens(s: Sentence): seq<string> {
    JoinsTokens(s.joins) + s.pending + (if s.last.Some? then UnitTokens(s.last.value) else []) +
    (if s.dangling.Some? then [s.dangling.value] else [])
  }

  // ----- which are well formed

  predicate IsOperatorToken(x: string) {
    x == ">" || x == "2>" || x == "2>&1" || x == "<" || x == "|" || x == "&&" || x == "||"
  }

  function Stream(p: Part): nat {
    match p
    case Arg(_) => 0
    case StdinFrom(_) => 1
    case StdoutTo(_) => 2
    case StderrTo(_) => 3
    case StderrToStdout => 3
  }

  /** No word looks like an operator, and no stream is redirected twice. */
  ghost predicate AreParts(parts: seq<Part>) {
    && (forall i :: 0 <= i < |parts| && parts[i].Arg? ==> !IsOperatorToken(parts[i].word))
    && (forall i, j :: 0 <= i < j < |parts| && Stream(parts[i]) == Stream(parts[j]) ==> Stream(parts[i]) == 0)
  }

  ghost predicate IsAssignmentToken(x: string) {
    exists k, v :: IsAssignment(x, k, v)
  }

  ghost predicate AreAssignments(a: seq<string>) {
    forall i :: 0 <= i < |a| ==> IsAssignmentToken(a[i])
  }

  ghost predicate IsUnit(u: Unit) {
    match u
    case Run(a, name, parts) =>
      AreAssignments(a) && name != "cd" && !IsAssignmentToken(name) && AreParts(parts)
    case Cd(dir) => dir != Some("&&")
  }

  /** Only `&&` follows a change of directory, and a command whose output goes to a file is not followed by a pipe. */
  ghost predicate IsJoin(j: Join) {
    && IsUnit(j.work)
    && match j.work
       case Run(_, _, parts) =>
         || j.op == "&&" || j.op == "||"
         || (j.op == "|" && forall i :: 0 <= i < |parts| ==> !parts[i].StdoutTo?)
       case Cd(_) => j.op == "&&"
  }

  ghost predicate IsPartial(s: Sentence) {
    && (forall i :: 0 <= i < |s.joins| ==> IsJoin(s.joins[i]))
    && AreAssignments(s.pending) && (s.last.Some? ==> s.pending == [] && IsUnit(s.last.value))
    && (s.dangling.Some? ==>
          && s.last.Some? && s.last.value.Run?
          && (s.dangling.value == "<" || s.dangling.value == ">" || s.dangling.value == "2>"))
  }

  ghost predicate IsSentence(s: Sentence) {
    IsPartial(s) && s.last.Some?
  }

  // ----- what they mean

  function Env(a: seq<string>): map<string, string> {
    if a == [] then map[]
    else
      var env, m := Env(a[..|a| - 1]), EnvMatch(a[|a| - 1]);
      if m.Some? then env[m.value.0 := m.value.1] else env
  }

  function Args(parts: seq<Part>): seq<string> {
    if parts == [] then []
    else Args(parts[..|parts| - 1]) + if parts[|parts| - 1].Arg? then [parts[|parts| - 1].word] else []
  }

  function Stdin(parts: seq<Part>): Option<string> {
    if parts == [] then None
    else if parts[|parts| - 1].StdinFrom? then Some(parts[|parts| - 1].file) else Stdin(parts[..|parts| - 1])
  }

  function Stdout(parts: seq<Part>): Target {
    if parts == [] then Unset
    else if parts[|parts| - 1].StdoutTo? then ToFile(parts[|parts| - 1].file) else Stdout(parts[..|parts| - 1])
  }

  function Stderr(parts: seq<Part>): Target {
    if parts == [] then Unset
    else
      match parts[|parts| - 1]
      case StderrTo(f) => ToFile(f)
      case StderrToStdout => ToStdout
      case _ => Stderr(parts[..|parts| - 1])
  }

  function CommandOf(a: seq<string>, name: string, parts: seq<Part>): Command {
    Command(name, [name] + Args(parts), Stdin(parts), Stdout(parts), Stderr(parts), Env(a))
  }

  function NodeOf(u: Unit): Node {
    match u
    case Run(a, name, parts) => Cmd(CommandOf(a, name, parts))
    case Cd(dir) => Chdir(dir)
  }

  function JoinNodes(j: Join): seq<Node> {
    if j.op == "|" && j.work.Run? then
      [Cmd(CommandOf(j.work.assignments, j.work.name, j.work.parts).(stdout := ToPipe)), Pipe]
    else [NodeOf(j.work), if j.op == "||" then Or else And]
  }

  function JoinsNodes(joins: seq<Join>): seq<Node> {
    if joins == [] then [] else JoinsNodes(joins[..|joins| - 1]) + JoinNodes(joins[|joins| - 1])
  }

  function Meaning(s: Sentence): seq<Node>
    requires s.last.Some?
  {
    JoinsNodes(s.joins) + [NodeOf(s.last.value)]
  }

  // ----- the state of the machine after the beginning of a sentence

  function ModeAfter(s: Sentence): Mode {
    if s.last.None? then Begin
    else if s.last.value.Cd? then InChdir
    else match s.dangling
      case None => InCommand
      case Some(d) => if d == ">" then WantStdout else if d == "2>" then WantStderr else WantStdin
  }

  function StateAfter(s: Sentence): State {
    State(ModeAfter(s), if s.last.Some? then Some(NodeOf(s.last.value)) else None, JoinsNodes(s.joins), Env(s.pending))
  }

  ghost predicate Leads(s: Sentence, token: string, s': Sentence) {
    && IsPartial(s) && IsPartial(s') && Tokens(s') == Tokens(s) + [token]
    && Step(StateAfter(s), token) == Some(StateAfter(s'))
  }

  lemma {:induction false} PartStreams(parts: seq<Part>)
    ensures Stdin(parts).None? <==> forall i :: 0 <= i < |parts| ==> Stream(parts[i]) != 1
    ensures Stdout(parts).Unset? <==> forall i :: 0 <= i < |parts| ==> Stream(parts[i]) != 2
    ensures Stderr(parts).Unset? <==> forall i :: 0 <= i < |parts| ==> Stream(parts[i]) != 3
  {
    if parts != [] {
      var front := parts[..|parts| - 1];
      PartStreams(front);
      assert forall i :: 0 <= i < |front| ==> front[i] == parts[i];
    }
  }

  lemma {:induction false} AssignmentIff(token: string)
    ensures EnvMatch(token).Some? <==> IsAssignmentToken(token)
  {
    if EnvMatch(token).Some? {
      MatchIsAssignment(token);
    }
    forall k, v | IsAssignment(token, k, v) ensures EnvMatch(token).Some? {
      AssignmentMatches(token, k, v);
    }
  }

  // ----- one production each

  lemma {:induction false} EnvSnoc(a: seq<string>, token: string)
    requires EnvMatch(token).Some?
    ensures Env(a + [token]) == Env(a)[EnvMatch(token).value.0 := EnvMatch(token).value.1]
  {
    assert (a + [token])[..|a|] == a;
  }

  lemma {:induction false} AddAssignment(s: Sentence, token: string) returns (s': Sentence)
    requires IsPartial(s) && s.last.None? && EnvMatch(token).Some?
    ensures s' == s.(pending := s.pending + [token]) && Leads(s, token, s')
  {
    s' := s.(pending := s.pending + [token]);
    AssignmentIff(token);
    EnvSnoc(s.pending, token);
    PendingTokens(s, token);
    assert AreAssignments(s'.pending);
  }

  lemma {:induction false} PendingTokens(s: Sentence, token: string)
    requires s.last.None? && s.dangling.None?
    ensures Tokens(s.(pending := s.pending + [token])) == Tokens(s) + [token]
  {
  }

  lemma {:induction false} AddName(s: Sentence, token: string) returns (s': Sentence)
    requires IsPartial(s) && s.last.None? && EnvMatch(token).None? && token != "cd"
    ensures s' == s.(pending := [], last := Some(Run(s.pending, token, []))) && Leads(s, token, s')
  {
    s' := s.(pending := [], last := Some(Run(s.pending, token, [])));
    AssignmentIff(token);
    assert Tokens(s') == Tokens(s) + [token];
    assert [token] + Args([]) == [token];
  }

  lemma {:induction false} AddCd(s: Sentence) returns (s': Sentence)
    requires IsPartial(s) && s.last.None? && s.pending == [] && EnvMatch("cd").None?
    ensures s' == s.(last := Some(Cd(None))) && Leads(s, "cd", s')
  {
    s' := s.(last := Some(Cd(None)));
    assert Tokens(s') == Tokens(s) + ["cd"];
  }

  lemma {:induction false} AddDirectory(s: Sentence, token: string) returns (s': Sentence)
    requires IsPartial(s) && s.last == Some(Cd(None)) && token != "&&"
    ensures s' == s.(last := Some(Cd(Some(token)))) && Leads(s, token, s')
  {
    s' := s.(last := Some(Cd(Some(token))));
    assert Tokens(s') == Tokens(s) + [token];
  }

  ghost function WithPart(s: Sentence, p: Part): Sentence
    requires s.last.Some? && s.last.value.Run?
  {
    var u := s.last.value;
    s.(last := Some(Run(u.assignments, u.name, u.parts + [p])), dangling := None)
  }

  lemma {:induction false} PartsSnoc(parts: seq<Part>, p: Part)
    requires AreParts(parts) && (p.Arg? ==> !IsOperatorToken(p.word))
    requires forall i :: 0 <= i < |parts| ==> Stream(parts[i]) != Stream(p) || Stream(p) == 0
    ensures AreParts(parts + [p]) && PartsTokens(parts + [p]) == PartsTokens(parts) + PartTokens(p)
  {
    assert (parts + [p])[..|parts|] == parts;
  }

  lemma {:induction false} TokensWithUnit(joins: seq<Join>, u: Unit, v: Unit, more: seq<string>)
    requires UnitTokens(v) == UnitTokens(u) + more
    ensures Tokens(Sentence(joins, [], Some(v), None)) == Tokens(Sentence(joins, [], Some(u), None)) + more
  {
  }

  /** Another part whose stream, if it has one, is not yet redirected. */
  lemma {:induction false} OneMorePart(s: Sentence, p: Part)
    requires IsPartial(s) && s.last.Some? && s.last.value.Run? && (p.Arg? ==> !IsOperatorToken(p.word))
    requires forall i :: 0 <= i < |s.last.value.parts| ==> Stream(s.last.value.parts[i]) != Stream(p) || Stream(p) == 0
    ensures IsPartial(WithPart(s, p))
    ensures Tokens(WithPart(s, p)) == Tokens(s.(dangling := None)) + PartTokens(p)
  {
    var u, v := s.last.value, WithPart(s, p).last.value;
    PartsSnoc(u.parts, p);
    assert UnitTokens(v) == UnitTokens(u) + PartTokens(p);
    TokensWithUnit(s.joins, u, v, PartTokens(p));
    assert WithPart(s, p) == Sentence(s.joins, [], Some(v), None);
    assert s.(dangling := None) == Sentence(s.joins, [], Some(u), None);
  }

  lemma {:induction false} CommandWithPart(a: seq<string>, name: string, parts: seq<Part>, p: Part)
    ensures var c, r := CommandOf(a, name, parts), CommandOf(a, name, parts + [p]);
            match p
            case Arg(x) => r == c.(argv := c.argv + [x])
            case StdinFrom(f) => r == c.(stdin := Some(f))
            case StdoutTo(f) => r == c.(stdout := ToFile(f))
            case StderrTo(f) => r == c.(stderr := ToFile(f))
            case StderrToStdout => r == c.(stderr := ToStdout)
  {
    assert (parts + [p])[..|parts|] == parts;
  }

  lemma {:induction false} AddArg(s: Sentence, token: string) returns (s': Sentence)
    requires IsPartial(s) && s.last.Some? && s.last.value.Run? && s.dangling.None? && !IsOperatorToken(token)
    ensures s' == WithPart(s, Arg(token)) && Leads(s, token, s')
  {
    s' := WithPart(s, Arg(token));
    OneMorePart(s, Arg(token));
    var u := s.last.value;
    CommandWithPart(u.assignments, u.name, u.parts, Arg(token));
    assert s.(dangling := None) == s;
  }

  lemma {:induction false} StderrToStdoutStep(s: Sentence)
    requires s.last.Some? && s.last.value.Run? && s.dangling.None? && s.pending == []
    requires forall i :: 0 <= i < |s.last.value.parts| ==> Stream(s.last.value.parts[i]) != 3
    ensures Step(StateAfter(s), "2>&1") == Some(StateAfter(WithPart(s, StderrToStdout)))
  {
    var u := s.last.value;
    CommandWithPart(u.assignments, u.name, u.parts, StderrToStdout);
    PartStreams(u.parts);
  }

  lemma {:induction false} AddStderrToStdout(s: Sentence) returns (s': Sentence)
    requires IsPartial(s) && s.last.Some? && s.last.value.Run? && s.dangling.None?
    requires forall i :: 0 <= i < |s.last.value.parts| ==> Stream(s.last.value.parts[i]) != 3
    ensures s' == WithPart(s, StderrToStdout) && Leads(s, "2>&1", s')
  {
    s' := WithPart(s, StderrToStdout);
    OneMorePart(s, StderrToStdout);
    StderrToStdoutStep(s);
    assert s.(dangling := None) == s;
  }

  lemma {:induction false} RedirectionStep(s: State, c: Command, op: string)
    requires s.mode.InCommand? && s.current == Some(Cmd(c)) && (op == "<" || op == ">" || op == "2>")
    ensures Step(s, op) ==
            Some(s.(mode := if op == ">" then WantStdout else if op == "2>" then WantStderr else WantStdin))
  {
  }

  lemma {:induction false} AddRedirection(s: Sentence, op: string) returns (s': Sentence)
    requires IsPartial(s) && s.last.Some? && s.last.value.Run? && s.dangling.None?
    requires (op == "<" || op == ">" || op == "2>")
    ensures s' == s.(dangling := Some(op)) && Leads(s, op, s')
  {
    s' := s.(dangling := Some(op));
    DanglingTokens(s, op);
    RedirectionStep(StateAfter(s), NodeOf(s.last.value).command, op);
  }

  lemma {:induction false} DanglingTokens(s: Sentence, op: string)
    requires s.dangling.None?
    ensures Tokens(s.(dangling := Some(op))) == Tokens(s) + [op]
  {
  }

  ghost function Redirection(op: string, file: string): Part {
    if op == ">" then StdoutTo(file) else if op == "2>" then StderrTo(file) else StdinFrom(file)
  }

  lemma {:induction false} FileTokens(s: Sentence, p: Part, token: string)
    requires s.last.Some? && s.last.value.Run? && s.dangling.Some? && PartTokens(p) == [s.dangling.value, token]
    requires Tokens(WithPart(s, p)) == Tokens(s.(dangling := None)) + PartTokens(p)
    ensures Tokens(WithPart(s, p)) == Tokens(s) + [token]
  {
    assert Tokens(s.(dangling := None)) + [s.dangling.value] == Tokens(s);
  }

  ghost predicate IsFree(c: Command, op: string) {
    if op == ">" then c.stdout.Unset? else if op == "2>" then c.stderr.Unset? else c.stdin.None?
  }

  lemma {:induction false} FreeStream(u: Unit, op: string, file: string)
    requires u.Run? && forall i :: 0 <= i < |u.parts| ==> Stream(u.parts[i]) != Stream(Redirection(op, file))
    ensures IsFree(CommandOf(u.assignments, u.name, u.parts), op)
  {
    PartStreams(u.parts);
  }

  lemma {:induction false} RedirectStep(s: State, c: Command, op: string, token: string)
    requires s.current == Some(Cmd(c)) && IsFree(c, op)
    requires s.mode == if op == ">" then WantStdout else if op == "2>" then WantStderr else WantStdin
    ensures Step(s, token) == Some(Redirected(s,
              if op == ">" then c.(stdout := ToFile(token))
              else if op == "2>" then c.(stderr := ToFile(token)) else c.(stdin := Some(token))))
  {
  }

  lemma {:induction false} FileStep(s: Sentence, token: string)
    requires IsPartial(s) && s.dangling.Some?
    requires var p := Redirection(s.dangling.value, token);
             forall i :: 0 <= i < |s.last.value.parts| ==> Stream(s.last.value.parts[i]) != Stream(p)
    ensures Step(StateAfter(s), token) == Some(StateAfter(WithPart(s, Redirection(s.dangling.value, token))))
  {
    var u, op := s.last.value, s.dangling.value;
    CommandWithPart(u.assignments, u.name, u.parts, Redirection(op, token));
    FreeStream(u, op, token);
    RedirectStep(StateAfter(s), CommandOf(u.assignments, u.name, u.parts), op, token);
  }

  lemma {:induction false} RedirectionTokens(op: string, file: string)
    requires op == "<" || op == ">" || op == "2>"
    ensures PartTokens(Redirection(op, file)) == [op, file]
  {
  }

  lemma {:induction false} AddFile(s: Sentence, token: string) returns (s': Sentence)
    requires IsPartial(s) && s.dangling.Some?
    requires var p := Redirection(s.dangling.value, token);
             forall i :: 0 <= i < |s.last.value.parts| ==> Stream(s.last.value.parts[i]) != Stream(p)
    ensures s' == WithPart(s, Redirection(s.dangling.value, token)) && Leads(s, token, s')
  {
    var p := Redirection(s.dangling.value, token);
    s' := WithPart(s, p);
    OneMorePart(s, p);
    RedirectionTokens(s.dangling.value, token);
    FileTokens(s, p, token);
    FileStep(s, token);
  }

  lemma {:induction false} OperatorTokens(joins: seq<Join>, u: Unit, op: string)
    ensures Tokens(Sentence(joins + [Join(u, op)], [], None, None)) == Tokens(Sentence(joins, [], Some(u), None)) + [op]
  {
    assert (joins + [Join(u, op)])[..|joins|] == joins;
  }

  lemma {:induction false} JoinsSnoc(joins: seq<Join>, j: Join)
    ensures JoinsNodes(joins + [j]) == JoinsNodes(joins) + JoinNodes(j)
  {
    assert (joins + [j])[..|joins|] == joins;
  }

  lemma {:induction false} CommitStep(s: State, u: Unit, op: string)
    requires IsJoin(Join(u, op)) && s.current == Some(NodeOf(u)) && s.mode == if u.Cd? then InChdir else InCommand
    ensures Step(s, op) == Some(State(Begin, None, s.pipeline + JoinNodes(Join(u, op)), s.env))
  {
    if u.Run? {
      PartStreams(u.parts);
      assert op == "|" ==> forall i :: 0 <= i < |u.parts| ==> Stream(u.parts[i]) != 2;
    }
  }

  lemma {:induction false} OperatorStep(joins: seq<Join>, u: Unit, op: string)
    requires IsJoin(Join(u, op))
    ensures Step(StateAfter(Sentence(joins, [], Some(u), None)), op) ==
            Some(StateAfter(Sentence(joins + [Join(u, op)], [], None, None)))
  {
    CommitStep(StateAfter(Sentence(joins, [], Some(u), None)), u, op);
    JoinsSnoc(joins, Join(u, op));
  }

  lemma {:induction false} AddOperator(s: Sentence, op: string) returns (s': Sentence)
    requires IsPartial(s) && s.last.Some? && s.dangling.None? && IsJoin(Join(s.last.value, op))
    ensures s' == Sentence(s.joins + [Join(s.last.value, op)], [], None, None) && Leads(s, op, s')
  {
    var j := Join(s.last.value, op);
    s' := Sentence(s.joins + [j], [], None, None);
    assert s == Sentence(s.joins, [], Some(s.last.value), None);
    OperatorTokens(s.joins, s.last.value, op);
    OperatorStep(s.joins, s.last.value, op);
  }

  // ----- the machine finds the production for each token it accepts

  lemma {:induction false} NextInCommand(s: Sentence, token: string) returns (s': Sentence)
    requires IsPartial(s) && s.last.Some? && s.last.value.Run? && s.dangling.None? && Step(StateAfter(s), token).Some?
    ensures Leads(s, token, s')
  {
    var parts := s.last.value.parts;
    PartStreams(parts);
    if !IsOperatorToken(token) {
      s' := AddArg(s, token);
    } else if token == "2>&1" {
      s' := AddStderrToStdout(s);
    } else if token == "<" || token == ">" || token == "2>" {
      s' := AddRedirection(s, token);
    } else {
      assert token == "|" ==> forall i :: 0 <= i < |parts| ==> Stream(parts[i]) != 2;
      s' := AddOperator(s, token);
    }
  }

  lemma {:induction false} NextInBegin(s: Sentence, token: string) returns (s': Sentence)
    requires IsPartial(s) && s.last.None? && Step(StateAfter(s), token).Some?
    ensures Leads(s, token, s')
  {
    if EnvMatch(token).Some? {
      s' := AddAssignment(s, token);
    } else if token == "cd" {
      EmptyEnv(s.pending);
      s' := AddCd(s);
    } else {
      s' := AddName(s, token);
    }
  }

  lemma {:induction false} EmptyEnv(a: seq<string>)
    requires AreAssignments(a)
    ensures Env(a) == map[] <==> a == []
  {
    if a != [] {
      AssignmentIff(a[|a| - 1]);
      var k := EnvMatch(a[|a| - 1]).value.0;
      assert k in Env(a);
    }
  }

  lemma {:induction false} NextInChdir(s: Sentence, token: string) returns (s': Sentence)
    requires IsPartial(s) && s.last.Some? && s.last.value.Cd? && Step(StateAfter(s), token).Some?
    ensures Leads(s, token, s')
  {
    if token == "&&" {
      s' := AddOperator(s, "&&");
    } else {
      s' := AddDirectory(s, token);
    }
  }

  lemma {:induction false} NextInRedirection(s: Sentence, token: string) returns (s': Sentence)
    requires IsPartial(s) && s.dangling.Some? && Step(StateAfter(s), token).Some?
    ensures Leads(s, token, s')
  {
    PartStreams(s.last.value.parts);
    s' := AddFile(s, token);
  }

  lemma {:induction false} NextToken(s: Sentence, token: string) returns (s': Sentence)
    requires IsPartial(s) && Step(StateAfter(s), token).Some?
    ensures Leads(s, token, s')
  {
    if s.last.None? {
      s' := NextInBegin(s, token);
    } else if s.last.value.Cd? {
      s' := NextInChdir(s, token);
    } else if s.dangling.None? {
      s' := NextInCommand(s, token);
    } else {
      s' := NextInRedirection(s, token);
    }
  }

  const Nothing: Sentence := Sentence([], [], None, None)

  lemma {:induction false} ScanSnoc(tokens: seq<string>)
    requires tokens != []
    ensures Scan(Start, tokens) ==
            match Scan(Start, tokens[..|tokens| - 1]) case None => None case Some(s) => Step(s, tokens[|tokens| - 1])
  {
    var front, x := tokens[..|tokens| - 1], tokens[|tokens| - 1];
    assert tokens == front + [x] && [x][1..] == [];
    ScanAppend(Start, front, [x]);
  }

  ghost predicate Explains(s: Sentence, tokens: seq<string>, state: State) {
    IsPartial(s) && Tokens(s) == tokens && StateAfter(s) == state
  }

  ghost predicate IsExplained(tokens: seq<string>, state: State) {
    exists s :: Explains(s, tokens, state)
  }

  lemma {:induction false} ExplainedNext(tokens: seq<string>, states: seq<State>, k: nat)
    requires IsTrace(tokens, states) && 0 < k <= |tokens| && IsExplained(tokens[..k - 1], states[k - 1])
    ensures IsExplained(tokens[..k], states[k])
  {
    TraceStep(tokens, states, k);
    var s :| Explains(s, tokens[..k - 1], states[k - 1]);
    var s' := ExplainNext(s, tokens[..k - 1], states[k - 1], tokens[k - 1], tokens[..k], states[k]);
  }

  lemma {:induction false} ExplainNext(s: Sentence, tokens: seq<string>, state: State, token: string,
                                       tokens': seq<string>, state': State)
    returns (s': Sentence)
    requires Explains(s, tokens, state) && Step(state, token) == Some(state') && tokens' == tokens + [token]
    ensures Explains(s', tokens', state')
  {
    s' := NextToken(s, token);
  }

  ghost predicate IsStepAt(tokens: seq<string>, states: seq<State>, i: nat) {
    i < |tokens| && i + 1 < |states| && Step(states[i], tokens[i]) == Some(states[i + 1])
  }

  /** The states that the machine goes through. */
  ghost predicate IsTrace(tokens: seq<string>, states: seq<State>) {
    && |states| == |tokens| + 1 && states[0] == Start
    && forall i: nat {:trigger IsStepAt(tokens, states, i)} :: i < |tokens| ==> IsStepAt(tokens, states, i)
  }

  lemma {:induction false} TraceOf(tokens: seq<string>) returns (states: seq<State>)
    requires Scan(Start, tokens).Some?
    ensures IsTrace(tokens, states) && states[|tokens|] == Scan(Start, tokens).value
  {
    if tokens == [] {
      states := [Start];
    } else {
      ScanSnoc(tokens);
      var front := tokens[..|tokens| - 1];
      var before := TraceOf(front);
      states := before + [Scan(Start, tokens).value];
      forall i: nat | i < |tokens| ensures IsStepAt(tokens, states, i) {
        assert i < |front| ==> IsStepAt(front, before, i);
      }
    }
  }

  lemma {:induction false} TraceStep(tokens: seq<string>, states: seq<State>, k: nat)
    requires IsTrace(tokens, states) && 0 < k <= |tokens|
    ensures Step(states[k - 1], tokens[k - 1]) == Some(states[k]) && tokens[..k] == tokens[..k - 1] + [tokens[k - 1]]
  {
    assert IsStepAt(tokens, states, k - 1);
  }

  lemma {:induction false} ExplainNothing()
    ensures Explains(Nothing, [], Start)
  {
  }

  lemma {:induction false} ExplainedStart(tokens: seq<string>, states: seq<State>)
    requires IsTrace(tokens, states)
    ensures IsExplained(tokens[..0], states[0])
  {
    ExplainNothing();
    assert tokens[..0] == [];
  }

  lemma {:induction false} ExplainPrefix(tokens: seq<string>, states: seq<State>, k: nat)
    requires IsTrace(tokens, states) && k <= |tokens|
    ensures IsExplained(tokens[..k], states[k])
  {
    if k == 0 {
      ExplainedStart(tokens, states);
    } else {
      ExplainPrefix(tokens, states, k - 1);
      ExplainedNext(tokens, states, k);
    }
  }

  /** Every token list that the machine gets through begins a sentence, and leaves the state that it means. */
  lemma {:induction false} ScannedIsPartial(tokens: seq<string>) returns (s: Sentence)
    requires Scan(Start, tokens).Some?
    ensures Explains(s, tokens, Scan(Start, tokens).value)
  {
    var states := TraceOf(tokens);
    ExplainPrefix(tokens, states, |tokens|);
    assert tokens[..|tokens|] == tokens;
    s :| Explains(s, tokens, states[|tokens|]);
  }

  // ----- and every sentence is accepted

  lemma {:induction false} CdIsNoAssignment()
    ensures EnvMatch("cd").None?
  {
    NameLengthIs("cd");
    assert NameLength("cd") == 2 || !IsNameChar("cd"[NameLength("cd")]);
  }

  lemma {:induction false} PartsFront(s: Sentence)
    requires IsPartial(s) && s.last.Some? && s.last.value.Run? && s.last.value.parts != []
    ensures var u := s.last.value;
            var n := |u.parts| - 1;
            && IsPartial(s.(last := Some(u.(parts := u.parts[..n]))))
            && (forall i :: 0 <= i < n ==> Stream(u.parts[i]) != Stream(u.parts[n]) || Stream(u.parts[n]) == 0)
            && u.parts[..n] + [u.parts[n]] == u.parts
  {
  }

  lemma {:induction false} BeforePart(s: Sentence) returns (s0: Sentence, token: string)
    requires IsPartial(s) && s.last.Some? && s.last.value.Run? && s.dangling.None? && s.last.value.parts != []
    ensures Leads(s0, token, s)
  {
    var u := s.last.value;
    var n := |u.parts| - 1;
    PartsFront(s);
    s0 := s.(last := Some(u.(parts := u.parts[..n])));
    var s1: Sentence;
    match u.parts[n] {
      case Arg(x) =>
        token := x;
        s1 := AddArg(s0, x);
      case StderrToStdout =>
        token := "2>&1";
        s1 := AddStderrToStdout(s0);
      case StdinFrom(f) =>
        token, s0 := f, s0.(dangling := Some("<"));
        s1 := AddFile(s0, f);
      case StdoutTo(f) =>
        token, s0 := f, s0.(dangling := Some(">"));
        s1 := AddFile(s0, f);
      case StderrTo(f) =>
        token, s0 := f, s0.(dangling := Some("2>"));
        s1 := AddFile(s0, f);
    }
    assert s1 == s;
  }

  lemma {:induction false} BeforeUnit(s: Sentence) returns (s0: Sentence, token: string)
    requires IsPartial(s) && s.last.Some? && s.dangling.None? && (s.last.value.Run? ==> s.last.value.parts == [])
    ensures Leads(s0, token, s)
  {
    var s1: Sentence;
    match s.last.value {
      case Run(a, name, _) =>
        AssignmentIff(name);
        s0, token := Sentence(s.joins, a, None, None), name;
        s1 := AddName(s0, token);
      case Cd(None) =>
        CdIsNoAssignment();
        s0, token := Sentence(s.joins, [], None, None), "cd";
        s1 := AddCd(s0);
      case Cd(Some(d)) =>
        s0, token := s.(last := Some(Cd(None))), d;
        s1 := AddDirectory(s0, token);
    }
    assert s1 == s;
  }

  lemma {:induction false} AssignmentsFront(a: seq<string>)
    requires AreAssignments(a) && a != []
    ensures AreAssignments(a[..|a| - 1]) && EnvMatch(a[|a| - 1]).Some? && a[..|a| - 1] + [a[|a| - 1]] == a
  {
    AssignmentIff(a[|a| - 1]);
  }

  lemma {:induction false} BeforePending(s: Sentence) returns (s0: Sentence, token: string)
    requires IsPartial(s) && s.last.None? && s.pending != []
    ensures Leads(s0, token, s)
  {
    var front := s.pending[..|s.pending| - 1];
    AssignmentsFront(s.pending);
    s0, token := s.(pending := front), s.pending[|s.pending| - 1];
    var s1 := AddAssignment(s0, token);
    assert s1 == s;
  }

  lemma {:induction false} BeforeJoin(s: Sentence) returns (s0: Sentence, token: string)
    requires IsPartial(s) && s.last.None? && s.pending == [] && s.joins != []
    ensures Leads(s0, token, s)
  {
    var n := |s.joins| - 1;
    s0, token := Sentence(s.joins[..n], [], Some(s.joins[n].work), None), s.joins[n].op;
    assert IsJoin(s.joins[n]) && s.joins[n] == Join(s.joins[n].work, token);
    var s1 := AddOperator(s0, token);
    assert s.joins[..n] + [s.joins[n]] == s.joins;
  }

  lemma {:induction false} PartialScans(s: Sentence)
    requires IsPartial(s)
    ensures Scan(Start, Tokens(s)) == Some(StateAfter(s))
    decreases |Tokens(s)|
  {
    if s != Nothing {
      var s0: Sentence, token: string;
      if s.last.None? {
        if s.pending != [] {
          s0, token := BeforePending(s);
        } else {
          s0, token := BeforeJoin(s);
        }
      } else if s.dangling.Some? {
        s0, token := s.(dangling := None), s.dangling.value;
        var s1 := AddRedirection(s0, token);
      } else if s.last.value.Run? && s.last.value.parts != [] {
        s0, token := BeforePart(s);
      } else {
        s0, token := BeforeUnit(s);
      }
      PartialScans(s0);
      assert Tokens(s)[..|Tokens(s)| - 1] == Tokens(s0);
      ScanSnoc(Tokens(s));
    }
  }

  /** Every sentence is accepted, with its meaning. */
  lemma {:induction false} SentenceParses(s: Sentence)
    requires IsSentence(s)
    ensures Parse(Tokens(s)) == Some(Meaning(s))
  {
    PartialScans(s);
  }

  /** The parser accepts exactly the sentences, and gives each its meaning. */
  lemma {:induction false} ParseIff(tokens: seq<string>, nodes: seq<Node>)
    ensures Parse(tokens) == Some(nodes) <==> exists s :: IsSentence(s) && Tokens(s) == tokens && Meaning(s) == nodes
  {
    if Parse(tokens) == Some(nodes) {
      var s := ScannedIsPartial(tokens);
      assert IsSentence(s) && Meaning(s) == nodes;
    }
    forall s | IsSentence(s) && Tokens(s) == tokens && Meaning(s) == nodes ensures Parse(tokens) == Some(nodes) {
      SentenceParses(s);
    }
  }
}
