/** Running a pipeline: which processes are started, what is returned, and what becomes of processes and files. */
module ShellRun {
  import opened Wrappers
  import opened ShellParser

  /** A process to start: its command, its directory, and whether it reads from the process started before it. */
  datatype Launch = Launch(command: Command, cwd: string, fromPipe: bool)

  /** The pipe groups of a list and how they hang together, nested to the right. */
  datatype Plan =
    | Fails
    | Nothing
    | Last(group: seq<Launch>)
    | AndThen(group: seq<Launch>, rest: Plan)
    | OrElse(group: seq<Launch>, rest: Plan)

  datatype Outcome = Returned(code: int) | Raised | NoValue

  function JoinPath(a: string, b: string): string {
    if b != [] && b[0] == '/' then b
    else if a == [] || a[|a| - 1] == '/' then a + b
    else a + "/" + b
  }

  /** A change of directory takes its `&&` with it and does not end the group that is being built. */
  function PlanOf(nodes: seq<Node>, cwd: string, piped: bool, group: seq<Launch>): Plan
    decreases |nodes|
  {
    if nodes == [] then Nothing
    else match nodes[0]
      case Chdir(dir) =>
        if |nodes| < 2 || !nodes[1].And? || dir.None? then Fails
        else PlanOf(nodes[2..], JoinPath(cwd, dir.value), piped, group)
      case Cmd(c) =>
        var group' := group + [Launch(c, cwd, piped)];
        if |nodes| < 2 then Last(group')
        else (match nodes[1]
          case And => AndThen(group', PlanOf(nodes[2..], cwd, false, []))
          case Or => OrElse(group', PlanOf(nodes[2..], cwd, false, []))
          case next => PlanOf(nodes[2..], cwd, piped || next.Pipe?, group'))
      case _ => Fails
  }

  /** The code of process number `n` is `exit(n)`; a group has the status of its last process. */
  function Status(exit: nat -> int, n: nat, group: seq<Launch>): int {
    if group == [] then 0 else exit(n + |group| - 1)
  }

  /** Right-nested short-circuit evaluation, where the first process of the plan is number `n`. */
  function Eval(plan: Plan, exit: nat -> int, n: nat): Outcome {
    match plan
    case Fails => Raised
    case Nothing => NoValue
    case Last(g) => Returned(Status(exit, n, g))
    case AndThen(g, rest) => if Status(exit, n, g) != 0 then Returned(Status(exit, n, g)) else Eval(rest, exit, n + |g|)
    case OrElse(g, rest) => if Status(exit, n, g) == 0 then Returned(0) else Eval(rest, exit, n + |g|)
  }

  /** The processes started by that evaluation. */
  function Executed(plan: Plan, exit: nat -> int, n: nat): seq<Launch> {
    match plan
    case Fails => []
    case Nothing => []
    case Last(g) => g
    case AndThen(g, rest) => if Status(exit, n, g) != 0 then g else g + Executed(rest, exit, n + |g|)
    case OrElse(g, rest) => if Status(exit, n, g) == 0 then g else g + Executed(rest, exit, n + |g|)
  }

  // ----- files

  predicate IsNullDevice(name: string) {
    name == "NUL:" || name == "/dev/null"
  }

  function OutFile(t: Target): seq<string> {
    if t.ToFile? && !IsNullDevice(t.name) then [t.name] else []
  }

  /** The files that starting a process opens, in order. */
  function FilesFor(l: Launch): seq<string> {
    (if !l.fromPipe && l.command.stdin.Some? then [l.command.stdin.value] else []) +
    OutFile(l.command.stdout) + OutFile(l.command.stderr)
  }

  ghost function FilesOf(launches: seq<Launch>): seq<string> {
    if launches == [] then [] else FilesOf(launches[..|launches| - 1]) + FilesFor(launches[|launches| - 1])
  }

  /** The numbers from `lo` up to, but not including, `hi`. */
  ghost function Span(lo: nat, hi: nat): seq<nat> {
    if hi <= lo then [] else Span(lo, hi - 1) + [hi - 1]
  }

  lemma {:induction false} SpanJoin(lo: nat, mid: nat, hi: nat)
    requires lo <= mid <= hi
    ensures Span(lo, mid) + Span(mid, hi) == Span(lo, hi)
  {
    if mid < hi {
      SpanJoin(lo, mid, hi - 1);
    }
  }

  datatype File = NullDevice | Opened(id: nat)

  ghost function Ids(files: seq<File>): seq<nat> {
    if files == [] then []
    else Ids(files[..|files| - 1]) + if files[|files| - 1].Opened? then [files[|files| - 1].id] else []
  }

  lemma {:induction false} IdsSnoc(files: seq<File>, f: File)
    ensures Ids(files + [f]) == Ids(files) + if f.Opened? then [f.id] else []
  {
    assert (files + [f])[..|files|] == files;
  }

  // ----- the run

  /** Waits for every process of a group, in order; a failure anywhere makes the status that of the last one. */
  method ExecPipedCommands(commands: seq<nat>, exit: nat -> int) returns (retval: int, waited: seq<nat>)
    ensures waited == commands
    ensures retval == if commands == [] then 0 else exit(commands[|commands| - 1])
  {
    var retvals := [];
    waited := [];
    for i := 0 to |commands|
      invariant waited == commands[..i] && |retvals| == i
      invariant forall j :: 0 <= j < i ==> retvals[j] == exit(commands[j])
    {
      retvals := retvals + [exit(commands[i])];
      waited := waited + [commands[i]];
    }
    retval := 0;
    for i := 0 to |retvals|
      invariant retval == 0 && forall j :: 0 <= j < i ==> retvals[j] == 0
    {
      if retvals[i] != 0 {
        retval := retvals[|retvals| - 1];
        break;
      }
    }
  }

  method CloseFiles(files: seq<File>) returns (closed: seq<nat>)
    ensures closed == Ids(files)
  {
    closed := [];
    for i := 0 to |files|
      invariant closed == Ids(files[..i])
    {
      assert files[..i + 1] == files[..i] + [files[i]];
      IdsSnoc(files[..i], files[i]);
      if files[i].Opened? {
        closed := closed + [files[i].id];
      }
    }
    assert files[..|files|] == files;
  }

  method OpenOutFile(t: Target, names0: seq<string>, files0: seq<File>) returns (names: seq<string>, files: seq<File>)
    ensures names == names0 + OutFile(t)
    ensures Ids(files) == Ids(files0) + Span(|names0|, |names|)
  {
    names, files := names0, files0;
    if t.ToFile? {
      if IsNullDevice(t.name) {
        IdsSnoc(files0, NullDevice);
        files := files + [NullDevice];
      } else {
        IdsSnoc(files0, Opened(|names0|));
        names, files := names + [t.name], files + [Opened(|names|)];
      }
    }
    assert Span(|names0|, |names0|) == [];
  }

  /** Opens what a process needs, in the order input, output, errors. */
  method OpenFiles(l: Launch, names0: seq<string>, files0: seq<File>, ghost closed: nat)
    returns (names: seq<string>, files: seq<File>)
    requires closed <= |names0| && Ids(files0) == Span(closed, |names0|)
    ensures names == names0 + FilesFor(l) && Ids(files) == Span(closed, |names|)
  {
    names, files := names0, files0;
    if !l.fromPipe && l.command.stdin.Some? {
      IdsSnoc(files0, Opened(|names0|));
      names, files := names + [l.command.stdin.value], files + [Opened(|names|)];
    }
    var n := |names|;
    names, files := OpenOutFile(l.command.stdout, names, files);
    SpanJoin(closed, n, |names|);
    n := |names|;
    names, files := OpenOutFile(l.command.stderr, names, files);
    SpanJoin(closed, n, |names|);
  }

  /** What the run has done: started, waited for, opened and closed, each in order. */
  datatype Effects = Effects(started: seq<Launch>, waited: seq<nat>, names: seq<string>, closed: seq<nat>)

  /** Every process started has been waited for once and every file opened has been closed once. */
  ghost predicate IsSettled(e: Effects) {
    && e.waited == Span(0, |e.started|)
    && e.names == FilesOf(e.started)
    && e.closed == Span(0, |e.names|)
  }

  /** While a group is being started: it is pending, and so are the files opened for it. */
  ghost predicate IsPending(e: Effects, done: seq<Launch>, group: seq<Launch>, commands: seq<nat>, files: seq<File>) {
    && e.started == done + group
    && e.waited == Span(0, |done|) && commands == Span(|done|, |e.started|)
    && e.names == FilesOf(e.started)
    && |e.closed| <= |e.names| && e.closed == Span(0, |e.closed|) && Ids(files) == Span(|e.closed|, |e.names|)
  }

  /** Starts one process of the current group. */
  method StartProcess(l: Launch, e0: Effects, commands0: seq<nat>, files0: seq<File>,
                      ghost done: seq<Launch>, ghost group: seq<Launch>)
    returns (e: Effects, commands: seq<nat>, files: seq<File>)
    requires IsPending(e0, done, group, commands0, files0)
    ensures IsPending(e, done, group + [l], commands, files)
    ensures |commands| == |commands0| + 1
  {
    var names: seq<string>;
    names, files := OpenFiles(l, e0.names, files0, |e0.closed|);
    commands := commands0 + [|e0.started|];
    e := e0.(started := e0.started + [l], names := names);
    assert (e0.started + [l])[..|e0.started|] == e0.started;
    assert e.started == done + (group + [l]);
  }

  lemma {:induction false} GroupIsSettled(e0: Effects, e: Effects, done: seq<Launch>, group: seq<Launch>,
                                          commands: seq<nat>,
                                          files: seq<File>)
    requires IsPending(e0, done, group, commands, files)
    requires e == e0.(waited := e0.waited + commands, closed := e0.closed + Ids(files))
    ensures IsSettled(e)
  {
    SpanJoin(0, |done|, |e0.started|);
    SpanJoin(0, |e0.closed|, |e0.names|);
  }

  /** Waits for the group and closes its files. */
  method FinishGroup(e0: Effects, commands: seq<nat>, files: seq<File>, exit: nat -> int,
                     ghost done: seq<Launch>, ghost group: seq<Launch>)
    returns (e: Effects, retval: int)
    requires IsPending(e0, done, group, commands, files)
    ensures IsSettled(e) && IsPending(e, done + group, [], [], []) && e.started == e0.started
    ensures retval == Status(exit, |done|, group)
  {
    var waited: seq<nat>;
    retval, waited := ExecPipedCommands(commands, exit);
    var closed := CloseFiles(files);
    e := e0.(waited := e0.waited + waited, closed := e0.closed + closed);
    GroupIsSettled(e0, e, done, group, commands, files);
    SettledIsPending(e);
  }

  lemma {:induction false} SettledIsPending(e: Effects)
    requires IsSettled(e)
    ensures IsPending(e, e.started, [], [], [])
  {
    SpanLength(0, |e.names|);
    assert e.started + [] == e.started;
  }

  lemma {:induction false} SpanLength(lo: nat, hi: nat)
    requires lo <= hi
    ensures |Span(lo, hi)| == hi - lo
  {
    if lo < hi {
      SpanLength(lo, hi - 1);
    }
  }

  /** What is still to come, as the rest of the evaluation of the whole plan. */
  ghost predicate RestOf(plan: Plan, exit: nat -> int, rest: Plan, done: seq<Launch>) {
    && Eval(plan, exit, 0) == Eval(rest, exit, |done|)
    && (Eval(plan, exit, 0).Returned? ==> Executed(plan, exit, 0) == done + Executed(rest, exit, |done|))
  }

  /** One command: starts it, and after `&&`, `||` or the end of the list finishes its group. */
  method RunCommand(ghost plan: Plan, exit: nat -> int, pipeline: seq<Node>, cwd: string, piped0: bool, e0: Effects,
                    commands0: seq<nat>, files0: seq<File>, ghost done0: seq<Launch>, ghost group0: seq<Launch>)
    returns (r: Option<int>, e: Effects, commands: seq<nat>, files: seq<File>, piped: bool,
             ghost done: seq<Launch>, ghost group: seq<Launch>)
    requires pipeline != [] && pipeline[0].Cmd? && IsPending(e0, done0, group0, commands0, files0)
    requires RestOf(plan, exit, PlanOf(pipeline, cwd, piped0, group0), done0)
    ensures r.Some? ==> Eval(plan, exit, 0) == Returned(r.value) && e.started == Executed(plan, exit, 0) && IsSettled(e)
    ensures r.None? ==>
              && |pipeline| >= 2 && IsPending(e, done, group, commands, files)
              && RestOf(plan, exit, PlanOf(pipeline[2..], cwd, piped, group), done)
  {
    var l := Launch(pipeline[0].command, cwd, piped0);
    e, commands, files := StartProcess(l, e0, commands0, files0, done0, group0);
    done, group, piped := done0, group0 + [l], piped0;
    r := None;
    if |pipeline| < 2 || pipeline[1].And? || pipeline[1].Or? {
      var retval: int;
      e, retval := FinishGroup(e, commands, files, exit, done, group);
      if |pipeline| < 2 || (pipeline[1].Or? && retval == 0) || (pipeline[1].And? && retval != 0) {
        GroupEnds(plan, exit, pipeline, cwd, piped, done, group);
        r := Some(retval);
      } else {
        GroupIsDone(plan, exit, pipeline, cwd, piped, done, group);
        done, group := done + group, [];
        commands, files, piped := [], [], false;
      }
    } else {
      GroupGoesOn(plan, exit, pipeline, cwd, piped, done, group);
      piped := piped || pipeline[1].Pipe?;
    }
  }

  lemma {:induction false} LastOfGroup(pipeline: seq<Node>, cwd: string, piped: bool, group: seq<Launch>)
    requires pipeline != [] && pipeline[0].Cmd? && group != []
    requires group[|group| - 1] == Launch(pipeline[0].command, cwd, piped)
    ensures var plan := PlanOf(pipeline, cwd, piped, group[..|group| - 1]);
            if |pipeline| < 2 then plan == Last(group)
            else match pipeline[1]
              case And => plan == AndThen(group, PlanOf(pipeline[2..], cwd, false, []))
              case Or => plan == OrElse(group, PlanOf(pipeline[2..], cwd, false, []))
              case next => plan == PlanOf(pipeline[2..], cwd, piped || next.Pipe?, group)
  {
    assert group[..|group| - 1] + [group[|group| - 1]] == group;
  }

  lemma {:induction false} GroupGoesOn(plan: Plan, exit: nat -> int, pipeline: seq<Node>, cwd: string, piped: bool,
                                       done: seq<Launch>, group: seq<Launch>)
    requires |pipeline| >= 2 && pipeline[0].Cmd? && group != [] && !pipeline[1].And? && !pipeline[1].Or?
    requires group[|group| - 1] == Launch(pipeline[0].command, cwd, piped)
    requires RestOf(plan, exit, PlanOf(pipeline, cwd, piped, group[..|group| - 1]), done)
    ensures RestOf(plan, exit, PlanOf(pipeline[2..], cwd, piped || pipeline[1].Pipe?, group), done)
  {
    LastOfGroup(pipeline, cwd, piped, group);
  }

  lemma {:induction false} GroupEnds(plan: Plan, exit: nat -> int, pipeline: seq<Node>, cwd: string, piped: bool,
                                     done: seq<Launch>, group: seq<Launch>)
    requires pipeline != [] && pipeline[0].Cmd? && group != []
    requires group[|group| - 1] == Launch(pipeline[0].command, cwd, piped)
    requires RestOf(plan, exit, PlanOf(pipeline, cwd, piped, group[..|group| - 1]), done)
    requires var status := Status(exit, |done|, group);
             |pipeline| < 2 || (pipeline[1].And? && status != 0) || (pipeline[1].Or? && status == 0)
    ensures Eval(plan, exit, 0) == Returned(Status(exit, |done|, group)) && Executed(plan, exit, 0) == done + group
  {
    LastOfGroup(pipeline, cwd, piped, group);
  }

  method Run(nodes: seq<Node>, exit: nat -> int) returns (r: Outcome, e: Effects)
    ensures var plan := PlanOf(nodes, ".", false, []);
            && r == Eval(plan, exit, 0)
            && (r.Returned? ==> e.started == Executed(plan, exit, 0) && IsSettled(e))
  {
    ghost var plan := PlanOf(nodes, ".", false, []);
    e := Effects([], [], [], []);
    var pipeline, cwd, piped := nodes, ".", false;
    var commands: seq<nat>, files: seq<File> := [], [];
    ghost var done, group := [], [];
    assert RestOf(plan, exit, plan, []);
    while pipeline != []
      invariant IsPending(e, done, group, commands, files)
      invariant RestOf(plan, exit, PlanOf(pipeline, cwd, piped, group), done)
      decreases |pipeline|
    {
      var node := pipeline[0];
      if node.Chdir? {
        if |pipeline| < 2 || !pipeline[1].And? || node.dir.None? {
          return Raised, e;
        }
        cwd := JoinPath(cwd, node.dir.value);
      } else if node.Cmd? {
        var retval: Option<int>;
        retval, e, commands, files, piped, done, group :=
          RunCommand(plan, exit, pipeline, cwd, piped, e, commands, files, done, group);
        if retval.Some? {
          return Returned(retval.value), e;
        }
      } else {
        return Raised, e;
      }
      pipeline := pipeline[2..];
    }
    return NoValue, e;
  }

  lemma {:induction false} GroupIsDone(plan: Plan, exit: nat -> int, pipeline: seq<Node>, cwd: string, piped: bool,
                                       done: seq<Launch>, group: seq<Launch>)
    requires |pipeline| >= 2 && pipeline[0].Cmd? && group != []
    requires group[|group| - 1] == Launch(pipeline[0].command, cwd, piped)
    requires RestOf(plan, exit, PlanOf(pipeline, cwd, piped, group[..|group| - 1]), done)
    requires var status := Status(exit, |done|, group);
             (pipeline[1].And? && status == 0) || (pipeline[1].Or? && status != 0)
    ensures RestOf(plan, exit, PlanOf(pipeline[2..], cwd, false, []), done + group)
  {
    LastOfGroup(pipeline, cwd, piped, group);
    var rest := PlanOf(pipeline[2..], cwd, false, []);
    assert done + (group + Executed(rest, exit, |done + group|)) == done + group + Executed(rest, exit, |done + group|);
  }
}
