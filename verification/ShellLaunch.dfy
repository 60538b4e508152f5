/** Which processes a run starts, in which directories and with which files, read off the list of nodes. */
module ShellLaunch {
  import opened Wrappers
  import opened ShellParser
  import opened ShellSyntax
  import opened ShellRun
  import opened ShellMeaning

  // ----- joining paths

  /** An absolute path stands alone; any other is put behind the first, with a slash between if there is none. */
  lemma {:induction false} JoinPathIs(a: string, b: string)
    ensures b != "" && b[0] == '/' ==> JoinPath(a, b) == b
    ensures b == "" || b[0] != '/' ==>
              var r, gap := JoinPath(a, b), if a != "" && a[|a| - 1] != '/' then 1 else 0;
              |r| == |a| + gap + |b| && r[..|a|] == a && r[|a| + gap..] == b && (gap == 1 ==> r[|a|] == '/')
  {
  }

  function JoinAll(cwd: string, dirs: seq<string>): string
    decreases |dirs|
  {
    if dirs == [] then cwd else JoinAll(JoinPath(cwd, dirs[0]), dirs[1..])
  }

  // ----- what a list of nodes says

  /** The directories that its changes of directory name, in order. */
  function Directories(nodes: seq<Node>): seq<string> {
    if nodes == [] then []
    else (if nodes[0].Chdir? && nodes[0].dir.Some? then [nodes[0].dir.value] else []) + Directories(nodes[1..])
  }

  function Commands(nodes: seq<Node>): seq<Command> {
    if nodes == [] then [] else (if nodes[0].Cmd? then [nodes[0].command] else []) + Commands(nodes[1..])
  }

  /** Whether, changes of directory aside, the list ends in a pipe. */
  predicate EndsInPipe(nodes: seq<Node>, piped: bool)
    decreases |nodes|
  {
    if |nodes| < 2 then piped else EndsInPipe(nodes[2..], if nodes[0].Chdir? then piped else nodes[1].Pipe?)
  }

  function Launches(plan: Plan): seq<Launch> {
    match plan
    case Last(g) => g
    case AndThen(g, rest) => g + Launches(rest)
    case OrElse(g, rest) => g + Launches(rest)
    case _ => []
  }

  lemma {:induction false} DirectoriesFront(nodes: seq<Node>)
    requires |nodes| >= 2 && IsOperator(nodes[1])
    ensures Directories(nodes) ==
            (if nodes[0].Chdir? && nodes[0].dir.Some? then [nodes[0].dir.value] else []) + Directories(nodes[2..])
  {
    assert nodes[1..][1..] == nodes[2..];
    assert Directories(nodes[1..]) == [] + Directories(nodes[2..]);
  }

  lemma {:induction false} CommandsFront(nodes: seq<Node>)
    requires |nodes| >= 2 && IsOperator(nodes[1])
    ensures Commands(nodes) == (if nodes[0].Cmd? then [nodes[0].command] else []) + Commands(nodes[2..])
  {
    assert nodes[1..][1..] == nodes[2..];
    assert Commands(nodes[1..]) == [] + Commands(nodes[2..]);
  }

  lemma {:induction false} FrontTwo(nodes: seq<Node>)
    requires |nodes| >= 2 && IsOperator(nodes[1]) && IsWork(nodes[0])
    ensures nodes[0].Chdir? && nodes[0].dir.Some? ==>
              Directories(nodes) == [nodes[0].dir.value] + Directories(nodes[2..])
    ensures nodes[0].Cmd? ==> Directories(nodes) == Directories(nodes[2..])
    ensures |Commands(nodes)| == |Commands(nodes[2..])| + if nodes[0].Cmd? then 1 else 0
  {
    DirectoriesFront(nodes);
    CommandsFront(nodes);
  }

  lemma {:induction false} FrontOfPrefix(nodes: seq<Node>, k: nat)
    requires 2 <= k <= |nodes|
    ensures nodes[..k][2..] == nodes[2..][..k - 2] && nodes[..k][0] == nodes[0] && nodes[..k][1] == nodes[1]
  {
  }

  lemma {:induction false} JoinAllFirst(cwd: string, d: string, dirs: seq<string>)
    ensures JoinAll(cwd, [d] + dirs) == JoinAll(JoinPath(cwd, d), dirs)
  {
    assert ([d] + dirs)[1..] == dirs;
  }

  // ----- each launch

  lemma {:induction false} GroupComesFirst(nodes: seq<Node>, cwd: string, piped: bool, group: seq<Launch>)
    requires IsWell(nodes)
    ensures group <= Launches(PlanOf(nodes, cwd, piped, group))
    decreases |nodes|
  {
    if |nodes| > 1 {
      WellFront(nodes);
      PlanFront(nodes, cwd, piped, group);
      if nodes[0].Chdir? {
        GroupComesFirst(nodes[2..], JoinPath(cwd, nodes[0].dir.value), piped, group);
      } else if nodes[1].Pipe? {
        GroupComesFirst(nodes[2..], cwd, true, group + [Launch(nodes[0].command, cwd, piped)]);
      }
    }
  }

  lemma {:induction false} FirstLaunch(nodes: seq<Node>, cwd: string, piped: bool, group: seq<Launch>)
    requires IsWell(nodes) && nodes[0].Cmd?
    ensures group + [Launch(nodes[0].command, cwd, piped)] <= Launches(PlanOf(nodes, cwd, piped, group))
  {
    if |nodes| > 1 {
      WellFront(nodes);
      PlanFront(nodes, cwd, piped, group);
      if nodes[1].Pipe? {
        GroupComesFirst(nodes[2..], cwd, true, group + [Launch(nodes[0].command, cwd, piped)]);
      }
    }
  }

  ghost predicate IsLaunchOf(plan: Plan, i: nat, command: Command, cwd: string, piped: bool) {
    i < |Launches(plan)| && Launches(plan)[i] == Launch(command, cwd, piped)
  }

  lemma {:induction false} OperatorPlaces(nodes: seq<Node>, k: nat)
    requires IsWell(nodes) && k < |nodes| && nodes[k].Cmd?
    ensures k == 0 || (k >= 2 && |nodes| >= 3)
  {
    if k > 0 {
      WellFront(nodes);
    }
  }

  /** The launch for the command at node `k`, when `group` has been started before the list. */
  ghost predicate HasLaunch(nodes: seq<Node>, cwd: string, piped: bool, group: seq<Launch>, k: nat)
    requires k < |nodes| && nodes[k].Cmd?
  {
    IsLaunchOf(PlanOf(nodes, cwd, piped, group), |group| + |Commands(nodes[..k])|, nodes[k].command,
               JoinAll(cwd, Directories(nodes[..k])), EndsInPipe(nodes[..k], piped))
  }

  lemma {:induction false} LaunchBehindChdir(nodes: seq<Node>, cwd: string, piped: bool, group: seq<Launch>, k: nat)
    requires IsWell(nodes) && 2 <= k < |nodes| && nodes[k].Cmd? && nodes[0].Chdir? && nodes[0].dir.Some?
    requires HasLaunch(nodes[2..], JoinPath(cwd, nodes[0].dir.value), piped, group, k - 2)
    ensures HasLaunch(nodes, cwd, piped, group, k)
  {
    WellFront(nodes);
    PlanFront(nodes, cwd, piped, group);
    FrontOfPrefix(nodes, k);
    FrontTwo(nodes[..k]);
    JoinAllFirst(cwd, nodes[0].dir.value, Directories(nodes[2..][..k - 2]));
  }

  lemma {:induction false} LaunchBehindPipe(nodes: seq<Node>, cwd: string, piped: bool, group: seq<Launch>, k: nat)
    requires IsWell(nodes) && 2 <= k < |nodes| && nodes[k].Cmd? && nodes[0].Cmd? && nodes[1].Pipe?
    requires HasLaunch(nodes[2..], cwd, true, group + [Launch(nodes[0].command, cwd, piped)], k - 2)
    ensures HasLaunch(nodes, cwd, piped, group, k)
  {
    PlanFront(nodes, cwd, piped, group);
    FrontOfPrefix(nodes, k);
    FrontTwo(nodes[..k]);
  }

  lemma {:induction false} LaunchOfRest(plan: Plan, i: nat, command: Command, cwd: string, piped: bool)
    requires (plan.AndThen? || plan.OrElse?) && IsLaunchOf(plan.rest, i, command, cwd, piped)
    ensures IsLaunchOf(plan, |plan.group| + i, command, cwd, piped)
  {
  }

  lemma {:induction false} LaunchBehindGroup(nodes: seq<Node>, cwd: string, piped: bool, group: seq<Launch>, k: nat)
    requires IsWell(nodes) && 2 <= k < |nodes| && nodes[k].Cmd? && nodes[0].Cmd? && (nodes[1].And? || nodes[1].Or?)
    requires HasLaunch(nodes[2..], cwd, false, [], k - 2)
    ensures HasLaunch(nodes, cwd, piped, group, k)
  {
    PlanFront(nodes, cwd, piped, group);
    FrontOfPrefix(nodes, k);
    FrontTwo(nodes[..k]);
    var before := nodes[2..][..k - 2];
    LaunchOfRest(PlanOf(nodes, cwd, piped, group), |Commands(before)|, nodes[k].command,
                 JoinAll(cwd, Directories(before)), EndsInPipe(before, false));
  }

  lemma {:induction false} LaunchAtFrom(nodes: seq<Node>, cwd: string, piped: bool, group: seq<Launch>, k: nat)
    requires IsWell(nodes) && k < |nodes| && nodes[k].Cmd?
    ensures HasLaunch(nodes, cwd, piped, group, k)
    decreases |nodes|
  {
    OperatorPlaces(nodes, k);
    if k == 0 {
      FirstLaunch(nodes, cwd, piped, group);
    } else {
      WellFront(nodes);
      if nodes[0].Chdir? {
        LaunchAtFrom(nodes[2..], JoinPath(cwd, nodes[0].dir.value), piped, group, k - 2);
        LaunchBehindChdir(nodes, cwd, piped, group, k);
      } else if nodes[1].Pipe? {
        LaunchAtFrom(nodes[2..], cwd, true, group + [Launch(nodes[0].command, cwd, piped)], k - 2);
        LaunchBehindPipe(nodes, cwd, piped, group, k);
      } else {
        LaunchAtFrom(nodes[2..], cwd, false, [], k - 2);
        LaunchBehindGroup(nodes, cwd, piped, group, k);
      }
    }
  }

  lemma {:induction false} LaunchCount(nodes: seq<Node>, cwd: string, piped: bool, group: seq<Launch>)
    requires IsWell(nodes)
    ensures |Launches(PlanOf(nodes, cwd, piped, group))| == |group| + |Commands(nodes)|
    decreases |nodes|
  {
    if |nodes| > 1 {
      WellFront(nodes);
      PlanFront(nodes, cwd, piped, group);
      FrontTwo(nodes);
      if nodes[0].Chdir? {
        LaunchCount(nodes[2..], JoinPath(cwd, nodes[0].dir.value), piped, group);
      } else if nodes[1].Pipe? {
        LaunchCount(nodes[2..], cwd, true, group + [Launch(nodes[0].command, cwd, piped)]);
      } else {
        LaunchCount(nodes[2..], cwd, false, []);
      }
    } else {
      assert nodes[1..] == [];
    }
  }

  /**
    There is one launch for each command node, in order: it starts that command, in the current directory joined in turn
    with the directories of the changes of directory before it, and reads from a pipe exactly if one comes before it.
   */
  lemma {:induction false} LaunchAt(nodes: seq<Node>, k: nat)
    requires IsWell(nodes) && k < |nodes| && nodes[k].Cmd?
    ensures var all := Launches(PlanOf(nodes, ".", false, []));
            && |all| == |Commands(nodes)| && |Commands(nodes[..k])| < |all|
            && all[|Commands(nodes[..k])|] ==
               Launch(nodes[k].command, JoinAll(".", Directories(nodes[..k])), EndsInPipe(nodes[..k], false))
  {
    LaunchAtFrom(nodes, ".", false, [], k);
    LaunchCount(nodes, ".", false, []);
  }

  // ----- how many of them are started

  /** The command at node `k`, which is number `i`, ends the run. */
  predicate Stops(nodes: seq<Node>, exit: nat -> int, k: nat, i: nat) {
    && k + 1 < |nodes| && nodes[k].Cmd?
    && ((nodes[k + 1].And? && exit(i) != 0) || (nodes[k + 1].Or? && exit(i) == 0))
  }

  function StartedFrom(nodes: seq<Node>, exit: nat -> int, n: nat): nat
    decreases |nodes|
  {
    if nodes == [] then 0
    else if nodes[0].Chdir? then (if |nodes| < 2 then 0 else StartedFrom(nodes[2..], exit, n))
    else if |nodes| < 2 || Stops(nodes, exit, 0, n) then 1
    else 1 + StartedFrom(nodes[2..], exit, n + 1)
  }

  /** The evaluation of a plan starts exactly its first `m` launches. */
  ghost predicate StartsFirst(plan: Plan, exit: nat -> int, n: nat, m: nat) {
    m <= |Launches(plan)| && Executed(plan, exit, n) == Launches(plan)[..m]
  }

  lemma {:induction false} StartsGroup(plan: Plan, exit: nat -> int, n: nat)
    requires plan.AndThen? || plan.OrElse?
    requires if plan.AndThen? then Status(exit, n, plan.group) != 0 else Status(exit, n, plan.group) == 0
    ensures StartsFirst(plan, exit, n, |plan.group|)
  {
    assert Launches(plan)[..|plan.group|] == plan.group;
  }

  lemma {:induction false} StartsMore(plan: Plan, exit: nat -> int, n: nat, m: nat)
    requires plan.AndThen? || plan.OrElse?
    requires if plan.AndThen? then Status(exit, n, plan.group) == 0 else Status(exit, n, plan.group) != 0
    requires StartsFirst(plan.rest, exit, n + |plan.group|, m)
    ensures StartsFirst(plan, exit, n, |plan.group| + m)
  {
    assert Launches(plan)[..|plan.group| + m] == plan.group + Launches(plan.rest)[..m];
  }

  ghost predicate StartsRight(nodes: seq<Node>, cwd: string, piped: bool, group: seq<Launch>, exit: nat -> int,
                              n: nat) {
    StartsFirst(PlanOf(nodes, cwd, piped, group), exit, n, |group| + StartedFrom(nodes, exit, n + |group|))
  }

  lemma {:induction false} ChdirThenRest(nodes: seq<Node>, cwd: string, piped: bool, group: seq<Launch>,
                                         exit: nat -> int, n: nat)
    requires IsWell(nodes) && |nodes| > 1 && nodes[0].Chdir? && nodes[0].dir.Some?
    requires StartsRight(nodes[2..], JoinPath(cwd, nodes[0].dir.value), piped, group, exit, n)
    ensures StartsRight(nodes, cwd, piped, group, exit, n)
  {
    PlanFront(nodes, cwd, piped, group);
    StartedFront(nodes, exit, n + |group|);
  }

  lemma {:induction false} PipeThenRest(nodes: seq<Node>, cwd: string, piped: bool, group: seq<Launch>,
                                        exit: nat -> int, n: nat)
    requires IsWell(nodes) && |nodes| > 1 && nodes[0].Cmd? && nodes[1].Pipe?
    requires StartsRight(nodes[2..], cwd, true, group + [Launch(nodes[0].command, cwd, piped)], exit, n)
    ensures StartsRight(nodes, cwd, piped, group, exit, n)
  {
    PlanFront(nodes, cwd, piped, group);
    StartedFront(nodes, exit, n + |group|);
  }

  lemma {:induction false} LastCommand(nodes: seq<Node>, cwd: string, piped: bool, group: seq<Launch>,
                                       exit: nat -> int, n: nat)
    requires |nodes| == 1 && nodes[0].Cmd?
    ensures StartsRight(nodes, cwd, piped, group, exit, n)
  {
    var g := group + [Launch(nodes[0].command, cwd, piped)];
    assert g[..|g|] == g;
  }

  lemma {:induction false} GroupThenRest(nodes: seq<Node>, cwd: string, piped: bool, group: seq<Launch>,
                                         exit: nat -> int, n: nat)
    requires IsWell(nodes) && |nodes| > 1 && nodes[0].Cmd? && !nodes[1].Pipe?
    requires StartsRight(nodes[2..], cwd, false, [], exit, n + |group| + 1)
    ensures StartsRight(nodes, cwd, piped, group, exit, n)
  {
    WellFront(nodes);
    PlanFront(nodes, cwd, piped, group);
    StartedFront(nodes, exit, n + |group|);
    var plan := PlanOf(nodes, cwd, piped, group);
    assert Status(exit, n, plan.group) == exit(n + |group|);
    if Stops(nodes, exit, 0, n + |group|) {
      StartsGroup(plan, exit, n);
    } else {
      StartsMore(plan, exit, n, StartedFrom(nodes[2..], exit, n + |group| + 1));
    }
  }

  lemma {:induction false} ExecutedFrom(nodes: seq<Node>, cwd: string, piped: bool, group: seq<Launch>,
                                        exit: nat -> int, n: nat)
    requires IsWell(nodes)
    ensures StartsRight(nodes, cwd, piped, group, exit, n)
    decreases |nodes|
  {
    if |nodes| == 1 {
      LastCommand(nodes, cwd, piped, group, exit, n);
    } else {
      WellFront(nodes);
      if nodes[0].Chdir? {
        ExecutedFrom(nodes[2..], JoinPath(cwd, nodes[0].dir.value), piped, group, exit, n);
        ChdirThenRest(nodes, cwd, piped, group, exit, n);
      } else if nodes[1].Pipe? {
        ExecutedFrom(nodes[2..], cwd, true, group + [Launch(nodes[0].command, cwd, piped)], exit, n);
        PipeThenRest(nodes, cwd, piped, group, exit, n);
      } else {
        ExecutedFrom(nodes[2..], cwd, false, [], exit, n + |group| + 1);
        GroupThenRest(nodes, cwd, piped, group, exit, n);
      }
    }
  }

  /** The run starts a prefix of the launches; it returns the status of the last one it starts. */
  lemma {:induction false} ExecutedIs(nodes: seq<Node>, exit: nat -> int)
    requires IsWell(nodes)
    ensures var plan, m := PlanOf(nodes, ".", false, []), StartedFrom(nodes, exit, 0);
            && 0 < m <= |Launches(plan)| && Executed(plan, exit, 0) == Launches(plan)[..m]
            && Eval(plan, exit, 0) == Returned(exit(m - 1))
  {
    ExecutedFrom(nodes, ".", false, [], exit, 0);
    EvalIs(nodes, ".", false, [], exit, 0);
    LastStarted(nodes, exit, 0);
  }

  lemma {:induction false} LastStarted(nodes: seq<Node>, exit: nat -> int, n: nat)
    requires IsWell(nodes)
    ensures StartedFrom(nodes, exit, n) > 0 && RunFrom(nodes, exit, n) == exit(n + StartedFrom(nodes, exit, n) - 1)
    decreases |nodes|
  {
    if |nodes| > 1 {
      WellFront(nodes);
      LastStarted(nodes[2..], exit, if nodes[0].Chdir? then n else n + 1);
    }
  }

  /** The command at node `k`, which is number `i` of the list, lets the run go on or ends it, as the case may be. */
  ghost predicate IsStartedRight(nodes: seq<Node>, exit: nat -> int, n: nat, k: nat, i: nat) {
    && (i + 1 < StartedFrom(nodes, exit, n) ==> !Stops(nodes, exit, k, n + i))
    && (i + 1 == StartedFrom(nodes, exit, n) < |Commands(nodes)| ==> Stops(nodes, exit, k, n + i))
  }

  lemma {:induction false} StartedFront(nodes: seq<Node>, exit: nat -> int, n: nat)
    requires IsWell(nodes) && |nodes| > 1
    ensures nodes[0].Chdir? ==> StartedFrom(nodes, exit, n) == StartedFrom(nodes[2..], exit, n)
    ensures nodes[0].Cmd? && Stops(nodes, exit, 0, n) ==> StartedFrom(nodes, exit, n) == 1
    ensures nodes[0].Cmd? && !Stops(nodes, exit, 0, n) ==>
              StartedFrom(nodes, exit, n) == 1 + StartedFrom(nodes[2..], exit, n + 1) > 1
  {
    WellFront(nodes);
    if nodes[0].Cmd? {
      LastStarted(nodes[2..], exit, n + 1);
    }
  }

  lemma {:induction false} StopsLater(nodes: seq<Node>, exit: nat -> int, k: nat, i: nat)
    requires 2 <= k < |nodes|
    ensures Stops(nodes, exit, k, i) == Stops(nodes[2..], exit, k - 2, i)
  {
  }

  lemma {:induction false} FirstStarted(nodes: seq<Node>, exit: nat -> int, n: nat)
    requires IsWell(nodes) && nodes[0].Cmd?
    ensures IsStartedRight(nodes, exit, n, 0, 0)
  {
    if |nodes| > 1 {
      StartedFront(nodes, exit, n);
    } else {
      assert nodes[1..] == [] && Commands(nodes) == [nodes[0].command] + Commands(nodes[1..]);
    }
  }

  lemma {:induction false} LaterStarted(nodes: seq<Node>, exit: nat -> int, n: nat, k: nat, i: nat)
    requires IsWell(nodes) && 2 <= k < |nodes| && nodes[k].Cmd?
    requires IsStartedRight(nodes[2..], exit, if nodes[0].Chdir? then n else n + 1, k - 2, i)
    ensures IsStartedRight(nodes, exit, n, k, if nodes[0].Chdir? then i else i + 1)
  {
    WellFront(nodes);
    CommandsFront(nodes);
    StartedFront(nodes, exit, n);
    StopsLater(nodes, exit, k, if nodes[0].Chdir? then n + i else n + i + 1);
  }

  /** Each command before the last one started lets the run go on, and that one ends it unless it is the last of all. */
  lemma {:induction false} StartedIs(nodes: seq<Node>, exit: nat -> int, n: nat, k: nat)
    requires IsWell(nodes) && k < |nodes| && nodes[k].Cmd?
    ensures IsStartedRight(nodes, exit, n, k, |Commands(nodes[..k])|)
    decreases |nodes|
  {
    OperatorPlaces(nodes, k);
    if k == 0 {
      assert nodes[..0] == [];
      FirstStarted(nodes, exit, n);
    } else {
      WellFront(nodes);
      FrontOfPrefix(nodes, k);
      FrontTwo(nodes[..k]);
      var n' := if nodes[0].Chdir? then n else n + 1;
      StartedIs(nodes[2..], exit, n', k - 2);
      var i := |Commands(nodes[2..][..k - 2])|;
      assert |Commands(nodes[..k])| == if nodes[0].Chdir? then i else i + 1;
      LaterStarted(nodes, exit, n, k, i);
    }
  }

  // ----- files

  function One(b: bool): nat {
    if b then 1 else 0
  }

  predicate IsOpened(t: Target, name: string) {
    t == ToFile(name) && name != "NUL:" && name != "/dev/null"
  }

  /** First the input file, unless it reads a pipe, then that of output, last that of errors; no null devices. */
  lemma {:induction false} FilesForIs(l: Launch, name: string)
    ensures multiset(FilesFor(l))[name] ==
            One(!l.fromPipe && l.command.stdin == Some(name)) +
            One(IsOpened(l.command.stdout, name)) + One(IsOpened(l.command.stderr, name))
    ensures !l.fromPipe && l.command.stdin.Some? ==> FilesFor(l) != [] && FilesFor(l)[0] == l.command.stdin.value
    ensures IsOpened(l.command.stderr, name) ==> FilesFor(l) != [] && FilesFor(l)[|FilesFor(l)| - 1] == name
  {
    OutFileIs(l.command.stdout, name);
    OutFileIs(l.command.stderr, name);
  }

  lemma {:induction false} OutFileIs(t: Target, name: string)
    ensures multiset(OutFile(t))[name] == One(IsOpened(t, name))
  {
  }
}
