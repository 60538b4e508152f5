/** Parsed pipelines run to the end with proper pipes; and when the result is that of the standard shell. */
module ShellMeaning {
  import opened Wrappers
  import opened ShellParser
  import opened ShellSyntax
  import opened ShellRun

  // ----- parsed pipelines do not go wrong

  /** Ends in a command, and every change of directory says where to. */
  ghost predicate IsRunnable(nodes: seq<Node>) {
    && nodes != [] && nodes[|nodes| - 1].Cmd?
    && forall i :: 0 <= i < |nodes| && nodes[i].Chdir? ==> nodes[i].dir.Some?
  }

  /** Each process but the first reads from the one before it, and exactly those before the last write to a pipe. */
  ghost predicate IsGroup(g: seq<Launch>) {
    && g != []
    && (forall i :: 0 <= i < |g| ==> (g[i].fromPipe <==> i > 0))
    && (forall i :: 0 <= i < |g| ==> (g[i].command.stdout.ToPipe? <==> i < |g| - 1))
  }

  ghost predicate IsSound(plan: Plan) {
    match plan
    case Last(g) => IsGroup(g)
    case AndThen(g, rest) => IsGroup(g) && IsSound(rest)
    case OrElse(g, rest) => IsGroup(g) && IsSound(rest)
    case _ => false
  }

  /** A group whose last process so far writes to a pipe. */
  ghost predicate IsOpenGroup(g: seq<Launch>) {
    forall i :: 0 <= i < |g| ==> (g[i].fromPipe <==> i > 0) && g[i].command.stdout.ToPipe?
  }

  lemma {:induction false} JoinedFront(nodes: seq<Node>)
    requires AreJoined(nodes) && nodes != []
    ensures |nodes| >= 2 && IsWork(nodes[0]) && Joins(nodes[0], nodes[1]) && AreJoined(nodes[2..])
  {
    var n := |nodes| - 2;
    if n > 0 {
      JoinedFront(nodes[..n]);
      assert nodes[2..][..n - 2] == nodes[..n][2..];
    }
  }

  lemma {:induction false} PipelineFront(nodes: seq<Node>)
    requires IsPipeline(nodes) && |nodes| > 1
    ensures |nodes| >= 3 && IsWork(nodes[0]) && Joins(nodes[0], nodes[1]) && IsPipeline(nodes[2..])
  {
    var n := |nodes| - 1;
    JoinedFront(nodes[..n]);
    assert nodes[2..][..n - 2] == nodes[..n][2..];
  }

  lemma {:induction false} RunnableIsSound(nodes: seq<Node>, cwd: string, piped: bool, group: seq<Launch>)
    requires IsPipeline(nodes) && IsRunnable(nodes)
    requires IsOpenGroup(group) && (piped <==> group != [])
    ensures IsSound(PlanOf(nodes, cwd, piped, group))
    decreases |nodes|
  {
    if |nodes| > 1 {
      PipelineFront(nodes);
      var rest := nodes[2..];
      assert forall i :: 0 <= i < |rest| ==> rest[i] == nodes[i + 2];
      match nodes[0]
      case Chdir(dir) => RunnableIsSound(rest, JoinPath(cwd, dir.value), piped, group);
      case Cmd(c) =>
        if nodes[1].Pipe? {
          RunnableIsSound(rest, cwd, true, group + [Launch(c, cwd, piped)]);
        } else {
          RunnableIsSound(rest, cwd, false, []);
        }
    }
  }

  lemma {:induction false} SoundReturns(plan: Plan, exit: nat -> int, n: nat)
    requires IsSound(plan)
    ensures Eval(plan, exit, n).Returned?
    decreases plan
  {
    match plan
    case Last(g) =>
    case AndThen(g, rest) => SoundReturns(rest, exit, n + |g|);
    case OrElse(g, rest) => SoundReturns(rest, exit, n + |g|);
  }

  /** Whatever the parser accepts and that ends in a command runs to a status, whatever the exit codes. */
  lemma {:induction false} ParsedRuns(tokens: seq<string>, exit: nat -> int)
    requires Parse(tokens).Some? && IsRunnable(Parse(tokens).value)
    ensures var plan := PlanOf(Parse(tokens).value, ".", false, []);
            IsSound(plan) && Eval(plan, exit, 0).Returned?
  {
    ParsedIsPipeline(tokens);
    RunnableIsSound(Parse(tokens).value, ".", false, []);
    SoundReturns(PlanOf(Parse(tokens).value, ".", false, []), exit, 0);
  }

  /** How the plan of a list of at least three nodes starts. */
  lemma {:induction false} PlanFront(nodes: seq<Node>, cwd: string, piped: bool, group: seq<Launch>)
    requires IsPipeline(nodes) && |nodes| > 1
    ensures nodes[0].Chdir? ==>
              PlanOf(nodes, cwd, piped, group) ==
              if nodes[0].dir.None? then Fails else PlanOf(nodes[2..], JoinPath(cwd, nodes[0].dir.value), piped, group)
    ensures nodes[0].Cmd? ==>
              var plan, group' := PlanOf(nodes, cwd, piped, group), group + [Launch(nodes[0].command, cwd, piped)];
              && (nodes[1].Pipe? ==> plan == PlanOf(nodes[2..], cwd, true, group'))
              && (nodes[1].And? ==> plan == AndThen(group', PlanOf(nodes[2..], cwd, false, [])))
              && (nodes[1].Or? ==> plan == OrElse(group', PlanOf(nodes[2..], cwd, false, [])))
  {
    PipelineFront(nodes);
  }

  // ----- and all others can go wrong

  ghost predicate SameFrom(f: nat -> int, g: nat -> int, n: nat) {
    forall k: nat :: k >= n ==> f(k) == g(k)
  }

  lemma {:induction false} OnlyLaterCodesMatter(plan: Plan, f: nat -> int, g: nat -> int, n: nat)
    requires SameFrom(f, g, n)
    ensures Eval(plan, f, n) == Eval(plan, g, n)
    decreases plan
  {
    match plan
    case AndThen(group, rest) => OnlyLaterCodesMatter(rest, f, g, n + |group|);
    case OrElse(group, rest) => OnlyLaterCodesMatter(rest, f, g, n + |group|);
    case _ =>
  }

  lemma {:induction false} RunnableFront(nodes: seq<Node>)
    requires IsPipeline(nodes) && |nodes| > 1 && IsRunnable(nodes[2..]) && (nodes[0].Chdir? ==> nodes[0].dir.Some?)
    ensures IsRunnable(nodes)
  {
    PipelineFront(nodes);
    assert forall i :: 2 <= i < |nodes| ==> nodes[i] == nodes[2..][i - 2];
  }

  /** The codes that get past the first group and leave the rest to the codes `later`. */
  lemma {:induction false} PassGroup(plan: Plan, later: nat -> int, n: nat) returns (exit: nat -> int)
    requires (plan.AndThen? || plan.OrElse?) && plan.group != []
    ensures Eval(plan, exit, n) == Eval(plan.rest, later, n + |plan.group|)
  {
    var m, code := n + |plan.group|, if plan.AndThen? then 0 else 1;
    exit := k => if k < m then code else later(k);
    OnlyLaterCodesMatter(plan.rest, exit, later, m);
  }

  /** Short circuits aside, a list that does not end in a command or lacks a directory is run up to where it fails. */
  lemma {:induction false} CanRaise(nodes: seq<Node>, cwd: string, piped: bool, group: seq<Launch>, n: nat)
    returns (exit: nat -> int)
    requires IsPipeline(nodes) && !IsRunnable(nodes)
    ensures Eval(PlanOf(nodes, cwd, piped, group), exit, n) == Raised
    decreases |nodes|
  {
    exit := k => 0;
    if |nodes| > 1 {
      PipelineFront(nodes);
      PlanFront(nodes, cwd, piped, group);
      if nodes[0].Cmd? || nodes[0].dir.Some? {
        if IsRunnable(nodes[2..]) {
          RunnableFront(nodes);
        }
        if nodes[0].Chdir? {
          exit := CanRaise(nodes[2..], JoinPath(cwd, nodes[0].dir.value), piped, group, n);
        } else if nodes[1].Pipe? {
          exit := CanRaise(nodes[2..], cwd, true, group + [Launch(nodes[0].command, cwd, piped)], n);
        } else {
          var later := CanRaise(nodes[2..], cwd, false, [], n + |group| + 1);
          exit := PassGroup(PlanOf(nodes, cwd, piped, group), later, n);
        }
      }
    }
  }

  ghost predicate AlwaysReturns(nodes: seq<Node>) {
    forall exit: nat -> int :: Eval(PlanOf(nodes, ".", false, []), exit, 0).Returned?
  }

  /** An accepted list returns a status for all exit codes exactly if it ends in a command and each `cd` has a place. */
  lemma {:induction false} ReturnsIff(tokens: seq<string>)
    requires Parse(tokens).Some?
    ensures AlwaysReturns(Parse(tokens).value) <==> IsRunnable(Parse(tokens).value)
  {
    var nodes := Parse(tokens).value;
    ParsedIsPipeline(tokens);
    if IsRunnable(nodes) {
      forall exit: nat -> int ensures Eval(PlanOf(nodes, ".", false, []), exit, 0).Returned? {
        ParsedRuns(tokens, exit);
      }
    } else {
      var exit := CanRaise(nodes, ".", false, [], 0);
    }
  }

  /** A change of directory on its own is accepted, and raises. */
  lemma {:induction false} ChdirAloneRaises(dir: string, exit: nat -> int)
    requires dir != "&&"
    ensures Parse(["cd", dir]) == Some([Chdir(Some(dir))])
    ensures Eval(PlanOf([Chdir(Some(dir))], ".", false, []), exit, 0) == Raised
  {
    assert NameLength("cd"[1..][1..]) == 0;
    assert NameLength("cd"[1..]) == 1;
    assert EnvMatch("cd") == None;
    var s := State(InChdir, Some(Chdir(None)), [], map[]);
    assert Step(Start, "cd") == Some(s);
    assert ["cd", dir][1..] == [dir] && [dir][1..] == [];
    assert Scan(Start, ["cd", dir]) == Scan(s, [dir]);
    assert Scan(s, [dir]) == Step(s, dir);
    assert [] + [Chdir(Some(dir))] == [Chdir(Some(dir))];
  }

  // ----- the result, read off the list of nodes

  /** Pipes and changes of directory are passed over; the first operator that short-circuits ends the run. */
  function RunFrom(nodes: seq<Node>, exit: nat -> int, n: nat): int
    decreases |nodes|
  {
    if nodes == [] then 0
    else if nodes[0].Chdir? then (if |nodes| < 2 then 0 else RunFrom(nodes[2..], exit, n))
    else if |nodes| < 2 || (nodes[1].And? && exit(n) != 0) || (nodes[1].Or? && exit(n) == 0) then exit(n)
    else RunFrom(nodes[2..], exit, n + 1)
  }

  ghost predicate IsWell(nodes: seq<Node>) {
    IsPipeline(nodes) && IsRunnable(nodes)
  }

  lemma {:induction false} WellFront(nodes: seq<Node>)
    requires IsWell(nodes) && |nodes| > 1
    ensures |nodes| >= 3 && IsWork(nodes[0]) && Joins(nodes[0], nodes[1]) && IsWell(nodes[2..])
  {
    PipelineFront(nodes);
    var rest := nodes[2..];
    assert forall i :: 0 <= i < |rest| ==> rest[i] == nodes[i + 2];
  }

  /** A group that ends at `&&` or `||` either ends the run or leaves the rest to be evaluated. */
  lemma {:induction false} EvalFront(nodes: seq<Node>, cwd: string, piped: bool, group: seq<Launch>, exit: nat -> int,
                                     n: nat)
    requires IsWell(nodes) && |nodes| > 1 && nodes[0].Cmd? && !nodes[1].Pipe?
    ensures var status := exit(n + |group|);
            Eval(PlanOf(nodes, cwd, piped, group), exit, n) ==
            if (nodes[1].And? && status != 0) || (nodes[1].Or? && status == 0) then Returned(status)
            else Eval(PlanOf(nodes[2..], cwd, false, []), exit, n + |group| + 1)
  {
    WellFront(nodes);
    PlanFront(nodes, cwd, piped, group);
    var g := group + [Launch(nodes[0].command, cwd, piped)];
    assert Status(exit, n, g) == exit(n + |group|);
  }

  lemma {:induction false} EvalIs(nodes: seq<Node>, cwd: string, piped: bool, group: seq<Launch>, exit: nat -> int,
                                  n: nat)
    requires IsWell(nodes)
    ensures Eval(PlanOf(nodes, cwd, piped, group), exit, n) == Returned(RunFrom(nodes, exit, n + |group|))
    decreases |nodes|
  {
    if |nodes| > 1 {
      WellFront(nodes);
      var rest := nodes[2..];
      if nodes[0].Chdir? {
        PlanFront(nodes, cwd, piped, group);
        EvalIs(rest, JoinPath(cwd, nodes[0].dir.value), piped, group, exit, n);
      } else if nodes[1].Pipe? {
        PlanFront(nodes, cwd, piped, group);
        EvalIs(rest, cwd, true, group + [Launch(nodes[0].command, cwd, piped)], exit, n);
      } else {
        EvalFront(nodes, cwd, piped, group, exit, n);
        EvalIs(rest, cwd, false, [], exit, n + |group| + 1);
      }
    }
  }

  // ----- the standard shell

  /**
    An AND-OR list of the POSIX shell, section 2.9.3, over the list as it was written: `&&` and `||` associate to the
    left, a pipeline has the status of its last command (section 2.9.2), and a change of directory is a command of
    status 0. `cur` is the status so far and `run` whether the operator before this pipeline lets it run. Process
    numbers count the skipped commands too.
   */
  function PosixFrom(nodes: seq<Node>, exit: nat -> int, n: nat, run: bool, cur: int): int
    decreases |nodes|
  {
    if nodes == [] then cur
    else
      var status := if nodes[0].Chdir? then 0 else exit(n);
      var n' := if nodes[0].Chdir? then n else n + 1;
      var cur' := if run then status else cur;
      if |nodes| < 2 then cur'
      else match nodes[1]
        case And => PosixFrom(nodes[2..], exit, n', cur' == 0, cur')
        case Or => PosixFrom(nodes[2..], exit, n', cur' != 0, cur')
        case _ => PosixFrom(nodes[2..], exit, n', run, cur)
  }

  ghost predicate Agrees(nodes: seq<Node>, exit: nat -> int) {
    Eval(PlanOf(nodes, ".", false, []), exit, 0) == Returned(PosixFrom(nodes, exit, 0, true, 0))
  }

  ghost predicate NoOr(nodes: seq<Node>) {
    forall i :: 0 <= i < |nodes| ==> !nodes[i].Or?
  }

  ghost predicate NoAnd(nodes: seq<Node>) {
    forall i :: 0 <= i < |nodes| ==> !nodes[i].And?
  }

  ghost predicate AndsFollowChdirs(nodes: seq<Node>) {
    forall i :: 0 < i < |nodes| && nodes[i].And? ==> nodes[i - 1].Chdir?
  }

  ghost predicate NoAndAfterOr(nodes: seq<Node>) {
    forall i, j :: 0 <= i < j < |nodes| && nodes[i].Or? ==> !nodes[j].And?
  }

  /** No `||`, or no `&&` but those of changes of directory before the first `||`. */
  ghost predicate Unmixed(nodes: seq<Node>) {
    NoOr(nodes) || (AndsFollowChdirs(nodes) && NoAndAfterOr(nodes))
  }

  // ----- where they agree

  lemma {:induction false} AndSkips(nodes: seq<Node>, exit: nat -> int, n: nat, cur: int)
    requires IsWell(nodes) && NoOr(nodes) && cur != 0
    ensures PosixFrom(nodes, exit, n, false, cur) == cur
    decreases |nodes|
  {
    if |nodes| > 1 {
      WellFront(nodes);
      AndSkips(nodes[2..], exit, if nodes[0].Chdir? then n else n + 1, cur);
    }
  }

  lemma {:induction false} OrSkips(nodes: seq<Node>, exit: nat -> int, n: nat)
    requires IsWell(nodes) && NoAnd(nodes)
    ensures PosixFrom(nodes, exit, n, false, 0) == 0
    decreases |nodes|
  {
    if |nodes| > 1 {
      WellFront(nodes);
      OrSkips(nodes[2..], exit, if nodes[0].Chdir? then n else n + 1);
    }
  }

  lemma {:induction false} NoOrAgrees(nodes: seq<Node>, exit: nat -> int, n: nat, cur: int)
    requires IsWell(nodes) && NoOr(nodes)
    ensures PosixFrom(nodes, exit, n, true, cur) == RunFrom(nodes, exit, n)
    decreases |nodes|
  {
    if |nodes| > 1 {
      WellFront(nodes);
      var rest := nodes[2..];
      if nodes[0].Chdir? {
        NoOrAgrees(rest, exit, n, 0);
      } else if nodes[1].Pipe? {
        NoOrAgrees(rest, exit, n + 1, cur);
      } else if exit(n) == 0 {
        NoOrAgrees(rest, exit, n + 1, 0);
      } else {
        AndSkips(rest, exit, n + 1, exit(n));
      }
    }
  }

  lemma {:induction false} LateOrsAgree(nodes: seq<Node>, exit: nat -> int, n: nat, cur: int)
    requires IsWell(nodes) && AndsFollowChdirs(nodes) && NoAndAfterOr(nodes)
    ensures PosixFrom(nodes, exit, n, true, cur) == RunFrom(nodes, exit, n)
    decreases |nodes|
  {
    if |nodes| > 1 {
      WellFront(nodes);
      var rest := nodes[2..];
      assert forall i :: 0 <= i < |rest| ==> rest[i] == nodes[i + 2];
      assert AndsFollowChdirs(rest) && NoAndAfterOr(rest);
      if nodes[0].Chdir? {
        LateOrsAgree(rest, exit, n, 0);
      } else if nodes[1].Pipe? {
        LateOrsAgree(rest, exit, n + 1, cur);
      } else if exit(n) == 0 {
        OrSkips(rest, exit, n + 1);
      } else {
        LateOrsAgree(rest, exit, n + 1, exit(n));
      }
    }
  }

  /** An unmixed list returns what the standard shell returns. */
  lemma {:induction false} UnmixedAgrees(nodes: seq<Node>, exit: nat -> int)
    requires IsWell(nodes) && Unmixed(nodes)
    ensures Agrees(nodes, exit)
  {
    EvalIs(nodes, ".", false, [], exit, 0);
    if NoOr(nodes) {
      NoOrAgrees(nodes, exit, 0, 0);
    } else {
      LateOrsAgree(nodes, exit, 0, 0);
    }
  }

  // ----- where they do not

  ghost predicate IsConstantFrom(exit: nat -> int, n: nat, code: int) {
    forall k: nat :: k >= n ==> exit(k) == code
  }

  /** If every process from here on returns `code`, and the next one runs or the status is `code`, so is the result. */
  lemma {:induction false} ConstantStays(nodes: seq<Node>, exit: nat -> int, n: nat, run: bool, cur: int, code: int)
    requires IsWell(nodes) && IsConstantFrom(exit, n, code) && (run || cur == code)
    ensures PosixFrom(nodes, exit, n, run, cur) == code
    decreases |nodes|
  {
    if |nodes| > 1 {
      WellFront(nodes);
      var status := if nodes[0].Chdir? then 0 else exit(n);
      var n' := if nodes[0].Chdir? then n else n + 1;
      var cur' := if run then status else cur;
      match nodes[1]
      case And => ConstantStays(nodes[2..], exit, n', cur' == 0, cur', code);
      case Or => ConstantStays(nodes[2..], exit, n', cur' != 0, cur', code);
      case Pipe => ConstantStays(nodes[2..], exit, n', run, cur, code);
    }
  }

  /** After a failure everything is skipped up to the next `||`. */
  lemma {:induction false} ResumesAtOr(nodes: seq<Node>, exit: nat -> int, n: nat)
    requires IsWell(nodes) && !NoOr(nodes) && IsConstantFrom(exit, n, 0)
    ensures PosixFrom(nodes, exit, n, false, 1) == 0
    decreases |nodes|
  {
    var i :| 0 <= i < |nodes| && nodes[i].Or?;
    if |nodes| > 1 {
      WellFront(nodes);
      var n' := if nodes[0].Chdir? then n else n + 1;
      if nodes[1].Or? {
        ConstantStays(nodes[2..], exit, n', true, 1, 0);
      } else {
        assert nodes[2..][i - 2].Or?;
        ResumesAtOr(nodes[2..], exit, n');
      }
    }
  }

  /** After a success everything is skipped up to the next `&&`. */
  lemma {:induction false} ResumesAtAnd(nodes: seq<Node>, exit: nat -> int, n: nat)
    requires IsWell(nodes) && !NoAnd(nodes) && IsConstantFrom(exit, n, 1)
    ensures PosixFrom(nodes, exit, n, false, 0) == 1
    decreases |nodes|
  {
    var i :| 0 <= i < |nodes| && nodes[i].And?;
    if |nodes| > 1 {
      WellFront(nodes);
      var n' := if nodes[0].Chdir? then n else n + 1;
      if nodes[1].And? {
        ConstantStays(nodes[2..], exit, n', true, 0, 1);
      } else {
        assert nodes[2..][i - 2].And?;
        ResumesAtAnd(nodes[2..], exit, n');
      }
    }
  }

  lemma {:induction false} UnmixedFront(nodes: seq<Node>)
    requires IsWell(nodes) && |nodes| > 1 && (nodes[1].Pipe? || nodes[0].Chdir?) && Unmixed(nodes[2..])
    ensures Unmixed(nodes)
  {
    WellFront(nodes);
    var rest := nodes[2..];
    assert forall i :: 2 <= i < |nodes| ==> nodes[i] == rest[i - 2];
    if !NoOr(rest) {
      assert forall i :: 2 < i < |nodes| && nodes[i].And? ==> rest[i - 2 - 1].Chdir?;
      WorkIsNoOperator(nodes);
    }
  }

  lemma {:induction false} WorkIsNoOperator(nodes: seq<Node>)
    requires IsWell(nodes) && |nodes| > 1
    ensures !nodes[0].And? && !nodes[0].Or? && !nodes[2..][0].And? && !nodes[2..][0].Or?
  {
    WellFront(nodes);
    if |nodes[2..]| > 1 {
      WellFront(nodes[2..]);
    }
  }

  /** Before the first operator that can short-circuit the two agree; from there on some exit codes tell them apart. */
  lemma {:induction false} MixedDiffers(nodes: seq<Node>, n: nat, cur: int) returns (exit: nat -> int)
    requires IsWell(nodes) && !Unmixed(nodes)
    ensures PosixFrom(nodes, exit, n, true, cur) != RunFrom(nodes, exit, n)
    decreases |nodes|
  {
    WellFront(nodes);
    var rest := nodes[2..];
    if nodes[0].Chdir? || nodes[1].Pipe? {
      if Unmixed(rest) {
        UnmixedFront(nodes);
      }
      exit := MixedDiffers(rest, if nodes[0].Chdir? then n else n + 1, if nodes[0].Chdir? then 0 else cur);
    } else if nodes[1].And? {
      exit := k => if k <= n then 1 else 0;
      HasOrLater(nodes);
      ResumesAtOr(rest, exit, n + 1);
    } else {
      exit := k => if k <= n then 0 else 1;
      HasAndLater(nodes);
      ResumesAtAnd(rest, exit, n + 1);
    }
  }

  lemma {:induction false} HasOrLater(nodes: seq<Node>)
    requires IsWell(nodes) && |nodes| > 1 && !nodes[1].Or? && !NoOr(nodes)
    ensures !NoOr(nodes[2..])
  {
    WorkIsNoOperator(nodes);
    var i :| 0 <= i < |nodes| && nodes[i].Or?;
    assert nodes[2..][i - 2].Or?;
  }

  lemma {:induction false} HasAndLater(nodes: seq<Node>)
    requires IsWell(nodes) && |nodes| > 1 && nodes[1].Or? && !Unmixed(nodes)
    ensures !NoAnd(nodes[2..])
  {
    WorkIsNoOperator(nodes);
    if NoAnd(nodes[2..]) {
      assert forall i :: 2 <= i < |nodes| ==> nodes[i] == nodes[2..][i - 2];
      assert NoAnd(nodes);
    }
  }

  lemma {:induction false} MixedDisagrees(nodes: seq<Node>) returns (exit: nat -> int)
    requires IsWell(nodes) && !Unmixed(nodes)
    ensures !Agrees(nodes, exit)
  {
    exit := MixedDiffers(nodes, 0, 0);
    EvalIs(nodes, ".", false, [], exit, 0);
  }

  /**
    The runner returns what the standard shell returns, for all exit codes, exactly if it always returns a status
    and the list is unmixed.
   */
  lemma {:induction false} AgreesWithPosixIff(tokens: seq<string>)
    requires Parse(tokens).Some?
    ensures (forall exit: nat -> int :: Agrees(Parse(tokens).value, exit)) <==>
              IsRunnable(Parse(tokens).value) && Unmixed(Parse(tokens).value)
  {
    var nodes := Parse(tokens).value;
    ParsedIsPipeline(tokens);
    if !IsRunnable(nodes) {
      var exit := CanRaise(nodes, ".", false, [], 0);
      assert !Agrees(nodes, exit);
    } else if Unmixed(nodes) {
      forall exit: nat -> int ensures Agrees(nodes, exit) {
        UnmixedAgrees(nodes, exit);
      }
    } else {
      var exit := MixedDisagrees(nodes);
    }
  }

  /** `a || cd dir && b`, where `a` succeeds: the runner stops there, while the standard shell goes on to `b`. */
  lemma {:induction false} OrThenChdirDiffers(a: Command, dir: string, b: Command, exit: nat -> int)
    requires exit(0) == 0
    ensures var nodes := [Cmd(a), Or, Chdir(Some(dir)), And, Cmd(b)];
            && Eval(PlanOf(nodes, ".", false, []), exit, 0) == Returned(0)
            && PosixFrom(nodes, exit, 0, true, 0) == exit(1)
  {
    var nodes := [Cmd(a), Or, Chdir(Some(dir)), And, Cmd(b)];
    var rest := [Chdir(Some(dir)), And, Cmd(b)];
    assert nodes[2..] == rest && rest[2..] == [Cmd(b)];
    assert PosixFrom(rest, exit, 1, false, 0) == PosixFrom([Cmd(b)], exit, 1, true, 0);
  }
}
