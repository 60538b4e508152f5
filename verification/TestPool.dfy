/**
  The test runner's worker pool: a main thread that queues jobs and then one stop request per
  worker, workers that take from the input queue and report on the output queue, and an interrupt
  flag that may be raised at any moment. Every interleaving is a sequence of the steps below.
 */
module TestPool {
  import opened Sums

  /** `exit` is the code the job's process returns if it is run. */
  datatype Job = Job(isSkip: bool, exit: int)

  datatype Config = Config(jobs: seq<Job>, processors: nat)

  /** An entry of the input queue: a job, by number, or a sentinel, which is queued with its break flag set. */
  datatype Item = Real(id: nat) | Stop

  datatype Outcome = Interrupted | Skipped | Ran(code: int)

  datatype Result = Result(id: nat, outcome: Outcome)

  datatype Worker = Waiting | Got(id: nat) | Running(id: nat) | Reporting(result: Result) | Exited

  datatype Phase = Dispatching(next: nat) | Stopping(sent: nat) | Collecting | Joining(joined: nat) | Finished

  /** `flagged` holds the jobs whose break flag a worker has set. */
  datatype State = State(phase: Phase, input: seq<Item>, workers: seq<Worker>, output: seq<Result>,
                         collected: seq<Result>, interrupted: bool, flagged: set<nat>)

  /** A step of the main thread, of worker `w`, or the arrival of an interrupt. */
  datatype Step = Main | Work(w: nat) | Signal

  function Init(c: Config): State {
    State(Dispatching(0), [], seq(c.processors, i => Waiting), [], [], false, {})
  }

  predicate MainEnabled(c: Config, s: State) {
    match s.phase
    case Dispatching(_) => true
    case Stopping(_) => true
    case Collecting => |s.collected| < |c.jobs| ==> s.output != []
    case Joining(k) => k < |s.workers| ==> s.workers[k].Exited?
    case Finished => false
  }

  predicate WorkEnabled(s: State, w: nat) {
    && w < |s.workers|
    && !s.workers[w].Exited?
    && (s.workers[w].Waiting? ==> s.input != [])
  }

  predicate Enabled(c: Config, s: State, step: Step) {
    match step
    case Main => MainEnabled(c, s)
    case Work(w) => WorkEnabled(s, w)
    case Signal => true
  }

  function MainStep(c: Config, s: State): State
    requires MainEnabled(c, s)
  {
    match s.phase
    case Dispatching(n) =>
      if n < |c.jobs| then s.(phase := Dispatching(n + 1), input := s.input + [Real(n)])
      else s.(phase := Stopping(0))
    case Stopping(k) =>
      if k < c.processors then s.(phase := Stopping(k + 1), input := s.input + [Stop])
      else s.(phase := Collecting)
    case Collecting =>
      if |s.collected| < |c.jobs| then s.(output := s.output[1..], collected := s.collected + [s.output[0]])
      else s.(phase := Joining(0))
    case Joining(k) =>
      if k < |s.workers| then s.(phase := Joining(k + 1)) else s.(phase := Finished)
  }

  /** What a worker that holds job `id` does once it has looked at the interrupt flag, and then at the skip flag. */
  function Check(c: Config, interrupted: bool, id: nat): Worker {
    if interrupted then Reporting(Result(id, Interrupted))
    else if id < |c.jobs| && c.jobs[id].isSkip then Reporting(Result(id, Skipped))
    else Running(id)
  }

  function WorkStep(c: Config, s: State, w: nat): State
    requires WorkEnabled(s, w)
  {
    match s.workers[w]
    case Waiting =>
      var worker := match s.input[0] case Stop => Exited case Real(id) => if id in s.flagged then Exited else Got(id);
      s.(input := s.input[1..], workers := s.workers[w := worker])
    case Got(id) =>
      s.(workers := s.workers[w := Check(c, s.interrupted, id)],
         flagged := if s.interrupted then s.flagged + {id} else s.flagged)
    case Running(id) =>
      s.(workers := s.workers[w := Reporting(Result(id, Ran(if id < |c.jobs| then c.jobs[id].exit else 0)))])
    case Reporting(r) => s.(workers := s.workers[w := Waiting], output := s.output + [r])
  }

  function Apply(c: Config, s: State, step: Step): State
    requires Enabled(c, s, step)
  {
    match step
    case Main => MainStep(c, s)
    case Work(w) => WorkStep(c, s, w)
    case Signal => s.(interrupted := true)
  }

  // ----- runs

  ghost predicate IsRun(c: Config, steps: seq<Step>)
    decreases |steps|, 0
  {
    steps != [] ==>
      var n := |steps| - 1;
      IsRun(c, steps[..n]) && Enabled(c, After(c, steps[..n]), steps[n])
  }

  ghost function After(c: Config, steps: seq<Step>): State
    requires IsRun(c, steps)
    decreases |steps|, 1
  {
    if steps == [] then Init(c) else Apply(c, After(c, steps[..|steps| - 1]), steps[|steps| - 1])
  }

  // ----- where a job is

  function IsItem(id: nat): Item -> nat {
    (x: Item) => if x == Real(id) then 1 else 0
  }

  function HolderOf(id: nat): Worker -> nat {
    (w: Worker) => if w == Got(id) || w == Running(id) || (w.Reporting? && w.result.id == id) then 1 else 0
  }

  function ResultOf(id: nat): Result -> nat {
    (r: Result) => if r.id == id then 1 else 0
  }

  function Dispatched(c: Config, phase: Phase): nat {
    if phase.Dispatching? then phase.next else |c.jobs|
  }

  function Sent(c: Config, phase: Phase): nat {
    match phase
    case Dispatching(_) => 0
    case Stopping(k) => k
    case _ => c.processors
  }

  /** A dispatched job is in exactly one place; any other number is nowhere. */
  ghost predicate InOnePlace(c: Config, s: State, id: nat) {
    Sum(s.input, IsItem(id)) + Sum(s.workers, HolderOf(id)) + Sum(s.output, ResultOf(id)) +
    Sum(s.collected, ResultOf(id)) == if id < Dispatched(c, s.phase) then 1 else 0
  }

  const IsReal: Item -> nat := (x: Item) => if x.Real? then 1 else 0
  const IsStop: Item -> nat := (x: Item) => if x.Stop? then 1 else 0
  const IsBusy: Worker -> nat := (w: Worker) => if w.Waiting? || w.Exited? then 0 else 1
  const IsExited: Worker -> nat := (w: Worker) => if w.Exited? then 1 else 0

  ghost predicate Numbers(c: Config, s: State) {
    && Sum(s.input, IsReal) + Sum(s.workers, IsBusy) + |s.output| + |s.collected| == Dispatched(c, s.phase)
    && Sum(s.input, IsStop) + Sum(s.workers, IsExited) == Sent(c, s.phase)
  }

  /** First in, first out: no job is queued behind a stop request, or at all once a worker has stopped. */
  ghost predicate StopsLast(s: State) {
    && (forall i, j :: 0 <= i <= j < |s.input| && s.input[i].Stop? ==> s.input[j].Stop?)
    && (forall w, i :: 0 <= w < |s.workers| && s.workers[w].Exited? && 0 <= i < |s.input| ==> s.input[i].Stop?)
  }

  ghost predicate CountersOk(c: Config, phase: Phase) {
    match phase
    case Dispatching(n) => n <= |c.jobs|
    case Stopping(k) => k <= c.processors
    case Joining(k) => k <= c.processors
    case _ => true
  }

  ghost predicate PhaseOk(c: Config, s: State) {
    && |s.workers| == c.processors && CountersOk(c, s.phase)
    && match s.phase
       case Dispatching(n) => s.collected == []
       case Stopping(k) => s.collected == []
       case Collecting => true
       case Joining(k) => |s.collected| == |c.jobs| && AllExited(s, k)
       case Finished => |s.collected| == |c.jobs| && AllExited(s, c.processors)
  }

  ghost predicate AllExited(s: State, k: nat) {
    forall w :: 0 <= w < k && w < |s.workers| ==> s.workers[w].Exited?
  }

  /** A result says what the worker saw: a skip of a skipped job, the code of a job that ran, or an interrupt. */
  ghost predicate IsTrue(c: Config, interrupted: bool, r: Result) {
    && r.id < |c.jobs|
    && match r.outcome
       case Interrupted => interrupted
       case Skipped => c.jobs[r.id].isSkip
       case Ran(code) => !c.jobs[r.id].isSkip && code == c.jobs[r.id].exit
  }

  ghost predicate Truthful(c: Config, s: State) {
    && (forall i :: 0 <= i < |s.input| && s.input[i].Real? ==> s.input[i].id < |c.jobs|)
    && (forall i :: 0 <= i < |s.output| ==> IsTrue(c, s.interrupted, s.output[i]))
    && (forall i :: 0 <= i < |s.collected| ==> IsTrue(c, s.interrupted, s.collected[i]))
    && (forall w :: 0 <= w < |s.workers| ==> WorkerOk(c, s.interrupted, s.workers[w]))
  }

  ghost predicate WorkerOk(c: Config, interrupted: bool, w: Worker) {
    match w
    case Got(id) => id < |c.jobs|
    case Running(id) => id < |c.jobs| && !c.jobs[id].isSkip
    case Reporting(r) => IsTrue(c, interrupted, r)
    case _ => true
  }

  ghost predicate Conserved(c: Config, s: State) {
    forall id: nat {:trigger InOnePlace(c, s, id)} :: InOnePlace(c, s, id)
  }

  ghost predicate ResultFlag(flagged: set<nat>, r: Result) {
    r.outcome.Interrupted? <==> r.id in flagged
  }

  ghost predicate WorkerFlag(flagged: set<nat>, w: Worker) {
    match w
    case Got(id) => id !in flagged
    case Running(id) => id !in flagged
    case Reporting(r) => ResultFlag(flagged, r)
    case _ => true
  }

  ghost predicate QueueFlag(flagged: set<nat>, x: Item) {
    x.Real? ==> x.id !in flagged
  }

  /** What a worker takes next with its break flag set is a sentinel. */
  ghost predicate HeadFlag(s: State) {
    s.input != [] ==> QueueFlag(s.flagged, s.input[0])
  }

  /** A job is flagged when it has been handed back unrun, and not while it is queued or in work. */
  ghost predicate FlagsOk(c: Config, s: State) {
    && (forall id :: id in s.flagged ==> id < Dispatched(c, s.phase))
    && (forall i :: 0 <= i < |s.input| ==> QueueFlag(s.flagged, s.input[i]))
    && (forall w :: 0 <= w < |s.workers| ==> WorkerFlag(s.flagged, s.workers[w]))
    && (forall i :: 0 <= i < |s.output| ==> ResultFlag(s.flagged, s.output[i]))
    && (forall i :: 0 <= i < |s.collected| ==> ResultFlag(s.flagged, s.collected[i]))
  }

  ghost predicate Inv(c: Config, s: State) {
    PhaseOk(c, s) && Numbers(c, s) && StopsLast(s) && Truthful(c, s) && Conserved(c, s) && FlagsOk(c, s)
  }

  // ----- every step keeps the invariant

  lemma {:induction false} InitKeepsInv(c: Config)
    ensures Inv(c, Init(c))
  {
    var s := Init(c);
    InitNumbers(c);
    forall id: nat ensures InOnePlace(c, s, id) {
      SumZero(s.workers, HolderOf(id));
    }
  }

  lemma {:induction false} InitNumbers(c: Config)
    ensures Numbers(c, Init(c))
  {
    SumZero(Init(c).workers, IsBusy);
    SumZero(Init(c).workers, IsExited);
  }

  /** The places of a job, when the main thread queues an item or collects a result. */
  lemma {:induction false} QueueMoves(c: Config, s: State, x: Item, phase: Phase, id: nat)
    requires InOnePlace(c, s, id)
    requires Dispatched(c, phase) == Dispatched(c, s.phase) + if x.Real? then 1 else 0
    requires x.Real? ==> x.id == Dispatched(c, s.phase)
    ensures InOnePlace(c, s.(phase := phase, input := s.input + [x]), id)
  {
    SumSnoc(s.input, x, IsItem(id));
  }

  lemma {:induction false} CollectMoves(c: Config, s: State, id: nat)
    requires InOnePlace(c, s, id) && s.output != []
    ensures InOnePlace(c, s.(output := s.output[1..], collected := s.collected + [s.output[0]]), id)
  {
    SumSnoc(s.collected, s.output[0], ResultOf(id));
  }

  lemma {:induction false} MainMoves(c: Config, s: State, id: nat)
    requires InOnePlace(c, s, id) && CountersOk(c, s.phase) && MainEnabled(c, s)
    ensures InOnePlace(c, MainStep(c, s), id)
  {
    match s.phase
    case Dispatching(n) =>
      if n < |c.jobs| {
        QueueMoves(c, s, Real(n), Dispatching(n + 1), id);
      }
    case Stopping(k) =>
      if k < c.processors {
        QueueMoves(c, s, Stop, Stopping(k + 1), id);
      }
    case Collecting =>
      if |s.collected| < |c.jobs| {
        CollectMoves(c, s, id);
      }
    case Joining(k) =>
  }

  lemma {:induction false} QueueNumbers(c: Config, s: State, x: Item, phase: Phase)
    requires Numbers(c, s)
    requires Dispatched(c, phase) == Dispatched(c, s.phase) + if x.Real? then 1 else 0
    requires Sent(c, phase) == Sent(c, s.phase) + if x.Stop? then 1 else 0
    ensures Numbers(c, s.(phase := phase, input := s.input + [x]))
  {
    QueueOne(s.input, x);
  }

  lemma {:induction false} MainNumbers(c: Config, s: State)
    requires Numbers(c, s) && CountersOk(c, s.phase) && MainEnabled(c, s)
    ensures Numbers(c, MainStep(c, s))
  {
    match s.phase
    case Dispatching(n) =>
      if n < |c.jobs| {
        QueueNumbers(c, s, Real(n), Dispatching(n + 1));
      }
    case Stopping(k) =>
      if k < c.processors {
        QueueNumbers(c, s, Stop, Stopping(k + 1));
      }
    case Collecting =>
    case Joining(k) =>
  }

  lemma {:induction false} QueueOne(input: seq<Item>, x: Item)
    ensures Sum(input + [x], IsReal) == Sum(input, IsReal) + if x.Real? then 1 else 0
    ensures Sum(input + [x], IsStop) == Sum(input, IsStop) + if x.Stop? then 1 else 0
  {
    SumSnoc(input, x, IsReal);
    SumSnoc(input, x, IsStop);
  }

  /** While jobs are still being dispatched, there is no stop request about and no worker has stopped. */
  lemma {:induction false} NoStopYet(c: Config, s: State)
    requires Numbers(c, s) && s.phase.Dispatching?
    ensures forall i :: 0 <= i < |s.input| ==> !s.input[i].Stop?
    ensures forall w :: 0 <= w < |s.workers| ==> !s.workers[w].Exited?
  {
    forall i | 0 <= i < |s.input| ensures !s.input[i].Stop? {
      SumAtLeast(s.input, i, IsStop);
    }
    forall w | 0 <= w < |s.workers| ensures !s.workers[w].Exited? {
      SumAtLeast(s.workers, w, IsExited);
    }
  }

  lemma {:induction false} MainKeepsPhase(c: Config, s: State)
    requires PhaseOk(c, s) && Numbers(c, s) && MainEnabled(c, s)
    ensures PhaseOk(c, MainStep(c, s))
  {
  }

  lemma {:induction false} MainKeepsOrder(c: Config, s: State)
    requires StopsLast(s) && Numbers(c, s) && MainEnabled(c, s)
    ensures StopsLast(MainStep(c, s))
  {
    if s.phase.Dispatching? {
      NoStopYet(c, s);
    }
  }

  lemma {:induction false} MainKeepsTruth(c: Config, s: State)
    requires Truthful(c, s) && MainEnabled(c, s)
    ensures Truthful(c, MainStep(c, s))
  {
    var s' := MainStep(c, s);
    forall i | 0 <= i < |s'.collected| ensures IsTrue(c, s'.interrupted, s'.collected[i]) {
      assert i == |s.collected| ==> s'.collected[i] == s.output[0];
    }
  }

  lemma {:induction false} MainKeepsFlags(c: Config, s: State)
    requires FlagsOk(c, s) && PhaseOk(c, s) && MainEnabled(c, s)
    ensures FlagsOk(c, MainStep(c, s))
  {
  }

  lemma {:induction false} MainConserves(c: Config, s: State)
    requires Conserved(c, s) && PhaseOk(c, s) && MainEnabled(c, s)
    ensures Conserved(c, MainStep(c, s))
  {
    var s' := MainStep(c, s);
    forall id: nat ensures InOnePlace(c, s', id) {
      assert InOnePlace(c, s, id);
      MainMoves(c, s, id);
    }
  }

  lemma {:induction false} MainKeepsInv(c: Config, s: State)
    requires Inv(c, s) && MainEnabled(c, s)
    ensures Inv(c, MainStep(c, s))
  {
    MainKeepsPhase(c, s);
    MainNumbers(c, s);
    MainKeepsOrder(c, s);
    MainKeepsTruth(c, s);
    MainKeepsFlags(c, s);
    MainConserves(c, s);
  }

  lemma {:induction false} WorkTakes(c: Config, s: State, w: nat, id: nat)
    requires InOnePlace(c, s, id) && WorkEnabled(s, w) && s.workers[w].Waiting? && HeadFlag(s)
    ensures InOnePlace(c, WorkStep(c, s, w), id)
  {
    SumUpdate(s.workers, w, WorkStep(c, s, w).workers[w], HolderOf(id));
  }

  lemma {:induction false} WorkHolds(c: Config, s: State, w: nat, id: nat)
    requires InOnePlace(c, s, id) && WorkEnabled(s, w) && (s.workers[w].Got? || s.workers[w].Running?)
    ensures InOnePlace(c, WorkStep(c, s, w), id)
  {
    SumUpdate(s.workers, w, WorkStep(c, s, w).workers[w], HolderOf(id));
  }

  lemma {:induction false} WorkReports(c: Config, s: State, w: nat, id: nat)
    requires InOnePlace(c, s, id) && WorkEnabled(s, w) && s.workers[w].Reporting?
    ensures InOnePlace(c, WorkStep(c, s, w), id)
  {
    SumUpdate(s.workers, w, Waiting, HolderOf(id));
    SumSnoc(s.output, s.workers[w].result, ResultOf(id));
  }

  lemma {:induction false} WorkMoves(c: Config, s: State, w: nat, id: nat)
    requires InOnePlace(c, s, id) && WorkEnabled(s, w) && HeadFlag(s)
    ensures InOnePlace(c, WorkStep(c, s, w), id)
  {
    if s.workers[w].Waiting? {
      WorkTakes(c, s, w, id);
    } else if s.workers[w].Reporting? {
      WorkReports(c, s, w, id);
    } else {
      WorkHolds(c, s, w, id);
    }
  }

  lemma {:induction false} WorkConserves(c: Config, s: State, w: nat)
    requires Conserved(c, s) && WorkEnabled(s, w) && HeadFlag(s)
    ensures Conserved(c, WorkStep(c, s, w))
  {
    var s' := WorkStep(c, s, w);
    forall id: nat ensures InOnePlace(c, s', id) {
      assert InOnePlace(c, s, id);
      WorkMoves(c, s, w, id);
    }
  }

  lemma {:induction false} WorkNumbers(c: Config, s: State, w: nat)
    requires Numbers(c, s) && WorkEnabled(s, w) && HeadFlag(s)
    ensures Numbers(c, WorkStep(c, s, w))
  {
    var s' := WorkStep(c, s, w);
    SumUpdate(s.workers, w, s'.workers[w], IsBusy);
    SumUpdate(s.workers, w, s'.workers[w], IsExited);
  }

  lemma {:induction false} WorkKeepsPhase(c: Config, s: State, w: nat)
    requires PhaseOk(c, s) && WorkEnabled(s, w)
    ensures PhaseOk(c, WorkStep(c, s, w))
  {
  }

  lemma {:induction false} WorkKeepsOrder(c: Config, s: State, w: nat)
    requires StopsLast(s) && WorkEnabled(s, w) && HeadFlag(s)
    ensures StopsLast(WorkStep(c, s, w))
  {
    var s' := WorkStep(c, s, w);
    if s.workers[w].Waiting? {
      assert forall i :: 0 <= i < |s'.input| ==> s'.input[i] == s.input[i + 1];
    }
  }

  lemma {:induction false} WorkKeepsTruth(c: Config, s: State, w: nat)
    requires Truthful(c, s) && WorkEnabled(s, w)
    ensures Truthful(c, WorkStep(c, s, w))
  {
    assert WorkerOk(c, s.interrupted, s.workers[w]);
  }

  /** The job that a worker holds is nowhere else. */
  lemma {:induction false} HeldOnce(c: Config, s: State, w: nat, id: nat)
    requires InOnePlace(c, s, id) && w < |s.workers| && s.workers[w] == Got(id)
    ensures id < Dispatched(c, s.phase)
    ensures forall i :: 0 <= i < |s.input| ==> s.input[i] != Real(id)
    ensures forall v :: 0 <= v < |s.workers| && v != w ==> HolderOf(id)(s.workers[v]) == 0
    ensures forall i :: 0 <= i < |s.output| ==> s.output[i].id != id
    ensures forall i :: 0 <= i < |s.collected| ==> s.collected[i].id != id
  {
    SumAtLeast(s.workers, w, HolderOf(id));
    forall i | 0 <= i < |s.input| ensures s.input[i] != Real(id) {
      SumAtLeast(s.input, i, IsItem(id));
    }
    forall v | 0 <= v < |s.workers| && v != w ensures HolderOf(id)(s.workers[v]) == 0 {
      SumAtLeastTwo(s.workers, w, v, HolderOf(id));
    }
    forall i | 0 <= i < |s.output| ensures s.output[i].id != id {
      SumAtLeast(s.output, i, ResultOf(id));
    }
    forall i | 0 <= i < |s.collected| ensures s.collected[i].id != id {
      SumAtLeast(s.collected, i, ResultOf(id));
    }
  }

  lemma {:induction false} FlagOne(c: Config, s: State, w: nat, id: nat)
    requires FlagsOk(c, s) && InOnePlace(c, s, id) && w < |s.workers| && s.workers[w] == Got(id)
    ensures FlagsOk(c, s.(workers := s.workers[w := Reporting(Result(id, Interrupted))], flagged := s.flagged + {id}))
  {
    HeldOnce(c, s, w, id);
  }

  lemma {:induction false} WorkKeepsFlags(c: Config, s: State, w: nat)
    requires FlagsOk(c, s) && Conserved(c, s) && WorkEnabled(s, w)
    ensures FlagsOk(c, WorkStep(c, s, w))
  {
    assert WorkerFlag(s.flagged, s.workers[w]);
    if s.workers[w].Got? && s.interrupted {
      assert InOnePlace(c, s, s.workers[w].id);
      FlagOne(c, s, w, s.workers[w].id);
    }
  }

  lemma {:induction false} WorkKeepsInv(c: Config, s: State, w: nat)
    requires Inv(c, s) && WorkEnabled(s, w)
    ensures Inv(c, WorkStep(c, s, w))
  {
    WorkKeepsPhase(c, s, w);
    WorkNumbers(c, s, w);
    WorkKeepsOrder(c, s, w);
    WorkKeepsTruth(c, s, w);
    WorkKeepsFlags(c, s, w);
    WorkConserves(c, s, w);
  }

  lemma {:induction false} StepKeepsInv(c: Config, s: State, step: Step)
    requires Inv(c, s) && Enabled(c, s, step)
    ensures Inv(c, Apply(c, s, step))
  {
    match step
    case Main => MainKeepsInv(c, s);
    case Work(w) => WorkKeepsInv(c, s, w);
    case Signal => SignalKeepsInv(c, s);
  }

  lemma {:induction false} SignalKeepsInv(c: Config, s: State)
    requires Inv(c, s)
    ensures Inv(c, s.(interrupted := true))
  {
    var s' := s.(interrupted := true);
    forall id: nat ensures InOnePlace(c, s', id) {
      assert InOnePlace(c, s, id);
    }
  }

  /** The invariant holds after every run, whatever the interleaving and whenever interrupts arrive. */
  lemma {:induction false} ReachableInv(c: Config, steps: seq<Step>)
    requires IsRun(c, steps)
    ensures Inv(c, After(c, steps))
  {
    if steps == [] {
      InitKeepsInv(c);
    } else {
      var n := |steps| - 1;
      ReachableInv(c, steps[..n]);
      StepKeepsInv(c, After(c, steps[..n]), steps[n]);
    }
  }

  // ----- safety

  /** In every reachable state a dispatched job is in exactly one of queue, worker, output or collection. */
  lemma {:induction false} JobIsInOnePlace(c: Config, steps: seq<Step>, id: nat)
    requires IsRun(c, steps)
    ensures InOnePlace(c, After(c, steps), id)
  {
    ReachableInv(c, steps);
  }

  /** What is in the input queue with its break flag set is a sentinel, although workers set that flag on jobs too. */
  lemma {:induction false} OnlySentinelsBreak(c: Config, steps: seq<Step>, i: nat)
    requires IsRun(c, steps) && i < |After(c, steps).input|
    ensures After(c, steps).input[i].Stop? || After(c, steps).input[i].id !in After(c, steps).flagged
  {
    ReachableInv(c, steps);
    assert QueueFlag(After(c, steps).flagged, After(c, steps).input[i]);
  }

  /** A collected job has its break flag set exactly when its worker saw the interrupt and did not run it. */
  lemma {:induction false} FlaggedIffInterrupted(c: Config, steps: seq<Step>, i: nat)
    requires IsRun(c, steps) && i < |After(c, steps).collected|
    ensures var r := After(c, steps).collected[i]; r.id in After(c, steps).flagged <==> r.outcome.Interrupted?
  {
    ReachableInv(c, steps);
    assert ResultFlag(After(c, steps).flagged, After(c, steps).collected[i]);
  }

  /** No worker has stopped while a job is still queued. */
  lemma {:induction false} NoEarlyStop(c: Config, steps: seq<Step>, w: nat, i: nat)
    requires IsRun(c, steps)
    requires var s := After(c, steps); w < |s.workers| && s.workers[w].Exited? && i < |s.input|
    ensures After(c, steps).input[i].Stop?
  {
    ReachableInv(c, steps);
  }

  /** At the end every job has been collected exactly once, both queues are empty and every worker took one sentinel. */
  lemma {:induction false} FinalState(c: Config, steps: seq<Step>)
    requires IsRun(c, steps) && After(c, steps).phase.Finished?
    ensures var s := After(c, steps);
            && s.input == [] && s.output == [] && |s.collected| == |c.jobs|
            && |s.workers| == c.processors && (forall w :: 0 <= w < |s.workers| ==> s.workers[w].Exited?)
            && (forall id: nat :: Sum(s.collected, ResultOf(id)) == if id < |c.jobs| then 1 else 0)
            && (forall i :: 0 <= i < |s.collected| ==> IsTrue(c, s.interrupted, s.collected[i]))
  {
    var s := After(c, steps);
    ReachableInv(c, steps);
    SumAll(s.workers, IsExited);
    assert Sum(s.input, IsReal) == 0 && Sum(s.input, IsStop) == 0;
    assert s.input == [];
    forall id: nat ensures Sum(s.collected, ResultOf(id)) == if id < |c.jobs| then 1 else 0 {
      assert InOnePlace(c, s, id);
      SumZero(s.workers, HolderOf(id));
    }
  }

  // ----- interrupts

  lemma {:induction false} RunPrefix(c: Config, a: seq<Step>, b: seq<Step>)
    requires IsRun(c, a + b)
    ensures IsRun(c, a)
    decreases |b|
  {
    if b == [] {
      assert a + b == a;
    } else {
      assert (a + b)[..|a + b| - 1] == a + b[..|b| - 1];
      RunPrefix(c, a, b[..|b| - 1]);
    }
  }

  /** Not yet dispatched, queued, or in the hands of a worker that has not yet looked at the interrupt flag. */
  ghost predicate IsUnseen(c: Config, s: State, id: nat) {
    || id >= Dispatched(c, s.phase)
    || (exists i :: 0 <= i < |s.input| && s.input[i] == Real(id))
    || (exists w :: 0 <= w < |s.workers| && s.workers[w] == Got(id))
  }

  ghost predicate HandedBack(id: nat, r: Result) {
    r.id == id ==> r.outcome.Interrupted?
  }

  /** The job is not being run, and every result there is for it is that of a job handed back unrun. */
  ghost predicate IsNotRun(s: State, id: nat) {
    && (forall w :: 0 <= w < |s.workers| ==> s.workers[w] != Running(id))
    && (forall w :: 0 <= w < |s.workers| && s.workers[w].Reporting? ==> HandedBack(id, s.workers[w].result))
    && (forall i :: 0 <= i < |s.output| ==> HandedBack(id, s.output[i]))
    && (forall i :: 0 <= i < |s.collected| ==> HandedBack(id, s.collected[i]))
  }

  lemma {:induction false} UnseenIsNotRun(c: Config, s: State, id: nat)
    requires InOnePlace(c, s, id) && IsUnseen(c, s, id)
    ensures IsNotRun(s, id)
  {
    forall w | 0 <= w < |s.workers| && HolderOf(id)(s.workers[w]) == 1 ensures s.workers[w] == Got(id) {
      SumAtLeast(s.workers, w, HolderOf(id));
      if i :| 0 <= i < |s.input| && s.input[i] == Real(id) {
        SumAtLeast(s.input, i, IsItem(id));
      } else if v :| 0 <= v < |s.workers| && s.workers[v] == Got(id) {
        if v != w {
          SumAtLeastTwo(s.workers, v, w, HolderOf(id));
        }
      }
    }
    NoResultYet(c, s, id);
  }

  lemma {:induction false} NoResultYet(c: Config, s: State, id: nat)
    requires InOnePlace(c, s, id) && IsUnseen(c, s, id)
    ensures forall i :: 0 <= i < |s.output| ==> s.output[i].id != id
    ensures forall i :: 0 <= i < |s.collected| ==> s.collected[i].id != id
  {
    if i :| 0 <= i < |s.input| && s.input[i] == Real(id) {
      SumAtLeast(s.input, i, IsItem(id));
    } else if w :| 0 <= w < |s.workers| && s.workers[w] == Got(id) {
      SumAtLeast(s.workers, w, HolderOf(id));
    }
    forall i | 0 <= i < |s.output| ensures s.output[i].id != id {
      SumAtLeast(s.output, i, ResultOf(id));
    }
    forall i | 0 <= i < |s.collected| ensures s.collected[i].id != id {
      SumAtLeast(s.collected, i, ResultOf(id));
    }
  }

  lemma {:induction false} StaysNotRun(c: Config, s: State, step: Step, id: nat)
    requires s.interrupted && IsNotRun(s, id) && Enabled(c, s, step)
    ensures Apply(c, s, step).interrupted && IsNotRun(Apply(c, s, step), id)
  {
  }

  /** Once the interrupt has arrived, a job that no worker has looked at is not run any more. */
  lemma {:induction false} InterruptIsSeen(c: Config, a: seq<Step>, b: seq<Step>, id: nat)
    requires IsRun(c, a) && IsRun(c, a + b) && After(c, a).interrupted && IsUnseen(c, After(c, a), id)
    ensures After(c, a + b).interrupted && IsNotRun(After(c, a + b), id)
    decreases |b|
  {
    if b == [] {
      assert a + b == a;
      ReachableInv(c, a);
      assert InOnePlace(c, After(c, a), id);
      UnseenIsNotRun(c, After(c, a), id);
    } else {
      var n := |b| - 1;
      assert (a + b)[..|a + b| - 1] == a + b[..n];
      InterruptIsSeen(c, a, b[..n], id);
      StaysNotRun(c, After(c, a + b[..n]), b[n], id);
    }
  }

  ghost predicate IsSeen(c: Config, s: State, id: nat) {
    !IsUnseen(c, s, id) && id !in s.flagged
  }

  lemma {:induction false} StaysSeen(c: Config, s: State, step: Step, id: nat)
    requires IsSeen(c, s, id) && CountersOk(c, s.phase) && Enabled(c, s, step)
    ensures IsSeen(c, Apply(c, s, step), id)
  {
    var s' := Apply(c, s, step);
    forall i | 0 <= i < |s'.input| ensures s'.input[i] != Real(id) {
      if step.Work? && |s'.input| < |s.input| {
        assert s'.input[i] == s.input[i + 1];
      } else {
        assert i < |s.input| ==> s'.input[i] == s.input[i];
      }
    }
    forall w | 0 <= w < |s'.workers| ensures s'.workers[w] != Got(id) {
      assert s.workers[w] != Got(id);
    }
  }

  /** A job that a worker has decided to run or to skip is not handed back unrun, whatever arrives later. */
  lemma {:induction false} SeenIsKept(c: Config, a: seq<Step>, b: seq<Step>, id: nat)
    requires IsRun(c, a) && IsRun(c, a + b) && IsSeen(c, After(c, a), id)
    ensures IsSeen(c, After(c, a + b), id)
    decreases |b|
  {
    if b == [] {
      assert a + b == a;
    } else {
      var n := |b| - 1;
      assert (a + b)[..|a + b| - 1] == a + b[..n];
      SeenIsKept(c, a, b[..n], id);
      ReachableInv(c, a + b[..n]);
      StaysSeen(c, After(c, a + b[..n]), b[n], id);
    }
  }

  lemma {:induction false} NoFlagBefore(c: Config, steps: seq<Step>)
    requires IsRun(c, steps) && !After(c, steps).interrupted
    ensures After(c, steps).flagged == {}
  {
    if steps != [] {
      NoFlagBefore(c, steps[..|steps| - 1]);
    }
  }

  /** Of the collected jobs, exactly those are handed back unrun that nobody had looked at when the interrupt came. */
  lemma {:induction false} InterruptedIff(c: Config, a: seq<Step>, b: seq<Step>, i: nat)
    requires IsRun(c, a) && !After(c, a).interrupted && IsRun(c, a + [Signal] + b)
    requires i < |After(c, a + [Signal] + b).collected|
    ensures var r := After(c, a + [Signal] + b).collected[i];
            r.outcome.Interrupted? <==> IsUnseen(c, After(c, a), r.id)
  {
    var m := a + [Signal];
    RunPrefix(c, m, b);
    assert m[..|m| - 1] == a;
    var s, r := After(c, m + b), After(c, m + b).collected[i];
    assert After(c, m) == After(c, a).(interrupted := true);
    if IsUnseen(c, After(c, a), r.id) {
      InterruptIsSeen(c, m, b, r.id);
      assert HandedBack(r.id, r);
    } else {
      NoFlagBefore(c, a);
      SeenIsKept(c, m, b, r.id);
      FlaggedIffInterrupted(c, m + b, i);
    }
  }

  // ----- first in, first out

  /** What the main thread has queued so far, in order. */
  ghost function Queued(jobs: nat, stops: nat): seq<Item> {
    seq(jobs, i requires 0 <= i < jobs => Real(i)) + seq(stops, i => Stop)
  }

  ghost predicate IsEndOf(s: seq<Item>, all: seq<Item>) {
    |s| <= |all| && s == all[|all| - |s|..]
  }

  lemma {:induction false} QueueOneMore(s: seq<Item>, jobs: nat, stops: nat)
    requires IsEndOf(s, Queued(jobs, stops))
    ensures stops == 0 ==> IsEndOf(s + [Real(jobs)], Queued(jobs + 1, 0))
    ensures IsEndOf(s + [Stop], Queued(jobs, stops + 1))
  {
    assert Queued(jobs, stops + 1) == Queued(jobs, stops) + [Stop];
    if stops == 0 {
      assert Queued(jobs + 1, 0) == Queued(jobs, 0) + [Real(jobs)];
    }
  }

  lemma {:induction false} TakeFirst(s: seq<Item>, all: seq<Item>)
    requires IsEndOf(s, all) && s != []
    ensures IsEndOf(s[1..], all)
  {
  }

  ghost predicate InputIsEnd(c: Config, s: State) {
    IsEndOf(s.input, Queued(Dispatched(c, s.phase), Sent(c, s.phase)))
  }

  lemma {:induction false} MainKeepsInput(c: Config, s: State)
    requires InputIsEnd(c, s) && CountersOk(c, s.phase) && MainEnabled(c, s)
    ensures InputIsEnd(c, MainStep(c, s))
  {
    match s.phase
    case Dispatching(n) => QueueOneMore(s.input, n, 0);
    case Stopping(k) => QueueOneMore(s.input, |c.jobs|, k);
    case _ =>
  }

  lemma {:induction false} WorkKeepsInput(c: Config, s: State, w: nat)
    requires InputIsEnd(c, s) && WorkEnabled(s, w)
    ensures InputIsEnd(c, WorkStep(c, s, w))
  {
    if s.workers[w].Waiting? {
      TakeFirst(s.input, Queued(Dispatched(c, s.phase), Sent(c, s.phase)));
    }
  }

  /** The input queue always holds the last of the items queued: they are taken in the order in which they were put. */
  lemma {:induction false} InputIsFifo(c: Config, steps: seq<Step>)
    requires IsRun(c, steps)
    ensures InputIsEnd(c, After(c, steps))
  {
    if steps != [] {
      var n := |steps| - 1;
      InputIsFifo(c, steps[..n]);
      ReachableInv(c, steps[..n]);
      match steps[n]
      case Main => MainKeepsInput(c, After(c, steps[..n]));
      case Work(w) => WorkKeepsInput(c, After(c, steps[..n]), w);
      case Signal =>
    }
  }

  /** Results are collected in the order in which they were reported. */
  lemma {:induction false} OutputIsFifo(c: Config, a: seq<Step>, b: seq<Step>)
    requires IsRun(c, a) && IsRun(c, a + b)
    ensures After(c, a).collected + After(c, a).output <= After(c, a + b).collected + After(c, a + b).output
    decreases |b|
  {
    if b == [] {
      assert a + b == a;
    } else {
      var n := |b| - 1;
      assert (a + b)[..|a + b| - 1] == a + b[..n];
      OutputIsFifo(c, a, b[..n]);
      OutputStep(c, After(c, a + b[..n]), b[n]);
    }
  }

  lemma {:induction false} OutputStep(c: Config, s: State, step: Step)
    requires Enabled(c, s, step)
    ensures s.collected + s.output <= Apply(c, s, step).collected + Apply(c, s, step).output
  {
    var s' := Apply(c, s, step);
    if |s'.collected| > |s.collected| {
      assert s.output == [s.output[0]] + s.output[1..];
      assert s.collected + s.output == s'.collected + s'.output;
    } else if |s'.output| > |s.output| {
      assert s'.collected + s'.output == (s.collected + s.output) + [s'.output[|s.output|]];
    }
  }

  // ----- progress

  /** There is a worker, or nothing to do. */
  predicate CanFinish(c: Config) {
    c.processors >= 1 || c.jobs == []
  }

  /** As long as the main thread has not finished, it or some worker can move. */
  lemma {:induction false} NoDeadlock(c: Config, steps: seq<Step>) returns (step: Step)
    requires CanFinish(c) && IsRun(c, steps) && !After(c, steps).phase.Finished?
    ensures step != Signal && Enabled(c, After(c, steps), step)
  {
    var s := After(c, steps);
    ReachableInv(c, steps);
    if MainEnabled(c, s) {
      step := Main;
    } else if Sum(s.workers, IsBusy) > 0 {
      var w := SumPositive(s.workers, IsBusy);
      step := Work(w);
    } else {
      var w := IdleWorker(c, s);
      step := Work(w);
    }
  }

  /** If the main thread waits and no worker is busy, some worker waits and the queue has something for it. */
  lemma {:induction false} IdleWorker(c: Config, s: State) returns (w: nat)
    requires c.processors >= 1 && Inv(c, s) && !s.phase.Finished?
    requires !MainEnabled(c, s) && Sum(s.workers, IsBusy) == 0
    ensures WorkEnabled(s, w)
  {
    w := if s.phase.Joining? then s.phase.joined else 0;
    SumAtLeast(s.workers, w, IsBusy);
    if s.phase.Collecting? {
      var i := SumPositive(s.input, IsReal);
    } else {
      SumFullExited(s.workers, w);
      var i := SumPositive(s.input, IsStop);
    }
  }

  lemma {:induction false} SumFullExited(s: seq<Worker>, w: nat)
    requires w < |s| && !s[w].Exited?
    ensures Sum(s, IsExited) < |s|
  {
    SumFull(s, IsExited);
  }

  // ----- termination

  const ItemWeight: Item -> nat := (x: Item) => if x.Real? then 5 else 1

  const WorkerWeight: Worker -> nat := (w: Worker) =>
    match w
    case Got(_) => 4
    case Running(_) => 3
    case Reporting(_) => 2
    case _ => 0

  ghost function PhaseWeight(c: Config, phase: Phase): nat {
    match phase
    case Dispatching(n) => (if n <= |c.jobs| then 6 * (|c.jobs| - n) else 0) + 3 * c.processors + 4
    case Stopping(k) => (if k <= c.processors then 2 * (c.processors - k) else 0) + c.processors + 3
    case Collecting => c.processors + 2
    case Joining(k) => (if k <= c.processors then c.processors - k else 0) + 1
    case Finished => 0
  }

  /** How many more steps of the main thread and the workers there can be. */
  ghost function Measure(c: Config, s: State): nat {
    PhaseWeight(c, s.phase) + Sum(s.input, ItemWeight) + Sum(s.workers, WorkerWeight) + |s.output|
  }

  lemma {:induction false} MainDecreases(c: Config, s: State)
    requires PhaseOk(c, s) && MainEnabled(c, s)
    ensures Measure(c, MainStep(c, s)) < Measure(c, s)
  {
    match s.phase
    case Dispatching(n) => SumSnoc(s.input, Real(n), ItemWeight);
    case Stopping(k) => SumSnoc(s.input, Stop, ItemWeight);
    case Collecting =>
    case Joining(k) =>
  }

  lemma {:induction false} WorkDecreases(c: Config, s: State, w: nat)
    requires WorkEnabled(s, w)
    ensures Measure(c, WorkStep(c, s, w)) < Measure(c, s)
  {
    SumUpdate(s.workers, w, WorkStep(c, s, w).workers[w], WorkerWeight);
  }

  function WorkSteps(steps: seq<Step>): nat {
    if steps == [] then 0
    else WorkSteps(steps[..|steps| - 1]) + if steps[|steps| - 1].Signal? then 0 else 1
  }

  /** No run, however interleaved and interrupted, has more than six steps per job, three per worker and four more. */
  lemma {:induction false} RunsAreBounded(c: Config, steps: seq<Step>)
    requires IsRun(c, steps)
    ensures WorkSteps(steps) + Measure(c, After(c, steps)) <= 6 * |c.jobs| + 3 * c.processors + 4
  {
    if steps == [] {
      SumZero(Init(c).workers, WorkerWeight);
    } else {
      var n := |steps| - 1;
      RunsAreBounded(c, steps[..n]);
      ReachableInv(c, steps[..n]);
      match steps[n]
      case Main => MainDecreases(c, After(c, steps[..n]));
      case Work(w) => WorkDecreases(c, After(c, steps[..n]), w);
      case Signal =>
    }
  }

  lemma {:induction false} OneMoreStep(c: Config, steps: seq<Step>, step: Step)
    requires IsRun(c, steps) && Enabled(c, After(c, steps), step) && step != Signal
    ensures IsRun(c, steps + [step]) && Measure(c, After(c, steps + [step])) < Measure(c, After(c, steps))
  {
    assert (steps + [step])[..|steps|] == steps;
    ReachableInv(c, steps);
    match step {
      case Main => MainDecreases(c, After(c, steps));
      case Work(w) => WorkDecreases(c, After(c, steps), w);
    }
  }

  ghost predicate IsFinishedRun(c: Config, steps: seq<Step>) {
    IsRun(c, steps) && After(c, steps).phase.Finished?
  }

  ghost predicate IsShortOf(c: Config, steps: seq<Step>, bound: nat) {
    IsRun(c, steps) && Measure(c, After(c, steps)) <= bound
  }

  lemma {:induction false} NextStep(c: Config, steps: seq<Step>, bound: nat) returns (step: Step)
    requires CanFinish(c) && IsShortOf(c, steps, bound) && !IsFinishedRun(c, steps)
    ensures step != Signal && bound > 0 && IsShortOf(c, steps + [step], bound - 1)
  {
    step := NoDeadlock(c, steps);
    OneMoreStep(c, steps, step);
  }

  lemma {:induction false} FinishWithin(c: Config, steps: seq<Step>, bound: nat) returns (run: seq<Step>)
    requires CanFinish(c) && IsShortOf(c, steps, bound)
    ensures IsFinishedRun(c, run) && steps <= run && forall i :: |steps| <= i < |run| ==> run[i] != Signal
    decreases bound
  {
    if IsFinishedRun(c, steps) {
      run := steps;
    } else {
      var step := NextStep(c, steps, bound);
      run := FinishWithin(c, steps + [step], bound - 1);
    }
  }

  /** Every run can be continued to the end without further interrupts. */
  lemma {:induction false} EveryRunCanFinish(c: Config, steps: seq<Step>) returns (more: seq<Step>)
    requires CanFinish(c) && IsRun(c, steps)
    ensures IsFinishedRun(c, steps + more) && forall i :: 0 <= i < |more| ==> more[i] != Signal
  {
    var run := FinishWithin(c, steps, Measure(c, After(c, steps)));
    more := run[|steps|..];
    assert steps + more == run;
  }

  lemma {:induction false} NothingReported(c: Config, steps: seq<Step>)
    requires c.processors == 0 && IsRun(c, steps)
    ensures var s := After(c, steps); s.workers == [] && s.output == [] && s.collected == []
  {
    if steps != [] {
      NothingReported(c, steps[..|steps| - 1]);
    }
  }

  /** Without a worker, a run that has a job to do never finishes. */
  lemma {:induction false} NoWorkerNoEnd(c: Config, steps: seq<Step>)
    requires !CanFinish(c)
    ensures !IsFinishedRun(c, steps)
  {
    if IsFinishedRun(c, steps) {
      ReachableInv(c, steps);
      NothingReported(c, steps);
    }
  }

  ghost predicate CanBeFinished(c: Config, steps: seq<Step>) {
    exists more :: IsFinishedRun(c, steps + more)
  }

  /** Every run can be finished exactly if there is a worker or nothing to do; otherwise none can. */
  lemma {:induction false} FinishesIff(c: Config, steps: seq<Step>)
    requires IsRun(c, steps)
    ensures CanBeFinished(c, steps) <==> CanFinish(c)
  {
    if CanFinish(c) {
      var more := EveryRunCanFinish(c, steps);
    } else {
      forall more ensures !IsFinishedRun(c, steps + more) {
        NoWorkerNoEnd(c, steps + more);
      }
    }
  }

  /** A run that neither the main thread nor a worker can continue has finished. */
  lemma {:induction false} StuckOnlyWhenFinished(c: Config, steps: seq<Step>)
    requires CanFinish(c) && IsRun(c, steps)
    requires forall step :: step != Signal ==> !Enabled(c, After(c, steps), step)
    ensures After(c, steps).phase.Finished?
  {
    if !After(c, steps).phase.Finished? {
      var step := NoDeadlock(c, steps);
    }
  }
}
