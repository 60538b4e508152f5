/** The counters the main thread keeps over the collected results, and the exit code it derives from them. */
module TestTally {
  import opened Sums
  import opened TestPool

  datatype Tally = Tally(passed: nat, failed: nat, valgrind: nat, crashed: nat, skipped: nat)

  const IsPassed: Result -> nat := (r: Result) => if r.outcome == Ran(0) then 1 else 0
  const IsFailed: Result -> nat := (r: Result) => if r.outcome == Ran(1) then 1 else 0
  const IsValgrind: Result -> nat := (r: Result) => if r.outcome == Ran(2) then 1 else 0
  const IsCrashed: Result -> nat := (r: Result) => if r.outcome.Ran? && !(0 <= r.outcome.code <= 2) then 1 else 0
  const IsSkipped: Result -> nat := (r: Result) => if r.outcome.Skipped? then 1 else 0
  const IsInterrupted: Result -> nat := (r: Result) => if r.outcome.Interrupted? then 1 else 0
  const IsGood: Result -> nat := (r: Result) => if r.outcome.Skipped? || r.outcome == Ran(0) then 1 else 0

  ghost predicate Counts(results: seq<Result>, t: Tally) {
    && t.passed == Sum(results, IsPassed)
    && t.failed == Sum(results, IsFailed)
    && t.valgrind == Sum(results, IsValgrind)
    && t.crashed == Sum(results, IsCrashed)
    && t.skipped == Sum(results, IsSkipped)
  }

  /** The collection loop: a job whose break flag is set is passed over, every other one lands in one counter. */
  method CountResults(results: seq<Result>) returns (t: Tally)
    ensures Counts(results, t)
    ensures t.passed + t.failed + t.valgrind + t.crashed + t.skipped + Sum(results, IsInterrupted) == |results|
    ensures t.passed == |With(results, Ran(0))| && t.failed == |With(results, Ran(1))|
    ensures t.valgrind == |With(results, Ran(2))| && t.skipped == |With(results, Skipped)|
    ensures t.crashed ==
            |set i: nat | i < |results| && results[i].outcome.Ran? && results[i].outcome.code !in {0, 1, 2}|
  {
    t := Tally(0, 0, 0, 0, 0);
    for i := 0 to |results|
      invariant Counts(results[..i], t)
    {
      CountOneMore(results, i);
      match results[i].outcome {
        case Interrupted =>
        case Skipped => t := t.(skipped := t.skipped + 1);
        case Ran(code) =>
          if code == 0 {
            t := t.(passed := t.passed + 1);
          } else if code == 1 {
            t := t.(failed := t.failed + 1);
          } else if code == 2 {
            t := t.(valgrind := t.valgrind + 1);
          } else {
            t := t.(crashed := t.crashed + 1);
          }
      }
    }
    assert results[..|results|] == results;
    KindsAddUp(results);
    CountersAre(results);
  }

  /** The places of the results with a given outcome. */
  ghost function With(results: seq<Result>, outcome: Outcome): set<nat> {
    set i: nat | i < |results| && results[i].outcome == outcome
  }

  ghost predicate ArePlaces(results: seq<Result>, f: Result -> nat, places: set<nat>) {
    forall i: nat :: i in places <==> i < |results| && f(results[i]) == 1
  }

  lemma {:induction false} PlacesFront(results: seq<Result>, f: Result -> nat, places: set<nat>, n: nat)
    requires n == |results| - 1 && ArePlaces(results, f, places)
    ensures ArePlaces(results[..n], f, places - {n})
    ensures |places| == |places - {n}| + if f(results[n]) == 1 then 1 else 0
  {
    assert forall i: nat :: i < n ==> results[..n][i] == results[i];
    if n in places {
      assert places == (places - {n}) + {n};
    } else {
      assert places == places - {n};
    }
  }

  lemma {:induction false} CounterIs(results: seq<Result>, f: Result -> nat, places: set<nat>)
    requires (forall r :: f(r) <= 1) && ArePlaces(results, f, places)
    ensures Sum(results, f) == |places|
  {
    if results == [] {
      assert places == {};
    } else {
      var n := |results| - 1;
      PlacesFront(results, f, places, n);
      CounterIs(results[..n], f, places - {n});
      SumSnoc(results[..n], results[n], f);
      assert results[..n] + [results[n]] == results;
    }
  }

  lemma {:induction false} CountersAre(results: seq<Result>)
    ensures Sum(results, IsPassed) == |With(results, Ran(0))| && Sum(results, IsFailed) == |With(results, Ran(1))|
    ensures Sum(results, IsValgrind) == |With(results, Ran(2))| && Sum(results, IsSkipped) == |With(results, Skipped)|
    ensures Sum(results, IsCrashed) ==
            |set i: nat | i < |results| && results[i].outcome.Ran? && results[i].outcome.code !in {0, 1, 2}|
  {
    CounterIs(results, IsPassed, With(results, Ran(0)));
    CounterIs(results, IsFailed, With(results, Ran(1)));
    CounterIs(results, IsValgrind, With(results, Ran(2)));
    CounterIs(results, IsSkipped, With(results, Skipped));
    CounterIs(results, IsCrashed,
              set i: nat | i < |results| && results[i].outcome.Ran? && results[i].outcome.code !in {0, 1, 2});
  }

  lemma {:induction false} CountOneMore(results: seq<Result>, i: nat)
    requires i < |results|
    ensures forall f: Result -> nat :: Sum(results[..i + 1], f) == Sum(results[..i], f) + f(results[i])
  {
    forall f: Result -> nat ensures Sum(results[..i + 1], f) == Sum(results[..i], f) + f(results[i]) {
      SumSnoc(results[..i], results[i], f);
      assert results[..i] + [results[i]] == results[..i + 1];
    }
  }

  lemma {:induction false} KindsAddUp(results: seq<Result>)
    ensures Sum(results, IsPassed) + Sum(results, IsFailed) + Sum(results, IsValgrind) + Sum(results, IsCrashed) +
            Sum(results, IsSkipped) + Sum(results, IsInterrupted) == |results|
    ensures Sum(results, IsGood) == Sum(results, IsPassed) + Sum(results, IsSkipped)
  {
    if results != [] {
      KindsAddUp(results[1..]);
    }
  }

  function ExitCode(t: Tally, totalTests: nat): int {
    if t.passed + t.skipped == totalTests then 0 else 1
  }

  /** The exit code is 0 exactly when no job was interrupted and every job is skipped or returns 0. */
  lemma {:induction false} ExitCodeIsZeroIff(c: Config, steps: seq<Step>, t: Tally)
    requires IsRun(c, steps) && After(c, steps).phase.Finished? && Counts(After(c, steps).collected, t)
    ensures ExitCode(t, |c.jobs|) == 0 <==>
              var rs := After(c, steps).collected;
              && (forall i :: 0 <= i < |rs| ==> !rs[i].outcome.Interrupted?)
              && (forall id :: 0 <= id < |c.jobs| ==> c.jobs[id].isSkip || c.jobs[id].exit == 0)
    ensures ExitCode(t, |c.jobs|) == 0 || ExitCode(t, |c.jobs|) == 1
  {
    var s := After(c, steps);
    var rs := s.collected;
    FinalState(c, steps);
    KindsAddUp(rs);
    SumFull(rs, IsGood);
    if Sum(rs, IsGood) == |rs| {
      forall id: nat | id < |c.jobs| ensures c.jobs[id].isSkip || c.jobs[id].exit == 0 {
        var i := SumPositive(rs, ResultOf(id));
        assert IsGood(rs[i]) == 1 && IsTrue(c, s.interrupted, rs[i]);
      }
      forall i | 0 <= i < |rs| ensures !rs[i].outcome.Interrupted? {
        assert IsGood(rs[i]) == 1;
      }
    } else {
      var i := NotAll(rs, IsGood);
      assert IsTrue(c, s.interrupted, rs[i]);
    }
  }

  lemma {:induction false} NotAll(rs: seq<Result>, f: Result -> nat) returns (i: nat)
    requires Sum(rs, f) != |rs|
    ensures i < |rs| && f(rs[i]) != 1
  {
    if f(rs[0]) != 1 {
      i := 0;
    } else {
      i := NotAll(rs[1..], f);
      i := i + 1;
    }
  }

  // ----- without an interrupt the counters do not depend on the schedule

  /** The outcome a job has when nothing interrupts it. */
  function Expected(id: nat, job: Job): Result {
    Result(id, if job.isSkip then Skipped else Ran(job.exit))
  }

  function ExpectedResults(jobs: seq<Job>): seq<Result> {
    seq(|jobs|, i requires 0 <= i < |jobs| => Expected(i, jobs[i]))
  }

  /** Results in which every job number below `n` occurs once sum up like the same results in job order. */
  lemma {:induction false} OrderIsIrrelevant(rs: seq<Result>, expected: seq<Result>, f: Result -> nat)
    requires forall i :: 0 <= i < |expected| ==> expected[i].id == i
    requires forall i :: 0 <= i < |rs| ==> rs[i].id < |expected| && rs[i] == expected[rs[i].id]
    requires forall id: nat :: id < |expected| ==> Sum(rs, ResultOf(id)) == 1
    ensures Sum(rs, f) == Sum(expected, f)
    decreases |expected|
  {
    if expected == [] {
      assert rs == [];
    } else {
      var n := |expected| - 1;
      var i := SumPositive(rs, ResultOf(n));
      var rest := rs[..i] + rs[i + 1..];
      forall g: Result -> nat ensures Sum(rs, g) == Sum(rest, g) + g(rs[i]) {
        TakeOut(rs, i, g);
      }
      forall j | 0 <= j < |rest| ensures rest[j].id < n && rest[j] == expected[..n][rest[j].id] {
        SumAtLeast(rest, j, ResultOf(n));
      }
      OrderIsIrrelevant(rest, expected[..n], f);
      SumSnoc(expected[..n], expected[n], f);
      assert expected[..n] + [expected[n]] == expected;
    }
  }

  lemma {:induction false} TakeOut(rs: seq<Result>, i: nat, f: Result -> nat)
    requires i < |rs|
    ensures Sum(rs, f) == Sum(rs[..i] + rs[i + 1..], f) + f(rs[i])
  {
    SumAppend(rs[..i], rs[i + 1..], f);
    SumAppend(rs[..i], rs[i..], f);
    assert rs == rs[..i] + rs[i..] && rs[i..][1..] == rs[i + 1..];
  }

  /** A finished run that was not interrupted leaves the counters that running the jobs in order would. */
  lemma {:induction false} ScheduleIsIrrelevant(c: Config, steps: seq<Step>, t: Tally)
    requires IsRun(c, steps) && After(c, steps).phase.Finished? && !After(c, steps).interrupted
    requires Counts(After(c, steps).collected, t)
    ensures Counts(ExpectedResults(c.jobs), t)
  {
    FinalState(c, steps);
    var rs, expected := After(c, steps).collected, ExpectedResults(c.jobs);
    forall f: Result -> nat ensures Sum(rs, f) == Sum(expected, f) {
      OrderIsIrrelevant(rs, expected, f);
    }
  }
}
