/**
  Cycle finding: a stack of simple paths is extended one edge at a time from each start that no
  earlier start has reached, and a path that meets itself yields a cycle unless a rotation of it is known.
 */
module FindCycles {
  import opened Sequences
  import opened Graphs
  import opened Rotations
  import opened CycleSearch
  import TopSort

  ghost function EdgesOf(parentChildren: Adjacency): Graph {
    set p, c | p in parentChildren && c in parentChildren[p] :: (p, c)
  }

  ghost predicate AreCycles(g: Graph, cycles: seq<seq<Node>>) {
    forall i :: 0 <= i < |cycles| ==> IsElementaryCycle(g, cycles[i])
  }

  ghost predicate NoneRotated(cycles: seq<seq<Node>>) {
    forall i, j :: 0 <= i < j < |cycles| ==> !IsRotation(cycles[i], cycles[j])
  }

  /** Every elementary cycle is represented by one of its rotations. */
  ghost predicate HasEveryCycle(g: Graph, cycles: seq<seq<Node>>) {
    forall c :: IsElementaryCycle(g, c) ==> HasRotationOf(cycles, c)
  }

  /** A walk from `s` that ends on a cycle. */
  ghost predicate LeadsTo(g: Graph, s: Node, w: seq<Node>, c: seq<Node>) {
    IsElementaryCycle(g, c) && IsWalkTo(g, w, c[0]) && w[0] == s
  }

  /** Every elementary cycle that can be reached from `s` is represented. */
  ghost predicate FoundFrom(g: Graph, cycles: seq<seq<Node>>, s: Node) {
    forall w, c :: LeadsTo(g, s, w, c) ==> HasRotationOf(cycles, c)
  }

  ghost predicate FoundFromAll(g: Graph, cycles: seq<seq<Node>>, starts: set<Node>) {
    forall s {:trigger FoundFrom(g, cycles, s)} :: s in starts ==> FoundFrom(g, cycles, s)
  }

  ghost predicate IsSimplePath(g: Graph, start: Node, p: seq<Node>) {
    IsWalk(g, p) && NoDup(p) && p[0] == start
  }

  // ----- walks and simple paths

  /** Cutting out the loops of a walk leaves a simple path between the same ends. */
  lemma {:induction false} EraseLoops(g: Graph, w: seq<Node>) returns (u: seq<Node>)
    requires IsWalk(g, w)
    ensures IsSimplePath(g, w[0], u) && u[|u| - 1] == w[|w| - 1]
    ensures forall x :: x in u ==> x in w
    decreases |w|
  {
    if NoDup(w) {
      u := w;
    } else {
      var i, j :| 0 <= i < j < |w| && w[i] == w[j];
      CutLoop(g, w, i, j);
      u := EraseLoops(g, w[..i] + w[j..]);
    }
  }

  lemma {:induction false} CutLoop(g: Graph, w: seq<Node>, i: nat, j: nat)
    requires IsWalk(g, w) && i < j < |w| && w[i] == w[j]
    ensures var v := w[..i] + w[j..];
            IsWalk(g, v) && v[0] == w[0] && v[|v| - 1] == w[|w| - 1] && forall x :: x in v ==> x in w
  {
    CutLoopEnds(w, i, j);
    WalkSlice(g, w, j, |w|);
    if i > 0 {
      assert (w[i - 1], w[i]) in g;
      WalkSlice(g, w, 0, i);
      WalkJoin(g, w[..i], w[j..]);
    } else {
      assert w[..i] + w[j..] == w[j..];
    }
  }

  lemma {:induction false} CutLoopEnds(w: seq<Node>, i: nat, j: nat)
    requires i < j < |w| && w[i] == w[j]
    ensures var v := w[..i] + w[j..];
            v != [] && v[0] == w[0] && v[|v| - 1] == w[|w| - 1] && forall x :: x in v ==> x in w
  {
    var v := w[..i] + w[j..];
    forall x | x in v ensures x in w {
      assert x in w[..i] || x in w[j..];
    }
  }

  lemma {:induction false} RotatedCycle(g: Graph, c: seq<Node>, k: nat)
    requires IsElementaryCycle(g, c) && k < |c|
    ensures IsElementaryCycle(g, c[k..] + c[..k]) && IsRotation(c, c[k..] + c[..k])
  {
    assert IsRotationBy(c, c[k..] + c[..k], k);
    if k > 0 {
      WalkSlice(g, c, k, |c|);
      WalkSlice(g, c, 0, k);
      WalkJoin(g, c[k..], c[..k]);
      assert (c[k - 1], c[k]) in g;
    } else {
      assert c[k..] + c[..k] == c;
    }
  }

  /** The part of a walk before it first meets the cycle, and where it meets it. */
  lemma {:induction false} FirstMeeting(w: seq<Node>, c: seq<Node>) returns (m: nat, k: nat)
    requires w != [] && w[|w| - 1] in c
    ensures m < |w| && k < |c| && w[m] == c[k] && forall i :: 0 <= i < m ==> w[i] !in c
  {
    m := 0;
    while w[m] !in c
      invariant m < |w| && forall i :: 0 <= i < m ==> w[i] !in c
      decreases |w| - m
    {
      m := m + 1;
    }
    k :| 0 <= k < |c| && c[k] == w[m];
  }

  /** A reachable cycle is closed by some simple path from the start: go there, then once round. */
  lemma {:induction false} WalkThenTurn(g: Graph, u: seq<Node>, turn: seq<Node>)
    requires IsWalk(g, u) && IsWalk(g, turn) && u[|u| - 1] == turn[0]
    ensures IsWalk(g, u[..|u| - 1] + turn) && (u[..|u| - 1] + turn)[0] == u[0]
  {
    var at := |u| - 1;
    if at > 0 {
      WalkSlice(g, u, 0, at);
      assert (u[at - 1], u[at]) in g;
      WalkJoin(g, u[..at], turn);
    } else {
      assert u[..at] + turn == turn;
    }
  }

  lemma {:induction false} PathRoundCycle(g: Graph, s: Node, w: seq<Node>, c: seq<Node>) returns (p: seq<Node>, at: nat)
    requires LeadsTo(g, s, w, c)
    ensures IsSimplePath(g, s, p) && at < |p| && (p[|p| - 1], p[at]) in g && IsRotation(c, p[at..])
  {
    var m, k := FirstMeeting(w, c);
    WalkSlice(g, w, 0, m + 1);
    var u := EraseLoops(g, w[..m + 1]);
    var turn := c[k..] + c[..k];
    RotatedCycle(g, c, k);
    at := |u| - 1;
    p := u[..at] + turn;
    OutsideThenRound(u, w, m, c, turn);
    WalkThenTurn(g, u, turn);
    assert p[at..] == turn;
  }

  lemma {:induction false} OutsideThenRound(u: seq<Node>, w: seq<Node>, m: nat, c: seq<Node>, turn: seq<Node>)
    requires NoDup(u) && u != [] && m < |w| && u[|u| - 1] == w[m] && forall x :: x in u ==> x in w[..m + 1]
    requires forall i :: 0 <= i < m ==> w[i] !in c
    requires NoDup(turn) && forall x :: x in turn ==> x in c
    ensures NoDup(u[..|u| - 1] + turn)
  {
    forall i | 0 <= i < |u| - 1 ensures u[i] !in turn {
      assert u[i] in u && u[i] != w[m];
    }
  }

  // ----- what exploring a start establishes

  ghost predicate ClosedBackTo(g: Graph, cycles: seq<seq<Node>>, p: seq<Node>, i: int) {
    0 <= i < |p| && (p[|p| - 1], p[i]) in g ==> HasRotationOf(cycles, p[i..])
  }

  /** Every cycle that an edge from the end of `p` back into `p` closes is represented. */
  ghost predicate Closed(g: Graph, cycles: seq<seq<Node>>, p: seq<Node>) {
    p != [] && forall i {:trigger ClosedBackTo(g, cycles, p, i)} :: ClosedBackTo(g, cycles, p, i)
  }

  ghost predicate Done(g: Graph, start: Node, cycles: seq<seq<Node>>, p: seq<Node>) {
    IsSimplePath(g, start, p) ==> Closed(g, cycles, p)
  }

  lemma {:induction false} AllPathsDone(g: Graph, start: Node, cycles: seq<seq<Node>>)
    requires forall p {:trigger Done(g, start, cycles, p)} :: Done(g, start, cycles, p)
    ensures FoundFrom(g, cycles, start)
  {
    forall w, c | LeadsTo(g, start, w, c) ensures HasRotationOf(cycles, c) {
      var p, at := PathRoundCycle(g, start, w, c);
      assert Done(g, start, cycles, p);
      assert ClosedBackTo(g, cycles, p, at);
      var i :| 0 <= i < |cycles| && IsRotation(cycles[i], p[at..]);
      RotationSymmetric(c, p[at..]);
      RotationTransitive(cycles[i], p[at..], c);
    }
  }

  /** What can be reached from a node reached from `s` can be reached from `s`. */
  lemma {:induction false} FoundDownstream(g: Graph, cycles: seq<seq<Node>>, s: Node, path: seq<Node>, v: Node)
    requires FoundFrom(g, cycles, s) && IsWalk(g, path) && path[0] == s && (path[|path| - 1], v) in g
    ensures FoundFrom(g, cycles, v)
  {
    forall w, c | LeadsTo(g, v, w, c) ensures HasRotationOf(cycles, c) {
      WalkJoin(g, path, w);
      assert LeadsTo(g, s, path + w, c);
    }
  }

  lemma {:induction false} FoundSurvives(g: Graph, cycles: seq<seq<Node>>, more: seq<seq<Node>>, starts: set<Node>)
    requires FoundFromAll(g, cycles, starts) && cycles <= more
    ensures FoundFromAll(g, more, starts)
  {
    forall s | s in starts ensures FoundFrom(g, more, s) {
      assert FoundFrom(g, cycles, s);
      forall w, c | LeadsTo(g, s, w, c) ensures HasRotationOf(more, c) {
        RotationSurvives(cycles, more, c);
      }
    }
  }

  lemma {:induction false} RotationSurvives(cycles: seq<seq<Node>>, more: seq<seq<Node>>, c: seq<Node>)
    requires HasRotationOf(cycles, c) && cycles <= more
    ensures HasRotationOf(more, c)
  {
    var i :| 0 <= i < |cycles| && IsRotation(cycles[i], c);
    assert more[i] == cycles[i];
  }

  // ----- the stack

  ghost predicate HasPrefixOf(paths: seq<seq<Node>>, p: seq<Node>) {
    exists i :: 0 <= i < |paths| && paths[i] <= p
  }

  /** `p` is either dealt with or still has a prefix on the stack. */
  ghost predicate Covered(g: Graph, start: Node, cycles: seq<seq<Node>>, paths: seq<seq<Node>>, p: seq<Node>) {
    IsSimplePath(g, start, p) ==> Closed(g, cycles, p) || HasPrefixOf(paths, p)
  }

  lemma {:induction false} HasPrefixSplit(s: seq<seq<Node>>, t: seq<seq<Node>>, p: seq<Node>)
    ensures HasPrefixOf(s + t, p) <==> HasPrefixOf(s, p) || HasPrefixOf(t, p)
  {
    if HasPrefixOf(s, p) {
      var i :| 0 <= i < |s| && s[i] <= p;
      assert (s + t)[i] <= p;
    }
    if HasPrefixOf(t, p) {
      var i :| 0 <= i < |t| && t[i] <= p;
      assert (s + t)[|s| + i] <= p;
    }
    if HasPrefixOf(s + t, p) {
      var i :| 0 <= i < |s + t| && (s + t)[i] <= p;
      if i < |s| {
        assert s[i] <= p;
      } else {
        assert t[i - |s|] <= p;
      }
    }
  }

  ghost predicate CoversAll(g: Graph, start: Node, cycles: seq<seq<Node>>, paths: seq<seq<Node>>) {
    forall p {:trigger Covered(g, start, cycles, paths, p)} :: Covered(g, start, cycles, paths, p)
  }

  ghost predicate OnStack(g: Graph, start: Node, universe: set<Node>, paths: seq<seq<Node>>) {
    forall i :: 0 <= i < |paths| ==> IsSimplePath(g, start, paths[i]) && Elements(paths[i]) <= universe
  }

  /** The extensions of `path` by the first `j` children that are not already on it, in order. */

  lemma {:induction false} ExtensionsContain(path: seq<Node>, chs: seq<Node>, j: nat, m: nat) returns (i: nat)
    requires m < j <= |chs| && chs[m] !in path
    ensures i < |Extensions(path, chs, j)| && Extensions(path, chs, j)[i] == path + [chs[m]]
    decreases j
  {
    if m == j - 1 {
      i := |Extensions(path, chs, j - 1)|;
    } else {
      i := ExtensionsContain(path, chs, j - 1, m);
    }
  }

  lemma {:induction false} ExtensionsAreSimple(g: Graph, start: Node, universe: set<Node>, path: seq<Node>,
                                               chs: seq<Node>, j: nat)
    requires j <= |chs| && IsSimplePath(g, start, path) && Elements(path) <= universe
    requires forall c :: c in chs ==> (path[|path| - 1], c) in g && c in universe
    ensures OnStack(g, start, universe, Extensions(path, chs, j))
  {
    if j > 0 {
      ExtensionsAreSimple(g, start, universe, path, chs, j - 1);
      var c := chs[j - 1];
      if c !in path {
        assert c in chs;
        WalkJoin(g, path, [c]);
        ElementsSnoc(path, c);
      }
    }
  }

  /** Popping a path, closing its cycles and pushing its extensions leaves every simple path covered. */
  lemma {:induction false} CoverStep(g: Graph, start: Node, cycles: seq<seq<Node>>, more: seq<seq<Node>>,
                                     rest: seq<seq<Node>>,
                  path: seq<Node>, chs: seq<Node>)
    requires CoversAll(g, start, cycles, rest + [path]) && cycles <= more && Closed(g, more, path)
    requires forall c :: c in chs <==> (path[|path| - 1], c) in g
    ensures CoversAll(g, start, more, rest + Extensions(path, chs, |chs|))
  {
    var old', paths := rest + [path], rest + Extensions(path, chs, |chs|);
    forall p ensures Covered(g, start, more, paths, p) {
      assert Covered(g, start, cycles, old', p);
      StaysCovered(g, start, cycles, more, rest, path, chs, p);
    }
  }

  lemma {:induction false} StaysCovered(g: Graph, start: Node, cycles: seq<seq<Node>>, more: seq<seq<Node>>,
                                        rest: seq<seq<Node>>,
                     path: seq<Node>, chs: seq<Node>, p: seq<Node>)
    requires Covered(g, start, cycles, rest + [path], p) && cycles <= more && Closed(g, more, path)
    requires forall c :: c in chs <==> (path[|path| - 1], c) in g
    ensures Covered(g, start, more, rest + Extensions(path, chs, |chs|), p)
  {
    if p == path || !IsSimplePath(g, start, p) {
      return;
    }
    if Closed(g, cycles, p) {
      ClosedSurvives(g, cycles, more, p);
      return;
    }
    StillPending(g, start, rest, path, chs, p);
  }

  lemma {:induction false} StillPending(g: Graph, start: Node, rest: seq<seq<Node>>, path: seq<Node>, chs: seq<Node>,
                                        p: seq<Node>)
    requires IsSimplePath(g, start, p) && p != path && path != [] && HasPrefixOf(rest + [path], p)
    requires forall c :: c in chs <==> (path[|path| - 1], c) in g
    ensures HasPrefixOf(rest + Extensions(path, chs, |chs|), p)
  {
    HasPrefixSplit(rest, [path], p);
    HasPrefixSplit(rest, Extensions(path, chs, |chs|), p);
    if HasPrefixOf([path], p) {
      var e := NextOnPath(g, start, path, chs, p);
    }
  }

  lemma {:induction false} NextOnPath(g: Graph, start: Node, path: seq<Node>, chs: seq<Node>, p: seq<Node>)
    returns (e: nat)
    requires IsSimplePath(g, start, p) && path <= p && p != path && path != []
    requires forall c :: c in chs <==> (path[|path| - 1], c) in g
    ensures e < |Extensions(path, chs, |chs|)| && Extensions(path, chs, |chs|)[e] <= p
  {
    var c := p[|path|];
    assert (p[|path| - 1], c) in g && c in chs;
    var m :| 0 <= m < |chs| && chs[m] == c;
    e := ExtensionsContain(path, chs, |chs|, m);
  }

  lemma {:induction false} ClosedSurvives(g: Graph, cycles: seq<seq<Node>>, more: seq<seq<Node>>, p: seq<Node>)
    requires Closed(g, cycles, p) && cycles <= more
    ensures Closed(g, more, p)
  {
    forall i ensures ClosedBackTo(g, more, p, i) {
      assert ClosedBackTo(g, cycles, p, i);
      if 0 <= i < |p| && (p[|p| - 1], p[i]) in g {
        RotationSurvives(cycles, more, p[i..]);
      }
    }
  }

  // ----- why the stack empties

  ghost function Pow(b: nat, e: nat): (r: nat)
    ensures b > 0 ==> r > 0
  {
    if e == 0 then 1 else b * Pow(b, e - 1)
  }

  /** A path of length `len` stands for at most this many pops: `b` exceeds every number of children. */
  ghost function PathWeight(b: nat, n: nat, len: nat): nat {
    if len <= n then Pow(b, n - len) else 0
  }

  ghost function StackWeight(b: nat, n: nat, paths: seq<seq<Node>>): nat {
    if paths == [] then 0
    else StackWeight(b, n, paths[..|paths| - 1]) + PathWeight(b, n, |paths[|paths| - 1]|)
  }

  lemma {:induction false} StackWeightAppend(b: nat, n: nat, s: seq<seq<Node>>, t: seq<seq<Node>>)
    ensures StackWeight(b, n, s + t) == StackWeight(b, n, s) + StackWeight(b, n, t)
  {
    if t == [] {
      assert s + t == s;
    } else {
      var k := |t| - 1;
      StackWeightAppend(b, n, s, t[..k]);
      assert (s + t)[..|s + t| - 1] == s + t[..k];
    }
  }

  lemma {:induction false} OneMoreTime(j: nat, w: nat)
    requires j > 0
    ensures j * w == (j - 1) * w + w
  {
  }

  lemma {:induction false} ExtensionsWeight(b: nat, n: nat, path: seq<Node>, chs: seq<Node>, j: nat)
    requires j <= |chs|
    ensures StackWeight(b, n, Extensions(path, chs, j)) <= j * PathWeight(b, n, |path| + 1)
  {
    if j > 0 {
      ExtensionsWeight(b, n, path, chs, j - 1);
      var before := Extensions(path, chs, j - 1);
      OneMoreTime(j, PathWeight(b, n, |path| + 1));
      if chs[j - 1] !in path {
        assert (before + [path + [chs[j - 1]]])[..|before|] == before;
      } else {
        assert before + [] == before;
      }
    }
  }

  /** Replacing a path by its extensions makes the stack lighter. */
  lemma {:induction false} StackGetsLighter(b: nat, n: nat, rest: seq<seq<Node>>, path: seq<Node>, chs: seq<Node>)
    requires |chs| < b && |path| <= n
    ensures StackWeight(b, n, rest + Extensions(path, chs, |chs|)) < StackWeight(b, n, rest + [path])
    ensures StackWeight(b, n, rest) < StackWeight(b, n, rest + [path])
  {
    StackWeightAppend(b, n, rest, [path]);
    StackWeightAppend(b, n, rest, Extensions(path, chs, |chs|));
    ExtensionsWeight(b, n, path, chs, |chs|);
    assert [path][..0] == [];
    var w := PathWeight(b, n, |path| + 1);
    if |path| < n {
      assert PathWeight(b, n, |path|) == b * w;
      LessTimes(|chs|, b, w);
    }
  }

  lemma {:induction false} LessTimes(x: nat, y: nat, w: nat)
    requires x < y && w > 0
    ensures x * w < y * w
  {
  }

  // ----- the algorithm

  method IsDup(cycles: seq<seq<Node>>, cycle: seq<Node>) returns (isDup: bool)
    requires cycle != []
    ensures isDup <==> HasRotationOf(cycles, cycle)
  {
    for i := 0 to |cycles|
      invariant forall j :: 0 <= j < i ==> !IsRotation(cycles[j], cycle)
    {
      var rotated := IsRotated(cycles[i], cycle);
      if rotated.value {
        return true;
      }
    }
    return false;
  }

  ghost predicate ClosedAt(cycles: seq<seq<Node>>, path: seq<Node>, c: Node) {
    c in path ==> HasRotationOf(cycles, path[IndexOf(path, c)..])
  }

  ghost predicate ClosedUpTo(cycles: seq<seq<Node>>, path: seq<Node>, chs: seq<Node>, j: nat)
    requires j <= |chs|
  {
    j > 0 ==> ClosedUpTo(cycles, path, chs, j - 1) && ClosedAt(cycles, path, chs[j - 1])
  }

  lemma {:induction false} ClosedUpToSurvives(cycles: seq<seq<Node>>, more: seq<seq<Node>>, path: seq<Node>,
                                              chs: seq<Node>, j: nat)
    requires j <= |chs| && ClosedUpTo(cycles, path, chs, j) && cycles <= more
    ensures ClosedUpTo(more, path, chs, j)
  {
    if j > 0 {
      ClosedUpToSurvives(cycles, more, path, chs, j - 1);
      if chs[j - 1] in path {
        RotationSurvives(cycles, more, path[IndexOf(path, chs[j - 1])..]);
      }
    }
  }

  lemma {:induction false} ClosedUpToAt(cycles: seq<seq<Node>>, path: seq<Node>, chs: seq<Node>, j: nat, m: nat)
    requires m < j <= |chs| && ClosedUpTo(cycles, path, chs, j)
    ensures ClosedAt(cycles, path, chs[m])
    decreases j
  {
    if m < j - 1 {
      ClosedUpToAt(cycles, path, chs, j - 1, m);
    }
  }

  /** The body of the stack loop: one path against all the children of its last node. */
  method Expand(ghost g: Graph, ghost start: Node, path: seq<Node>, chs: seq<Node>, cycles0: seq<seq<Node>>,
                paths0: seq<seq<Node>>, visited0: set<Node>)
    returns (cycles: seq<seq<Node>>, paths: seq<seq<Node>>, visited: set<Node>)
    requires IsSimplePath(g, start, path)
    requires forall c :: c in chs <==> (path[|path| - 1], c) in g
    requires AreCycles(g, cycles0) && NoneRotated(cycles0)
    ensures cycles0 <= cycles && AreCycles(g, cycles) && NoneRotated(cycles) && Closed(g, cycles, path)
    ensures paths == paths0 + Extensions(path, chs, |chs|) && cycles == Close(path, chs, |chs|, cycles0)
    ensures visited0 <= visited && forall v :: v in visited ==> v in visited0 || v in chs
  {
    cycles, paths, visited := cycles0, paths0, visited0;
    for j := 0 to |chs|
      invariant cycles0 <= cycles && AreCycles(g, cycles) && NoneRotated(cycles)
      invariant ClosedUpTo(cycles, path, chs, j)
      invariant paths == paths0 + Extensions(path, chs, j) && cycles == Close(path, chs, j, cycles0)
      invariant visited0 <= visited && forall v :: v in visited ==> v in visited0 || v in chs
    {
      var child := chs[j];
      assert child in chs;
      if child in path {
        var cycle := path[IndexOf(path, child)..];
        var isDup := IsDup(cycles, cycle);
        if !isDup {
          TailIsCycle(g, start, path, IndexOf(path, child));
          AddCycle(g, cycles, cycle);
          ClosedUpToSurvives(cycles, cycles + [cycle], path, chs, j);
          cycles := cycles + [cycle];
        }
      } else {
        paths := paths + [path + [child]];
        visited := visited + {child};
      }
    }
    PathIsClosed(g, start, cycles, path, chs);
  }

  lemma {:induction false} TailIsCycle(g: Graph, start: Node, path: seq<Node>, i: nat)
    requires IsSimplePath(g, start, path) && i < |path| && (path[|path| - 1], path[i]) in g
    ensures IsElementaryCycle(g, path[i..])
  {
    WalkSlice(g, path, i, |path|);
  }

  lemma {:induction false} AddCycle(g: Graph, cycles: seq<seq<Node>>, cycle: seq<Node>)
    requires AreCycles(g, cycles) && NoneRotated(cycles) && IsElementaryCycle(g, cycle) && !HasRotationOf(cycles, cycle)
    ensures AreCycles(g, cycles + [cycle]) && NoneRotated(cycles + [cycle])
    ensures HasRotationOf(cycles + [cycle], cycle)
  {
    RotationReflexive(cycle);
    assert (cycles + [cycle])[|cycles|] == cycle;
  }

  lemma {:induction false} PathIsClosed(g: Graph, start: Node, cycles: seq<seq<Node>>, path: seq<Node>, chs: seq<Node>)
    requires IsSimplePath(g, start, path)
    requires forall c :: c in chs <==> (path[|path| - 1], c) in g
    requires ClosedUpTo(cycles, path, chs, |chs|)
    ensures Closed(g, cycles, path)
  {
    forall i ensures ClosedBackTo(g, cycles, path, i) {
      if 0 <= i < |path| && (path[|path| - 1], path[i]) in g {
        assert path[i] in chs;
        var m :| 0 <= m < |chs| && chs[m] == path[i];
        ClosedUpToAt(cycles, path, chs, |chs|, m);
        assert IndexOf(path, path[i]) == i;
      }
    }
  }

  ghost predicate ReachedFrom(g: Graph, start: Node, v: Node) {
    exists path :: IsWalk(g, path) && path[0] == start && (path[|path| - 1], v) in g
  }

  ghost predicate NewlyReached(g: Graph, start: Node, visited0: set<Node>, visited: set<Node>) {
    forall v {:trigger ReachedFrom(g, start, v)} :: v in visited ==> v in visited0 || ReachedFrom(g, start, v)
  }

  /** The adjacency, its edges, the nodes it mentions, and a bound on the number of children. */
  ghost predicate Describes(parentChildren: Adjacency, g: Graph, universe: set<Node>, b: nat) {
    && (forall p, c {:trigger (p, c) in g} :: (p, c) in g <==> p in parentChildren && c in parentChildren[p])
    && parentChildren.Keys <= universe
    && (forall p, c {:trigger (p, c) in g} :: (p, c) in g ==> c in universe)
    && (forall p :: p in parentChildren ==> |parentChildren[p]| < b)
    && b > 0
  }

  /** The stack loop, for one start. */
  method Explore(ghost g: Graph, ghost universe: set<Node>, ghost b: nat, parentChildren: Adjacency, start: Node,
                 cycles0: seq<seq<Node>>, visited0: set<Node>)
    returns (cycles: seq<seq<Node>>, visited: set<Node>)
    requires Describes(parentChildren, g, universe, b) && start in parentChildren
    requires AreCycles(g, cycles0) && NoneRotated(cycles0)
    ensures cycles0 <= cycles && AreCycles(g, cycles) && NoneRotated(cycles)
    ensures FoundFrom(g, cycles, start) && cycles == Dfs(parentChildren, [start], cycles0)
    ensures visited0 <= visited && NewlyReached(g, start, visited0, visited)
  {
    cycles, visited := cycles0, visited0;
    var paths := [[start]];
    StartOfStack(g, start, universe, cycles);
    StackOfOne(parentChildren, [start], cycles);
    while paths != []
      invariant cycles0 <= cycles && AreCycles(g, cycles) && NoneRotated(cycles)
      invariant OnStack(g, start, universe, paths) && CoversAll(g, start, cycles, paths)
      invariant ArePaths(paths) && DfsStack(parentChildren, paths, cycles) == Dfs(parentChildren, [start], cycles0)
      invariant visited0 <= visited && NewlyReached(g, start, visited0, visited)
      decreases StackWeight(b, |universe|, paths)
    {
      var path, rest := paths[|paths| - 1], paths[..|paths| - 1];
      assert paths == rest + [path];
      var parent := path[|path| - 1];
      var chs := if parent in parentChildren then parentChildren[parent] else [];
      PopStep(parentChildren, g, universe, b, start, rest, path, chs);
      ghost var before, seen := cycles, visited;
      cycles, paths, visited := Expand(g, start, path, chs, cycles, rest, visited);
      PopIsVisit(parentChildren, rest, path, before);
      CoverStep(g, start, before, cycles, rest, path, chs);
      ReachStep(g, start, path, chs, visited0, seen, visited);
    }
    forall p ensures Done(g, start, cycles, p) {
      assert Covered(g, start, cycles, paths, p);
    }
    AllPathsDone(g, start, cycles);
  }

  lemma {:induction false} StartOfStack(g: Graph, start: Node, universe: set<Node>, cycles: seq<seq<Node>>)
    requires start in universe
    ensures OnStack(g, start, universe, [[start]]) && CoversAll(g, start, cycles, [[start]])
  {
    assert [start][..0] == [];
    assert Elements([start]) == {start};
    var paths := [[start]];
    forall p ensures Covered(g, start, cycles, paths, p) {
      if IsSimplePath(g, start, p) {
        assert paths[0] <= p;
        assert HasPrefixOf(paths, p);
      }
    }
  }

  lemma {:induction false} PopStep(parentChildren: Adjacency, g: Graph, universe: set<Node>, b: nat, start: Node,
                                   rest: seq<seq<Node>>,
                path: seq<Node>, chs: seq<Node>)
    requires Describes(parentChildren, g, universe, b) && OnStack(g, start, universe, rest + [path])
    requires path != [] && var parent := path[|path| - 1];
             chs == if parent in parentChildren then parentChildren[parent] else []
    ensures IsSimplePath(g, start, path) && forall c :: c in chs <==> (path[|path| - 1], c) in g
    ensures OnStack(g, start, universe, rest + Extensions(path, chs, |chs|))
    ensures StackWeight(b, |universe|, rest + Extensions(path, chs, |chs|)) < StackWeight(b, |universe|, rest + [path])
  {
    assert (rest + [path])[|rest|] == path;
    assert forall i :: 0 <= i < |rest| ==> (rest + [path])[i] == rest[i];
    forall c ensures c in chs <==> (path[|path| - 1], c) in g {
    }
    ExtensionsAreSimple(g, start, universe, path, chs, |chs|);
    NoDupCard(path);
    SubsetCard(Elements(path), universe);
    StackGetsLighter(b, |universe|, rest, path, chs);
  }

  lemma {:induction false} ReachStep(g: Graph, start: Node, path: seq<Node>, chs: seq<Node>, visited0: set<Node>,
                                     seen: set<Node>,
                  visited: set<Node>)
    requires IsSimplePath(g, start, path) && forall c :: c in chs <==> (path[|path| - 1], c) in g
    requires NewlyReached(g, start, visited0, seen) && forall v :: v in visited ==> v in seen || v in chs
    ensures NewlyReached(g, start, visited0, visited)
  {
    forall v | v in visited && v !in visited0 ensures ReachedFrom(g, start, v) {
      if v in chs {
        assert IsWalk(g, path) && path[0] == start && (path[|path| - 1], v) in g;
      }
    }
  }

  /** Yields, for any dictionary order, exactly one rotation of every elementary cycle. */
  method FindCycles(parentChildren: Adjacency) returns (cycles: seq<seq<Node>>)
    ensures AreCycles(EdgesOf(parentChildren), cycles)
    ensures NoneRotated(cycles)
    ensures HasEveryCycle(EdgesOf(parentChildren), cycles)
    ensures exists keys :: IsOrderOf(keys, parentChildren.Keys) && cycles == DfsEach(parentChildren, keys, [])
  {
    ghost var g := EdgesOf(parentChildren);
    ghost var universe, b := Describe(parentChildren);
    cycles := [];
    var visited: set<Node> := {};
    var rest := parentChildren.Keys;
    ghost var keys: seq<Node> := [];
    while rest != {}
      invariant IsOrderOf(keys, parentChildren.Keys - rest) && cycles == DfsEach(parentChildren, keys, [])
      invariant rest <= parentChildren.Keys && AreCycles(g, cycles) && NoneRotated(cycles)
      invariant FoundFromAll(g, cycles, parentChildren.Keys - rest) && FoundFromAll(g, cycles, visited)
    {
      var parent :| parent in rest;
      NextKey(keys, parentChildren.Keys, rest, parent);
      EachNext(parentChildren, keys, parent);
      rest := rest - {parent};
      keys := keys + [parent];
      if parent in visited {
        assert FoundFrom(g, cycles, parent);
        NothingNew(parentChildren, g, cycles, parent);
        VisitedIsFound(g, cycles, visited, parentChildren.Keys, rest, parent);
        continue;
      }
      ghost var before, seen := cycles, visited;
      cycles, visited := Explore(g, universe, b, parentChildren, parent, cycles, visited);
      StartIsFound(g, before, cycles, seen, visited, parentChildren.Keys, rest, parent);
    }
    Complete(parentChildren, g, cycles);
    assert parentChildren.Keys - rest == parentChildren.Keys;
  }

  // ----- skipping what has been visited

  lemma {:induction false} CloseAddsNothing(g: Graph, start: Node, path: seq<Node>, chs: seq<Node>, j: nat,
                                            cycles: seq<seq<Node>>)
    requires j <= |chs| && IsSimplePath(g, start, path) && FoundFrom(g, cycles, start)
    requires forall c :: c in chs ==> (path[|path| - 1], c) in g
    ensures Close(path, chs, j, cycles) == cycles
  {
    if j > 0 {
      CloseAddsNothing(g, start, path, chs, j - 1, cycles);
      var c := chs[j - 1];
      if c in path {
        assert c in chs;
        var i := IndexOf(path, c);
        TailIsCycle(g, start, path, i);
        WalkSlice(g, path, 0, i + 1);
        assert LeadsTo(g, start, path[..i + 1], path[i..]);
      }
    }
  }

  lemma {:induction false} StepOn(adj: Adjacency, g: Graph, start: Node, path: seq<Node>, c: Node)
    requires g == EdgesOf(adj) && IsSimplePath(g, start, path) && c in ChildrenIn(adj, path) && c !in path
    ensures IsSimplePath(g, start, path + [c])
    ensures |NodesIn(adj) - Elements(path + [c])| < |NodesIn(adj) - Elements(path)|
  {
    Deeper(adj, path, c);
    assert (path[|path| - 1], c) in g;
    WalkJoin(g, path, [c]);
  }

  lemma {:induction false} OwnCycles(adj: Adjacency, g: Graph, start: Node, path: seq<Node>, cycles: seq<seq<Node>>)
    requires g == EdgesOf(adj) && IsSimplePath(g, start, path) && FoundFrom(g, cycles, start)
    ensures var chs := ChildrenIn(adj, path); Close(path, chs, |chs|, cycles) == cycles
  {
    var chs := ChildrenIn(adj, path);
    CloseAddsNothing(g, start, path, chs, |chs|, cycles);
  }

  /** Where every cycle that can be reached is known, the search adds none. */
  lemma {:induction false} DfsAddsNothing(adj: Adjacency, g: Graph, start: Node, path: seq<Node>,
                                          cycles: seq<seq<Node>>)
    requires g == EdgesOf(adj) && IsSimplePath(g, start, path) && FoundFrom(g, cycles, start)
    ensures Dfs(adj, path, cycles) == cycles
    decreases |NodesIn(adj) - Elements(path)|, |ChildrenIn(adj, path)| + 1
  {
    OwnCycles(adj, g, start, path, cycles);
    ChildrenAddNothing(adj, g, start, path, |ChildrenIn(adj, path)|, cycles);
  }

  lemma {:induction false} ChildrenAddNothing(adj: Adjacency, g: Graph, start: Node, path: seq<Node>, j: nat,
                                              cycles: seq<seq<Node>>)
    requires g == EdgesOf(adj) && IsSimplePath(g, start, path) && FoundFrom(g, cycles, start)
    requires j <= |ChildrenIn(adj, path)|
    ensures DfsChildren(adj, path, j, cycles) == cycles
    decreases |NodesIn(adj) - Elements(path)|, j, 1
  {
    if j > 0 {
      ChildrenAddNothing(adj, g, start, path, j - 1, cycles);
      ChildAddsNothing(adj, g, start, path, j, cycles);
      ChildrenNext(adj, path, j, cycles);
    }
  }

  lemma {:induction false} ChildAddsNothing(adj: Adjacency, g: Graph, start: Node, path: seq<Node>, j: nat,
                                            cycles: seq<seq<Node>>)
    requires g == EdgesOf(adj) && IsSimplePath(g, start, path) && FoundFrom(g, cycles, start)
    requires 0 < j <= |ChildrenIn(adj, path)|
    ensures var c := ChildrenIn(adj, path)[j - 1]; c !in path ==> Dfs(adj, path + [c], cycles) == cycles
    decreases |NodesIn(adj) - Elements(path)|, j, 0
  {
    var c := ChildrenIn(adj, path)[j - 1];
    if c !in path {
      StepOn(adj, g, start, path, c);
      DfsAddsNothing(adj, g, start, path + [c], cycles);
    }
  }

  lemma {:induction false} NothingNew(adj: Adjacency, g: Graph, cycles: seq<seq<Node>>, start: Node)
    requires g == EdgesOf(adj) && FoundFrom(g, cycles, start)
    ensures Dfs(adj, [start], cycles) == cycles
  {
    DfsAddsNothing(adj, g, start, [start], cycles);
  }

  lemma {:induction false} Describe(parentChildren: Adjacency) returns (universe: set<Node>, b: nat)
    ensures Describes(parentChildren, EdgesOf(parentChildren), universe, b)
  {
    universe := parentChildren.Keys + set p, c | p in parentChildren && c in parentChildren[p] :: c;
    b := 1;
    var rest := parentChildren.Keys;
    while rest != {}
      invariant rest <= parentChildren.Keys && b > 0
      invariant forall p :: p in parentChildren && p !in rest ==> |parentChildren[p]| < b
    {
      var p :| p in rest;
      rest := rest - {p};
      if |parentChildren[p]| >= b {
        b := |parentChildren[p]| + 1;
      }
    }
    var g := EdgesOf(parentChildren);
    forall p, c | (p, c) in g ensures c in universe {
      assert p in parentChildren && c in parentChildren[p];
    }
  }

  lemma {:induction false} VisitedIsFound(g: Graph, cycles: seq<seq<Node>>, visited: set<Node>, keys: set<Node>,
                                          rest: set<Node>, parent: Node)
    requires FoundFromAll(g, cycles, visited) && parent in visited && parent in keys && parent !in rest
    requires FoundFromAll(g, cycles, keys - (rest + {parent}))
    ensures FoundFromAll(g, cycles, keys - rest)
  {
  }

  lemma {:induction false} StartIsFound(g: Graph, before: seq<seq<Node>>, cycles: seq<seq<Node>>, seen: set<Node>,
                                        visited: set<Node>,
                     keys: set<Node>, rest: set<Node>, parent: Node)
    requires before <= cycles && FoundFrom(g, cycles, parent) && NewlyReached(g, parent, seen, visited)
    requires FoundFromAll(g, before, seen) && FoundFromAll(g, before, keys - (rest + {parent}))
    ensures FoundFromAll(g, cycles, keys - rest) && FoundFromAll(g, cycles, visited)
  {
    FoundSurvives(g, before, cycles, seen);
    FoundSurvives(g, before, cycles, keys - (rest + {parent}));
    forall v | v in visited ensures FoundFrom(g, cycles, v) {
      if v !in seen {
        assert ReachedFrom(g, parent, v);
        var path :| IsWalk(g, path) && path[0] == parent && (path[|path| - 1], v) in g;
        FoundDownstream(g, cycles, parent, path, v);
      }
    }
  }

  lemma {:induction false} Complete(parentChildren: Adjacency, g: Graph, cycles: seq<seq<Node>>)
    requires g == EdgesOf(parentChildren) && FoundFromAll(g, cycles, parentChildren.Keys)
    ensures HasEveryCycle(g, cycles)
  {
    forall c | IsElementaryCycle(g, c) ensures HasRotationOf(cycles, c) {
      var last := |c| - 1;
      if last > 0 {
        assert (c[0], c[1]) in g;
      }
      assert c[0] in parentChildren;
      assert FoundFrom(g, cycles, c[0]);
      assert LeadsTo(g, c[0], [c[0]], c);
    }
  }

  // ----- consequences

  /** The cycles found are a set of representatives: each elementary cycle is a rotation of exactly one. */
  lemma {:induction false} ExactlyOneRotation(g: Graph, cycles: seq<seq<Node>>, c: seq<Node>) returns (i: nat)
    requires NoneRotated(cycles) && HasEveryCycle(g, cycles) && IsElementaryCycle(g, c)
    ensures i < |cycles| && IsRotation(cycles[i], c)
    ensures forall j :: 0 <= j < |cycles| && IsRotation(cycles[j], c) ==> j == i
  {
    assert HasRotationOf(cycles, c);
    i :| 0 <= i < |cycles| && IsRotation(cycles[i], c);
    forall j | 0 <= j < |cycles| && IsRotation(cycles[j], c) ensures j == i {
      var lo, hi := if i < j then i else j, if i < j then j else i;
      RotationSymmetric(cycles[hi], c);
      RotationTransitive(cycles[lo], c, cycles[hi]);
    }
  }

  lemma {:induction false} SameEdges(pairs: TopSort.Pairs, children: Adjacency)
    requires TopSort.ListsChildren(pairs, children)
    ensures EdgesOf(children) == TopSort.EdgeSet(pairs)
  {
    forall e: (Node, Node) ensures e in EdgesOf(children) <==> e in TopSort.EdgeSet(pairs) {
      TopSort.ChildrenOfMember(pairs, e.0, e.1);
    }
  }

  /** Sorting a list of pairs fails exactly when cycle finding on the same children yields something. */
  lemma {:induction false} SortFailsIffCycleFound(pairs: TopSort.Pairs, children: Adjacency, r: TopSort.TopSortResult,
                                                  cycles: seq<seq<Node>>)
    requires TopSort.ListsChildren(pairs, children)
    requires r.CycleError? <==> Cyclic(TopSort.EdgeSet(pairs))
    requires AreCycles(EdgesOf(children), cycles) && HasEveryCycle(EdgesOf(children), cycles)
    ensures r.CycleError? <==> cycles != []
  {
    var g := EdgesOf(children);
    SameEdges(pairs, children);
    if Cyclic(g) {
      var c :| IsClosedWalk(g, c);
      var e := ClosedWalkHasElementaryCycle(g, c);
      assert HasRotationOf(cycles, e);
    }
    if cycles != [] {
      assert IsElementaryCycle(g, cycles[0]);
    }
  }

  /** Sorts a list of pairs and looks for the cycles in it: one of the two comes to nothing. */
  method SortAndFindCycles(pairs: TopSort.Pairs) returns (r: TopSort.TopSortResult, cycles: seq<seq<Node>>)
    ensures r.CycleError? <==> cycles != []
    ensures r.CycleError? <==> Cyclic(TopSort.EdgeSet(pairs))
    ensures AreCycles(TopSort.EdgeSet(pairs), cycles) && NoneRotated(cycles)
    ensures HasEveryCycle(TopSort.EdgeSet(pairs), cycles)
    ensures r.Sorted? ==>
              TopSort.ParentsFirst(TopSort.EdgeSet(pairs), r.order) && Elements(r.order) == TopSort.NodesOf(pairs)
  {
    r := TopSort.TopSort(pairs);
    var _, children := TopSort.CountParents(pairs);
    SameEdges(pairs, children);
    cycles := FindCycles(children);
    SortFailsIffCycleFound(pairs, children, r, cycles);
  }
}
