/** Walks, cycles and longest-path depth in a finite directed graph, given by its set of edges. */
module Graphs {
  import opened Sequences

  /** The items being sorted. The code only hashes and compares them. */
  type Node(==, !new)

  type Graph = set<(Node, Node)>

  /** A nonempty sequence of nodes in which each consecutive pair is an edge. */
  ghost predicate IsWalk(g: Graph, w: seq<Node>) {
    && |w| > 0
    && forall i, j :: 0 <= i < |w| && 0 <= j < |w| && j == i + 1 ==> (w[i], w[j]) in g
  }

  ghost predicate IsWalkTo(g: Graph, w: seq<Node>, x: Node) {
    IsWalk(g, w) && w[|w| - 1] == x
  }

  /** A walk whose last node has an edge back to its first. */
  ghost predicate IsClosedWalk(g: Graph, c: seq<Node>) {
    IsWalk(g, c) && (c[|c| - 1], c[0]) in g
  }

  ghost predicate IsElementaryCycle(g: Graph, c: seq<Node>) {
    IsClosedWalk(g, c) && NoDup(c)
  }

  ghost predicate Cyclic(g: Graph) {
    exists c :: IsClosedWalk(g, c)
  }

  ghost predicate IsRouteFromCycle(g: Graph, c: seq<Node>, w: seq<Node>, x: Node) {
    IsClosedWalk(g, c) && IsWalkTo(g, w, x) && w[0] == c[0]
  }

  /** Some cycle leads to `x` (or goes through it). */
  ghost predicate DownstreamOfCycle(g: Graph, x: Node) {
    exists c, w :: IsRouteFromCycle(g, c, w, x)
  }

  /** The longest walk that ends at `x` has exactly `d` edges. */
  ghost predicate IsDepth(g: Graph, x: Node, d: nat) {
    && (exists w :: IsWalkTo(g, w, x) && |w| == d + 1)
    && (forall w :: IsWalkTo(g, w, x) ==> |w| <= d + 1)
  }

  ghost predicate HasDepth(g: Graph, x: Node) {
    exists d: nat :: IsDepth(g, x, d)
  }

  // ----- walks

  lemma {:induction false} WalkJoin(g: Graph, u: seq<Node>, v: seq<Node>)
    requires IsWalk(g, u) && IsWalk(g, v) && (u[|u| - 1], v[0]) in g
    ensures IsWalk(g, u + v)
  {
  }

  lemma {:induction false} WalkSlice(g: Graph, w: seq<Node>, lo: nat, hi: nat)
    requires IsWalk(g, w) && lo < hi <= |w|
    ensures IsWalk(g, w[lo..hi])
  {
  }

  /** Every closed walk contains an elementary cycle. */
  lemma {:induction false} ClosedWalkHasElementaryCycle(g: Graph, c: seq<Node>) returns (e: seq<Node>)
    requires IsClosedWalk(g, c)
    ensures IsElementaryCycle(g, e)
    ensures forall x :: x in e ==> x in c
    decreases |c|
  {
    if NoDup(c) {
      e := c;
    } else {
      var i, j :| 0 <= i < j < |c| && c[i] == c[j];
      WalkSlice(g, c, i, j);
      assert (c[j - 1], c[j]) in g;
      e := ClosedWalkHasElementaryCycle(g, c[i..j]);
    }
  }

  // ----- depth

  lemma {:induction false} DepthUnique(g: Graph, x: Node, d: nat, e: nat)
    requires IsDepth(g, x, d) && IsDepth(g, x, e)
    ensures d == e
  {
    var w :| IsWalkTo(g, w, x) && |w| == d + 1;
    var v :| IsWalkTo(g, v, x) && |v| == e + 1;
  }

  /** An edge goes strictly deeper. */
  lemma {:induction false} DepthAlongEdge(g: Graph, p: Node, dp: nat, x: Node, dx: nat)
    requires (p, x) in g && IsDepth(g, p, dp) && IsDepth(g, x, dx)
    ensures dp < dx
  {
    var w :| IsWalkTo(g, w, p) && |w| == dp + 1;
    WalkJoin(g, w, [x]);
    assert IsWalkTo(g, w + [x], x);
  }

  /** A node reached by a walk of `d` edges, all of whose parents are shallower than `d`, has depth `d`. */
  lemma {:induction false} DepthFromParents(g: Graph, x: Node, d: nat, w: seq<Node>)
    requires IsWalkTo(g, w, x) && |w| == d + 1
    requires forall p :: (p, x) in g ==> exists dp: nat :: dp < d && IsDepth(g, p, dp)
    ensures IsDepth(g, x, d)
  {
    forall v | IsWalkTo(g, v, x) ensures |v| <= d + 1 {
      if |v| > 1 {
        var p := v[|v| - 2];
        assert (p, v[|v| - 1]) in g;
        WalkSlice(g, v, 0, |v| - 1);
        assert IsWalkTo(g, v[..|v| - 1], p);
      }
    }
  }

  /** Going round a cycle once more makes any walk from it longer, so no node downstream has a depth. */
  lemma {:induction false} LongWalkFromCycle(g: Graph, c: seq<Node>, w: seq<Node>, x: Node, n: nat)
    returns (v: seq<Node>)
    requires IsRouteFromCycle(g, c, w, x)
    ensures IsWalkTo(g, v, x) && v[0] == c[0] && |v| > n
    decreases n
  {
    if n == 0 {
      v := w;
    } else {
      v := LongWalkFromCycle(g, c, w, x, n - 1);
      WalkJoin(g, c, v);
      v := c + v;
    }
  }

  lemma {:induction false} NoDepthDownstream(g: Graph, x: Node, d: nat)
    requires DownstreamOfCycle(g, x)
    ensures !IsDepth(g, x, d)
  {
    var c, w :| IsRouteFromCycle(g, c, w, x);
    var v := LongWalkFromCycle(g, c, w, x, d + 1);
  }

  // ----- sets without a first node

  ghost predicate HasParentIn(g: Graph, live: set<Node>, x: Node) {
    exists p :: p in live && (p, x) in g
  }

  /** Every member has a parent that is also a member. */
  ghost predicate Rootless(g: Graph, live: set<Node>) {
    forall x {:trigger HasParentIn(g, live, x)} :: x in live ==> HasParentIn(g, live, x)
  }

  /** Walking backwards inside a finite rootless set must come back to where it was. */
  lemma {:induction false} RootlessIsDownstream(g: Graph, live: set<Node>, x: Node)
    requires Rootless(g, live) && x in live
    ensures DownstreamOfCycle(g, x)
  {
    WalkBackwards(g, live, [x], x);
  }

  lemma {:induction false} WalkBackwards(g: Graph, live: set<Node>, w: seq<Node>, x: Node)
    requires Rootless(g, live)
    requires IsWalkTo(g, w, x) && NoDup(w) && forall y :: y in w ==> y in live
    ensures DownstreamOfCycle(g, x)
    decreases |live| - |w|
  {
    NoDupBound(w, live);
    assert HasParentIn(g, live, w[0]);
    var p :| p in live && (p, w[0]) in g;
    if p in w {
      var k :| 0 <= k < |w| && w[k] == p;
      WalkSlice(g, w, 0, k + 1);
      assert IsRouteFromCycle(g, w[..k + 1], w, x);
    } else {
      WalkJoin(g, [p], w);
      NoDupBound([p] + w, live);
      WalkBackwards(g, live, [p] + w, x);
    }
  }

  /** A graph is cyclic exactly when some node is downstream of a cycle. */
  lemma {:induction false} CyclicIffDownstream(g: Graph)
    ensures Cyclic(g) <==> exists x :: DownstreamOfCycle(g, x)
  {
    if Cyclic(g) {
      var c :| IsClosedWalk(g, c);
      assert IsRouteFromCycle(g, c, [c[0]], c[0]);
      assert DownstreamOfCycle(g, c[0]);
    }
    if x :| DownstreamOfCycle(g, x) {
      var c, w :| IsRouteFromCycle(g, c, w, x);
    }
  }
}
