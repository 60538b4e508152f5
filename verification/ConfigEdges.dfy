/** The edges that the walk over the type graph follows, their names and their order, and how paths are rendered. */
module ConfigEdges {
  import opened Sequences
  import opened ConfigPaths

  // ----- what makes an edge

  /** A pointer to anything but the most general object type, by its name, or a container, by its name and an index. */
  ghost predicate IsAttributeEdge(t: Registry, tid: TypeId, i: nat, e: Edge) {
    && i < |t.AttributesOf(tid)|
    && var a := t.AttributesOf(tid)[i];
       || (a.kind == Pointer(e.target) && e.target != t.objectType && e.name == a.name)
       || (a.kind == Container(e.target) && e.name == a.name + "/[i]")
  }

  /** A registered type that derives from this one, by its own name behind a dollar sign. */
  ghost predicate IsChildEdge(t: Registry, tid: TypeId, i: nat, e: Edge) {
    && i < |t.registered| && t.registered[i] == e.target
    && (e.target, tid) in t.childOf && e.name == "$" + t.NameOf(e.target)
  }

  /** The other end of an aggregation, by its own name behind a dollar sign. */
  ghost predicate IsAggregateEdge(t: Registry, aggregates: Aggregates, tid: TypeId, i: nat, e: Edge) {
    && i < |aggregates| && (aggregates[i] == (tid, e.target) || aggregates[i] == (e.target, tid))
    && e.name == "$" + t.NameOf(e.target)
  }

  // ----- lists of edges in order

  ghost predicate IsIncreasing(origins: seq<nat>, n: nat) {
    && (forall k :: 0 <= k < |origins| ==> origins[k] < n)
    && (forall k, m :: 0 <= k < m < |origins| ==> origins[k] < origins[m])
  }

  ghost predicate IsOrigin(edges: seq<Edge>, origins: seq<nat>, i: nat, e: Edge, k: nat) {
    k < |origins| == |edges| && origins[k] == i && edges[k] == e
  }

  ghost predicate HasOrigin(edges: seq<Edge>, origins: seq<nat>, i: nat, e: Edge) {
    exists k: nat :: IsOrigin(edges, origins, i, e, k)
  }

  /** The list has exactly the edges that come from the places below `n`, each with its place, in that order. */
  ghost predicate ListsWith(edges: seq<Edge>, origins: seq<nat>, n: nat, isEdge: (nat, Edge) -> bool) {
    && |origins| == |edges| && IsIncreasing(origins, n)
    && (forall k :: 0 <= k < |edges| ==> isEdge(origins[k], edges[k]))
    && (forall i: nat, e {:trigger HasOrigin(edges, origins, i, e)} ::
          i < n && isEdge(i, e) ==> HasOrigin(edges, origins, i, e))
  }

  ghost predicate Lists(edges: seq<Edge>, n: nat, isEdge: (nat, Edge) -> bool) {
    exists origins :: ListsWith(edges, origins, n, isEdge)
  }

  lemma {:induction false} NoPlaces(isEdge: (nat, Edge) -> bool)
    ensures Lists([], 0, isEdge)
  {
    assert ListsWith([], [], 0, isEdge);
  }

  lemma {:induction false} OriginKept(edges: seq<Edge>, origins: seq<nat>, i: nat, e: Edge, one: seq<Edge>,
                                      more: seq<nat>)
    requires |origins| == |edges| && |one| == |more| && HasOrigin(edges, origins, i, e)
    ensures HasOrigin(edges + one, origins + more, i, e)
  {
    var k: nat :| IsOrigin(edges, origins, i, e, k);
    assert IsOrigin(edges + one, origins + more, i, e, k);
  }

  lemma {:induction false} OneMoreWith(edges: seq<Edge>, origins: seq<nat>, n: nat, isEdge: (nat, Edge) -> bool,
                                       one: seq<Edge>, more: seq<nat>)
    requires ListsWith(edges, origins, n, isEdge) && |one| <= 1 && forall e :: isEdge(n, e) <==> one == [e]
    requires more == if one == [] then [] else [n]
    ensures ListsWith(edges + one, origins + more, n + 1, isEdge)
  {
    var all, places := edges + one, origins + more;
    forall i: nat, e | i < n + 1 && isEdge(i, e) ensures HasOrigin(all, places, i, e) {
      if i < n {
        assert HasOrigin(edges, origins, i, e);
        OriginKept(edges, origins, i, e, one, more);
      } else {
        assert IsOrigin(all, places, i, e, |edges|);
      }
    }
  }

  lemma {:induction false} OnePlaceMore(edges: seq<Edge>, n: nat, isEdge: (nat, Edge) -> bool, one: seq<Edge>)
    requires Lists(edges, n, isEdge) && |one| <= 1 && forall e :: isEdge(n, e) <==> one == [e]
    ensures Lists(edges + one, n + 1, isEdge)
  {
    var origins :| ListsWith(edges, origins, n, isEdge);
    var more := if one == [] then [] else [n];
    OneMoreWith(edges, origins, n, isEdge, one, more);
  }

  ghost function AttributeEdgesOf(t: Registry, tid: TypeId): (nat, Edge) -> bool {
    (i: nat, e: Edge) => IsAttributeEdge(t, tid, i, e)
  }

  ghost function ChildEdgesOf(t: Registry, tid: TypeId): (nat, Edge) -> bool {
    (i: nat, e: Edge) => IsChildEdge(t, tid, i, e)
  }

  ghost function AggregateEdgesOf(t: Registry, aggregates: Aggregates, tid: TypeId): (nat, Edge) -> bool {
    (i: nat, e: Edge) => IsAggregateEdge(t, aggregates, tid, i, e)
  }

  lemma {:induction false} AttributeEdgeIs(t: Registry, tid: TypeId, i: nat, e: Edge)
    requires i < |t.AttributesOf(tid)|
    ensures IsAttributeEdge(t, tid, i, e) <==> AttributeEdge(t, t.AttributesOf(tid)[i]) == [e]
  {
  }

  lemma {:induction false} ChildEdgeIs(t: Registry, tid: TypeId, i: nat, e: Edge)
    requires i < |t.registered|
    ensures IsChildEdge(t, tid, i, e) <==> ChildEdge(t, tid, t.registered[i]) == [e]
  {
  }

  lemma {:induction false} AggregateEdgeIs(t: Registry, aggregates: Aggregates, tid: TypeId, i: nat, e: Edge)
    requires i < |aggregates|
    ensures IsAggregateEdge(t, aggregates, tid, i, e) <==> AggregateEdge(t, tid, aggregates[i]) == [e]
  {
  }

  lemma {:induction false} AttributesAreListed(t: Registry, tid: TypeId, n: nat)
    requires n <= |t.AttributesOf(tid)|
    ensures Lists(AttributeEdges(t, tid, n), n, AttributeEdgesOf(t, tid))
  {
    if n == 0 {
      NoPlaces(AttributeEdgesOf(t, tid));
    } else {
      AttributesAreListed(t, tid, n - 1);
      var one := AttributeEdge(t, t.AttributesOf(tid)[n - 1]);
      forall e ensures AttributeEdgesOf(t, tid)(n - 1, e) <==> one == [e] {
        AttributeEdgeIs(t, tid, n - 1, e);
      }
      OnePlaceMore(AttributeEdges(t, tid, n - 1), n - 1, AttributeEdgesOf(t, tid), one);
    }
  }

  lemma {:induction false} ChildrenAreListed(t: Registry, tid: TypeId, n: nat)
    requires n <= |t.registered|
    ensures Lists(ChildEdges(t, tid, n), n, ChildEdgesOf(t, tid))
  {
    if n == 0 {
      NoPlaces(ChildEdgesOf(t, tid));
    } else {
      ChildrenAreListed(t, tid, n - 1);
      var one := ChildEdge(t, tid, t.registered[n - 1]);
      forall e ensures ChildEdgesOf(t, tid)(n - 1, e) <==> one == [e] {
        ChildEdgeIs(t, tid, n - 1, e);
      }
      OnePlaceMore(ChildEdges(t, tid, n - 1), n - 1, ChildEdgesOf(t, tid), one);
    }
  }

  lemma {:induction false} AggregatesAreListed(t: Registry, aggregates: Aggregates, tid: TypeId, n: nat)
    requires n <= |aggregates|
    ensures Lists(AggregateEdges(t, tid, aggregates, n), n, AggregateEdgesOf(t, aggregates, tid))
  {
    if n == 0 {
      NoPlaces(AggregateEdgesOf(t, aggregates, tid));
    } else {
      AggregatesAreListed(t, aggregates, tid, n - 1);
      var one := AggregateEdge(t, tid, aggregates[n - 1]);
      forall e ensures AggregateEdgesOf(t, aggregates, tid)(n - 1, e) <==> one == [e] {
        AggregateEdgeIs(t, aggregates, tid, n - 1, e);
      }
      OnePlaceMore(AggregateEdges(t, tid, aggregates, n - 1), n - 1, AggregateEdgesOf(t, aggregates, tid), one);
    }
  }

  /** First the edges of attributes, then those of derived types, then those of aggregations, each in list order. */
  lemma {:induction false} EdgesInOrder(t: Registry, aggregates: Aggregates, tid: TypeId)
    returns (a: seq<Edge>, c: seq<Edge>, g: seq<Edge>)
    ensures OutEdges(t, aggregates, tid) == a + c + g
    ensures Lists(a, |t.AttributesOf(tid)|, AttributeEdgesOf(t, tid))
    ensures Lists(c, |t.registered|, ChildEdgesOf(t, tid))
    ensures Lists(g, |aggregates|, AggregateEdgesOf(t, aggregates, tid))
  {
    a, c := AllAttributeEdges(t, tid), AllChildEdges(t, tid);
    g := AggregateEdges(t, tid, aggregates, |aggregates|);
    AttributesAreListed(t, tid, |t.AttributesOf(tid)|);
    ChildrenAreListed(t, tid, |t.registered|);
    AggregatesAreListed(t, aggregates, tid, |aggregates|);
  }

  ghost predicate IsEdge(t: Registry, aggregates: Aggregates, tid: TypeId, e: Edge) {
    || (exists i: nat :: IsAttributeEdge(t, tid, i, e))
    || (exists i: nat :: IsChildEdge(t, tid, i, e))
    || (exists i: nat :: IsAggregateEdge(t, aggregates, tid, i, e))
  }

  lemma {:induction false} ListedIsEdge(edges: seq<Edge>, n: nat, isEdge: (nat, Edge) -> bool, e: Edge) returns (i: nat)
    requires Lists(edges, n, isEdge) && e in edges
    ensures isEdge(i, e)
  {
    var origins :| ListsWith(edges, origins, n, isEdge);
    var k :| 0 <= k < |edges| && edges[k] == e;
    i := origins[k];
  }

  lemma {:induction false} EdgeIsListed(edges: seq<Edge>, n: nat, isEdge: (nat, Edge) -> bool, e: Edge, i: nat)
    requires Lists(edges, n, isEdge) && i < n && isEdge(i, e)
    ensures e in edges
  {
    var origins :| ListsWith(edges, origins, n, isEdge);
    assert HasOrigin(edges, origins, i, e);
    var k: nat :| IsOrigin(edges, origins, i, e, k);
  }

  lemma {:induction false} FollowedIsEdge(t: Registry, aggregates: Aggregates, tid: TypeId, e: Edge)
    requires e in OutEdges(t, aggregates, tid)
    ensures IsEdge(t, aggregates, tid, e)
  {
    var a, c, g := EdgesInOrder(t, aggregates, tid);
    if e in a {
      var i := ListedIsEdge(a, |t.AttributesOf(tid)|, AttributeEdgesOf(t, tid), e);
      assert IsAttributeEdge(t, tid, i, e);
    } else if e in c {
      var i := ListedIsEdge(c, |t.registered|, ChildEdgesOf(t, tid), e);
      assert IsChildEdge(t, tid, i, e);
    } else {
      var i := ListedIsEdge(g, |aggregates|, AggregateEdgesOf(t, aggregates, tid), e);
      assert IsAggregateEdge(t, aggregates, tid, i, e);
    }
  }

  lemma {:induction false} EdgeIsFollowed(t: Registry, aggregates: Aggregates, tid: TypeId, e: Edge)
    requires IsEdge(t, aggregates, tid, e)
    ensures e in OutEdges(t, aggregates, tid)
  {
    var a, c, g := EdgesInOrder(t, aggregates, tid);
    if i: nat :| IsAttributeEdge(t, tid, i, e) {
      EdgeIsListed(a, |t.AttributesOf(tid)|, AttributeEdgesOf(t, tid), e, i);
    } else if i: nat :| IsChildEdge(t, tid, i, e) {
      EdgeIsListed(c, |t.registered|, ChildEdgesOf(t, tid), e, i);
    } else {
      var i: nat :| IsAggregateEdge(t, aggregates, tid, i, e);
      EdgeIsListed(g, |aggregates|, AggregateEdgesOf(t, aggregates, tid), e, i);
    }
  }

  /** An edge is followed exactly if it comes from an attribute, a derived type or an aggregation. */
  lemma {:induction false} EdgeIff(t: Registry, aggregates: Aggregates, tid: TypeId, e: Edge)
    ensures e in OutEdges(t, aggregates, tid) <==> IsEdge(t, aggregates, tid, e)
  {
    if e in OutEdges(t, aggregates, tid) {
      FollowedIsEdge(t, aggregates, tid, e);
    }
    if IsEdge(t, aggregates, tid, e) {
      EdgeIsFollowed(t, aggregates, tid, e);
    }
  }

  // ----- rendered paths

  /** The text behind each slash. */
  function Split(s: string): seq<string> {
    if s == "" then []
    else if s[|s| - 1] == '/' then Split(s[..|s| - 1]) + [""]
    else
      var front := Split(s[..|s| - 1]);
      if front == [] then [] else front[|front| - 1 := front[|front| - 1] + [s[|s| - 1]]]
  }

  lemma {:induction false} SplitAppend(s: string, x: string)
    requires '/' !in x
    ensures Split(s + "/" + x) == Split(s) + [x]
  {
    var r := s + "/" + x;
    if x == "" {
      assert r[..|r| - 1] == s;
    } else {
      var y, c := x[..|x| - 1], x[|x| - 1];
      SplitAppend(s, y);
      assert r[..|r| - 1] == s + "/" + y && y + [c] == x;
    }
  }

  /** Split at its slashes, a path gives back its components, as long as these have none themselves. */
  lemma {:induction false} SplitOfJoin(path: seq<string>)
    requires forall i :: 0 <= i < |path| ==> '/' !in path[i]
    ensures Split(Join(path)) == path
  {
    if path != [] {
      var front, x := path[..|path| - 1], path[|path| - 1];
      SplitOfJoin(front);
      SplitAppend(Join(front), x);
    }
  }

  /** A component that has a slash, as that of a container has, reads as two. */
  lemma {:induction false} JoinOfTwo(path: seq<string>, x: string, y: string)
    ensures Join(path + [x + "/" + y]) == Join(path + [x] + [y])
  {
    assert (path + [x + "/" + y])[..|path|] == path && (path + [x])[..|path|] == path;
    assert (path + [x] + [y])[..|path| + 1] == path + [x];
  }

  // ----- the first step

  lemma {:induction false} OneEdgeRoute(out: Out, root: TypeId, i: nat)
    requires i < |out(root)| && out(root)[i].target != root
    ensures IsSimpleRoute(out, [], root, [i])
  {
    var r, e := [i], out(root)[i];
    assert r[1..] == [];
    assert TypesOn(out, root, r) == [root] + TypesOn(out, e.target, []);
  }

  lemma {:induction false} OneEdgeEntry(out: Out, root: TypeId, i: nat)
    requires i < |out(root)|
    ensures Entry(out, [], root, [i]) == (out(root)[i].target, "/" + out(root)[i].name)
  {
    var r, e := [i], out(root)[i];
    assert r[1..] == [] && [] + [e.name] == [e.name] && [e.name][..0] == [];
    assert Join([e.name]) == "" + "/" + e.name && "" + "/" == "/";
    assert Entry(out, [], root, r) == Entry(out, [e.name], e.target, []);
  }

  /** Everything one edge away from a root is offered under the name of that edge. */
  lemma {:induction false} OneStepAway(t: Registry, aggregates: Aggregates, root: TypeId, e: Edge)
    requires IsEdge(t, aggregates, root, e) && e.target != root
    ensures var out, u := EdgesIn(t, aggregates), Universe(t, aggregates);
            && Closed(out, u)
            && "/" + e.name in PathsFor(Record(out, [], root, Routes(out, u, [], root)), e.target)
  {
    var out, u := EdgesIn(t, aggregates), Universe(t, aggregates);
    GraphIsClosed(t, aggregates);
    EdgeIff(t, aggregates, root, e);
    var i :| 0 <= i < |out(root)| && out(root)[i] == e;
    OneEdgeRoute(out, root, i);
    OneEdgeEntry(out, root, i);
    PathsAreTheSimpleRoutes(out, u, root, e.target, "/" + e.name);
  }
}
