/**
  Configuration-path gathering: a depth-first walk over a cyclic graph of types, kept finite by a
  stack of the types on the current path. The walk is specified by the routes it must record.
 */
module ConfigPaths {
  import opened Wrappers
  import opened Sequences

  type TypeId(==, !new)

  datatype Kind = Pointer(pointee: TypeId) | Container(item: TypeId) | Plain

  datatype Attribute = Attribute(name: string, kind: Kind)

  /** The introspection data: attributes and name of each type, the registered types and their ancestry. */
  datatype Registry = Registry(attributes: map<TypeId, seq<Attribute>>, names: map<TypeId, string>,
                               registered: seq<TypeId>, childOf: set<(TypeId, TypeId)>, objectType: TypeId)
  {
    function AttributesOf(tid: TypeId): seq<Attribute> {
      if tid in attributes then attributes[tid] else []
    }

    function NameOf(tid: TypeId): string {
      if tid in names then names[tid] else ""
    }

    /** The registered type of that name. */
    function Lookup(name: string): (r: Option<TypeId>)
      ensures r.Some? ==> r.value in registered && NameOf(r.value) == name
      ensures r.None? ==> forall i :: 0 <= i < |registered| ==> NameOf(registered[i]) != name
    {
      LookupFrom(name, 0)
    }

    function LookupFrom(name: string, i: nat): (r: Option<TypeId>)
      ensures r.Some? ==> r.value in registered && NameOf(r.value) == name
      ensures r.None? ==> forall j :: i <= j < |registered| ==> NameOf(registered[j]) != name
      decreases |registered| - i
    {
      if i >= |registered| then None
      else if NameOf(registered[i]) == name then Some(registered[i])
      else LookupFrom(name, i + 1)
    }
  }

  type Aggregates = seq<(TypeId, TypeId)>

  datatype Edge = Edge(name: string, target: TypeId)

  // ----- the edges out of a type, in the order in which they are followed

  /** A pointer to the most general object type is not followed. */
  function AttributeEdge(t: Registry, a: Attribute): seq<Edge> {
    match a.kind
    case Pointer(pointee) => if pointee == t.objectType then [] else [Edge(a.name, pointee)]
    case Container(item) => [Edge(a.name + "/[i]", item)]
    case Plain => []
  }

  function ChildEdge(t: Registry, tid: TypeId, child: TypeId): seq<Edge> {
    if (child, tid) in t.childOf then [Edge("$" + t.NameOf(child), child)] else []
  }

  /** An aggregation can be followed from either side; the second test wins for a type aggregated to itself. */
  function AggregateEdge(t: Registry, tid: TypeId, pair: (TypeId, TypeId)): seq<Edge> {
    if pair.1 == tid then [Edge("$" + t.NameOf(pair.0), pair.0)]
    else if pair.0 == tid then [Edge("$" + t.NameOf(pair.1), pair.1)]
    else []
  }

  function AttributeEdges(t: Registry, tid: TypeId, n: nat): seq<Edge>
    requires n <= |t.AttributesOf(tid)|
  {
    if n == 0 then [] else AttributeEdges(t, tid, n - 1) + AttributeEdge(t, t.AttributesOf(tid)[n - 1])
  }

  function ChildEdges(t: Registry, tid: TypeId, n: nat): seq<Edge>
    requires n <= |t.registered|
  {
    if n == 0 then [] else ChildEdges(t, tid, n - 1) + ChildEdge(t, tid, t.registered[n - 1])
  }

  function AggregateEdges(t: Registry, tid: TypeId, aggregates: Aggregates, n: nat): seq<Edge>
    requires n <= |aggregates|
  {
    if n == 0 then [] else AggregateEdges(t, tid, aggregates, n - 1) + AggregateEdge(t, tid, aggregates[n - 1])
  }

  function AllAttributeEdges(t: Registry, tid: TypeId): seq<Edge> {
    AttributeEdges(t, tid, |t.AttributesOf(tid)|)
  }

  function AllChildEdges(t: Registry, tid: TypeId): seq<Edge> {
    ChildEdges(t, tid, |t.registered|)
  }

  /** Attributes first, then derived types, then aggregations. */
  function OutEdges(t: Registry, aggregates: Aggregates, tid: TypeId): seq<Edge> {
    AllAttributeEdges(t, tid) + AllChildEdges(t, tid) + AggregateEdges(t, tid, aggregates, |aggregates|)
  }

  // ----- the finite set of types an edge can lead to

  ghost predicate LeadInto(edges: seq<Edge>, u: set<TypeId>) {
    forall i :: 0 <= i < |edges| ==> edges[i].target in u
  }

  ghost function Universe(t: Registry, aggregates: Aggregates): set<TypeId> {
    AttributeTargets(t) + Elements(t.registered) + Endpoints(aggregates)
  }

  ghost function AttributeTargets(t: Registry): set<TypeId> {
    set tid, i | tid in t.attributes && 0 <= i < |AllAttributeEdges(t, tid)| :: AllAttributeEdges(t, tid)[i].target
  }

  ghost function Endpoints(aggregates: Aggregates): set<TypeId> {
    (set i | 0 <= i < |aggregates| :: aggregates[i].0) + (set i | 0 <= i < |aggregates| :: aggregates[i].1)
  }

  lemma {:induction false} ChildTargets(t: Registry, tid: TypeId, n: nat, u: set<TypeId>)
    requires n <= |t.registered| && Elements(t.registered) <= u
    ensures LeadInto(ChildEdges(t, tid, n), u)
  {
    if n > 0 {
      ChildTargets(t, tid, n - 1, u);
      ElementsMember(t.registered, t.registered[n - 1]);
    }
  }

  lemma {:induction false} AggregateTargets(t: Registry, tid: TypeId, aggregates: Aggregates, n: nat, u: set<TypeId>)
    requires n <= |aggregates| && forall i :: 0 <= i < |aggregates| ==> aggregates[i].0 in u && aggregates[i].1 in u
    ensures LeadInto(AggregateEdges(t, tid, aggregates, n), u)
  {
    if n > 0 {
      AggregateTargets(t, tid, aggregates, n - 1, u);
    }
  }

  lemma {:induction false} AttributeTargetsIn(t: Registry, tid: TypeId, u: set<TypeId>)
    requires AttributeTargets(t) <= u
    ensures LeadInto(AllAttributeEdges(t, tid), u)
  {
    if tid in t.attributes {
      forall i | 0 <= i < |AllAttributeEdges(t, tid)| ensures AllAttributeEdges(t, tid)[i].target in u {
        assert AllAttributeEdges(t, tid)[i].target in AttributeTargets(t);
      }
    }
  }

  lemma {:induction false} TargetsInUniverse(t: Registry, aggregates: Aggregates, tid: TypeId)
    ensures LeadInto(OutEdges(t, aggregates, tid), Universe(t, aggregates))
  {
    var u := Universe(t, aggregates);
    forall i | 0 <= i < |aggregates| ensures aggregates[i].0 in u && aggregates[i].1 in u {
      assert aggregates[i].0 in Endpoints(aggregates) && aggregates[i].1 in Endpoints(aggregates);
    }
    AttributeTargetsIn(t, tid, u);
    ChildTargets(t, tid, |t.registered|, u);
    AggregateTargets(t, tid, aggregates, |aggregates|, u);
  }

  // ----- routes

  /** The edges out of each type. */
  type Out = TypeId -> seq<Edge>

  ghost predicate LeadsInto(out: Out, u: set<TypeId>, tid: TypeId) {
    LeadInto(out(tid), u)
  }

  /** Every edge leads into the finite set `u`. */
  ghost predicate Closed(out: Out, u: set<TypeId>) {
    forall tid {:trigger LeadsInto(out, u, tid)} :: LeadsInto(out, u, tid)
  }

  /** The types a route visits from `tid` on, if all its edge numbers exist. */
  ghost function TypesOn(out: Out, tid: TypeId, route: seq<nat>): seq<TypeId>
    requires IsRoute(out, tid, route)
    decreases |route|, 1
  {
    if route == [] then [tid]
    else [tid] + TypesOn(out, out(tid)[route[0]].target, route[1..])
  }

  ghost predicate IsRoute(out: Out, tid: TypeId, route: seq<nat>)
    decreases |route|, 0
  {
    route != [] ==>
      var edges := out(tid);
      route[0] < |edges| && IsRoute(out, edges[route[0]].target, route[1..])
  }

  /** A route that visits no type twice and none of the types already on the way to `tid`. */
  ghost predicate IsSimpleRoute(out: Out, ancestors: seq<TypeId>, tid: TypeId, route: seq<nat>) {
    IsRoute(out, tid, route) && NoDup(ancestors + TypesOn(out, tid, route))
  }

  /** Depth-first order: a route comes after its prefixes, and edges are followed in their order. */
  ghost predicate Before(a: seq<nat>, b: seq<nat>) {
    b != [] && (a == [] || a[0] < b[0] || (a[0] == b[0] && Before(a[1..], b[1..])))
  }

  ghost function Rank(u: set<TypeId>, ancestors: seq<TypeId>, tid: TypeId): nat {
    |u - Elements(ancestors)| + if tid in u then 0 else 1
  }

  lemma {:induction false} RankDecreases(out: Out, u: set<TypeId>, ancestors: seq<TypeId>, tid: TypeId, i: nat)
    requires Closed(out, u) && tid !in ancestors && i < |out(tid)|
    ensures Rank(u, ancestors + [tid], out(tid)[i].target) < Rank(u, ancestors, tid)
  {
    assert LeadsInto(out, u, tid);
    ElementsSnoc(ancestors, tid);
    ElementsMember(ancestors, tid);
    assert u - Elements(ancestors + [tid]) == u - Elements(ancestors) - {tid};
  }

  ghost function Prefix(i: nat, routes: seq<seq<nat>>): seq<seq<nat>> {
    if routes == [] then [] else Prefix(i, routes[..|routes| - 1]) + [[i] + routes[|routes| - 1]]
  }

  /** The routes that the walk records below `tid`, in order. */
  ghost function Routes(out: Out, u: set<TypeId>, ancestors: seq<TypeId>, tid: TypeId): seq<seq<nat>>
    requires Closed(out, u)
    decreases Rank(u, ancestors, tid), 1, 0
  {
    if tid in ancestors then [] else RoutesUpTo(out, u, ancestors, tid, |out(tid)|)
  }

  /** The same, after the first `k` edges out of `tid`. */
  ghost function RoutesUpTo(out: Out, u: set<TypeId>, ancestors: seq<TypeId>, tid: TypeId, k: nat): seq<seq<nat>>
    requires Closed(out, u) && tid !in ancestors && k <= |out(tid)|
    decreases Rank(u, ancestors, tid), 0, k
  {
    if k == 0 then [[]]
    else
      RankDecreases(out, u, ancestors, tid, k - 1);
      RoutesUpTo(out, u, ancestors, tid, k - 1) +
      Prefix(k - 1, Routes(out, u, ancestors + [tid], out(tid)[k - 1].target))
  }

  lemma {:induction false} PrefixMember(i: nat, routes: seq<seq<nat>>, r: seq<nat>)
    ensures r in Prefix(i, routes) <==> r != [] && r[0] == i && r[1..] in routes
  {
    if routes != [] {
      var n := |routes| - 1;
      PrefixMember(i, routes[..n], r);
      assert routes == routes[..n] + [routes[n]];
      assert ([i] + routes[n])[1..] == routes[n];
      assert r != [] && r[0] == i && r[1..] == routes[n] ==> r == [i] + routes[n];
    }
  }

  lemma {:induction false} RoutesUpToMember(out: Out, u: set<TypeId>, ancestors: seq<TypeId>, tid: TypeId,
                                            k: nat, r: seq<nat>)
    requires Closed(out, u) && tid !in ancestors && k <= |out(tid)|
    ensures r in RoutesUpTo(out, u, ancestors, tid, k) <==>
              r == [] || (r[0] < k && r[1..] in Routes(out, u, ancestors + [tid], out(tid)[r[0]].target))
    decreases k
  {
    if k > 0 {
      RoutesUpToMember(out, u, ancestors, tid, k - 1, r);
      var below := Routes(out, u, ancestors + [tid], out(tid)[k - 1].target);
      PrefixMember(k - 1, below, r);
      assert r in RoutesUpTo(out, u, ancestors, tid, k) <==>
             r in RoutesUpTo(out, u, ancestors, tid, k - 1) || r in Prefix(k - 1, below);
    }
  }

  /** The walk records exactly the routes that visit no type twice. */
  lemma {:induction false} RoutesAreTheSimpleOnes(out: Out, u: set<TypeId>, ancestors: seq<TypeId>,
                                                  tid: TypeId, r: seq<nat>)
    requires Closed(out, u) && NoDup(ancestors)
    ensures r in Routes(out, u, ancestors, tid) <==> IsSimpleRoute(out, ancestors, tid, r)
    decreases |r|
  {
    if tid in ancestors {
      if IsRoute(out, tid, r) {
        RepeatedHead(ancestors, TypesOn(out, tid, r));
      }
    } else {
      var edges := out(tid);
      RoutesUpToMember(out, u, ancestors, tid, |edges|, r);
      NoDupSnoc(ancestors, tid);
      if r != [] && r[0] < |edges| {
        var target := edges[r[0]].target;
        RoutesAreTheSimpleOnes(out, u, ancestors + [tid], target, r[1..]);
        if IsRoute(out, target, r[1..]) {
          var rest := TypesOn(out, target, r[1..]);
          assert ancestors + ([tid] + rest) == ancestors + [tid] + rest;
        }
      }
    }
  }

  lemma {:induction false} RepeatedHead(ancestors: seq<TypeId>, types: seq<TypeId>)
    requires types != [] && types[0] in ancestors
    ensures !NoDup(ancestors + types)
  {
    var i :| 0 <= i < |ancestors| && ancestors[i] == types[0];
    assert (ancestors + types)[i] == (ancestors + types)[|ancestors|];
  }

  // ----- order

  ghost predicate AllBefore(routes: seq<seq<nat>>, r: seq<nat>) {
    forall i :: 0 <= i < |routes| ==> Before(routes[i], r)
  }

  ghost predicate InOrder(routes: seq<seq<nat>>) {
    routes == [] || (InOrder(routes[..|routes| - 1]) && AllBefore(routes[..|routes| - 1], routes[|routes| - 1]))
  }

  lemma {:induction false} InOrderAt(routes: seq<seq<nat>>, i: nat, j: nat)
    requires InOrder(routes) && i < j < |routes|
    ensures Before(routes[i], routes[j])
  {
    var n := |routes| - 1;
    if j < n {
      InOrderAt(routes[..n], i, j);
    } else {
      assert routes[..n][i] == routes[i];
    }
  }

  lemma {:induction false} BeforeIsStrict(a: seq<nat>)
    ensures !Before(a, a)
  {
    if a != [] {
      BeforeIsStrict(a[1..]);
    }
  }

  ghost predicate AllStartBelow(routes: seq<seq<nat>>, k: nat) {
    forall a :: 0 <= a < |routes| ==> routes[a] == [] || routes[a][0] < k
  }

  lemma {:induction false} StartBelow(out: Out, u: set<TypeId>, ancestors: seq<TypeId>, tid: TypeId, k: nat)
    requires Closed(out, u) && tid !in ancestors && k <= |out(tid)|
    ensures AllStartBelow(RoutesUpTo(out, u, ancestors, tid, k), k)
  {
    var routes := RoutesUpTo(out, u, ancestors, tid, k);
    forall a | 0 <= a < |routes| ensures routes[a] == [] || routes[a][0] < k {
      assert routes[a] in routes;
      RoutesUpToMember(out, u, ancestors, tid, k, routes[a]);
    }
  }

  lemma {:induction false} AddEdgeInOrder(out: Out, u: set<TypeId>, ancestors: seq<TypeId>, tid: TypeId, k: nat)
    requires Closed(out, u) && tid !in ancestors && k < |out(tid)|
    requires InOrder(RoutesUpTo(out, u, ancestors, tid, k))
    requires InOrder(Routes(out, u, ancestors + [tid], out(tid)[k].target))
    ensures InOrder(RoutesUpTo(out, u, ancestors, tid, k + 1))
  {
    var left := RoutesUpTo(out, u, ancestors, tid, k);
    var below := Routes(out, u, ancestors + [tid], out(tid)[k].target);
    StartBelow(out, u, ancestors, tid, k);
    OneEdgeAfterAnother(left, k, below);
    assert RoutesUpTo(out, u, ancestors, tid, k + 1) == left + Prefix(k, below);
  }

  lemma {:induction false} OneEdgeAfterAnother(left: seq<seq<nat>>, k: nat, below: seq<seq<nat>>)
    requires InOrder(left) && AllStartBelow(left, k) && InOrder(below)
    ensures InOrder(left + Prefix(k, below))
    decreases |below|
  {
    if below == [] {
      assert left + [] == left;
    } else {
      var n := |below| - 1;
      OneEdgeAfterAnother(left, k, below[..n]);
      var before, r := left + Prefix(k, below[..n]), [k] + below[n];
      assert left + Prefix(k, below) == before + [r];
      assert (before + [r])[..|before|] == before;
      AllBeforeNext(left, k, below[..n], below[n]);
    }
  }

  lemma {:induction false} PrefixIs(k: nat, routes: seq<seq<nat>>)
    ensures |Prefix(k, routes)| == |routes|
    ensures forall i :: 0 <= i < |routes| ==> Prefix(k, routes)[i] == [k] + routes[i]
  {
    if routes != [] {
      PrefixIs(k, routes[..|routes| - 1]);
    }
  }

  lemma {:induction false} AllBeforeNext(left: seq<seq<nat>>, k: nat, routes: seq<seq<nat>>, r: seq<nat>)
    requires AllStartBelow(left, k) && AllBefore(routes, r)
    ensures AllBefore(left + Prefix(k, routes), [k] + r)
  {
    PrefixIs(k, routes);
    var all := left + Prefix(k, routes);
    forall i | 0 <= i < |all| ensures Before(all[i], [k] + r) {
      assert ([k] + r)[1..] == r;
      if i >= |left| {
        var j := i - |left|;
        assert all[i] == [k] + routes[j] && ([k] + routes[j])[1..] == routes[j];
      } else {
        assert all[i] == left[i];
      }
    }
  }

  /** The routes are recorded in depth-first order, so none is recorded twice. */
  lemma {:induction false} RoutesInOrder(out: Out, u: set<TypeId>, ancestors: seq<TypeId>, tid: TypeId)
    requires Closed(out, u)
    ensures InOrder(Routes(out, u, ancestors, tid))
    decreases Rank(u, ancestors, tid)
  {
    if tid !in ancestors {
      for k := 0 to |out(tid)|
        invariant InOrder(RoutesUpTo(out, u, ancestors, tid, k))
      {
        RoutesBelowInOrder(out, u, ancestors, tid, k);
        AddEdgeInOrder(out, u, ancestors, tid, k);
      }
    }
  }

  lemma {:induction false} RoutesBelowInOrder(out: Out, u: set<TypeId>, ancestors: seq<TypeId>, tid: TypeId, k: nat)
    requires Closed(out, u) && tid !in ancestors && k < |out(tid)|
    ensures InOrder(Routes(out, u, ancestors + [tid], out(tid)[k].target))
    decreases Rank(u, ancestors, tid), 0
  {
    RankDecreases(out, u, ancestors, tid, k);
    RoutesInOrder(out, u, ancestors + [tid], out(tid)[k].target);
  }

  // ----- what is recorded for a route

  ghost function Join(path: seq<string>): string {
    if path == [] then "" else Join(path[..|path| - 1]) + "/" + path[|path| - 1]
  }

  /** The type at the end of a route and the configuration path that leads to it. */
  ghost function Entry(out: Out, path: seq<string>, tid: TypeId, route: seq<nat>): (TypeId, string)
    decreases |route|
  {
    var edges := out(tid);
    if route == [] || route[0] >= |edges| then (tid, Join(path))
    else Entry(out, path + [edges[route[0]].name], edges[route[0]].target, route[1..])
  }

  ghost function Record(out: Out, path: seq<string>, tid: TypeId, routes: seq<seq<nat>>)
    : seq<(TypeId, string)>
  {
    if routes == [] then []
    else Record(out, path, tid, routes[..|routes| - 1]) + [Entry(out, path, tid, routes[|routes| - 1])]
  }

  lemma {:induction false} RecordAppend(out: Out, path: seq<string>, tid: TypeId,
                                        a: seq<seq<nat>>, b: seq<seq<nat>>)
    ensures Record(out, path, tid, a + b) ==
            Record(out, path, tid, a) + Record(out, path, tid, b)
  {
    if b == [] {
      assert a + b == a;
    } else {
      var n := |b| - 1;
      RecordAppend(out, path, tid, a, b[..n]);
      assert (a + b)[..|a + b| - 1] == a + b[..n];
    }
  }

  lemma {:induction false} RecordPrefix(out: Out, path: seq<string>, tid: TypeId, i: nat,
                                        routes: seq<seq<nat>>)
    requires i < |out(tid)|
    ensures var e := out(tid)[i];
            Record(out, path, tid, Prefix(i, routes)) == Record(out, path + [e.name], e.target, routes)
  {
    if routes != [] {
      var n := |routes| - 1;
      RecordPrefix(out, path, tid, i, routes[..n]);
      var pre := Prefix(i, routes[..n]);
      assert (pre + [[i] + routes[n]])[..|pre|] == pre;
      assert ([i] + routes[n])[1..] == routes[n];
    }
  }

  // ----- position of an edge among all those of a type

  lemma {:induction false} AttributeEdgesGrow(t: Registry, tid: TypeId, i: nat, n: nat)
    requires i <= n <= |t.AttributesOf(tid)|
    ensures AttributeEdges(t, tid, i) <= AttributeEdges(t, tid, n)
    decreases n
  {
    if i < n {
      AttributeEdgesGrow(t, tid, i, n - 1);
    }
  }

  lemma {:induction false} ChildEdgesGrow(t: Registry, tid: TypeId, i: nat, n: nat)
    requires i <= n <= |t.registered|
    ensures ChildEdges(t, tid, i) <= ChildEdges(t, tid, n)
    decreases n
  {
    if i < n {
      ChildEdgesGrow(t, tid, i, n - 1);
    }
  }

  lemma {:induction false} AggregateEdgesGrow(t: Registry, tid: TypeId, aggregates: Aggregates, i: nat, n: nat)
    requires i <= n <= |aggregates|
    ensures AggregateEdges(t, tid, aggregates, i) <= AggregateEdges(t, tid, aggregates, n)
    decreases n
  {
    if i < n {
      AggregateEdgesGrow(t, tid, aggregates, i, n - 1);
    }
  }

  /** `e`, which holds the edge found at this point if there is one, comes at position `k` among all the edges. */
  ghost predicate ComesAt(edges: seq<Edge>, e: seq<Edge>, k: nat) {
    e != [] ==> k < |edges| && edges[k] == e[0]
  }

  // How many edges come before those of attribute `i`, of registered type `j` and of aggregation `i`.

  ghost function AttributesEnd(t: Registry, tid: TypeId, i: nat): nat
    requires i <= |t.AttributesOf(tid)|
  {
    if i == 0 then 0 else AttributesEnd(t, tid, i - 1) + |AttributeEdge(t, t.AttributesOf(tid)[i - 1])|
  }

  ghost function ChildrenEnd(t: Registry, tid: TypeId, j: nat): nat
    requires j <= |t.registered|
  {
    if j == 0 then AttributesEnd(t, tid, |t.AttributesOf(tid)|)
    else ChildrenEnd(t, tid, j - 1) + |ChildEdge(t, tid, t.registered[j - 1])|
  }

  ghost function AggregatesEnd(t: Registry, aggregates: Aggregates, tid: TypeId, i: nat): nat
    requires i <= |aggregates|
  {
    if i == 0 then ChildrenEnd(t, tid, |t.registered|)
    else AggregatesEnd(t, aggregates, tid, i - 1) + |AggregateEdge(t, tid, aggregates[i - 1])|
  }

  lemma {:induction false} AttributesEndIs(t: Registry, tid: TypeId, i: nat)
    requires i <= |t.AttributesOf(tid)|
    ensures AttributesEnd(t, tid, i) == |AttributeEdges(t, tid, i)|
  {
    if i > 0 {
      AttributesEndIs(t, tid, i - 1);
    }
  }

  lemma {:induction false} ChildrenEndIs(t: Registry, tid: TypeId, j: nat)
    requires j <= |t.registered|
    ensures ChildrenEnd(t, tid, j) == |AllAttributeEdges(t, tid)| + |ChildEdges(t, tid, j)|
  {
    if j > 0 {
      ChildrenEndIs(t, tid, j - 1);
    } else {
      AttributesEndIs(t, tid, |t.AttributesOf(tid)|);
    }
  }

  lemma {:induction false} AggregatesEndIs(t: Registry, aggregates: Aggregates, tid: TypeId, i: nat)
    requires i <= |aggregates|
    ensures AggregatesEnd(t, aggregates, tid, i) ==
            |AllAttributeEdges(t, tid)| + |AllChildEdges(t, tid)| + |AggregateEdges(t, tid, aggregates, i)|
  {
    if i > 0 {
      AggregatesEndIs(t, aggregates, tid, i - 1);
    } else {
      ChildrenEndIs(t, tid, |t.registered|);
    }
  }

  lemma {:induction false} AttributePosition(t: Registry, aggregates: Aggregates, tid: TypeId, i: nat)
    requires i < |t.AttributesOf(tid)|
    ensures ComesAt(OutEdges(t, aggregates, tid), AttributeEdge(t, t.AttributesOf(tid)[i]), AttributesEnd(t, tid, i))
  {
    AttributesEndIs(t, tid, i);
    AttributeEdgesGrow(t, tid, i + 1, |t.AttributesOf(tid)|);
  }

  lemma {:induction false} ChildPosition(t: Registry, aggregates: Aggregates, tid: TypeId, j: nat)
    requires j < |t.registered|
    ensures ComesAt(OutEdges(t, aggregates, tid), ChildEdge(t, tid, t.registered[j]), ChildrenEnd(t, tid, j))
  {
    ChildrenEndIs(t, tid, j);
    ChildEdgesGrow(t, tid, j + 1, |t.registered|);
  }

  lemma {:induction false} AggregatePosition(t: Registry, aggregates: Aggregates, tid: TypeId, i: nat)
    requires i < |aggregates|
    ensures ComesAt(OutEdges(t, aggregates, tid), AggregateEdge(t, tid, aggregates[i]),
                    AggregatesEnd(t, aggregates, tid, i))
  {
    AggregatesEndIs(t, aggregates, tid, i);
    AggregateEdgesGrow(t, tid, aggregates, i + 1, |aggregates|);
  }

  /** What the walk has recorded below `tid` once it has followed the first `k` edges. */
  ghost function Gathered(out: Out, u: set<TypeId>, path: seq<string>, ancestors: seq<TypeId>, tid: TypeId, k: nat)
    : seq<(TypeId, string)>
  {
    if Closed(out, u) && tid !in ancestors && k <= |out(tid)| then
      Record(out, path, tid, RoutesUpTo(out, u, ancestors, tid, k))
    else []
  }

  lemma {:induction false} GatheredFirst(out: Out, u: set<TypeId>, path: seq<string>, ancestors: seq<TypeId>,
                                         tid: TypeId)
    requires Closed(out, u) && tid !in ancestors
    ensures Gathered(out, u, path, ancestors, tid, 0) == [(tid, Join(path))]
  {
    var first: seq<seq<nat>> := [[]];
    assert first[..0] == [];
    assert Record(out, path, tid, first) == Record(out, path, tid, []) + [(tid, Join(path))];
  }

  lemma {:induction false} GatheredMore(out: Out, u: set<TypeId>, path: seq<string>, ancestors: seq<TypeId>,
                                        tid: TypeId, k: nat)
    requires Closed(out, u) && tid !in ancestors && k < |out(tid)|
    ensures var e := out(tid)[k];
            Gathered(out, u, path, ancestors, tid, k + 1) ==
            Gathered(out, u, path, ancestors, tid, k) +
            Record(out, path + [e.name], e.target, Routes(out, u, ancestors + [tid], e.target))
  {
    var below := Routes(out, u, ancestors + [tid], out(tid)[k].target);
    RecordAppend(out, path, tid, RoutesUpTo(out, u, ancestors, tid, k), Prefix(k, below));
    RecordPrefix(out, path, tid, k, below);
  }

  lemma {:induction false} GatheredStep(out: Out, u: set<TypeId>, path: seq<string>, ancestors: seq<TypeId>,
                                        tid: TypeId, k: nat, base: seq<(TypeId, string)>)
    requires Closed(out, u) && tid !in ancestors && k < |out(tid)|
    ensures var e := out(tid)[k];
            base + Gathered(out, u, path, ancestors, tid, k + 1) ==
            base + Gathered(out, u, path, ancestors, tid, k) +
            Record(out, path + [e.name], e.target, Routes(out, u, ancestors + [tid], e.target))
  {
    GatheredMore(out, u, path, ancestors, tid, k);
    var e := out(tid)[k];
    Regroup(base, Gathered(out, u, path, ancestors, tid, k),
            Record(out, path + [e.name], e.target, Routes(out, u, ancestors + [tid], e.target)));
  }

  lemma {:induction false} Regroup<T>(a: seq<T>, b: seq<T>, c: seq<T>)
    ensures a + (b + c) == a + b + c
  {
  }

  ghost predicate Agrees(t: Registry, aggregates: Aggregates, out: Out, tid: TypeId) {
    out(tid) == OutEdges(t, aggregates, tid)
  }

  ghost function EdgesIn(t: Registry, aggregates: Aggregates): Out {
    tid => OutEdges(t, aggregates, tid)
  }

  lemma {:induction false} GraphIsClosed(t: Registry, aggregates: Aggregates)
    ensures Closed(EdgesIn(t, aggregates), Universe(t, aggregates))
  {
    var out, u := EdgesIn(t, aggregates), Universe(t, aggregates);
    forall tid ensures LeadsInto(out, u, tid) {
      TargetsInUniverse(t, aggregates, tid);
    }
  }

  /**
    One activation of the walk: the graph, the type being recorded, the stacks on entry, and what the
    output holds after each number of edges.
   */
  datatype Frame = Frame(out: Out, u: set<TypeId>, tid: TypeId, path: seq<string>, ancestors: seq<TypeId>,
                         after: nat -> seq<(TypeId, string)>)

  ghost predicate AddsBelow(f: Frame, k: nat)
    requires Closed(f.out, f.u)
  {
    k < |f.out(f.tid)| ==>
      var e := f.out(f.tid)[k];
      f.after(k + 1) == f.after(k) + Record(f.out, f.path + [e.name], e.target,
                                            Routes(f.out, f.u, f.ancestors + [f.tid], e.target))
  }

  ghost predicate IsFrame(f: Frame) {
    && Closed(f.out, f.u) && f.tid !in f.ancestors && |f.path| == |f.ancestors| && NoDup(f.ancestors)
    && (forall k: nat {:trigger AddsBelow(f, k)} :: AddsBelow(f, k))
  }

  /** The frame of a call for `tid` that starts with the output `base`. */
  lemma {:induction false} NewFrame(out: Out, u: set<TypeId>, tid: TypeId, path: seq<string>, ancestors: seq<TypeId>,
                                    base: seq<(TypeId, string)>) returns (f: Frame)
    requires Closed(out, u) && tid !in ancestors && |path| == |ancestors| && NoDup(ancestors)
    ensures f.out == out && f.u == u && f.tid == tid && f.path == path && f.ancestors == ancestors && IsFrame(f)
    ensures f.after(0) == base + [(tid, Join(path))]
    ensures f.after(|out(tid)|) == base + Record(out, path, tid, Routes(out, u, ancestors, tid))
  {
    f := FrameOf(out, u, tid, path, ancestors, base);
    GatheredFirst(out, u, path, ancestors, tid);
    forall k: nat ensures AddsBelow(f, k) {
      FrameStep(out, u, tid, path, ancestors, base, k);
    }
  }

  ghost function FrameOf(out: Out, u: set<TypeId>, tid: TypeId, path: seq<string>, ancestors: seq<TypeId>,
                         base: seq<(TypeId, string)>): Frame {
    Frame(out, u, tid, path, ancestors, (k: nat) => base + Gathered(out, u, path, ancestors, tid, k))
  }

  lemma {:induction false} FrameStep(out: Out, u: set<TypeId>, tid: TypeId, path: seq<string>, ancestors: seq<TypeId>,
                                     base: seq<(TypeId, string)>, k: nat)
    requires Closed(out, u) && tid !in ancestors
    ensures AddsBelow(FrameOf(out, u, tid, path, ancestors, base), k)
  {
    if k < |out(tid)| {
      GatheredStep(out, u, path, ancestors, tid, k, base);
    }
  }

  // ----- the walk itself

  class StaticInformation {
    const types: Registry
    var aggregates: Aggregates
    var output: seq<(TypeId, string)>
    var currentPath: seq<string>
    var alreadyProcessed: seq<TypeId>
    var noTids: seq<string>

    constructor (types: Registry)
      ensures this.types == types && aggregates == [] && output == [] && currentPath == [] && alreadyProcessed == []
      ensures noTids == []
    {
      this.types := types;
      aggregates, output, currentPath, alreadyProcessed, noTids := [], [], [], [], [];
    }

    /** The two stacks have the same height and no type is on the path twice. */
    ghost predicate Valid()
      reads this
    {
      |currentPath| == |alreadyProcessed| && NoDup(alreadyProcessed)
    }

    /** `out` and `u` are the type graph as the registry and the aggregations give it. */
    ghost predicate IsGraph(out: Out, u: set<TypeId>)
      reads this
    {
      Closed(out, u) && forall tid {:trigger Agrees(types, aggregates, out, tid)} :: Agrees(types, aggregates, out, tid)
    }

    /** The stacks are as they were on entry, and the first `k` edges have been followed. */
    ghost predicate HasFollowed(f: Frame, k: nat)
      reads this
    {
      currentPath == f.path && alreadyProcessed == f.ancestors && output == f.after(k)
    }

    method GetCurrentPath() returns (s: string)
      ensures s == Join(currentPath)
    {
      s := "";
      for i := 0 to |currentPath|
        invariant s == Join(currentPath[..i])
      {
        s := s + "/" + currentPath[i];
        assert currentPath[..i + 1][..i] == currentPath[..i];
      }
      assert currentPath[..|currentPath|] == currentPath;
    }

    method HasAlreadyBeenProcessed(tid: TypeId) returns (found: bool)
      ensures found <==> tid in alreadyProcessed
    {
      for i := 0 to |alreadyProcessed|
        invariant tid !in alreadyProcessed[..i]
      {
        if alreadyProcessed[i] == tid {
          return true;
        }
      }
      return false;
    }

    method RecordOutput(tid: TypeId)
      modifies this`output
      ensures output == old(output) + [(tid, Join(currentPath))]
    {
      var path := GetCurrentPath();
      output := output + [(tid, path)];
    }

    /** Push, recurse, pop: the recursive call for the edge number `k` of the frame. */
    method Descend(ghost f: Frame, tid: TypeId, name: string, target: TypeId, ghost k: nat)
      requires IsGraph(f.out, f.u) && IsFrame(f) && tid == f.tid && HasFollowed(f, k)
      requires k < |f.out(tid)| && f.out(tid)[k] == Edge(name, target)
      modifies this`output, this`currentPath, this`alreadyProcessed
      ensures HasFollowed(f, k + 1)
      decreases Rank(f.u, f.ancestors, f.tid), 0
    {
      assert AddsBelow(f, k);
      RankDecreases(f.out, f.u, f.ancestors, tid, k);
      currentPath := currentPath + [name];
      alreadyProcessed := alreadyProcessed + [tid];
      DoGather(f.out, f.u, target);
      alreadyProcessed := alreadyProcessed[..|alreadyProcessed| - 1];
      currentPath := currentPath[..|currentPath| - 1];
      assert alreadyProcessed == f.ancestors && currentPath == f.path;
    }

    /** Records `tid` and everything below it, unless it is already on the path. */
    method DoGather(ghost out: Out, ghost u: set<TypeId>, tid: TypeId)
      requires Valid() && IsGraph(out, u)
      modifies this`output, this`currentPath, this`alreadyProcessed
      ensures Valid() && currentPath == old(currentPath) && alreadyProcessed == old(alreadyProcessed)
      ensures output == old(output) + Record(out, currentPath, tid, Routes(out, u, alreadyProcessed, tid))
      decreases Rank(u, alreadyProcessed, tid), 3
    {
      var processed := HasAlreadyBeenProcessed(tid);
      if processed {
        return;
      }
      ghost var f := NewFrame(out, u, tid, currentPath, alreadyProcessed, output);
      RecordOutput(tid);
      FollowAttributes(f, tid);
      FollowChildren(f, tid);
      FollowAggregates(f, tid);
    }

    /** One attribute of the type. */
    method FollowAttribute(ghost f: Frame, tid: TypeId, a: Attribute, ghost k: nat) returns (ghost next: nat)
      requires IsGraph(f.out, f.u) && IsFrame(f) && tid == f.tid && HasFollowed(f, k)
      requires ComesAt(f.out(tid), AttributeEdge(types, a), k)
      modifies this`output, this`currentPath, this`alreadyProcessed
      ensures next == k + |AttributeEdge(types, a)| && HasFollowed(f, next)
      decreases Rank(f.u, f.ancestors, f.tid), 1
    {
      next := k;
      match a.kind {
        case Pointer(pointee) =>
          if pointee == types.objectType {
            return;
          }
          next := k + 1;
          Descend(f, tid, a.name, pointee, k);
        case Container(item) =>
          next := k + 1;
          Descend(f, tid, a.name + "/[i]", item, k);
        case Plain =>
      }
    }

    /** One registered type, if it derives from this one. */
    method FollowChild(ghost f: Frame, tid: TypeId, child: TypeId, ghost k: nat) returns (ghost next: nat)
      requires IsGraph(f.out, f.u) && IsFrame(f) && tid == f.tid && HasFollowed(f, k)
      requires ComesAt(f.out(tid), ChildEdge(types, tid, child), k)
      modifies this`output, this`currentPath, this`alreadyProcessed
      ensures next == k + |ChildEdge(types, tid, child)| && HasFollowed(f, next)
      decreases Rank(f.u, f.ancestors, f.tid), 1
    {
      next := k;
      if (child, tid) in types.childOf {
        next := k + 1;
        Descend(f, tid, "$" + types.NameOf(child), child, k);
      }
    }

    /** One aggregation, if the type takes part in it. */
    method FollowAggregate(ghost f: Frame, tid: TypeId, item: (TypeId, TypeId), ghost k: nat) returns (ghost next: nat)
      requires IsGraph(f.out, f.u) && IsFrame(f) && tid == f.tid && HasFollowed(f, k)
      requires ComesAt(f.out(tid), AggregateEdge(types, tid, item), k)
      modifies this`output, this`currentPath, this`alreadyProcessed
      ensures next == k + |AggregateEdge(types, tid, item)| && HasFollowed(f, next)
      decreases Rank(f.u, f.ancestors, f.tid), 1
    {
      next := k;
      if item.0 == tid || item.1 == tid {
        next := k + 1;
        var other := if item.1 == tid then item.0 else item.1;
        Descend(f, tid, "$" + types.NameOf(other), other, k);
      }
    }

    /** The loop over the attributes. */
    method FollowAttributes(ghost f: Frame, tid: TypeId)
      requires IsGraph(f.out, f.u) && IsFrame(f) && tid == f.tid && HasFollowed(f, 0)
      modifies this`output, this`currentPath, this`alreadyProcessed
      ensures HasFollowed(f, AttributesEnd(types, tid, |types.AttributesOf(tid)|))
      decreases Rank(f.u, f.ancestors, f.tid), 2
    {
      var attributes := types.AttributesOf(tid);
      ghost var k := 0;
      for i := 0 to |attributes|
        invariant k == AttributesEnd(types, tid, i) && HasFollowed(f, k)
      {
        NextAttribute(f, tid, i);
        k := FollowAttribute(f, tid, attributes[i], k);
      }
    }

    /** The loop over the registered types. */
    method FollowChildren(ghost f: Frame, tid: TypeId)
      requires IsGraph(f.out, f.u) && IsFrame(f) && tid == f.tid
      requires HasFollowed(f, AttributesEnd(types, tid, |types.AttributesOf(tid)|))
      modifies this`output, this`currentPath, this`alreadyProcessed
      ensures HasFollowed(f, ChildrenEnd(types, tid, |types.registered|))
      decreases Rank(f.u, f.ancestors, f.tid), 2
    {
      ghost var k := AttributesEnd(types, tid, |types.AttributesOf(tid)|);
      for j := 0 to |types.registered|
        invariant k == ChildrenEnd(types, tid, j) && HasFollowed(f, k)
      {
        NextChild(f, tid, j);
        k := FollowChild(f, tid, types.registered[j], k);
      }
    }

    /** The loop over the aggregations. */
    method FollowAggregates(ghost f: Frame, tid: TypeId)
      requires IsGraph(f.out, f.u) && IsFrame(f) && tid == f.tid
      requires HasFollowed(f, ChildrenEnd(types, tid, |types.registered|))
      modifies this`output, this`currentPath, this`alreadyProcessed
      ensures HasFollowed(f, |f.out(tid)|)
      decreases Rank(f.u, f.ancestors, f.tid), 2
    {
      var items := aggregates;
      ghost var k := ChildrenEnd(types, tid, |types.registered|);
      for i := 0 to |items|
        invariant k == AggregatesEnd(types, items, tid, i) && HasFollowed(f, k)
      {
        NextAggregate(f, tid, i);
        k := FollowAggregate(f, tid, items[i], k);
      }
      NoMoreEdges(f, tid);
    }

    lemma {:induction false} NextAttribute(f: Frame, tid: TypeId, i: nat)
      requires IsGraph(f.out, f.u) && i < |types.AttributesOf(tid)|
      ensures ComesAt(f.out(tid), AttributeEdge(types, types.AttributesOf(tid)[i]), AttributesEnd(types, tid, i))
    {
      assert Agrees(types, aggregates, f.out, tid);
      AttributePosition(types, aggregates, tid, i);
    }

    lemma {:induction false} NextChild(f: Frame, tid: TypeId, j: nat)
      requires IsGraph(f.out, f.u) && j < |types.registered|
      ensures ComesAt(f.out(tid), ChildEdge(types, tid, types.registered[j]), ChildrenEnd(types, tid, j))
    {
      assert Agrees(types, aggregates, f.out, tid);
      ChildPosition(types, aggregates, tid, j);
    }

    lemma {:induction false} NextAggregate(f: Frame, tid: TypeId, i: nat)
      requires IsGraph(f.out, f.u) && i < |aggregates|
      ensures ComesAt(f.out(tid), AggregateEdge(types, tid, aggregates[i]), AggregatesEnd(types, aggregates, tid, i))
    {
      assert Agrees(types, aggregates, f.out, tid);
      AggregatePosition(types, aggregates, tid, i);
    }

    lemma {:induction false} NoMoreEdges(f: Frame, tid: TypeId)
      requires IsGraph(f.out, f.u)
      ensures |f.out(tid)| == AggregatesEnd(types, aggregates, tid, |aggregates|)
    {
      assert Agrees(types, aggregates, f.out, tid);
      AggregatesEndIs(types, aggregates, tid, |aggregates|);
    }

    /** Gathers from a root. The deduplication that follows works on a copy and changes nothing. */
    method Gather(tid: TypeId)
      requires currentPath == [] && alreadyProcessed == []
      modifies this`output, this`currentPath, this`alreadyProcessed
      ensures currentPath == [] && alreadyProcessed == []
      ensures IsGraph(EdgesIn(types, aggregates), Universe(types, aggregates))
      ensures output == old(output) + Record(EdgesIn(types, aggregates), [], tid,
                Routes(EdgesIn(types, aggregates), Universe(types, aggregates), [], tid))
    {
      GraphIsClosed(types, aggregates);
      assert forall x :: Agrees(types, aggregates, EdgesIn(types, aggregates), x);
      DoGather(EdgesIn(types, aggregates), Universe(types, aggregates), tid);
    }

    /** Both names are looked up; the first one that is not found is kept in a list of its own. */
    method RecordAggregationInfo(a: string, b: string)
      modifies this`aggregates, this`noTids
      ensures types.Lookup(a).None? ==> aggregates == old(aggregates) && noTids == old(noTids) + [a]
      ensures types.Lookup(a).Some? && types.Lookup(b).None? ==>
                aggregates == old(aggregates) && noTids == old(noTids) + [b]
      ensures types.Lookup(a).Some? && types.Lookup(b).Some? ==>
                && aggregates == old(aggregates) + [(types.Lookup(a).value, types.Lookup(b).value)]
                && noTids == old(noTids)
    {
      var aTid := types.Lookup(a);
      if aTid.None? {
        noTids := noTids + [a];
        return;
      }
      var bTid := types.Lookup(b);
      if bTid.None? {
        noTids := noTids + [b];
        return;
      }
      aggregates := aggregates + [(aTid.value, bTid.value)];
    }

    /** The paths recorded for a type, in the order they were recorded. */
    method Get(tid: TypeId) returns (paths: seq<string>)
      ensures paths == PathsFor(output, tid)
    {
      paths := [];
      for i := 0 to |output|
        invariant paths == PathsFor(output[..i], tid)
      {
        assert output[..i + 1][..i] == output[..i];
        if output[i].0 == tid {
          paths := paths + [output[i].1];
        }
      }
      assert output[..|output|] == output;
    }
  }

  ghost function PathsFor(output: seq<(TypeId, string)>, tid: TypeId): seq<string> {
    if output == [] then []
    else
      var (type', path) := output[|output| - 1];
      PathsFor(output[..|output| - 1], tid) + if type' == tid then [path] else []
  }

  /** A path is offered for a type exactly when some simple route ends at that type with that path. */
  lemma {:induction false} PathsAreTheSimpleRoutes(out: Out, u: set<TypeId>, root: TypeId, tid: TypeId, p: string)
    requires Closed(out, u)
    ensures p in PathsFor(Record(out, [], root, Routes(out, u, [], root)), tid) <==>
            exists r :: IsSimpleRoute(out, [], root, r) && Entry(out, [], root, r) == (tid, p)
  {
    var routes := Routes(out, u, [], root);
    RecordedPath(out, root, routes, tid, p);
    if r :| r in routes && Entry(out, [], root, r) == (tid, p) {
      RoutesAreTheSimpleOnes(out, u, [], root, r);
    }
    if r :| IsSimpleRoute(out, [], root, r) && Entry(out, [], root, r) == (tid, p) {
      RoutesAreTheSimpleOnes(out, u, [], root, r);
    }
  }

  lemma {:induction false} RecordedPath(out: Out, root: TypeId, routes: seq<seq<nat>>,
                                        tid: TypeId, p: string)
    ensures p in PathsFor(Record(out, [], root, routes), tid) <==>
            exists r :: r in routes && Entry(out, [], root, r) == (tid, p)
  {
    if routes != [] {
      var n := |routes| - 1;
      RecordedPath(out, root, routes[..n], tid, p);
      assert routes == routes[..n] + [routes[n]];
      var before := Record(out, [], root, routes[..n]);
      var entry := Entry(out, [], root, routes[n]);
      assert (before + [entry])[..|before|] == before;
      if r :| r in routes && Entry(out, [], root, r) == (tid, p) {
        assert r in routes[..n] || r == routes[n];
      }
      if entry == (tid, p) {
        assert routes[n] in routes;
      }
    }
  }
}
