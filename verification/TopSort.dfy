/**
  Dependency sorting: Kahn's algorithm over a list of (parent, child) pairs. It is specified by way of
  longest-path depth, which it does not compute.
 */
module TopSort {
  import opened Sequences
  import opened Graphs

  type Pairs = seq<(Node, Node)>

  ghost function EdgeSet(pairs: Pairs): Graph {
    if pairs == [] then {} else EdgeSet(pairs[..|pairs| - 1]) + {pairs[|pairs| - 1]}
  }

  ghost function NodesOf(pairs: Pairs): set<Node> {
    if pairs == [] then {}
    else
      var (parent, child) := pairs[|pairs| - 1];
      NodesOf(pairs[..|pairs| - 1]) + {parent, child}
  }

  /** How many pairs lead to `x` from a parent in `live`, repetitions included. */
  ghost function CountInto(pairs: Pairs, x: Node, live: set<Node>): nat {
    if pairs == [] then 0
    else
      var (parent, child) := pairs[|pairs| - 1];
      CountInto(pairs[..|pairs| - 1], x, live) + if child == x && parent in live then 1 else 0
  }

  /** The children listed for `p`, in order, repetitions included. */
  ghost function ChildrenOf(pairs: Pairs, p: Node): seq<Node> {
    if pairs == [] then []
    else
      var (parent, child) := pairs[|pairs| - 1];
      ChildrenOf(pairs[..|pairs| - 1], p) + if parent == p then [child] else []
  }

  /** `numParents` counts, for every item, the pairs that come from an item still present. */
  ghost predicate Counts(pairs: Pairs, numParents: map<Node, nat>) {
    forall x :: x in numParents ==> numParents[x] == CountInto(pairs, x, numParents.Keys)
  }

  ghost predicate ListsChildren(pairs: Pairs, children: map<Node, seq<Node>>) {
    && (forall p :: p in children ==> children[p] == ChildrenOf(pairs, p))
    && (forall p :: p !in children ==> ChildrenOf(pairs, p) == [])
  }

  /** The two dictionaries together describe the items and their dependencies. */
  ghost predicate Describes(pairs: Pairs, numParents: map<Node, nat>, children: map<Node, seq<Node>>) {
    NodesOf(pairs) <= numParents.Keys && Counts(pairs, numParents) && ListsChildren(pairs, children)
  }

  // ----- counting lemmas

  lemma {:induction false} EdgeSetMember(pairs: Pairs, e: (Node, Node))
    ensures e in EdgeSet(pairs) <==> e in pairs
  {
    if pairs != [] {
      var n := |pairs| - 1;
      EdgeSetMember(pairs[..n], e);
      assert pairs == pairs[..n] + [pairs[n]];
    }
  }

  lemma {:induction false} CountIntoPositive(pairs: Pairs, x: Node, live: set<Node>)
    ensures CountInto(pairs, x, live) > 0 <==> HasParentIn(EdgeSet(pairs), live, x)
  {
    if pairs != [] {
      var n := |pairs| - 1;
      CountIntoPositive(pairs[..n], x, live);
      if CountInto(pairs[..n], x, live) > 0 {
        var p :| p in live && (p, x) in EdgeSet(pairs[..n]);
        assert (p, x) in EdgeSet(pairs);
      }
      if pairs[n].1 == x && pairs[n].0 in live {
        assert (pairs[n].0, x) in EdgeSet(pairs);
      }
    }
  }

  lemma {:induction false} ChildrenOfMember(pairs: Pairs, p: Node, c: Node)
    ensures c in ChildrenOf(pairs, p) <==> (p, c) in EdgeSet(pairs)
  {
    if pairs != [] {
      var n := |pairs| - 1;
      ChildrenOfMember(pairs[..n], p, c);
      var earlier := ChildrenOf(pairs[..n], p);
      assert ChildrenOf(pairs, p) == earlier + if pairs[n].0 == p then [pairs[n].1] else [];
      assert pairs[n] == (p, c) <==> pairs[n].0 == p && pairs[n].1 == c;
    }
  }

  /** Removing one parent takes away exactly its own listings of `x`. */
  lemma {:induction false} CountIntoRemove(pairs: Pairs, x: Node, live: set<Node>, p: Node)
    requires p in live
    ensures CountInto(pairs, x, live) == CountInto(pairs, x, live - {p}) + multiset(ChildrenOf(pairs, p))[x]
  {
    if pairs != [] {
      CountIntoRemove(pairs[..|pairs| - 1], x, live, p);
    }
  }

  lemma {:induction false} EdgesStayInside(pairs: Pairs, p: Node, c: Node)
    requires (p, c) in EdgeSet(pairs)
    ensures p in NodesOf(pairs) && c in NodesOf(pairs)
  {
    var n := |pairs| - 1;
    if pairs[n] != (p, c) {
      EdgesStayInside(pairs[..n], p, c);
    }
  }

  lemma {:induction false} PairsStayInside(pairs: Pairs, k: nat)
    requires k < |pairs|
    ensures pairs[k].0 in NodesOf(pairs) && pairs[k].1 in NodesOf(pairs)
  {
    EdgeSetMember(pairs, pairs[k]);
    EdgesStayInside(pairs, pairs[k].0, pairs[k].1);
  }

  // ----- building the dictionaries

  function NumberOf(m: map<Node, nat>, x: Node): nat {
    if x in m then m[x] else 0
  }

  function ListOf(m: map<Node, seq<Node>>, p: Node): seq<Node> {
    if p in m then m[p] else []
  }

  /** The counts for the pairs `done`, when every item of `all` is a key in the end. */
  ghost predicate CountsSoFar(done: Pairs, all: set<Node>, numParents: map<Node, nat>) {
    && numParents.Keys == NodesOf(done)
    && forall x {:trigger NumberOf(numParents, x)} :: NumberOf(numParents, x) == CountInto(done, x, all)
  }

  ghost predicate ListsSoFar(done: Pairs, children: map<Node, seq<Node>>) {
    && (forall p {:trigger ListOf(children, p)} :: ListOf(children, p) == ChildrenOf(done, p))
    && (forall p :: p in children ==> children[p] != [])
  }

  function WithKey(numParents: map<Node, nat>, x: Node): (m: map<Node, nat>)
    ensures m.Keys == numParents.Keys + {x}
    ensures forall y :: NumberOf(m, y) == NumberOf(numParents, y)
  {
    if x in numParents then numParents else numParents[x := 0]
  }

  function Incremented(m: map<Node, nat>, x: Node): (r: map<Node, nat>)
    requires x in m
    ensures r.Keys == m.Keys
    ensures forall y :: NumberOf(r, y) == NumberOf(m, y) + if y == x then 1 else 0
  {
    m[x := m[x] + 1]
  }

  lemma {:induction false} OneMoreParent(done: Pairs, pair: (Node, Node), all: set<Node>, m0: map<Node, nat>,
                                         m: map<Node, nat>)
    requires CountsSoFar(done, all, m0) && pair.0 in all
    requires m.Keys == m0.Keys + {pair.0} + {pair.1} && forall x :: NumberOf(m, x) == NumberOf(m0, x)
    ensures CountsSoFar(done + [pair], all, Incremented(m, pair.1))
  {
    var r := Incremented(m, pair.1);
    assert (done + [pair])[..|done|] == done;
    assert {pair.0} + {pair.1} == {pair.0, pair.1};
    forall x ensures NumberOf(r, x) == CountInto(done + [pair], x, all) {
      assert NumberOf(m0, x) == CountInto(done, x, all);
    }
  }

  lemma {:induction false} OneMoreChild(done: Pairs, pair: (Node, Node), children: map<Node, seq<Node>>)
    requires ListsSoFar(done, children)
    ensures ListsSoFar(done + [pair], children[pair.0 := ListOf(children, pair.0) + [pair.1]])
  {
    var r := children[pair.0 := ListOf(children, pair.0) + [pair.1]];
    assert (done + [pair])[..|done|] == done;
    forall p ensures ListOf(r, p) == ChildrenOf(done + [pair], p) {
      assert ListOf(children, p) == ChildrenOf(done, p);
    }
  }

  lemma {:induction false} AllCounted(pairs: Pairs, numParents: map<Node, nat>, children: map<Node, seq<Node>>)
    requires CountsSoFar(pairs, NodesOf(pairs), numParents) && ListsSoFar(pairs, children)
    ensures Describes(pairs, numParents, children)
  {
    forall x | x in numParents ensures numParents[x] == CountInto(pairs, x, numParents.Keys) {
      assert numParents[x] == NumberOf(numParents, x);
    }
    forall p ensures ListOf(children, p) == ChildrenOf(pairs, p) {
    }
    assert forall p :: p in children ==> children[p] == ListOf(children, p);
    assert forall p :: p !in children ==> [] == ListOf(children, p);
  }

  method CountParents(pairs: Pairs) returns (numParents: map<Node, nat>, children: map<Node, seq<Node>>)
    ensures numParents.Keys == NodesOf(pairs)
    ensures Describes(pairs, numParents, children)
    ensures forall p :: p in children ==> children[p] != []
  {
    numParents, children := map[], map[];
    ghost var all := NodesOf(pairs);
    var k := 0;
    while k < |pairs|
      invariant 0 <= k <= |pairs|
      invariant CountsSoFar(pairs[..k], all, numParents)
      invariant ListsSoFar(pairs[..k], children)
    {
      var (parent, child) := pairs[k];
      PairsStayInside(pairs, k);
      assert pairs[..k] + [pairs[k]] == pairs[..k + 1];
      var withKeys := WithKey(WithKey(numParents, parent), child);
      OneMoreParent(pairs[..k], pairs[k], all, numParents, withKeys);
      OneMoreChild(pairs[..k], pairs[k], children);
      numParents := Incremented(withKeys, child);
      children := children[parent := ListOf(children, parent) + [child]];
      k := k + 1;
    }
    assert pairs[..k] == pairs;
    AllCounted(pairs, numParents, children);
  }

  /** The keys whose count is zero, in the dictionary's own order, which is arbitrary. */
  method ZeroKeys(numParents: map<Node, nat>) returns (zeros: seq<Node>)
    ensures Distinct(zeros)
    ensures forall x :: x in Elements(zeros) <==> x in numParents && numParents[x] == 0
  {
    zeros := [];
    var rest := numParents.Keys;
    while rest != {}
      invariant rest <= numParents.Keys && Distinct(zeros)
      invariant forall x :: x in Elements(zeros) <==> x in numParents && x !in rest && numParents[x] == 0
    {
      var x :| x in rest;
      rest := rest - {x};
      if numParents[x] == 0 {
        ElementsSnoc(zeros, x);
        zeros := zeros + [x];
      }
    }
  }

  // ----- what a result means

  /** Every node listed has a depth, and the list never goes back to a smaller one. */
  ghost predicate InDepthOrder(g: Graph, order: seq<Node>) {
    && (forall x :: x in order ==> HasDepth(g, x))
    && (forall i, j, di: nat, dj: nat ::
          0 <= i < j < |order| && IsDepth(g, order[i], di) && IsDepth(g, order[j], dj) ==> di <= dj)
  }

  ghost predicate ParentsFirst(g: Graph, order: seq<Node>) {
    forall i, j :: 0 <= i < |order| && 0 <= j < |order| && (order[i], order[j]) in g ==> i < j
  }

  /** Exactly the items that no cycle leads to. */
  ghost predicate ListsUpstream(g: Graph, items: set<Node>, order: seq<Node>) {
    && NoDup(order)
    && forall x :: x in order <==> x in items && !DownstreamOfCycle(g, x)
  }

  /** What is left when no item is free: the items downstream of a cycle, each still waiting for one of them. */
  ghost predicate IsLeftover(pairs: Pairs, items: set<Node>, numParents: map<Node, nat>) {
    && (forall x :: x in numParents <==> x in items && DownstreamOfCycle(EdgeSet(pairs), x))
    && Counts(pairs, numParents)
    && (forall x :: x in numParents ==> numParents[x] > 0)
  }

  lemma {:induction false} DepthOrderPutsParentsFirst(g: Graph, order: seq<Node>)
    requires InDepthOrder(g, order)
    ensures ParentsFirst(g, order)
  {
    forall i, j | 0 <= i < |order| && 0 <= j < |order| && (order[i], order[j]) in g ensures i < j {
      assert HasDepth(g, order[i]) && HasDepth(g, order[j]);
      var di: nat :| IsDepth(g, order[i], di);
      var dj: nat :| IsDepth(g, order[j], dj);
      DepthAlongEdge(g, order[i], di, order[j], dj);
      if i == j {
        DepthUnique(g, order[i], di, dj);
      }
    }
  }

  /** When every live item still waits for a live parent, they are exactly the items downstream of a cycle. */
  lemma {:induction false} StuckItems(pairs: Pairs, items: set<Node>, numParents: map<Node, nat>)
    requires Counts(pairs, numParents) && numParents.Keys <= items
    requires forall x :: x in numParents ==> numParents[x] > 0
    requires forall x :: x in items && x !in numParents ==> HasDepth(EdgeSet(pairs), x)
    ensures IsLeftover(pairs, items, numParents)
  {
    var g := EdgeSet(pairs);
    forall x | x in numParents ensures HasParentIn(g, numParents.Keys, x) {
      CountIntoPositive(pairs, x, numParents.Keys);
    }
    forall x | x in items ensures x in numParents <==> DownstreamOfCycle(g, x) {
      if x in numParents {
        RootlessIsDownstream(g, numParents.Keys, x);
      } else {
        var d: nat :| IsDepth(g, x, d);
        if DownstreamOfCycle(g, x) {
          NoDepthDownstream(g, x, d);
        }
      }
    }
  }

  /** Something is left over exactly when the graph has a cycle. */
  lemma {:induction false} LeftoverIffCyclic(pairs: Pairs, items: set<Node>, numParents: map<Node, nat>)
    requires NodesOf(pairs) <= items && IsLeftover(pairs, items, numParents)
    ensures numParents != map[] <==> Cyclic(EdgeSet(pairs))
  {
    var g := EdgeSet(pairs);
    CyclicIffDownstream(g);
    if numParents != map[] {
      var x :| x in numParents;
      assert DownstreamOfCycle(g, x);
    }
    if Cyclic(g) {
      var c :| IsClosedWalk(g, c);
      EdgesStayInside(pairs, c[|c| - 1], c[0]);
      assert IsRouteFromCycle(g, c, [c[0]], c[0]);
      assert c[0] in numParents;
    }
  }

  // ----- Kahn's algorithm

  datatype TopSortResult =
    | Sorted(order: seq<Node>)
    | CycleError(order: seq<Node>, numParents: map<Node, nat>, children: map<Node, seq<Node>>)

  /** All parents of `x` were listed up to position `via`, and the item there is one of them. */
  ghost predicate FreedBy(g: Graph, x: Node, answer: seq<Node>, via: int) {
    && -1 <= via < |answer|
    && (forall p {:trigger (p, x) in g} :: (p, x) in g ==> p in Elements(answer[..via + 1]))
    && (via >= 0 ==> (answer[via], x) in g)
  }

  /** The items found free so far: `via` says which deletion freed each, and items freed earlier come first. */
  ghost predicate Fifo(g: Graph, answer: seq<Node>, via: seq<int>, bound: int) {
    && |via| == |answer|
    && (answer != [] ==>
          var n := |answer| - 1;
          && Fifo(g, answer[..n], via[..n], via[n])
          && FreedBy(g, answer[n], answer[..n], via[n])
          && via[n] <= bound)
  }

  ghost function LastIndex(s: seq<Node>, x: Node): int {
    if s == [] then -1 else if s[|s| - 1] == x then |s| - 1 else LastIndex(s[..|s| - 1], x)
  }

  /** Where in the list of its last parent an item was freed: at its last occurrence there. */
  ghost function FreedAt(pairs: Pairs, answer: seq<Node>, via: seq<int>, i: nat): int
    requires i < |answer| == |via|
  {
    if 0 <= via[i] < |answer| then LastIndex(ChildrenOf(pairs, answer[via[i]]), answer[i]) else -1
  }

  /** Items freed by the same deletion come in the order of the last places at which their parent lists them. */
  ghost predicate SiblingsInOrder(pairs: Pairs, answer: seq<Node>, via: seq<int>) {
    && |via| == |answer|
    && forall i, j :: 0 <= i < j < |answer| && via[i] == via[j] >= 0 ==>
         FreedAt(pairs, answer, via, i) < FreedAt(pairs, answer, via, j)
  }

  /** First the items without parents; then, deletion by deletion, what each one frees, in list order. */
  ghost predicate IsQueueOrder(pairs: Pairs, order: seq<Node>, via: seq<int>) {
    Fifo(EdgeSet(pairs), order, via, |order| - 1) && SiblingsInOrder(pairs, order, via)
  }

  /** The first `k` items listed have been deleted from the dictionary, and no others. */
  ghost predicate Deleted(items: set<Node>, live: set<Node>, answer: seq<Node>, k: nat) {
    k <= |answer| && live == items - Elements(answer[..k])
  }

  /** The count of `x`, while the decrements for `pending` are still owed; `x` is listed once its count is zero. */
  ghost predicate CountIs(pairs: Pairs, numParents: map<Node, nat>, pending: multiset<Node>, listed: set<Node>,
                          x: Node) {
    && (x in numParents ==>
          && numParents[x] == CountInto(pairs, x, numParents.Keys) + pending[x]
          && (x in listed <==> numParents[x] == 0))
    && (x in listed ==> CountInto(pairs, x, numParents.Keys) == 0)
  }

  ghost predicate Waiting(pairs: Pairs, numParents: map<Node, nat>, pending: multiset<Node>, listed: set<Node>) {
    forall x {:trigger CountIs(pairs, numParents, pending, listed, x)} :: CountIs(pairs, numParents, pending, listed, x)
  }

  ghost predicate HasList(pairs: Pairs, live: set<Node>, children: map<Node, seq<Node>>, p: Node) {
    && (p in children <==> p in live && ChildrenOf(pairs, p) != [])
    && (p in children ==> children[p] == ChildrenOf(pairs, p))
  }

  /** The child lists of the items in `live` that have any, unchanged. */
  ghost predicate HasChildrenOf(pairs: Pairs, live: set<Node>, children: map<Node, seq<Node>>) {
    forall p {:trigger HasList(pairs, live, children, p)} :: HasList(pairs, live, children, p)
  }

  lemma {:induction false} StartChildren(pairs: Pairs, numParents: map<Node, nat>, children: map<Node, seq<Node>>)
    requires numParents.Keys == NodesOf(pairs)
    requires ListsChildren(pairs, children) && forall p :: p in children ==> children[p] != []
    ensures HasChildrenOf(pairs, numParents.Keys, children)
  {
    forall p ensures HasList(pairs, numParents.Keys, children, p) {
      if p in children {
        ChildrenOfMember(pairs, p, children[p][0]);
        EdgesStayInside(pairs, p, children[p][0]);
      }
    }
  }

  lemma {:induction false} WithoutParent(pairs: Pairs, live: set<Node>, children: map<Node, seq<Node>>, parent: Node)
    requires HasChildrenOf(pairs, live, children) && parent in live
    ensures HasChildrenOf(pairs, live - {parent}, children - {parent})
    ensures parent !in children ==> HasChildrenOf(pairs, live - {parent}, children)
    ensures ChildrenOf(pairs, parent) == if parent in children then children[parent] else []
  {
    assert HasList(pairs, live, children, parent);
    forall p ensures HasList(pairs, live - {parent}, children - {parent}, p)
      ensures parent !in children ==> HasList(pairs, live - {parent}, children, p)
    {
      assert HasList(pairs, live, children, p);
    }
  }

  method TopSort(pairs: Pairs) returns (r: TopSortResult)
    ensures r.CycleError? <==> Cyclic(EdgeSet(pairs))
    ensures ListsUpstream(EdgeSet(pairs), NodesOf(pairs), r.order)
    ensures InDepthOrder(EdgeSet(pairs), r.order) && ParentsFirst(EdgeSet(pairs), r.order)
    ensures exists via :: IsQueueOrder(pairs, r.order, via)
    ensures r.Sorted? ==> Elements(r.order) == NodesOf(pairs)
    ensures r.CycleError? ==>
              && IsLeftover(pairs, NodesOf(pairs), r.numParents) && r.numParents != map[]
              && HasChildrenOf(pairs, r.numParents.Keys, r.children)
  {
    var numParents, children := CountParents(pairs);
    StartChildren(pairs, numParents, children);
    var answer := ZeroKeys(numParents);
    ghost var via := StartState(pairs, numParents, answer);
    FreeItemsAreInOrder(pairs, answer, via);
    numParents, children, answer, via := WorkOff(pairs, NodesOf(pairs), numParents, children, answer, via);
    assert answer[..|answer|] == answer;
    FinalState(pairs, NodesOf(pairs), answer, via, numParents);
    assert IsQueueOrder(pairs, answer, via);
    if numParents != map[] {
      return CycleError(answer, numParents, children);
    }
    return Sorted(answer);
  }

  /** The next item to be deleted is still in the dictionary, and there are at most as many as items. */
  lemma {:induction false} NextIsLive(items: set<Node>, live: set<Node>, answer: seq<Node>, k: nat)
    requires k < |answer| && Distinct(answer) && Elements(answer) <= items && Deleted(items, live, answer, k)
    ensures answer[k] in live && |answer| <= |items|
  {
    SubsetCard(Elements(answer), items);
    NextIsNew(answer, k);
  }

  /** After `k` passes of the loop. */
  ghost predicate InProgress(pairs: Pairs, items: set<Node>, numParents: map<Node, nat>, children: map<Node, seq<Node>>,
                             answer: seq<Node>, via: seq<int>, k: nat) {
    && Distinct(answer) && Elements(answer) <= items
    && Fifo(EdgeSet(pairs), answer, via, k - 1) && SiblingsInOrder(pairs, answer, via)
    && Deleted(items, numParents.Keys, answer, k) && Waiting(pairs, numParents, multiset{}, Elements(answer))
    && HasChildrenOf(pairs, numParents.Keys, children)
  }

  /** The loop over the answer, which grows while it is traversed. */
  method WorkOff(ghost pairs: Pairs, ghost items: set<Node>, numParents0: map<Node, nat>,
                 children0: map<Node, seq<Node>>, answer0: seq<Node>, ghost via0: seq<int>)
    returns (numParents: map<Node, nat>, children: map<Node, seq<Node>>, answer: seq<Node>, ghost via: seq<int>)
    requires items == NodesOf(pairs) == numParents0.Keys && Distinct(answer0) && Elements(answer0) <= items
    requires Fifo(EdgeSet(pairs), answer0, via0, -1) && Waiting(pairs, numParents0, multiset{}, Elements(answer0))
    requires SiblingsInOrder(pairs, answer0, via0)
    requires HasChildrenOf(pairs, numParents0.Keys, children0)
    ensures Distinct(answer) && Elements(answer) <= items && Deleted(items, numParents.Keys, answer, |answer|)
    ensures IsQueueOrder(pairs, answer, via) && Waiting(pairs, numParents, multiset{}, Elements(answer))
    ensures HasChildrenOf(pairs, numParents.Keys, children)
  {
    numParents, children, answer, via := numParents0, children0, answer0, via0;
    var k := 0;
    while k < |answer|
      invariant k <= |answer| && InProgress(pairs, items, numParents, children, answer, via, k)
      decreases |items| - k
    {
      NextIsLive(items, numParents.Keys, answer, k);
      numParents, children, answer, via := Delete(pairs, items, answer[k], numParents, children, answer, k, via);
      k := k + 1;
    }
  }

  /** One pass of that loop: both dictionaries lose the item. */
  method Delete(ghost pairs: Pairs, ghost items: set<Node>, parent: Node, numParents0: map<Node, nat>,
                children0: map<Node, seq<Node>>, answer0: seq<Node>, ghost k: nat, ghost via0: seq<int>)
    returns (numParents: map<Node, nat>, children: map<Node, seq<Node>>, answer: seq<Node>, ghost via: seq<int>)
    requires k < |answer0| && answer0[k] == parent && parent in numParents0 && NodesOf(pairs) <= items
    requires InProgress(pairs, items, numParents0, children0, answer0, via0, k)
    ensures answer0 <= answer && InProgress(pairs, items, numParents, children, answer, via, k + 1)
  {
    WithoutParent(pairs, numParents0.Keys, children0, parent);
    var chs := if parent in children0 then children0[parent] else [];
    numParents, answer, via := Release(pairs, items, parent, chs, numParents0, answer0, k, via0);
    children := children0 - {parent};
  }

  lemma {:induction false} StartState(pairs: Pairs, numParents: map<Node, nat>, zeros: seq<Node>)
    returns (via: seq<int>)
    requires numParents.Keys == NodesOf(pairs) && Counts(pairs, numParents)
    requires forall x :: x in Elements(zeros) <==> x in numParents && numParents[x] == 0
    ensures Fifo(EdgeSet(pairs), zeros, via, -1)
    ensures Elements(zeros) <= NodesOf(pairs)
    ensures Waiting(pairs, numParents, multiset{}, Elements(zeros))
  {
    forall x | x in Elements(zeros) ensures HasNoParent(EdgeSet(pairs), x) {
      NoParentsLeft(pairs, x, NodesOf(pairs), NodesOf(pairs));
    }
    via := FreeItemsAreFifo(EdgeSet(pairs), zeros);
    assert forall x :: CountIs(pairs, numParents, multiset{}, Elements(zeros), x);
  }

  ghost predicate HasNoParent(g: Graph, x: Node) {
    forall p :: (p, x) !in g
  }

  lemma {:induction false} FreeItemsAreFifo(g: Graph, s: seq<Node>) returns (via: seq<int>)
    requires forall x {:trigger HasNoParent(g, x)} :: x in Elements(s) ==> HasNoParent(g, x)
    ensures Fifo(g, s, via, -1)
  {
    if s == [] {
      via := [];
    } else {
      var n := |s| - 1;
      var via' := FreeItemsAreFifo(g, s[..n]);
      via := via' + [-1];
      assert via[..n] == via' && HasNoParent(g, s[n]);
    }
  }

  lemma {:induction false} FifoAt(g: Graph, answer: seq<Node>, via: seq<int>, bound: int, i: nat)
    requires Fifo(g, answer, via, bound) && i < |answer|
    ensures FreedBy(g, answer[i], answer[..i], via[i]) && via[i] <= bound
    decreases |answer|
  {
    var n := |answer| - 1;
    if i < n {
      FifoAt(g, answer[..n], via[..n], via[n], i);
      assert answer[..n][..i] == answer[..i];
    }
  }

  lemma {:induction false} FifoMonotone(g: Graph, answer: seq<Node>, via: seq<int>, bound: int, i: nat, j: nat)
    requires Fifo(g, answer, via, bound) && i <= j < |answer|
    ensures via[i] <= via[j]
    decreases |answer|
  {
    var n := |answer| - 1;
    if j < n {
      FifoMonotone(g, answer[..n], via[..n], via[n], i, j);
    } else if i < n {
      FifoAt(g, answer[..n], via[..n], via[n], i);
    }
  }

  /** How many releases deep an item is: one more than the item whose deletion freed it. */
  ghost function Generation(via: seq<int>, i: nat): nat
    requires i < |via| && forall j :: 0 <= j < |via| ==> via[j] < j
  {
    if via[i] < 0 then 0 else Generation(via, via[i]) + 1
  }

  lemma {:induction false} GenerationMonotone(via: seq<int>, i: nat, j: nat)
    requires i <= j < |via| && forall j :: 0 <= j < |via| ==> via[j] < j
    requires forall i, j :: 0 <= i <= j < |via| ==> via[i] <= via[j]
    ensures Generation(via, i) <= Generation(via, j)
    decreases j
  {
    if via[i] >= 0 {
      GenerationMonotone(via, via[i], via[j]);
    }
  }

  /** An item is one level below the last of its parents to be deleted. */
  lemma {:induction false} GenerationIsDepth(g: Graph, answer: seq<Node>, via: seq<int>, bound: int, i: nat)
    requires Fifo(g, answer, via, bound) && i < |answer|
    requires forall j :: 0 <= j < |via| ==> via[j] < j
    requires forall i, j :: 0 <= i <= j < |via| ==> via[i] <= via[j]
    ensures IsDepth(g, answer[i], Generation(via, i))
    decreases i
  {
    var x, d, v := answer[i], Generation(via, i), via[i];
    FifoAt(g, answer, via, bound, i);
    forall p | (p, x) in g ensures exists dp: nat :: dp < d && IsDepth(g, p, dp) {
      var earlier := answer[..i][..v + 1];
      ElementsMember(earlier, p);
      var m :| 0 <= m < |earlier| && earlier[m] == p;
      GenerationIsDepth(g, answer, via, bound, m);
      GenerationMonotone(via, m, v);
    }
    var w := [x];
    if v >= 0 {
      GenerationIsDepth(g, answer, via, bound, v);
      var u :| IsWalkTo(g, u, answer[v]) && |u| == d;
      WalkJoin(g, u, [x]);
      w := u + [x];
    }
    DepthFromParents(g, x, d, w);
  }

  /** An item free from the start is at the top; any other is one level below the item whose deletion freed it. */
  ghost predicate IsBelow(depth: seq<nat>, i: nat, via: int)
    requires i < |depth|
  {
    if via < 0 then depth[i] == 0 else via < i && depth[i] == depth[via] + 1
  }

  /** First in, first out is depth order. */
  lemma {:induction false} FifoDepths(g: Graph, answer: seq<Node>, via: seq<int>, bound: int) returns (depth: seq<nat>)
    requires Fifo(g, answer, via, bound)
    ensures |depth| == |answer| == |via| && forall i :: 0 <= i < |answer| ==> IsDepth(g, answer[i], depth[i])
    ensures forall i, j :: 0 <= i <= j < |depth| ==> depth[i] <= depth[j]
    ensures forall i :: 0 <= i < |depth| ==> IsBelow(depth, i, via[i])
  {
    forall i | 0 <= i < |via| ensures via[i] < i {
      FifoAt(g, answer, via, bound, i);
    }
    forall i, j | 0 <= i <= j < |via| ensures via[i] <= via[j] {
      FifoMonotone(g, answer, via, bound, i, j);
    }
    depth := Generations(via);
    forall i | 0 <= i < |answer| ensures IsDepth(g, answer[i], depth[i]) {
      GenerationIsDepth(g, answer, via, bound, i);
    }
    forall i, j | 0 <= i <= j < |depth| ensures depth[i] <= depth[j] {
      GenerationMonotone(via, i, j);
    }
  }

  ghost function Generations(via: seq<int>): (depth: seq<nat>)
    requires forall j :: 0 <= j < |via| ==> via[j] < j
    ensures |depth| == |via| && forall i :: 0 <= i < |via| ==>
              depth[i] == Generation(via, i) && IsBelow(depth, i, via[i])
  {
    seq(|via|, i requires 0 <= i < |via| => Generation(via, i))
  }

  lemma {:induction false} ListedHasDepth(g: Graph, answer: seq<Node>, depth: seq<nat>, x: Node)
    requires |depth| == |answer| && x in Elements(answer)
    requires forall i :: 0 <= i < |answer| ==> IsDepth(g, answer[i], depth[i])
    ensures HasDepth(g, x)
  {
    ElementsMember(answer, x);
    var i :| 0 <= i < |answer| && answer[i] == x;
    assert IsDepth(g, x, depth[i]);
  }

  lemma {:induction false} WaitingIsPositive(pairs: Pairs, numParents: map<Node, nat>, answer: seq<Node>)
    requires Waiting(pairs, numParents, multiset{}, Elements(answer)) && numParents.Keys !! Elements(answer)
    ensures Counts(pairs, numParents) && forall x :: x in numParents ==> numParents[x] > 0
  {
    forall x | x in numParents ensures numParents[x] == CountInto(pairs, x, numParents.Keys) > 0 {
      assert CountIs(pairs, numParents, multiset{}, Elements(answer), x);
    }
  }

  lemma {:induction false} FinalState(pairs: Pairs, items: set<Node>, answer: seq<Node>, via: seq<int>,
                                      numParents: map<Node, nat>)
    requires items == NodesOf(pairs) && Distinct(answer) && Elements(answer) <= items
    requires Fifo(EdgeSet(pairs), answer, via, |answer| - 1)
    requires Waiting(pairs, numParents, multiset{}, Elements(answer)) && numParents.Keys == items - Elements(answer)
    ensures IsLeftover(pairs, items, numParents) && (numParents != map[] <==> Cyclic(EdgeSet(pairs)))
    ensures ListsUpstream(EdgeSet(pairs), items, answer)
    ensures InDepthOrder(EdgeSet(pairs), answer) && ParentsFirst(EdgeSet(pairs), answer)
    ensures numParents == map[] ==> Elements(answer) == items
  {
    var g := EdgeSet(pairs);
    NoDupCard(answer);
    var depth := FifoDepths(g, answer, via, |answer| - 1);
    forall x | x in items && x !in numParents ensures HasDepth(g, x) {
      ListedHasDepth(g, answer, depth, x);
    }
    WaitingIsPositive(pairs, numParents, answer);
    StuckItems(pairs, items, numParents);
    LeftoverIffCyclic(pairs, items, numParents);
    DepthsAreInOrder(g, answer, depth);
    DepthOrderPutsParentsFirst(g, answer);
    ListedIffDeleted(items, answer, numParents);
  }

  lemma {:induction false} ListedIffDeleted(items: set<Node>, answer: seq<Node>, numParents: map<Node, nat>)
    requires Elements(answer) <= items && numParents.Keys == items - Elements(answer)
    ensures forall x :: x in answer <==> x in items && x !in numParents
    ensures numParents == map[] ==> Elements(answer) == items
  {
    forall x ensures x in answer <==> x in items && x !in numParents {
      ElementsMember(answer, x);
    }
    if numParents == map[] {
      assert forall x :: x !in numParents.Keys;
    }
  }

  /** One pass of the main loop: delete the parent and knock down the count of each of its children. */
  method Release(ghost pairs: Pairs, ghost items: set<Node>, parent: Node, chs: seq<Node>,
                 numParents0: map<Node, nat>, answer0: seq<Node>, ghost k: nat, ghost via0: seq<int>)
    returns (numParents: map<Node, nat>, answer: seq<Node>, ghost via: seq<int>)
    requires k < |answer0| && answer0[k] == parent && chs == ChildrenOf(pairs, parent) && parent in numParents0
    requires Distinct(answer0) && NodesOf(pairs) <= items && Elements(answer0) <= items
    requires Fifo(EdgeSet(pairs), answer0, via0, k - 1) && SiblingsInOrder(pairs, answer0, via0)
    requires Deleted(items, numParents0.Keys, answer0, k)
    requires Waiting(pairs, numParents0, multiset{}, Elements(answer0))
    ensures answer0 <= answer && Distinct(answer) && Elements(answer) <= items
    ensures Fifo(EdgeSet(pairs), answer, via, k) && SiblingsInOrder(pairs, answer, via)
    ensures Deleted(items, numParents.Keys, answer, k + 1)
    ensures numParents.Keys == numParents0.Keys - {parent}
    ensures Waiting(pairs, numParents, multiset{}, Elements(answer))
  {
    ghost var live := numParents0.Keys - {parent};
    DeletedItems(answer0, k, items);
    RemoveParent(pairs, numParents0, Elements(answer0), parent);
    NoneFreedYet(pairs, answer0, via0, k);
    numParents, answer, via := numParents0 - {parent}, answer0, via0;
    var j := 0;
    while j < |chs|
      invariant j <= |chs| && answer0 <= answer && Distinct(answer) && Elements(answer) <= items
      invariant Fifo(EdgeSet(pairs), answer, via, k)
      invariant SiblingsInOrder(pairs, answer, via) && FreedBefore(pairs, answer, via, k, j)
      invariant numParents.Keys == live && Deleted(items, live, answer, k + 1)
      invariant Waiting(pairs, numParents, From(chs, j), Elements(answer))
    {
      ChildStillWaits(pairs, items, numParents0, Elements(answer0), parent, chs[j]);
      numParents, answer, via := Decrement(pairs, items, chs, j, numParents, answer, k, via);
      j := j + 1;
    }
  }

  /** What the deletion of item `k` has freed so far was freed before place `j` of its list. */
  ghost predicate FreedBefore(pairs: Pairs, answer: seq<Node>, via: seq<int>, k: nat, j: nat) {
    && |via| == |answer|
    && forall i :: 0 <= i < |answer| && via[i] == k ==> FreedAt(pairs, answer, via, i) < j
  }

  lemma {:induction false} NoneFreedYet(pairs: Pairs, answer: seq<Node>, via: seq<int>, k: nat)
    requires Fifo(EdgeSet(pairs), answer, via, k - 1)
    ensures FreedBefore(pairs, answer, via, k, 0)
  {
    forall i | 0 <= i < |answer| ensures via[i] != k {
      FifoAt(EdgeSet(pairs), answer, via, k - 1, i);
    }
  }

  lemma {:induction false} FreeItemsAreInOrder(pairs: Pairs, answer: seq<Node>, via: seq<int>)
    requires Fifo(EdgeSet(pairs), answer, via, -1)
    ensures SiblingsInOrder(pairs, answer, via)
  {
    forall i | 0 <= i < |answer| ensures via[i] < 0 {
      FifoAt(EdgeSet(pairs), answer, via, -1, i);
    }
  }

  lemma {:induction false} LastIndexIs(s: seq<Node>, j: nat)
    requires j < |s| && From(s, j + 1)[s[j]] == 0
    ensures LastIndex(s, s[j]) == j
  {
    if j < |s| - 1 {
      var front, n := s[..|s| - 1], |s| - 1;
      FromFront(s, j + 1);
      assert From(front, j + 1)[front[j]] == 0;
      LastIndexIs(front, j);
    }
  }

  lemma {:induction false} FromFront(s: seq<Node>, j: nat)
    requires j < |s|
    ensures From(s, j) == From(s[..|s| - 1], j) + multiset{s[|s| - 1]}
    decreases |s| - j
  {
    var front := s[..|s| - 1];
    if j < |s| - 1 {
      FromFront(s, j + 1);
      assert From(front, j) == multiset{s[j]} + From(front, j + 1);
    } else {
      assert From(s, j + 1) == multiset{};
    }
  }

  /** Listing one more item at place `j` of the list of item `k`. */
  lemma {:induction false} SiblingNext(pairs: Pairs, answer: seq<Node>, via: seq<int>, k: nat, j: nat, x: Node)
    requires SiblingsInOrder(pairs, answer, via) && FreedBefore(pairs, answer, via, k, j) && k < |answer|
    requires forall i :: 0 <= i < |via| ==> via[i] < |answer|
    requires LastIndex(ChildrenOf(pairs, answer[k]), x) == j
    ensures SiblingsInOrder(pairs, answer + [x], via + [k]) && FreedBefore(pairs, answer + [x], via + [k], k, j + 1)
  {
    var a, v := answer + [x], via + [k];
    assert FreedAt(pairs, a, v, |answer|) == j;
    forall i | 0 <= i < |answer| ensures FreedAt(pairs, a, v, i) == FreedAt(pairs, answer, via, i) {
    }
  }

  lemma {:induction false} ViaIsInside(g: Graph, answer: seq<Node>, via: seq<int>, bound: int)
    requires Fifo(g, answer, via, bound)
    ensures forall i :: 0 <= i < |via| ==> via[i] < |answer|
  {
    forall i | 0 <= i < |via| ensures via[i] < |answer| {
      FifoAt(g, answer, via, bound, i);
    }
  }

  /** Knocks down the count of one child, and lists the child if that was the last. */
  method Decrement(ghost pairs: Pairs, ghost items: set<Node>, chs: seq<Node>, j: nat, numParents0: map<Node, nat>,
                   answer0: seq<Node>, ghost k: nat, ghost via0: seq<int>)
    returns (numParents: map<Node, nat>, answer: seq<Node>, ghost via: seq<int>)
    requires k < |answer0| && j < |chs| && chs == ChildrenOf(pairs, answer0[k])
    requires chs[j] in numParents0 && (answer0[k], chs[j]) in EdgeSet(pairs)
    requires Distinct(answer0) && NodesOf(pairs) <= items && Elements(answer0) <= items
    requires Fifo(EdgeSet(pairs), answer0, via0, k) && Deleted(items, numParents0.Keys, answer0, k + 1)
    requires SiblingsInOrder(pairs, answer0, via0) && FreedBefore(pairs, answer0, via0, k, j)
    requires Waiting(pairs, numParents0, From(chs, j), Elements(answer0))
    ensures answer0 <= answer && Distinct(answer) && Elements(answer) <= items
    ensures Fifo(EdgeSet(pairs), answer, via, k) && Deleted(items, numParents.Keys, answer, k + 1)
    ensures SiblingsInOrder(pairs, answer, via) && FreedBefore(pairs, answer, via, k, j + 1)
    ensures numParents.Keys == numParents0.Keys && Waiting(pairs, numParents, From(chs, j + 1), Elements(answer))
  {
    var child := chs[j];
    KnockDown(pairs, numParents0, child, From(chs, j + 1), Elements(answer0));
    numParents, answer, via := numParents0[child := numParents0[child] - 1], answer0, via0;
    if numParents[child] == 0 {
      NoParentsLeft(pairs, child, numParents0.Keys, items);
      LastIndexIs(chs, j);
      ViaIsInside(EdgeSet(pairs), answer, via, k);
      SiblingNext(pairs, answer, via, k, j, child);
      ListNext(EdgeSet(pairs), answer, via, child, k);
      answer := answer + [child];
      via := via + [k];
      PrefixTake(answer0, answer, k + 1);
    }
  }

  lemma {:induction false} DeletedItems(answer: seq<Node>, k: nat, items: set<Node>)
    requires k < |answer|
    ensures items - Elements(answer[..k]) - {answer[k]} == items - Elements(answer[..k + 1])
    ensures answer[k] in Elements(answer) && items <= (items - Elements(answer[..k])) + Elements(answer)
  {
    ElementsTake(answer, k);
    ElementsMember(answer, answer[k]);
    ElementsPrefix(answer, k);
  }

  /** Paying one decrement keeps the counts right; the child is listed exactly when its count reaches zero. */
  lemma {:induction false} KnockDown(pairs: Pairs, numParents: map<Node, nat>, child: Node, pending: multiset<Node>,
                                     listed: set<Node>)
    requires child in numParents && Waiting(pairs, numParents, multiset{child} + pending, listed)
    ensures numParents[child] > 0 && child !in listed
    ensures var n := numParents[child] - 1;
            && Waiting(pairs, numParents[child := n], pending, if n == 0 then listed + {child} else listed)
            && (n == 0 ==> CountInto(pairs, child, numParents.Keys) == 0 && pending[child] == 0)
            && numParents[child := n].Keys == numParents.Keys
  {
    assert CountIs(pairs, numParents, multiset{child} + pending, listed, child);
    var n := numParents[child] - 1;
    var listed' := if n == 0 then listed + {child} else listed;
    var after := numParents[child := n];
    assert after.Keys == numParents.Keys;
    forall x ensures CountIs(pairs, after, pending, listed', x) {
      assert CountIs(pairs, numParents, multiset{child} + pending, listed, x);
    }
  }

  lemma {:induction false} ListNext(g: Graph, answer: seq<Node>, via: seq<int>, x: Node, k: nat)
    requires Fifo(g, answer, via, k) && k < |answer|
    requires x !in Elements(answer) && (answer[k], x) in g
    requires forall p {:trigger (p, x) in g} :: (p, x) in g ==> p in Elements(answer[..k + 1])
    ensures Fifo(g, answer + [x], via + [k], k)
    ensures Elements(answer + [x]) == Elements(answer) + {x}
    ensures Distinct(answer) ==> Distinct(answer + [x])
  {
    ElementsSnoc(answer, x);
    assert (answer + [x])[..|answer|] == answer && (via + [k])[..|answer|] == via;
  }

  lemma {:induction false} RemoveParent(pairs: Pairs, numParents: map<Node, nat>, listed: set<Node>, parent: Node)
    requires parent in numParents && Waiting(pairs, numParents, multiset{}, listed)
    ensures Waiting(pairs, numParents - {parent}, From(ChildrenOf(pairs, parent), 0), listed)
  {
    var live, chs := numParents.Keys, ChildrenOf(pairs, parent);
    FromIsSuffix(chs, 0);
    assert chs[0..] == chs;
    assert (numParents - {parent}).Keys == live - {parent};
    forall x ensures CountIs(pairs, numParents - {parent}, From(chs, 0), listed, x) {
      assert CountIs(pairs, numParents, multiset{}, listed, x);
      CountIntoRemove(pairs, x, live, parent);
    }
  }

  lemma {:induction false} NoParentsLeft(pairs: Pairs, x: Node, live: set<Node>, items: set<Node>)
    requires NodesOf(pairs) <= items && CountInto(pairs, x, live) == 0
    ensures forall p :: (p, x) in EdgeSet(pairs) ==> p in items && p !in live
  {
    CountIntoPositive(pairs, x, live);
    forall p | (p, x) in EdgeSet(pairs) ensures p in items && p !in live {
      EdgesStayInside(pairs, p, x);
    }
  }

  /** A child of a live parent is counted, so it is neither listed nor deleted: the lookup never fails. */
  lemma {:induction false} ChildStillWaits(pairs: Pairs, items: set<Node>, numParents: map<Node, nat>,
                                           listed: set<Node>,
                        parent: Node, child: Node)
    requires NodesOf(pairs) <= items <= numParents.Keys + listed && parent in listed && parent in numParents
    requires Waiting(pairs, numParents, multiset{}, listed)
    requires child in ChildrenOf(pairs, parent)
    ensures child in numParents && child != parent && (parent, child) in EdgeSet(pairs)
  {
    ChildrenOfMember(pairs, parent, child);
    EdgesStayInside(pairs, parent, child);
    CountIntoPositive(pairs, child, numParents.Keys);
    assert HasParentIn(EdgeSet(pairs), numParents.Keys, child);
    assert CountIs(pairs, numParents, multiset{}, listed, child);
    assert CountIs(pairs, numParents, multiset{}, listed, parent);
  }

  lemma {:induction false} DepthsAreInOrder(g: Graph, order: seq<Node>, depth: seq<nat>)
    requires |depth| == |order|
    requires forall i :: 0 <= i < |order| ==> IsDepth(g, order[i], depth[i])
    requires forall i, j :: 0 <= i <= j < |order| ==> depth[i] <= depth[j]
    ensures InDepthOrder(g, order)
  {
    forall i, j, di: nat, dj: nat | 0 <= i < j < |order| && IsDepth(g, order[i], di) && IsDepth(g, order[j], dj)
      ensures di <= dj
    {
      DepthUnique(g, order[i], di, depth[i]);
      DepthUnique(g, order[j], dj, depth[j]);
    }
  }

  // ----- the order is determined by the order of the items without parents

  ghost predicate IsOrderOf(pairs: Pairs, order: seq<Node>, via: seq<int>) {
    IsQueueOrder(pairs, order, via) && NoDup(order)
  }

  lemma {:induction false} ViaOf(g: Graph, order: seq<Node>, via: seq<int>, bound: int, i: nat)
    requires Fifo(g, order, via, bound) && i < |order|
    ensures -1 <= via[i] < i
    ensures forall p :: (p, order[i]) in g ==> exists q :: 0 <= q <= via[i] && order[q] == p
    ensures via[i] >= 0 ==> (order[via[i]], order[i]) in g
  {
    FifoAt(g, order, via, bound, i);
    forall p | (p, order[i]) in g ensures exists q :: 0 <= q <= via[i] && order[q] == p {
      var upTo := order[..i][..via[i] + 1];
      ElementsMember(upTo, p);
      var q :| 0 <= q < |upTo| && upTo[q] == p;
      assert order[q] == p;
    }
  }

  /** In two orders that agree on a prefix, an item next in one and later in the other is freed by the same deletion. */
  lemma {:induction false} SameVia(pairs: Pairs, a: seq<Node>, va: seq<int>, b: seq<Node>, vb: seq<int>, k: nat, m: nat)
    requires IsOrderOf(pairs, a, va) && IsOrderOf(pairs, b, vb)
    requires k < |a| && k <= m < |b| && a[k] == b[m] && forall i :: 0 <= i < k ==> a[i] == b[i]
    ensures va[k] == vb[m]
  {
    var g := EdgeSet(pairs);
    ViaOf(g, a, va, |a| - 1, k);
    ViaOf(g, b, vb, |b| - 1, m);
    if va[k] >= 0 {
      var q :| 0 <= q <= vb[m] && b[q] == a[va[k]];
      assert b[va[k]] == b[q];
    }
    if vb[m] >= 0 {
      var q :| 0 <= q <= va[k] && a[q] == b[vb[m]];
      assert b[q] == b[vb[m]];
    }
  }

  lemma {:induction false} FreedAtIs(pairs: Pairs, a: seq<Node>, va: seq<int>, b: seq<Node>, vb: seq<int>, i: nat,
                                     j: nat)
    requires |va| == |a| && |vb| == |b| && i < |a| && j < |b| && a[i] == b[j] && va[i] == vb[j]
    requires 0 <= va[i] < |a| && va[i] < |b| && a[va[i]] == b[va[i]]
    ensures FreedAt(pairs, a, va, i) == FreedAt(pairs, b, vb, j)
  {
  }

  lemma {:induction false} NextIsSame(pairs: Pairs, a: seq<Node>, va: seq<int>, b: seq<Node>, vb: seq<int>, k: nat,
                                      i: nat, j: nat)
    requires IsOrderOf(pairs, a, va) && IsOrderOf(pairs, b, vb)
    requires k < |a| && k < |b| && forall i :: 0 <= i < k ==> a[i] == b[i]
    requires k <= i < |a| && k <= j < |b| && a[i] == b[k] && b[j] == a[k]
    requires va[k] >= 0 || vb[k] >= 0
    ensures a[k] == b[k]
  {
    var g := EdgeSet(pairs);
    SameVia(pairs, a, va, b, vb, k, j);
    SameVia(pairs, b, vb, a, va, k, i);
    FifoMonotone(g, a, va, |a| - 1, k, i);
    FifoMonotone(g, b, vb, |b| - 1, k, j);
    ViaOf(g, a, va, |a| - 1, k);
    assert va[k] == vb[k] == va[i] == vb[j];
    if i > k && j > k {
      FreedAtIs(pairs, a, va, b, vb, k, j);
      FreedAtIs(pairs, a, va, b, vb, i, k);
    }
  }

  ghost predicate SameRoots(a: seq<Node>, va: seq<int>, b: seq<Node>, vb: seq<int>)
    requires |va| == |a| && |vb| == |b|
  {
    forall i :: 0 <= i < |a| && i < |b| && va[i] < 0 && vb[i] < 0 ==> a[i] == b[i]
  }

  lemma {:induction false} NotEarlier(a: seq<Node>, b: seq<Node>, n: nat, j: nat)
    requires NoDup(a) && n < |a| && n <= |b| && j < |b| && b[j] == a[n]
    requires forall i :: 0 <= i < n ==> a[i] == b[i]
    ensures j >= n
  {
  }

  lemma {:induction false} SamePrefix(pairs: Pairs, a: seq<Node>, va: seq<int>, b: seq<Node>, vb: seq<int>, k: nat)
    requires IsOrderOf(pairs, a, va) && IsOrderOf(pairs, b, vb) && SameRoots(a, va, b, vb)
    requires (forall x :: x in a <==> x in b) && k <= |a| && k <= |b|
    ensures forall i :: 0 <= i < k ==> a[i] == b[i]
  {
    if k > 0 {
      var n := k - 1;
      SamePrefix(pairs, a, va, b, vb, n);
      if va[n] >= 0 || vb[n] >= 0 {
        assert a[n] in b && b[n] in a;
        var j :| 0 <= j < |b| && b[j] == a[n];
        var i :| 0 <= i < |a| && a[i] == b[n];
        NotEarlier(a, b, n, j);
        NotEarlier(b, a, n, i);
        NextIsSame(pairs, a, va, b, vb, n, i, j);
      }
    }
  }

  /** Two answers for the same pairs that list the items without parents alike are the same. */
  lemma {:induction false} OrderIsDetermined(pairs: Pairs, a: seq<Node>, va: seq<int>, b: seq<Node>, vb: seq<int>)
    requires IsOrderOf(pairs, a, va) && IsOrderOf(pairs, b, vb) && SameRoots(a, va, b, vb)
    requires forall x :: x in a <==> x in b
    ensures a == b
  {
    NoDupSameElements(a, b);
    SamePrefix(pairs, a, va, b, vb, |a|);
  }
}
