/** The level-by-level variant: each level is exactly the set of items at one longest-path depth. */
module TopSortLevels {
  import opened Sequences
  import opened Graphs
  import opened TopSort

  datatype LevelsResult =
    | Levels(levels: seq<seq<Node>>)
    | LevelsCycleError(levels: seq<seq<Node>>, numParents: map<Node, nat>, children: map<Node, seq<Node>>)

  ghost predicate BelongsTo(g: Graph, items: set<Node>, level: seq<Node>, d: nat, x: Node) {
    x in Elements(level) <==> x in items && IsDepth(g, x, d)
  }

  /** A level lists, once each, the items of one depth. */
  ghost predicate IsLevel(g: Graph, items: set<Node>, level: seq<Node>, d: nat) {
    Distinct(level) && forall x {:trigger BelongsTo(g, items, level, d, x)} :: BelongsTo(g, items, level, d, x)
  }

  /** The levels generated are the nonempty depth classes, in order, and no item has a greater depth. */
  ghost predicate AreDepthLevels(g: Graph, items: set<Node>, levels: seq<seq<Node>>) {
    && (forall i :: 0 <= i < |levels| ==> levels[i] != [] && IsLevel(g, items, levels[i], i))
    && (forall x, d: nat :: x in items && IsDepth(g, x, d) ==> d < |levels|)
  }

  ghost predicate Kept(children0: map<Node, seq<Node>>, deleted: set<Node>, children: map<Node, seq<Node>>, p: Node) {
    && (p in children <==> p in children0 && p !in deleted)
    && (p in children ==> children[p] == children0[p])
  }

  /** `children` is `children0` without the entries of the deleted items. */
  ghost predicate IsWithout(children0: map<Node, seq<Node>>, deleted: set<Node>, children: map<Node, seq<Node>>) {
    forall p {:trigger Kept(children0, deleted, children, p)} :: Kept(children0, deleted, children, p)
  }

  ghost predicate Owes(pairs: Pairs, numParents: map<Node, nat>, pending: multiset<Node>, x: Node) {
    x in numParents ==> numParents[x] == CountInto(pairs, x, numParents.Keys) + pending[x]
  }

  /** The counts, while the decrements for `pending` are still owed. */
  ghost predicate Owing(pairs: Pairs, numParents: map<Node, nat>, pending: multiset<Node>) {
    forall x {:trigger Owes(pairs, numParents, pending, x)} :: Owes(pairs, numParents, pending, x)
  }

  ghost predicate HasWalk(g: Graph, x: Node, d: nat) {
    exists w :: IsWalkTo(g, w, x) && |w| == d + 1
  }

  ghost predicate ShallowerThan(g: Graph, x: Node, n: nat) {
    exists d: nat :: d < n && IsDepth(g, x, d)
  }

  ghost predicate IsPlaced(g: Graph, items: set<Node>, live: set<Node>, n: nat, x: Node) {
    && (x in live ==> x in items && HasWalk(g, x, n))
    && (x in items && x !in live ==> ShallowerThan(g, x, n))
  }

  /** After `n` levels, the deleted items are those shallower than `n`; a walk of `n` edges leads to each other one. */
  ghost predicate Placed(g: Graph, items: set<Node>, live: set<Node>, n: nat) {
    forall x {:trigger IsPlaced(g, items, live, n, x)} :: IsPlaced(g, items, live, n, x)
  }

  lemma {:induction false} PlacedInside(g: Graph, items: set<Node>, live: set<Node>, n: nat)
    requires Placed(g, items, live, n)
    ensures live <= items
  {
    forall x | x in live ensures x in items {
      assert IsPlaced(g, items, live, n, x);
    }
  }

  ghost predicate LevelsSoFar(g: Graph, items: set<Node>, levels: seq<seq<Node>>) {
    levels != [] ==>
      var n := |levels| - 1;
      LevelsSoFar(g, items, levels[..n]) && levels[n] != [] && IsLevel(g, items, levels[n], n)
  }

  lemma {:induction false} AddLevel(g: Graph, items: set<Node>, levels: seq<seq<Node>>, level: seq<Node>)
    requires LevelsSoFar(g, items, levels) && level != [] && IsLevel(g, items, level, |levels|)
    ensures LevelsSoFar(g, items, levels + [level])
  {
    assert (levels + [level])[..|levels|] == levels;
  }

  lemma {:induction false} LevelAt(g: Graph, items: set<Node>, levels: seq<seq<Node>>, i: nat)
    requires LevelsSoFar(g, items, levels) && i < |levels|
    ensures levels[i] != [] && IsLevel(g, items, levels[i], i)
    decreases |levels|
  {
    if i < |levels| - 1 {
      LevelAt(g, items, levels[..|levels| - 1], i);
    }
  }

  method TopSortLevels(pairs: Pairs) returns (r: LevelsResult)
    ensures AreDepthLevels(EdgeSet(pairs), NodesOf(pairs), r.levels)
    ensures r.LevelsCycleError? <==> Cyclic(EdgeSet(pairs))
    ensures r.LevelsCycleError? ==>
              && IsLeftover(pairs, NodesOf(pairs), r.numParents)
              && HasChildrenOf(pairs, r.numParents.Keys, r.children)
  {
    var numParents, children := CountParents(pairs);
    StartChildren(pairs, numParents, children);
    r := TopSortLevelsCore(pairs, numParents, children);
    if r.LevelsCycleError? {
      forall p ensures HasList(pairs, r.numParents.Keys, r.children, p) {
        assert HasList(pairs, numParents.Keys, children, p);
        assert Kept(children, numParents.Keys - r.numParents.Keys, r.children, p);
      }
    }
  }

  method TopSortLevelsCore(ghost pairs: Pairs, numParents0: map<Node, nat>, children0: map<Node, seq<Node>>)
    returns (r: LevelsResult)
    requires Describes(pairs, numParents0, children0)
    ensures AreDepthLevels(EdgeSet(pairs), numParents0.Keys, r.levels)
    ensures r.LevelsCycleError? <==> Cyclic(EdgeSet(pairs))
    ensures r.LevelsCycleError? ==>
              && IsLeftover(pairs, numParents0.Keys, r.numParents)
              && IsWithout(children0, numParents0.Keys - r.numParents.Keys, r.children)
  {
    ghost var g, items := EdgeSet(pairs), numParents0.Keys;
    var numParents, children, levels := numParents0, children0, [];
    StartLevels(pairs, numParents, children);
    while true
      invariant Owing(pairs, numParents, multiset{})
      invariant Placed(g, items, numParents.Keys, |levels|)
      invariant IsWithout(children0, items - numParents.Keys, children)
      invariant LevelsSoFar(g, items, levels)
      decreases |numParents.Keys|
    {
      var level := ZeroKeys(numParents);
      if level == [] {
        break;
      }
      ghost var n := |levels|;
      NextLevel(pairs, items, numParents, level, n);
      Shrinks(numParents.Keys, level);
      AddLevel(g, items, levels, level);
      levels := levels + [level];
      ghost var rest := numParents.Keys - Elements(level);
      numParents, children := ClearLevel(pairs, items, level, numParents, children, children0, n);
      assert numParents.Keys == rest && |levels| == n + 1;
    }
    Exhausted(pairs, items, numParents, levels);
    if numParents != map[] {
      return LevelsCycleError(levels, numParents, children);
    }
    return Levels(levels);
  }

  lemma {:induction false} StartLevels(pairs: Pairs, numParents: map<Node, nat>, children: map<Node, seq<Node>>)
    requires Describes(pairs, numParents, children)
    ensures Owing(pairs, numParents, multiset{})
    ensures Placed(EdgeSet(pairs), numParents.Keys, numParents.Keys, 0)
    ensures IsWithout(children, numParents.Keys - numParents.Keys, children)
  {
    forall x
      ensures Owes(pairs, numParents, multiset{}, x) && Kept(children, numParents.Keys - numParents.Keys, children, x)
    {
    }
    forall x ensures IsPlaced(EdgeSet(pairs), numParents.Keys, numParents.Keys, 0, x) {
      assert IsWalkTo(EdgeSet(pairs), [x], x);
    }
  }

  lemma {:induction false} Shrinks(live: set<Node>, level: seq<Node>)
    requires level != [] && Elements(level) <= live
    ensures |live - Elements(level)| < |live|
  {
    var x := level[|level| - 1];
    assert x in Elements(level);
    SubsetCard(live - Elements(level), live - {x});
  }

  /** The free items are exactly those of depth `n`, and a longer walk leads to each of the others. */
  lemma {:induction false} NextLevel(pairs: Pairs, items: set<Node>, numParents: map<Node, nat>, level: seq<Node>,
                                     n: nat)
    requires NodesOf(pairs) <= items && Distinct(level)
    requires Owing(pairs, numParents, multiset{}) && Placed(EdgeSet(pairs), items, numParents.Keys, n)
    requires forall x :: x in Elements(level) <==> x in numParents && numParents[x] == 0
    ensures Elements(level) <= numParents.Keys
    ensures IsLevel(EdgeSet(pairs), items, level, n)
    ensures Placed(EdgeSet(pairs), items, numParents.Keys - Elements(level), n + 1)
  {
    var g, live := EdgeSet(pairs), numParents.Keys;
    PlacedInside(g, items, live, n);
    forall x ensures BelongsTo(g, items, level, n, x) {
      if x in Elements(level) {
        FreeIsDeep(pairs, items, numParents, x, n);
      } else if x in items && IsDepth(g, x, n) {
        OthersAreDeeper(pairs, items, numParents, x, n);
        DeeperIsNot(g, x, n);
      }
    }
    var rest, n' := live - Elements(level), n + 1;
    forall x ensures IsPlaced(g, items, rest, n', x) {
      assert IsPlaced(g, items, live, n, x) && BelongsTo(g, items, level, n, x);
      if x in items && x !in Elements(level) {
        OthersAreDeeper(pairs, items, numParents, x, n);
      }
    }
  }

  lemma {:induction false} FreeIsDeep(pairs: Pairs, items: set<Node>, numParents: map<Node, nat>, x: Node, n: nat)
    requires NodesOf(pairs) <= items && x in numParents && x in items && numParents[x] == 0
    requires Owing(pairs, numParents, multiset{}) && Placed(EdgeSet(pairs), items, numParents.Keys, n)
    ensures IsDepth(EdgeSet(pairs), x, n)
  {
    var g := EdgeSet(pairs);
    assert Owes(pairs, numParents, multiset{}, x);
    NoParentsLeft(pairs, x, numParents.Keys, items);
    forall p | (p, x) in g ensures exists dp: nat :: dp < n && IsDepth(g, p, dp) {
      assert IsPlaced(g, items, numParents.Keys, n, p);
    }
    assert IsPlaced(g, items, numParents.Keys, n, x);
    var w :| IsWalkTo(g, w, x) && |w| == n + 1;
    DepthFromParents(g, x, n, w);
  }

  lemma {:induction false} OthersAreDeeper(pairs: Pairs, items: set<Node>, numParents: map<Node, nat>, x: Node, n: nat)
    requires x in items && (x in numParents ==> numParents[x] != 0)
    requires Owing(pairs, numParents, multiset{}) && Placed(EdgeSet(pairs), items, numParents.Keys, n)
    ensures if x in numParents then HasWalk(EdgeSet(pairs), x, n + 1) else ShallowerThan(EdgeSet(pairs), x, n)
  {
    var g := EdgeSet(pairs);
    assert IsPlaced(g, items, numParents.Keys, n, x);
    if x in numParents {
      assert Owes(pairs, numParents, multiset{}, x);
      CountIntoPositive(pairs, x, numParents.Keys);
      var p :| p in numParents.Keys && (p, x) in g;
      assert IsPlaced(g, items, numParents.Keys, n, p);
      var w :| IsWalkTo(g, w, p) && |w| == n + 1;
      WalkJoin(g, w, [x]);
      assert IsWalkTo(g, w + [x], x);
    }
  }

  lemma {:induction false} DeeperIsNot(g: Graph, x: Node, n: nat)
    requires HasWalk(g, x, n + 1) || ShallowerThan(g, x, n)
    ensures !IsDepth(g, x, n)
  {
    if ShallowerThan(g, x, n) {
      var d: nat :| d < n && IsDepth(g, x, d);
      if IsDepth(g, x, n) {
        DepthUnique(g, x, d, n);
      }
    }
  }

  /** When nothing is free, what is live is exactly what is downstream of a cycle. */
  lemma {:induction false} Exhausted(pairs: Pairs, items: set<Node>, numParents: map<Node, nat>, levels: seq<seq<Node>>)
    requires NodesOf(pairs) <= items && LevelsSoFar(EdgeSet(pairs), items, levels)
    requires Owing(pairs, numParents, multiset{}) && Placed(EdgeSet(pairs), items, numParents.Keys, |levels|)
    requires forall x :: x in numParents ==> numParents[x] != 0
    ensures IsLeftover(pairs, items, numParents) && (numParents != map[] <==> Cyclic(EdgeSet(pairs)))
    ensures AreDepthLevels(EdgeSet(pairs), items, levels)
  {
    var g, n := EdgeSet(pairs), |levels|;
    forall i | 0 <= i < |levels| ensures levels[i] != [] && IsLevel(g, items, levels[i], i) {
      LevelAt(g, items, levels, i);
    }
    forall x | x in numParents ensures numParents[x] == CountInto(pairs, x, numParents.Keys) {
      assert Owes(pairs, numParents, multiset{}, x);
    }
    forall x | x in items && x !in numParents ensures HasDepth(g, x) && ShallowerThan(g, x, n) {
      assert IsPlaced(g, items, numParents.Keys, n, x);
      var d: nat :| d < n && IsDepth(g, x, d);
    }
    PlacedInside(g, items, numParents.Keys, n);
    StuckItems(pairs, items, numParents);
    LeftoverIffCyclic(pairs, items, numParents);
    forall x, d: nat | x in items && IsDepth(g, x, d) ensures d < n {
      if DownstreamOfCycle(g, x) {
        NoDepthDownstream(g, x, d);
      }
      var e: nat :| e < n && IsDepth(g, x, e);
      DepthUnique(g, x, d, e);
    }
  }

  /** Delete every item of a level and account for it in the counts of its children. */
  method ClearLevel(ghost pairs: Pairs, ghost items: set<Node>, level: seq<Node>, numParents0: map<Node, nat>,
                    children1: map<Node, seq<Node>>, ghost children0: map<Node, seq<Node>>, ghost n: nat)
    returns (numParents: map<Node, nat>, children: map<Node, seq<Node>>)
    requires NodesOf(pairs) <= items && Distinct(level)
    requires ListsChildren(pairs, children0)
    requires Owing(pairs, numParents0, multiset{}) && Placed(EdgeSet(pairs), items, numParents0.Keys, n)
    requires forall x :: x in Elements(level) <==> x in numParents0 && numParents0[x] == 0
    requires IsWithout(children0, items - numParents0.Keys, children1)
    ensures numParents.Keys == numParents0.Keys - Elements(level) && Owing(pairs, numParents, multiset{})
    ensures IsWithout(children0, items - numParents.Keys, children)
  {
    numParents, children := numParents0, children1;
    ghost var live := numParents0.Keys;
    PlacedInside(EdgeSet(pairs), items, live, n);
    var j := 0;
    while j < |level|
      invariant j <= |level| && numParents.Keys == live - Elements(level[..j])
      invariant Owing(pairs, numParents, multiset{})
      invariant IsWithout(children0, items - numParents.Keys, children)
    {
      var parent := level[j];
      LeavesLevel(level, j, live);
      ChildrenAreLater(pairs, items, numParents0, level, n, parent);
      numParents, children := ClearParent(pairs, items, parent, numParents, children, children0);
      j := j + 1;
    }
    assert level[..j] == level;
  }

  lemma {:induction false} LeavesLevel(level: seq<Node>, j: nat, live: set<Node>)
    requires j < |level| && Distinct(level) && Elements(level) <= live
    ensures level[j] in live - Elements(level[..j])
    ensures live - Elements(level[..j]) - {level[j]} == live - Elements(level[..j + 1])
    ensures live - Elements(level) <= live - Elements(level[..j + 1])
  {
    NextIsNew(level, j);
    ElementsTake(level, j);
    ElementsPrefix(level, j + 1);
  }

  /** Delete one item and account for it in the counts of its children. */
  method ClearParent(ghost pairs: Pairs, ghost items: set<Node>, parent: Node, numParents0: map<Node, nat>,
                     children1: map<Node, seq<Node>>, ghost children0: map<Node, seq<Node>>)
    returns (numParents: map<Node, nat>, children: map<Node, seq<Node>>)
    requires parent in numParents0 && numParents0.Keys <= items && ListsChildren(pairs, children0)
    requires Owing(pairs, numParents0, multiset{}) && IsWithout(children0, items - numParents0.Keys, children1)
    requires forall c :: c in ChildrenOf(pairs, parent) ==> c in numParents0.Keys - {parent}
    ensures numParents.Keys == numParents0.Keys - {parent} && Owing(pairs, numParents, multiset{})
    ensures IsWithout(children0, items - numParents.Keys, children)
  {
    numParents, children := numParents0 - {parent}, children1;
    DeleteList(children0, items, numParents0.Keys, children, parent);
    ParentGone(pairs, numParents0, parent);
    ListOf(pairs, children0, items, numParents0.Keys, children, parent);
    if parent in children {
      numParents := Decrement(pairs, children[parent], numParents);
      children := children - {parent};
    }
  }

  lemma {:induction false} ListOf(pairs: Pairs, children0: map<Node, seq<Node>>, items: set<Node>, live: set<Node>,
               children: map<Node, seq<Node>>, parent: Node)
    requires ListsChildren(pairs, children0) && IsWithout(children0, items - live, children) && parent in live
    ensures ChildrenOf(pairs, parent) == if parent in children then children[parent] else []
  {
    assert Kept(children0, items - live, children, parent);
  }

  lemma {:induction false} DeleteList(children0: map<Node, seq<Node>>, items: set<Node>, live: set<Node>,
                                      children: map<Node, seq<Node>>,
                   parent: Node)
    requires IsWithout(children0, items - live, children) && parent in live && live <= items
    ensures IsWithout(children0, items - (live - {parent}), children - {parent})
    ensures parent !in children ==> IsWithout(children0, items - (live - {parent}), children)
  {
    forall p ensures Kept(children0, items - (live - {parent}), children - {parent}, p)
      ensures parent !in children ==> Kept(children0, items - (live - {parent}), children, p)
    {
      assert Kept(children0, items - live, children, p);
    }
  }

  lemma {:induction false} ParentGone(pairs: Pairs, numParents: map<Node, nat>, parent: Node)
    requires parent in numParents && Owing(pairs, numParents, multiset{})
    ensures Owing(pairs, numParents - {parent}, From(ChildrenOf(pairs, parent), 0))
    ensures (numParents - {parent}).Keys == numParents.Keys - {parent}
  {
    var live, chs := numParents.Keys, ChildrenOf(pairs, parent);
    FromIsSuffix(chs, 0);
    assert chs[0..] == chs;
    assert (numParents - {parent}).Keys == live - {parent};
    forall x ensures Owes(pairs, numParents - {parent}, From(chs, 0), x) {
      assert Owes(pairs, numParents, multiset{}, x);
      CountIntoRemove(pairs, x, live, parent);
    }
  }

  /** A child of a live item is neither deleted nor in the level, so it is still a key. */
  lemma {:induction false} ChildrenAreLater(pairs: Pairs, items: set<Node>, numParents: map<Node, nat>,
                                            level: seq<Node>, n: nat, parent: Node)
    requires NodesOf(pairs) <= items && parent in numParents
    requires Owing(pairs, numParents, multiset{}) && Placed(EdgeSet(pairs), items, numParents.Keys, n)
    requires forall x :: x in Elements(level) <==> x in numParents && numParents[x] == 0
    ensures forall c :: c in ChildrenOf(pairs, parent) ==> c in numParents.Keys - Elements(level)
  {
    var g, live := EdgeSet(pairs), numParents.Keys;
    forall c | c in ChildrenOf(pairs, parent) ensures c in live - Elements(level) {
      ChildrenOfMember(pairs, parent, c);
      EdgesStayInside(pairs, parent, c);
      CountIntoPositive(pairs, c, live);
      assert HasParentIn(g, live, c);
      assert Owes(pairs, numParents, multiset{}, c);
      assert IsPlaced(g, items, live, n, parent) && IsPlaced(g, items, live, n, c);
      var w :| IsWalkTo(g, w, parent) && |w| == n + 1;
      WalkJoin(g, w, [c]);
      assert IsWalkTo(g, w + [c], c);
    }
  }

  method Decrement(ghost pairs: Pairs, chs: seq<Node>, numParents0: map<Node, nat>) returns (numParents: map<Node, nat>)
    requires Owing(pairs, numParents0, From(chs, 0))
    requires forall c :: c in chs ==> c in numParents0
    ensures numParents.Keys == numParents0.Keys && Owing(pairs, numParents, multiset{})
  {
    numParents := numParents0;
    var m := 0;
    while m < |chs|
      invariant m <= |chs| && numParents.Keys == numParents0.Keys
      invariant Owing(pairs, numParents, From(chs, m))
    {
      var child := chs[m];
      PayOne(pairs, numParents, child, From(chs, m + 1));
      numParents := numParents[child := numParents[child] - 1];
      m := m + 1;
    }
  }

  lemma {:induction false} PayOne(pairs: Pairs, numParents: map<Node, nat>, child: Node, pending: multiset<Node>)
    requires child in numParents && Owing(pairs, numParents, multiset{child} + pending)
    ensures numParents[child] > 0
    ensures numParents[child := numParents[child] - 1].Keys == numParents.Keys
    ensures Owing(pairs, numParents[child := numParents[child] - 1], pending)
  {
    assert Owes(pairs, numParents, multiset{child} + pending, child);
    var after := numParents[child := numParents[child] - 1];
    assert after.Keys == numParents.Keys;
    forall x ensures Owes(pairs, after, pending, x) {
      assert Owes(pairs, numParents, multiset{child} + pending, x);
    }
  }

  // ----- the two algorithms agree

  /** How many items the first `i` levels hold. */
  ghost function Start(levels: seq<seq<Node>>, i: nat): nat
    requires i <= |levels|
  {
    if i == 0 then 0 else Start(levels, i - 1) + |levels[i - 1]|
  }

  ghost predicate IsBlock(order: seq<Node>, levels: seq<seq<Node>>, i: nat)
    requires i < |levels|
  {
    && Start(levels, i + 1) <= |order|
    && multiset(order[Start(levels, i)..Start(levels, i + 1)]) == multiset(levels[i])
  }

  lemma {:induction false} DepthsOf(g: Graph, order: seq<Node>) returns (depth: seq<nat>)
    requires InDepthOrder(g, order)
    ensures HasDepths(g, order, depth) && IsSorted(depth)
  {
    depth := [];
    for n := 0 to |order|
      invariant |depth| == n && forall j :: 0 <= j < n ==> IsDepth(g, order[j], depth[j])
    {
      assert HasDepth(g, order[n]);
      var d: nat :| IsDepth(g, order[n], d);
      depth := depth + [d];
    }
  }

  ghost predicate IsSorted(depth: seq<nat>) {
    forall i, j :: 0 <= i <= j < |depth| ==> depth[i] <= depth[j]
  }

  /** The positions below `lo` are exactly those of a value smaller than `i`. */
  ghost predicate IsCut(depth: seq<nat>, i: nat, lo: nat) {
    lo <= |depth| && forall j :: 0 <= j < |depth| ==> (depth[j] < i <==> j < lo)
  }

  lemma {:induction false} NextCut(depth: seq<nat>, i: nat, lo: nat) returns (hi: nat)
    requires IsSorted(depth) && IsCut(depth, i, lo)
    ensures lo <= hi && IsCut(depth, i + 1, hi)
  {
    hi := lo;
    while hi < |depth| && depth[hi] == i
      invariant lo <= hi <= |depth| && forall j :: lo <= j < hi ==> depth[j] == i
    {
      hi := hi + 1;
    }
  }

  ghost predicate HasDepths(g: Graph, order: seq<Node>, depth: seq<nat>) {
    |depth| == |order| && forall j :: 0 <= j < |order| ==> IsDepth(g, order[j], depth[j])
  }

  lemma {:induction false} DepthIsListed(g: Graph, items: set<Node>, order: seq<Node>, depth: seq<nat>, x: Node, d: nat)
    returns (j: nat)
    requires ListsUpstream(g, items, order) && HasDepths(g, order, depth) && x in items && IsDepth(g, x, d)
    ensures j < |order| && order[j] == x && depth[j] == d
  {
    if DownstreamOfCycle(g, x) {
      NoDepthDownstream(g, x, d);
    }
    j :| 0 <= j < |order| && order[j] == x;
    DepthUnique(g, x, d, depth[j]);
  }

  lemma {:induction false} BlockMember(g: Graph, items: set<Node>, order: seq<Node>, depth: seq<nat>,
                                       level: seq<Node>, i: nat,
                    lo: nat, hi: nat, x: Node)
    requires ListsUpstream(g, items, order) && HasDepths(g, order, depth) && IsLevel(g, items, level, i)
    requires lo <= hi && IsCut(depth, i, lo) && IsCut(depth, i + 1, hi)
    ensures x in order[lo..hi] <==> x in level
  {
    ElementsMember(level, x);
    assert BelongsTo(g, items, level, i, x);
    if x in level {
      var j := DepthIsListed(g, items, order, depth, x, i);
      assert order[lo..hi][j - lo] == x;
    }
    if x in order[lo..hi] {
      var j :| lo <= j < hi && order[j] == x;
      assert IsDepth(g, order[j], depth[j]) && depth[j] == i && x in order;
    }
  }

  lemma {:induction false} CutLevel(g: Graph, items: set<Node>, order: seq<Node>, depth: seq<nat>,
                                    levels: seq<seq<Node>>, i: nat)
    requires ListsUpstream(g, items, order) && HasDepths(g, order, depth) && IsSorted(depth)
    requires i < |levels| && IsLevel(g, items, levels[i], i) && IsCut(depth, i, Start(levels, i))
    ensures IsBlock(order, levels, i) && IsCut(depth, i + 1, Start(levels, i + 1))
  {
    var lo := Start(levels, i);
    var hi := NextCut(depth, i, lo);
    forall x ensures x in order[lo..hi] <==> x in levels[i] {
      BlockMember(g, items, order, depth, levels[i], i, lo, hi, x);
    }
    NoDupCard(levels[i]);
    NoDupSameElements(order[lo..hi], levels[i]);
  }

  /** Cut at the level boundaries, the flat order is the levels themselves, up to order within a level. */
  lemma {:induction false} OrderAgreesWithLevels(g: Graph, items: set<Node>, order: seq<Node>, levels: seq<seq<Node>>)
    requires ListsUpstream(g, items, order) && InDepthOrder(g, order) && AreDepthLevels(g, items, levels)
    ensures |order| == Start(levels, |levels|)
    ensures forall i :: 0 <= i < |levels| ==> IsBlock(order, levels, i)
  {
    var depth := DepthsOf(g, order);
    for i := 0 to |levels|
      invariant IsCut(depth, i, Start(levels, i))
      invariant forall m :: 0 <= m < i ==> IsBlock(order, levels, m)
    {
      assert IsLevel(g, items, levels[i], i);
      CutLevel(g, items, order, depth, levels, i);
    }
    forall j | 0 <= j < |order| ensures depth[j] < |levels| {
      assert order[j] in order && IsDepth(g, order[j], depth[j]);
    }
    if order != [] {
      var last := |order| - 1;
      assert depth[last] < |levels| && last < Start(levels, |levels|);
    }
  }
}
