/** The search for cycles as a plain recursion: every simple path from each start, depth first. */
module CycleSearch {
  import opened Sequences
  import opened Graphs
  import opened Rotations

  type Adjacency = map<Node, seq<Node>>

  ghost predicate HasRotationOf(cycles: seq<seq<Node>>, c: seq<Node>) {
    exists i :: 0 <= i < |cycles| && IsRotation(cycles[i], c)
  }

  /** The first position of `x` in `s`. */
  function IndexOf(s: seq<Node>, x: Node): (i: nat)
    requires x in s
    ensures i < |s| && s[i] == x
  {
    if s[0] == x then 0 else 1 + IndexOf(s[1..], x)
  }

  ghost function Extensions(path: seq<Node>, chs: seq<Node>, j: nat): seq<seq<Node>>
    requires j <= |chs|
  {
    if j == 0 then []
    else Extensions(path, chs, j - 1) + if chs[j - 1] in path then [] else [path + [chs[j - 1]]]
  }

  ghost function NodesIn(adj: Adjacency): set<Node> {
    adj.Keys + set p, c | p in adj && c in adj[p] :: c
  }

  ghost function ChildrenIn(adj: Adjacency, path: seq<Node>): seq<Node>
    requires path != []
  {
    if path[|path| - 1] in adj then adj[path[|path| - 1]] else []
  }

  // ----- one path

  /** A child on the path closes a cycle, from its place on the path on; a rotation of a known one is not added. */
  ghost function Close(path: seq<Node>, chs: seq<Node>, j: nat, cycles: seq<seq<Node>>): seq<seq<Node>>
    requires j <= |chs|
  {
    if j == 0 then cycles
    else
      var before := Close(path, chs, j - 1, cycles);
      if chs[j - 1] !in path then before
      else
        var cycle := path[IndexOf(path, chs[j - 1])..];
        if HasRotationOf(before, cycle) then before else before + [cycle]
  }

  lemma {:induction false} Deeper(adj: Adjacency, path: seq<Node>, c: Node)
    requires path != [] && c in ChildrenIn(adj, path) && c !in path
    ensures |NodesIn(adj) - Elements(path + [c])| < |NodesIn(adj) - Elements(path)|
  {
    ElementsSnoc(path, c);
    ElementsMember(path, c);
    assert c in NodesIn(adj);
    var a, b := NodesIn(adj) - Elements(path + [c]), NodesIn(adj) - Elements(path);
    assert a == b - {c} && c in b;
  }

  /** The cycles known after a path and all behind it: first its own, then those of its extensions, last child first. */
  ghost function Dfs(adj: Adjacency, path: seq<Node>, cycles: seq<seq<Node>>): seq<seq<Node>>
    requires path != []
    decreases |NodesIn(adj) - Elements(path)|, |ChildrenIn(adj, path)| + 1
  {
    var chs := ChildrenIn(adj, path);
    DfsChildren(adj, path, |chs|, Close(path, chs, |chs|, cycles))
  }

  ghost function DfsChildren(adj: Adjacency, path: seq<Node>, j: nat, cycles: seq<seq<Node>>): seq<seq<Node>>
    requires path != [] && j <= |ChildrenIn(adj, path)|
    decreases |NodesIn(adj) - Elements(path)|, j
  {
    if j == 0 then cycles
    else
      var c := ChildrenIn(adj, path)[j - 1];
      if c in path then DfsChildren(adj, path, j - 1, cycles)
      else
        Deeper(adj, path, c);
        DfsChildren(adj, path, j - 1, Dfs(adj, path + [c], cycles))
  }

  // ----- all starts

  ghost function DfsEach(adj: Adjacency, keys: seq<Node>, cycles: seq<seq<Node>>): seq<seq<Node>> {
    if keys == [] then cycles
    else Dfs(adj, [keys[|keys| - 1]], DfsEach(adj, keys[..|keys| - 1], cycles))
  }

  lemma {:induction false} EachNext(adj: Adjacency, keys: seq<Node>, key: Node)
    ensures DfsEach(adj, keys + [key], []) == Dfs(adj, [key], DfsEach(adj, keys, []))
  {
    assert (keys + [key])[..|keys|] == keys;
  }

  ghost predicate IsOrderOf(keys: seq<Node>, all: set<Node>) {
    Distinct(keys) && Elements(keys) == all
  }

  lemma {:induction false} NextKey(keys: seq<Node>, all: set<Node>, rest: set<Node>, key: Node)
    requires IsOrderOf(keys, all - rest) && key in rest && rest <= all
    ensures IsOrderOf(keys + [key], all - (rest - {key}))
  {
    ElementsSnoc(keys, key);
    assert all - (rest - {key}) == (all - rest) + {key};
  }

  // ----- a stack of paths does the same

  ghost predicate ArePaths(paths: seq<seq<Node>>) {
    forall i :: 0 <= i < |paths| ==> paths[i] != []
  }

  ghost function DfsStack(adj: Adjacency, paths: seq<seq<Node>>, cycles: seq<seq<Node>>): seq<seq<Node>>
    requires ArePaths(paths)
    decreases |paths|
  {
    if paths == [] then cycles
    else DfsStack(adj, paths[..|paths| - 1], Dfs(adj, paths[|paths| - 1], cycles))
  }

  lemma {:induction false} StackPop(adj: Adjacency, rest: seq<seq<Node>>, path: seq<Node>, cycles: seq<seq<Node>>)
    requires ArePaths(rest) && path != []
    ensures ArePaths(rest + [path])
    ensures DfsStack(adj, rest + [path], cycles) == DfsStack(adj, rest, Dfs(adj, path, cycles))
  {
    assert (rest + [path])[..|rest|] == rest;
  }

  lemma {:induction false} StackOfOne(adj: Adjacency, path: seq<Node>, cycles: seq<seq<Node>>)
    requires path != []
    ensures ArePaths([path]) && DfsStack(adj, [path], cycles) == Dfs(adj, path, cycles)
  {
    assert [] + [path] == [path];
    StackPop(adj, [], path, cycles);
  }

  lemma {:induction false} OneMoreExtension(rest: seq<seq<Node>>, path: seq<Node>, chs: seq<Node>, j: nat)
    requires 0 < j <= |chs|
    ensures var before := rest + Extensions(path, chs, j - 1);
            rest + Extensions(path, chs, j) == if chs[j - 1] in path then before else before + [path + [chs[j - 1]]]
  {
  }

  ghost predicate StackIs(adj: Adjacency, paths: seq<seq<Node>>, cycles: seq<seq<Node>>, result: seq<seq<Node>>) {
    ArePaths(paths) && DfsStack(adj, paths, cycles) == result
  }

  lemma {:induction false} ChildrenNext(adj: Adjacency, path: seq<Node>, j: nat, cycles: seq<seq<Node>>)
    requires path != [] && 0 < j <= |ChildrenIn(adj, path)|
    ensures var c := ChildrenIn(adj, path)[j - 1];
            DfsChildren(adj, path, j, cycles) ==
            DfsChildren(adj, path, j - 1, if c in path then cycles else Dfs(adj, path + [c], cycles))
  {
  }

  lemma {:induction false} PushedChild(adj: Adjacency, before: seq<seq<Node>>, path: seq<Node>, c: Node,
                                       cycles: seq<seq<Node>>, result: seq<seq<Node>>)
    requires StackIs(adj, before, Dfs(adj, path + [c], cycles), result)
    ensures StackIs(adj, before + [path + [c]], cycles, result)
  {
    StackPop(adj, before, path + [c], cycles);
  }

  lemma {:induction false} StackOfChildren(adj: Adjacency, rest: seq<seq<Node>>, path: seq<Node>, j: nat,
                                           cycles: seq<seq<Node>>)
    requires ArePaths(rest) && path != [] && j <= |ChildrenIn(adj, path)|
    ensures StackIs(adj, rest + Extensions(path, ChildrenIn(adj, path), j), cycles,
                    DfsStack(adj, rest, DfsChildren(adj, path, j, cycles)))
  {
    var chs := ChildrenIn(adj, path);
    if j == 0 {
      assert rest + Extensions(path, chs, 0) == rest;
    } else {
      var c, before := chs[j - 1], rest + Extensions(path, chs, j - 1);
      OneMoreExtension(rest, path, chs, j);
      ChildrenNext(adj, path, j, cycles);
      var next := if c in path then cycles else Dfs(adj, path + [c], cycles);
      var result := DfsStack(adj, rest, DfsChildren(adj, path, j - 1, next));
      StackOfChildren(adj, rest, path, j - 1, next);
      if c !in path {
        PushedChild(adj, before, path, c, cycles, result);
      }
    }
  }

  /** Taking a path from the stack, closing its cycles and pushing its extensions leaves the outcome as it was. */
  lemma {:induction false} PopIsVisit(adj: Adjacency, rest: seq<seq<Node>>, path: seq<Node>, cycles: seq<seq<Node>>)
    requires ArePaths(rest) && path != []
    ensures var chs := ChildrenIn(adj, path);
            var paths := rest + Extensions(path, chs, |chs|);
            && ArePaths(paths) && ArePaths(rest + [path])
            && DfsStack(adj, paths, Close(path, chs, |chs|, cycles)) == DfsStack(adj, rest + [path], cycles)
  {
    var chs := ChildrenIn(adj, path);
    StackOfChildren(adj, rest, path, |chs|, Close(path, chs, |chs|, cycles));
    StackPop(adj, rest, path, cycles);
  }
}
