/** Factoring the common call stack out of the edges of an event node. */
module SharedStack {
  import opened Wrappers

  type Stack = seq<string>

  // ----- the longest common prefix

  ghost predicate IsCommonPrefix(p: Stack, stacks: seq<Stack>) {
    forall i :: 0 <= i < |stacks| ==> p <= stacks[i]
  }

  ghost predicate IsLongestCommonPrefix(p: Stack, stacks: seq<Stack>) {
    IsCommonPrefix(p, stacks) && forall q :: IsCommonPrefix(q, stacks) ==> q <= p
  }

  predicate NoneEmpty(stacks: seq<Stack>) {
    forall i :: 0 <= i < |stacks| ==> stacks[i] != []
  }

  predicate HeadsAgree(stacks: seq<Stack>) {
    && stacks != [] && NoneEmpty(stacks)
    && forall i :: 0 <= i < |stacks| ==> stacks[i] != [] && stacks[i][0] == stacks[0][0]
  }

  function Tails(stacks: seq<Stack>): (r: seq<Stack>)
    requires NoneEmpty(stacks)
    ensures |r| == |stacks| && forall i :: 0 <= i < |r| ==> r[i] == stacks[i][1..]
  {
    seq(|stacks|, i requires 0 <= i < |stacks| => stacks[i][1..])
  }

  function Prefix(stacks: seq<Stack>): Stack
    decreases if stacks == [] then 0 else |stacks[0]|
  {
    if HeadsAgree(stacks) then [stacks[0][0]] + Prefix(Tails(stacks)) else []
  }

  /** What is left after the common prefix. */
  function Rests(stacks: seq<Stack>): (r: seq<Stack>)
    ensures |r| == |stacks| && !HeadsAgree(r)
    decreases if stacks == [] then 0 else |stacks[0]|
  {
    if HeadsAgree(stacks) then Rests(Tails(stacks)) else stacks
  }

  lemma {:induction false} ConsPrefix(x: string, p: Stack, s: Stack)
    requires s != [] && s[0] == x
    ensures [x] + p <= s <==> p <= s[1..]
  {
    assert s == [x] + s[1..];
    if p <= s[1..] {
      assert s[1..] == p + s[1..][|p|..];
      assert s == ([x] + p) + s[1..][|p|..];
    }
    if [x] + p <= s {
      assert s[1..][..|p|] == s[1..|p| + 1] == ([x] + p)[1..] == p;
    }
  }

  lemma {:induction false} CommonPrefixOfTails(stacks: seq<Stack>, x: string, p: Stack)
    requires HeadsAgree(stacks) && x == stacks[0][0]
    ensures IsCommonPrefix([x] + p, stacks) <==> IsCommonPrefix(p, Tails(stacks))
  {
    forall i | 0 <= i < |stacks| ensures [x] + p <= stacks[i] <==> p <= Tails(stacks)[i] {
      ConsPrefix(x, p, stacks[i]);
    }
  }

  /** A nonempty common prefix starts with the common head. */
  lemma {:induction false} NonemptyPrefix(stacks: seq<Stack>, q: Stack)
    requires stacks != [] && q != [] && IsCommonPrefix(q, stacks)
    ensures HeadsAgree(stacks) && q[0] == stacks[0][0] && q == [stacks[0][0]] + q[1..]
  {
    forall i | 0 <= i < |stacks| ensures stacks[i] != [] && stacks[i][0] == q[0] {
      assert q <= stacks[i];
    }
  }

  lemma {:induction false} PrefixIsLongest(stacks: seq<Stack>)
    requires stacks != []
    ensures IsLongestCommonPrefix(Prefix(stacks), stacks)
    decreases |stacks[0]|
  {
    if HeadsAgree(stacks) {
      var x := stacks[0][0];
      PrefixIsLongest(Tails(stacks));
      CommonPrefixOfTails(stacks, x, Prefix(Tails(stacks)));
    }
    forall q | IsCommonPrefix(q, stacks) ensures q <= Prefix(stacks) {
      LongerThan(stacks, q);
    }
  }

  lemma {:induction false} LongerThan(stacks: seq<Stack>, q: Stack)
    requires stacks != [] && IsCommonPrefix(q, stacks)
    ensures q <= Prefix(stacks)
    decreases |stacks[0]|
  {
    if q != [] {
      NonemptyPrefix(stacks, q);
      CommonPrefixOfTails(stacks, stacks[0][0], q[1..]);
      LongerThan(Tails(stacks), q[1..]);
    }
  }

  lemma {:induction false} LongestIsUnique(stacks: seq<Stack>, p: Stack)
    requires stacks != []
    ensures IsLongestCommonPrefix(p, stacks) <==> p == Prefix(stacks)
  {
    PrefixIsLongest(stacks);
  }

  // ----- one round of comparing heads

  /** The empty string counts as no frame at all, so the frame of a later edge replaces it. */
  function CompareHeads(stacks: seq<Stack>, common: Option<string>): Option<string> {
    if stacks == [] then common
    else if stacks[0] == [] then None
    else
      var frame := stacks[0][0];
      var c := if common == None || common == Some("") then frame else common.value;
      if c != frame then None else CompareHeads(stacks[1..], Some(c))
  }

  function Round(stacks: seq<Stack>): Option<string> {
    CompareHeads(stacks, None)
  }

  predicate IsFrame(c: Option<string>) {
    c.Some? && c.value != ""
  }

  lemma {:induction false} MatchedHeads(stacks: seq<Stack>, common: Option<string>)
    requires CompareHeads(stacks, common).Some?
    ensures NoneEmpty(stacks)
    ensures common == Some("") || common == None ||
            forall i :: 0 <= i < |stacks| ==> stacks[i] != [] && stacks[i][0] == common.value
    decreases |stacks|
  {
    if stacks != [] {
      var frame := stacks[0][0];
      var c := if common == None || common == Some("") then frame else common.value;
      MatchedHeads(stacks[1..], Some(c));
      assert forall i :: 1 <= i < |stacks| ==> stacks[i] == stacks[1..][i - 1];
    }
  }

  lemma {:induction false} EqualHeadsMatch(stacks: seq<Stack>, x: string, common: Option<string>)
    requires stacks != [] && forall i :: 0 <= i < |stacks| ==> stacks[i] != [] && stacks[i][0] == x
    requires common == None || common == Some("") || common == Some(x)
    ensures CompareHeads(stacks, common) == Some(x)
    decreases |stacks|
  {
    if |stacks| > 1 {
      EqualHeadsMatch(stacks[1..], x, Some(x));
    } else {
      assert stacks[1..] == [];
    }
  }

  lemma {:induction false} AgreeingHeads(stacks: seq<Stack>)
    requires HeadsAgree(stacks)
    ensures Round(stacks) == Some(stacks[0][0])
  {
    EqualHeadsMatch(stacks, stacks[0][0], None);
  }

  /** The first `k` heads are empty strings and all others are one nonempty frame. */
  ghost predicate MatchesFrom(stacks: seq<Stack>, k: nat) {
    && k < |stacks| && NoneEmpty(stacks)
    && (forall i :: 0 <= i < k ==> stacks[i] != [] && stacks[i][0] == "")
    && (forall i :: k <= i < |stacks| ==> stacks[i] != [] && stacks[i][0] == stacks[k][0] != "")
  }

  ghost predicate Matches(stacks: seq<Stack>) {
    exists k: nat :: MatchesFrom(stacks, k)
  }

  lemma {:induction false} EmptyHeadsPass(stacks: seq<Stack>, k: nat, common: Option<string>)
    requires MatchesFrom(stacks, k) && (common == None || common == Some(""))
    ensures CompareHeads(stacks, common) == Some(stacks[k][0])
    decreases k
  {
    if k == 0 {
      EqualHeadsMatch(stacks, stacks[0][0], common);
    } else {
      var rest := stacks[1..];
      assert forall i :: 0 <= i < |rest| ==> rest[i] == stacks[i + 1];
      EmptyHeadsPass(rest, k - 1, Some(""));
    }
  }

  lemma {:induction false} MatchOfTail(stacks: seq<Stack>, k: nat)
    requires stacks != [] && stacks[0] != [] && stacks[0][0] == "" && MatchesFrom(stacks[1..], k)
    ensures MatchesFrom(stacks, k + 1)
  {
    assert forall i :: 1 <= i < |stacks| ==> stacks[i] == stacks[1..][i - 1];
  }

  lemma {:induction false} FrameIsMatched(stacks: seq<Stack>, common: Option<string>) returns (k: nat)
    requires (common == None || common == Some("")) && IsFrame(CompareHeads(stacks, common))
    ensures MatchesFrom(stacks, k)
    decreases |stacks|
  {
    MatchedHeads(stacks, common);
    var x := stacks[0][0];
    if x == "" {
      k := FrameIsMatched(stacks[1..], Some(""));
      MatchOfTail(stacks, k);
      k := k + 1;
    } else {
      k := 0;
      MatchedHeads(stacks[1..], Some(x));
      assert forall i :: 1 <= i < |stacks| ==> stacks[i] == stacks[1..][i - 1];
    }
  }

  /** A round finds a frame exactly if the heads are empty strings up to some edge and that frame from there on. */
  lemma {:induction false} RoundIff(stacks: seq<Stack>)
    ensures IsFrame(Round(stacks)) <==> Matches(stacks)
    ensures forall k: nat :: MatchesFrom(stacks, k) ==> Round(stacks) == Some(stacks[k][0])
  {
    forall k: nat | MatchesFrom(stacks, k) ensures Round(stacks) == Some(stacks[k][0]) && IsFrame(Round(stacks)) {
      EmptyHeadsPass(stacks, k, None);
    }
    if IsFrame(Round(stacks)) {
      var k := FrameIsMatched(stacks, None);
    }
  }

  method Compare(stacks: seq<Stack>) returns (common: Option<string>)
    ensures common == Round(stacks) && (IsFrame(common) <==> Matches(stacks))
    ensures forall k: nat :: MatchesFrom(stacks, k) ==> common == Some(stacks[k][0])
  {
    RoundIff(stacks);
    common := None;
    var rest := stacks;
    while rest != []
      invariant Round(stacks) == CompareHeads(rest, common)
      decreases |rest|
    {
      if |rest[0]| == 0 {
        return None;
      }
      var frame := rest[0][0];
      if common == None || common == Some("") {
        common := Some(frame);
      }
      if common != Some(frame) {
        return None;
      }
      rest := rest[1..];
    }
  }

  // ----- the node

  datatype Edge = Edge(timestamp: int, stack: Stack)

  function Stacks(edges: seq<Edge>): (r: seq<Stack>)
    ensures |r| == |edges| && forall i :: 0 <= i < |r| ==> r[i] == edges[i].stack
  {
    seq(|edges|, i requires 0 <= i < |edges| => edges[i].stack)
  }

  function Times(edges: seq<Edge>): (r: seq<int>)
    ensures |r| == |edges| && forall i :: 0 <= i < |r| ==> r[i] == edges[i].timestamp
  {
    seq(|edges|, i requires 0 <= i < |edges| => edges[i].timestamp)
  }

  function Pop(edges: seq<Edge>): (r: seq<Edge>)
    requires NoneEmpty(Stacks(edges))
    ensures Stacks(r) == Tails(Stacks(edges)) && Times(r) == Times(edges)
  {
    seq(|edges|, i requires 0 <= i < |edges| =>
      assert Stacks(edges)[i] == edges[i].stack;
      edges[i].(stack := edges[i].stack[1..]))
  }

  /** The frames taken off and the stacks that remain. */
  function Share(stacks: seq<Stack>): (Stack, seq<Stack>)
    decreases if stacks == [] then 0 else |stacks[0]|
  {
    var c := Round(stacks);
    if stacks == [] || !IsFrame(c) then ([], stacks)
    else
      MatchedHeads(stacks, None);
      var (shared, rest) := Share(Tails(stacks));
      ([c.value] + shared, rest)
  }

  /** Zero counts as no time at all, so a later time replaces it. */
  function Earliest(times: seq<int>): Option<int> {
    if times == [] then None
    else
      var t := times[|times| - 1];
      var e := Earliest(times[..|times| - 1]);
      if e == None || e == Some(0) || e.value > t then Some(t) else e
  }

  class EventNode {
    var edges: seq<Edge>
    var sharedStack: Stack
    var time: Option<int>

    constructor (edges: seq<Edge>, time: Option<int>)
      ensures this.edges == edges && this.time == time && sharedStack == []
    {
      this.edges, this.time, sharedStack := edges, time, [];
    }

    method FactorStack()
      modifies this`edges, this`sharedStack
      ensures (sharedStack, Stacks(edges)) == Share(Stacks(old(edges))) && Times(edges) == Times(old(edges))
    {
      ghost var all := Share(Stacks(edges));
      sharedStack := [];
      var common := Some("trash");
      while IsFrame(common)
        invariant IsFrame(common) ==> StillToShare(all, sharedStack, Stacks(edges))
        invariant !IsFrame(common) ==> all == (sharedStack, Stacks(edges))
        invariant Times(edges) == Times(old(edges))
        decreases if IsFrame(common) then 1 else 0, if edges == [] then 0 else |edges[0].stack|
      {
        common := Compare(Stacks(edges));
        if IsFrame(common) {
          RoundPops(edges, all, sharedStack);
          edges := Pop(edges);
          sharedStack := sharedStack + [common.value];
        } else {
          RoundStops(edges, all, sharedStack);
        }
      }
    }

    method SetTime()
      modifies this`time
      ensures time == if edges == [] then old(time) else Earliest(Times(edges))
    {
      var smallest: Option<int> := None;
      var i := 0;
      while i < |edges|
        invariant 0 <= i <= |edges| && smallest == Earliest(Times(edges)[..i])
      {
        var t := edges[i].timestamp;
        assert Times(edges)[..i + 1][..i] == Times(edges)[..i];
        if smallest == None || smallest == Some(0) {
          smallest := Some(t);
        }
        if smallest.value > t {
          smallest := Some(t);
        }
        i := i + 1;
      }
      assert Times(edges)[..i] == Times(edges);
      if smallest != None {
        time := smallest;
      }
    }
  }

  ghost predicate StillToShare(all: (Stack, seq<Stack>), done: Stack, stacks: seq<Stack>) {
    all.0 == done + Share(stacks).0 && all.1 == Share(stacks).1
  }

  lemma {:induction false} RoundPops(edges: seq<Edge>, all: (Stack, seq<Stack>), done: Stack)
    requires IsFrame(Round(Stacks(edges))) && StillToShare(all, done, Stacks(edges))
    ensures edges != [] && NoneEmpty(Stacks(edges)) && edges[0].stack != []
    ensures StillToShare(all, done + [Round(Stacks(edges)).value], Stacks(Pop(edges)))
  {
    var stacks := Stacks(edges);
    MatchedHeads(stacks, None);
    assert stacks[0] == edges[0].stack;
    var c, rest := Round(stacks).value, Share(Tails(stacks)).0;
    assert Share(stacks).0 == [c] + rest;
    assert done + ([c] + rest) == (done + [c]) + rest;
  }

  lemma {:induction false} RoundStops(edges: seq<Edge>, all: (Stack, seq<Stack>), done: Stack)
    requires !IsFrame(Round(Stacks(edges))) && StillToShare(all, done, Stacks(edges))
    ensures all == (done, Stacks(edges))
  {
    assert Share(Stacks(edges)) == ([], Stacks(edges));
    assert done + [] == done;
  }

  // ----- what is shared

  /**
    No frame of the common prefix is empty, and the heads of what follows it are not empty strings up to some
    edge and one nonempty frame from there on.
   */
  ghost predicate IsFaithful(stacks: seq<Stack>) {
    (forall i :: 0 <= i < |Prefix(stacks)| ==> Prefix(stacks)[i] != "") && !Matches(Rests(stacks))
  }

  lemma {:induction false} FaithfulTails(stacks: seq<Stack>)
    requires HeadsAgree(stacks)
    ensures IsFaithful(stacks) <==> stacks[0][0] != "" && IsFaithful(Tails(stacks))
  {
    var rest := Prefix(Tails(stacks));
    var p := Prefix(stacks);
    assert p == [stacks[0][0]] + rest && Rests(stacks) == Rests(Tails(stacks));
    assert p[0] == stacks[0][0];
    assert forall i :: 0 <= i < |rest| ==> rest[i] == p[i + 1];
    assert forall i :: 1 <= i < |p| ==> p[i] == rest[i - 1];
  }

  lemma {:induction false} SharedIs(stacks: seq<Stack>)
    requires stacks != []
    ensures Share(stacks).0 == Prefix(stacks) <==> IsFaithful(stacks)
    ensures IsFaithful(stacks) ==> Share(stacks).1 == Rests(stacks)
    decreases |stacks[0]|
  {
    if HeadsAgree(stacks) {
      AgreeingHeads(stacks);
      FaithfulTails(stacks);
      if stacks[0][0] != "" {
        SharedIs(Tails(stacks));
        var x := stacks[0][0];
        var shared, prefix := Share(Tails(stacks)).0, Prefix(Tails(stacks));
        assert Share(stacks).0 == [x] + shared && Prefix(stacks) == [x] + prefix;
        assert ([x] + shared)[1..] == shared && ([x] + prefix)[1..] == prefix;
      }
    } else {
      RoundIff(stacks);
    }
  }

  lemma {:induction false} HeadAndRest(x: string, p: Stack, r: Stack, s: Stack)
    requires s != [] && s[0] == x && s[1..] == p + r
    ensures s == ([x] + p) + r
  {
    assert s == [x] + s[1..];
  }

  lemma {:induction false} PrefixAndRest(stacks: seq<Stack>, i: nat)
    requires i < |stacks|
    ensures stacks[i] == Prefix(stacks) + Rests(stacks)[i]
    decreases |stacks[0]|
  {
    if HeadsAgree(stacks) {
      PrefixAndRest(Tails(stacks), i);
      HeadAndRest(stacks[0][0], Prefix(Tails(stacks)), Rests(Tails(stacks))[i], stacks[i]);
    }
  }

  /** Every stack is the shared one followed by what remains of it, and no longer stack could be shared. */
  ghost predicate IsFactored(stacks: seq<Stack>, shared: Stack, rests: seq<Stack>) {
    && IsLongestCommonPrefix(shared, stacks) && |rests| == |stacks|
    && forall i :: 0 <= i < |stacks| ==> stacks[i] == shared + rests[i]
  }

  /** The stacks are factored properly exactly under the condition above. */
  lemma {:induction false} FactoredIff(stacks: seq<Stack>)
    requires stacks != []
    ensures IsFactored(stacks, Share(stacks).0, Share(stacks).1) <==> IsFaithful(stacks)
  {
    SharedIs(stacks);
    LongestIsUnique(stacks, Share(stacks).0);
    if IsFaithful(stacks) {
      forall i | 0 <= i < |stacks| ensures stacks[i] == Share(stacks).0 + Share(stacks).1[i] {
        PrefixAndRest(stacks, i);
      }
    }
  }

  ghost predicate HasFrames(s: Stack) {
    forall i :: 0 <= i < |s| ==> s[i] != ""
  }

  lemma {:induction false} FirstHeadAgrees(stacks: seq<Stack>, k: nat)
    requires MatchesFrom(stacks, k) && (stacks[0] != [] ==> stacks[0][0] != "")
    ensures HeadsAgree(stacks)
  {
    assert k == 0;
  }

  /** In particular whenever no frame is the empty string. */
  lemma {:induction false} NonemptyFramesAreFaithful(stacks: seq<Stack>)
    requires stacks != [] && forall i :: 0 <= i < |stacks| ==> HasFrames(stacks[i])
    ensures IsFaithful(stacks)
  {
    PrefixAndRest(stacks, 0);
    var p, r := Prefix(stacks), Rests(stacks)[0];
    assert HasFrames(stacks[0]);
    assert forall i :: 0 <= i < |p| ==> p[i] == stacks[0][i];
    assert r != [] ==> r[0] == stacks[0][|p|];
    forall k: nat ensures !MatchesFrom(Rests(stacks), k) {
      if MatchesFrom(Rests(stacks), k) {
        FirstHeadAgrees(Rests(stacks), k);
      }
    }
  }

  /** An empty frame gives way to the frame of another edge, which is then shared although it is not common. */
  lemma {:induction false} EmptyFrameGivesWay(x: string)
    requires x != ""
    ensures Share([[""], [x]]) == ([x], [[], []])
    ensures !IsFactored([[""], [x]], [x], [[], []])
  {
    var stacks := [[""], [x]];
    assert stacks[1..] == [[x]] && stacks[1..][1..] == [];
    assert Round(stacks) == CompareHeads([[x]], Some("")) == CompareHeads([], Some(x));
    MatchedHeads(stacks, None);
    assert Tails(stacks) == [[], []];
    assert Share([[], []]) == ([], [[], []]);
    assert stacks[0] == [""] && [x] + [] == [x];
  }

  // ----- the time of the node

  ghost predicate IsMinimum(m: int, times: seq<int>) {
    m in times && forall i :: 0 <= i < |times| ==> m <= times[i]
  }

  lemma {:induction false} HasMinimum(times: seq<int>) returns (m: int)
    requires times != []
    ensures IsMinimum(m, times)
  {
    m := times[|times| - 1];
    if |times| > 1 {
      var front := times[..|times| - 1];
      var k := HasMinimum(front);
      assert forall i :: 0 <= i < |front| ==> front[i] == times[i];
      m := if k < m then k else m;
    }
  }

  /** The time of the node is the smallest one exactly when that is not zero or zero comes last. */
  lemma {:induction false} EarliestIsMinimumIff(times: seq<int>, m: int)
    requires IsMinimum(m, times)
    ensures Earliest(times).Some? && m <= Earliest(times).value
    ensures Earliest(times) == Some(m) <==> m != 0 || times[|times| - 1] == 0
  {
    var n := |times| - 1;
    if n > 0 {
      var front := times[..n];
      var k := HasMinimum(front);
      EarliestIsMinimumIff(front, k);
      assert forall i :: 0 <= i < n ==> front[i] == times[i];
      var j :| 0 <= j < |times| && times[j] == m;
      assert j < n ==> front[j] == m;
      assert m == if k < times[n] then k else times[n];
    } else {
      assert times[..0] == [];
    }
  }

  /** A time of zero gives way to a later time although that is greater. */
  lemma {:induction false} ZeroGivesWay(time: int)
    requires time > 0
    ensures IsMinimum(0, [0, time]) && Earliest([0, time]) == Some(time)
  {
    assert [0, time][0] == 0;
    assert [0, time][..1] == [0] && [0][..0] == [];
    assert Earliest([0]) == Some(0);
  }

  /** Otherwise it is the smallest of the times after the last zero. */
  lemma {:induction false} EarliestAfterZero(times: seq<int>, k: nat)
    requires k < |times| - 1 && times[k] == 0 && IsMinimum(0, times) && forall i :: k < i < |times| ==> times[i] != 0
    ensures Earliest(times).Some? && IsMinimum(Earliest(times).value, times[k + 1..])
  {
    var n := |times| - 1;
    var front, later := times[..n], times[k + 1..];
    assert forall i :: 0 <= i < n ==> front[i] == times[i];
    assert forall i :: 0 <= i < |later| ==> later[i] == times[k + 1 + i];
    if k == n - 1 {
      assert front[k] == 0;
      EarliestIsMinimumIff(front, 0);
      assert later == [times[n]];
    } else {
      assert front[k] == 0;
      EarliestAfterZero(front, k);
      var rest := front[k + 1..];
      assert later == rest + [times[n]];
      PositiveMinimum(rest, times[n], Earliest(front).value);
    }
  }

  lemma {:induction false} PositiveMinimum(rest: seq<int>, t: int, m: int)
    requires IsMinimum(m, rest)
    ensures IsMinimum(if m > t then t else m, rest + [t])
  {
    var i :| 0 <= i < |rest| && rest[i] == m;
    assert (rest + [t])[i] == m && (rest + [t])[|rest|] == t;
  }
}
