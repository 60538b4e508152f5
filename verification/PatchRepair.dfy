/** What the white-space pass does to a chunk, line by line, and when a second pass changes nothing. */
module PatchRepair {
  import opened PatchSet
  import opened PatchRoundTrip
  import opened PatchWhitespace

  // ----- the places of a side

  lemma {:induction false} SideIncreases(lines: seq<Line>, other: Kind, i: nat, j: nat)
    requires i < j < |Side(lines, other)|
    ensures Side(lines, other)[i] < Side(lines, other)[j]
  {
    var front := lines[..|lines| - 1];
    if j < |Side(front, other)| {
      SideIncreases(front, other, i, j);
    } else {
      assert Side(front, other)[i] < |front|;
    }
  }

  lemma {:induction false} SideKind(lines: seq<Line>, other: Kind, i: nat)
    requires i < |Side(lines, other)|
    ensures lines[Side(lines, other)[i]].kind != other
  {
    var front := lines[..|lines| - 1];
    if i < |Side(front, other)| {
      SideKind(front, other, i);
    }
  }

  /** The index of the line at `p` on its side. */
  lemma {:induction false} SideHas(lines: seq<Line>, other: Kind, p: nat)
    requires p < |lines| && lines[p].kind != other
    ensures |Side(lines[..p], other)| < |Side(lines, other)| && Side(lines, other)[|Side(lines[..p], other)|] == p
  {
    var front := lines[..|lines| - 1];
    if p < |front| {
      SideHas(front, other, p);
      assert front[..p] == lines[..p];
    }
  }

  lemma {:induction false} SideOfKinds(a: seq<Line>, b: seq<Line>, other: Kind)
    requires SameKinds(a, b)
    ensures Side(a, other) == Side(b, other)
  {
    if a != [] {
      SideOfKinds(a[..|a| - 1], b[..|b| - 1], other);
    }
  }

  // ----- the pairs

  function PairCount(lines: seq<Line>): (n: nat)
    ensures n <= |Side(lines, Dst)| && n <= |Side(lines, Src)|
  {
    if |Side(lines, Dst)| <= |Side(lines, Src)| then |Side(lines, Dst)| else |Side(lines, Src)|
  }

  function SrcAt(lines: seq<Line>, i: nat): (p: nat)
    requires i < PairCount(lines)
    ensures p < |lines|
  {
    Side(lines, Dst)[i]
  }

  function DstAt(lines: seq<Line>, i: nat): (p: nat)
    requires i < PairCount(lines)
    ensures p < |lines|
  {
    Side(lines, Src)[i]
  }

  /** The index of a line on the destination side. */
  function DstIndex(lines: seq<Line>, p: nat): nat
    requires p < |lines|
  {
    |Side(lines[..p], Src)|
  }

  lemma {:induction false} DstAtIndex(lines: seq<Line>, p: nat)
    requires p < |lines| && !lines[p].kind.Src? && DstIndex(lines, p) < PairCount(lines)
    ensures DstAt(lines, DstIndex(lines, p)) == p
  {
    SideHas(lines, Src, p);
  }

  lemma {:induction false} IndexOfDst(lines: seq<Line>, i: nat)
    requires i < PairCount(lines)
    ensures !lines[DstAt(lines, i)].kind.Src? && DstIndex(lines, DstAt(lines, i)) == i
  {
    SideKind(lines, Src, i);
    var p := DstAt(lines, i);
    SideHas(lines, Src, p);
    var k := DstIndex(lines, p);
    if k < i {
      SideIncreases(lines, Src, k, i);
    } else if i < k {
      SideIncreases(lines, Src, i, k);
    }
  }

  lemma {:induction false} SrcIsSource(lines: seq<Line>, i: nat)
    requires i < PairCount(lines)
    ensures !lines[SrcAt(lines, i)].kind.Dst?
  {
    SideKind(lines, Dst, i);
  }

  lemma {:induction false} SamePairs(a: seq<Line>, b: seq<Line>)
    requires SameKinds(a, b)
    ensures PairCount(a) == PairCount(b) && Short(a) == Short(b)
    ensures forall i: nat :: i < PairCount(a) ==> SrcAt(a, i) == SrcAt(b, i) && DstAt(a, i) == DstAt(b, i)
  {
    SideOfKinds(a, b, Dst);
    SideOfKinds(a, b, Src);
  }

  // ----- the pass over a chunk, line by line

  /** The line at `p` after the first `i` pairs: a destination line is repaired once, from its partner as it then is. */
  function LineAfter(lines: seq<Line>, p: nat, i: nat): Line
    requires p < |lines| && i <= PairCount(lines)
    decreases i
  {
    var k := DstIndex(lines, p);
    if lines[p].kind.Src? || k >= i then lines[p]
    else Repair(LineAfter(lines, SrcAt(lines, k), k), lines[p])
  }

  /** The source line of pair `i` at the moment of the comparison. */
  function Partner(lines: seq<Line>, i: nat): Line
    requires i < PairCount(lines)
  {
    LineAfter(lines, SrcAt(lines, i), i)
  }

  ghost predicate IsAfter(lines: seq<Line>, now: seq<Line>, i: nat)
    requires i <= PairCount(lines)
  {
    |now| == |lines| && forall p :: 0 <= p < |lines| ==> now[p] == LineAfter(lines, p, i)
  }

  lemma {:induction false} AfterDst(lines: seq<Line>, i: nat, n: nat)
    requires i < PairCount(lines) && n <= PairCount(lines)
    ensures LineAfter(lines, DstAt(lines, i), n) ==
            if n <= i then lines[DstAt(lines, i)] else Repair(Partner(lines, i), lines[DstAt(lines, i)])
  {
    IndexOfDst(lines, i);
  }

  lemma {:induction false} OthersStay(lines: seq<Line>, i: nat, p: nat)
    requires i < PairCount(lines) && p < |lines| && p != DstAt(lines, i)
    ensures LineAfter(lines, p, i + 1) == LineAfter(lines, p, i)
  {
    if !lines[p].kind.Src? && DstIndex(lines, p) == i {
      DstAtIndex(lines, p);
    }
  }

  lemma {:induction false} TouchIs(lines: seq<Line>, now: seq<Line>, i: nat)
    requires i < PairCount(lines) && IsAfter(lines, now, i)
    ensures IsAfter(lines, Touch(now, SrcAt(lines, i), DstAt(lines, i)), i + 1)
  {
    var d := DstAt(lines, i);
    var r := Touch(now, SrcAt(lines, i), d);
    AfterDst(lines, i, i);
    AfterDst(lines, i, i + 1);
    forall p | 0 <= p < |lines| ensures r[p] == LineAfter(lines, p, i + 1) {
      if p != d {
        OthersStay(lines, i, p);
      }
    }
  }

  function Stage(lines: seq<Line>, i: nat): (r: seq<Line>)
    requires i <= PairCount(lines)
    ensures |r| == |lines|
  {
    seq(|lines|, p requires 0 <= p < |lines| => LineAfter(lines, p, i))
  }

  lemma {:induction false} StageIs(lines: seq<Line>, now: seq<Line>, i: nat)
    requires i <= PairCount(lines)
    ensures IsAfter(lines, now, i) <==> now == Stage(lines, i)
  {
  }

  /** Each list is the one before it with the next pair compared. */
  ghost predicate IsChain(stages: seq<seq<Line>>, src: seq<nat>, dst: seq<nat>, size: nat) {
    && 0 < |stages| <= |src| + 1 && |stages| <= |dst| + 1 && (|stages| == |src| + 1 || |stages| == |dst| + 1)
    && (forall k :: 0 <= k < |src| ==> src[k] < size) && (forall k :: 0 <= k < |dst| ==> dst[k] < size)
    && (forall i :: 0 <= i < |stages| ==> |stages[i]| == size)
    && (forall i :: 0 <= i < |stages| - 1 ==> stages[i + 1] == Touch(stages[i], src[i], dst[i]))
  }

  lemma {:induction false} ChainEnds(stages: seq<seq<Line>>, src: seq<nat>, dst: seq<nat>, size: nat, i: nat)
    requires IsChain(stages, src, dst, size) && i < |stages|
    ensures FixFrom(stages[i], src, dst, i) == stages[|stages| - 1]
    decreases |stages| - i
  {
    if i < |stages| - 1 {
      ChainEnds(stages, src, dst, size, i + 1);
    }
  }

  lemma {:induction false} NextStage(lines: seq<Line>, i: nat)
    requires i < PairCount(lines)
    ensures Stage(lines, i + 1) == Touch(Stage(lines, i), SrcAt(lines, i), DstAt(lines, i))
  {
    StageIs(lines, Stage(lines, i), i);
    TouchIs(lines, Stage(lines, i), i);
    StageIs(lines, Touch(Stage(lines, i), SrcAt(lines, i), DstAt(lines, i)), i + 1);
  }

  lemma {:induction false} FixIsStage(lines: seq<Line>)
    ensures Fix(lines) == Stage(lines, PairCount(lines))
  {
    var n := PairCount(lines);
    var stages := seq(n + 1, i requires 0 <= i <= n => Stage(lines, i));
    forall i | 0 <= i < n ensures stages[i + 1] == Touch(stages[i], Side(lines, Dst)[i], Side(lines, Src)[i]) {
      NextStage(lines, i);
    }
    StageIs(lines, lines, 0);
    ChainEnds(stages, Side(lines, Dst), Side(lines, Src), |lines|, 0);
  }

  lemma {:induction false} LineKind(lines: seq<Line>, p: nat, i: nat)
    requires p < |lines| && i <= PairCount(lines)
    ensures LineAfter(lines, p, i).kind == lines[p].kind
  {
  }

  /** The pass, whatever the chunk: every line in closed form; the kinds, and so the pairs, are kept. */
  lemma {:induction false} FixIsLineAfter(lines: seq<Line>)
    ensures IsAfter(lines, Fix(lines), PairCount(lines)) && SameKinds(lines, Fix(lines))
  {
    FixIsStage(lines);
    StageIs(lines, Fix(lines), PairCount(lines));
    forall p | 0 <= p < |lines| ensures Fix(lines)[p].kind == lines[p].kind {
      LineKind(lines, p, PairCount(lines));
    }
  }

  lemma {:induction false} FixedDst(lines: seq<Line>, i: nat)
    requires i < PairCount(lines)
    ensures Fix(lines)[DstAt(lines, i)] == Repair(Partner(lines, i), lines[DstAt(lines, i)])
  {
    FixIsLineAfter(lines);
    AfterDst(lines, i, PairCount(lines));
  }

  /** A line is as it was or as it will be. */
  lemma {:induction false} BeforeOrAfter(lines: seq<Line>, p: nat, i: nat)
    requires p < |lines| && i <= PairCount(lines)
    ensures LineAfter(lines, p, i) == lines[p] || LineAfter(lines, p, i) == Fix(lines)[p]
  {
    FixIsLineAfter(lines);
  }

  // ----- the source side

  /** A context line that the pass would lengthen, because it is paired with a line of which it is the trimmed form. */
  predicate Clash(lines: seq<Line>, i: nat) {
    && i < PairCount(lines) && lines[DstAt(lines, i)].kind.Both?
    && LostBlank(lines[SrcAt(lines, i)].text, lines[DstAt(lines, i)].text)
  }

  ghost predicate NoClash(lines: seq<Line>) {
    forall i: nat {:trigger Clash(lines, i)} :: !Clash(lines, i)
  }

  /** Each context line has the same index on both sides. */
  ghost predicate Aligned(lines: seq<Line>) {
    var src, dst := Side(lines, Dst), Side(lines, Src);
    forall i, j :: 0 <= i < |src| && 0 <= j < |dst| && src[i] == dst[j] ==> i == j
  }

  ghost predicate SourceKept(lines: seq<Line>, r: seq<Line>) {
    |r| == |lines| && forall p :: 0 <= p < |lines| && !lines[p].kind.Dst? ==> r[p] == lines[p]
  }

  lemma {:induction false} AlignedHasNoClash(lines: seq<Line>)
    requires Aligned(lines)
    ensures NoClash(lines)
  {
    forall i: nat ensures !Clash(lines, i) {
      if Clash(lines, i) {
        var p := DstAt(lines, i);
        SideHas(lines, Dst, p);
        var k := |Side(lines[..p], Dst)|;
        assert Side(lines, Dst)[k] == Side(lines, Src)[i];
        RepairIs(lines[p], lines[p]);
        assert false;
      }
    }
  }

  lemma {:induction false} SourceStays(lines: seq<Line>, p: nat, i: nat)
    requires NoClash(lines) && p < |lines| && !lines[p].kind.Dst? && i <= PairCount(lines)
    ensures LineAfter(lines, p, i) == lines[p]
    decreases i
  {
    var k := DstIndex(lines, p);
    if !lines[p].kind.Src? && k < i {
      DstAtIndex(lines, p);
      SrcIsSource(lines, k);
      SourceStays(lines, SrcAt(lines, k), k);
      assert !Clash(lines, k);
    }
  }

  /** Without a clash every line is compared with the original line of its pair. */
  lemma {:induction false} PartnerIsOriginal(lines: seq<Line>, i: nat)
    requires NoClash(lines) && i < PairCount(lines)
    ensures Partner(lines, i) == lines[SrcAt(lines, i)]
  {
    SrcIsSource(lines, i);
    SourceStays(lines, SrcAt(lines, i), i);
  }

  lemma {:induction false} ClashChangesSource(lines: seq<Line>, i: nat)
    requires Clash(lines, i)
    ensures !SourceKept(lines, Fix(lines))
  {
    if SourceKept(lines, Fix(lines)) {
      var s := SrcAt(lines, i);
      SrcIsSource(lines, i);
      BeforeOrAfter(lines, s, i);
      FixedDst(lines, i);
      RepairIs(lines[s], lines[DstAt(lines, i)]);
    }
  }

  /**
    The pass leaves the source side of a chunk alone exactly when no context line is paired with a line of which it is
    the trimmed form; and then every destination line is repaired from the original source line at its own index.
   */
  lemma {:induction false} FixIs(lines: seq<Line>)
    ensures SameKinds(lines, Fix(lines))
    ensures SourceKept(lines, Fix(lines)) <==> NoClash(lines)
    ensures NoClash(lines) ==> forall i: nat :: i < PairCount(lines) ==>
              Fix(lines)[DstAt(lines, i)] == Repair(lines[SrcAt(lines, i)], lines[DstAt(lines, i)])
  {
    FixIsLineAfter(lines);
    if NoClash(lines) {
      forall p | 0 <= p < |lines| && !lines[p].kind.Dst? ensures Fix(lines)[p] == lines[p] {
        SourceStays(lines, p, PairCount(lines));
      }
      forall i: nat | i < PairCount(lines)
        ensures Fix(lines)[DstAt(lines, i)] == Repair(lines[SrcAt(lines, i)], lines[DstAt(lines, i)])
      {
        FixedDst(lines, i);
        PartnerIsOriginal(lines, i);
      }
    } else {
      var i: nat :| Clash(lines, i);
      ClashChangesSource(lines, i);
    }
  }

  lemma {:induction false} SideOfTwo(a: Line, b: Line, other: Kind)
    ensures Side([a, b], other) == (if a.kind == other then [] else [0]) + if b.kind == other then [] else [1]
  {
    assert [a, b][..1] == [a] && [a][..0] == [];
  }

  /** The smallest clash: a context line that stands against a removed line. */
  lemma {:induction false} MisalignedChangesSource(x: string)
    requires '\n' !in x
    ensures var lines := [Line(Src, x + " "), Line(Both, x)];
            !SourceKept(lines, Fix(lines))
  {
    var a, b := Line(Src, x + " "), Line(Both, x);
    SideOfTwo(a, b, Dst);
    SideOfTwo(a, b, Src);
    LostBlankOf(x, " ", x);
    assert Clash([a, b], 0);
    ClashChangesSource([a, b], 0);
  }

  ghost predicate OneLine(lines: seq<Line>) {
    forall k :: 0 <= k < |lines| ==> OneLineText(lines[k])
  }

  lemma {:induction false} StaysOneLine(lines: seq<Line>, p: nat, i: nat)
    requires OneLine(lines) && p < |lines| && i <= PairCount(lines)
    ensures OneLineText(LineAfter(lines, p, i))
    decreases i
  {
    var k := DstIndex(lines, p);
    if !lines[p].kind.Src? && k < i {
      StaysOneLine(lines, SrcAt(lines, k), k);
      RepairIs(Partner(lines, k), lines[p]);
    }
  }

  /** In every chunk, a line that changes is on the destination side and becomes its partner as that line then is. */
  lemma {:induction false} ChangedIntoPartner(lines: seq<Line>, p: nat) returns (i: nat)
    requires OneLine(lines) && p < |lines| && Fix(lines)[p] != lines[p]
    ensures i < PairCount(lines) && DstAt(lines, i) == p && Fix(lines)[p] == lines[p].(text := Partner(lines, i).text)
    ensures NoClash(lines) ==> lines[p].kind.Dst? && Fix(lines)[p].text == lines[SrcAt(lines, i)].text
  {
    FixIsLineAfter(lines);
    i := DstIndex(lines, p);
    DstAtIndex(lines, p);
    StaysOneLine(lines, SrcAt(lines, i), i);
    RepairIs(Partner(lines, i), lines[p]);
    if NoClash(lines) {
      PartnerIsOriginal(lines, i);
      FixIs(lines);
      IndexOfDst(lines, i);
    }
  }

  // ----- a second pass over a chunk

  ghost predicate IsSettled(r: seq<Line>) {
    forall i: nat :: i < PairCount(r) ==> !LostBlank(r[SrcAt(r, i)].text, r[DstAt(r, i)].text)
  }

  lemma {:induction false} SettledStays(r: seq<Line>, p: nat, i: nat)
    requires IsSettled(r) && p < |r| && i <= PairCount(r)
    ensures LineAfter(r, p, i) == r[p]
    decreases i
  {
    var k := DstIndex(r, p);
    if !r[p].kind.Src? && k < i {
      DstAtIndex(r, p);
      SettledStays(r, SrcAt(r, k), k);
    }
  }

  lemma {:induction false} FixedPointIff(r: seq<Line>)
    ensures Fix(r) == r <==> IsSettled(r)
  {
    FixIsLineAfter(r);
    if IsSettled(r) {
      forall p | 0 <= p < |r| ensures Fix(r)[p] == r[p] {
        SettledStays(r, p, PairCount(r));
      }
    }
    if Fix(r) == r {
      forall i: nat | i < PairCount(r) ensures !LostBlank(r[SrcAt(r, i)].text, r[DstAt(r, i)].text) {
        BeforeOrAfter(r, SrcAt(r, i), i);
        FixedDst(r, i);
        RepairIs(r[SrcAt(r, i)], r[DstAt(r, i)]);
      }
    }
  }

  /** The pass lengthens the destination line of pair `j`. */
  predicate Lengthened(lines: seq<Line>, j: nat) {
    j < PairCount(lines) && LostBlank(Partner(lines, j).text, lines[DstAt(lines, j)].text)
  }

  /** The context line that pair `i` reads is lengthened later, when the other line of the pair has its old text. */
  predicate Late(lines: seq<Line>, i: nat) {
    && i < PairCount(lines) && lines[SrcAt(lines, i)].kind.Both?
    && i < DstIndex(lines, SrcAt(lines, i)) && Lengthened(lines, DstIndex(lines, SrcAt(lines, i)))
    && (lines[DstAt(lines, i)].text == lines[SrcAt(lines, i)].text ||
        LostBlank(lines[SrcAt(lines, i)].text, lines[DstAt(lines, i)].text))
  }

  ghost predicate HasLate(lines: seq<Line>) {
    exists i: nat {:trigger Late(lines, i)} :: Late(lines, i)
  }

  /** A line that was read before it changed and the line compared with it. */
  lemma {:induction false} LengthenedLater(lines: seq<Line>, i: nat)
    requires OneLine(lines) && i < PairCount(lines) && lines[SrcAt(lines, i)].kind.Both?
    requires i < DstIndex(lines, SrcAt(lines, i)) && Lengthened(lines, DstIndex(lines, SrcAt(lines, i)))
    ensures LostBlank(Fix(lines)[SrcAt(lines, i)].text, Fix(lines)[DstAt(lines, i)].text) <==> Late(lines, i)
  {
    var p, q := SrcAt(lines, i), DstAt(lines, i);
    var j := DstIndex(lines, p);
    DstAtIndex(lines, p);
    FixedDst(lines, j);
    FixedDst(lines, i);
    assert Partner(lines, i) == lines[p];
    var tail := Trim(Partner(lines, j).text).value.1;
    TrimmedIsShorter(Partner(lines, j).text);
    assert Fix(lines)[p].text == lines[p].text + tail;
    LostBlankOf(lines[p].text, tail, Fix(lines)[q].text);
    RepairIs(lines[p], lines[q]);
  }

  /** In every other case the line is compared in the form it keeps. */
  lemma {:induction false} ComparedAsItStays(lines: seq<Line>, i: nat)
    requires i < PairCount(lines)
    requires var p := SrcAt(lines, i);
             lines[p].kind.Both? && i < DstIndex(lines, p) ==> !Lengthened(lines, DstIndex(lines, p))
    ensures !LostBlank(Fix(lines)[SrcAt(lines, i)].text, Fix(lines)[DstAt(lines, i)].text)
  {
    var p, q := SrcAt(lines, i), DstAt(lines, i);
    var j := DstIndex(lines, p);
    FixIsLineAfter(lines);
    FixedDst(lines, i);
    SrcIsSource(lines, i);
    RepairIs(Partner(lines, i), lines[q]);
    if lines[p].kind.Both? && j == i {
      DstAtIndex(lines, p);
      RepairIs(Fix(lines)[p], Fix(lines)[p]);
    } else {
      if lines[p].kind.Both? && i < j < PairCount(lines) {
        DstAtIndex(lines, p);
        FixedDst(lines, j);
      }
      assert Fix(lines)[p] == Partner(lines, i);
      RepairIs(Partner(lines, i), Fix(lines)[q]);
    }
  }

  lemma {:induction false} PairIsSettledIff(lines: seq<Line>, i: nat)
    requires OneLine(lines) && i < PairCount(lines)
    ensures LostBlank(Fix(lines)[SrcAt(lines, i)].text, Fix(lines)[DstAt(lines, i)].text) <==> Late(lines, i)
  {
    var p := SrcAt(lines, i);
    if lines[p].kind.Both? && i < DstIndex(lines, p) && Lengthened(lines, DstIndex(lines, p)) {
      LengthenedLater(lines, i);
    } else {
      ComparedAsItStays(lines, i);
    }
  }

  /** A second pass over a chunk changes nothing exactly when no context line was read too early. */
  lemma {:induction false} FixTwiceIff(lines: seq<Line>)
    requires OneLine(lines)
    ensures Fix(Fix(lines)) == Fix(lines) <==> !HasLate(lines)
  {
    var r := Fix(lines);
    FixIsLineAfter(lines);
    SamePairs(lines, r);
    FixedPointIff(r);
    forall i: nat | i < PairCount(lines)
      ensures LostBlank(r[SrcAt(r, i)].text, r[DstAt(r, i)].text) <==> Late(lines, i)
    {
      PairIsSettledIff(lines, i);
    }
  }

  /** In particular it changes nothing where the first pass left the source side alone, whatever the texts. */
  lemma {:induction false} FixTwice(lines: seq<Line>)
    requires NoClash(lines)
    ensures Fix(Fix(lines)) == Fix(lines)
  {
    var r := Fix(lines);
    FixIsLineAfter(lines);
    SamePairs(lines, r);
    FixedPointIff(r);
    forall i: nat | i < PairCount(lines) ensures !LostBlank(r[SrcAt(r, i)].text, r[DstAt(r, i)].text) {
      var p := SrcAt(lines, i);
      var j := DstIndex(lines, p);
      if lines[p].kind.Both? && j < PairCount(lines) {
        DstAtIndex(lines, p);
        PartnerIsOriginal(lines, j);
        assert !Clash(lines, j);
      }
      ComparedAsItStays(lines, i);
    }
  }

  lemma {:induction false} SideOfThree(a: Line, b: Line, c: Line, other: Kind)
    ensures Side([a, b, c], other) == Side([a, b], other) + if c.kind == other then [] else [2]
  {
    assert [a, b, c][..2] == [a, b];
  }

  /** A chunk for which two passes do more than one. */
  lemma {:induction false} SecondPassChanges(x: string)
    requires '\n' !in x
    ensures var lines := [Line(Dst, x), Line(Both, x), Line(Src, x + " ")];
            Fix(Fix(lines)) != Fix(lines)
  {
    var a, b, c := Line(Dst, x), Line(Both, x), Line(Src, x + " ");
    var lines := [a, b, c];
    SideOfTwo(a, b, Dst);
    SideOfTwo(a, b, Src);
    SideOfThree(a, b, c, Dst);
    SideOfThree(a, b, c, Src);
    assert Side(lines, Dst) == [1, 2] && Side(lines, Src) == [0, 1];
    IndexOfDst(lines, 1);
    LostBlankOf(x, " ", x);
    assert Partner(lines, 1) == c;
    assert Late(lines, 0);
    FixTwiceIff(lines);
  }
}
