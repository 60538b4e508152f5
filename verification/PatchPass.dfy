/** The white-space pass over a patch set: which chunks it reaches, and when it is harmless, final and readable. */
module PatchPass {
  import opened Wrappers
  import opened PatchSet
  import opened PatchRoundTrip
  import opened PatchWhitespace
  import opened PatchRepair

  // ----- how far the pass gets

  ghost predicate NoneBefore<T>(s: seq<T>, p: T -> bool, k: nat) {
    forall i :: 0 <= i < k && i < |s| ==> !p(s[i])
  }

  ghost predicate ReachesChunk(chunks: seq<Chunk>, k: nat) {
    NoneBefore(chunks, ShortChunk, k)
  }

  /** No chunk before chunk `k` of patch `q` has fewer destination than source lines. */
  ghost predicate Reaches(ps: seq<Patch>, q: nat, k: nat) {
    q < |ps| && ReachesChunk(ps[q].chunks, k) && NoneBefore(ps, ShortPatch, q)
  }

  lemma {:induction false} NoneBeforeNext<T>(s: seq<T>, p: T -> bool, k: nat)
    requires s != [] && 0 < k
    ensures NoneBefore(s, p, k) <==> !p(s[0]) && NoneBefore(s[1..], p, k - 1)
  {
    var rest := s[1..];
    assert forall i :: 0 <= i < |rest| ==> rest[i] == s[i + 1];
    assert forall i :: 1 <= i < |s| ==> s[i] == rest[i - 1];
  }

  lemma {:induction false} AnyOfIff<T>(s: seq<T>, p: T -> bool)
    ensures AnyOf(s, p) <==> exists i :: 0 <= i < |s| && p(s[i])
  {
    if s != [] {
      AnyOfIff(s[1..], p);
      NoneBeforeNext(s, p, |s|);
      assert AnyOf(s[1..], p) == !NoneBefore(s[1..], p, |s| - 1);
    }
  }

  lemma {:induction false} UpToAt<T>(s: seq<T>, change: T -> T, stop: T -> bool, k: nat)
    requires k < |s|
    ensures UpTo(s, change, stop)[k] == if NoneBefore(s, stop, k) then change(s[k]) else s[k]
  {
    if k > 0 {
      NoneBeforeNext(s, stop, k);
      if !stop(s[0]) {
        UpToAt(s[1..], change, stop, k - 1);
      }
    }
  }

  /** A chunk with fewer destination than source lines is what keeps the pass from a later chunk. */
  lemma {:induction false} ReachesIff(ps: seq<Patch>, q: nat, k: nat)
    requires q < |ps| && k < |ps[q].chunks|
    ensures Reaches(ps, q, k) <==>
              && (forall i :: 0 <= i < k ==> !Short(ps[q].chunks[i].lines))
              && (forall p, i :: 0 <= p < q && 0 <= i < |ps[p].chunks| ==> !Short(ps[p].chunks[i].lines))
  {
    forall p | 0 <= p < q
      ensures ShortPatch(ps[p]) <==> exists i :: 0 <= i < |ps[p].chunks| && Short(ps[p].chunks[i].lines)
    {
      AnyOfIff(ps[p].chunks, ShortChunk);
      assert forall i :: 0 <= i < |ps[p].chunks| ==> ShortChunk(ps[p].chunks[i]) == Short(ps[p].chunks[i].lines);
    }
    assert forall i :: 0 <= i < k ==> ShortChunk(ps[q].chunks[i]) == Short(ps[q].chunks[i].lines);
  }

  /** Chunk by chunk: those the pass reaches are repaired and nothing else changes. */
  lemma {:induction false} PassAt(ps: seq<Patch>, q: nat)
    requires q < |ps|
    ensures |Pass(ps)| == |ps|
    ensures var p := Pass(ps)[q];
            && p.src == ps[q].src && p.dst == ps[q].dst && |p.chunks| == |ps[q].chunks|
            && forall k :: 0 <= k < |ps[q].chunks| ==>
                 p.chunks[k] == if Reaches(ps, q, k) then Repaired(ps[q].chunks[k]) else ps[q].chunks[k]
  {
    UpToAt(ps, RepairedPatch, ShortPatch, q);
    if NoneBefore(ps, ShortPatch, q) {
      var chunks := ps[q].chunks;
      forall k | 0 <= k < |chunks|
        ensures PassChunks(chunks)[k] == if Reaches(ps, q, k) then Repaired(chunks[k]) else chunks[k]
      {
        UpToAt(chunks, Repaired, ShortChunk, k);
      }
    }
  }

  lemma {:induction false} PassChunkAt(ps: seq<Patch>, q: nat, k: nat)
    requires q < |ps| && k < |ps[q].chunks|
    ensures |Pass(ps)[q].chunks| == |ps[q].chunks|
    ensures Pass(ps)[q].chunks[k] == if Reaches(ps, q, k) then Repaired(ps[q].chunks[k]) else ps[q].chunks[k]
  {
    PassAt(ps, q);
  }

  // ----- the source side

  ghost predicate SameHeader(c: Chunk, r: Chunk) {
    c.srcPos == r.srcPos && c.dstPos == r.dstPos && SameKinds(c.lines, r.lines)
  }

  /** File names, positions and line kinds, and so both lengths in every header, are kept. */
  lemma {:induction false} PassKeepsHeaders(ps: seq<Patch>, q: nat, k: nat)
    requires q < |ps| && k < |ps[q].chunks|
    ensures Pass(ps)[q].src == ps[q].src && Pass(ps)[q].dst == ps[q].dst && |Pass(ps)[q].chunks| == |ps[q].chunks|
    ensures SameHeader(ps[q].chunks[k], Pass(ps)[q].chunks[k])
  {
    PassAt(ps, q);
    FixIsLineAfter(ps[q].chunks[k].lines);
  }

  ghost predicate KeepsSource(ps: seq<Patch>, q: nat, k: nat)
    requires q < |ps| && k < |ps[q].chunks|
  {
    k < |Pass(ps)[q].chunks| && SourceKept(ps[q].chunks[k].lines, Pass(ps)[q].chunks[k].lines)
  }

  ghost predicate IsHarmless(ps: seq<Patch>, q: nat, k: nat)
    requires q < |ps| && k < |ps[q].chunks|
  {
    Reaches(ps, q, k) ==> NoClash(ps[q].chunks[k].lines)
  }

  /** The source side of a chunk is kept exactly when the pass does not reach the chunk or finds no clash in it. */
  lemma {:induction false} PassKeepsSourceIff(ps: seq<Patch>, q: nat, k: nat)
    requires q < |ps| && k < |ps[q].chunks|
    ensures KeepsSource(ps, q, k) <==> IsHarmless(ps, q, k)
  {
    PassChunkAt(ps, q, k);
    FixIs(ps[q].chunks[k].lines);
  }

  // ----- a second pass

  lemma {:induction false} SameBefore<T>(a: seq<T>, b: seq<T>, p: T -> bool, k: nat)
    requires |a| == |b| && forall i :: 0 <= i < |a| ==> p(a[i]) == p(b[i])
    ensures NoneBefore(a, p, k) == NoneBefore(b, p, k) && AnyOf(a, p) == AnyOf(b, p)
  {
    AnyOfIff(a, p);
    AnyOfIff(b, p);
  }

  lemma {:induction false} ShortIsKept(ps: seq<Patch>, q: nat, k: nat)
    requires q < |ps|
    ensures |Pass(ps)| == |ps| && |Pass(ps)[q].chunks| == |ps[q].chunks|
    ensures ReachesChunk(Pass(ps)[q].chunks, k) == ReachesChunk(ps[q].chunks, k)
    ensures ShortPatch(Pass(ps)[q]) == ShortPatch(ps[q])
  {
    PassAt(ps, q);
    var a, b := ps[q].chunks, Pass(ps)[q].chunks;
    forall i | 0 <= i < |a| ensures ShortChunk(a[i]) == ShortChunk(b[i]) {
      FixIsLineAfter(a[i].lines);
      SamePairs(a[i].lines, Fix(a[i].lines));
    }
    SameBefore(a, b, ShortChunk, k);
  }

  /** The second pass gets exactly as far as the first. */
  lemma {:induction false} ReachesAgain(ps: seq<Patch>, q: nat, k: nat)
    requires q < |ps|
    ensures Reaches(Pass(ps), q, k) == Reaches(ps, q, k)
  {
    forall i | 0 <= i < |ps| ensures |Pass(ps)| == |ps| && ShortPatch(Pass(ps)[i]) == ShortPatch(ps[i]) {
      ShortIsKept(ps, i, k);
    }
    SameBefore(ps, Pass(ps), ShortPatch, q);
    ShortIsKept(ps, q, k);
  }

  ghost predicate IsFinal(ps: seq<Patch>, q: nat, k: nat)
    requires q < |ps| && k < |ps[q].chunks|
  {
    Reaches(ps, q, k) ==> !HasLate(ps[q].chunks[k].lines)
  }

  ghost predicate AllFinal(ps: seq<Patch>) {
    forall q: nat, k: nat :: q < |ps| && k < |ps[q].chunks| ==> IsFinal(ps, q, k)
  }

  lemma {:induction false} ChunkTwiceIff(ps: seq<Patch>, q: nat, k: nat)
    requires q < |ps| && k < |ps[q].chunks| && OneLine(ps[q].chunks[k].lines)
    ensures |Pass(ps)[q].chunks| == |ps[q].chunks| == |Pass(Pass(ps))[q].chunks|
    ensures Pass(Pass(ps))[q].chunks[k] == Pass(ps)[q].chunks[k] <==> IsFinal(ps, q, k)
  {
    PassChunkAt(ps, q, k);
    PassChunkAt(Pass(ps), q, k);
    ReachesAgain(ps, q, k);
    FixTwiceIff(ps[q].chunks[k].lines);
  }

  lemma {:induction false} SamePatch(ps: seq<Patch>, q: nat)
    requires q < |ps| && |Pass(ps)[q].chunks| == |ps[q].chunks|
    requires forall k :: 0 <= k < |ps[q].chunks| ==> Pass(ps)[q].chunks[k] == ps[q].chunks[k]
    ensures Pass(ps)[q] == ps[q]
  {
    PassAt(ps, q);
    assert Pass(ps)[q].chunks == ps[q].chunks;
  }

  ghost predicate OneLinePatches(ps: seq<Patch>) {
    forall q, k :: 0 <= q < |ps| && 0 <= k < |ps[q].chunks| ==> OneLine(ps[q].chunks[k].lines)
  }

  /** A second pass over a patch set changes nothing exactly when no chunk that is reached has a line read too early. */
  lemma {:induction false} PassTwiceIff(ps: seq<Patch>)
    requires OneLinePatches(ps)
    ensures Pass(Pass(ps)) == Pass(ps) <==> AllFinal(ps)
  {
    var r := Pass(ps);
    if AllFinal(ps) {
      forall q | 0 <= q < |ps| ensures Pass(r)[q] == r[q] {
        PassAt(ps, q);
        PassAt(r, q);
        forall k | 0 <= k < |r[q].chunks| ensures Pass(r)[q].chunks[k] == r[q].chunks[k] {
          ChunkTwiceIff(ps, q, k);
          assert IsFinal(ps, q, k);
        }
        SamePatch(r, q);
      }
    }
    if Pass(r) == r {
      forall q: nat, k: nat | q < |ps| && k < |ps[q].chunks| ensures IsFinal(ps, q, k) {
        ChunkTwiceIff(ps, q, k);
      }
    }
  }

  // ----- reading the result back

  /** The pair of lines whose repair reads as the name of a file. */
  predicate Hides(s: Line, d: Line) {
    d == Line(Dst, "++") && s.text == "++ "
  }

  lemma {:induction false} RepairCleanIff(s: Line, d: Line)
    requires Clean(d) && !d.kind.Src? && '\n' !in s.text
    ensures Clean(Repair(s, d)) <==> !Hides(s, d)
  {
    RepairIs(s, d);
    if LostBlank(s.text, d.text) {
      TrimmedIsShorter(s.text);
      assert Repair(s, d) == d.(text := s.text) && |s.text| == |d.text| + 1 && d.text == s.text[..|d.text|];
      if d.kind.Dst? && "++ " <= s.text {
        assert |d.text| == 2 || "++ " <= d.text;
        assert s.text == "++ " && d.text == "++";
      }
    } else {
      assert "++ "[..2] == "++";
    }
  }

  /** An added "++" is compared with "++ ". */
  predicate HidesAt(lines: seq<Line>, j: nat) {
    j < PairCount(lines) && Hides(Partner(lines, j), lines[DstAt(lines, j)])
  }

  ghost predicate HasHidden(lines: seq<Line>) {
    exists j: nat {:trigger HidesAt(lines, j)} :: HidesAt(lines, j)
  }

  ghost predicate AreGood(lines: seq<Line>) {
    forall k :: 0 <= k < |lines| ==> Good(lines[k])
  }

  ghost predicate AreClean(lines: seq<Line>) {
    forall k :: 0 <= k < |lines| ==> Clean(lines[k])
  }

  lemma {:induction false} FixedCleanIff(lines: seq<Line>, j: nat)
    requires AreGood(lines) && j < PairCount(lines)
    ensures Clean(Fix(lines)[DstAt(lines, j)]) <==> !HidesAt(lines, j)
  {
    FixedDst(lines, j);
    IndexOfDst(lines, j);
    StaysOneLine(lines, SrcAt(lines, j), j);
    RepairCleanIff(Partner(lines, j), lines[DstAt(lines, j)]);
  }

  /** After the pass the lines of a chunk that was read can be read back, unless "++" regains the blank of "++ ". */
  lemma {:induction false} FixReadsBackIff(lines: seq<Line>)
    requires AreGood(lines)
    ensures OneLine(Fix(lines)) && (AreClean(Fix(lines)) <==> !HasHidden(lines))
  {
    var r := Fix(lines);
    FixIsLineAfter(lines);
    forall p | 0 <= p < |r| ensures OneLineText(r[p]) && (!HasHidden(lines) ==> Clean(r[p])) {
      StaysOneLine(lines, p, PairCount(lines));
      var j := DstIndex(lines, p);
      if !lines[p].kind.Src? && j < PairCount(lines) {
        DstAtIndex(lines, p);
        FixedCleanIff(lines, j);
      }
    }
    if HasHidden(lines) {
      var j: nat :| HidesAt(lines, j);
      FixedCleanIff(lines, j);
    }
  }

  ghost predicate IsReadable(ps: seq<Patch>, q: nat, k: nat)
    requires q < |ps| && k < |ps[q].chunks|
  {
    Reaches(ps, q, k) ==> !HasHidden(ps[q].chunks[k].lines)
  }

  ghost predicate AllReadable(ps: seq<Patch>) {
    forall q: nat, k: nat :: q < |ps| && k < |ps[q].chunks| ==> IsReadable(ps, q, k)
  }

  lemma {:induction false} ChunkReadableIff(ps: seq<Patch>, q: nat, k: nat)
    requires q < |ps| && k < |ps[q].chunks| && AreGood(ps[q].chunks[k].lines)
    ensures |Pass(ps)[q].chunks| == |ps[q].chunks| && ChunkIs(Pass(ps)[q].chunks[k], OneLineText)
    ensures ChunkIs(Pass(ps)[q].chunks[k], Clean) <==> IsReadable(ps, q, k)
  {
    PassChunkAt(ps, q, k);
    FixReadsBackIff(ps[q].chunks[k].lines);
  }

  lemma {:induction false} GoodChunk(ps: seq<Patch>, q: nat, k: nat)
    requires GoodPatches(ps) && q < |ps| && k < |ps[q].chunks|
    ensures AreGood(ps[q].chunks[k].lines)
  {
    assert GoodPatch(ps[q]);
    assert ChunkIs(ps[q].chunks[k], Good);
  }

  lemma {:induction false} PassIsOneLine(ps: seq<Patch>)
    requires GoodPatches(ps)
    ensures OneLineNames(Pass(ps)) && AllLines(Pass(ps), OneLineText)
  {
    var r := Pass(ps);
    forall q | 0 <= q < |r| ensures SingleLine(r[q].src) && SingleLine(r[q].dst) && PatchIs(r[q], OneLineText) {
      assert GoodPatch(ps[q]);
      PassAt(ps, q);
      forall k | 0 <= k < |r[q].chunks| ensures ChunkIs(r[q].chunks[k], OneLineText) {
        GoodChunk(ps, q, k);
        ChunkReadableIff(ps, q, k);
      }
    }
  }

  lemma {:induction false} PassIsCleanIff(ps: seq<Patch>)
    requires GoodPatches(ps)
    ensures AllLines(Pass(ps), Clean) <==> AllReadable(ps)
  {
    var r := Pass(ps);
    if AllReadable(ps) {
      forall q | 0 <= q < |r| ensures PatchIs(r[q], Clean) {
        PassAt(ps, q);
        forall k | 0 <= k < |r[q].chunks| ensures ChunkIs(r[q].chunks[k], Clean) {
          GoodChunk(ps, q, k);
          ChunkReadableIff(ps, q, k);
          assert IsReadable(ps, q, k);
        }
      }
    }
    if AllLines(r, Clean) {
      forall q: nat, k: nat | q < |ps| && k < |ps[q].chunks| ensures IsReadable(ps, q, k) {
        GoodChunk(ps, q, k);
        ChunkReadableIff(ps, q, k);
        assert PatchIs(r[q], Clean);
      }
    }
  }

  /** Of every accepted input, the result of the pass reads back exactly when no added "++" regained a blank. */
  lemma {:induction false} PassReadsBackIff(input: seq<string>)
    requires Parse(input).Some?
    ensures var ps := Parse(input).value; Parse(Write(Pass(ps))) == Some(Pass(ps)) <==> AllReadable(ps)
  {
    var ps := Parse(input).value;
    ParsedIsGood(input);
    PassIsOneLine(ps);
    PassIsCleanIff(ps);
    RoundTripIff(Pass(ps));
  }

  /** Of every accepted input, two passes are one exactly under the condition above. */
  lemma {:induction false} ParsedPassTwiceIff(input: seq<string>)
    requires Parse(input).Some?
    ensures var ps := Parse(input).value; Pass(Pass(ps)) == Pass(ps) <==> AllFinal(ps)
  {
    var ps := Parse(input).value;
    ParsedIsGood(input);
    forall q, k | 0 <= q < |ps| && 0 <= k < |ps[q].chunks| ensures OneLine(ps[q].chunks[k].lines) {
      GoodChunk(ps, q, k);
    }
    PassTwiceIff(ps);
  }

  // ----- an input whose repaired form does not read back

  ghost function HiddenChunk(): Chunk {
    Chunk(1, 1, [Line(Src, "++ "), Line(Dst, "++")])
  }

  lemma {:induction false} HiddenLines()
    ensures var lines := HiddenChunk().lines; HasHidden(lines) && Side(lines, Dst) == [0] && Side(lines, Src) == [1]
  {
    var a, b := Line(Src, "++ "), Line(Dst, "++");
    SideOfTwo(a, b, Dst);
    SideOfTwo(a, b, Src);
    assert Partner([a, b], 0) == a;
    assert HidesAt([a, b], 0);
  }

  lemma {:induction false} HiddenChunkIsGood()
    ensures ChunkIs(HiddenChunk(), Good)
  {
    assert "-- "[0] != "++ "[0];
    assert Good(Line(Src, "++ ")) && Good(Line(Dst, "++"));
  }

  lemma {:induction false} OnePatchIsGood(src: string, dst: string, c: Chunk)
    requires SingleLine(src) && SingleLine(dst) && ChunkIs(c, Good)
    ensures GoodPatches([Patch(src, dst, [c])])
  {
    assert PatchIs(Patch(src, dst, [c]), Good);
  }

  lemma {:induction false} EachOne<T>(x: T, write: T -> seq<string>)
    ensures Each([x], write) == write(x)
  {
    assert [x][..0] == [];
    assert Each([x], write) == [] + write(x);
  }

  lemma {:induction false} HeaderOfOnes()
    ensures "@@ -" + ("1" + ("," + ("1" + (" +" + ("1" + ("," + ("1" + " @@\n"))))))) == "@@ -1,1 +1,1 @@\n"
  {
    assert "," + ("1" + " @@\n") == ",1 @@\n";
    assert " +" + ("1" + ",1 @@\n") == " +1,1 @@\n";
    assert "," + ("1" + " +1,1 @@\n") == ",1 +1,1 @@\n";
    assert "@@ -" + ("1" + ",1 +1,1 @@\n") == "@@ -1,1 +1,1 @@\n";
  }

  lemma {:induction false} HiddenHeader()
    ensures WriteHeader(HiddenChunk()) == "@@ -1,1 +1,1 @@\n"
  {
    HiddenLines();
    assert Decimal(1) == "1";
    HeaderOfOnes();
  }

  lemma {:induction false} WriteTwo(a: Line, b: Line)
    ensures WriteLines([a, b]) == [WriteLine(a), WriteLine(b)]
  {
    assert [a, b][..1] == [a];
    EachOne(a, WriteOne);
  }

  lemma {:induction false} WriteOnePatch(src: string, dst: string, c: Chunk)
    ensures Write([Patch(src, dst, [c])]) ==
            ["--- " + src + "\n", "+++ " + dst + "\n", WriteHeader(c)] + WriteLines(c.lines)
  {
    EachOne(c, WriteChunk);
    EachOne(Patch(src, dst, [c]), WritePatch);
  }

  /** The five lines of a patch with that chunk. */
  lemma {:induction false} HiddenIsWritten()
    ensures Write([Patch("a", "b", [HiddenChunk()])]) ==
            ["--- a\n", "+++ b\n", "@@ -1,1 +1,1 @@\n", "-++ \n", "+++\n"]
  {
    WriteOnePatch("a", "b", HiddenChunk());
    HiddenHeader();
    var a, b := Line(Src, "++ "), Line(Dst, "++");
    WriteTwo(a, b);
    assert WriteLine(a) == "-++ \n" && WriteLine(b) == "+++\n";
    assert "--- " + "a" + "\n" == "--- a\n" && "+++ " + "b" + "\n" == "+++ b\n";
  }

  lemma {:induction false} FirstChunkIsHidden(p: Patch)
    requires p.chunks != [] && HasHidden(p.chunks[0].lines)
    ensures !AllReadable([p])
  {
    assert Reaches([p], 0, 0) && !IsReadable([p], 0, 0);
  }

  /** They are accepted, and what the pass makes of them does not read back. */
  lemma {:induction false} HiddenDoesNotReadBack()
    ensures var input := ["--- a\n", "+++ b\n", "@@ -1,1 +1,1 @@\n", "-++ \n", "+++\n"];
            var ps := [Patch("a", "b", [HiddenChunk()])];
            Parse(input) == Some(ps) && Parse(Write(Pass(ps))) != Some(Pass(ps))
  {
    var p := Patch("a", "b", [HiddenChunk()]);
    HiddenIsWritten();
    HiddenChunkIsGood();
    OnePatchIsGood("a", "b", HiddenChunk());
    GoodMeans([p]);
    RoundTripIff([p]);
    HiddenLines();
    FirstChunkIsHidden(p);
    PassReadsBackIff(Write([p]));
  }
}
