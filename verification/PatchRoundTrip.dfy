/** Reading back a written patch set. */
module PatchRoundTrip {
  import opened Wrappers
  import opened Sums
  import opened PatchSet

  // ----- the texts that survive

  predicate SingleLine(text: string) {
    '\n' !in text
  }

  /** Written out, a removed text that starts with "-- " looks like a file name, and so does an added one with "++ ". */
  predicate Clean(l: Line) {
    !(l.kind.Src? && "-- " <= l.text) && !(l.kind.Dst? && "++ " <= l.text)
  }

  ghost predicate ChunkIs(c: Chunk, ok: Line -> bool) {
    forall i :: 0 <= i < |c.lines| ==> ok(c.lines[i])
  }

  ghost predicate PatchIs(p: Patch, ok: Line -> bool) {
    forall i :: 0 <= i < |p.chunks| ==> ChunkIs(p.chunks[i], ok)
  }

  ghost predicate AllLines(ps: seq<Patch>, ok: Line -> bool) {
    forall i :: 0 <= i < |ps| ==> PatchIs(ps[i], ok)
  }

  predicate OneLineText(l: Line) {
    SingleLine(l.text)
  }

  ghost predicate OneLineNames(ps: seq<Patch>) {
    forall i :: 0 <= i < |ps| ==> SingleLine(ps[i].src) && SingleLine(ps[i].dst)
  }

  // ----- single lines

  lemma {:induction false} ChompLine(s: string)
    ensures Chomp(s + "\n") == s
  {
  }

  lemma {:induction false} ClassifySrcName(name: string)
    requires SingleLine(name)
    ensures Classify("--- " + name + "\n") == SrcFile(name)
  {
    var s := "--- " + name;
    ChompLine(s);
    assert SingleLine(s) && s[4..] == name;
  }

  lemma {:induction false} ClassifyDstName(name: string)
    requires SingleLine(name)
    ensures Classify("+++ " + name + "\n") == DstFile(name)
  {
    var s := "+++ " + name;
    ChompLine(s);
    assert SingleLine(s) && s[4..] == name;
    assert s[0] != '-';
  }

  lemma {:induction false} NoHeader(s: string)
    requires s != "" && s[0] != '@'
    ensures TakeHeader(s) == None
  {
  }

  lemma {:induction false} MarkedPrefix(mark: string, prefix: string, text: string)
    ensures mark + prefix <= mark + text <==> prefix <= text
  {
    if prefix <= text {
      assert text == prefix + text[|prefix|..];
      assert mark + text == (mark + prefix) + text[|prefix|..];
    }
    if mark + prefix <= mark + text {
      assert (mark + prefix)[|mark|..] == prefix && (mark + text)[|mark|..] == text;
      assert (mark + text)[..|mark + prefix|] == mark + prefix;
      assert text[..|prefix|] == (mark + text)[|mark|..|mark| + |prefix|] == prefix;
    }
  }

  lemma {:induction false} FirstChar(mark: string, s: string)
    requires |mark| == 1 && s != ""
    ensures mark <= s <==> s[0] == mark[0]
  {
    if s[0] == mark[0] {
      assert s[..1] == mark;
    }
  }

  lemma {:induction false} ClassifyByMark(line: string, s: string)
    requires s == Chomp(line) && SingleLine(s) && s != "" && !("--- " <= s) && !("+++ " <= s) && TakeHeader(line).None?
    ensures s[0] == '-' ==> Classify(line) == Text(Line(Src, s[1..]))
    ensures s[0] == '+' ==> Classify(line) == Text(Line(Dst, s[1..]))
    ensures s[0] == ' ' ==> Classify(line) == Text(Line(Both, s[1..]))
  {
    FirstChar("-", s);
    FirstChar("+", s);
    FirstChar(" ", s);
  }

  lemma {:induction false} MarkedText(l: Line, s: string)
    requires OneLineText(l) && s == Mark(l.kind) + l.text
    ensures s != "" && SingleLine(s) && s[1..] == l.text && s[0] == Mark(l.kind)[0]
    ensures Chomp(s + "\n") == s && TakeHeader(s + "\n").None?
  {
    ChompLine(s);
    NoHeader(s + "\n");
  }

  /** A marked text that does not look like a file name. */
  lemma {:induction false} ClassifyMarked(l: Line, s: string, line: string)
    requires OneLineText(l) && s == Mark(l.kind) + l.text && line == s + "\n" && !("--- " <= s) && !("+++ " <= s)
    ensures Classify(line) == Text(l)
  {
    MarkedText(l, s);
    ClassifyByMark(line, s);
  }

  lemma {:induction false} ClassifyAsName(s: string)
    requires SingleLine(s) && ("--- " <= s || "+++ " <= s)
    ensures !Classify(s + "\n").Text?
  {
    ChompLine(s);
  }

  lemma {:induction false} NameNeedsMark(s: string, c: char)
    requires s != "" && s[0] == c
    ensures ("--- " <= s ==> c == '-') && ("+++ " <= s ==> c == '+')
  {
  }

  lemma {:induction false} CleanIff(l: Line)
    ensures var s := Mark(l.kind) + l.text; Clean(l) <==> !("--- " <= s) && !("+++ " <= s)
  {
    var s := Mark(l.kind) + l.text;
    NameNeedsMark(s, Mark(l.kind)[0]);
    match l.kind
    case Src =>
      MarkedPrefix("-", "-- ", l.text);
      assert "-" + "-- " == "--- ";
    case Dst =>
      MarkedPrefix("+", "++ ", l.text);
      assert "+" + "++ " == "+++ ";
    case Both =>
  }

  lemma {:induction false} ClassifyWritten(l: Line)
    requires OneLineText(l)
    ensures Clean(l) ==> Classify(WriteLine(l)) == Text(l)
    ensures !Clean(l) ==> !Classify(WriteLine(l)).Text?
  {
    var s := Mark(l.kind) + l.text;
    CleanIff(l);
    if Clean(l) {
      ClassifyMarked(l, s, WriteLine(l));
    } else {
      ClassifyAsName(s);
    }
  }

  lemma {:induction false} ClassifyHeader(c: Chunk)
    ensures Classify(WriteHeader(c)) == Header(c.srcPos, c.dstPos)
  {
    TakeHeaderBack(c.srcPos, SrcLines(c.lines), c.dstPos, DstLines(c.lines));
    var w := WriteHeader(c);
    assert w[0] == '@';
    assert Chomp(w) != "" && Chomp(w)[0] == '@';
  }

  // ----- sequences of lines

  lemma {:induction false} MapAppend<T, U>(a: seq<T>, b: seq<T>, f: T -> U)
    ensures Map(a + b, f) == Map(a, f) + Map(b, f)
  {
  }

  lemma {:induction false} MapOne<T, U>(x: T, f: T -> U)
    ensures Map([x], f) == [f(x)]
  {
  }

  lemma {:induction false} ScanAppend(s: State, a: seq<Item>, b: seq<Item>)
    ensures Scan(s, a + b) == match Scan(s, a) case None => None case Some(s') => Scan(s', b)
    decreases |a|
  {
    if a == [] {
      assert a + b == b;
    } else {
      assert (a + b)[1..] == a[1..] + b;
      match Step(s, a[0])
      case None =>
      case Some(s') => ScanAppend(s', a[1..], b);
    }
  }

  lemma {:induction false} ScanOne(s: State, item: Item)
    ensures Scan(s, [item]) == Step(s, item)
  {
    assert [item][1..] == [];
  }

  ghost predicate Reads(s: State, lines: seq<string>, s': State) {
    Scan(s, Items(lines)) == Some(s')
  }

  lemma {:induction false} ReadBoth(s: State, a: seq<string>, mid: State, b: seq<string>, s': State)
    requires Reads(s, a, mid) && Reads(mid, b, s')
    ensures Reads(s, a + b, s')
  {
    MapAppend(a, b, Classify);
    ScanAppend(s, Items(a), Items(b));
  }

  lemma {:induction false} ReadOne(s: State, line: string)
    ensures Scan(s, Items([line])) == Step(s, Classify(line))
  {
    MapOne(line, Classify);
    ScanOne(s, Classify(line));
  }

  // ----- if every text is clean, everything comes back

  function InChunk(ps: seq<Patch>, p: Patch, c: Chunk): State {
    State(ps + [p.(chunks := p.chunks + [c])], Some((|ps|, |p.chunks|)))
  }

  lemma {:induction false} StepText(ps: seq<Patch>, p: Patch, c: Chunk, l: Line)
    ensures Step(InChunk(ps, p, c), Text(l)) == Some(InChunk(ps, p, c.(lines := c.lines + [l])))
  {
    var s := InChunk(ps, p, c);
    var c' := c.(lines := c.lines + [l]);
    assert s.patches[|ps|].chunks[|p.chunks|] == c;
    assert (p.chunks + [c])[|p.chunks| := c'] == p.chunks + [c'];
    assert AddLine(s.patches, |ps|, |p.chunks|, l) == ps + [p.(chunks := p.chunks + [c'])];
  }

  lemma {:induction false} ReadLines(ps: seq<Patch>, p: Patch, c: Chunk, lines: seq<Line>)
    requires c.lines == [] && ChunkIs(c.(lines := lines), OneLineText) && ChunkIs(c.(lines := lines), Clean)
    ensures Reads(InChunk(ps, p, c), WriteLines(lines), InChunk(ps, p, c.(lines := lines)))
  {
    if lines == [] {
      assert c.(lines := lines) == c;
    } else {
      var front, l := lines[..|lines| - 1], lines[|lines| - 1];
      ReadLines(ps, p, c, front);
      assert front + [l] == lines;
      var mid, end := InChunk(ps, p, c.(lines := front)), InChunk(ps, p, c.(lines := lines));
      ReadOne(mid, WriteLine(l));
      ClassifyWritten(l);
      StepText(ps, p, c.(lines := front), l);
      ReadBoth(InChunk(ps, p, c), WriteLines(front), mid, [WriteLine(l)], end);
    }
  }

  lemma {:induction false} StepHeader(ps: seq<Patch>, p: Patch, at: Option<(nat, nat)>, c: Chunk)
    requires c.lines == []
    ensures Step(State(ps + [p], at), Header(c.srcPos, c.dstPos)) == Some(InChunk(ps, p, c))
  {
    var p' := p.(chunks := p.chunks + [c]);
    assert (ps + [p])[|ps|] == p;
    assert (ps + [p])[|ps| := p'] == ps + [p'];
  }

  lemma {:induction false} ReadHeader(ps: seq<Patch>, p: Patch, at: Option<(nat, nat)>, c: Chunk)
    ensures Reads(State(ps + [p], at), [WriteHeader(c)], InChunk(ps, p, c.(lines := [])))
  {
    ClassifyHeader(c);
    ReadOne(State(ps + [p], at), WriteHeader(c));
    StepHeader(ps, p, at, c.(lines := []));
  }

  lemma {:induction false} ReadChunk(ps: seq<Patch>, p: Patch, at: Option<(nat, nat)>, c: Chunk)
    requires ChunkIs(c, OneLineText) && ChunkIs(c, Clean)
    ensures Reads(State(ps + [p], at), WriteChunk(c), InChunk(ps, p, c))
  {
    var bare := c.(lines := []);
    ReadHeader(ps, p, at, c);
    assert bare.(lines := c.lines) == c;
    ReadLines(ps, p, bare, c.lines);
    ReadBoth(State(ps + [p], at), [WriteHeader(c)], InChunk(ps, p, bare), WriteLines(c.lines), InChunk(ps, p, c));
  }

  lemma {:induction false} ReadNextChunk(s: State, before: seq<string>, ps: seq<Patch>, p: Patch,
                                         at: Option<(nat, nat)>, c: Chunk)
    requires Reads(s, before, State(ps + [p], at)) && ChunkIs(c, OneLineText) && ChunkIs(c, Clean)
    ensures Reads(s, before + WriteChunk(c), InChunk(ps, p, c))
  {
    ReadChunk(ps, p, at, c);
    ReadBoth(s, before, State(ps + [p], at), WriteChunk(c), InChunk(ps, p, c));
  }

  lemma {:induction false} ReadChunks(ps: seq<Patch>, p: Patch, at: Option<(nat, nat)>, chunks: seq<Chunk>)
    returns (at': Option<(nat, nat)>)
    requires p.chunks == []
    requires forall k :: 0 <= k < |chunks| ==> ChunkIs(chunks[k], OneLineText) && ChunkIs(chunks[k], Clean)
    ensures Reads(State(ps + [p], at), WriteChunks(chunks), State(ps + [p.(chunks := chunks)], at'))
  {
    if chunks == [] {
      assert p.(chunks := chunks) == p;
      at' := at;
    } else {
      var front, c := chunks[..|chunks| - 1], chunks[|chunks| - 1];
      var at1 := ReadChunks(ps, p, at, front);
      ReadNextChunk(State(ps + [p], at), WriteChunks(front), ps, p.(chunks := front), at1, c);
      assert front + [c] == chunks;
      at' := Some((|ps|, |front|));
    }
  }

  lemma {:induction false} ReadNames(s: State, p: Patch)
    requires SingleLine(p.src) && SingleLine(p.dst)
    ensures Reads(s, WriteNames(p), State(s.patches + [p.(chunks := [])], s.at))
  {
    var a, b := "--- " + p.src + "\n", "+++ " + p.dst + "\n";
    ClassifySrcName(p.src);
    ClassifyDstName(p.dst);
    var one := State(s.patches + [Patch(p.src, "", [])], s.at);
    ReadOne(s, a);
    ReadOne(one, b);
    var n := |s.patches|;
    assert one.patches[n := one.patches[n].(dst := p.dst)] == s.patches + [p.(chunks := [])];
    ReadBoth(s, [a], one, [b], State(s.patches + [p.(chunks := [])], s.at));
  }

  ghost predicate Survives(p: Patch) {
    SingleLine(p.src) && SingleLine(p.dst) && PatchIs(p, OneLineText) && PatchIs(p, Clean)
  }

  lemma {:induction false} ReadPatch(s: State, p: Patch) returns (at: Option<(nat, nat)>)
    requires Survives(p)
    ensures Reads(s, WritePatch(p), State(s.patches + [p], at))
  {
    var bare := p.(chunks := []);
    ReadNames(s, p);
    assert bare.(chunks := p.chunks) == p;
    at := ReadChunks(s.patches, bare, s.at, p.chunks);
    ReadBoth(s, WriteNames(p), State(s.patches + [bare], s.at), WriteChunks(p.chunks), State(s.patches + [p], at));
  }

  lemma {:induction false} ReadNextPatch(s: State, before: seq<string>, mid: State, p: Patch)
    returns (at: Option<(nat, nat)>)
    requires Reads(s, before, mid) && Survives(p)
    ensures Reads(s, before + WritePatch(p), State(mid.patches + [p], at))
  {
    at := ReadPatch(mid, p);
    ReadBoth(s, before, mid, WritePatch(p), State(mid.patches + [p], at));
  }

  lemma {:induction false} ReadPatches(ps: seq<Patch>) returns (at: Option<(nat, nat)>)
    requires forall i :: 0 <= i < |ps| ==> Survives(ps[i])
    ensures Reads(State([], None), Write(ps), State(ps, at))
  {
    if ps == [] {
      at := None;
    } else {
      var front, p := ps[..|ps| - 1], ps[|ps| - 1];
      var at1 := ReadPatches(front);
      at := ReadNextPatch(State([], None), Write(front), State(front, at1), p);
      assert front + [p] == ps;
    }
  }

  // ----- a text that is not clean is lost as a line, and no other line makes up for it

  ghost function TextWeight(item: Item): nat {
    if item.Text? then 1 else 0
  }

  ghost function ChunkSize(c: Chunk): nat {
    |c.lines|
  }

  ghost function PatchSize(p: Patch): nat {
    Sum(p.chunks, ChunkSize)
  }

  ghost function Size(ps: seq<Patch>): nat {
    Sum(ps, PatchSize)
  }

  ghost function Texts(lines: seq<string>): nat {
    Sum(Items(lines), TextWeight)
  }

  lemma {:induction false} TextsAppend(a: seq<string>, b: seq<string>)
    ensures Texts(a + b) == Texts(a) + Texts(b)
  {
    MapAppend(a, b, Classify);
    SumAppend(Items(a), Items(b), TextWeight);
  }

  lemma {:induction false} TextsOne(line: string)
    ensures Texts([line]) == TextWeight(Classify(line))
  {
    MapOne(line, Classify);
    var items := [Classify(line)];
    assert items[1..] == [];
    assert Sum(items, TextWeight) == TextWeight(items[0]) + Sum(items[1..], TextWeight);
  }

  lemma {:induction false} StepSize(s: State, item: Item)
    ensures Step(s, item).Some? ==> Size(Step(s, item).value.patches) == Size(s.patches) + TextWeight(item)
  {
    var n := |s.patches|;
    match item
    case SrcFile(name) => SumSnoc(s.patches, Patch(name, "", []), PatchSize);
    case DstFile(name) =>
      if n > 0 {
        SumUpdate(s.patches, n - 1, s.patches[n - 1].(dst := name), PatchSize);
      }
    case Header(srcPos, dstPos) =>
      if n > 0 {
        var last, c := s.patches[n - 1], Chunk(srcPos, dstPos, []);
        SumUpdate(s.patches, n - 1, last.(chunks := last.chunks + [c]), PatchSize);
        SumSnoc(last.chunks, c, ChunkSize);
      }
    case Text(line) =>
      if Step(s, item).Some? {
        var (p, c) := s.at.value;
        var patch := s.patches[p];
        var c' := patch.chunks[c].(lines := patch.chunks[c].lines + [line]);
        SumUpdate(patch.chunks, c, c', ChunkSize);
        SumUpdate(s.patches, p, patch.(chunks := patch.chunks[c := c']), PatchSize);
      }
    case Bad =>
  }

  /** Reading keeps exactly one line for each line of text, whatever the input. */
  lemma {:induction false} ScanSize(s: State, items: seq<Item>)
    ensures Scan(s, items).Some? ==> Size(Scan(s, items).value.patches) == Size(s.patches) + Sum(items, TextWeight)
    decreases |items|
  {
    if items != [] {
      StepSize(s, items[0]);
      if Step(s, items[0]).Some? {
        ScanSize(Step(s, items[0]).value, items[1..]);
      }
    }
  }

  ghost function TextsBy<T>(write: T -> seq<string>): T -> nat {
    x => Texts(write(x))
  }

  ghost function One(l: Line): nat {
    1
  }

  lemma {:induction false} EachAddsUp<T(!new)>(s: seq<T>, write: T -> seq<string>)
    ensures Texts(Each(s, write)) == Sum(s, TextsBy(write))
  {
    if s != [] {
      var front, x := s[..|s| - 1], s[|s| - 1];
      EachAddsUp(front, write);
      TextsAppend(Each(front, write), write(x));
      SumLast(s, TextsBy(write));
    }
  }

  lemma {:induction false} TextsOfLine(l: Line)
    requires OneLineText(l)
    ensures Texts(WriteOne(l)) <= 1 && (!Clean(l) ==> Texts(WriteOne(l)) == 0)
  {
    TextsOne(WriteLine(l));
    ClassifyWritten(l);
  }

  lemma {:induction false} TextsOfLines(lines: seq<Line>, i: nat)
    requires forall j :: 0 <= j < |lines| ==> OneLineText(lines[j])
    ensures Texts(WriteLines(lines)) <= |lines|
    ensures i < |lines| && !Clean(lines[i]) ==> Texts(WriteLines(lines)) < |lines|
  {
    var f := TextsBy(WriteOne);
    EachAddsUp(lines, WriteOne);
    forall j | 0 <= j < |lines| ensures f(lines[j]) <= One(lines[j]) && (!Clean(lines[j]) ==> f(lines[j]) == 0) {
      TextsOfLine(lines[j]);
    }
    SumAtMost(lines, f, One, i);
    SumAll(lines, One);
  }

  ghost predicate IsDirtyAt(p: Patch, k: nat, i: nat) {
    k < |p.chunks| && i < |p.chunks[k].lines| && !Clean(p.chunks[k].lines[i])
  }

  lemma {:induction false} TextsOfChunk(c: Chunk, i: nat)
    requires ChunkIs(c, OneLineText)
    ensures Texts(WriteChunk(c)) <= ChunkSize(c)
    ensures i < |c.lines| && !Clean(c.lines[i]) ==> Texts(WriteChunk(c)) < ChunkSize(c)
  {
    TextsAppend([WriteHeader(c)], WriteLines(c.lines));
    TextsOne(WriteHeader(c));
    ClassifyHeader(c);
    TextsOfLines(c.lines, i);
  }

  lemma {:induction false} TextsOfChunks(p: Patch, k: nat, i: nat)
    requires PatchIs(p, OneLineText)
    ensures Texts(WriteChunks(p.chunks)) <= PatchSize(p)
    ensures IsDirtyAt(p, k, i) ==> Texts(WriteChunks(p.chunks)) < PatchSize(p)
  {
    var f := TextsBy(WriteChunk);
    EachAddsUp(p.chunks, WriteChunk);
    forall j | 0 <= j < |p.chunks|
      ensures f(p.chunks[j]) <= ChunkSize(p.chunks[j])
      ensures j == k && IsDirtyAt(p, k, i) ==> f(p.chunks[j]) < ChunkSize(p.chunks[j])
    {
      TextsOfChunk(p.chunks[j], i);
    }
    SumAtMost(p.chunks, f, ChunkSize, k);
  }

  lemma {:induction false} TextsOfNames(p: Patch)
    requires SingleLine(p.src) && SingleLine(p.dst)
    ensures Texts(WriteNames(p)) == 0
  {
    var a, b := "--- " + p.src + "\n", "+++ " + p.dst + "\n";
    TextsAppend([a], [b]);
    TextsOne(a);
    TextsOne(b);
    ClassifySrcName(p.src);
    ClassifyDstName(p.dst);
  }

  ghost predicate OneLinePatch(p: Patch) {
    SingleLine(p.src) && SingleLine(p.dst) && PatchIs(p, OneLineText)
  }

  lemma {:induction false} TextsOfPatch(p: Patch, k: nat, i: nat)
    requires OneLinePatch(p)
    ensures Texts(WritePatch(p)) <= PatchSize(p)
    ensures IsDirtyAt(p, k, i) ==> Texts(WritePatch(p)) < PatchSize(p)
  {
    TextsOfNames(p);
    TextsAppend(WriteNames(p), WriteChunks(p.chunks));
    TextsOfChunks(p, k, i);
  }

  lemma {:induction false} TextsOfPatches(ps: seq<Patch>, q: nat, k: nat, i: nat)
    requires forall j :: 0 <= j < |ps| ==> OneLinePatch(ps[j])
    ensures q < |ps| && IsDirtyAt(ps[q], k, i) ==> Texts(Write(ps)) < Size(ps)
  {
    var f := TextsBy(WritePatch);
    EachAddsUp(ps, WritePatch);
    forall j | 0 <= j < |ps|
      ensures f(ps[j]) <= PatchSize(ps[j])
      ensures j == q && IsDirtyAt(ps[q], k, i) ==> f(ps[j]) < PatchSize(ps[j])
    {
      TextsOfPatch(ps[j], k, i);
    }
    SumAtMost(ps, f, PatchSize, q);
  }

  lemma {:induction false} UncleanIsLost(ps: seq<Patch>)
    requires OneLineNames(ps) && AllLines(ps, OneLineText) && !AllLines(ps, Clean)
    ensures Parse(Write(ps)) != Some(ps)
  {
    ScanSize(State([], None), Items(Write(ps)));
    var q :| 0 <= q < |ps| && !PatchIs(ps[q], Clean);
    var k :| 0 <= k < |ps[q].chunks| && !ChunkIs(ps[q].chunks[k], Clean);
    var i :| 0 <= i < |ps[q].chunks[k].lines| && !Clean(ps[q].chunks[k].lines[i]);
    assert IsDirtyAt(ps[q], k, i);
    forall j | 0 <= j < |ps| ensures OneLinePatch(ps[j]) {
      assert PatchIs(ps[j], OneLineText);
    }
    TextsOfPatches(ps, q, k, i);
  }

  lemma {:induction false} CleanComesBack(ps: seq<Patch>)
    requires OneLineNames(ps) && AllLines(ps, OneLineText) && AllLines(ps, Clean)
    ensures Parse(Write(ps)) == Some(ps)
  {
    forall i | 0 <= i < |ps| ensures Survives(ps[i]) {
      assert PatchIs(ps[i], OneLineText) && PatchIs(ps[i], Clean);
    }
    var _ := ReadPatches(ps);
  }

  /** A patch set of single-line texts comes back from its print exactly when no text can be taken for a file name. */
  lemma {:induction false} RoundTripIff(ps: seq<Patch>)
    requires OneLineNames(ps) && AllLines(ps, OneLineText)
    ensures Parse(Write(ps)) == Some(ps) <==> AllLines(ps, Clean)
  {
    if AllLines(ps, Clean) {
      CleanComesBack(ps);
    } else {
      UncleanIsLost(ps);
    }
  }

  /** A removed text that starts with two dashes and a blank does not come back. */
  lemma {:induction false} DashesAreLost()
    ensures var ps := [Patch("a", "b", [Chunk(1, 1, [Line(Src, "-- ")])])]; Parse(Write(ps)) != Some(ps)
  {
    var l := Line(Src, "-- ");
    var c := Chunk(1, 1, [l]);
    var p := Patch("a", "b", [c]);
    assert !Clean(l) && !Clean(c.lines[0]);
    assert !ChunkIs(p.chunks[0], Clean) && !PatchIs([p][0], Clean);
    UncleanIsLost([p]);
  }

  // ----- the lengths in a header

  /** All four numbers of a chunk header: position and length on the source side, then on the destination side. */
  function TakeNumbers(s: string): Option<((nat, nat), (nat, nat))> {
    match TakeSide("@@ -", s)
    case None => None
    case Some((src, s1)) =>
      match TakeSide(" +", s1)
      case None => None
      case Some((dst, s2)) => if s2 == " @@\n" then Some((src, dst)) else None
  }

  function TakeSide(separator: string, s: string): Option<((nat, nat), string)> {
    match TakeField(separator, s)
    case None => None
    case Some((pos, s1)) =>
      match TakeField(",", s1)
      case None => None
      case Some((len, s2)) => Some(((pos, len), s2))
  }

  lemma {:induction false} TakeSideBack(separator: string, a: nat, b: nat, rest: string)
    requires rest == "" || !IsDigit(rest[0])
    ensures TakeSide(separator, separator + (Decimal(a) + ("," + (Decimal(b) + rest)))) == Some(((a, b), rest))
  {
    TakeFieldBack(separator, a, "," + (Decimal(b) + rest));
    TakeFieldBack(",", b, rest);
  }

  ghost function LinesNot(lines: seq<Line>, k: Kind): set<nat> {
    set i: nat | i < |lines| && lines[i].kind != k
  }

  lemma {:induction false} SideCounts(lines: seq<Line>, k: Kind)
    ensures |Side(lines, k)| == |LinesNot(lines, k)|
  {
    if lines != [] {
      var n := |lines| - 1;
      var front := lines[..n];
      SideCounts(front, k);
      if lines[n].kind == k {
        assert LinesNot(lines, k) == LinesNot(front, k);
      } else {
        assert LinesNot(lines, k) == LinesNot(front, k) + {n};
      }
    } else {
      assert LinesNot(lines, k) == {};
    }
  }

  /** A chunk is written with its positions and with the numbers of its lines on the source and the destination side. */
  lemma {:induction false} HeaderIs(c: Chunk)
    ensures TakeNumbers(WriteHeader(c)) ==
            Some(((c.srcPos, |LinesNot(c.lines, Dst)|), (c.dstPos, |LinesNot(c.lines, Src)|)))
  {
    SideCounts(c.lines, Dst);
    SideCounts(c.lines, Src);
    var s2 := " @@\n";
    var s1 := " +" + (Decimal(c.dstPos) + ("," + (Decimal(DstLines(c.lines)) + s2)));
    assert !IsDigit(s1[0]) && !IsDigit(s2[0]);
    TakeSideBack("@@ -", c.srcPos, SrcLines(c.lines), s1);
    TakeSideBack(" +", c.dstPos, DstLines(c.lines), s2);
  }

  // ----- whatever is read can be written and read again

  predicate Good(l: Line) {
    OneLineText(l) && Clean(l)
  }

  predicate GoodItem(item: Item) {
    match item
    case SrcFile(name) => SingleLine(name)
    case DstFile(name) => SingleLine(name)
    case Text(l) => Good(l)
    case _ => true
  }

  lemma {:induction false} TextIsGood(s: string, mark: string)
    requires SingleLine(s) && mark <= s && |mark| == 1
    ensures SingleLine(s[1..])
    ensures "-" <= s && !("--- " <= s) ==> !("-- " <= s[1..])
    ensures "+" <= s && !("+++ " <= s) ==> !("++ " <= s[1..])
  {
    assert s == s[..1] + s[1..];
    if "-" <= s {
      MarkedPrefix("-", "-- ", s[1..]);
      assert "-" + "-- " == "--- " && s[..1] == "-";
    }
    if "+" <= s {
      MarkedPrefix("+", "++ ", s[1..]);
      assert "+" + "++ " == "+++ " && s[..1] == "+";
    }
  }

  lemma {:induction false} ClassifyIsGood(line: string)
    ensures GoodItem(Classify(line))
  {
    var s := Chomp(line);
    if SingleLine(s) && Classify(line).Text? {
      TextIsGood(s, s[..1]);
    }
  }

  ghost predicate GoodPatch(p: Patch) {
    SingleLine(p.src) && SingleLine(p.dst) && PatchIs(p, Good)
  }

  ghost predicate GoodPatches(ps: seq<Patch>) {
    forall i :: 0 <= i < |ps| ==> GoodPatch(ps[i])
  }

  lemma {:induction false} AddLineIsGood(p: Patch, c: nat, l: Line)
    requires GoodPatch(p) && c < |p.chunks| && Good(l)
    ensures GoodPatch(p.(chunks := p.chunks[c := p.chunks[c].(lines := p.chunks[c].lines + [l])]))
  {
    assert ChunkIs(p.chunks[c], Good);
    var c' := p.chunks[c].(lines := p.chunks[c].lines + [l]);
    assert ChunkIs(c', Good);
  }

  lemma {:induction false} StepIsGood(s: State, item: Item)
    requires GoodPatches(s.patches) && GoodItem(item)
    ensures Step(s, item).Some? ==> GoodPatches(Step(s, item).value.patches)
  {
    match item
    case Text(l) =>
      if Step(s, item).Some? {
        AddLineIsGood(s.patches[s.at.value.0], s.at.value.1, l);
      }
    case Header(srcPos, dstPos) =>
      if s.patches != [] {
        var p := s.patches[|s.patches| - 1];
        assert GoodPatch(p);
        assert GoodPatch(p.(chunks := p.chunks + [Chunk(srcPos, dstPos, [])]));
      }
    case _ =>
  }

  lemma {:induction false} ScanIsGood(s: State, items: seq<Item>)
    requires GoodPatches(s.patches) && forall i :: 0 <= i < |items| ==> GoodItem(items[i])
    ensures Scan(s, items).Some? ==> GoodPatches(Scan(s, items).value.patches)
    decreases |items|
  {
    if items != [] {
      StepIsGood(s, items[0]);
      if Step(s, items[0]).Some? {
        ScanIsGood(Step(s, items[0]).value, items[1..]);
      }
    }
  }

  lemma {:induction false} ParsedIsGood(input: seq<string>)
    ensures Parse(input).Some? ==> GoodPatches(Parse(input).value)
  {
    var items := Items(input);
    forall i | 0 <= i < |items| ensures GoodItem(items[i]) {
      ClassifyIsGood(input[i]);
    }
    ScanIsGood(State([], None), items);
  }

  lemma {:induction false} GoodMeans(ps: seq<Patch>)
    requires GoodPatches(ps)
    ensures OneLineNames(ps) && AllLines(ps, OneLineText) && AllLines(ps, Clean)
  {
    forall i | 0 <= i < |ps| ensures PatchIs(ps[i], OneLineText) && PatchIs(ps[i], Clean) {
      assert GoodPatch(ps[i]);
      forall k | 0 <= k < |ps[i].chunks|
        ensures ChunkIs(ps[i].chunks[k], OneLineText) && ChunkIs(ps[i].chunks[k], Clean)
      {
        assert ChunkIs(ps[i].chunks[k], Good);
      }
    }
  }

  /** Reading is the identity on what it has read once: of every accepted input, the print is a normal form. */
  lemma {:induction false} ParsedReadsBack(input: seq<string>)
    ensures Parse(input).Some? ==> Parse(Write(Parse(input).value)) == Parse(input)
  {
    if Parse(input).Some? {
      ParsedIsGood(input);
      GoodMeans(Parse(input).value);
      RoundTripIff(Parse(input).value);
    }
  }
}
