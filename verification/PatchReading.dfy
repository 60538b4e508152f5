/** What reading makes of the lines of a patch set: which inputs are accepted, and where each line ends up. */
module PatchReading {
  import opened Wrappers
  import opened PatchSet

  // ----- the chunk header

  predicate IsNumber(s: string) {
    s != "" && forall i :: 0 <= i < |s| ==> '0' <= s[i] <= '9'
  }

  /** The header of a chunk, with its four numbers as they are spelled, and whatever follows it. */
  ghost function HeaderText(a: string, b: string, c: string, d: string, rest: string): string {
    "@@ -" + (a + ("," + (b + (" +" + (c + ("," + (d + (" @@" + rest))))))))
  }

  lemma {:induction false} NumberIs(s: string)
    ensures IsNumber(s) ==> s != "" && forall i :: 0 <= i < |s| ==> IsDigit(s[i])
    ensures (s != "" && forall i :: 0 <= i < |s| ==> IsDigit(s[i])) ==> IsNumber(s)
  {
  }

  lemma {:induction false} DigitCountEnds(s: string)
    ensures DigitCount(s) < |s| ==> !IsDigit(s[DigitCount(s)])
  {
    if s != "" && IsDigit(s[0]) {
      DigitCountEnds(s[1..]);
    }
  }

  /** A separator and a number, as far as there are digits. */
  ghost predicate IsField(separator: string, s: string, n: string, rest: string) {
    s == separator + (n + rest) && IsNumber(n) && (rest == "" || !IsDigit(rest[0]))
  }

  ghost predicate FieldIs(separator: string, s: string, n: string, rest: string) {
    && IsField(separator, s, n, rest) && (forall i :: 0 <= i < |n| ==> IsDigit(n[i]))
    && TakeField(separator, s) == Some((DecimalValue(n), rest))
  }

  lemma {:induction false} FieldIsTaken(separator: string, s: string, n: string, rest: string)
    requires IsField(separator, s, n, rest)
    ensures FieldIs(separator, s, n, rest)
  {
    NumberIs(n);
    var t := n + rest;
    assert (separator + t)[|separator|..] == t;
    DigitCountOf(n, rest);
    assert t[..|n|] == n && t[|n|..] == rest;
  }

  lemma {:induction false} TakenIsField(separator: string, s: string) returns (n: string, rest: string)
    requires TakeField(separator, s).Some?
    ensures FieldIs(separator, s, n, rest)
  {
    var t := s[|separator|..];
    var k := DigitCount(t);
    n, rest := t[..k], t[k..];
    DigitCountEnds(t);
    NumberIs(n);
    assert s == separator + t && t == n + rest;
  }

  ghost predicate PositionIs(separator: string, s: string, a: string, b: string, rest: string) {
    && IsNumber(a) && IsNumber(b) && s == separator + (a + ("," + (b + rest))) && (rest == "" || !IsDigit(rest[0]))
    && (forall i :: 0 <= i < |a| ==> IsDigit(a[i])) && TakePosition(separator, s) == Some((DecimalValue(a), rest))
  }

  lemma {:induction false} PositionIsTaken(separator: string, a: string, b: string, rest: string)
    requires IsNumber(a) && IsNumber(b) && (rest == "" || !IsDigit(rest[0]))
    ensures PositionIs(separator, separator + (a + ("," + (b + rest))), a, b, rest)
  {
    var s1 := "," + (b + rest);
    FieldIsTaken(separator, separator + (a + s1), a, s1);
    FieldIsTaken(",", s1, b, rest);
  }

  lemma {:induction false} TakenIsPosition(separator: string, s: string) returns (a: string, b: string, rest: string)
    requires TakePosition(separator, s).Some?
    ensures PositionIs(separator, s, a, b, rest)
  {
    var s1: string;
    a, s1 := TakenIsField(separator, s);
    b, rest := TakenIsField(",", s1);
  }

  lemma {:induction false} HeaderIsTaken(a: string, b: string, c: string, d: string, rest: string)
    requires IsNumber(a) && IsNumber(b) && IsNumber(c) && IsNumber(d)
    ensures (forall i :: 0 <= i < |a| ==> IsDigit(a[i])) && (forall i :: 0 <= i < |c| ==> IsDigit(c[i]))
    ensures TakeHeader(HeaderText(a, b, c, d, rest)) == Some((DecimalValue(a), DecimalValue(c)))
  {
    var s2 := " @@" + rest;
    var s1 := " +" + (c + ("," + (d + s2)));
    assert s1[0] == ' ' && s2[0] == ' ';
    PositionIsTaken("@@ -", a, b, s1);
    PositionIsTaken(" +", c, d, s2);
    assert s2[..3] == " @@";
  }

  lemma {:induction false} TakenIsHeader(s: string) returns (a: string, b: string, c: string, d: string, rest: string)
    requires TakeHeader(s).Some?
    ensures IsNumber(a) && IsNumber(b) && IsNumber(c) && IsNumber(d) && s == HeaderText(a, b, c, d, rest)
  {
    var s1, s2: string;
    a, b, s1 := TakenIsPosition("@@ -", s);
    c, d, s2 := TakenIsPosition(" +", s1);
    rest := TakenText(" @@", s2);
    PutTogether(s, s1, s2, a, b, c, d, rest);
  }

  lemma {:induction false} TakenText(prefix: string, s: string) returns (rest: string)
    requires TakeText(prefix, s).Some?
    ensures s == prefix + rest
  {
    rest := s[|prefix|..];
  }

  lemma {:induction false} PutTogether(s: string, s1: string, s2: string, a: string, b: string, c: string, d: string,
                                       rest: string)
    requires s == "@@ -" + (a + ("," + (b + s1))) && s1 == " +" + (c + ("," + (d + s2))) && s2 == " @@" + rest
    ensures s == HeaderText(a, b, c, d, rest)
  {
  }

  ghost predicate IsHeaderLine(s: string, srcPos: nat, dstPos: nat) {
    exists a, b, c, d, rest :: HasNumbers(s, a, b, c, d, rest, srcPos, dstPos)
  }

  ghost predicate HasNumbers(s: string, a: string, b: string, c: string, d: string, rest: string, srcPos: nat,
                             dstPos: nat) {
    && IsNumber(a) && IsNumber(b) && IsNumber(c) && IsNumber(d) && s == HeaderText(a, b, c, d, rest)
    && (forall i :: 0 <= i < |a| ==> IsDigit(a[i])) && (forall i :: 0 <= i < |c| ==> IsDigit(c[i]))
    && DecimalValue(a) == srcPos && DecimalValue(c) == dstPos
  }

  /** A line is taken for a chunk header exactly if it starts like one, whatever its lengths and whatever follows. */
  lemma {:induction false} HeaderIff(s: string, srcPos: nat, dstPos: nat)
    ensures TakeHeader(s) == Some((srcPos, dstPos)) <==> IsHeaderLine(s, srcPos, dstPos)
  {
    if TakeHeader(s) == Some((srcPos, dstPos)) {
      var a, b, c, d, rest := TakenIsHeader(s);
      HeaderIsTaken(a, b, c, d, rest);
      assert HasNumbers(s, a, b, c, d, rest, srcPos, dstPos);
    }
    forall a, b, c, d, rest | HasNumbers(s, a, b, c, d, rest, srcPos, dstPos)
      ensures TakeHeader(s) == Some((srcPos, dstPos))
    {
      HeaderIsTaken(a, b, c, d, rest);
    }
  }

  const Empty: State := State([], None)

  lemma {:induction false} ScanSnoc(items: seq<Item>)
    requires items != []
    ensures Scan(Empty, items) ==
            match Scan(Empty, items[..|items| - 1]) case None => None case Some(s) => Step(s, items[|items| - 1])
  {
    ScanSnocFrom(Empty, items);
  }

  lemma {:induction false} ScanSnocFrom(s: State, items: seq<Item>)
    requires items != []
    ensures Scan(s, items) ==
            match Scan(s, items[..|items| - 1]) case None => None case Some(s') => Step(s', items[|items| - 1])
    decreases |items|
  {
    if |items| > 1 {
      match Step(s, items[0])
      case None =>
      case Some(s') =>
        ScanSnocFrom(s', items[1..]);
        assert items[1..][..|items| - 2] == items[..|items| - 1][1..];
    } else {
      assert items[1..] == [] && items[..0] == [];
    }
  }

  // ----- the items of each kind, in order

  function SrcNames(items: seq<Item>): seq<string> {
    if items == [] then []
    else
      var front, x := SrcNames(items[..|items| - 1]), items[|items| - 1];
      if x.SrcFile? then front + [x.name] else front
  }

  /** Each header, with the number of the source it comes after. */
  function Heads(items: seq<Item>): seq<(int, nat, nat)> {
    if items == [] then []
    else
      var front, x := Heads(items[..|items| - 1]), items[|items| - 1];
      if x.Header? then front + [(|SrcNames(items[..|items| - 1])| - 1, x.srcPos, x.dstPos)] else front
  }

  /** Each line of text, with the number of the header it comes after, whether or not another file begins in between. */
  function Lines(items: seq<Item>): seq<(int, Line)> {
    if items == [] then []
    else
      var front, x := Lines(items[..|items| - 1]), items[|items| - 1];
      if x.Text? then front + [(|Heads(items[..|items| - 1])| - 1, x.line)] else front
  }

  // ----- the same of a patch set

  function Sources(ps: seq<Patch>): seq<string> {
    if ps == [] then [] else Sources(ps[..|ps| - 1]) + [ps[|ps| - 1].src]
  }

  function AllChunks(ps: seq<Patch>): seq<Chunk> {
    if ps == [] then [] else AllChunks(ps[..|ps| - 1]) + ps[|ps| - 1].chunks
  }

  function ChunkHeads(q: int, chunks: seq<Chunk>): seq<(int, nat, nat)> {
    if chunks == [] then []
    else ChunkHeads(q, chunks[..|chunks| - 1]) + [(q, chunks[|chunks| - 1].srcPos, chunks[|chunks| - 1].dstPos)]
  }

  /** The chunks of all patches, each with the number of its patch. */
  function PatchHeads(ps: seq<Patch>): seq<(int, nat, nat)> {
    if ps == [] then [] else PatchHeads(ps[..|ps| - 1]) + ChunkHeads(|ps| - 1, ps[|ps| - 1].chunks)
  }

  function Numbered(h: int, lines: seq<Line>): seq<(int, Line)> {
    if lines == [] then [] else Numbered(h, lines[..|lines| - 1]) + [(h, lines[|lines| - 1])]
  }

  /** The lines of all chunks, each with the number of its chunk. */
  function ChunkLines(chunks: seq<Chunk>): seq<(int, Line)> {
    if chunks == [] then []
    else ChunkLines(chunks[..|chunks| - 1]) + Numbered(|chunks| - 1, chunks[|chunks| - 1].lines)
  }

  ghost predicate IsReadingOf(ps: seq<Patch>, items: seq<Item>) {
    && Sources(ps) == SrcNames(items) && |ps| == |SrcNames(items)|
    && PatchHeads(ps) == Heads(items) && |AllChunks(ps)| == |Heads(items)|
    && ChunkLines(AllChunks(ps)) == Lines(items)
  }

  /** Lines are added to the last chunk there is. */
  ghost predicate AtLast(s: State) {
    match s.at
    case None => AllChunks(s.patches) == []
    case Some((p, c)) =>
      && p < |s.patches| && |s.patches[p].chunks| == c + 1
      && forall q :: p < q < |s.patches| ==> s.patches[q].chunks == []
  }

  // ----- adding to a patch set

  lemma {:induction false} AddSource(ps: seq<Patch>, p: Patch)
    requires p.chunks == []
    ensures Sources(ps + [p]) == Sources(ps) + [p.src] && AllChunks(ps + [p]) == AllChunks(ps)
    ensures PatchHeads(ps + [p]) == PatchHeads(ps)
  {
    assert (ps + [p])[..|ps|] == ps;
    assert AllChunks(ps) + [] == AllChunks(ps);
  }

  lemma {:induction false} ReplaceLast(ps: seq<Patch>, p: Patch)
    requires ps != [] && p.src == ps[|ps| - 1].src
    ensures var r, n := ps[|ps| - 1 := p], |ps| - 1;
            && Sources(r) == Sources(ps)
            && AllChunks(r) == AllChunks(ps[..n]) + p.chunks && AllChunks(ps) == AllChunks(ps[..n]) + ps[n].chunks
            && PatchHeads(r) == PatchHeads(ps[..n]) + ChunkHeads(n, p.chunks)
            && PatchHeads(ps) == PatchHeads(ps[..n]) + ChunkHeads(n, ps[n].chunks)
  {
    assert ps[|ps| - 1 := p][..|ps| - 1] == ps[..|ps| - 1];
  }

  lemma {:induction false} AddChunk(ps: seq<Patch>, c: Chunk)
    requires ps != [] && c.lines == []
    ensures var last := ps[|ps| - 1];
            var r := ps[|ps| - 1 := last.(chunks := last.chunks + [c])];
            && Sources(r) == Sources(ps) && AllChunks(r) == AllChunks(ps) + [c]
            && PatchHeads(r) == PatchHeads(ps) + [(|ps| - 1, c.srcPos, c.dstPos)]
  {
    var last := ps[|ps| - 1];
    ReplaceLast(ps, last.(chunks := last.chunks + [c]));
    assert (last.chunks + [c])[..|last.chunks|] == last.chunks;
  }

  lemma {:induction false} EmptyChunk(chunks: seq<Chunk>, c: Chunk)
    requires c.lines == []
    ensures ChunkLines(chunks + [c]) == ChunkLines(chunks)
  {
    assert (chunks + [c])[..|chunks|] == chunks;
    assert ChunkLines(chunks) + [] == ChunkLines(chunks);
  }

  lemma {:induction false} LongerChunk(chunks: seq<Chunk>, l: Line)
    requires chunks != []
    ensures var n := |chunks| - 1;
            ChunkLines(chunks[n := chunks[n].(lines := chunks[n].lines + [l])]) == ChunkLines(chunks) + [(n, l)]
  {
    var n := |chunks| - 1;
    var lines := chunks[n].lines;
    assert chunks[n := chunks[n].(lines := lines + [l])][..n] == chunks[..n];
    assert (lines + [l])[..|lines|] == lines;
  }

  ghost predicate SameButLines(a: seq<Patch>, b: seq<Patch>) {
    Sources(a) == Sources(b) && PatchHeads(a) == PatchHeads(b) && |a| == |b|
  }

  lemma {:induction false} HeadsIgnoreLines(q: int, chunks: seq<Chunk>, c: nat, lines: seq<Line>)
    requires c < |chunks|
    ensures ChunkHeads(q, chunks[c := chunks[c].(lines := lines)]) == ChunkHeads(q, chunks)
  {
    var n := |chunks| - 1;
    var r := chunks[c := chunks[c].(lines := lines)];
    if c < n {
      HeadsIgnoreLines(q, chunks[..n], c, lines);
      assert r[..n] == chunks[..n][c := chunks[..n][c].(lines := lines)];
    } else {
      assert r[..n] == chunks[..n];
    }
  }

  lemma {:induction false} NoMoreChunks(ps: seq<Patch>)
    requires ps != [] && ps[|ps| - 1].chunks == []
    ensures AllChunks(ps) == AllChunks(ps[..|ps| - 1]) && PatchHeads(ps) == PatchHeads(ps[..|ps| - 1])
  {
    assert AllChunks(ps[..|ps| - 1]) + [] == AllChunks(ps[..|ps| - 1]);
    assert PatchHeads(ps[..|ps| - 1]) + [] == PatchHeads(ps[..|ps| - 1]);
  }

  ghost predicate LineAdded(ps: seq<Patch>, r: seq<Patch>, l: Line) {
    var all := AllChunks(ps);
    && SameButLines(r, ps) && all != []
    && AllChunks(r) == all[|all| - 1 := all[|all| - 1].(lines := all[|all| - 1].lines + [l])]
  }

  lemma {:induction false} AddToLastPatch(ps: seq<Patch>, c: nat, l: Line)
    requires ps != [] && |ps[|ps| - 1].chunks| == c + 1
    ensures LineAdded(ps, AddLine(ps, |ps| - 1, c, l), l)
  {
    var n := |ps| - 1;
    var r := AddLine(ps, n, c, l);
    assert r == ps[n := r[n]];
    ReplaceLast(ps, r[n]);
    HeadsIgnoreLines(n, ps[n].chunks, c, ps[n].chunks[c].lines + [l]);
  }

  lemma {:induction false} AddBeforeLast(ps: seq<Patch>, r: seq<Patch>, l: Line)
    requires ps != [] && |r| == |ps| && r[|ps| - 1] == ps[|ps| - 1] && ps[|ps| - 1].chunks == []
    requires LineAdded(ps[..|ps| - 1], r[..|ps| - 1], l)
    ensures LineAdded(ps, r, l)
  {
    NoMoreChunks(ps);
    NoMoreChunks(r);
  }

  /** A line added to the last chunk there is. */
  lemma {:induction false} AddLineIs(ps: seq<Patch>, p: nat, c: nat, l: Line)
    requires AtLast(State(ps, Some((p, c))))
    ensures LineAdded(ps, AddLine(ps, p, c, l), l)
    decreases |ps| - p
  {
    var n, r := |ps| - 1, AddLine(ps, p, c, l);
    if p == n {
      AddToLastPatch(ps, c, l);
    } else {
      AddLineIs(ps[..n], p, c, l);
      assert r[..n] == AddLine(ps[..n], p, c, l) && r[n] == ps[n];
      AddBeforeLast(ps, r, l);
    }
  }

  // ----- reading, one item at a time

  ghost predicate Reads(s: State, items: seq<Item>) {
    IsReadingOf(s.patches, items) && AtLast(s)
  }

  lemma {:induction false} ItemsNext(items: seq<Item>, x: Item)
    ensures SrcNames(items + [x]) == if x.SrcFile? then SrcNames(items) + [x.name] else SrcNames(items)
    ensures Heads(items + [x]) ==
            if x.Header? then Heads(items) + [(|SrcNames(items)| - 1, x.srcPos, x.dstPos)] else Heads(items)
    ensures Lines(items + [x]) == if x.Text? then Lines(items) + [(|Heads(items)| - 1, x.line)] else Lines(items)
  {
    assert (items + [x])[..|items|] == items;
  }

  lemma {:induction false} ReadSource(items: seq<Item>, s: State, name: string)
    requires Reads(s, items)
    ensures Reads(Step(s, SrcFile(name)).value, items + [SrcFile(name)])
  {
    ItemsNext(items, SrcFile(name));
    AddSource(s.patches, Patch(name, "", []));
  }

  lemma {:induction false} LastAfterDestination(s: State, name: string)
    requires AtLast(s) && s.patches != [] && AllChunks(Step(s, DstFile(name)).value.patches) == AllChunks(s.patches)
    ensures AtLast(Step(s, DstFile(name)).value)
  {
  }

  lemma {:induction false} ReadDestination(items: seq<Item>, s: State, name: string)
    requires Reads(s, items) && s.patches != []
    ensures Reads(Step(s, DstFile(name)).value, items + [DstFile(name)])
  {
    ItemsNext(items, DstFile(name));
    ReplaceLast(s.patches, s.patches[|s.patches| - 1].(dst := name));
    LastAfterDestination(s, name);
  }

  lemma {:induction false} LastAfterHeader(s: State, a: nat, b: nat)
    requires s.patches != []
    ensures AtLast(Step(s, Header(a, b)).value)
  {
  }

  lemma {:induction false} ReadHeader(items: seq<Item>, s: State, a: nat, b: nat)
    requires Reads(s, items) && s.patches != []
    ensures Reads(Step(s, Header(a, b)).value, items + [Header(a, b)])
  {
    ItemsNext(items, Header(a, b));
    LastAfterHeader(s, a, b);
    AddChunk(s.patches, Chunk(a, b, []));
    EmptyChunk(AllChunks(s.patches), Chunk(a, b, []));
  }

  lemma {:induction false} LastAfterText(s: State, l: Line)
    requires AtLast(s) && s.at.Some?
    ensures Step(s, Text(l)) == Some(State(AddLine(s.patches, s.at.value.0, s.at.value.1, l), s.at))
    ensures AtLast(Step(s, Text(l)).value)
  {
  }

  lemma {:induction false} ReadText(items: seq<Item>, s: State, l: Line)
    requires Reads(s, items) && s.at.Some?
    ensures Step(s, Text(l)).Some? && Reads(Step(s, Text(l)).value, items + [Text(l)])
  {
    ItemsNext(items, Text(l));
    LastAfterText(s, l);
    AddLineIs(s.patches, s.at.value.0, s.at.value.1, l);
    LongerChunk(AllChunks(s.patches), l);
  }

  lemma {:induction false} ReadOne(items: seq<Item>, s: State, x: Item, items': seq<Item>, s': State)
    requires Reads(s, items) && Step(s, x) == Some(s') && items' == items + [x]
    ensures Reads(s', items')
  {
    match x
    case SrcFile(name) => ReadSource(items, s, name);
    case DstFile(name) => ReadDestination(items, s, name);
    case Header(a, b) => ReadHeader(items, s, a, b);
    case Text(l) => ReadText(items, s, l);
  }

  /** Of every accepted input: the sources, headers and lines of text come back in order, each where it belongs. */
  lemma {:induction false} ReadingIs(items: seq<Item>, s: State)
    requires Scan(Empty, items) == Some(s)
    ensures Reads(s, items)
  {
    if items == [] {
      ReadNothing();
    } else {
      var front, x := items[..|items| - 1], items[|items| - 1];
      ScanSnoc(items);
      var s0 := Scan(Empty, front).value;
      ReadingIs(front, s0);
      assert items == front + [x];
      ReadOne(front, s0, x, items, s);
    }
  }

  lemma {:induction false} ReadNothing()
    ensures Reads(Empty, [])
  {
  }

  // ----- which inputs are accepted

  ghost predicate HasBefore(items: seq<Item>, i: nat, p: Item -> bool)
    requires i <= |items|
  {
    exists j :: 0 <= j < i && p(items[j])
  }

  const IsSrcFile: Item -> bool := (x: Item) => x.SrcFile?
  const IsHeader: Item -> bool := (x: Item) => x.Header?

  /** A destination or a header comes after some source, a line of text after some header. */
  ghost predicate IsPlaced(items: seq<Item>, i: nat)
    requires i < |items|
  {
    match items[i]
    case SrcFile(_) => true
    case DstFile(_) => HasBefore(items, i, IsSrcFile)
    case Header(_, _) => HasBefore(items, i, IsSrcFile)
    case Text(_) => HasBefore(items, i, IsHeader)
    case Bad => false
  }

  ghost predicate AllPlaced(items: seq<Item>) {
    forall i :: 0 <= i < |items| ==> IsPlaced(items, i)
  }

  lemma {:induction false} SourcesBefore(items: seq<Item>)
    ensures SrcNames(items) != [] <==> HasBefore(items, |items|, IsSrcFile)
    ensures Heads(items) != [] <==> HasBefore(items, |items|, IsHeader)
  {
    if items != [] {
      var n := |items| - 1;
      var front := items[..n];
      SourcesBefore(front);
      assert forall i :: 0 <= i < n ==> front[i] == items[i];
    }
  }

  lemma {:induction false} StepIff(items: seq<Item>, s: State, x: Item)
    requires Reads(s, items)
    ensures Step(s, x).Some? <==> IsPlaced(items + [x], |items|)
  {
    SourcesBefore(items);
    var all := items + [x];
    assert forall i :: 0 <= i < |items| ==> all[i] == items[i];
    ChunksNeedHeader(s);
  }

  lemma {:induction false} ChunksNeedHeader(s: State)
    requires AtLast(s)
    ensures s.at.Some? <==> AllChunks(s.patches) != []
  {
    if s.at.Some? {
      var (p, c) := s.at.value;
      AddLineIs(s.patches, p, c, Line(Both, ""));
    }
  }

  lemma {:induction false} PlacedFront(items: seq<Item>)
    requires items != []
    ensures AllPlaced(items) <==> AllPlaced(items[..|items| - 1]) && IsPlaced(items, |items| - 1)
  {
    var n := |items| - 1;
    var front := items[..n];
    forall i | 0 <= i < n ensures IsPlaced(items, i) <==> IsPlaced(front, i) {
      SameBefore(items, front, i, IsSrcFile);
      SameBefore(items, front, i, IsHeader);
    }
  }

  lemma {:induction false} SameBefore(items: seq<Item>, front: seq<Item>, i: nat, p: Item -> bool)
    requires i <= |front| && front <= items
    ensures HasBefore(items, i, p) <==> HasBefore(front, i, p)
  {
    assert forall j :: 0 <= j < i ==> items[j] == front[j];
  }

  /** An input is accepted exactly if every line has a known form and comes after what it belongs to. */
  lemma {:induction false} AcceptedIff(items: seq<Item>)
    ensures Scan(Empty, items).Some? <==> AllPlaced(items)
  {
    if items != [] {
      var front, x := items[..|items| - 1], items[|items| - 1];
      ScanSnoc(items);
      AcceptedIff(front);
      PlacedFront(items);
      if Scan(Empty, front).Some? {
        ReadingIs(front, Scan(Empty, front).value);
        StepIff(front, Scan(Empty, front).value, x);
        assert front + [x] == items;
      }
    }
  }

  // ----- the names of destinations

  /** A destination that no later one replaces, up to the next source or the end. */
  ghost predicate IsLastDestination(items: seq<Item>, i: nat) {
    && i < |items| && items[i].DstFile?
    && forall j :: i < j < |items| && items[j].DstFile? ==> exists k :: i < k < j && items[k].SrcFile?
  }

  lemma {:induction false} SourceBetween(items: seq<Item>, i: nat)
    requires i < |items|
    ensures |SrcNames(items[..i])| <= |SrcNames(items)|
    ensures (exists k :: i < k < |items| && items[k].SrcFile?) ==> |SrcNames(items[..i])| < |SrcNames(items)|
    ensures items[i].DstFile? && |SrcNames(items[..i])| < |SrcNames(items)| ==>
              exists k :: i < k < |items| && items[k].SrcFile?
  {
    var n := |items| - 1;
    var front := items[..n];
    if i < n {
      SourceBetween(front, i);
      assert front[..i] == items[..i];
      assert forall k :: 0 <= k < n ==> front[k] == items[k];
    }
  }

  lemma {:induction false} NamesAreKept(s: State, x: Item, q: nat)
    requires Step(s, x).Some? && q < |s.patches| && (x.DstFile? ==> q < |s.patches| - 1)
    ensures q < |Step(s, x).value.patches| && Step(s, x).value.patches[q].dst == s.patches[q].dst
  {
  }

  lemma {:induction false} LastDestinationFront(items: seq<Item>, i: nat)
    requires IsLastDestination(items, i) && i < |items| - 1
    ensures var front := items[..|items| - 1];
            && IsLastDestination(front, i) && front[i] == items[i] && front[..i] == items[..i]
            && (items[|items| - 1].DstFile? ==> exists k :: i < k < |front| && front[k].SrcFile?)
  {
    var n := |items| - 1;
    var front := items[..n];
    assert forall k :: 0 <= k < n ==> front[k] == items[k];
    if items[n].DstFile? {
      var k :| i < k < n && items[k].SrcFile?;
      assert front[k].SrcFile?;
    }
  }

  ghost predicate HasDestination(s: State, q: int, name: string) {
    0 <= q < |s.patches| && s.patches[q].dst == name
  }

  lemma {:induction false} JustNamed(s: State, items: seq<Item>, name: string)
    requires IsReadingOf(s.patches, items) && Step(s, DstFile(name)).Some?
    ensures HasDestination(Step(s, DstFile(name)).value, |SrcNames(items)| - 1, name)
  {
  }

  lemma {:induction false} NamedEarlier(items: seq<Item>, i: nat, s: State, x: Item, s': State, name: string)
    requires Reads(s, items) && Step(s, x) == Some(s') && i < |items| && items[i].DstFile?
    requires HasDestination(s, |SrcNames(items[..i])| - 1, name)
    requires x.DstFile? ==> exists k :: i < k < |items| && items[k].SrcFile?
    ensures HasDestination(s', |SrcNames(items[..i])| - 1, name)
  {
    SourceBetween(items, i);
    NamesAreKept(s, x, |SrcNames(items[..i])| - 1);
  }

  /** The state before the last item. */
  lemma {:induction false} BeforeLast(items: seq<Item>, s: State) returns (front: seq<Item>, s0: State)
    requires items != [] && Scan(Empty, items) == Some(s)
    ensures front == items[..|items| - 1] && Scan(Empty, front) == Some(s0)
    ensures Step(s0, items[|items| - 1]) == Some(s) && Reads(s0, front)
  {
    front := items[..|items| - 1];
    ScanSnoc(items);
    s0 := Scan(Empty, front).value;
    ReadingIs(front, s0);
  }

  /** The destination of a patch is the last one named for it. */
  lemma {:induction false} DestinationIs(items: seq<Item>, i: nat, s: State)
    requires Scan(Empty, items) == Some(s) && IsLastDestination(items, i)
    ensures HasDestination(s, |SrcNames(items[..i])| - 1, items[i].name)
  {
    var front, s0 := BeforeLast(items, s);
    if i < |items| - 1 {
      LastDestinationFront(items, i);
      DestinationIs(front, i, s0);
      NamedEarlier(front, i, s0, items[|items| - 1], s, items[i].name);
    } else {
      JustNamed(s0, front, items[i].name);
    }
  }

  /** No destination is named for the q-th source. */
  ghost predicate IsUnnamed(items: seq<Item>, q: nat) {
    forall i :: 0 <= i < |items| && items[i].DstFile? ==> |SrcNames(items[..i])| != q + 1
  }

  lemma {:induction false} UnnamedFront(items: seq<Item>, front: seq<Item>, q: nat)
    requires items != [] && front == items[..|items| - 1] && IsUnnamed(items, q)
    ensures IsUnnamed(front, q) && (items[|items| - 1].DstFile? ==> |SrcNames(front)| != q + 1)
  {
    forall i | 0 <= i < |front| && front[i].DstFile? ensures |SrcNames(front[..i])| != q + 1 {
      assert front[..i] == items[..i] && items[i] == front[i];
    }
  }

  lemma {:induction false} NewIsUnnamed(s: State, x: Item, s': State, q: nat)
    requires Step(s, x) == Some(s') && |s.patches| <= q < |s'.patches|
    ensures s'.patches[q].dst == ""
  {
  }

  /** A patch has no destination if none is named for it. */
  lemma {:induction false} NoDestination(items: seq<Item>, q: nat, s: State)
    requires Scan(Empty, items) == Some(s) && q < |s.patches| && IsUnnamed(items, q)
    ensures s.patches[q].dst == ""
  {
    if items != [] {
      var front, s0 := BeforeLast(items, s);
      UnnamedFront(items, front, q);
      if q < |s0.patches| {
        NoDestination(front, q, s0);
        NamesAreKept(s0, items[|items| - 1], q);
      } else {
        NewIsUnnamed(s0, items[|items| - 1], s, q);
      }
    }
  }
}
