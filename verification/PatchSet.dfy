/** Unified diffs: reading a patch set line by line and writing it. */
module PatchSet {
  import opened Wrappers

  datatype Kind = Src | Dst | Both

  datatype Line = Line(kind: Kind, text: string)

  datatype Chunk = Chunk(srcPos: nat, dstPos: nat, lines: seq<Line>)

  datatype Patch = Patch(src: string, dst: string, chunks: seq<Chunk>)

  // ----- decimal numbers

  predicate IsDigit(c: char) {
    '0' <= c <= '9'
  }

  function DigitChar(d: nat): char
    requires d < 10
  {
    '0' + d as char
  }

  function DigitValue(c: char): nat
    requires IsDigit(c)
  {
    (c - '0') as nat
  }

  function Decimal(n: nat): string {
    if n < 10 then [DigitChar(n)] else Decimal(n / 10) + [DigitChar(n % 10)]
  }

  function DecimalValue(s: string): nat
    requires forall i :: 0 <= i < |s| ==> IsDigit(s[i])
  {
    if s == "" then 0 else 10 * DecimalValue(s[..|s| - 1]) + DigitValue(s[|s| - 1])
  }

  function DigitCount(s: string): (n: nat)
    ensures n <= |s| && forall i :: 0 <= i < n ==> IsDigit(s[i])
  {
    if s == "" || !IsDigit(s[0]) then 0 else 1 + DigitCount(s[1..])
  }

  /** The number at the start of `s`, as long as possible, and what follows. */
  function TakeNumber(s: string): Option<(nat, string)> {
    var n := DigitCount(s);
    if n == 0 then None else Some((DecimalValue(s[..n]), s[n..]))
  }

  function TakeText(prefix: string, s: string): Option<string> {
    if prefix <= s then Some(s[|prefix|..]) else None
  }

  /** A separator and then a number. */
  function TakeField(separator: string, s: string): Option<(nat, string)> {
    match TakeText(separator, s)
    case None => None
    case Some(rest) => TakeNumber(rest)
  }

  /** A separator, a position, and a length that is read and ignored. */
  function TakePosition(separator: string, s: string): Option<(nat, string)> {
    match TakeField(separator, s)
    case None => None
    case Some((pos, s1)) =>
      match TakeField(",", s1)
      case None => None
      case Some((_, s2)) => Some((pos, s2))
  }

  /** The two positions of a chunk header. */
  function TakeHeader(s: string): Option<(nat, nat)> {
    match TakePosition("@@ -", s)
    case None => None
    case Some((srcPos, s1)) =>
      match TakePosition(" +", s1)
      case None => None
      case Some((dstPos, s2)) => if TakeText(" @@", s2).Some? then Some((srcPos, dstPos)) else None
  }

  // ----- reading

  datatype Item =
    | SrcFile(name: string)
    | DstFile(name: string)
    | Header(srcPos: nat, dstPos: nat)
    | Text(line: Line)
    | Bad

  /** A line without its terminator. */
  function Chomp(line: string): string {
    if line != "" && line[|line| - 1] == '\n' then line[..|line| - 1] else line
  }

  /** The patterns are tried in this order; all but the header's reach to the end of the line. */
  function Classify(line: string): Item {
    var s := Chomp(line);
    var whole := '\n' !in s;
    if whole && "--- " <= s then SrcFile(s[4..])
    else if whole && "+++ " <= s then DstFile(s[4..])
    else if TakeHeader(line).Some? then Header(TakeHeader(line).value.0, TakeHeader(line).value.1)
    else if whole && "-" <= s then Text(Line(Src, s[1..]))
    else if whole && "+" <= s then Text(Line(Dst, s[1..]))
    else if whole && " " <= s then Text(Line(Both, s[1..]))
    else Bad
  }

  /** The patches so far and the place of the chunk that lines are added to, which a new file does not reset. */
  datatype State = State(patches: seq<Patch>, at: Option<(nat, nat)>)

  function AddLine(patches: seq<Patch>, p: nat, c: nat, line: Line): seq<Patch>
    requires p < |patches| && c < |patches[p].chunks|
  {
    var chunk := patches[p].chunks[c];
    patches[p := patches[p].(chunks := patches[p].chunks[c := chunk.(lines := chunk.lines + [line])])]
  }

  /** `None` is an exception: a line of no known form, or one that comes before there is a patch or chunk for it. */
  function Step(s: State, item: Item): Option<State> {
    var n := |s.patches|;
    match item
    case SrcFile(name) => Some(s.(patches := s.patches + [Patch(name, "", [])]))
    case DstFile(name) =>
      if n == 0 then None else Some(s.(patches := s.patches[n - 1 := s.patches[n - 1].(dst := name)]))
    case Header(srcPos, dstPos) =>
      if n == 0 then None
      else
        var last := s.patches[n - 1];
        Some(State(s.patches[n - 1 := last.(chunks := last.chunks + [Chunk(srcPos, dstPos, [])])],
                   Some((n - 1, |last.chunks|))))
    case Text(line) =>
      (match s.at
       case Some((p, c)) =>
         if p < n && c < |s.patches[p].chunks| then Some(s.(patches := AddLine(s.patches, p, c, line))) else None
       case None => None)
    case Bad => None
  }

  function Scan(s: State, items: seq<Item>): Option<State>
    decreases |items|
  {
    if items == [] then Some(s)
    else match Step(s, items[0])
      case None => None
      case Some(s') => Scan(s', items[1..])
  }

  function Map<T, U>(s: seq<T>, f: T -> U): seq<U> {
    seq(|s|, i requires 0 <= i < |s| => f(s[i]))
  }

  lemma {:induction false} MapFirst<T, U>(s: seq<T>, f: T -> U)
    requires s != []
    ensures Map(s, f) != [] && Map(s, f)[0] == f(s[0]) && Map(s, f)[1..] == Map(s[1..], f)
  {
  }

  function Items(lines: seq<string>): seq<Item> {
    Map(lines, Classify)
  }

  function Parse(lines: seq<string>): Option<seq<Patch>> {
    match Scan(State([], None), Items(lines))
    case None => None
    case Some(s) => Some(s.patches)
  }

  method ParsePatchSet(lines: seq<string>) returns (r: Option<seq<Patch>>)
    ensures r == Parse(lines)
  {
    var s := State([], None);
    var rest := lines;
    while rest != []
      invariant Scan(State([], None), Items(lines)) == Scan(s, Items(rest))
      decreases |rest|
    {
      var item := Classify(rest[0]);
      MapFirst(rest, Classify);
      match Step(s, item) {
        case None => return None;
        case Some(s') => s := s';
      }
      rest := rest[1..];
    }
    return Some(s.patches);
  }

  // ----- writing

  function Mark(k: Kind): string {
    match k
    case Src => "-"
    case Dst => "+"
    case Both => " "
  }

  /** The places of the lines that are not only on the side `other`: leaving out `Dst` gives the source side. */
  function Side(lines: seq<Line>, other: Kind): (s: seq<nat>)
    ensures |s| <= |lines| && forall i :: 0 <= i < |s| ==> s[i] < |lines|
  {
    if lines == [] then []
    else
      var front := Side(lines[..|lines| - 1], other);
      if lines[|lines| - 1].kind == other then front else front + [|lines| - 1]
  }

  function SrcLines(lines: seq<Line>): nat {
    |Side(lines, Dst)|
  }

  function DstLines(lines: seq<Line>): nat {
    |Side(lines, Src)|
  }

  function WriteLine(l: Line): string {
    Mark(l.kind) + l.text + "\n"
  }

  function WriteHeader(c: Chunk): string {
    "@@ -" + (Decimal(c.srcPos) + ("," + (Decimal(SrcLines(c.lines)) +
    (" +" + (Decimal(c.dstPos) + ("," + (Decimal(DstLines(c.lines)) + " @@\n")))))))
  }

  /** What is written for each item, one after the other. */
  function Each<T>(s: seq<T>, write: T -> seq<string>): seq<string> {
    if s == [] then [] else Each(s[..|s| - 1], write) + write(s[|s| - 1])
  }

  function WriteOne(l: Line): seq<string> {
    [WriteLine(l)]
  }

  function WriteLines(lines: seq<Line>): seq<string> {
    Each(lines, WriteOne)
  }

  function WriteChunk(c: Chunk): seq<string> {
    [WriteHeader(c)] + WriteLines(c.lines)
  }

  function WriteChunks(chunks: seq<Chunk>): seq<string> {
    Each(chunks, WriteChunk)
  }

  function WriteNames(p: Patch): seq<string> {
    ["--- " + p.src + "\n"] + ["+++ " + p.dst + "\n"]
  }

  function WritePatch(p: Patch): seq<string> {
    WriteNames(p) + WriteChunks(p.chunks)
  }

  function Write(patches: seq<Patch>): seq<string> {
    Each(patches, WritePatch)
  }

  // ----- numbers and headers read back

  lemma {:induction false} DecimalDigits(n: nat)
    ensures Decimal(n) != "" && forall i :: 0 <= i < |Decimal(n)| ==> IsDigit(Decimal(n)[i])
    ensures DecimalValue(Decimal(n)) == n
  {
    if n >= 10 {
      DecimalDigits(n / 10);
      assert Decimal(n)[..|Decimal(n)| - 1] == Decimal(n / 10);
    }
  }

  lemma {:induction false} DigitCountOf(d: string, rest: string)
    requires forall i :: 0 <= i < |d| ==> IsDigit(d[i])
    requires rest == "" || !IsDigit(rest[0])
    ensures DigitCount(d + rest) == |d|
  {
    if d == "" {
      assert d + rest == rest;
    } else {
      DigitCountOf(d[1..], rest);
      assert (d + rest)[1..] == d[1..] + rest;
    }
  }

  lemma {:induction false} TakeFieldBack(separator: string, n: nat, rest: string)
    requires rest == "" || !IsDigit(rest[0])
    ensures TakeField(separator, separator + (Decimal(n) + rest)) == Some((n, rest))
  {
    var s := Decimal(n) + rest;
    assert (separator + s)[|separator|..] == s;
    DecimalDigits(n);
    DigitCountOf(Decimal(n), rest);
    assert s[..|Decimal(n)|] == Decimal(n) && s[|Decimal(n)|..] == rest;
  }

  lemma {:induction false} TakePositionBack(separator: string, a: nat, b: nat, rest: string)
    requires rest == "" || !IsDigit(rest[0])
    ensures TakePosition(separator, separator + (Decimal(a) + ("," + (Decimal(b) + rest)))) == Some((a, rest))
  {
    TakeFieldBack(separator, a, "," + (Decimal(b) + rest));
    TakeFieldBack(",", b, rest);
  }

  lemma {:induction false} TakeHeaderBack(a: nat, b: nat, c: nat, d: nat)
    ensures TakeHeader("@@ -" + (Decimal(a) + ("," + (Decimal(b) +
                       (" +" + (Decimal(c) + ("," + (Decimal(d) + " @@\n")))))))) ==
            Some((a, c))
  {
    var s2 := " @@\n";
    var s1 := " +" + (Decimal(c) + ("," + (Decimal(d) + s2)));
    assert !IsDigit(s1[0]) && !IsDigit(s2[0]);
    TakePositionBack("@@ -", a, b, s1);
    TakePositionBack(" +", c, d, s2);
    assert " @@" <= s2;
  }
}
