/** Undoing the changes of a patch set that only take white space off the end of a line. */
module PatchWhitespace {
  import opened Wrappers
  import opened PatchSet

  // ----- one pair of lines

  predicate IsBlank(c: char) {
    c == ' ' || c == '\t'
  }

  /** A text split before its last blank; the part in front takes as much as it can, so one character is split off. */
  function Trim(text: string): Option<(string, string)> {
    var body := Chomp(text);
    var n := |body|;
    if '\n' !in body && n > 0 && IsBlank(body[n - 1]) then Some((body[..n - 1], body[n - 1..])) else None
  }

  predicate LostBlank(s: string, d: string) {
    Trim(s).Some? && Trim(s).value.0 == d
  }

  function Repair(s: Line, d: Line): Line {
    if LostBlank(s.text, d.text) then d.(text := d.text + Trim(s.text).value.1) else d
  }

  lemma {:induction false} TrimmedIsShorter(text: string)
    requires Trim(text).Some?
    ensures |Trim(text).value.0| < |text| && |Trim(text).value.1| == 1 && IsBlank(Trim(text).value.1[0])
    ensures '\n' !in text ==> Trim(text).value.0 + Trim(text).value.1 == text
  {
    var body := Chomp(text);
    assert body == body[..|body| - 1] + body[|body| - 1..];
    if '\n' !in text {
      assert body == text;
    }
  }

  /** A line is left as it is or becomes its source line, never its own repair, and needs no second repair. */
  lemma {:induction false} RepairIs(s: Line, d: Line)
    ensures Repair(s, d).kind == d.kind && (Repair(s, d) != d <==> LostBlank(s.text, d.text))
    ensures '\n' !in s.text && Repair(s, d) != d ==> Repair(s, d).text == s.text
    ensures Repair(s, s) == s && Repair(s, Repair(s, d)) == Repair(s, d)
    ensures |d.text| <= |Repair(s, d).text|
    ensures LostBlank(s.text, d.text) ==> |d.text| < |Repair(s, d).text|
  {
    if Trim(s.text).Some? {
      TrimmedIsShorter(s.text);
    }
  }

  lemma {:induction false} LostBlankOf(x: string, tail: string, y: string)
    requires '\n' !in x && |tail| == 1 && IsBlank(tail[0])
    ensures LostBlank(x + tail, y) <==> y == x
  {
    var s := x + tail;
    assert s[|s| - 1] == tail[0] && s[..|s| - 1] == x;
  }

  /** Exactly one lost blank is given back: a line that lost more stays as it is. */
  lemma {:induction false} RestoredIffOneBlank(k: Kind, d: string, t: string)
    requires '\n' !in d && t != "" && forall i :: 0 <= i < |t| ==> IsBlank(t[i])
    ensures Repair(Line(k, d + t), Line(Dst, d)).text == d + t <==> |t| == 1
  {
    var n := |t| - 1;
    assert t == t[..n] + t[n..];
    assert d + t == (d + t[..n]) + t[n..];
    LostBlankOf(d + t[..n], t[n..], d);
    if n == 0 {
      assert t[..n] == "" && d + t[..n] == d;
      RepairIs(Line(k, d + t), Line(Dst, d));
    } else {
      assert |d + t[..n]| > |d|;
    }
  }

  lemma {:induction false} TwoBlanksAreLost(x: string)
    requires '\n' !in x
    ensures Repair(Line(Src, x + "  "), Line(Dst, x)) == Line(Dst, x)
  {
    RestoredIffOneBlank(Src, x, "  ");
    RepairIs(Line(Src, x + "  "), Line(Dst, x));
  }

  /** A line lost a blank exactly if the source line is it with one blank or tab, and perhaps a newline, behind it. */
  lemma {:induction false} LostBlankIff(s: string, d: string)
    ensures LostBlank(s, d) <==>
              '\n' !in d && (s == d + " " || s == d + "\t" || s == d + " \n" || s == d + "\t\n")
    ensures LostBlank(s, d) ==> d + Trim(s).value.1 == Chomp(s)
  {
    if LostBlank(s, d) {
      TrimIs(s, d);
    }
    if '\n' !in d {
      BlankIsLost(d, ' ');
      BlankIsLost(d, '\t');
      assert d + " " + "\n" == d + " \n" && d + "\t" + "\n" == d + "\t\n";
    }
  }

  lemma {:induction false} TrimIs(s: string, d: string)
    requires LostBlank(s, d)
    ensures '\n' !in d && (s == d + " " || s == d + "\t" || s == d + " \n" || s == d + "\t\n")
    ensures d + Trim(s).value.1 == Chomp(s)
  {
    var body := Chomp(s);
    var c := body[|body| - 1];
    assert body == d + [c];
    if body != s {
      assert s == body + "\n";
      assert s == d + ([c] + "\n");
    }
  }

  lemma {:induction false} BlankIsLost(d: string, c: char)
    requires '\n' !in d && (c == ' ' || c == '\t')
    ensures LostBlank(d + [c], d) && LostBlank(d + [c] + "\n", d)
  {
    var body := d + [c];
    assert Chomp(body) == body && Chomp(body + "\n") == body;
    assert body[..|body| - 1] == d;
  }

  // ----- one chunk

  ghost predicate SameKinds(a: seq<Line>, b: seq<Line>) {
    |a| == |b| && forall i :: 0 <= i < |a| ==> a[i].kind == b[i].kind
  }

  function Touch(lines: seq<Line>, s: nat, d: nat): seq<Line>
    requires s < |lines| && d < |lines|
  {
    lines[d := Repair(lines[s], lines[d])]
  }

  function FixFrom(lines: seq<Line>, src: seq<nat>, dst: seq<nat>, i: nat): (r: seq<Line>)
    requires forall k :: 0 <= k < |src| ==> src[k] < |lines|
    requires forall k :: 0 <= k < |dst| ==> dst[k] < |lines|
    ensures |r| == |lines|
    decreases |src| - i
  {
    if i < |src| && i < |dst| then FixFrom(Touch(lines, src[i], dst[i]), src, dst, i + 1) else lines
  }

  function Fix(lines: seq<Line>): seq<Line> {
    FixFrom(lines, Side(lines, Dst), Side(lines, Src), 0)
  }

  /** With fewer destination lines than source lines the pairing runs past the end, which ends the whole pass. */
  predicate Short(lines: seq<Line>) {
    |Side(lines, Src)| < |Side(lines, Dst)|
  }

  method FixChunk(lines: seq<Line>) returns (r: seq<Line>, finished: bool)
    ensures r == Fix(lines) && (finished <==> !Short(lines))
  {
    var src, dst := Side(lines, Dst), Side(lines, Src);
    r := lines;
    var i := 0;
    while i < |src|
      invariant 0 <= i <= |src| && i <= |dst| && |r| == |lines|
      invariant Fix(lines) == FixFrom(r, src, dst, i)
    {
      if i >= |dst| {
        return r, false;
      }
      r := Touch(r, src[i], dst[i]);
      i := i + 1;
    }
    finished := true;
  }

  // ----- the whole patch set

  function Repaired(c: Chunk): Chunk {
    c.(lines := Fix(c.lines))
  }

  predicate AnyOf<T>(s: seq<T>, p: T -> bool) {
    s != [] && (p(s[0]) || AnyOf(s[1..], p))
  }

  /** Changes the items up to and including the first one at which to stop. */
  function UpTo<T>(s: seq<T>, change: T -> T, stop: T -> bool): (r: seq<T>)
    ensures |r| == |s|
  {
    if s == [] then [] else [change(s[0])] + if stop(s[0]) then s[1..] else UpTo(s[1..], change, stop)
  }

  lemma {:induction false} UpToNext<T>(done: seq<T>, s: seq<T>, change: T -> T, stop: T -> bool)
    requires s != []
    ensures done + UpTo(s, change, stop) ==
            (done + [change(s[0])]) + if stop(s[0]) then s[1..] else UpTo(s[1..], change, stop)
    ensures AnyOf(s, stop) == (stop(s[0]) || AnyOf(s[1..], stop))
  {
  }

  predicate ShortChunk(c: Chunk) {
    Short(c.lines)
  }

  function PassChunks(chunks: seq<Chunk>): seq<Chunk> {
    UpTo(chunks, Repaired, ShortChunk)
  }

  predicate HasShort(chunks: seq<Chunk>) {
    AnyOf(chunks, ShortChunk)
  }

  function RepairedPatch(p: Patch): Patch {
    p.(chunks := PassChunks(p.chunks))
  }

  predicate ShortPatch(p: Patch) {
    HasShort(p.chunks)
  }

  function Pass(ps: seq<Patch>): seq<Patch> {
    UpTo(ps, RepairedPatch, ShortPatch)
  }

  method PassPatch(chunks: seq<Chunk>) returns (r: seq<Chunk>, finished: bool)
    ensures r == PassChunks(chunks) && (finished <==> !HasShort(chunks))
  {
    r := [];
    var rest := chunks;
    while rest != []
      invariant PassChunks(chunks) == r + PassChunks(rest) && HasShort(chunks) == HasShort(rest)
      decreases |rest|
    {
      UpToNext(r, rest, Repaired, ShortChunk);
      var lines, ok := FixChunk(rest[0].lines);
      r := r + [rest[0].(lines := lines)];
      rest := rest[1..];
      if !ok {
        return r + rest, false;
      }
    }
    finished := true;
  }

  method PassPatches(ps: seq<Patch>) returns (r: seq<Patch>)
    ensures r == Pass(ps)
  {
    r := [];
    var rest := ps;
    while rest != []
      invariant Pass(ps) == r + Pass(rest)
      decreases |rest|
    {
      UpToNext(r, rest, RepairedPatch, ShortPatch);
      var chunks, ok := PassPatch(rest[0].chunks);
      r := r + [rest[0].(chunks := chunks)];
      rest := rest[1..];
      if !ok {
        return r + rest;
      }
    }
  }

  method RemoveTrailingWhitespaceChanges(input: seq<string>) returns (r: Option<seq<Patch>>)
    ensures r == match Parse(input) case None => None case Some(ps) => Some(Pass(ps))
  {
    var parsed := ParsePatchSet(input);
    if parsed.None? {
      return None;
    }
    var ps := PassPatches(parsed.value);
    return Some(ps);
  }
}
