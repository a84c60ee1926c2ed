/** What it means that two documents have the same normal form, whatever line boundaries they use. */
module FrozenTextLaws {
  import opened Wrappers
  import opened FrozenText

  // ----- lines -----

  /** The text is one line, with or without a boundary at its end. */
  predicate IsWhole(line: string) {
    line != "" && LineLength(line) == |line|
  }

  predicate EndsBroken(line: string) {
    line != "" && IsBreak(line[|line| - 1])
  }

  /** The line ends in a boundary that what follows does not continue. */
  predicate IsSeam(line: string, rest: string) {
    EndsBroken(line) && !(line[|line| - 1] == '\r' && rest != "" && rest[0] == '\n')
  }

  ghost predicate AreLines(lines: seq<string>) {
    && (forall i :: 0 <= i < |lines| ==> IsWhole(lines[i]))
    && (forall i :: 0 <= i < |lines| - 1 ==> IsSeam(lines[i], lines[i + 1]))
  }

  predicate HasNoBreaks(t: string) {
    forall i :: 0 <= i < |t| ==> !IsBreak(t[i])
  }

  /** The mark and the prefixes are within one line, as the program's constants are. */
  predicate AreMarks(prefixes: seq<string>, mark: string) {
    mark != "" && HasNoBreaks(mark) && forall p :: p in prefixes ==> HasNoBreaks(p)
  }

  /** Inside a line there is no boundary, but for the carriage return in front of a final newline. */
  lemma {:induction false} InsideOfLine(line: string, i: nat)
    requires IsWhole(line) && i < |line| - 1 && IsBreak(line[i])
    ensures i == |line| - 2 && line[i] == '\r' && line[i + 1] == '\n'
  {
    if i > 0 {
      InsideOfLine(line[1..], i - 1);
    }
  }

  lemma {:induction false} FirstLineLength(line: string, rest: string)
    requires IsWhole(line) && (rest == "" || IsSeam(line, rest))
    ensures LineLength(line + rest) == |line|
  {
    var t := line + rest;
    if |line| == 1 {
      assert t[0] == line[0];
      assert rest == "" ==> t == line;
    } else {
      assert t[0] == line[0] && t[1] == line[1] && t[1..] == line[1..] + rest;
      if !IsBreak(line[0]) {
        FirstLineLength(line[1..], rest);
      }
    }
  }

  /** Splitting undoes joining, so lines are determined by their text. */
  lemma {:induction false} SplitOfConcat(lines: seq<string>)
    requires AreLines(lines)
    ensures SplitLines(Concat(lines)) == lines
  {
    if lines != [] {
      var rest := Concat(lines[1..]);
      FirstOfConcat(lines[1..]);
      assert |lines| > 1 ==> IsSeam(lines[0], lines[1]);
      FirstLineLength(lines[0], rest);
      var t := lines[0] + rest;
      assert t[..|lines[0]|] == lines[0] && t[|lines[0]|..] == rest;
      TailLines(lines);
      SplitOfConcat(lines[1..]);
      assert lines == [lines[0]] + lines[1..];
    }
  }

  lemma TailLines(lines: seq<string>)
    requires AreLines(lines) && lines != []
    ensures AreLines(lines[1..])
  {
    var tail := lines[1..];
    forall i | 0 <= i < |tail| - 1
      ensures IsSeam(tail[i], tail[i + 1])
    {
      assert IsSeam(lines[i + 1], lines[i + 2]);
    }
  }

  lemma FirstOfConcat(lines: seq<string>)
    requires forall i :: 0 <= i < |lines| ==> lines[i] != ""
    ensures lines == [] <==> Concat(lines) == ""
    ensures lines != [] ==> Concat(lines)[0] == lines[0][0]
  {
  }

  lemma LineExtends(c: char, line: string, rest: string)
    requires !IsBreak(c) && IsWhole(line)
    ensures IsWhole([c] + line) && (IsSeam(line, rest) ==> IsSeam([c] + line, rest))
  {
    assert ([c] + line)[1..] == line;
  }

  lemma {:induction false} FirstLineCut(t: string) returns (line: string, rest: string)
    requires t != ""
    ensures t == line + rest && |line| == LineLength(t) && IsWhole(line)
    ensures rest != "" ==> IsSeam(line, rest)
    decreases |t|
  {
    if t[0] == '\r' && |t| > 1 && t[1] == '\n' {
      line, rest := "\r\n", t[2..];
    } else if IsBreak(t[0]) || |t| == 1 {
      line, rest := [t[0]], t[1..];
    } else {
      line, rest := FirstLineCut(t[1..]);
      LineExtends(t[0], line, rest);
      line := [t[0]] + line;
    }
  }

  lemma FirstLineOfText(t: string)
    requires t != ""
    ensures IsWhole(t[..LineLength(t)])
    ensures LineLength(t) < |t| ==> IsSeam(t[..LineLength(t)], t[LineLength(t)..])
  {
    var line, rest := FirstLineCut(t);
    assert t[..|line|] == line && t[|line|..] == rest;
  }

  lemma LinesWithFirst(first: string, lines: seq<string>)
    requires IsWhole(first) && AreLines(lines) && (lines != [] ==> IsSeam(first, lines[0]))
    ensures AreLines([first] + lines)
  {
    var all := [first] + lines;
    forall i | 0 <= i < |all| - 1
      ensures IsSeam(all[i], all[i + 1])
    {
      assert i > 0 ==> IsSeam(lines[i - 1], lines[i]);
    }
  }

  /** Whatever the text, its lines are lines. */
  lemma {:induction false} SplitMakesLines(t: string)
    ensures AreLines(SplitLines(t))
    decreases |t|
  {
    if t != "" {
      var n := LineLength(t);
      FirstLineOfText(t);
      SplitMakesLines(t[n..]);
      if n < |t| {
        assert SplitLines(t[n..])[0] == t[n..][..LineLength(t[n..])];
      }
      LinesWithFirst(t[..n], SplitLines(t[n..]));
    }
  }

  /** The code points that Python's documentation of `str.splitlines` lists. */
  const BOUNDARIES: set<int> := {0x0A, 0x0B, 0x0C, 0x0D, 0x1C, 0x1D, 0x1E, 0x85, 0x2028, 0x2029}

  /** No boundary but at the end, where a carriage return and a newline count as one. */
  predicate IsOneLine(line: string) {
    && line != ""
    && forall i :: 0 <= i < |line| - 1 && line[i] as int in BOUNDARIES ==>
         i == |line| - 2 && line[i] == '\r' && line[i + 1] == '\n'
  }

  /** Each line but the last is cut off right after its boundary, and no cut is between `\r` and `\n`. */
  predicate AreCutAtBoundaries(lines: seq<string>) {
    && (forall i :: 0 <= i < |lines| ==> IsOneLine(lines[i]))
    && (forall i :: 0 <= i < |lines| - 1 ==>
         && lines[i][|lines[i]| - 1] as int in BOUNDARIES
         && !(lines[i][|lines[i]| - 1] == '\r' && lines[i + 1][0] == '\n'))
  }

  lemma {:induction false} OneLineIsWhole(line: string)
    ensures IsOneLine(line) <==> IsWhole(line)
  {
    if IsWhole(line) {
      forall i | 0 <= i < |line| - 1 && line[i] as int in BOUNDARIES
        ensures i == |line| - 2 && line[i] == '\r' && line[i + 1] == '\n'
      {
        InsideOfLine(line, i);
      }
    }
    if IsOneLine(line) && |line| > 1 {
      var tail := line[1..];
      if line[0] as int !in BOUNDARIES {
        forall i | 0 <= i < |tail| - 1 && tail[i] as int in BOUNDARIES
          ensures i == |tail| - 2 && tail[i] == '\r' && tail[i + 1] == '\n'
        {
          assert tail[i] == line[i + 1];
        }
        OneLineIsWhole(tail);
      }
    }
  }

  lemma CutsAreLines(lines: seq<string>)
    ensures AreCutAtBoundaries(lines) <==> AreLines(lines)
  {
    forall i | 0 <= i < |lines|
      ensures IsOneLine(lines[i]) <==> IsWhole(lines[i])
    {
      OneLineIsWhole(lines[i]);
    }
    if AreCutAtBoundaries(lines) {
      forall i | 0 <= i < |lines| - 1
        ensures IsSeam(lines[i], lines[i + 1])
      {
      }
    }
    if AreLines(lines) {
      forall i | 0 <= i < |lines| - 1
        ensures lines[i][|lines[i]| - 1] as int in BOUNDARIES
        ensures !(lines[i][|lines[i]| - 1] == '\r' && lines[i + 1][0] == '\n')
      {
        assert IsSeam(lines[i], lines[i + 1]);
      }
    }
  }

  /** The lines of a text are the one way to cut it at its boundaries. */
  lemma SplitIsExact(t: string, lines: seq<string>)
    ensures SplitLines(t) == lines <==> AreCutAtBoundaries(lines) && Concat(lines) == t
  {
    CutsAreLines(lines);
    if SplitLines(t) == lines {
      SplitMakesLines(t);
      ConcatOfSplit(t);
    }
    if AreCutAtBoundaries(lines) && Concat(lines) == t {
      SplitOfConcat(lines);
    }
  }

  lemma {:induction false} ConcatOfSplit(t: string)
    ensures Concat(SplitLines(t)) == t
    decreases |t|
  {
    if t != "" {
      ConcatOfSplit(t[LineLength(t)..]);
      assert t == t[..LineLength(t)] + t[LineLength(t)..];
    }
  }

  // ----- one normal line -----

  /** Both lines start with one mutable prefix and end alike, or they are the same line. */
  predicate AgreeOutsideMutable(a: string, b: string, prefixes: seq<string>) {
    || a == b
    || (EndsLine(a) == EndsLine(b) &&
        exists p :: p in prefixes && StartsWith(Plain(a), p) && StartsWith(Plain(b), p))
  }

  lemma {:induction false} WholeOfBody(body: string, rest: string)
    requires body != "" && HasNoBreaks(body) && (rest == "" || rest == "\n")
    ensures IsWhole(body + rest)
  {
    var t := body + rest;
    assert t[0] == body[0] && t[1..] == body[1..] + rest;
    if |body| > 1 {
      WholeOfBody(body[1..], rest);
    } else {
      assert body[1..] == "" && t[1..] == rest;
    }
  }

  /** A blanked line is one line that ends as it did, if that was in a newline, and otherwise in none. */
  lemma BlankedLine(line: string, prefixes: seq<string>, mark: string)
    requires AreMarks(prefixes, mark) && PrefixOf(line, prefixes).Some?
    ensures var normal := NormalLine(line, prefixes, mark);
      && IsWhole(normal) && EndsLine(normal) == EndsLine(line)
      && (EndsBroken(normal) ==> EndsLine(line)) && !IsBreak(normal[0])
      && Plain(normal) == PrefixOf(line, prefixes).value + mark
  {
    var body := PrefixOf(line, prefixes).value + mark;
    assert HasNoBreaks(body) && !IsBreak(body[|body| - 1]) && !IsBreak(body[0]);
    WholeOfBody(body, if EndsLine(line) then "\n" else "");
    assert body + "" == body && (body + "\n")[..|body|] == body;
  }

  lemma SamePrefixNormal(a: string, b: string, prefixes: seq<string>, mark: string)
    requires IsClear(a, prefixes) && IsClear(b, prefixes) && AgreeOutsideMutable(a, b, prefixes)
    ensures NormalLine(a, prefixes, mark) == NormalLine(b, prefixes, mark)
    ensures PrefixOf(a, prefixes) == PrefixOf(b, prefixes) && EndsLine(a) == EndsLine(b)
    ensures PrefixOf(a, prefixes).None? ==> a == b
  {
    if a != b {
      var p :| p in prefixes && StartsWith(Plain(a), p) && StartsWith(Plain(b), p);
      ClearPrefix(a, prefixes, p);
      ClearPrefix(b, prefixes, p);
    }
  }

  // ----- reading two equal normal texts side by side -----

  /** The normal text of the lines. */
  function Blanked(lines: seq<string>, prefixes: seq<string>, mark: string): string {
    Concat(NormalLines(lines, prefixes, mark))
  }

  lemma BlankedCons(lines: seq<string>, prefixes: seq<string>, mark: string)
    requires lines != []
    ensures Blanked(lines, prefixes, mark)
         == NormalLine(lines[0], prefixes, mark) + Blanked(lines[1..], prefixes, mark)
  {
    assert NormalLines(lines, prefixes, mark)[1..] == NormalLines(lines[1..], prefixes, mark);
  }

  /** The first character of a normal text is that of a line left alone, or no boundary. */
  lemma BlankedStart(lines: seq<string>, prefixes: seq<string>, mark: string)
    requires AreMarks(prefixes, mark) && forall i :: 0 <= i < |lines| ==> lines[i] != ""
    ensures lines == [] <==> Blanked(lines, prefixes, mark) == ""
    ensures lines != [] ==>
      if PrefixOf(lines[0], prefixes).None? then Blanked(lines, prefixes, mark)[0] == lines[0][0]
      else !IsBreak(Blanked(lines, prefixes, mark)[0])
  {
    if lines != [] {
      BlankedCons(lines, prefixes, mark);
      if PrefixOf(lines[0], prefixes).Some? {
        BlankedLine(lines[0], prefixes, mark);
      }
    }
  }

  /** A line left alone is what the normal text starts with, up to a boundary that the rest does not continue. */
  lemma FrozenFirst(lines: seq<string>, prefixes: seq<string>, mark: string)
    requires AreLines(lines) && lines != [] && AreMarks(prefixes, mark) && PrefixOf(lines[0], prefixes).None?
    ensures LineLength(Blanked(lines, prefixes, mark)) == |lines[0]|
    ensures lines[0] <= Blanked(lines, prefixes, mark)
  {
    var rest := Blanked(lines[1..], prefixes, mark);
    BlankedCons(lines, prefixes, mark);
    TailLines(lines);
    BlankedStart(lines[1..], prefixes, mark);
    if |lines| > 1 {
      assert IsSeam(lines[0], lines[1]);
      assert IsWhole(lines[1]);
      if rest[0] == '\n' {
        assert lines[1][0] == '\n';
      }
    }
    FirstLineLength(lines[0], rest);
  }

  /** A line that the text starts with goes past any prefix the text starts with. */
  lemma LinePastPrefix(line: string, text: string, p: string, mark: string)
    requires line != "" && line <= text && p + mark <= text && HasNoBreaks(p) && mark != ""
    requires EndsBroken(line) || line == text
    ensures StartsWith(Plain(line), p)
  {
    assert forall i :: 0 <= i < |p| ==> (p + mark)[i] == p[i] == text[i];
    assert line[|line| - 1] == text[|line| - 1];
    assert |line| > |p|;
    assert Plain(line)[..|p|] == line[..|p|] == text[..|p|] == p;
  }

  /** A blanked line and a line left alone cannot start the same normal text. */
  lemma BlankedFirst(la: seq<string>, lb: seq<string>, prefixes: seq<string>, mark: string)
    requires AreLines(la) && AreLines(lb) && la != [] && lb != [] && AreMarks(prefixes, mark)
    requires Blanked(la, prefixes, mark) == Blanked(lb, prefixes, mark) && PrefixOf(la[0], prefixes).Some?
    ensures PrefixOf(lb[0], prefixes).Some?
  {
    BlankedCons(la, prefixes, mark);
    BlankedCons(lb, prefixes, mark);
    assert |lb| > 1 ==> IsSeam(lb[0], lb[1]);
    if PrefixOf(lb[0], prefixes).None? {
      LinePastPrefix(lb[0], Blanked(la, prefixes, mark), PrefixOf(la[0], prefixes).value, mark);
    }
  }

  /** Two blanked lines that start the same normal text have the same prefix. */
  lemma SamePrefixFirst(
      a: string, b: string, text: string, prefixes: seq<string>, mark: string, p: string, q: string)
    requires AreMarks(prefixes, mark) && IsClear(a, prefixes) && IsClear(b, prefixes)
    requires PrefixOf(a, prefixes) == Some(p) && PrefixOf(b, prefixes) == Some(q)
    requires p + mark <= text && q + mark <= text
    ensures p == q
  {
    if |p| <= |q| {
      assert p == text[..|p|] == q[..|p|];
      assert StartsWith(Plain(b), p);
      ClearPrefix(b, prefixes, p);
    } else {
      assert q == text[..|q|] == p[..|q|];
      assert StartsWith(Plain(a), q);
      ClearPrefix(a, prefixes, q);
    }
  }

  /** First lines of two equal normal texts: the same line, or blanked under the same prefix. */
  lemma FirstLinesAlign(la: seq<string>, lb: seq<string>, prefixes: seq<string>, mark: string)
    requires AreLines(la) && AreLines(lb) && la != [] && lb != [] && AreMarks(prefixes, mark)
    requires IsUnambiguous(la, prefixes) && IsUnambiguous(lb, prefixes)
    requires Blanked(la, prefixes, mark) == Blanked(lb, prefixes, mark)
    ensures PrefixOf(la[0], prefixes) == PrefixOf(lb[0], prefixes)
    ensures PrefixOf(la[0], prefixes).None? ==> la[0] == lb[0]
  {
    BlankedCons(la, prefixes, mark);
    BlankedCons(lb, prefixes, mark);
    if PrefixOf(la[0], prefixes).Some? {
      BlankedFirst(la, lb, prefixes, mark);
      SamePrefixFirst(
        la[0], lb[0], Blanked(la, prefixes, mark), prefixes, mark,
        PrefixOf(la[0], prefixes).value, PrefixOf(lb[0], prefixes).value);
    } else {
      if PrefixOf(lb[0], prefixes).Some? {
        BlankedFirst(lb, la, prefixes, mark);
      }
      FrozenFirst(la, prefixes, mark);
      FrozenFirst(lb, prefixes, mark);
    }
  }

  // ----- where a boundary goes missing -----

  /**
   * The blanked line at `i` loses a boundary that is no newline, and the empty line after it makes up for it:
   * in the normal text the two are one line.
   */
  predicate IsGlued(lines: seq<string>, prefixes: seq<string>, i: nat) {
    && i + 1 < |lines|
    && PrefixOf(lines[i], prefixes).Some? && !EndsLine(lines[i])
    && PrefixOf(lines[i + 1], prefixes).None? && lines[i + 1] == "\n"
  }

  function Glues(lines: seq<string>, prefixes: seq<string>): nat {
    if lines == [] then 0 else (if IsGlued(lines, prefixes, 0) then 1 else 0) + Glues(lines[1..], prefixes)
  }

  lemma GluedInTail(lines: seq<string>, prefixes: seq<string>, i: nat)
    requires lines != []
    ensures IsGlued(lines[1..], prefixes, i) <==> IsGlued(lines, prefixes, i + 1)
  {
  }

  lemma {:induction false} SomeGlue(lines: seq<string>, prefixes: seq<string>)
    ensures Glues(lines, prefixes) > 0 ==> exists i :: IsGlued(lines, prefixes, i)
  {
    if lines != [] && !IsGlued(lines, prefixes, 0) && Glues(lines, prefixes) > 0 {
      SomeGlue(lines[1..], prefixes);
      var i :| IsGlued(lines[1..], prefixes, i);
      GluedInTail(lines, prefixes, i);
    }
  }

  ghost predicate GluedAlike(la: seq<string>, lb: seq<string>, prefixes: seq<string>) {
    forall i :: IsGlued(la, prefixes, i) <==> IsGlued(lb, prefixes, i)
  }

  ghost predicate SameFrozenText(a: seq<string>, b: seq<string>, prefixes: seq<string>) {
    |a| == |b| && forall i :: 0 <= i < |a| ==> AgreeOutsideMutable(a[i], b[i], prefixes)
  }

  /** First lines that end alike leave equal rests. */
  lemma RestsAlign(la: seq<string>, lb: seq<string>, prefixes: seq<string>, mark: string)
    requires la != [] && lb != [] && Blanked(la, prefixes, mark) == Blanked(lb, prefixes, mark)
    requires NormalLine(la[0], prefixes, mark) == NormalLine(lb[0], prefixes, mark)
    ensures Blanked(la[1..], prefixes, mark) == Blanked(lb[1..], prefixes, mark)
  {
    BlankedCons(la, prefixes, mark);
    BlankedCons(lb, prefixes, mark);
    var first := NormalLine(la[0], prefixes, mark);
    var ra, rb := Blanked(la[1..], prefixes, mark), Blanked(lb[1..], prefixes, mark);
    assert (first + ra)[|first|..] == ra && (first + rb)[|first|..] == rb;
  }

  lemma CutBody(body: string, ra: string, rb: string)
    requires body + "\n" + ra == body + rb
    ensures rb == "\n" + ra
  {
    var newline: string := "\n";
    assert (body + newline + ra)[|body|..] == newline + ra;
    assert (body + rb)[|body|..] == rb;
  }

  lemma NewlineLine(line: string)
    requires IsWhole(line) && line[0] == '\n'
    ensures line == "\n"
  {
  }

  /** If only one of two aligned first lines ends in a newline, the other one's rest starts with it. */
  lemma UnlikeEnds(la: seq<string>, lb: seq<string>, prefixes: seq<string>, mark: string)
    requires la != [] && lb != []
    requires Blanked(la, prefixes, mark) == Blanked(lb, prefixes, mark)
    requires PrefixOf(la[0], prefixes) == PrefixOf(lb[0], prefixes) && PrefixOf(la[0], prefixes).Some?
    requires EndsLine(la[0]) && !EndsLine(lb[0])
    ensures Blanked(lb[1..], prefixes, mark) == "\n" + Blanked(la[1..], prefixes, mark)
  {
    BlankedCons(la, prefixes, mark);
    BlankedCons(lb, prefixes, mark);
    var body := PrefixOf(la[0], prefixes).value + mark;
    assert NormalLine(lb[0], prefixes, mark) == body;
    CutBody(body, Blanked(la[1..], prefixes, mark), Blanked(lb[1..], prefixes, mark));
  }

  /** Lines whose normal text starts with a newline start with an empty line. */
  lemma EmptyFirst(lines: seq<string>, prefixes: seq<string>, mark: string, rest: string)
    requires AreLines(lines) && AreMarks(prefixes, mark) && Blanked(lines, prefixes, mark) == "\n" + rest
    ensures lines != [] && PrefixOf(lines[0], prefixes).None? && lines[0] == "\n"
    ensures Blanked(lines[1..], prefixes, mark) == rest
  {
    BlankedStart(lines, prefixes, mark);
    NewlineLine(lines[0]);
    BlankedCons(lines, prefixes, mark);
    assert ("\n" + rest)[1..] == rest;
    assert ("\n" + Blanked(lines[1..], prefixes, mark))[1..] == Blanked(lines[1..], prefixes, mark);
  }

  /** So the other one is glued. */
  lemma UnlikeEndsGlue(la: seq<string>, lb: seq<string>, prefixes: seq<string>, mark: string)
    requires AreLines(la) && AreLines(lb) && la != [] && lb != [] && AreMarks(prefixes, mark)
    requires Blanked(la, prefixes, mark) == Blanked(lb, prefixes, mark)
    requires PrefixOf(la[0], prefixes) == PrefixOf(lb[0], prefixes) && PrefixOf(la[0], prefixes).Some?
    requires EndsLine(la[0]) && !EndsLine(lb[0])
    ensures IsGlued(lb, prefixes, 0) && !IsGlued(la, prefixes, 0) && !IsGlued(lb, prefixes, 1)
    ensures Blanked(la[1..], prefixes, mark) == Blanked(lb[2..], prefixes, mark)
  {
    UnlikeEnds(la, lb, prefixes, mark);
    TailLines(lb);
    EmptyFirst(lb[1..], prefixes, mark, Blanked(la[1..], prefixes, mark));
    assert lb[1..][1..] == lb[2..];
  }

  // ----- the laws -----

  /** Each normal text has as many lines, not counting glue, whatever text it came from. */
  lemma {:induction false} LinesButGlue(la: seq<string>, lb: seq<string>, prefixes: seq<string>, mark: string)
    requires AreLines(la) && AreLines(lb) && AreMarks(prefixes, mark)
    requires IsUnambiguous(la, prefixes) && IsUnambiguous(lb, prefixes)
    requires Blanked(la, prefixes, mark) == Blanked(lb, prefixes, mark)
    ensures |la| - Glues(la, prefixes) == |lb| - Glues(lb, prefixes)
    decreases |la| + |lb|
  {
    BlankedStart(la, prefixes, mark);
    BlankedStart(lb, prefixes, mark);
    if la != [] && lb != [] {
      FirstLinesAlign(la, lb, prefixes, mark);
      TailLines(la);
      TailLines(lb);
      if EndsLine(la[0]) && !EndsLine(lb[0]) {
        UnevenGlue(la, lb, prefixes, mark);
      } else if EndsLine(lb[0]) && !EndsLine(la[0]) {
        UnevenGlue(lb, la, prefixes, mark);
      } else {
        RestsAlign(la, lb, prefixes, mark);
        LinesButGlue(la[1..], lb[1..], prefixes, mark);
        GluedTogether(la, lb, prefixes, mark);
      }
    }
  }

  lemma UnevenGlue(la: seq<string>, lb: seq<string>, prefixes: seq<string>, mark: string)
    requires AreLines(la) && AreLines(lb) && la != [] && lb != [] && AreMarks(prefixes, mark)
    requires IsUnambiguous(la, prefixes) && IsUnambiguous(lb, prefixes)
    requires Blanked(la, prefixes, mark) == Blanked(lb, prefixes, mark)
    requires PrefixOf(la[0], prefixes) == PrefixOf(lb[0], prefixes)
    requires PrefixOf(la[0], prefixes).None? ==> la[0] == lb[0]
    requires EndsLine(la[0]) && !EndsLine(lb[0])
    ensures |la| - Glues(la, prefixes) == |lb| - Glues(lb, prefixes)
    decreases |la| + |lb|, 0
  {
    UnlikeEndsGlue(la, lb, prefixes, mark);
    TailLines(la);
    TailLines(lb);
    TailLines(lb[1..]);
    GluedInTail(lb, prefixes, 0);
    assert lb[1..][1..] == lb[2..];
    LinesButGlue(la[1..], lb[2..], prefixes, mark);
  }

  /** First lines that end alike are glued alike. */
  lemma GluedTogether(la: seq<string>, lb: seq<string>, prefixes: seq<string>, mark: string)
    requires AreLines(la) && AreLines(lb) && la != [] && lb != [] && AreMarks(prefixes, mark)
    requires IsUnambiguous(la, prefixes) && IsUnambiguous(lb, prefixes)
    requires Blanked(la[1..], prefixes, mark) == Blanked(lb[1..], prefixes, mark)
    requires PrefixOf(la[0], prefixes) == PrefixOf(lb[0], prefixes) && EndsLine(la[0]) == EndsLine(lb[0])
    ensures IsGlued(la, prefixes, 0) <==> IsGlued(lb, prefixes, 0)
  {
    TailLines(la);
    TailLines(lb);
    BlankedStart(la[1..], prefixes, mark);
    BlankedStart(lb[1..], prefixes, mark);
    if |la| > 1 && |lb| > 1 {
      FirstLinesAlign(la[1..], lb[1..], prefixes, mark);
    }
  }

  lemma {:induction false} EqualAndGluedAlike(
      la: seq<string>, lb: seq<string>, prefixes: seq<string>, mark: string)
    requires AreLines(la) && AreLines(lb) && AreMarks(prefixes, mark)
    requires IsUnambiguous(la, prefixes) && IsUnambiguous(lb, prefixes)
    requires Blanked(la, prefixes, mark) == Blanked(lb, prefixes, mark) && GluedAlike(la, lb, prefixes)
    ensures SameFrozenText(la, lb, prefixes)
  {
    BlankedStart(la, prefixes, mark);
    BlankedStart(lb, prefixes, mark);
    if la != [] && lb != [] {
      FirstLinesAlign(la, lb, prefixes, mark);
      if EndsLine(la[0]) && !EndsLine(lb[0]) {
        UnlikeEndsGlue(la, lb, prefixes, mark);
      } else if EndsLine(lb[0]) && !EndsLine(la[0]) {
        UnlikeEndsGlue(lb, la, prefixes, mark);
      }
      RestsAlign(la, lb, prefixes, mark);
      TailLines(la);
      TailLines(lb);
      forall i
        ensures IsGlued(la[1..], prefixes, i) <==> IsGlued(lb[1..], prefixes, i)
      {
        GluedInTail(la, prefixes, i);
        GluedInTail(lb, prefixes, i);
      }
      EqualAndGluedAlike(la[1..], lb[1..], prefixes, mark);
      FirstAgrees(la, lb, prefixes);
    }
  }

  lemma FirstAgrees(la: seq<string>, lb: seq<string>, prefixes: seq<string>)
    requires la != [] && lb != [] && SameFrozenText(la[1..], lb[1..], prefixes)
    requires PrefixOf(la[0], prefixes) == PrefixOf(lb[0], prefixes) && EndsLine(la[0]) == EndsLine(lb[0])
    requires PrefixOf(la[0], prefixes).None? ==> la[0] == lb[0]
    ensures SameFrozenText(la, lb, prefixes)
  {
    forall i | 0 <= i < |la|
      ensures AgreeOutsideMutable(la[i], lb[i], prefixes)
    {
      if i > 0 {
        assert AgreeOutsideMutable(la[1..][i - 1], lb[1..][i - 1], prefixes);
      }
    }
  }

  lemma SameTextSameForm(la: seq<string>, lb: seq<string>, prefixes: seq<string>, mark: string)
    requires IsUnambiguous(la, prefixes) && IsUnambiguous(lb, prefixes) && SameFrozenText(la, lb, prefixes)
    ensures NormalLines(la, prefixes, mark) == NormalLines(lb, prefixes, mark)
    ensures GluedAlike(la, lb, prefixes)
  {
    forall i | 0 <= i < |la|
      ensures NormalLine(la[i], prefixes, mark) == NormalLine(lb[i], prefixes, mark)
      ensures PrefixOf(la[i], prefixes) == PrefixOf(lb[i], prefixes) && EndsLine(la[i]) == EndsLine(lb[i])
      ensures PrefixOf(la[i], prefixes).None? ==> la[i] == lb[i]
    {
      SamePrefixNormal(la[i], lb[i], prefixes, mark);
    }
  }

  lemma MarkIsWithinLine(prefixes: seq<string>)
    requires forall p :: p in prefixes ==> HasNoBreaks(p)
    ensures AreMarks(prefixes, MUTABLE)
  {
  }

  lemma EqualMarkedForms(a: string, b: string, prefixes: seq<string>, mark: string)
    requires AreMarks(prefixes, mark)
    requires NormalizedWith(a, prefixes, mark).Some? && NormalizedWith(b, prefixes, mark).Some?
    ensures SameFrozenText(SplitLines(a), SplitLines(b), prefixes) <==>
      && NormalizedWith(a, prefixes, mark) == NormalizedWith(b, prefixes, mark)
      && GluedAlike(SplitLines(a), SplitLines(b), prefixes)
  {
    var la, lb := SplitLines(a), SplitLines(b);
    SplitMakesLines(a);
    SplitMakesLines(b);
    if SameFrozenText(la, lb, prefixes) {
      SameTextSameForm(la, lb, prefixes, mark);
    } else if Blanked(la, prefixes, mark) == Blanked(lb, prefixes, mark) && GluedAlike(la, lb, prefixes) {
      EqualAndGluedAlike(la, lb, prefixes, mark);
    }
  }

  /**
   * For all accepted texts, whatever their line boundaries: they have as many lines and agree line by line
   * outside the contents of mutable lines exactly when their normal forms are equal and the same lines are
   * glued. So where nothing is glued, equal normal forms mean the same frozen text.
   */
  lemma EqualNormalFormsAgree(a: string, b: string, prefixes: seq<string>)
    requires forall p :: p in prefixes ==> HasNoBreaks(p)
    requires Normalized(a, prefixes).Some? && Normalized(b, prefixes).Some?
    ensures SameFrozenText(SplitLines(a), SplitLines(b), prefixes) <==>
      Normalized(a, prefixes) == Normalized(b, prefixes) && GluedAlike(SplitLines(a), SplitLines(b), prefixes)
  {
    MarkIsWithinLine(prefixes);
    var mark := MUTABLE;
    EqualMarkedForms(a, b, prefixes, mark);
  }

  // ----- which texts share a normal form with another number of lines -----

  lemma {:induction false} CountConcat(a: seq<string>, b: seq<string>, prefixes: seq<string>, p: string)
    ensures CountOf(a + b, prefixes, p) == CountOf(a, prefixes, p) + CountOf(b, prefixes, p)
    decreases |b|
  {
    if b == [] {
      assert a + b == a;
    } else {
      var init := b[..|b| - 1];
      assert (a + b)[..|a + b| - 1] == a + init && (a + b)[|a + b| - 1] == b[|b| - 1];
      CountConcat(a, init, prefixes, p);
    }
  }

  lemma {:induction false} ConcatSplits(a: seq<string>, b: seq<string>)
    ensures Concat(a + b) == Concat(a) + Concat(b)
  {
    if a == [] {
      assert a + b == b;
    } else {
      assert (a + b)[1..] == a[1..] + b;
      ConcatSplits(a[1..], b);
      assert a[0] + (Concat(a[1..]) + Concat(b)) == a[0] + Concat(a[1..]) + Concat(b);
    }
  }

  lemma {:induction false} MatchingAlike(a: string, b: string, prefixes: seq<string>)
    requires forall p :: p in prefixes ==> (StartsWith(Plain(a), p) <==> StartsWith(Plain(b), p))
    ensures Matching(a, prefixes) == Matching(b, prefixes)
  {
    if prefixes != [] {
      MatchingAlike(a, b, prefixes[1..]);
    }
  }

  /** The glued line with a newline for the boundary it loses. */
  function Mended(line: string): string
    requires line != ""
  {
    line[..|line| - 1] + "\n"
  }

  lemma MendedLine(line: string, prefixes: seq<string>, mark: string)
    requires AreMarks(prefixes, mark) && IsWhole(line) && EndsBroken(line) && !EndsLine(line)
    requires PrefixOf(line, prefixes).Some? && PrefixOf(line, prefixes).value != ""
    ensures var mended := Mended(line);
      && Matching(mended, prefixes) == Matching(line, prefixes)
      && IsWhole(mended) && EndsLine(mended) && mended[0] == line[0] != '\n'
      && NormalLine(mended, prefixes, mark) == NormalLine(line, prefixes, mark) + "\n"
  {
    var body, mended := line[..|line| - 1], Mended(line);
    var own := PrefixOf(line, prefixes).value;
    assert own == line[..|own|] && !IsBreak(own[0]) && line[0] == own[0];
    forall i | 0 <= i < |body|
      ensures !IsBreak(body[i])
    {
      if IsBreak(body[i]) {
        InsideOfLine(line, i);
      }
    }
    assert |body| > 0 && Plain(mended) == body;
    WholeOfBody(body, "\n");
    forall p | p in prefixes
      ensures StartsWith(Plain(line), p) <==> StartsWith(Plain(mended), p)
    {
      MendedStart(line, p);
    }
    MatchingAlike(line, mended, prefixes);
  }

  lemma MendedStart(line: string, p: string)
    requires EndsBroken(line) && HasNoBreaks(p)
    ensures StartsWith(line, p) <==> StartsWith(line[..|line| - 1], p)
  {
    var body := line[..|line| - 1];
    if StartsWith(line, p) {
      assert forall i :: 0 <= i < |p| ==> line[i] == p[i];
      assert |p| <= |body| && body[..|p|] == line[..|p|];
    } else if |p| <= |body| {
      assert body[..|p|] == line[..|p|];
    }
  }

  /** Two glued lines made one. */
  function Unglued(lines: seq<string>, i: nat): seq<string>
    requires i + 1 < |lines| && lines[i] != ""
  {
    lines[..i] + [Mended(lines[i])] + lines[i + 2..]
  }

  /** A line that matches no prefix shows that none is empty. */
  lemma NoEmptyPrefix(lines: seq<string>, prefixes: seq<string>, i: nat)
    requires IsGlued(lines, prefixes, i)
    ensures PrefixOf(lines[i], prefixes).value != ""
  {
    assert StartsWith(Plain(lines[i + 1]), "");
  }

  /** The mended line of a glued pair is one line of the same kind, and its normal form is that of the pair. */
  lemma MendedPair(lines: seq<string>, prefixes: seq<string>, mark: string, i: nat)
    requires AreLines(lines) && AreMarks(prefixes, mark) && IsGlued(lines, prefixes, i)
    ensures lines[i] != "" && IsWhole(Mended(lines[i])) && EndsLine(Mended(lines[i]))
    ensures Mended(lines[i])[0] == lines[i][0] != '\n'
    ensures IsClear(Mended(lines[i]), prefixes) == IsClear(lines[i], prefixes)
    ensures PrefixOf(Mended(lines[i]), prefixes) == PrefixOf(lines[i], prefixes)
    ensures NormalLine(Mended(lines[i]), prefixes, mark) == NormalLine(lines[i], prefixes, mark) + "\n"
  {
    assert IsSeam(lines[i], lines[i + 1]);
    NoEmptyPrefix(lines, prefixes, i);
    MendedLine(lines[i], prefixes, mark);
  }

  lemma UngluedAt(lines: seq<string>, i: nat, k: nat)
    requires i + 1 < |lines| && lines[i] != "" && k < |lines| - 1
    ensures |Unglued(lines, i)| == |lines| - 1
    ensures Unglued(lines, i)[k] == if k < i then lines[k] else if k == i then Mended(lines[i]) else lines[k + 1]
  {
  }

  lemma SeamAfter(lines: seq<string>, prefixes: seq<string>, mark: string, i: nat, k: nat)
    requires AreLines(lines) && AreMarks(prefixes, mark) && IsGlued(lines, prefixes, i)
    requires lines[i] != "" && k + 1 < |lines| - 1
    ensures |Unglued(lines, i)| == |lines| - 1
    ensures IsSeam(Unglued(lines, i)[k], Unglued(lines, i)[k + 1])
  {
    MendedPair(lines, prefixes, mark, i);
    UngluedAt(lines, i, k);
    UngluedAt(lines, i, k + 1);
    var at := if k < i then k else k + 1;
    assert IsSeam(lines[at], lines[at + 1]);
  }

  lemma UngluedLines(lines: seq<string>, prefixes: seq<string>, mark: string, i: nat)
    requires AreLines(lines) && AreMarks(prefixes, mark) && IsGlued(lines, prefixes, i) && lines[i] != ""
    ensures AreLines(Unglued(lines, i))
  {
    MendedPair(lines, prefixes, mark, i);
    forall k | 0 <= k < |Unglued(lines, i)| - 1
      ensures IsSeam(Unglued(lines, i)[k], Unglued(lines, i)[k + 1])
    {
      SeamAfter(lines, prefixes, mark, i, k);
    }
  }

  lemma NormalLinesConcat(a: seq<string>, b: seq<string>, prefixes: seq<string>, mark: string)
    ensures NormalLines(a + b, prefixes, mark) == NormalLines(a, prefixes, mark) + NormalLines(b, prefixes, mark)
  {
    var whole := NormalLines(a + b, prefixes, mark);
    var parts := NormalLines(a, prefixes, mark) + NormalLines(b, prefixes, mark);
    forall i | 0 <= i < |whole|
      ensures whole[i] == parts[i]
    {
      assert (a + b)[i] == if i < |a| then a[i] else b[i - |a|];
    }
  }

  lemma BlankedConcat(a: seq<string>, b: seq<string>, prefixes: seq<string>, mark: string)
    ensures Blanked(a + b, prefixes, mark) == Blanked(a, prefixes, mark) + Blanked(b, prefixes, mark)
  {
    NormalLinesConcat(a, b, prefixes, mark);
    ConcatSplits(NormalLines(a, prefixes, mark), NormalLines(b, prefixes, mark));
  }

  lemma BlankedOne(line: string, prefixes: seq<string>, mark: string)
    ensures Blanked([line], prefixes, mark) == NormalLine(line, prefixes, mark)
  {
    BlankedCons([line], prefixes, mark);
    assert [line][1..] == [];
  }

  /** Everything a text's lines amount to, split at one line. */
  lemma SplitForm(head: seq<string>, line: string, rest: seq<string>, prefixes: seq<string>, mark: string)
    ensures Blanked(head + [line] + rest, prefixes, mark)
         == Blanked(head, prefixes, mark) + NormalLine(line, prefixes, mark) + Blanked(rest, prefixes, mark)
  {
    BlankedConcat(head + [line], rest, prefixes, mark);
    BlankedConcat(head, [line], prefixes, mark);
    BlankedOne(line, prefixes, mark);
  }

  lemma SplitCount(head: seq<string>, line: string, rest: seq<string>, prefixes: seq<string>, p: string)
    ensures CountOf(head + [line] + rest, prefixes, p)
         == CountOf(head, prefixes, p) + (if PrefixOf(line, prefixes) == Some(p) then 1 else 0)
            + CountOf(rest, prefixes, p)
  {
    CountConcat(head + [line], rest, prefixes, p);
    CountConcat(head, [line], prefixes, p);
    assert [line][..0] == [];
  }

  lemma SplitTwo(lines: seq<string>, i: nat)
    requires i + 1 < |lines|
    ensures lines == lines[..i] + [lines[i]] + lines[i + 1..]
    ensures lines[i + 1..] == [] + [lines[i + 1]] + lines[i + 2..]
  {
  }

  lemma Rejoin(head: string, line: string, newline: string, rest: string)
    ensures head + (line + newline) + rest == head + line + ("" + newline + rest)
  {
  }

  lemma PairForm(lines: seq<string>, prefixes: seq<string>, mark: string, i: nat)
    requires IsGlued(lines, prefixes, i)
    ensures Blanked(lines, prefixes, mark)
         == Blanked(lines[..i], prefixes, mark) + NormalLine(lines[i], prefixes, mark)
            + ("" + lines[i + 1] + Blanked(lines[i + 2..], prefixes, mark))
  {
    SplitTwo(lines, i);
    SplitForm(lines[..i], lines[i], lines[i + 1..], prefixes, mark);
    SplitForm([], lines[i + 1], lines[i + 2..], prefixes, mark);
  }

  lemma UngluedForm(lines: seq<string>, prefixes: seq<string>, mark: string, i: nat)
    requires AreLines(lines) && AreMarks(prefixes, mark) && IsGlued(lines, prefixes, i) && lines[i] != ""
    ensures Blanked(Unglued(lines, i), prefixes, mark) == Blanked(lines, prefixes, mark)
  {
    MendedPair(lines, prefixes, mark, i);
    PairForm(lines, prefixes, mark, i);
    SplitForm(lines[..i], Mended(lines[i]), lines[i + 2..], prefixes, mark);
    Rejoin(
      Blanked(lines[..i], prefixes, mark), NormalLine(lines[i], prefixes, mark), lines[i + 1],
      Blanked(lines[i + 2..], prefixes, mark));
  }

  lemma UngluedCount(lines: seq<string>, prefixes: seq<string>, mark: string, i: nat, p: string)
    requires AreLines(lines) && AreMarks(prefixes, mark) && IsGlued(lines, prefixes, i) && lines[i] != ""
    ensures CountOf(Unglued(lines, i), prefixes, p) == CountOf(lines, prefixes, p)
  {
    MendedPair(lines, prefixes, mark, i);
    SplitTwo(lines, i);
    SplitCount(lines[..i], Mended(lines[i]), lines[i + 2..], prefixes, p);
    SplitCount(lines[..i], lines[i], lines[i + 1..], prefixes, p);
    SplitCount([], lines[i + 1], lines[i + 2..], prefixes, p);
  }

  lemma UngluedIsClear(lines: seq<string>, prefixes: seq<string>, mark: string, i: nat)
    requires AreLines(lines) && AreMarks(prefixes, mark) && IsGlued(lines, prefixes, i) && lines[i] != ""
    requires IsUnambiguous(lines, prefixes)
    ensures IsUnambiguous(Unglued(lines, i), prefixes)
  {
    MendedPair(lines, prefixes, mark, i);
    var all := Unglued(lines, i);
    forall k | 0 <= k < |all|
      ensures IsClear(all[k], prefixes)
    {
      assert k != i ==> all[k] == lines[if k < i then k else k + 1];
    }
  }

  lemma UngluedIsAccepted(lines: seq<string>, prefixes: seq<string>, mark: string, i: nat)
    requires AreLines(lines) && AreMarks(prefixes, mark) && IsGlued(lines, prefixes, i) && lines[i] != ""
    requires IsAccepted(lines, prefixes)
    ensures IsAccepted(Unglued(lines, i), prefixes)
  {
    UngluedIsClear(lines, prefixes, mark, i);
    var all := Unglued(lines, i);
    forall p | p in prefixes
      ensures CountOf(all, prefixes, p) == 1
    {
      UngluedCount(lines, prefixes, mark, i, p);
    }
  }

  /** A glued text and the text with one pair of glued lines made one. */
  lemma UngluedText(la: seq<string>, prefixes: seq<string>, mark: string, i: nat) returns (b: string)
    requires AreLines(la) && AreMarks(prefixes, mark) && IsGlued(la, prefixes, i) && IsAccepted(la, prefixes)
    ensures NormalizedWith(b, prefixes, mark) == NormalizedLines(la, prefixes, mark)
    ensures |SplitLines(b)| < |la|
  {
    assert IsSeam(la[i], la[i + 1]);
    UngluedLines(la, prefixes, mark, i);
    UngluedIsAccepted(la, prefixes, mark, i);
    UngluedForm(la, prefixes, mark, i);
    b := Concat(Unglued(la, i));
    SplitOfConcat(Unglued(la, i));
  }

  lemma GluedIsAmbiguousWith(a: string, prefixes: seq<string>, mark: string)
    requires AreMarks(prefixes, mark) && NormalizedWith(a, prefixes, mark).Some?
    ensures (exists i :: IsGlued(SplitLines(a), prefixes, i)) <==>
      exists b :: NormalizedWith(b, prefixes, mark) == NormalizedWith(a, prefixes, mark)
                  && |SplitLines(b)| < |SplitLines(a)|
  {
    var la := SplitLines(a);
    SplitMakesLines(a);
    if i :| IsGlued(la, prefixes, i) {
      var b := UngluedText(la, prefixes, mark, i);
    }
    if b :| NormalizedWith(b, prefixes, mark) == NormalizedWith(a, prefixes, mark)
            && |SplitLines(b)| < |SplitLines(a)| {
      SplitMakesLines(b);
      LinesButGlue(la, SplitLines(b), prefixes, mark);
      SomeGlue(la, prefixes);
    }
  }

  /** A text has a glued line exactly when its normal form is also that of a text with fewer lines. */
  lemma GluedIsAmbiguous(a: string, prefixes: seq<string>)
    requires (forall p :: p in prefixes ==> HasNoBreaks(p)) && Normalized(a, prefixes).Some?
    ensures (exists i :: IsGlued(SplitLines(a), prefixes, i)) <==>
      exists b :: Normalized(b, prefixes) == Normalized(a, prefixes) && |SplitLines(b)| < |SplitLines(a)|
  {
    MarkIsWithinLine(prefixes);
    var mark := MUTABLE;
    GluedIsAmbiguousWith(a, prefixes, mark);
  }

  // ----- when the normal text keeps its lines -----

  /** Every mutable line but the last ends in a newline, the one boundary that blanking keeps. */
  predicate IsTidy(lines: seq<string>, prefixes: seq<string>) {
    forall i :: 0 <= i < |lines| - 1 && PrefixOf(lines[i], prefixes).Some? ==> EndsLine(lines[i])
  }

  lemma TidyKeepsLines(lines: seq<string>, prefixes: seq<string>, mark: string)
    requires AreLines(lines) && AreMarks(prefixes, mark) && IsTidy(lines, prefixes)
    ensures AreLines(NormalLines(lines, prefixes, mark))
  {
    var normal := NormalLines(lines, prefixes, mark);
    forall i | 0 <= i < |normal|
      ensures IsWhole(normal[i])
      ensures i < |normal| - 1 ==> IsSeam(normal[i], normal[i + 1])
    {
      if PrefixOf(lines[i], prefixes).Some? {
        BlankedLine(lines[i], prefixes, mark);
      }
      if i < |normal| - 1 {
        assert IsSeam(lines[i], lines[i + 1]);
        if PrefixOf(lines[i + 1], prefixes).Some? {
          BlankedLine(lines[i + 1], prefixes, mark);
        }
      }
    }
  }

  lemma UntidyLosesLines(lines: seq<string>, prefixes: seq<string>, mark: string)
    requires AreMarks(prefixes, mark) && AreLines(NormalLines(lines, prefixes, mark))
    ensures IsTidy(lines, prefixes)
  {
    var normal := NormalLines(lines, prefixes, mark);
    forall i | 0 <= i < |lines| - 1 && PrefixOf(lines[i], prefixes).Some?
      ensures EndsLine(lines[i])
    {
      assert IsSeam(normal[i], normal[i + 1]);
      BlankedLine(lines[i], prefixes, mark);
    }
  }

  /** Splitting the normal text gives the blanked lines back exactly when the text was tidy. */
  lemma BlankingKeepsLines(text: string, prefixes: seq<string>)
    requires (forall p :: p in prefixes ==> HasNoBreaks(p)) && Normalized(text, prefixes).Some?
    ensures SplitLines(Normalized(text, prefixes).value) == NormalLines(SplitLines(text), prefixes, MUTABLE)
      <==> IsTidy(SplitLines(text), prefixes)
  {
    MarkIsWithinLine(prefixes);
    var mark := MUTABLE;
    BlankingKeepsMarkedLines(text, prefixes, mark);
  }

  lemma BlankingKeepsMarkedLines(text: string, prefixes: seq<string>, mark: string)
    requires AreMarks(prefixes, mark) && NormalizedWith(text, prefixes, mark).Some?
    ensures SplitLines(NormalizedWith(text, prefixes, mark).value) == NormalLines(SplitLines(text), prefixes, mark)
      <==> IsTidy(SplitLines(text), prefixes)
  {
    var lines := SplitLines(text);
    SplitMakesLines(text);
    if IsTidy(lines, prefixes) {
      TidyKeepsLines(lines, prefixes, mark);
      SplitOfConcat(NormalLines(lines, prefixes, mark));
    }
    if SplitLines(Concat(NormalLines(lines, prefixes, mark))) == NormalLines(lines, prefixes, mark) {
      SplitMakesLines(Concat(NormalLines(lines, prefixes, mark)));
      UntidyLosesLines(lines, prefixes, mark);
    }
  }

  lemma TwoLinesAndOne(p: string, tab: string, newline: string, mark: string)
    requires p == "p" && newline == "\n" && |tab| == 1 && IsBreak(tab[0]) && tab[0] != '\n' && tab[0] != '\r'
    ensures SplitLines(p + tab + newline) == [p + tab, newline] && SplitLines(p + newline) == [p + newline]
    ensures NormalLine(p + tab, [p], mark) == p + mark && NormalLine(newline, [p], mark) == newline
    ensures NormalLine(p + newline, [p], mark) == p + mark + newline
    ensures IsClear(p + tab, [p]) && IsClear(newline, [p]) && IsClear(p + newline, [p])
  {
    var a, b := p + tab + newline, p + newline;
    assert newline[..1] == newline && newline[1..] == "" && SplitLines(newline) == [newline];
    assert a[1..] == tab + newline && LineLength(a) == 2;
    assert a[..2] == p + tab && a[2..] == newline;
    assert b[1..] == newline && LineLength(b) == 2;
    assert b[..2] == b && b[2..] == "";
    assert b[1] == '\n' && EndsLine(b) && Plain(b) == p;
    assert (p + tab)[1] == tab[0] && Plain(p + tab) == p + tab && (p + tab)[..1] == p;
    ClearPrefix(p + tab, [p], p);
    ClearPrefix(b, [p], p);
  }

  /**
   * With another boundary this fails: the mutable line loses the vertical tab that ended it, so a text of two
   * lines has the normal form of a text of one.
   */
  lemma OtherBreaksAreConfused() returns (a: string, b: string, prefixes: seq<string>)
    ensures Normalized(a, prefixes).Some? && Normalized(a, prefixes) == Normalized(b, prefixes)
    ensures |SplitLines(a)| == 2 && |SplitLines(b)| == 1
  {
    var p, tab, newline, mark := "p", ['\U{0B}'], "\n", MUTABLE;
    a, b, prefixes := p + tab + newline, p + newline, [p];
    TwoLinesAndOne(p, tab, newline, mark);
    SameNormalForm(p + tab, newline, p + newline, p, mark);
  }

  lemma SameNormalForm(first: string, second: string, whole: string, p: string, mark: string)
    requires NormalLine(first, [p], mark) == p + mark && NormalLine(second, [p], mark) == second
    requires NormalLine(whole, [p], mark) == p + mark + second
    requires PrefixOf(first, [p]) == Some(p) == PrefixOf(whole, [p]) && PrefixOf(second, [p]) == None
    requires IsClear(first, [p]) && IsClear(second, [p]) && IsClear(whole, [p])
    ensures IsAccepted([first, second], [p]) && IsAccepted([whole], [p])
    ensures Concat(NormalLines([first, second], [p], mark)) == Concat(NormalLines([whole], [p], mark))
  {
    assert [first, second][..1] == [first] && [first][..0] == [] && [whole][..0] == [];
    assert CountOf([first, second], [p], p) == CountOf([first], [p], p) + 0;
    assert NormalLines([first, second], [p], mark) == [] + [p + mark] + [second];
    assert NormalLines([whole], [p], mark) == [] + [p + mark + second];
    ConcatAppends([] + [p + mark], second);
    ConcatAppends([], p + mark);
    ConcatAppends([], p + mark + second);
  }
}
