/**
 * `normalize_frozen` of `scripts/validate_governance_state.py`: a document with the contents of its few mutable
 * lines blanked out, which is how two versions are compared for changes elsewhere.
 */
module FrozenText {
  import opened Wrappers

  const MUTABLE := "<MUTABLE>"

  /** The line boundaries of Python's `str.splitlines`. */
  predicate IsBreak(c: char) {
    var code := c as int;
    0x0A <= code <= 0x0D || 0x1C <= code <= 0x1E || code == 0x85 || code == 0x2028 || code == 0x2029
  }

  /** The length of the first line, its boundary included; a carriage return takes a newline with it. */
  function LineLength(t: string): (n: nat)
    ensures n <= |t| && (t != "" ==> n > 0)
  {
    if t == "" then 0
    else if t[0] == '\r' && |t| > 1 && t[1] == '\n' then 2
    else if IsBreak(t[0]) then 1
    else 1 + LineLength(t[1..])
  }

  /** `text.splitlines(keepends=True)`. */
  function SplitLines(t: string): seq<string>
    decreases |t|
  {
    if t == "" then [] else [t[..LineLength(t)]] + SplitLines(t[LineLength(t)..])
  }

  function Concat(lines: seq<string>): string {
    if lines == [] then "" else lines[0] + Concat(lines[1..])
  }

  predicate EndsLine(line: string) {
    line != "" && line[|line| - 1] == '\n'
  }

  function Plain(line: string): string {
    if EndsLine(line) then line[..|line| - 1] else line
  }

  predicate StartsWith(s: string, prefix: string) {
    |prefix| <= |s| && s[..|prefix|] == prefix
  }

  /** The prefixes that the line starts with. */
  function Matching(line: string, prefixes: seq<string>): seq<string> {
    if prefixes == [] then []
    else (if StartsWith(Plain(line), prefixes[0]) then [prefixes[0]] else []) + Matching(line, prefixes[1..])
  }

  lemma {:induction false} MatchingIsPrefix(line: string, prefixes: seq<string>)
    ensures forall p :: p in Matching(line, prefixes) <==> p in prefixes && StartsWith(Plain(line), p)
  {
    if prefixes != [] {
      MatchingIsPrefix(line, prefixes[1..]);
    }
  }

  /** The first prefix the line starts with. */
  function PrefixOf(line: string, prefixes: seq<string>): (r: Option<string>)
    ensures r.Some? ==> r.value in prefixes && StartsWith(Plain(line), r.value)
    ensures r.None? ==> forall p :: p in prefixes ==> !StartsWith(Plain(line), p)
  {
    MatchingIsPrefix(line, prefixes);
    var matching := Matching(line, prefixes);
    if matching == [] then
      None
    else
      assert matching[0] in matching;
      Some(matching[0])
  }

  /** The line starts with at most one prefix. */
  predicate IsClear(line: string, prefixes: seq<string>) {
    |Matching(line, prefixes)| <= 1
  }

  lemma ClearPrefix(line: string, prefixes: seq<string>, p: string)
    requires IsClear(line, prefixes) && p in prefixes && StartsWith(Plain(line), p)
    ensures PrefixOf(line, prefixes) == Some(p)
  {
    MatchingIsPrefix(line, prefixes);
    assert p in Matching(line, prefixes);
  }

  function NormalLine(line: string, prefixes: seq<string>, mark: string): string {
    match PrefixOf(line, prefixes)
    case None => line
    case Some(p) => p + mark + if EndsLine(line) then "\n" else ""
  }

  function NormalLines(lines: seq<string>, prefixes: seq<string>, mark: string): (r: seq<string>)
    ensures |r| == |lines|
    ensures forall i :: 0 <= i < |r| ==> r[i] == NormalLine(lines[i], prefixes, mark)
  {
    seq(|lines|, i requires 0 <= i < |lines| => NormalLine(lines[i], prefixes, mark))
  }

  /** How many lines are taken for the prefix. */
  function CountOf(lines: seq<string>, prefixes: seq<string>, prefix: string): nat {
    if lines == [] then 0
    else (
      CountOf(lines[..|lines| - 1], prefixes, prefix)
      + if PrefixOf(lines[|lines| - 1], prefixes) == Some(prefix) then 1 else 0)
  }

  predicate IsUnambiguous(lines: seq<string>, prefixes: seq<string>) {
    forall i :: 0 <= i < |lines| ==> IsClear(lines[i], prefixes)
  }

  /** No line matches two prefixes, and every prefix has exactly one line. */
  predicate IsAccepted(lines: seq<string>, prefixes: seq<string>) {
    && IsUnambiguous(lines, prefixes)
    && forall p :: p in prefixes ==> CountOf(lines, prefixes, p) == 1
  }

  function NormalizedLines(lines: seq<string>, prefixes: seq<string>, mark: string): Option<string> {
    if IsAccepted(lines, prefixes) then Some(Concat(NormalLines(lines, prefixes, mark))) else None
  }

  function NormalizedWith(text: string, prefixes: seq<string>, mark: string): Option<string> {
    NormalizedLines(SplitLines(text), prefixes, mark)
  }

  function Normalized(text: string, prefixes: seq<string>): Option<string> {
    NormalizedWith(text, prefixes, MUTABLE)
  }

  lemma {:induction false} ConcatAppends(lines: seq<string>, line: string)
    ensures Concat(lines + [line]) == Concat(lines) + line
  {
    if lines == [] {
      assert lines + [line] == [line];
    } else {
      ConcatAppends(lines[1..], line);
      assert (lines + [line])[1..] == lines[1..] + [line];
    }
  }

  lemma OutputStep(lines: seq<string>, prefixes: seq<string>, mark: string, i: nat)
    requires i < |lines|
    ensures Concat(NormalLines(lines[..i + 1], prefixes, mark))
         == Concat(NormalLines(lines[..i], prefixes, mark)) + NormalLine(lines[i], prefixes, mark)
  {
    var before, after := NormalLines(lines[..i], prefixes, mark), NormalLines(lines[..i + 1], prefixes, mark);
    var line := NormalLine(lines[i], prefixes, mark);
    assert after == before + [line];
    ConcatAppends(before, line);
  }

  lemma UnambiguousStep(lines: seq<string>, prefixes: seq<string>, i: nat)
    requires i < |lines| && IsUnambiguous(lines[..i], prefixes)
    ensures if IsClear(lines[i], prefixes) then IsUnambiguous(lines[..i + 1], prefixes)
      else !IsUnambiguous(lines, prefixes)
  {
    assert lines[..i + 1] == lines[..i] + [lines[i]];
  }

  /** The tally of the prefixes after some lines. */
  ghost predicate Tallies(counts: map<string, nat>, lines: seq<string>, prefixes: seq<string>) {
    && (forall p :: p in counts <==> p in prefixes)
    && (forall p :: p in counts ==> counts[p] == CountOf(lines, prefixes, p))
  }

  lemma TallyStep(counts: map<string, nat>, lines: seq<string>, prefixes: seq<string>, i: nat)
    requires i < |lines| && Tallies(counts, lines[..i], prefixes)
    ensures match PrefixOf(lines[i], prefixes)
      case None => Tallies(counts, lines[..i + 1], prefixes)
      case Some(p) => p in counts && Tallies(counts[p := counts[p] + 1], lines[..i + 1], prefixes)
  {
    var longer := lines[..i + 1];
    assert longer[..|longer| - 1] == lines[..i] && longer[|longer| - 1] == lines[i];
  }

  /** The loop's state after some lines. */
  ghost predicate HasNormalized(
      counts: map<string, nat>, output: string, lines: seq<string>, prefixes: seq<string>, mark: string)
  {
    && Tallies(counts, lines, prefixes)
    && IsUnambiguous(lines, prefixes)
    && output == Concat(NormalLines(lines, prefixes, mark))
  }

  lemma NormalizeStep(
      counts: map<string, nat>, output: string, lines: seq<string>, prefixes: seq<string>, mark: string, i: nat)
    requires i < |lines| && HasNormalized(counts, output, lines[..i], prefixes, mark)
    ensures
      if !IsClear(lines[i], prefixes) then !IsUnambiguous(lines, prefixes)
      else match PrefixOf(lines[i], prefixes)
        case None => HasNormalized(counts, output + lines[i], lines[..i + 1], prefixes, mark)
        case Some(p) =>
          && p in counts
          && HasNormalized(
               counts[p := counts[p] + 1], output + (p + mark + if EndsLine(lines[i]) then "\n" else ""),
               lines[..i + 1], prefixes, mark)
  {
    OutputStep(lines, prefixes, mark, i);
    UnambiguousStep(lines, prefixes, i);
    TallyStep(counts, lines, prefixes, i);
  }

  lemma NormalizeStart(lines: seq<string>, prefixes: seq<string>, mark: string)
    ensures HasNormalized(map p | p in prefixes :: 0, "", lines[..0], prefixes, mark)
  {
    assert lines[..0] == [];
  }

  lemma NormalizeEnd(
      counts: map<string, nat>, output: string, lines: seq<string>, prefixes: seq<string>, mark: string)
    requires HasNormalized(counts, output, lines[..|lines|], prefixes, mark)
    ensures IsAccepted(lines, prefixes) <==> forall p :: p in counts ==> counts[p] == 1
    ensures output == Concat(NormalLines(lines, prefixes, mark))
  {
    assert lines[..|lines|] == lines;
  }

  method NormalizeLines(lines: seq<string>, prefixes: seq<string>, mark: string) returns (r: Option<string>)
    ensures r == NormalizedLines(lines, prefixes, mark)
  {
    var counts: map<string, nat> := map p | p in prefixes :: 0;
    var output: string := "";
    NormalizeStart(lines, prefixes, mark);
    for i := 0 to |lines|
      invariant HasNormalized(counts, output, lines[..i], prefixes, mark)
    {
      var line := lines[i];
      NormalizeStep(counts, output, lines, prefixes, mark, i);
      if !IsClear(line, prefixes) {
        return None;
      }
      match PrefixOf(line, prefixes)
      case Some(prefix) =>
        counts := counts[prefix := counts[prefix] + 1];
        output := output + (prefix + mark + if EndsLine(line) then "\n" else "");
      case None =>
        output := output + line;
    }
    NormalizeEnd(counts, output, lines, prefixes, mark);
    if exists p :: p in counts && counts[p] != 1 {
      return None;
    }
    r := Some(output);
  }

  method NormalizeFrozen(text: string, prefixes: seq<string>) returns (r: Option<string>)
    ensures r == Normalized(text, prefixes)
  {
    r := NormalizeLines(SplitLines(text), prefixes, MUTABLE);
  }
}
