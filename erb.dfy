/** ERB templates in internal/ui/erb.go: the file-name tests, and the styling
    of ERB tags in an already highlighted line. The tag pattern of the source
    is a regular expression; here its matches are given, as the intervals
    the regular expression finds in a line. */
module Erb {
  import opened Bytes
  import opened Ansi

  /** One match of the tag pattern: the bytes from `start` up to `end`. */
  datatype Match = Match(start: nat, end: nat)

  /** Matches as a regular expression returns them: inside the line, each
      one ending before the next one starts. */
  predicate Ordered(line: Str, ms: seq<Match>) {
    && (forall i | 0 <= i < |ms| :: ms[i].start <= ms[i].end <= |line|)
    && (forall i | 0 <= i < |ms| - 1 :: ms[i].end <= ms[i + 1].start)
  }

  /** The line from `from` on, with the matches from the `i`th on each
      replaced by `tag` of the matched bytes and the bytes around them
      copied. */
  function Weave(line: Str, ms: seq<Match>, i: nat, from: nat, tag: Str -> Str): Str
    requires Ordered(line, ms) && i <= |ms|
    requires from <= |line| && (i < |ms| ==> from <= ms[i].start)
    decreases |ms| - i
  {
    if i == |ms| then line[from..]
    else line[from..ms[i].start] + tag(line[ms[i].start..ms[i].end]) + Weave(line, ms, i + 1, ms[i].end, tag)
  }

  /** What styleERBTags writes for one tag: a reset, the styled tag, and a
      reset. */
  function Emit(style: Str -> Str): Str -> Str {
    t => Reset + style(t) + Reset
  }

  /** styleERBTags: with no match the line is returned as it is; otherwise
      every match is replaced by its emitted tag, so the text before the
      first match is copied and a reset follows it. */
  function StyleTags(line: Str, ms: seq<Match>, style: Str -> Str): (r: Str)
    requires Ordered(line, ms)
    ensures |ms| == 0 ==> r == line
    ensures |ms| > 0 ==> HasPrefix(r, line[..ms[0].start] + Reset)
  {
    if |ms| == 0 then line else Weave(line, ms, 0, 0, Emit(style))
  }

  /** With every tag written back as it was, weaving gives the line back:
      the bytes between and around the matches are copied verbatim and in
      order. */
  lemma {:induction false} WeaveKeepsText(line: Str, ms: seq<Match>, i: nat, from: nat)
    requires Ordered(line, ms) && i <= |ms|
    requires from <= |line| && (i < |ms| ==> from <= ms[i].start)
    ensures Weave(line, ms, i, from, t => t) == line[from..]
    decreases |ms| - i
  {
    if i < |ms| {
      var s, e := ms[i].start, ms[i].end;
      WeaveKeepsText(line, ms, i + 1, e);
      assert line[from..] == line[from..s] + line[s..e] + line[e..];
    }
  }

  /** With no match the line comes back unchanged; otherwise it is the line
      with each match replaced by a reset, the styled tag and a reset, and
      replacing each match by itself instead gives the line back. */
  lemma StyleTagsKeepsText(line: Str, ms: seq<Match>, style: Str -> Str)
    requires Ordered(line, ms)
    ensures |ms| == 0 ==> StyleTags(line, ms, style) == line
    ensures |ms| > 0 ==> StyleTags(line, ms, style) == Weave(line, ms, 0, 0, t => Reset + style(t) + Reset)
    ensures Weave(line, ms, 0, 0, t => t) == line
  {
    WeaveKeepsText(line, ms, 0, 0);
    assert Emit(style) == (t => Reset + style(t) + Reset);
  }

  /** One match of the loop of styleERBTags: the text before it and the
      emitted tag are appended, and the next text starts after it. */
  lemma WeaveStep(line: Str, ms: seq<Match>, i: nat, from: nat, tag: Str -> Str, done: Str, piece: Str)
    requires Ordered(line, ms) && i < |ms| && from <= ms[i].start
    requires piece == line[from..ms[i].start] + tag(line[ms[i].start..ms[i].end])
    ensures (done + piece) + Weave(line, ms, i + 1, ms[i].end, tag) == done + Weave(line, ms, i, from, tag)
  {
  }

  /** styleERBTags over the matches of its line: a builder collects the
      text before each match and the emitted tag, then the rest of the
      line. */
  method StyleErbTags(line: Str, ms: seq<Match>, style: Str -> Str) returns (out: Str)
    requires Ordered(line, ms)
    ensures out == StyleTags(line, ms, style)
  {
    if |ms| == 0 {
      return line;
    }
    var result: Str := [];
    var lastEnd: nat := 0;
    for i := 0 to |ms|
      invariant lastEnd <= |line| && (i < |ms| ==> lastEnd <= ms[i].start)
      invariant result + Weave(line, ms, i, lastEnd, Emit(style)) == Weave(line, ms, 0, 0, Emit(style))
    {
      var start, end := ms[i].start, ms[i].end;
      var piece := line[lastEnd..start] + (Reset + style(line[start..end]) + Reset);
      WeaveStep(line, ms, i, lastEnd, Emit(style), result, piece);
      result := result + piece;
      lastEnd := end;
    }
    out := result + line[lastEnd..];
  }

  /** What the ERB pass needs from outside: the tag pattern's matches in a
      line, and the tag style (lipgloss). */
  datatype ErbEnv = ErbEnv(find: Str -> seq<Match>, style: Str -> Str)

  /** The tag pattern's matches are ordered in every line. */
  ghost predicate FindsOrdered(env: ErbEnv) {
    forall line :: Ordered(line, env.find(line))
  }

  /** applyERBStyling: one styled line per line, in order. */
  method ApplyErbStyling(lines: seq<Str>, env: ErbEnv) returns (result: seq<Str>)
    requires FindsOrdered(env)
    ensures |result| == |lines|
    ensures forall i | 0 <= i < |lines| :: result[i] == StyleTags(lines[i], env.find(lines[i]), env.style)
  {
    var res := new Str[|lines|];
    for i := 0 to |lines|
      invariant forall k | 0 <= k < i :: res[k] == StyleTags(lines[k], env.find(lines[k]), env.style)
    {
      res[i] := StyleErbTags(lines[i], env.find(lines[i]), env.style);
    }
    result := res[..];
  }

  // ---------------------------------------------------------------------
  // File names

  const ErbSuffix: Str := [Dot, 0x65, 0x72, 0x62]
  const MdErbSuffix: Str := [Dot, 0x6d, 0x64] + ErbSuffix
  const MarkdownErbSuffix: Str := [Dot, 0x6d, 0x61, 0x72, 0x6b, 0x64, 0x6f, 0x77, 0x6e] + ErbSuffix

  /** isERBFile: the lower-cased name ends in ".erb", that is, the name ends
      in ".erb" in any mix of ASCII cases: its last four bytes lower-case to
      ".erb" byte by byte. No other rune lowers to one of those bytes. */
  predicate IsErbFile(name: Str): (b: bool)
    ensures b <==> LowersTo(name, ErbSuffix)
  {
    LowerSuffix(name, ErbSuffix);
    HasSuffix(Lower(name), ErbSuffix)
  }

  /** isMarkdownERBFile: the lower-cased name ends in ".md.erb" or
      ".markdown.erb". A markdown template is a template. */
  predicate IsMarkdownErbFile(name: Str): (b: bool)
    ensures b ==> IsErbFile(name)
  {
    var lower := Lower(name);
    ErbSuffixes(lower);
    HasSuffix(lower, MdErbSuffix) || HasSuffix(lower, MarkdownErbSuffix)
  }

  lemma ErbSuffixes(lower: Str)
    ensures HasSuffix(lower, MdErbSuffix) || HasSuffix(lower, MarkdownErbSuffix) ==> HasSuffix(lower, ErbSuffix)
  {
    if HasSuffix(lower, MdErbSuffix) {
      SuffixOfSuffix(lower, [Dot, 0x6d, 0x64], ErbSuffix);
    } else if HasSuffix(lower, MarkdownErbSuffix) {
      SuffixOfSuffix(lower, [Dot, 0x6d, 0x61, 0x72, 0x6b, 0x64, 0x6f, 0x77, 0x6e], ErbSuffix);
    }
  }

  lemma SuffixOfSuffix(s: Str, p: Str, q: Str)
    requires HasSuffix(s, p + q)
    ensures HasSuffix(s, q)
  {
    assert s[|s| - |q|..] == s[|s| - |p + q|..][|p|..];
  }

  /** The tests ignore case: a name and its lower-cased form are alike. */
  lemma ErbIgnoresCase(name: Str)
    ensures IsErbFile(name) <==> IsErbFile(Lower(name))
    ensures IsMarkdownErbFile(name) <==> IsMarkdownErbFile(Lower(name))
  {
    LowerTwice(name);
  }

  /** Go lowers U+212A KELVIN SIGN to 'k', so "a.mar", the Kelvin sign,
      "down.erb" names a markdown template. */
  lemma KelvinMarkdownErb()
    ensures IsMarkdownErbFile([0x61, Dot, 0x6d, 0x61, 0x72] + KelvinSign + [0x64, 0x6f, 0x77, 0x6e] + ErbSuffix)
  {
    KelvinName();
    var lower := [0x61] + MarkdownErbSuffix;
    assert lower[1..] == MarkdownErbSuffix;
  }

  lemma KelvinName()
    ensures Lower([0x61, Dot, 0x6d, 0x61, 0x72] + KelvinSign + [0x64, 0x6f, 0x77, 0x6e] + ErbSuffix)
      == [0x61] + MarkdownErbSuffix
  {
    var a: Str := [0x61, Dot, 0x6d, 0x61, 0x72];
    var b: Str := [0x64, 0x6f, 0x77, 0x6e, Dot, 0x65, 0x72, 0x62];
    assert a + KelvinSign + [0x64, 0x6f, 0x77, 0x6e] + ErbSuffix == a + KelvinSign + b;
    LowerKelvin(a, b);
    LowerAscii(a);
    LowerAscii(b);
  }
}
