/** The wrapping engine of internal/ui/wrap.go: background injection, hanging
    indents, and the split of one highlighted line into visual segments. */
module Wrap {
  import opened Bytes
  import opened Ansi
  import opened AnsiSlice

  /** The columns taken by a gutter such as "  + ". */
  const GutterWidth := 4

  /** The narrowest continuation when a hanging indent is in use. */
  const MinContinuation := 10

  /** One physical line of the viewport. */
  datatype VisualLine = VisualLine(
    logicalIndex: int,
    segmentIndex: nat,
    gutter: Str,
    text: Str,
    diffStatus: Str)

  // ---------------------------------------------------------------------
  // strings.ReplaceAll and InjectBackground

  /** The parts of `s` between the leftmost non-overlapping occurrences of
      `pat`, as strings.Split returns them. */
  function SplitOn(s: Str, pat: Str): (parts: seq<Str>)
    requires pat != []
    ensures |parts| >= 1
    ensures forall k | 0 <= k < |parts| :: !Contains(parts[k], pat)
    decreases |s|
  {
    var k := Index(s, pat);
    if k < 0 then [s]
    else
      assert !Contains(s[..k], pat) by {
        if Contains(s[..k], pat) {
          OccursInPrefix(s, pat, k, Index(s[..k], pat));
        }
      }
      [s[..k]] + SplitOn(s[k + |pat|..], pat)
  }

  lemma OccursInPrefix(s: Str, t: Str, k: nat, j: int)
    requires k <= |s| && OccursAt(s[..k], t, j)
    ensures OccursAt(s, t, j)
  {
    assert s[..k][j..j + |t|] == s[j..j + |t|];
  }

  /** strings.Join. */
  function JoinWith(parts: seq<Str>, sep: Str): Str {
    if |parts| == 0 then []
    else if |parts| == 1 then parts[0]
    else parts[0] + sep + JoinWith(parts[1..], sep)
  }

  /** strings.ReplaceAll for a non-empty pattern: each leftmost occurrence,
      scanning forward, is replaced. */
  function ReplaceAll(s: Str, pat: Str, rep: Str): Str
    requires pat != []
    decreases |s|
  {
    var k := Index(s, pat);
    if k < 0 then s else s[..k] + rep + ReplaceAll(s[k + |pat|..], pat, rep)
  }

  /** Splitting on a pattern and joining with it gives the string back. */
  lemma {:induction false} SplitOnJoin(s: Str, pat: Str)
    requires pat != []
    ensures JoinWith(SplitOn(s, pat), pat) == s
    decreases |s|
  {
    var k := Index(s, pat);
    if k >= 0 {
      var t := s[k + |pat|..];
      assert SplitOn(s, pat) == [s[..k]] + SplitOn(t, pat);
      SplitOnJoin(t, pat);
      JoinCons(s[..k], SplitOn(t, pat), pat);
      SplitThree(s, k, k + |pat|);
    }
  }

  lemma SplitThree(s: Str, a: nat, b: nat)
    requires a <= b <= |s|
    ensures s == s[..a] + s[a..b] + s[b..]
  {
  }

  lemma JoinCons(p: Str, parts: seq<Str>, sep: Str)
    requires |parts| >= 1
    ensures JoinWith([p] + parts, sep) == p + sep + JoinWith(parts, sep)
  {
    assert ([p] + parts)[1..] == parts;
  }

  /** Replacing every occurrence is joining the parts with the replacement. */
  lemma {:induction false} ReplaceAllSplit(s: Str, pat: Str, rep: Str)
    requires pat != []
    ensures ReplaceAll(s, pat, rep) == JoinWith(SplitOn(s, pat), rep)
    decreases |s|
  {
    var k := Index(s, pat);
    if k >= 0 {
      var t := s[k + |pat|..];
      var head := s[..k];
      var tail := SplitOn(t, pat);
      ReplaceAllStep(s, pat, rep);
      ReplaceAllSplit(t, pat, rep);
      JoinCons(head, tail, rep);
    }
  }

  lemma ReplaceAllStep(s: Str, pat: Str, rep: Str)
    requires pat != [] && Index(s, pat) >= 0
    ensures var k := Index(s, pat);
      && ReplaceAll(s, pat, rep) == s[..k] + rep + ReplaceAll(s[k + |pat|..], pat, rep)
      && SplitOn(s, pat) == [s[..k]] + SplitOn(s[k + |pat|..], pat)
  {
  }

  /** InjectBackground: after every reset, and in front of everything, the
      background code is emitted again. With no background the line is
      unchanged, and a line without a reset just gets the background in
      front. */
  function InjectBackground(s: Str, bg: Str): (r: Str)
    ensures bg == [] ==> r == s
    ensures bg != [] ==> HasPrefix(r, bg) && (!Contains(s, Reset) ==> r == bg + s)
  {
    if bg == [] then s else bg + ReplaceAll(s, Reset, Reset + bg)
  }

  /** With no background the line is unchanged; otherwise the result is the
      background followed by the reset-free pieces of `s`, which joined with
      resets give `s` back, now joined with a reset and the background each. */
  lemma InjectBackgroundShape(s: Str, bg: Str)
    ensures bg == [] ==> InjectBackground(s, bg) == s
    ensures bg != [] ==>
      var parts := SplitOn(s, Reset);
      && JoinWith(parts, Reset) == s
      && (forall k | 0 <= k < |parts| :: !Contains(parts[k], Reset))
      && InjectBackground(s, bg) == bg + JoinWith(parts, Reset + bg)
  {
    if bg != [] {
      SplitOnJoin(s, Reset);
      ReplaceAllSplit(s, Reset, Reset + bg);
    }
  }

  // ---------------------------------------------------------------------
  // countLeadingSpaces

  /** The columns of the leading blanks: a space is one, a tab four. */
  function LeadingColumns(s: Str): nat
    decreases |s|
  {
    if s == [] then 0
    else if s[0] == Space then 1 + LeadingColumns(s[1..])
    else if s[0] == Tab then 4 + LeadingColumns(s[1..])
    else 0
  }

  /** countLeadingSpaces. Ranging over the runes of `s` and comparing each
      with ' ' and '\t' is the same as comparing bytes: a space or a tab is a
      one-byte rune, and no byte of a longer rune is either. */
  method CountLeadingSpaces(s: Str) returns (count: nat)
    ensures count == LeadingColumns(s)
  {
    count := 0;
    var i := 0;
    while i < |s|
      invariant i <= |s|
      invariant count + LeadingColumns(s[i..]) == LeadingColumns(s)
    {
      assert s[i..][1..] == s[i + 1..];
      if s[i] == Space {
        count := count + 1;
      } else if s[i] == Tab {
        count := count + 4;
      } else {
        break;
      }
      i := i + 1;
    }
  }

  /** The count is one per leading blank plus three more per leading tab, so
      it is zero exactly when `s` does not start with a blank. */
  lemma {:induction false} LeadingColumnsRun(s: Str)
    ensures var n := BlankRun(s);
      LeadingColumns(s) == n + 3 * multiset(s[..n])[Tab]
    ensures LeadingColumns(s) == 0 <==> (s == [] || !IsBlank(s[0]))
    decreases |s|
  {
    if s != [] && IsBlank(s[0]) {
      LeadingColumnsRun(s[1..]);
      var n := BlankRun(s);
      assert s[..n] == [s[0]] + s[1..][..n - 1];
    }
  }

  // ---------------------------------------------------------------------
  // wrapHighlightedLine

  /** The width clamp as written at the head of wrapHighlightedLine: only a
      width that leaves no content column at all is widened. */
  function ClampWidthAsWritten(maxWidth: int): (r: int)
    ensures r - GutterWidth >= 1
    ensures r == maxWidth || maxWidth <= GutterWidth
  {
    if maxWidth <= GutterWidth then GutterWidth + 10 else maxWidth
  }

  /** The clamp the wrapping loop needs: a width whose content column cannot
      hold the widest rune is widened the same way. */
  function ClampWidth(maxWidth: int): (r: int)
    ensures r - GutterWidth >= MaxRuneCols
    ensures r == maxWidth || maxWidth < GutterWidth + MaxRuneCols
  {
    if maxWidth < GutterWidth + MaxRuneCols then GutterWidth + 10 else maxWidth
  }

  /** The written clamp leaves the loop stuck: at width 5 the content column
      is one column wide, a raw line "\t" gets no hanging indent (half of one
      column is zero), and every pass over the line "\t" copies nothing,
      carries nothing and leaves "\t" over, so the loop never reaches its
      break. */
  lemma ClampStallsAsWritten(rw: RuneWidth)
    ensures var cw := ClampWidthAsWritten(5) - GutterWidth;
      var indent := LeadingColumns([Tab]);
      && cw == 1 && indent > cw / 2
      && (forall seg: nat :: Avail(cw, cw / 2, seg) == 1)
      && Slice([Tab], 1, rw) == Cut([], [Tab], [])
  {
    var s: Str := [Tab];
    assert !IsAnsiStart(s, 0);
    assert DecodeRune(s, 0) == Decoded(Tab as int, 1);
    assert TokenCols(s, 0, rw) == 4;
    assert Scan(s, 1, rw, 0, 0) == Stop(0, 0);
    assert Reach(s, 0, 0);
    assert EscBetween(s, 0, 0) == [];
    assert s[..0] == [] && s[0..] == s;
  }

  /** The corrected clamp always leaves room for the widest rune, and it
      agrees with the written one for widths up to the gutter and from the
      gutter plus the widest rune on; widths in between (5 to 7) are widened
      too, where the written clamp leaves 1 to 3 content columns. */
  lemma ClampWidthEnough(maxWidth: int)
    ensures ClampWidth(maxWidth) - GutterWidth >= MaxRuneCols
    ensures maxWidth <= GutterWidth || maxWidth >= GutterWidth + MaxRuneCols ==>
      ClampWidth(maxWidth) == ClampWidthAsWritten(maxWidth)
  {
  }

  /** The diff statuses a line can carry. */
  const Added: Str := B("added")
  const Deleted: Str := B("deleted")

  /** The gutter of the first segment, by diff status. */
  function FirstGutter(status: Str): Str {
    if status == Added then B("+ ")
    else if status == Deleted then B("- ")
    else [0xc2, 0xb7, Space]  // "· ", the middle dot in UTF-8
  }

  const ContGutter: Str := [Space, Space]

  function GutterFor(status: Str, seg: nat): Str {
    if seg == 0 then FirstGutter(status) else ContGutter
  }

  /** The hanging indent: the raw line's leading columns, at most half the
      content width. */
  function HangingIndent(rawLine: Str, contentWidth: int): nat {
    var maxIndent := if contentWidth / 2 < 0 then 0 else contentWidth / 2;
    if LeadingColumns(rawLine) > maxIndent then maxIndent else LeadingColumns(rawLine)
  }

  /** The columns available to segment `seg`. */
  function Avail(contentWidth: int, indent: nat, seg: nat): int {
    if seg > 0 && indent > 0 then
      (if contentWidth - indent < MinContinuation then MinContinuation else contentWidth - indent)
    else contentWidth
  }

  /** The text of segment `seg`: continuations get the hanging indent. */
  function Indented(indent: nat, seg: nat, content: Str): Str {
    if seg > 0 && indent > 0 then Spaces(indent) + content else content
  }

  /** One pass of the wrapping loop: the styles carried into it, the bytes
      of the line it copies for the first time, and what sliceANSIAware
      returned for it. */
  datatype Segment = Segment(carry: Str, copied: Str, cut: Cut)

  /** The passes of the wrapping loop from segment `seg` on, when the loop
      has `rest` of the line left and carries the styles `carry`. */
  function Segments(carry: Str, rest: Str, seg: nat, cw: int, indent: nat, rw: RuneWidth): (ps: seq<Segment>)
    requires cw >= MaxRuneCols && Escapes(carry)
    ensures |ps| >= 1 && ps[0].carry == carry
    decreases |carry| + |rest|
  {
    var s := carry + rest;
    var avail := Avail(cw, indent, seg);
    var c := Slice(s, avail, rw);
    SliceKeepsCarry(carry, rest, avail, rw);
    var p := Segment(carry, s[|carry|..CutIndex(s, avail, rw)], c);
    if c.remainder == [] then [p]
    else
      SliceProgress(s, avail, rw);
      [p] + Segments(c.activeAnsi, c.remainder, seg + 1, cw, indent, rw)
  }

  /** The visual line made from one pass. */
  function ToLine(p: Segment, seg: nat, logicalIndex: int, status: Str, indent: nat): VisualLine {
    VisualLine(logicalIndex, seg, GutterFor(status, seg), Indented(indent, seg, p.cut.content), status)
  }

  function Lines(ps: seq<Segment>, from: nat, logicalIndex: int, status: Str, indent: nat): (vs: seq<VisualLine>)
    ensures |vs| == |ps|
    decreases |ps|
  {
    if ps == [] then [] else [ToLine(ps[0], from, logicalIndex, status, indent)] + Lines(ps[1..], from + 1, logicalIndex, status, indent)
  }

  /** The content width left beside the gutter. */
  function ContentWidth(maxWidth: int): int {
    ClampWidth(maxWidth) - GutterWidth
  }

  /** The passes wrapHighlightedLine makes over a line. */
  function WrapPasses(line: Str, maxWidth: int, rawLine: Str, rw: RuneWidth): seq<Segment> {
    var cw := ContentWidth(maxWidth);
    Segments([], line, 0, cw, HangingIndent(rawLine, cw), rw)
  }

  /** wrapHighlightedLine, as the loop computes it: at least one visual
      line, the first being segment 0 of the line with its status gutter. */
  function WrapLine(line: Str, logicalIndex: int, maxWidth: int, status: Str, rawLine: Str, rw: RuneWidth): (vs: seq<VisualLine>)
    ensures |vs| >= 1
    ensures vs[0].logicalIndex == logicalIndex && vs[0].segmentIndex == 0
    ensures vs[0].diffStatus == status && vs[0].gutter == FirstGutter(status)
  {
    var cw := ContentWidth(maxWidth);
    Lines(WrapPasses(line, maxWidth, rawLine, rw), 0, logicalIndex, status, HangingIndent(rawLine, cw))
  }

  /** The visual lines `all` are `done` followed by the passes from segment
      `seg` on. */
  predicate WrapsTo(all: seq<VisualLine>, done: seq<VisualLine>, carry: Str, rest: Str, seg: nat,
                    cw: int, indent: nat, rw: RuneWidth, logicalIndex: int, status: Str)
    requires cw >= MaxRuneCols && Escapes(carry)
  {
    all == done + Lines(Segments(carry, rest, seg, cw, indent, rw), seg, logicalIndex, status, indent)
  }

  /** The first pass is sliceANSIAware on the carried styles and the rest of
      the line; the later passes start from what it carries and leaves. */
  lemma SegmentsHead(carry: Str, rest: Str, seg: nat, seg': nat, cw: int, indent: nat, rw: RuneWidth,
                     avail: int, content: Str, rest': Str, active: Str)
    requires cw >= MaxRuneCols && Escapes(carry) && seg' == seg + 1
    requires avail == Avail(cw, indent, seg) && Cut(content, rest', active) == Slice(carry + rest, avail, rw)
    ensures var ps := Segments(carry, rest, seg, cw, indent, rw);
      && ps[0].cut == Cut(content, rest', active)
      && (rest' == [] ==> |ps| == 1)
      && (rest' != [] ==>
            && Escapes(active) && |active| + |rest'| < |carry| + |rest|
            && ps[1..] == Segments(active, rest', seg', cw, indent, rw))
  {
    if rest' != [] {
      SliceProgress(carry + rest, avail, rw);
    }
  }

  lemma LinesHead(ps: seq<Segment>, from: nat, from': nat, logicalIndex: int, status: Str, indent: nat)
    requires ps != [] && from' == from + 1
    ensures Lines(ps, from, logicalIndex, status, indent)
         == [ToLine(ps[0], from, logicalIndex, status, indent)] + Lines(ps[1..], from', logicalIndex, status, indent)
  {
  }

  lemma AppendAssoc<T>(a: seq<T>, v: T, b: seq<T>)
    ensures a + ([v] + b) == (a + [v]) + b
  {
  }

  /** One pass of the loop: the visual line it appends, and what is left for
      the next passes. */
  lemma WrapStep(carry: Str, rest: Str, seg: nat, seg': nat, cw: int, indent: nat, rw: RuneWidth,
                 logicalIndex: int, status: Str, avail: int,
                 content: Str, rest': Str, active: Str, line: VisualLine,
                 all: seq<VisualLine>, done: seq<VisualLine>)
    requires cw >= MaxRuneCols && Escapes(carry)
    requires avail == Avail(cw, indent, seg) && Cut(content, rest', active) == Slice(carry + rest, avail, rw)
    requires line == VisualLine(logicalIndex, seg, GutterFor(status, seg), Indented(indent, seg, content), status)
    requires WrapsTo(all, done, carry, rest, seg, cw, indent, rw, logicalIndex, status)
    requires seg' == seg + 1
    ensures rest' == [] ==> all == done + [line]
    ensures rest' != [] ==>
      && Escapes(active) && |active| + |rest'| < |carry| + |rest|
      && WrapsTo(all, done + [line], active, rest', seg', cw, indent, rw, logicalIndex, status)
  {
    var ps := Segments(carry, rest, seg, cw, indent, rw);
    SegmentsHead(carry, rest, seg, seg', cw, indent, rw, avail, content, rest', active);
    LinesHead(ps, seg, seg', logicalIndex, status, indent);
    var tail := Lines(ps[1..], seg', logicalIndex, status, indent);
    assert ToLine(ps[0], seg, logicalIndex, status, indent) == line;
    AppendAssoc(done, line, tail);
    if rest' == [] {
      assert tail == [];
    }
  }

  lemma EmptyPrefix(s: Str)
    ensures [] + s == s
  {
  }

  /** Before the first pass nothing is done and nothing is carried. */
  lemma WrapStart(line: Str, logicalIndex: int, maxWidth: int, status: Str, rawLine: Str, rw: RuneWidth,
                  cw: int, indent: nat)
    requires cw == ContentWidth(maxWidth) && indent == HangingIndent(rawLine, cw)
    ensures cw >= MaxRuneCols
    ensures WrapLine(line, logicalIndex, maxWidth, status, rawLine, rw) == Lines(Segments([], line, 0, cw, indent, rw), 0, logicalIndex, status, indent)
  {
  }

  /** wrapHighlightedLine. */
  method WrapHighlightedLine(line: Str, logicalIndex: int, maxWidth: int, diffStatus: Str, rawLine: Str, rw: RuneWidth)
    returns (result: seq<VisualLine>)
    ensures result == WrapLine(line, logicalIndex, maxWidth, diffStatus, rawLine, rw)
  {
    var width := ClampWidth(maxWidth);
    var contentWidth := width - GutterWidth;
    var hangingIndent := CountLeadingSpaces(rawLine);
    var maxIndent := contentWidth / 2;
    if hangingIndent > maxIndent {
      hangingIndent := maxIndent;
    }
    WrapStart(line, logicalIndex, maxWidth, diffStatus, rawLine, rw, contentWidth, hangingIndent);
    result := WrapLoop(line, logicalIndex, contentWidth, hangingIndent, diffStatus, rw);
  }

  /** The slicing loop of wrapHighlightedLine: one visual line per pass. */
  method WrapLoop(line: Str, logicalIndex: int, contentWidth: int, hangingIndent: nat, diffStatus: Str, rw: RuneWidth)
    returns (result: seq<VisualLine>)
    requires contentWidth >= MaxRuneCols
    ensures result == Lines(Segments([], line, 0, contentWidth, hangingIndent, rw), 0, logicalIndex, diffStatus, hangingIndent)
  {
    var firstGutter := FirstGutter(diffStatus);
    var hangingIndentStr := Spaces(hangingIndent);
    ghost var target := Lines(Segments([], line, 0, contentWidth, hangingIndent, rw), 0, logicalIndex, diffStatus, hangingIndent);
    result := [];
    var remaining := line;
    var segmentIndex: nat := 0;
    var activeAnsi: Str := [];
    while true
      invariant Escapes(activeAnsi) && (segmentIndex == 0 ==> activeAnsi == [])
      invariant WrapsTo(target, result,
                        activeAnsi, remaining, segmentIndex, contentWidth, hangingIndent, rw, logicalIndex, diffStatus)
      decreases |activeAnsi| + |remaining|
    {
      ghost var carry, rest0 := activeAnsi, remaining;
      if activeAnsi != [] && segmentIndex > 0 {
        remaining := activeAnsi + remaining;
      } else {
        EmptyPrefix(remaining);
      }
      assert remaining == carry + rest0;
      var availWidth := contentWidth;
      if segmentIndex > 0 && hangingIndent > 0 {
        availWidth := contentWidth - hangingIndent;
        if availWidth < MinContinuation {
          availWidth := MinContinuation;
        }
      }
      var content, rest, newActiveAnsi := SliceAnsiAware(remaining, availWidth, rw);
      var gutter := ContGutter;
      if segmentIndex == 0 {
        gutter := firstGutter;
      }
      var text := content;
      if segmentIndex > 0 && hangingIndent > 0 {
        text := hangingIndentStr + content;
      }
      var visual := VisualLine(logicalIndex, segmentIndex, gutter, text, diffStatus);
      var next := segmentIndex + 1;
      WrapStep(carry, rest0, segmentIndex, next, contentWidth, hangingIndent, rw,
               logicalIndex, diffStatus, availWidth, content, rest, newActiveAnsi, visual,
               target, result);
      result := result + [visual];
      if rest == [] {
        break;
      }
      remaining := rest;
      activeAnsi := newActiveAnsi;
      segmentIndex := next;
    }
  }

  // ---------------------------------------------------------------------
  // What the passes of the loop compute

  /** The reset that closes a segment whose styles are still open. */
  function Closing(open: Str): Str {
    if open == [] then [] else Reset
  }

  /** The bytes of the line each pass copies for the first time, in order. */
  function CopiedText(ps: seq<Segment>): Str
    decreases |ps|
  {
    if ps == [] then [] else ps[0].copied + CopiedText(ps[1..])
  }

  /** One pass: its content is the carried styles, the bytes it copies and a
      closing reset when styles are open; those bytes and what is left over
      make up the rest of the line; and the copied part fits the columns
      available to the pass. */
  lemma SegmentHead(carry: Str, rest: Str, seg: nat, cw: int, indent: nat, rw: RuneWidth)
    requires cw >= MaxRuneCols && Escapes(carry)
    ensures var p := Segments(carry, rest, seg, cw, indent, rw)[0];
      && p.cut.content == carry + p.copied + Closing(p.cut.activeAnsi)
      && rest == p.copied + p.cut.remainder
      && ColsFrom(carry + p.copied, 0, rw) <= Avail(cw, indent, seg)
  {
    var s := carry + rest;
    var avail := Avail(cw, indent, seg);
    var k := CutIndex(s, avail, rw);
    SliceKeepsCarry(carry, rest, avail, rw);
    SliceWidth(s, avail, rw);
    SliceShape(s, avail, rw);
    SplitAfter(carry, rest, k);
  }

  /** Slice cuts at CutIndex: the content is the bytes before it, closed when
      styles are open, and the remainder the bytes after it. */
  lemma SliceShape(s: Str, maxW: int, rw: RuneWidth)
    ensures var c := Slice(s, maxW, rw);
      var k := CutIndex(s, maxW, rw);
      && c.content == s[..k] + Closing(c.activeAnsi)
      && c.remainder == s[k..]
  {
  }

  lemma SplitAfter(a: Str, b: Str, k: nat)
    requires |a| <= k <= |a| + |b|
    ensures (a + b)[..k] == a + (a + b)[|a|..k]
    ensures b == (a + b)[|a|..k] + (a + b)[k..]
  {
    var s := a + b;
    assert s[|a|..] == b;
    assert s[|a|..] == s[|a|..k] + s[k..];
  }

  /** The passes after the first start from what the first carries and
      leaves over; the last pass leaves nothing. */
  lemma SegmentsNext(carry: Str, rest: Str, seg: nat, cw: int, indent: nat, rw: RuneWidth)
    requires cw >= MaxRuneCols && Escapes(carry)
    ensures var ps := Segments(carry, rest, seg, cw, indent, rw);
      && (|ps| == 1 <==> ps[0].cut.remainder == [])
      && (|ps| > 1 ==>
            && Escapes(ps[0].cut.activeAnsi)
            && ps[1..] == Segments(ps[0].cut.activeAnsi, ps[0].cut.remainder, seg + 1, cw, indent, rw))
  {
    var ps := Segments(carry, rest, seg, cw, indent, rw);
    if ps[0].cut.remainder != [] {
      SliceProgress(carry + rest, Avail(cw, indent, seg), rw);
    }
  }

  /** Wrapping loses nothing and repeats nothing: the bytes the passes copy
      for the first time are exactly the rest of the line, in order. */
  lemma {:induction false} SegmentsRoundTrip(carry: Str, rest: Str, seg: nat, cw: int, indent: nat, rw: RuneWidth)
    requires cw >= MaxRuneCols && Escapes(carry)
    ensures CopiedText(Segments(carry, rest, seg, cw, indent, rw)) == rest
    decreases |carry| + |rest|
  {
    var ps := Segments(carry, rest, seg, cw, indent, rw);
    SegmentHead(carry, rest, seg, cw, indent, rw);
    SegmentsNext(carry, rest, seg, cw, indent, rw);
    var c := ps[0].cut;
    if |ps| > 1 {
      SliceProgress(carry + rest, Avail(cw, indent, seg), rw);
      SegmentsRoundTrip(c.activeAnsi, c.remainder, seg + 1, cw, indent, rw);
    } else {
      assert ps[1..] == [];
    }
  }

  /** Every pass, not only the first, is its carried styles, its new bytes
      and a closing reset, and fits the columns available to it. */
  lemma {:induction false} SegmentsFit(carry: Str, rest: Str, seg: nat, cw: int, indent: nat, rw: RuneWidth)
    requires cw >= MaxRuneCols && Escapes(carry)
    ensures var ps := Segments(carry, rest, seg, cw, indent, rw);
      forall k | 0 <= k < |ps| :: PassFits(ps[k], seg + k, cw, indent, rw)
    decreases |carry| + |rest|
  {
    var ps := Segments(carry, rest, seg, cw, indent, rw);
    SegmentHead(carry, rest, seg, cw, indent, rw);
    SegmentsNext(carry, rest, seg, cw, indent, rw);
    assert PassFits(ps[0], seg, cw, indent, rw);
    if |ps| > 1 {
      var c := ps[0].cut;
      SliceProgress(carry + rest, Avail(cw, indent, seg), rw);
      SegmentsFit(c.activeAnsi, c.remainder, seg + 1, cw, indent, rw);
      FitsShift(ps, seg, cw, indent, rw);
    }
  }

  /** Passes that fit from the second slot on, after a first pass that fits,
      fit from the first slot on. */
  lemma FitsShift(ps: seq<Segment>, seg: nat, cw: int, indent: nat, rw: RuneWidth)
    requires |ps| >= 1 && PassFits(ps[0], seg, cw, indent, rw)
    requires forall k | 0 <= k < |ps[1..]| :: PassFits(ps[1..][k], seg + 1 + k, cw, indent, rw)
    ensures forall k | 0 <= k < |ps| :: PassFits(ps[k], seg + k, cw, indent, rw)
  {
    forall k | 1 <= k < |ps|
      ensures PassFits(ps[k], seg + k, cw, indent, rw)
    {
      assert ps[k] == ps[1..][k - 1];
      assert seg + 1 + (k - 1) == seg + k;
    }
  }

  /** A pass is its carried styles, its new bytes and a closing reset, and
      fits the columns available in its slot. */
  predicate PassFits(p: Segment, slot: nat, cw: int, indent: nat, rw: RuneWidth) {
    && p.cut.content == p.carry + p.copied + Closing(p.cut.activeAnsi)
    && ColsFrom(p.carry + p.copied, 0, rw) <= Avail(cw, indent, slot)
  }

  /** The first pass carries in the given styles, each later pass the styles
      left open by the one before, and only the last pass leaves nothing
      over. */
  lemma {:induction false} SegmentsChain(carry: Str, rest: Str, seg: nat, cw: int, indent: nat, rw: RuneWidth)
    requires cw >= MaxRuneCols && Escapes(carry)
    ensures var ps := Segments(carry, rest, seg, cw, indent, rw);
      && ps[0].carry == carry
      && (forall k | 0 <= k < |ps| :: ps[k].cut.remainder == [] <==> k == |ps| - 1)
      && (forall k | 0 <= k < |ps| - 1 :: ps[k + 1].carry == ps[k].cut.activeAnsi)
    decreases |carry| + |rest|
  {
    var ps := Segments(carry, rest, seg, cw, indent, rw);
    SegmentsNext(carry, rest, seg, cw, indent, rw);
    if |ps| > 1 {
      var c := ps[0].cut;
      SliceProgress(carry + rest, Avail(cw, indent, seg), rw);
      SegmentsChain(c.activeAnsi, c.remainder, seg + 1, cw, indent, rw);
      forall k | 1 <= k < |ps|
        ensures ps[k] == ps[1..][k - 1]
      {
      }
    }
  }

  lemma {:induction false} LinesAt(ps: seq<Segment>, from: nat, logicalIndex: int, status: Str, indent: nat)
    ensures forall k | 0 <= k < |ps| ::
      Lines(ps, from, logicalIndex, status, indent)[k] == ToLine(ps[k], from + k, logicalIndex, status, indent)
    decreases |ps|
  {
    if ps != [] {
      LinesAt(ps[1..], from + 1, logicalIndex, status, indent);
    }
  }

  /** The segments of one line: at least one; numbered 0, 1, 2, ...; all
      with the line's index and diff status; the first with the status
      gutter and the rest with a blank one. The hanging indent is the raw
      line's leading columns capped at half the content width, and a
      continuation that is indented starts with exactly that indent and has
      at least ten columns for its content. */
  lemma WrapLineShape(line: Str, logicalIndex: int, maxWidth: int, status: Str, rawLine: Str, rw: RuneWidth)
    ensures var vs := WrapLine(line, logicalIndex, maxWidth, status, rawLine, rw);
      var cw := ContentWidth(maxWidth);
      var indent := HangingIndent(rawLine, cw);
      && |vs| >= 1
      && cw >= MaxRuneCols
      && indent <= cw / 2 && indent <= LeadingColumns(rawLine)
      && (LeadingColumns(rawLine) <= cw / 2 ==> indent == LeadingColumns(rawLine))
      && (forall k | 0 <= k < |vs| ::
            && vs[k].logicalIndex == logicalIndex && vs[k].segmentIndex == k
            && vs[k].diffStatus == status
            && vs[k].gutter == (if k == 0 then FirstGutter(status) else ContGutter))
      && (forall k | 0 < k < |vs| && indent > 0 ::
            && HasPrefix(vs[k].text, Spaces(indent))
            && Avail(cw, indent, k) >= MinContinuation)
  {
    var cw := ContentWidth(maxWidth);
    var indent := HangingIndent(rawLine, cw);
    var ps := WrapPasses(line, maxWidth, rawLine, rw);
    LinesAt(ps, 0, logicalIndex, status, indent);
    var vs := WrapLine(line, logicalIndex, maxWidth, status, rawLine, rw);
    forall k | 0 < k < |vs| && indent > 0
      ensures HasPrefix(vs[k].text, Spaces(indent))
    {
      assert vs[k].text == Spaces(indent) + ps[k].cut.content;
    }
  }

  /** The segments of one line put it back together: the bytes each copies
      for the first time are the whole line, in order, and each segment's
      text is its indent, the styles carried into it, those bytes and a
      closing reset when styles are still open; the styles carried into a
      segment are the ones the previous segment left open; and each
      segment's copied part fits the columns available to it. */
  lemma WrapLineRoundTrip(line: Str, logicalIndex: int, maxWidth: int, status: Str, rawLine: Str, rw: RuneWidth)
    ensures var ps := WrapPasses(line, maxWidth, rawLine, rw);
      var vs := WrapLine(line, logicalIndex, maxWidth, status, rawLine, rw);
      var cw := ContentWidth(maxWidth);
      var indent := HangingIndent(rawLine, cw);
      && |vs| == |ps|
      && CopiedText(ps) == line
      && ps[0].carry == []
      && (forall k | 0 <= k < |ps| ::
            && vs[k].text == Indented(indent, k, ps[k].carry + ps[k].copied + Closing(ps[k].cut.activeAnsi))
            && ColsFrom(ps[k].carry + ps[k].copied, 0, rw) <= Avail(cw, indent, k))
      && (forall k | 0 <= k < |ps| - 1 :: ps[k + 1].carry == ps[k].cut.activeAnsi)
  {
    var cw := ContentWidth(maxWidth);
    var indent := HangingIndent(rawLine, cw);
    var ps := WrapPasses(line, maxWidth, rawLine, rw);
    LinesAt(ps, 0, logicalIndex, status, indent);
    SegmentsRoundTrip([], line, 0, cw, indent, rw);
    SegmentsFit([], line, 0, cw, indent, rw);
    SegmentsChain([], line, 0, cw, indent, rw);
  }

  // ---------------------------------------------------------------------
  // wrapAllLines

  /** The diff status of 1-based line `n`, or "" when it has none. */
  function StatusOf(diffLines: map<int, Str>, n: int): Str {
    if n in diffLines then diffLines[n] else []
  }

  /** The raw line at `i`, or "" when there is none. */
  function RawAt(rawLines: seq<Str>, i: nat): Str {
    if i < |rawLines| then rawLines[i] else []
  }

  /** The segments of each highlighted line, line by line. */
  function LineGroups(highlighted: seq<Str>, rawLines: seq<Str>, diffLines: map<int, Str>, maxWidth: int,
                      rw: RuneWidth): (gs: seq<seq<VisualLine>>)
    ensures |gs| == |highlighted|
  {
    seq(|highlighted|, i requires 0 <= i < |highlighted| =>
      WrapLine(highlighted[i], i, maxWidth, StatusOf(diffLines, i + 1), RawAt(rawLines, i), rw))
  }

  /** The groups one after the other. */
  function Flatten<T>(gs: seq<seq<T>>): seq<T>
    decreases |gs|
  {
    if gs == [] then [] else Flatten(gs[..|gs| - 1]) + gs[|gs| - 1]
  }

  /** wrapAllLines, as the loop computes it: no visual line exactly when
      there is no line. */
  function WrapAll(highlighted: seq<Str>, rawLines: seq<Str>, diffLines: map<int, Str>, maxWidth: int,
                   rw: RuneWidth): (r: seq<VisualLine>)
    ensures r == [] <==> highlighted == []
  {
    var gs := LineGroups(highlighted, rawLines, diffLines, maxWidth, rw);
    assert gs != [] ==> |gs[|gs| - 1]| >= 1;
    Flatten(gs)
  }

  lemma FlattenSnoc<T>(gs: seq<seq<T>>, i: nat)
    requires i < |gs|
    ensures Flatten(gs[..i + 1]) == Flatten(gs[..i]) + gs[i]
  {
    assert gs[..i + 1][..i] == gs[..i];
  }

  /** wrapAllLines. */
  method WrapAllLines(highlighted: seq<Str>, rawLines: seq<Str>, diffLines: map<int, Str>, maxWidth: int, rw: RuneWidth)
    returns (result: seq<VisualLine>)
    ensures result == WrapAll(highlighted, rawLines, diffLines, maxWidth, rw)
  {
    ghost var gs := LineGroups(highlighted, rawLines, diffLines, maxWidth, rw);
    result := [];
    for i := 0 to |highlighted|
      invariant result == Flatten(gs[..i])
    {
      var line := highlighted[i];
      var lineNum := i + 1;
      var diffStatus: Str := [];
      if lineNum in diffLines {
        diffStatus := diffLines[lineNum];
      }
      var rawLine: Str := [];
      if i < |rawLines| {
        rawLine := rawLines[i];
      }
      var wrapped := WrapHighlightedLine(line, i, maxWidth, diffStatus, rawLine, rw);
      FlattenSnoc(gs, i);
      result := result + wrapped;
    }
    assert gs[..|highlighted|] == gs;
  }

  /** Groups in which group `i` is non-empty, every element of it carries
      index `i` and the status of 1-based line i + 1, and it opens with
      segment 0. */
  ghost predicate Grouped(gs: seq<seq<VisualLine>>, diffLines: map<int, Str>) {
    forall i | 0 <= i < |gs| ::
      && |gs[i]| >= 1 && gs[i][0].segmentIndex == 0
      && (forall j | 0 <= j < |gs[i]| ::
            gs[i][j].logicalIndex == i && gs[i][j].diffStatus == StatusOf(diffLines, i + 1))
  }

  /** Flattened, such groups come in line order: each element belongs to a
      line below |gs| and carries its status, indices never go down, and
      line `i`'s group, opening with its segment 0, sits right after the
      groups before it. */
  lemma FlattenOrder(gs: seq<seq<VisualLine>>, diffLines: map<int, Str>)
    requires Grouped(gs, diffLines)
    ensures var r := Flatten(gs);
      && (forall j | 0 <= j < |r| ::
            0 <= r[j].logicalIndex < |gs| && r[j].diffStatus == StatusOf(diffLines, r[j].logicalIndex + 1))
      && (forall j, j' | 0 <= j < j' < |r| :: r[j].logicalIndex <= r[j'].logicalIndex)
      && (forall i | 0 <= i < |gs| ::
            var at := |Flatten(gs[..i])|;
            at < |r| && r[at].logicalIndex == i && r[at].segmentIndex == 0)
  {
    FlattenMembers(gs, diffLines);
    FlattenSorted(gs, diffLines);
    FlattenStarts(gs, diffLines);
  }

  /** The groups before the last one are groups too. */
  lemma GroupedFront(gs: seq<seq<VisualLine>>, diffLines: map<int, Str>)
    requires gs != [] && Grouped(gs, diffLines)
    ensures Grouped(gs[..|gs| - 1], diffLines)
  {
    var front := gs[..|gs| - 1];
    forall i | 0 <= i < |front| ensures front[i] == gs[i] { }
  }

  /** Each flattened element belongs to a line below |gs| and carries its
      status. */
  lemma {:induction false} FlattenMembers(gs: seq<seq<VisualLine>>, diffLines: map<int, Str>)
    requires Grouped(gs, diffLines)
    ensures var r := Flatten(gs);
      forall j | 0 <= j < |r| ::
        0 <= r[j].logicalIndex < |gs| && r[j].diffStatus == StatusOf(diffLines, r[j].logicalIndex + 1)
    decreases |gs|
  {
    if gs != [] {
      var m := |gs| - 1;
      var front := gs[..m];
      GroupedFront(gs, diffLines);
      FlattenMembers(front, diffLines);
      assert forall j | 0 <= j < |Flatten(front)| ::
        0 <= Flatten(front)[j].logicalIndex < |front|
        && Flatten(front)[j].diffStatus == StatusOf(diffLines, Flatten(front)[j].logicalIndex + 1);
      var a := Flatten(front);
      var r := a + gs[m];
      assert Flatten(gs) == r;
      forall j | 0 <= j < |r|
        ensures 0 <= r[j].logicalIndex < |gs| && r[j].diffStatus == StatusOf(diffLines, r[j].logicalIndex + 1)
      {
        if j < |a| {
          assert r[j] == a[j];
        } else {
          var k := j - |a|;
          assert 0 <= k < |gs[m]| && r[j] == gs[m][k];
        }
      }
    }
  }

  /** Line indices never go down along the flattened groups. */
  lemma {:induction false} FlattenSorted(gs: seq<seq<VisualLine>>, diffLines: map<int, Str>)
    requires Grouped(gs, diffLines)
    ensures var r := Flatten(gs);
      forall j, j' | 0 <= j < j' < |r| :: r[j].logicalIndex <= r[j'].logicalIndex
    decreases |gs|
  {
    if gs != [] {
      var m := |gs| - 1;
      GroupedFront(gs, diffLines);
      var front := gs[..m];
      FlattenSorted(front, diffLines);
      FlattenMembers(front, diffLines);
      assert forall j, j' | 0 <= j < j' < |Flatten(front)| ::
        Flatten(front)[j].logicalIndex <= Flatten(front)[j'].logicalIndex;
      assert forall j | 0 <= j < |Flatten(front)| :: Flatten(front)[j].logicalIndex < |front|;
      var a := Flatten(front);
      var r := a + gs[m];
      assert Flatten(gs) == r;
      forall j, j' | 0 <= j < j' < |r|
        ensures r[j].logicalIndex <= r[j'].logicalIndex
      {
        if j' < |a| {
          assert r[j] == a[j] && r[j'] == a[j'];
        } else if j < |a| {
          assert r[j] == a[j] && r[j'] == gs[m][j' - |a|];
        } else {
          assert r[j] == gs[m][j - |a|] && r[j'] == gs[m][j' - |a|];
        }
      }
    }
  }

  /** Line `i`'s group, opening with its segment 0, sits right after the
      groups before it. */
  lemma {:induction false} FlattenStarts(gs: seq<seq<VisualLine>>, diffLines: map<int, Str>)
    requires Grouped(gs, diffLines)
    ensures var r := Flatten(gs);
      forall i | 0 <= i < |gs| ::
        var at := |Flatten(gs[..i])|;
        at < |r| && r[at].logicalIndex == i && r[at].segmentIndex == 0
    decreases |gs|
  {
    if gs != [] {
      var m := |gs| - 1;
      var front := gs[..m];
      GroupedFront(gs, diffLines);
      FlattenStarts(front, diffLines);
      var a := Flatten(front);
      var r := a + gs[m];
      forall i | 0 <= i < |gs|
        ensures var at := |Flatten(gs[..i])|;
          at < |r| && r[at].logicalIndex == i && r[at].segmentIndex == 0
      {
        if i < m {
          assert gs[..i] == front[..i];
          assert r[|Flatten(gs[..i])|] == a[|Flatten(gs[..i])|];
        } else {
          assert gs[..i] == front;
          assert r[|a|] == gs[m][0];
        }
      }
    }
  }

  /** The segments wrapAllLines collects form such groups, one per line. */
  lemma LineGroupsGrouped(highlighted: seq<Str>, rawLines: seq<Str>, diffLines: map<int, Str>, maxWidth: int, rw: RuneWidth)
    ensures Grouped(LineGroups(highlighted, rawLines, diffLines, maxWidth, rw), diffLines)
  {
    var gs: seq<seq<VisualLine>> := LineGroups(highlighted, rawLines, diffLines, maxWidth, rw);
    forall i | 0 <= i < |gs|
      ensures |gs[i]| >= 1 && gs[i][0].segmentIndex == 0
      ensures forall j | 0 <= j < |gs[i]| ::
        gs[i][j].logicalIndex == i && gs[i][j].diffStatus == StatusOf(diffLines, i + 1)
    {
      var status := StatusOf(diffLines, i + 1);
      assert gs[i] == WrapLine(highlighted[i], i, maxWidth, status, RawAt(rawLines, i), rw);
      WrapLineShape(highlighted[i], i, maxWidth, status, RawAt(rawLines, i), rw);
    }
  }

  /** Group `i` sits in the flattening right after the groups before it. */
  lemma {:induction false} FlattenSlice<T>(gs: seq<seq<T>>, i: nat)
    requires i < |gs|
    ensures var at := |Flatten(gs[..i])|;
      at + |gs[i]| <= |Flatten(gs)| && Flatten(gs)[at..at + |gs[i]|] == gs[i]
    decreases |gs|
  {
    var m := |gs| - 1;
    if i < m {
      FlattenSlice(gs[..m], i);
      assert gs[..m][..i] == gs[..i];
    } else {
      assert gs[..i] == gs[..m];
    }
  }

  /** Line `i` has its segment 0 among the visual lines `r`. */
  ghost predicate OpensLine(r: seq<VisualLine>, i: int) {
    exists j | 0 <= j < |r| :: r[j].logicalIndex == i && r[j].segmentIndex == 0
  }

  /** wrapAllLines emits, in order of increasing line index, the segments of
      every highlighted line: each segment belongs to a line of the input and
      carries the status of its 1-based line number, every line opens with
      its segment 0, and a line with no raw line gets no hanging indent. */
  lemma WrapAllOrder(highlighted: seq<Str>, rawLines: seq<Str>, diffLines: map<int, Str>, maxWidth: int, rw: RuneWidth)
    ensures var r := WrapAll(highlighted, rawLines, diffLines, maxWidth, rw);
      && (forall j | 0 <= j < |r| ::
            0 <= r[j].logicalIndex < |highlighted| && r[j].diffStatus == StatusOf(diffLines, r[j].logicalIndex + 1))
      && (forall j, j' | 0 <= j < j' < |r| :: r[j].logicalIndex <= r[j'].logicalIndex)
      && (forall i | 0 <= i < |highlighted| :: OpensLine(r, i))
      && (forall j | 0 <= j < |r| :: BareText(r[j], highlighted, rawLines, maxWidth, rw))
  {
    WrapAllGrouped(highlighted, rawLines, diffLines, maxWidth, rw);
    WrapAllBare(highlighted, rawLines, diffLines, maxWidth, rw);
  }

  /** The ordering part of WrapAllOrder. */
  lemma WrapAllGrouped(highlighted: seq<Str>, rawLines: seq<Str>, diffLines: map<int, Str>, maxWidth: int, rw: RuneWidth)
    ensures var r := WrapAll(highlighted, rawLines, diffLines, maxWidth, rw);
      && (forall j | 0 <= j < |r| ::
            0 <= r[j].logicalIndex < |highlighted| && r[j].diffStatus == StatusOf(diffLines, r[j].logicalIndex + 1))
      && (forall j, j' | 0 <= j < j' < |r| :: r[j].logicalIndex <= r[j'].logicalIndex)
      && (forall i | 0 <= i < |highlighted| :: OpensLine(r, i))
  {
    var gs := LineGroups(highlighted, rawLines, diffLines, maxWidth, rw);
    LineGroupsGrouped(highlighted, rawLines, diffLines, maxWidth, rw);
    FlattenOrder(gs, diffLines);
    var r := Flatten(gs);
    assert WrapAll(highlighted, rawLines, diffLines, maxWidth, rw) == r && |gs| == |highlighted|;
    assert forall j | 0 <= j < |Flatten(gs)| ::
      0 <= Flatten(gs)[j].logicalIndex < |gs| && Flatten(gs)[j].diffStatus == StatusOf(diffLines, Flatten(gs)[j].logicalIndex + 1);
    forall i | 0 <= i < |highlighted|
      ensures OpensLine(r, i)
    {
      var at := |Flatten(gs[..i])|;
      assert at < |r| && r[at].logicalIndex == i && r[at].segmentIndex == 0;
    }
  }

  /** No visual line of a line without a raw line is indented. */
  lemma WrapAllBare(highlighted: seq<Str>, rawLines: seq<Str>, diffLines: map<int, Str>, maxWidth: int, rw: RuneWidth)
    ensures var r := WrapAll(highlighted, rawLines, diffLines, maxWidth, rw);
      forall j | 0 <= j < |r| :: BareText(r[j], highlighted, rawLines, maxWidth, rw)
  {
    forall j | 0 <= j < |WrapAll(highlighted, rawLines, diffLines, maxWidth, rw)|
      ensures BareText(WrapAll(highlighted, rawLines, diffLines, maxWidth, rw)[j], highlighted, rawLines, maxWidth, rw)
    {
      NoRawNoIndent(highlighted, rawLines, diffLines, maxWidth, rw, j);
    }
  }

  /** A visual line of a line with no raw line is its pass's text with no
      indent in front. */
  ghost predicate BareText(v: VisualLine, highlighted: seq<Str>, rawLines: seq<Str>, maxWidth: int, rw: RuneWidth) {
    |rawLines| <= v.logicalIndex < |highlighted| ==>
      var ps := WrapPasses(highlighted[v.logicalIndex], maxWidth, [], rw);
      var k := v.segmentIndex;
      k < |ps| && v.text == ps[k].carry + ps[k].copied + Closing(ps[k].cut.activeAnsi)
  }

  lemma NoRawNoIndent(highlighted: seq<Str>, rawLines: seq<Str>, diffLines: map<int, Str>, maxWidth: int, rw: RuneWidth, j: nat)
    requires j < |WrapAll(highlighted, rawLines, diffLines, maxWidth, rw)|
    ensures BareText(WrapAll(highlighted, rawLines, diffLines, maxWidth, rw)[j], highlighted, rawLines, maxWidth, rw)
  {
    var gs := LineGroups(highlighted, rawLines, diffLines, maxWidth, rw);
    assert WrapAll(highlighted, rawLines, diffLines, maxWidth, rw) == Flatten(gs);
    var m, k := FlattenAt(gs, j);
    GroupBare(highlighted, rawLines, diffLines, maxWidth, rw, m);
    assert BareText(gs[m][k], highlighted, rawLines, maxWidth, rw);
  }

  /** Every segment of line m has bare text when line m has no raw line. */
  lemma GroupBare(highlighted: seq<Str>, rawLines: seq<Str>, diffLines: map<int, Str>, maxWidth: int, rw: RuneWidth, m: nat)
    requires m < |highlighted|
    ensures var g := LineGroups(highlighted, rawLines, diffLines, maxWidth, rw)[m];
      forall k | 0 <= k < |g| :: BareText(g[k], highlighted, rawLines, maxWidth, rw)
  {
    var status := StatusOf(diffLines, m + 1);
    var g := WrapLine(highlighted[m], m, maxWidth, status, RawAt(rawLines, m), rw);
    assert LineGroups(highlighted, rawLines, diffLines, maxWidth, rw)[m] == g;
    forall k | 0 <= k < |g|
      ensures BareText(g[k], highlighted, rawLines, maxWidth, rw)
    {
      SegmentNumbered(highlighted[m], m, maxWidth, status, RawAt(rawLines, m), rw, k);
      if |rawLines| <= m {
        assert RawAt(rawLines, m) == [];
        UnindentedText(highlighted[m], m, maxWidth, status, rw, k);
      }
    }
  }

  /** Segment k of a wrapped line is numbered k and belongs to that line. */
  lemma SegmentNumbered(line: Str, logicalIndex: int, maxWidth: int, status: Str, rawLine: Str, rw: RuneWidth, k: nat)
    requires k < |WrapLine(line, logicalIndex, maxWidth, status, rawLine, rw)|
    ensures var v := WrapLine(line, logicalIndex, maxWidth, status, rawLine, rw)[k];
      v.logicalIndex == logicalIndex && v.segmentIndex == k
  {
    WrapLineShape(line, logicalIndex, maxWidth, status, rawLine, rw);
  }

  /** With no raw line, segment k's text is its pass's text, unindented. */
  lemma UnindentedText(line: Str, logicalIndex: int, maxWidth: int, status: Str, rw: RuneWidth, k: nat)
    requires k < |WrapLine(line, logicalIndex, maxWidth, status, [], rw)|
    ensures var ps := WrapPasses(line, maxWidth, [], rw);
      k < |ps| && WrapLine(line, logicalIndex, maxWidth, status, [], rw)[k].text
        == ps[k].carry + ps[k].copied + Closing(ps[k].cut.activeAnsi)
  {
    WrapLineRoundTrip(line, logicalIndex, maxWidth, status, [], rw);
    assert HangingIndent([], ContentWidth(maxWidth)) == 0;
  }

  /** Every member of the flattening is a member of one of the groups. */
  lemma {:induction false} FlattenAt<T>(gs: seq<seq<T>>, j: nat) returns (m: nat, k: nat)
    requires j < |Flatten(gs)|
    ensures m < |gs| && k < |gs[m]| && Flatten(gs)[j] == gs[m][k]
    decreases |gs|
  {
    var n := |gs| - 1;
    var a := Flatten(gs[..n]);
    assert Flatten(gs) == a + gs[n];
    if j < |a| {
      m, k := FlattenAt(gs[..n], j);
      assert gs[..n][m] == gs[m];
    } else {
      m, k := n, j - |a|;
    }
  }
}
