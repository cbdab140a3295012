/** The text lines of the markdown renderer: headings, list items, quotes
    and plain text, with their inline markup. */
module MarkdownText {
  import opened Bytes
  import opened Markdown

  /** The quote bar as the source spells it: the bytes of "▌ " read as
      Latin-1 and encoded again as UTF-8 (U+00E2, U+2013, U+0152), then a
      space. */
  const QuoteBar: Str := [0xc3, 0xa2, 0xe2, 0x80, 0x93, 0xc5, 0x92, Space]

  /** The heading style of a level: levels one and two have their own, any
      deeper level shares the third. */
  function HeadingStyle(level: nat, st: MdStyle): Str -> Str {
    if level == 1 then st.h1 else if level == 2 then st.h2 else st.h3
  }

  /** renderMarkdownTextLine: the leading blanks are kept, then the line is
      a heading, a list item, a quote or plain text, each with its inline
      markup rendered; a blank line renders as nothing. */
  function TextLine(line: Str, st: MdStyle): (r: Str)
    ensures line[BlankRun(line)..] == [] ==> r == []
    ensures line[BlankRun(line)..] != [] ==> HasPrefix(r, line[..BlankRun(line)])
  {
    var n := BlankRun(line);
    var content := line[n..];
    if content == [] then []
    else if HeadingOf(content).level > 0 then
      var h := HeadingOf(content);
      line[..n] + HeadingStyle(h.level, st)(Inline(h.body, st))
    else if ListItemOf(content).Some? then
      var item := ListItemOf(content).value;
      line[..n] + st.bullet(item.bullet) + [Space] + Inline(item.body, st)
    else if content[0] == Greater then
      line[..n] + st.ital(QuoteBar) + Inline(TrimPrefixByte(content[1..], Space), st)
    else line[..n] + Inline(content, st)
  }

  /** styleHeading. */
  method StyleHeading(level: nat, body: Str, st: MdStyle) returns (r: Str)
    ensures r == HeadingStyle(level, st)(Inline(body, st))
  {
    var rendered := RenderInlineMarkdown(body, st);
    if level == 1 {
      r := st.h1(rendered);
    } else if level == 2 {
      r := st.h2(rendered);
    } else {
      r := st.h3(rendered);
    }
  }

  /** renderMarkdownTextLine. */
  method RenderTextLine(line: Str, st: MdStyle) returns (r: Str)
    ensures r == TextLine(line, st)
  {
    var leading := LeadingWhitespace(line);
    var content := line[|leading|..];
    if content == [] {
      return [];
    }
    var level, body := ParseHeading(content);
    if level > 0 {
      var heading := StyleHeading(level, body, st);
      return leading + heading;
    }
    var bullet, itemBody, ok := ParseListItem(content);
    if ok {
      var rendered := RenderInlineMarkdown(itemBody, st);
      return leading + st.bullet(bullet) + [Space] + rendered;
    }
    if content[0] == Greater {
      var quoted := TrimPrefixByte(content[1..], Space);
      var rendered := RenderInlineMarkdown(quoted, st);
      return leading + st.ital(QuoteBar) + rendered;
    }
    var rendered := RenderInlineMarkdown(content, st);
    return leading + rendered;
  }

  /** A line of blanks renders as nothing, and a line whose text opens with
      none of '#', '-', '*', '+', '>' or a digit and holds no inline markup
      renders as itself, leading blanks included. */
  lemma TextLinePlain(line: Str, st: MdStyle)
    ensures (forall k | 0 <= k < |line| :: IsBlank(line[k])) ==> TextLine(line, st) == []
    ensures var content := line[BlankRun(line)..];
      content != [] && content[0] != Hash && !IsBulletMark(content[0]) && content[0] != Greater
      && !IsDigit(content[0]) && (forall k | 0 <= k < |line| :: !IsMarkup(line[k]))
      ==> TextLine(line, st) == line
  {
    var n := BlankRun(line);
    var content := line[n..];
    if content != [] && content[0] != Hash && !IsBulletMark(content[0]) && content[0] != Greater
      && !IsDigit(content[0]) && (forall k | 0 <= k < |line| :: !IsMarkup(line[k]))
    {
      PlainBranch(line, n, content, st);
      PlainText(line, n, st);
    }
  }

  /** Blanks followed by text without markup render as themselves. */
  lemma PlainText(line: Str, n: nat, st: MdStyle)
    requires n <= |line| && NoMarkup(line)
    ensures line[..n] + Inline(line[n..], st) == line
  {
    var content := line[n..];
    assert NoMarkup(content) by {
      forall k | 0 <= k < |content| ensures content[k] == line[n + k] { }
    }
    assert Inline(content, st) == content;
    assert line[..n] + content == line;
  }

  /** Text that is no heading, list item or quote keeps its blanks and has
      its inline markup rendered. */
  lemma PlainBranch(line: Str, n: nat, content: Str, st: MdStyle)
    requires n == BlankRun(line) && content == line[n..]
    requires content != [] && content[0] != Hash && !IsBulletMark(content[0]) && content[0] != Greater
    requires !IsDigit(content[0])
    ensures TextLine(line, st) == line[..n] + Inline(content, st)
  {
    assert HeadingOf(content).level == 0;
    assert Digits(content) == 0;
    assert ListItemOf(content) == None;
  }
}
