/** The line-oriented markdown renderer of internal/ui/markdown.go: the small
    parsers for headings, list items, links and table cells, the inline
    renderer for code spans, links, bold and italics, and the renderer that
    walks a file line by line, hides fences, and buffers tables so that they
    can be laid out once they end, keeping one output line per input line. */
module Markdown {
  import opened Bytes

  const Hash: byte := 0x23
  const LParen: byte := 0x28
  const RParen: byte := 0x29
  const Star: byte := 0x2a
  const Plus: byte := 0x2b
  const Minus: byte := 0x2d
  const Colon: byte := 0x3a
  const Greater: byte := 0x3e
  const LBracket: byte := 0x5b
  const Backslash: byte := 0x5c
  const RBracket: byte := 0x5d
  const Underscore: byte := 0x5f
  const Backtick: byte := 0x60

  const Fence: Str := [Backtick, Backtick, Backtick]

  /** The lipgloss styles of the renderer, each a function from text to
      styled text. */
  datatype MdStyle = MdStyle(
    h1: Str -> Str,
    h2: Str -> Str,
    h3: Str -> Str,
    bold: Str -> Str,
    ital: Str -> Str,
    code: Str -> Str,
    linkText: Str -> Str,
    linkURL: Str -> Str,
    bullet: Str -> Str)

  // ---------------------------------------------------------------------
  // Closing markers

  /** The first index at or after `start` holding `b`, or -1. */
  function ClosingByte(s: Str, start: nat, b: byte): (r: int)
    ensures r == -1 || (start <= r < |s| && s[r] == b)
    decreases |s| - start
  {
    if start >= |s| then -1
    else if s[start] == b then start
    else ClosingByte(s, start + 1, b)
  }

  /** No byte before the one found is `b`. */
  lemma ClosingByteFirst(s: Str, start: nat, b: byte)
    ensures var r := ClosingByte(s, start, b);
      forall j | start <= j < |s| && (r < 0 || j < r) :: s[j] != b
    decreases |s| - start
  {
    if start < |s| && s[start] != b {
      ClosingByteFirst(s, start + 1, b);
    }
  }

  /** The first `b` from `start` is the one at `r`. */
  lemma ClosingByteAt(s: Str, start: nat, b: byte, r: nat)
    requires start <= r < |s| && s[r] == b
    requires forall j | start <= j < r :: s[j] != b
    ensures ClosingByte(s, start, b) == r
    decreases r - start
  {
    if start < r {
      ClosingByteAt(s, start + 1, b, r);
    }
  }

  /** findClosingByte, scanning forward from `start`. */
  method FindClosingByte(s: Str, start: nat, b: byte) returns (r: int)
    ensures r == ClosingByte(s, start, b)
    ensures r == -1 || (start <= r < |s| && s[r] == b)
  {
    var i := start;
    while i < |s|
      invariant start <= i
      invariant ClosingByte(s, start, b) == ClosingByte(s, i, b)
      decreases |s| - i
    {
      if s[i] == b {
        return i;
      }
      i := i + 1;
    }
    return -1;
  }

  /** findClosing: the first index at or after `start` where `marker`
      occurs, or -1; always -1 when `start` is past the last byte. */
  function FindClosing(s: Str, start: nat, marker: Str): (r: int)
    ensures r == -1 || (start <= r && OccursAt(s, marker, r))
    ensures start < |s| ==> forall j | start <= j && (r < 0 || j < r) :: !OccursAt(s, marker, j)
  {
    if start >= |s| then -1
    else
      var idx := Index(s[start..], marker);
      assert forall j | start <= j :: OccursAt(s, marker, j) == OccursAt(s[start..], marker, j - start) by {
        forall j | start <= j {
          OccursShift(s, marker, start, j);
        }
      }
      if idx < 0 then -1 else start + idx
  }

  lemma OccursShift(s: Str, t: Str, start: nat, j: int)
    requires start <= |s| && start <= j
    ensures OccursAt(s, t, j) == OccursAt(s[start..], t, j - start)
  {
    if j + |t| <= |s| {
      assert s[start..][j - start..j - start + |t|] == s[j..j + |t|];
    }
  }

  /** Searching from `i + k` in `s` is searching from `k` in `s[i..]`. */
  lemma ClosingByteShift(s: Str, i: nat, k: nat, b: byte)
    requires i <= |s|
    ensures var r := ClosingByte(s[i..], k, b);
      ClosingByte(s, i + k, b) == if r < 0 then -1 else r + i
    decreases |s| - i - k
  {
    if i + k < |s| && s[i + k] != b {
      ClosingByteShift(s, i, k + 1, b);
    }
  }

  lemma FindClosingShift(s: Str, i: nat, k: nat, marker: Str)
    requires i <= |s|
    ensures var r := FindClosing(s[i..], k, marker);
      FindClosing(s, i + k, marker) == if r < 0 then -1 else r + i
  {
    if i + k < |s| {
      assert s[i..][k..] == s[i + k..];
    }
  }

  // ---------------------------------------------------------------------
  // Links

  datatype Link = Link(text: Str, url: Str, consumed: nat)

  /** parseLink: `[text](url)` at the start of `s`, the text running to the
      first ']' and the address to the first ')' after it. */
  function ParseLink(s: Str): (r: Option<Link>)
    ensures r.Some? ==> 0 < r.value.consumed <= |s|
  {
    if |s| == 0 || s[0] != LBracket then None
    else
      var closeBracket := ClosingByte(s, 1, RBracket);
      if closeBracket < 0 then None
      else if closeBracket + 1 >= |s| || s[closeBracket + 1] != LParen then None
      else
        var closeParen := ClosingByte(s, closeBracket + 2, RParen);
        if closeParen < 0 then None
        else Some(Link(s[1..closeBracket], s[closeBracket + 2..closeParen], closeParen + 1))
  }

  /** A link found is `[text](url)` with no ']' in its text and no ')' in
      its address. */
  lemma ParseLinkShape(s: Str)
    ensures var r := ParseLink(s);
      r.Some? ==>
        var l := r.value;
        && l.consumed == |l.text| + |l.url| + 4 <= |s|
        && s[..l.consumed] == [LBracket] + l.text + [RBracket, LParen] + l.url + [RParen]
        && RBracket !in l.text && RParen !in l.url
  {
    if ParseLink(s).Some? {
      var l := ParseLink(s).value;
      var cb := ClosingByte(s, 1, RBracket);
      var cp := ClosingByte(s, cb + 2, RParen);
      ClosingByteFirst(s, 1, RBracket);
      ClosingByteFirst(s, cb + 2, RParen);
      assert s[..l.consumed] == [LBracket] + l.text + [RBracket, LParen] + l.url + [RParen];
    }
  }

  /** Every `[text](url)` with no ']' in the text and no ')' in the address
      is a link, whatever follows it. */
  lemma ParseLinkOfShape(text: Str, url: Str, rest: Str)
    requires RBracket !in text && RParen !in url
    ensures ParseLink([LBracket] + text + [RBracket, LParen] + url + [RParen] + rest)
      == Some(Link(text, url, |text| + |url| + 4))
  {
    var s := [LBracket] + text + [RBracket, LParen] + url + [RParen] + rest;
    var cb := |text| + 1;
    assert s[cb] == RBracket && s[cb + 1] == LParen && s[cb + 2 + |url|] == RParen;
    assert forall j | 1 <= j < cb :: s[j] == text[j - 1];
    ClosingByteAt(s, 1, RBracket, cb);
    assert forall j | cb + 2 <= j < cb + 2 + |url| :: s[j] == url[j - cb - 2];
    ClosingByteAt(s, cb + 2, RParen, cb + 2 + |url|);
    assert s[1..cb] == text;
    assert s[cb + 2..cb + 2 + |url|] == url;
  }

  // ---------------------------------------------------------------------
  // Headings, list items and leading white space

  /** leadingWhitespace: the spaces and tabs that open `s`. Go walks the
      runes of `s`; both blanks are single bytes and no byte of a multi-byte
      rune is one, so walking the bytes stops at the same place. */
  method LeadingWhitespace(s: Str) returns (ws: Str)
    ensures ws == s[..BlankRun(s)]
    ensures HasPrefix(s, ws) && forall k | 0 <= k < |ws| :: IsBlank(ws[k])
    ensures |ws| < |s| ==> !IsBlank(s[|ws|])
  {
    var i := 0;
    while i < |s|
      invariant i <= |s| && forall k | 0 <= k < i :: IsBlank(s[k])
    {
      if !IsBlank(s[i]) {
        return s[..i];
      }
      i := i + 1;
    }
    return s;
  }

  /** The number of '#' that open `s`, counting at most `limit`. */
  function Hashes(s: Str, limit: nat): (n: nat)
    ensures n <= limit && n <= |s|
    ensures forall k | 0 <= k < n :: s[k] == Hash
    ensures n < limit && n < |s| ==> s[n] != Hash
  {
    if limit == 0 || |s| == 0 || s[0] != Hash then 0 else 1 + Hashes(s[1..], limit - 1)
  }

  datatype Heading = Heading(level: nat, body: Str)

  /** parseHeading: one to six '#' then a blank or the end, and the trimmed
      rest as the body; level 0 for anything else. */
  function HeadingOf(s: Str): (h: Heading)
    ensures h.level <= 6
    ensures h.level == 0 ==> h.body == []
    ensures var n := Hashes(s, 6);
      h.level > 0 <==> (n > 0 && (n == |s| || IsBlank(s[n])))
    ensures h.level > 0 ==>
      && h.level == Hashes(s, 6)
      && (forall k | 0 <= k < h.level :: s[k] == Hash)
      && h.body == TrimSpace(s[h.level..])
  {
    if |s| == 0 || s[0] != Hash then Heading(0, [])
    else
      // s[0] is '#', so the count is between one and six here
      var level := Hashes(s, 6);
      if level >= |s| then Heading(level, [])
      else if !IsBlank(s[level]) then Heading(0, [])
      else Heading(level, TrimSpace(s[level..]))
  }

  /** parseHeading: counts at most six leading '#' and then checks what
      follows them. */
  method ParseHeading(s: Str) returns (level: nat, body: Str)
    ensures Heading(level, body) == HeadingOf(s)
  {
    if |s| == 0 || s[0] != Hash {
      return 0, [];
    }
    level := 0;
    var i := 0;
    while i < |s| && i < 6
      invariant level == i <= 6 && i <= |s|
      invariant forall k | 0 <= k < i :: s[k] == Hash
    {
      if s[i] == Hash {
        level := level + 1;
      } else {
        break;
      }
      i := i + 1;
    }
    // s[0] is '#', so the count is between one and six here
    if level >= |s| {
      return level, [];
    }
    var rest := s[level..];
    if !IsBlank(rest[0]) {
      return 0, [];
    }
    return level, TrimSpace(rest);
  }

  /** Seven '#' are not a heading, whatever follows. */
  lemma SevenHashesAreText(rest: Str)
    ensures HeadingOf(seq(7, _ => Hash) + rest).level == 0
  {
    var s := seq(7, _ => Hash) + rest;
    assert Hashes(s, 6) == 6 by {
      assert s[..7] == seq(7, _ => Hash);
    }
    assert s[6] == Hash;
  }

  predicate IsDigit(b: byte) {
    0x30 <= b <= 0x39
  }

  /** The number of digits that open `s`. */
  function Digits(s: Str): (n: nat)
    ensures n <= |s|
    ensures forall k | 0 <= k < n :: IsDigit(s[k])
    ensures n < |s| ==> !IsDigit(s[n])
  {
    if |s| > 0 && IsDigit(s[0]) then 1 + Digits(s[1..]) else 0
  }

  datatype ListItem = ListItem(bullet: Str, body: Str)

  predicate IsBulletMark(b: byte) {
    b == Minus || b == Star || b == Plus
  }

  /** parseListItem: '-', '*' or '+', or digits and '.', then a blank; the
      rest, trimmed, is the body. An item's bullet opens the line and a
      blank follows it. */
  function ListItemOf(s: Str): (r: Option<ListItem>)
    ensures r.Some? ==> 0 < |r.value.bullet| < |s| && HasPrefix(s, r.value.bullet) && IsBlank(s[|r.value.bullet|])
  {
    if |s| == 0 then None
    else if IsBulletMark(s[0]) then
      if |s| > 1 && IsBlank(s[1]) then Some(ListItem([s[0]], TrimSpace(s[2..]))) else None
    else
      var i := Digits(s);
      if i > 0 && i < |s| && s[i] == Dot && i + 1 < |s| && IsBlank(s[i + 1]) then
        Some(ListItem(s[..i + 1], TrimSpace(s[i + 2..])))
      else None
  }

  /** An item is a bullet mark, or digits and a '.', then a blank; its body
      is the rest, trimmed. */
  lemma ListItemShape(s: Str)
    ensures var r := ListItemOf(s);
      r.Some? ==>
        var n := |r.value.bullet|;
        && 0 < n < |s| && r.value.bullet == s[..n] && IsBlank(s[n])
        && r.value.body == TrimSpace(s[n + 1..])
        && ((n == 1 && IsBulletMark(s[0])) || (n >= 2 && s[n - 1] == Dot && Digits(s) == n - 1))
  {
    if |s| > 0 && !IsBulletMark(s[0]) {
      NumberedShape(s);
    }
  }

  lemma NumberedShape(s: Str)
    requires |s| > 0 && !IsBulletMark(s[0])
    ensures var r := ListItemOf(s);
      r.Some? ==>
        var n := |r.value.bullet|;
        && n == Digits(s) + 1 < |s| && r.value.bullet == s[..n] && s[n - 1] == Dot && IsBlank(s[n])
        && r.value.body == TrimSpace(s[n + 1..])
  {
  }

  /** Both bullet shapes are list items. */
  lemma ListItemOfShape(mark: byte, digits: Str, blank: byte, rest: Str)
    requires IsBlank(blank)
    ensures IsBulletMark(mark) ==>
      ListItemOf([mark, blank] + rest) == Some(ListItem([mark], TrimSpace(rest)))
    ensures digits != [] && (forall k | 0 <= k < |digits| :: IsDigit(digits[k])) ==>
      ListItemOf(digits + [Dot, blank] + rest) == Some(ListItem(digits + [Dot], TrimSpace(rest)))
  {
    if IsBulletMark(mark) {
      assert ([mark, blank] + rest)[2..] == rest;
    }
    if digits != [] && (forall k | 0 <= k < |digits| :: IsDigit(digits[k])) {
      var s := digits + [Dot, blank] + rest;
      assert s == digits + ([Dot, blank] + rest);
      DigitsOfPrefix(digits, [Dot, blank] + rest);
      var i := |digits|;
      assert s[0] == digits[0] && IsDigit(s[0]) && !IsBulletMark(s[0]);
      assert s[i] == Dot && s[i + 1] == blank;
      assert s[..i + 1] == digits + [Dot];
      assert s[i + 2..] == rest;
    }
  }

  lemma {:induction false} DigitsOfPrefix(d: Str, rest: Str)
    requires forall k | 0 <= k < |d| :: IsDigit(d[k])
    requires rest == [] || !IsDigit(rest[0])
    ensures Digits(d + rest) == |d|
  {
    if d != [] {
      assert (d + rest)[1..] == d[1..] + rest;
      DigitsOfPrefix(d[1..], rest);
    } else {
      assert d + rest == rest;
    }
  }

  /** parseListItem: the bullet, the body and whether the line is an item. */
  method ParseListItem(s: Str) returns (bullet: Str, body: Str, ok: bool)
    ensures ok <==> ListItemOf(s).Some?
    ensures ok ==> ListItemOf(s) == Some(ListItem(bullet, body))
    ensures !ok ==> bullet == [] && body == []
  {
    if |s| == 0 {
      return [], [], false;
    }
    if IsBulletMark(s[0]) {
      if |s| > 1 && IsBlank(s[1]) {
        return [s[0]], TrimSpace(s[2..]), true;
      }
      return [], [], false;
    }
    var i := 0;
    while i < |s| && IsDigit(s[i])
      invariant i <= |s| && forall k | 0 <= k < i :: IsDigit(s[k])
    {
      i := i + 1;
    }
    assert i == Digits(s);
    if i > 0 && i < |s| && s[i] == Dot {
      if i + 1 < |s| && IsBlank(s[i + 1]) {
        return s[..i + 1], TrimSpace(s[i + 2..]), true;
      }
    }
    return [], [], false;
  }

  // ---------------------------------------------------------------------
  // Table rows

  /** isTableRow: the (trimmed) line holds a '|'. */
  predicate IsTableRow(s: Str) {
    Pipe in s
  }

  /** A table row is what strings.Contains reports for the one-byte
      string "|". */
  lemma TableRowContains(s: Str)
    ensures IsTableRow(s) <==> Contains(s, [Pipe])
  {
    if Pipe in s {
      var q :| 0 <= q < |s| && s[q] == Pipe;
      assert OccursAt(s, [Pipe], q) by { assert s[q..q + 1] == [Pipe]; }
      assert Index(s, [Pipe]) >= 0;
    }
    if Contains(s, [Pipe]) {
      var k := Index(s, [Pipe]);
      assert s[k..k + 1] == [Pipe];
      assert s[k] == s[k..k + 1][0] == Pipe;
    }
  }

  /** The bytes of `\s` (tab, newline, form feed, carriage return, space), a
      colon or a dash. */
  predicate IsSepByte(b: byte) {
    b == Tab || b == Newline || b == 0x0c || b == 0x0d || b == Space || b == Colon || b == Minus
  }

  function SepRun(s: Str): (n: nat)
    ensures n <= |s|
    ensures forall k | 0 <= k < n :: IsSepByte(s[k])
    ensures n < |s| ==> !IsSepByte(s[n])
  {
    if |s| > 0 && IsSepByte(s[0]) then 1 + SepRun(s[1..]) else 0
  }

  /** The separator row pattern `^\|?[\s:-]+\|[\s|:-]*$`: an optional '|',
      separator bytes up to a '|', then only separator bytes and '|'. As no
      separator byte is a '|', the run before the '|' is the longest one.
      Every separator row is a table row. */
  predicate IsTableSeparator(s: Str): (b: bool)
    ensures b ==> IsTableRow(s)
  {
    var p := if |s| > 0 && s[0] == Pipe then 1 else 0;
    var q := p + SepRun(s[p..]);
    assert q < |s| && s[q] == Pipe ==> IsTableRow(s);
    q > p && q < |s| && s[q] == Pipe && forall k | q < k < |s| :: IsSepByte(s[k]) || s[k] == Pipe
  }

  function TrimPrefixByte(s: Str, b: byte): Str {
    if |s| > 0 && s[0] == b then s[1..] else s
  }

  function TrimSuffixByte(s: Str, b: byte): Str {
    if |s| > 0 && s[|s| - 1] == b then s[..|s| - 1] else s
  }

  /** parseTableCells: drop one outer '|' on each side, split at '|', trim
      each cell. */
  function TableCells(s: Str): (cells: seq<Str>)
    ensures var parts := Split(TrimSuffixByte(TrimPrefixByte(s, Pipe), Pipe), Pipe);
      && |cells| == |parts| >= 1
      && forall k | 0 <= k < |cells| :: cells[k] == TrimSpace(parts[k])
  {
    var parts := Split(TrimSuffixByte(TrimPrefixByte(s, Pipe), Pipe), Pipe);
    seq(|parts|, k requires 0 <= k < |parts| => TrimSpace(parts[k]))
  }

  /** parseTableCells, trimming the pieces in place. */
  method ParseTableCells(s: Str) returns (cells: seq<Str>)
    ensures cells == TableCells(s)
  {
    var t := TrimPrefixByte(s, Pipe);
    t := TrimSuffixByte(t, Pipe);
    var parts := Split(t, Pipe);
    cells := parts;
    var i := 0;
    while i < |cells|
      invariant i <= |cells| == |parts|
      invariant forall k | 0 <= k < i :: cells[k] == TrimSpace(parts[k])
      invariant forall k | i <= k < |cells| :: cells[k] == parts[k]
    {
      cells := cells[i := TrimSpace(cells[i])];
      i := i + 1;
    }
  }

  /** A row written as '|' + cells joined by '|' + '|' parses back to the
      cells, when they are trimmed and free of '|'. */
  lemma TableCellsRoundTrip(cells: seq<Str>)
    requires |cells| >= 1
    requires forall k | 0 <= k < |cells| :: Pipe !in cells[k] && TrimSpace(cells[k]) == cells[k]
    ensures TableCells([Pipe] + Join(cells, Pipe) + [Pipe]) == cells
  {
    RowSplitsIntoCells(cells);
    var r := TableCells([Pipe] + Join(cells, Pipe) + [Pipe]);
    assert forall k | 0 <= k < |cells| :: r[k] == cells[k];
  }

  lemma RowSplitsIntoCells(cells: seq<Str>)
    requires |cells| >= 1
    requires forall k | 0 <= k < |cells| :: Pipe !in cells[k]
    ensures Split(TrimSuffixByte(TrimPrefixByte([Pipe] + Join(cells, Pipe) + [Pipe], Pipe), Pipe), Pipe) == cells
  {
    var j := Join(cells, Pipe);
    var s := [Pipe] + j + [Pipe];
    assert s[1..] == j + [Pipe];
    assert (j + [Pipe])[..|j|] == j;
    assert TrimSuffixByte(TrimPrefixByte(s, Pipe), Pipe) == j;
    SplitJoin(cells, Pipe);
  }

  // ---------------------------------------------------------------------
  // Code fences

  predicate IsLangByte(b: byte) {
    ('A' as int <= b as int <= 'Z' as int) || ('a' as int <= b as int <= 'z' as int)
    || IsDigit(b) || b == Underscore || b == Plus || b == Minus
  }

  function LangRun(s: Str): (r: Str)
    ensures HasPrefix(s, r) && forall k | 0 <= k < |r| :: IsLangByte(r[k])
    ensures |r| < |s| ==> !IsLangByte(s[|r|])
  {
    if |s| > 0 && IsLangByte(s[0]) then [s[0]] + LangRun(s[1..]) else []
  }

  /** The fence pattern "^[ \t]*```([A-Za-z0-9_+-]*)": the language of a fence
      line, or None for any other line. */
  function FenceLang(line: Str): (r: Option<Str>)
    ensures r.Some? <==> HasPrefix(line[BlankRun(line)..], Fence)
    ensures r.Some? ==> HasPrefix(line[BlankRun(line) + 3..], r.value)
    ensures r.Some? ==> forall k | 0 <= k < |r.value| :: IsLangByte(r.value[k])
    ensures r.Some? && BlankRun(line) + 3 + |r.value| < |line| ==> !IsLangByte(line[BlankRun(line) + 3 + |r.value|])
  {
    var rest := line[BlankRun(line)..];
    if HasPrefix(rest, Fence) then
      assert rest[3..] == line[BlankRun(line) + 3..];
      Some(LangRun(rest[3..]))
    else None
  }

  // ---------------------------------------------------------------------
  // Inline markup

  /** The bytes a backslash escapes. */
  predicate IsEscapable(b: byte) {
    b == Star || b == Underscore || b == Backtick || b == LBracket || b == RBracket
  }

  /** The emphasis markers. */
  predicate IsEmphasis(b: byte) {
    b == Star || b == Underscore
  }

  /** What starts at byte `i` of the text, in the order the renderer tries
      the rules: an escaped byte, a closed code span, a link, bold text
      closed by the same doubled marker, italic text closed by the same
      marker (not right away), or a plain byte. The searches run over the
      whole text and `close` is the index of the closing marker in it. */
  datatype Token = Escaped | CodeSpan(close: nat) | LinkTo(link: Link) | Bold(close: nat) | Italic(close: nat) | Plain

  function TokenAt(s: Str, i: nat): (k: Token)
    requires i < |s|
    ensures k.Escaped? ==> i + 1 < |s|
    ensures k.CodeSpan? ==> i < k.close < |s|
    ensures k.LinkTo? ==> 0 < k.link.consumed <= |s| - i
    ensures k.Bold? ==> i + 2 <= k.close && k.close + 2 <= |s|
    ensures k.Italic? ==> i + 1 < k.close < |s|
  {
    var m := s[i];
    if m == Backslash && i + 1 < |s| && IsEscapable(s[i + 1]) then Escaped
    else if m == Backtick && ClosingByte(s, i + 1, Backtick) > 0 then CodeSpan(ClosingByte(s, i + 1, Backtick))
    else if m == LBracket && ParseLink(s[i..]).Some? then LinkTo(ParseLink(s[i..]).value)
    else if IsEmphasis(m) && i + 1 < |s| && s[i + 1] == m && FindClosing(s, i + 2, [m, m]) > 0 then
      Bold(FindClosing(s, i + 2, [m, m]))
    else if IsEmphasis(m) && ClosingByte(s, i + 1, m) > i + 1 then Italic(ClosingByte(s, i + 1, m))
    else Plain
  }

  /** The output for the token at byte `i`. Bold and italic text is
      rendered again, on its own, inside its style. */
  function Piece(s: Str, i: nat, st: MdStyle): (r: Str)
    requires i < |s|
    decreases |s|, 0, 0
  {
    match TokenAt(s, i)
    case Escaped => [s[i + 1]]
    case CodeSpan(e) => st.code(s[i + 1..e])
    case LinkTo(l) => st.linkText(l.text) + st.linkURL([Space, LParen] + l.url + [RParen])
    case Bold(e) => st.bold(Inline(s[i + 2..e], st))
    case Italic(e) => st.ital(Inline(s[i + 1..e], st))
    case Plain => [s[i]]
  }

  /** Where the token at byte `i` ends. */
  function Next(s: Str, i: nat): (n: nat)
    requires i < |s|
    ensures i < n <= |s|
  {
    match TokenAt(s, i)
    case Escaped => i + 2
    case CodeSpan(e) => e + 1
    case LinkTo(l) => i + l.consumed
    case Bold(e) => e + 2
    case Italic(e) => e + 1
    case Plain => i + 1
  }

  /** renderInlineMarkdown from byte `i` on: token after token. */
  function InlineFrom(s: Str, i: nat, st: MdStyle): (r: Str)
    decreases |s|, 1, |s| - i
  {
    if i >= |s| then [] else Piece(s, i, st) + InlineFrom(s, Next(s, i), st)
  }

  /** renderInlineMarkdown. Text with no markup byte renders as itself. */
  function Inline(s: Str, st: MdStyle): (r: Str)
    ensures NoMarkup(s) ==> r == s
    decreases |s|, 3, 0
  {
    if NoMarkup(s) then
      InlinePlainFrom(s, 0, st);
      InlineFrom(s, 0, st)
    else InlineFrom(s, 0, st)
  }

  /** Plain text from byte `i` on renders as itself. */
  lemma {:induction false} InlinePlainFrom(s: Str, i: nat, st: MdStyle)
    requires i <= |s| && forall k | i <= k < |s| :: !IsMarkup(s[k])
    ensures InlineFrom(s, i, st) == s[i..]
    decreases |s|, 2, |s| - i
  {
    if i < |s| {
      InlinePlainFrom(s, i + 1, st);
      assert s[i..] == [s[i]] + s[i + 1..];
    }
  }

  /** renderInlineMarkdown: one piece of output per pass of its loop, from
      left to right. */
  method RenderInlineMarkdown(s: Str, st: MdStyle) returns (out: Str)
    ensures out == Inline(s, st)
    decreases |s|, 1
  {
    out := [];
    var i := 0;
    while i < |s|
      invariant i <= |s|
      invariant Inline(s, st) == out + InlineFrom(s, i, st)
      decreases |s| - i
    {
      var piece, next := InlineStep(s, i, st);
      out := out + piece;
      i := next;
    }
  }

  /** One pass of the loop of renderInlineMarkdown at byte `i`: the rules
      tried in turn, each search made on the whole text. */
  method InlineStep(s: Str, i: nat, st: MdStyle) returns (piece: Str, next: nat)
    requires i < |s|
    ensures piece == Piece(s, i, st) && next == Next(s, i)
    decreases |s|, 0
  {
    if s[i] == Backslash && i + 1 < |s| {
      var nb := s[i + 1];
      if IsEscapable(nb) {
        return [nb], i + 2;
      }
    }
    if s[i] == Backtick {
      var end := FindClosingByte(s, i + 1, Backtick);
      if end > 0 {
        return st.code(s[i + 1..end]), end + 1;
      }
    }
    if s[i] == LBracket {
      var link := ParseLink(s[i..]);
      if link.Some? {
        piece := st.linkText(link.value.text) + st.linkURL([Space, LParen] + link.value.url + [RParen]);
        return piece, i + link.value.consumed;
      }
    }
    if IsEmphasis(s[i]) {
      var marker := s[i];
      if i + 1 < |s| && s[i + 1] == marker {
        var end := FindClosing(s, i + 2, [marker, marker]);
        if end > 0 {
          var inner := RenderInlineMarkdown(s[i + 2..end], st);
          return st.bold(inner), end + 2;
        }
      }
      var end := FindClosingByte(s, i + 1, marker);
      if end > 0 && end > i + 1 {
        var inner := RenderInlineMarkdown(s[i + 1..end], st);
        return st.ital(inner), end + 1;
      }
    }
    return [s[i]], i + 1;
  }

  /** The bytes that can open inline markup. */
  predicate IsMarkup(b: byte) {
    b == Backslash || b == Backtick || b == LBracket || IsEmphasis(b)
  }

  /** Text in which no byte can open inline markup. */
  predicate NoMarkup(s: Str) {
    forall k | 0 <= k < |s| :: !IsMarkup(s[k])
  }

  /** A backslash before every escapable byte. */
  function Escape(t: Str): (r: Str)
    ensures r == [] || !IsEscapable(r[0])
    ensures t == [] ==> r == []
  {
    if t == [] then []
    else (if IsEscapable(t[0]) then [Backslash, t[0]] else [t[0]]) + Escape(t[1..])
  }

  /** Escaped text renders as the text itself: every escapable byte comes
      back from its escape, and every other byte, backslashes included, is
      copied. */
  lemma InlineEscape(t: Str, st: MdStyle)
    ensures Inline(Escape(t), st) == t
  {
    assert [] + Escape(t) == Escape(t);
    InlineEscapeFrom([], t, st);
  }

  /** Whatever comes before it, escaped text renders as itself. */
  lemma {:induction false} InlineEscapeFrom(p: Str, t: Str, st: MdStyle)
    ensures InlineFrom(p + Escape(t), |p|, st) == t
    decreases |t|
  {
    if t != [] {
      var head := if IsEscapable(t[0]) then [Backslash, t[0]] else [t[0]];
      var s := p + Escape(t);
      assert s == (p + head) + Escape(t[1..]);
      InlineEscapeFrom(p + head, t[1..], st);
      if IsEscapable(t[0]) {
        assert s[|p|] == Backslash && s[|p| + 1] == t[0];
      } else {
        assert s[|p|] == t[0];
        assert |p| + 1 < |s| ==> s[|p| + 1] == Escape(t[1..])[0];
      }
    }
  }
}
