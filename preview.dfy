/** The preview pane of internal/ui/model.go: the per-file preview record with
    its cache of wrapped lines keyed by width, and the text the viewport is
    given (a centred message, or the wrapped lines with gutters, diff
    backgrounds and padding to the full width). */
module Preview {
  import opened Bytes
  import opened Ansi
  import opened Wrap

  /** The lipgloss pieces the package uses: the visible width of a string
      and the styles it renders with. */
  datatype Style = Style(
    cols: Str -> nat,
    dim: Str -> Str,
    addGutter: Str -> Str,
    delGutter: Str -> Str,
    selected: Str -> Str,
    blue: Str -> Str,
    blueDim: Str -> Str)

  /** The preview of one file: a message, or its raw and highlighted lines
      with their diff statuses, and the wrapped lines computed so far. */
  class PreviewContent {
    var valid: bool
    var message: Str
    var rawLines: seq<Str>
    var highlightedLines: seq<Str>
    var diffLines: map<int, Str>
    var wrappedByWidth: map<int, seq<VisualLine>>

    constructor (valid: bool, message: Str, rawLines: seq<Str>, highlightedLines: seq<Str>, diffLines: map<int, Str>)
      ensures this.valid == valid && this.message == message && this.rawLines == rawLines
      ensures this.highlightedLines == highlightedLines && this.diffLines == diffLines
      ensures wrappedByWidth == map[]
    {
      this.valid := valid;
      this.message := message;
      this.rawLines := rawLines;
      this.highlightedLines := highlightedLines;
      this.diffLines := diffLines;
      wrappedByWidth := map[];
    }

    /** Every cached entry is the wrap of the lines at its width. */
    ghost predicate CacheValid(rw: RuneWidth)
      reads this
    {
      forall w | w in wrappedByWidth :: wrappedByWidth[w] == WrapAll(highlightedLines, rawLines, diffLines, w, rw)
    }

    /** What the preview shows, apart from the cache. */
    ghost function Fields(): (bool, Str, seq<Str>, seq<Str>, map<int, Str>)
      reads this
    {
      (valid, message, rawLines, highlightedLines, diffLines)
    }

    /** The viewport text of this preview at a width and height. */
    ghost function Text(width: int, height: int, style: Style, rw: RuneWidth): Str
      reads this
    {
      PreviewText(valid, message, highlightedLines, WrapAll(highlightedLines, rawLines, diffLines, width, rw),
                  width, height, style, rw)
    }

    /** ResetWrapCache. */
    method ResetWrapCache()
      modifies this
      ensures wrappedByWidth == map[]
      ensures valid == old(valid) && message == old(message) && rawLines == old(rawLines)
      ensures highlightedLines == old(highlightedLines) && diffLines == old(diffLines)
    {
      wrappedByWidth := map[];
    }

    /** WrappedLinesForWidth: the wrap at `width`, from the cache when it is
        there, else computed and stored under `width`. */
    method WrappedLinesForWidth(width: int, rw: RuneWidth) returns (lines: seq<VisualLine>)
      requires CacheValid(rw)
      modifies this
      ensures lines == WrapAll(highlightedLines, rawLines, diffLines, width, rw)
      ensures CacheValid(rw)
      ensures wrappedByWidth == old(wrappedByWidth)[width := lines]
      ensures width in old(wrappedByWidth) ==> lines == old(wrappedByWidth)[width] && wrappedByWidth == old(wrappedByWidth)
      ensures valid == old(valid) && message == old(message) && rawLines == old(rawLines)
      ensures highlightedLines == old(highlightedLines) && diffLines == old(diffLines)
    {
      if width in wrappedByWidth {
        lines := wrappedByWidth[width];
        return;
      }
      lines := WrapAllLines(highlightedLines, rawLines, diffLines, width, rw);
      wrappedByWidth := wrappedByWidth[width := lines];
    }

    /** renderPreviewContent: nothing for an invalid preview, the centred
        message, nothing for an empty file, else the wrapped lines at
        `width`, which the call leaves in the cache. */
    method Render(width: int, height: int, style: Style, rw: RuneWidth) returns (s: Str)
      requires CacheValid(rw)
      modifies this
      ensures CacheValid(rw) && Fields() == old(Fields())
      ensures s == Text(width, height, style, rw)
      ensures wrappedByWidth ==
        if valid && message == [] && highlightedLines != []
        then old(wrappedByWidth)[width := WrapAll(highlightedLines, rawLines, diffLines, width, rw)]
        else old(wrappedByWidth)
    {
      if !valid {
        return [];
      }
      if message != [] {
        s := CenterMessage(message, width, height, style);
        return;
      }
      if |highlightedLines| == 0 {
        return [];
      }
      var lines := WrappedLinesForWidth(width, rw);
      s := RenderWrapped(lines, width, style, rw);
    }
  }

  // ---------------------------------------------------------------------
  // Centred messages

  /** Go's `x / 2`, which truncates toward zero. */
  function GoHalf(x: int): int {
    if x >= 0 then x / 2 else -((-x) / 2)
  }

  /** `(x) / 2` clamped below at 0, as the message centring computes it. */
  function HalfPad(x: int): nat {
    var p := GoHalf(x);
    if p < 0 then 0 else p
  }

  /** For a negative numerator Go's truncating division and a floor agree
      once the result is clamped at 0, so the pad is half the spare room,
      rounded down, and never more. */
  lemma HalfPadFloor(x: int)
    ensures HalfPad(x) == (if x <= 0 then 0 else x / 2)
    ensures x > 0 ==> 2 * HalfPad(x) <= x <= 2 * HalfPad(x) + 1
  {
  }

  /** The blank rows above a block of `n` lines in `height` rows: half the
      spare rows, rounded down, and none when there are none to spare. */
  lemma TopPad(n: int, height: int)
    ensures n < height ==> 2 * HalfPad(height - n) <= height - n <= 2 * HalfPad(height - n) + 1
    ensures n >= height ==> HalfPad(height - n) == 0
  {
    HalfPadFloor(height - n);
  }

  /** One message line, indented to sit in the middle of `width` columns. */
  function CenterLine(line: Str, width: int, style: Style): Str {
    Spaces(HalfPad(width - style.cols(line))) + style.dim(line)
  }

  function CenteredLines(lines: seq<Str>, width: int, style: Style): (r: seq<Str>)
    ensures |r| == |lines|
    ensures forall i | 0 <= i < |lines| :: r[i] == CenterLine(lines[i], width, style)
  {
    if lines == [] then []
    else CenteredLines(lines[..|lines| - 1], width, style) + [CenterLine(lines[|lines| - 1], width, style)]
  }

  function Newlines(n: nat): (r: Str)
    ensures |r| == n && forall i | 0 <= i < n :: r[i] == Newline
  {
    seq(n, _ => Newline)
  }

  /** The message split into lines, each centred, under enough blank lines to
      centre the block in a viewport of `height` rows. */
  function MessageText(message: Str, width: int, height: int, style: Style): Str {
    var centered := CenteredLines(Split(message, Newline), width, style);
    Newlines(HalfPad(height - |centered|)) + Join(centered, Newline)
  }

  lemma JoinSnoc(parts: seq<Str>, x: Str, sep: byte)
    requires |parts| >= 1
    ensures Join(parts + [x], sep) == Join(parts, sep) + [sep] + x
    decreases |parts|
  {
    if |parts| > 1 {
      assert (parts + [x])[1..] == parts[1..] + [x];
      JoinSnoc(parts[1..], x, sep);
    }
  }

  /** The centring loop of renderPreviewContent. */
  method CenterMessage(message: Str, width: int, height: int, style: Style) returns (s: Str)
    ensures s == MessageText(message, width, height, style)
  {
    var lines := Split(message, Newline);
    var centered: seq<Str> := [];
    for i := 0 to |lines|
      invariant centered == CenteredLines(lines[..i], width, style)
    {
      var padLeft := GoHalf(width - style.cols(lines[i]));
      if padLeft < 0 {
        padLeft := 0;
      }
      assert lines[..i + 1][..i] == lines[..i];
      centered := centered + [Spaces(padLeft) + style.dim(lines[i])];
    }
    assert lines[..|lines|] == lines;
    var vertPad := GoHalf(height - |centered|);
    if vertPad < 0 {
      vertPad := 0;
    }
    s := Newlines(vertPad) + Join(centered, Newline);
  }

  /** The message block has one line per line of the message, each ending in
      the styled line, and sits under half the spare rows. */
  lemma MessageTextShape(message: Str, width: int, height: int, style: Style)
    ensures var lines := Split(message, Newline);
      var centered := CenteredLines(lines, width, style);
      var top := HalfPad(height - |lines|);
      && |centered| == |lines|
      && MessageText(message, width, height, style) == Newlines(top) + Join(centered, Newline)
      && (|lines| < height ==> 2 * top <= height - |lines| <= 2 * top + 1)
      && (|lines| >= height ==> top == 0)
      && (forall i | 0 <= i < |lines| ::
            HasSuffix(centered[i], style.dim(lines[i]))
            && |centered[i]| - |style.dim(lines[i])| == HalfPad(width - style.cols(lines[i])))
  {
    var lines := Split(message, Newline);
    TopPad(|lines|, height);
    var centered := CenteredLines(lines, width, style);
    forall i | 0 <= i < |lines|
      ensures HasSuffix(centered[i], style.dim(lines[i]))
    {
      var d := style.dim(lines[i]);
      assert centered[i][|centered[i]| - |d|..] == d;
    }
  }

  // ---------------------------------------------------------------------
  // Wrapped lines with gutters and backgrounds

  /** The background escape of a diff status, empty for an unchanged line. */
  const BgAdd: Str := [Esc] + B("[48;2;18;40;18m")
  const BgDel: Str := [Esc] + B("[48;2;45;18;18m")

  function BgFor(status: Str): Str {
    if status == Added then BgAdd else if status == Deleted then BgDel else []
  }

  /** The fixed visible width of the two-space margin plus a gutter. */
  const GutterVisibleWidth := 4

  /** The spaces that fill a line of `textCols` visible columns after its
      gutter to the full `width`. */
  function PadFor(width: int, textCols: nat): nat {
    var p := width - (GutterVisibleWidth + textCols);
    if p < 0 then 0 else p
  }

  /** The styled gutter: two spaces, then the gutter in its status colour. */
  function StyledGutter(vl: VisualLine, style: Style): Str {
    var render :=
      if vl.diffStatus == Added then style.addGutter
      else if vl.diffStatus == Deleted then style.delGutter
      else style.dim;
    [Space, Space] + render(vl.gutter)
  }

  /** One rendered viewport line, given the visible width of its text. */
  function RenderLineWith(vl: VisualLine, width: int, textCols: nat, style: Style): Str {
    var gutter := StyledGutter(vl, style);
    var bg := BgFor(vl.diffStatus);
    var padding := Spaces(PadFor(width, textCols));
    if bg != [] then bg + InjectBackground(gutter, bg) + InjectBackground(vl.text, bg) + padding + Reset
    else gutter + vl.text + padding
  }

  function RenderLine(vl: VisualLine, width: int, style: Style, rw: RuneWidth): Str {
    RenderLineWith(vl, width, ColsFrom(vl.text, 0, rw), style)
  }

  /** A line of an unchanged file is the gutter, the text and the padding; a
      diff line opens with its background, ends with a reset, and carries the
      background through every reset inside it. In both, the gutter, text and
      padding together fill the width when the text fits. */
  lemma RenderLineShape(vl: VisualLine, width: int, style: Style, rw: RuneWidth)
    ensures var r := RenderLine(vl, width, style, rw);
      var cols := ColsFrom(vl.text, 0, rw);
      var pad := PadFor(width, cols);
      var bg := BgFor(vl.diffStatus);
      && (GutterVisibleWidth + cols + pad >= width)
      && (GutterVisibleWidth + cols <= width ==> GutterVisibleWidth + cols + pad == width)
      && (GutterVisibleWidth + cols >= width ==> pad == 0)
      && (bg == [] <==> vl.diffStatus != Added && vl.diffStatus != Deleted)
      && (bg == [] ==> r == StyledGutter(vl, style) + vl.text + Spaces(pad))
      && (bg != [] ==>
            HasPrefix(r, bg) && HasSuffix(r, Spaces(pad) + Reset)
            && r == bg + InjectBackground(StyledGutter(vl, style), bg) + InjectBackground(vl.text, bg) + Spaces(pad) + Reset)
  {
    var r := RenderLine(vl, width, style, rw);
    var bg := BgFor(vl.diffStatus);
    var tail := Spaces(PadFor(width, ColsFrom(vl.text, 0, rw))) + Reset;
    assert BgAdd != [] && BgDel != [];
    if bg != [] {
      var head := bg + InjectBackground(StyledGutter(vl, style), bg) + InjectBackground(vl.text, bg);
      assert r == head + tail;
      assert r[..|bg|] == bg;
      assert r[|r| - |tail|..] == tail;
    }
  }

  /** The rendered rows, one per visual line. */
  function RenderedLines(vls: seq<VisualLine>, width: int, style: Style, rw: RuneWidth): (r: seq<Str>)
    ensures |r| == |vls|
  {
    seq(|vls|, i requires 0 <= i < |vls| => RenderLine(vls[i], width, style, rw))
  }

  /** The wrapped lines rendered one per viewport row. */
  function WrappedText(vls: seq<VisualLine>, width: int, style: Style, rw: RuneWidth): Str {
    Join(RenderedLines(vls, width, style, rw), Newline)
  }

  /** The text after the first `i` rows: those rows joined by newlines, and
      one more newline when rows are still to come. */
  function Built(rs: seq<Str>, i: nat): Str
    requires i <= |rs|
  {
    if i == 0 then [] else Join(rs[..i], Newline) + (if i < |rs| then [Newline] else [])
  }

  lemma BuiltStep(rs: seq<Str>, i: nat)
    requires i < |rs|
    ensures Built(rs, i + 1) == Built(rs, i) + (rs[i] + (if i < |rs| - 1 then [Newline] else []))
  {
    assert rs[..i + 1] == rs[..i] + [rs[i]];
    if i > 0 {
      JoinSnoc(rs[..i], rs[i], Newline);
    }
  }

  /** The rendering loop of renderPreviewContent: each line followed by a
      newline except the last. */
  method RenderWrapped(vls: seq<VisualLine>, width: int, style: Style, rw: RuneWidth) returns (b: Str)
    ensures b == WrappedText(vls, width, style, rw)
  {
    ghost var rs := RenderedLines(vls, width, style, rw);
    b := [];
    for i := 0 to |vls|
      invariant b == Built(rs, i)
    {
      var next := RenderRowAt(vls, i, width, style, rw, rs);
      BuiltStep(rs, i);
      b := b + next;
    }
    assert rs[..|vls|] == rs;
  }

  /** Row `i` of the rendering loop, with the newline that follows every row
      but the last. */
  method RenderRowAt(vls: seq<VisualLine>, i: nat, width: int, style: Style, rw: RuneWidth, ghost rs: seq<Str>)
    returns (next: Str)
    requires i < |vls| && rs == RenderedLines(vls, width, style, rw)
    ensures next == rs[i] + (if i < |rs| - 1 then [Newline] else [])
  {
    next := RenderRow(vls[i], width, style, rw);
    if i < |vls| - 1 {
      next := next + [Newline];
    }
  }

  /** One pass of the rendering loop: the line's visible width, then the line. */
  method RenderRow(vl: VisualLine, width: int, style: Style, rw: RuneWidth) returns (line: Str)
    ensures line == RenderLine(vl, width, style, rw)
  {
    var textWidth := VisibleWidth(vl.text, rw);
    line := RenderLineWith(vl, width, textWidth, style);
  }

  /** renderPreviewContent, for a preview's fields and the wrap at `width`. */
  function PreviewText(valid: bool, message: Str, highlighted: seq<Str>, wrapped: seq<VisualLine>,
                       width: int, height: int, style: Style, rw: RuneWidth): Str {
    if !valid then []
    else if message != [] then MessageText(message, width, height, style)
    else if highlighted == [] then []
    else WrappedText(wrapped, width, style, rw)
  }
}
