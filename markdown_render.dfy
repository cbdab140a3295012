/** The line renderer of internal/ui/markdown.go: fenced code is handed to a
    highlighter and its fences hidden, table rows are buffered and laid out
    together once the table ends, and every other line is rendered as text.
    The output has one line per input line; a buffered table is written
    back over the lines its rows came from. */
module MarkdownRender {
  import opened Bytes
  import opened Markdown
  import opened MarkdownText

  /** What the renderer calls out to: the styles, the syntax highlighter of
      one line of fenced code in a language (chroma), and the table layout
      of a header and body rows (lipgloss). */
  datatype MdEnv = MdEnv(
    style: MdStyle,
    codeLine: (Str, Str) -> Str,
    table: (seq<Str>, seq<seq<Str>>) -> Str)

  /** A buffered table row: a separator row, or the cells of a row. */
  datatype TableRow = Separator | Cells(cells: seq<Str>)

  /** The buffered row of a trimmed table line. */
  function RowOf(trimmed: Str): TableRow {
    if IsTableSeparator(trimmed) then Separator else Cells(TableCells(trimmed))
  }

  // ---------------------------------------------------------------------
  // Laying out a buffered table

  /** The rows that are not separators, in order. */
  function CellRows(buffer: seq<TableRow>): (rows: seq<seq<Str>>)
    ensures |rows| <= |buffer|
  {
    if buffer == [] then []
    else
      var init := CellRows(buffer[..|buffer| - 1]);
      match buffer[|buffer| - 1]
      case Separator => init
      case Cells(c) => init + [c]
  }

  /** Each cell with its inline markup rendered. */
  function StyledCells(cells: seq<Str>, st: MdStyle): (r: seq<Str>)
    ensures |r| == |cells|
  {
    seq(|cells|, j requires 0 <= j < |cells| => Inline(cells[j], st))
  }

  function StyledRows(rows: seq<seq<Str>>, st: MdStyle): (r: seq<seq<Str>>)
    ensures |r| == |rows|
  {
    seq(|rows|, k requires 0 <= k < |rows| => StyledCells(rows[k], st))
  }

  /** The first `n` lines of `out`, padded with empty lines. */
  function Fit(out: seq<Str>, n: nat): (r: seq<Str>)
    ensures |r| == n
  {
    seq(n, k requires 0 <= k < n => if k < |out| then out[k] else [])
  }

  /** flushTable: the first row that is not a separator is the header, shown
      as written; the later ones are the body, each cell with its inline
      markup rendered. The laid out table is cut into lines and fitted to
      one line per buffered row. */
  function TableLines(buffer: seq<TableRow>, env: MdEnv): (r: seq<Str>)
    ensures |r| == |buffer|
  {
    if buffer == [] then []
    else
      var rows := CellRows(buffer);
      var header := if rows == [] then [] else rows[0];
      var body := if rows == [] then [] else rows[1..];
      Fit(Split(env.table(header, StyledRows(body, env.style)), Newline), |buffer|)
  }

  /** The header and the body rows of a buffered table, with the flag the
      source keeps for the first row. */
  method SplitRows(buffer: seq<TableRow>) returns (header: seq<Str>, body: seq<seq<Str>>)
    ensures var rows := CellRows(buffer);
      && header == (if rows == [] then [] else rows[0])
      && body == (if rows == [] then [] else rows[1..])
  {
    header, body := [], [];
    var isFirst := true;
    for i := 0 to |buffer|
      invariant var rows := CellRows(buffer[..i]);
        && isFirst == (rows == [])
        && header == (if rows == [] then [] else rows[0])
        && body == (if rows == [] then [] else rows[1..])
    {
      assert buffer[..i + 1][..i] == buffer[..i];
      match buffer[i]
      case Separator =>
      case Cells(row) =>
        if isFirst {
          header := row;
          isFirst := false;
        } else {
          body := body + [row];
        }
    }
    assert buffer[..|buffer|] == buffer;
  }

  /** The styled copy of one body row. */
  method StyleCells(row: seq<Str>, st: MdStyle) returns (styled: seq<Str>)
    ensures styled == StyledCells(row, st)
  {
    styled := [];
    for j := 0 to |row|
      invariant |styled| == j && forall k | 0 <= k < j :: styled[k] == Inline(row[k], st)
    {
      var cell := RenderInlineMarkdown(row[j], st);
      styled := styled + [cell];
    }
  }

  method StyleRows(rows: seq<seq<Str>>, st: MdStyle) returns (styled: seq<seq<Str>>)
    ensures styled == StyledRows(rows, st)
  {
    styled := [];
    for i := 0 to |rows|
      invariant |styled| == i && forall k | 0 <= k < i :: styled[k] == StyledCells(rows[k], st)
    {
      var row := StyleCells(rows[i], st);
      styled := styled + [row];
    }
  }

  /** Output lines mapped one to one onto `n` slots. */
  method FitLines(out: seq<Str>, n: nat) returns (result: seq<Str>)
    ensures result == Fit(out, n)
  {
    result := [];
    for i := 0 to n
      invariant |result| == i && forall k | 0 <= k < i :: result[k] == (if k < |out| then out[k] else [])
    {
      if i < |out| {
        result := result + [out[i]];
      } else {
        result := result + [[]];
      }
    }
  }

  // ---------------------------------------------------------------------
  // The renderer's state and one line

  datatype RenderState = RenderState(inCodeBlock: bool, codeLang: Str, tableBuffer: seq<TableRow>, tableStart: nat)

  const Initial := RenderState(false, [], [], 0)

  /** The new state, the rendered line and whether a buffered table is to be
      laid out now. */
  datatype StepResult = StepResult(next: RenderState, rendered: Str, flush: bool)

  /** The state after renderLine. Inside a code block a line opening with a
      fence once trimmed closes it. Outside, a fence opens a block and
      records its language, and a trimmed line with a '|' is buffered as a
      table row, the first one recording its index. */
  function NextState(s: RenderState, line: Str, idx: nat): (t: RenderState)
    ensures t.tableBuffer == s.tableBuffer || t.tableBuffer == s.tableBuffer + [RowOf(TrimSpace(line))]
  {
    var trimmed := TrimSpace(line);
    if s.inCodeBlock then
      if HasPrefix(trimmed, Fence) then s.(inCodeBlock := false) else s
    else if FenceLang(line).Some? then s.(inCodeBlock := true, codeLang := FenceLang(line).value)
    else if IsTableRow(trimmed) then
      s.(tableBuffer := s.tableBuffer + [RowOf(trimmed)],
         tableStart := if s.tableBuffer == [] then idx else s.tableStart)
    else s
  }

  /** The line renderLine returns: fences and table rows give an empty
      line, a line inside a code block is highlighted, any other line is
      rendered as text. */
  function Rendered(s: RenderState, line: Str, env: MdEnv): Str {
    var trimmed := TrimSpace(line);
    if s.inCodeBlock then
      if HasPrefix(trimmed, Fence) then [] else env.codeLine(line, s.codeLang)
    else if FenceLang(line).Some? || IsTableRow(trimmed) then []
    else TextLine(line, env.style)
  }

  /** Whether renderLine asks for a buffered table to be laid out: a text
      line outside a code block does when a table is buffered. When
      `fenceFlushes` holds, an opening fence does too, so that a table
      never spans a code block. */
  function Flushes(s: RenderState, line: Str, fenceFlushes: bool): bool {
    if s.inCodeBlock then false
    else if FenceLang(line).Some? then fenceFlushes && s.tableBuffer != []
    else !IsTableRow(TrimSpace(line)) && s.tableBuffer != []
  }

  /** renderLine. */
  function StepWith(s: RenderState, line: Str, idx: nat, env: MdEnv, fenceFlushes: bool): (r: StepResult) {
    StepResult(NextState(s, line, idx), Rendered(s, line, env), Flushes(s, line, fenceFlushes))
  }

  /** renderLine as written: a layout is asked for only outside a code
      block, with a table buffered that the line leaves alone, and an opening
      fence never asks for one, so it leaves a buffered table buffered. */
  function StepAsWritten(s: RenderState, line: Str, idx: nat, env: MdEnv): (r: StepResult)
    ensures r.flush ==> !s.inCodeBlock && s.tableBuffer != [] && r.next.tableBuffer == s.tableBuffer
    ensures !s.inCodeBlock && FenceLang(line).Some? ==> !r.flush && r.next.inCodeBlock
  {
    StepWith(s, line, idx, env, false)
  }

  /** renderLine as the one-to-one line mapping needs it: as written, except
      that an opening fence asks for a buffered table to be laid out. */
  function Step(s: RenderState, line: Str, idx: nat, env: MdEnv): (r: StepResult)
    ensures r.flush ==> !s.inCodeBlock && s.tableBuffer != [] && r.next.tableBuffer == s.tableBuffer
    ensures !s.inCodeBlock && FenceLang(line).Some? ==> (r.flush <==> s.tableBuffer != []) && r.next.inCodeBlock
  {
    StepWith(s, line, idx, env, true)
  }

  /** The renderer (mdRenderer): whether it is inside a code block and in
      what language, and the buffered table with the index of its first
      line. */
  class Renderer {
    var inCodeBlock: bool
    var codeLang: Str
    var tableBuffer: seq<TableRow>
    var tableStart: nat

    ghost function State(): RenderState
      reads this
    {
      RenderState(inCodeBlock, codeLang, tableBuffer, tableStart)
    }

    constructor ()
      ensures State() == Initial
    {
      inCodeBlock, codeLang, tableBuffer, tableStart := false, [], [], 0;
    }

    /** renderLine, with an opening fence asking for a buffered table to be
        laid out first. */
    method RenderLine(line: Str, lineIdx: nat, env: MdEnv) returns (rendered: Str, flush: bool)
      modifies this
      ensures var r := Step(old(State()), line, lineIdx, env);
        State() == r.next && rendered == r.rendered && flush == r.flush
    {
      var trimmed := TrimSpace(line);
      if inCodeBlock {
        if HasPrefix(trimmed, Fence) {
          inCodeBlock := false;
          return [], false;
        }
        return env.codeLine(line, codeLang), false;
      }
      var lang := FenceLang(line);
      if lang.Some? {
        inCodeBlock := true;
        codeLang := lang.value;
        return [], tableBuffer != [];
      }
      if IsTableRow(trimmed) {
        BufferRow(trimmed, lineIdx);
        return [], false;
      }
      rendered := RenderTextLine(line, env.style);
      flush := tableBuffer != [];
    }

    /** The table branch of renderLine: the row is buffered, and the first
        row of a table records the index of its line. */
    method BufferRow(trimmed: Str, lineIdx: nat)
      modifies this
      ensures State() == old(State()).(tableBuffer := old(tableBuffer) + [RowOf(trimmed)],
        tableStart := if old(tableBuffer) == [] then lineIdx else old(tableStart))
    {
      if tableBuffer == [] {
        tableStart := lineIdx;
      }
      if IsTableSeparator(trimmed) {
        tableBuffer := tableBuffer + [Separator];
      } else {
        var cells := ParseTableCells(trimmed);
        tableBuffer := tableBuffer + [Cells(cells)];
      }
    }

    /** flushTable: lays out the buffered table and clears the buffer; with
        nothing buffered it returns nothing and changes nothing. */
    method FlushTable(env: MdEnv) returns (lines: seq<Str>)
      modifies this
      ensures lines == TableLines(old(tableBuffer), env)
      ensures State() == if old(tableBuffer) == [] then old(State())
        else old(State()).(tableBuffer := [], tableStart := 0)
    {
      if |tableBuffer| == 0 {
        return [];
      }
      var header, body := SplitRows(tableBuffer);
      var styled := StyleRows(body, env.style);
      var rendered := env.table(header, styled);
      var outputLines := Split(rendered, Newline);
      lines := FitLines(outputLines, |tableBuffer|);
      tableBuffer := [];
      tableStart := 0;
    }
  }

  // ---------------------------------------------------------------------
  // The whole file

  /** The state after some lines and the output so far, one slot per line. */
  datatype Doc = Doc(st: RenderState, res: seq<Str>)

  /** `res` with the slots from `start` on replaced by `lines`, as far as
      they go. */
  function Filled(res: seq<Str>, start: nat, lines: seq<Str>): (r: seq<Str>)
    ensures |r| == |res|
  {
    seq(|res|, k requires 0 <= k < |res| => if start <= k < start + |lines| then lines[k - start] else res[k])
  }

  /** A buffered table laid out over the lines from its start, and the
      buffer cleared. */
  function Flushed(d: Doc, env: MdEnv): (r: Doc)
    ensures |r.res| == |d.res|
  {
    if d.st.tableBuffer == [] then d
    else Doc(d.st.(tableBuffer := [], tableStart := 0),
             Filled(d.res, d.st.tableStart, TableLines(d.st.tableBuffer, env)))
  }

  /** One line of the loop of highlightMarkdownLines: the line is rendered,
      a table it ends is laid out over its lines, and the rendered line is
      stored in its own slot. */
  function Advance(d: Doc, line: Str, idx: nat, env: MdEnv, fenceFlushes: bool): (e: Doc)
    ensures |e.res| == |d.res|
  {
    var r := StepWith(d.st, line, idx, env, fenceFlushes);
    var e := Doc(r.next, d.res);
    var f := if r.flush then Flushed(e, env) else e;
    Doc(f.st, if idx < |f.res| then f.res[idx := r.rendered] else f.res)
  }

  /** The loop of highlightMarkdownLines over the first `n` lines. */
  function RunWith(lines: seq<Str>, n: nat, env: MdEnv, fenceFlushes: bool): (d: Doc)
    requires n <= |lines|
    ensures |d.res| == |lines|
  {
    if n == 0 then Doc(Initial, seq(|lines|, _ => []))
    else Advance(RunWith(lines, n - 1, env, fenceFlushes), lines[n - 1], n - 1, env, fenceFlushes)
  }

  /** highlightMarkdownLines: every line rendered, and a table still
      buffered at the end laid out. */
  function HighlightWith(lines: seq<Str>, env: MdEnv, fenceFlushes: bool): (r: seq<Str>)
    ensures |r| == |lines|
  {
    Flushed(RunWith(lines, |lines|, env, fenceFlushes), env).res
  }

  function HighlightAsWritten(lines: seq<Str>, env: MdEnv): (r: seq<Str>)
    ensures |r| == |lines|
  {
    HighlightWith(lines, env, false)
  }

  function Highlight(lines: seq<Str>, env: MdEnv): (r: seq<Str>)
    ensures |r| == |lines|
  {
    HighlightWith(lines, env, true)
  }

  /** Writes the laid out table back over its lines, skipping any line past
      the end of the output. */
  method BackFill(res: array<Str>, start: nat, tableLines: seq<Str>)
    modifies res
    ensures res[..] == Filled(old(res[..]), start, tableLines)
  {
    for j := 0 to |tableLines|
      invariant res[..] == Filled(old(res[..]), start, tableLines[..j])
    {
      var idx := start + j;
      if idx < res.Length {
        res[idx] := tableLines[j];
      }
    }
    assert tableLines[..|tableLines|] == tableLines;
  }

  /** One pass of the loop of highlightMarkdownLines. */
  method Feed(r: Renderer, res: array<Str>, line: Str, i: nat, env: MdEnv)
    requires i < res.Length
    modifies r, res
    ensures Doc(r.State(), res[..]) == Advance(Doc(old(r.State()), old(res[..])), line, i, env, true)
  {
    var rendered, flush := r.RenderLine(line, i, env);
    if flush && |r.tableBuffer| > 0 {
      var startIdx := r.tableStart;
      var tableLines := r.FlushTable(env);
      BackFill(res, startIdx, tableLines);
    }
    res[i] := rendered;
  }

  /** A table still buffered at the end is laid out over its lines. */
  method FlushRest(r: Renderer, res: array<Str>, env: MdEnv)
    modifies r, res
    ensures Doc(r.State(), res[..]) == Flushed(Doc(old(r.State()), old(res[..])), env)
  {
    if |r.tableBuffer| > 0 {
      var startIdx := r.tableStart;
      var tableLines := r.FlushTable(env);
      BackFill(res, startIdx, tableLines);
    }
  }

  /** The loop of highlightMarkdownLines, from a fresh renderer and an
      output of empty lines. */
  method RenderAll(r: Renderer, res: array<Str>, lines: seq<Str>, env: MdEnv)
    requires res.Length == |lines|
    requires Doc(r.State(), res[..]) == RunWith(lines, 0, env, true)
    modifies r, res
    ensures Doc(r.State(), res[..]) == RunWith(lines, |lines|, env, true)
  {
    for i := 0 to |lines|
      invariant Doc(r.State(), res[..]) == RunWith(lines, i, env, true)
    {
      Feed(r, res, lines[i], i, env);
    }
  }

  /** highlightMarkdownLines: one output line per input line. */
  method HighlightMarkdownLines(lines: seq<Str>, env: MdEnv) returns (result: seq<Str>)
    ensures result == Highlight(lines, env)
  {
    var r := new Renderer();
    var res := new Str[|lines|](_ => []);
    assert res[..] == seq(|lines|, _ => []);
    RenderAll(r, res, lines, env);
    FlushRest(r, res, env);
    result := res[..];
  }

  // ---------------------------------------------------------------------
  // Where a table is written back

  /** The buffered rows of lines `a` up to `b`, every one of which has a
      '|' once trimmed. */
  ghost predicate TableLinesBetween(lines: seq<Str>, a: nat, b: nat, buffer: seq<TableRow>)
    requires a <= b <= |lines|
    decreases b - a
  {
    if b == a then buffer == []
    else
      && buffer != []
      && IsTableRow(TrimSpace(lines[b - 1]))
      && buffer[|buffer| - 1] == RowOf(TrimSpace(lines[b - 1]))
      && TableLinesBetween(lines, a, b - 1, buffer[..|buffer| - 1])
  }

  /** The lines of a buffer of table rows are table rows. */
  lemma {:induction false} TableLinesAreRows(lines: seq<Str>, a: nat, b: nat, buffer: seq<TableRow>, k: nat)
    requires a <= k < b <= |lines| && TableLinesBetween(lines, a, b, buffer)
    ensures |buffer| == b - a
    ensures IsTableRow(TrimSpace(lines[k])) && buffer[k - a] == RowOf(TrimSpace(lines[k]))
    decreases b - a
  {
    if k < b - 1 {
      TableLinesAreRows(lines, a, b - 1, buffer[..|buffer| - 1], k);
    } else if b - 1 > a {
      TableLinesAreRows(lines, a, b - 1, buffer[..|buffer| - 1], b - 2);
    }
  }

  /** The renderer's state after the first `n` lines keeps a buffered table
      exactly over its own lines: the buffer holds the rows of the lines
      from its start up to the current one, each of which has a '|', and no
      table is buffered inside a code block. */
  ghost predicate BufferedOwnLines(lines: seq<Str>, n: nat, st: RenderState)
    requires n <= |lines|
  {
    && (st.inCodeBlock ==> st.tableBuffer == [])
    && (st.tableBuffer != [] ==> st.tableStart <= n && TableLinesBetween(lines, st.tableStart, n, st.tableBuffer))
  }

  /** The state after a line, once a table it ends is laid out. */
  function Settle(s: RenderState, line: Str, idx: nat, fenceFlushes: bool): RenderState {
    var t := NextState(s, line, idx);
    if Flushes(s, line, fenceFlushes) && t.tableBuffer != [] then t.(tableBuffer := [], tableStart := 0) else t
  }

  /** The states of the loop of highlightMarkdownLines. */
  function RunStates(lines: seq<Str>, n: nat, fenceFlushes: bool): RenderState
    requires n <= |lines|
  {
    if n == 0 then Initial else Settle(RunStates(lines, n - 1, fenceFlushes), lines[n - 1], n - 1, fenceFlushes)
  }

  lemma {:induction false} RunStatesAgree(lines: seq<Str>, n: nat, env: MdEnv, fenceFlushes: bool)
    requires n <= |lines|
    ensures RunWith(lines, n, env, fenceFlushes).st == RunStates(lines, n, fenceFlushes)
  {
    if n > 0 {
      RunStatesAgree(lines, n - 1, env, fenceFlushes);
      AdvanceSettles(RunWith(lines, n - 1, env, fenceFlushes), lines[n - 1], n - 1, env, fenceFlushes);
    }
  }

  /** One line of the loop leaves the state that settling the line gives. */
  lemma AdvanceSettles(d: Doc, line: Str, idx: nat, env: MdEnv, fenceFlushes: bool)
    ensures Advance(d, line, idx, env, fenceFlushes).st == Settle(d.st, line, idx, fenceFlushes)
  {
  }

  /** One line keeps the buffer over its own lines. */
  lemma StepBuffersOwnLines(lines: seq<Str>, n: nat, st: RenderState)
    requires n < |lines| && BufferedOwnLines(lines, n, st)
    ensures BufferedOwnLines(lines, n + 1, Settle(st, lines[n], n, true))
  {
    var line := lines[n];
    var trimmed := TrimSpace(line);
    if !st.inCodeBlock && FenceLang(line).None? && IsTableRow(trimmed) {
      var buffer := st.tableBuffer + [RowOf(trimmed)];
      assert buffer[..|buffer| - 1] == st.tableBuffer;
    }
  }

  lemma {:induction false} RunBuffersOwnLines(lines: seq<Str>, n: nat)
    requires n <= |lines|
    ensures BufferedOwnLines(lines, n, RunStates(lines, n, true))
  {
    if n > 0 {
      RunBuffersOwnLines(lines, n - 1);
      StepBuffersOwnLines(lines, n - 1, RunStates(lines, n - 1, true));
    }
  }

  /** Laying out a table buffered over its own lines changes only slots of
      table rows below `n`. */
  lemma FlushedWritesOwnLines(lines: seq<Str>, n: nat, d: Doc, env: MdEnv)
    requires n <= |lines| && |d.res| == |lines|
    requires d.st.tableBuffer != [] ==> d.st.tableStart <= n && TableLinesBetween(lines, d.st.tableStart, n, d.st.tableBuffer)
    ensures forall k | 0 <= k < |lines| && Flushed(d, env).res[k] != d.res[k] ::
      k < n && IsTableRow(TrimSpace(lines[k]))
  {
    forall k | 0 <= k < |lines| && Flushed(d, env).res[k] != d.res[k]
      ensures k < n && IsTableRow(TrimSpace(lines[k]))
    {
      var start := d.st.tableStart;
      var buffer := d.st.tableBuffer;
      assert buffer != [];
      assert start <= k < start + |buffer|;
      TableLinesAreRows(lines, start, n, buffer, start);
      TableLinesAreRows(lines, start, n, buffer, k);
    }
  }

  /** A line that asks for a layout leaves the buffer as it was. */
  lemma FlushKeepsBuffer(s: RenderState, line: Str, idx: nat)
    requires Flushes(s, line, true)
    ensures NextState(s, line, idx).tableBuffer == s.tableBuffer
    ensures NextState(s, line, idx).tableStart == s.tableStart
  {
  }

  /** Each line of highlightMarkdownLines changes only its own slot and
      slots below it, and a slot below it only when that slot's line was a
      buffered table row: the laid out table lands on the lines it came
      from. */
  lemma AdvanceWritesTableRows(lines: seq<Str>, n: nat, env: MdEnv)
    requires n < |lines|
    ensures var d := RunWith(lines, n, env, true);
      var e := RunWith(lines, n + 1, env, true);
      forall k | 0 <= k < |lines| && k != n && e.res[k] != d.res[k] ::
        k < n && IsTableRow(TrimSpace(lines[k]))
  {
    var d := RunWith(lines, n, env, true);
    RunStatesAgree(lines, n, env, true);
    RunBuffersOwnLines(lines, n);
    var r := StepWith(d.st, lines[n], n, env, true);
    var e := Doc(r.next, d.res);
    if r.flush {
      FlushKeepsBuffer(d.st, lines[n], n);
      FlushedWritesOwnLines(lines, n, e, env);
    }
  }

  /** The table still buffered at the end of the file lands on its own
      lines too. */
  lemma LastFlushWritesTableRows(lines: seq<Str>, env: MdEnv)
    ensures var d := RunWith(lines, |lines|, env, true);
      forall k | 0 <= k < |lines| && Highlight(lines, env)[k] != d.res[k] ::
        IsTableRow(TrimSpace(lines[k]))
  {
    RunStatesAgree(lines, |lines|, env, true);
    RunBuffersOwnLines(lines, |lines|);
    FlushedWritesOwnLines(lines, |lines|, RunWith(lines, |lines|, env, true), env);
  }

  /** A table row, a code block, and a second table row. */
  const FencedTable: seq<Str> := [[Pipe, 0x61, Pipe], Fence, Fence, [Pipe, 0x62, Pipe]]

  /** As written, the second row joins the first one's buffer across the
      code block, and the laid out table is written over the slots of the
      first row and of the opening fence; the slot of the second row keeps
      the empty placeholder. */
  lemma FencedTableAsWritten(env: MdEnv)
    ensures var d := RunWith(FencedTable, 4, env, false);
      && d.st.tableStart == 0
      && d.st.tableBuffer == [RowOf(TrimSpace(FencedTable[0])), RowOf(TrimSpace(FencedTable[3]))]
      && HighlightAsWritten(FencedTable, env)[1] == TableLines(d.st.tableBuffer, env)[1]
      && HighlightAsWritten(FencedTable, env)[3] == []
  {
    var lines := FencedTable;
    var row0, row3 := RowOf(TrimSpace(lines[0])), RowOf(TrimSpace(lines[3]));
    FencedTableLines();
    var d0 := RunWith(lines, 0, env, false);
    var d1 := Advance(d0, lines[0], 0, env, false);
    assert RunWith(lines, 1, env, false) == d1;
    assert d1.st == Initial.(tableBuffer := [row0]) && d1.res[1] == [] && d1.res[3] == [];
    var d2 := Advance(d1, lines[1], 1, env, false);
    assert RunWith(lines, 2, env, false) == d2;
    assert d2.st == d1.st.(inCodeBlock := true) && d2.res[1] == [] && d2.res[3] == [];
    var d3 := Advance(d2, lines[2], 2, env, false);
    assert RunWith(lines, 3, env, false) == d3;
    assert d3.st == d1.st && d3.res[1] == [] && d3.res[3] == [];
    var d4 := Advance(d3, lines[3], 3, env, false);
    assert RunWith(lines, 4, env, false) == d4;
    assert d4.st == d1.st.(tableBuffer := [row0, row3]) && d4.res[1] == [] && d4.res[3] == [];
    var out := Flushed(d4, env).res;
    assert out[1] == TableLines(d4.st.tableBuffer, env)[1] && out[3] == [];
  }

  /** With an opening fence laying out the table before it, each row of
      the same lines is written over its own slot, and both fences stay
      empty. */
  lemma FencedTableCorrected(env: MdEnv)
    ensures var out := Highlight(FencedTable, env);
      && out[0] == TableLines([RowOf(TrimSpace(FencedTable[0]))], env)[0]
      && out[1] == [] && out[2] == []
      && out[3] == TableLines([RowOf(TrimSpace(FencedTable[3]))], env)[0]
  {
    var lines := FencedTable;
    var row3 := RowOf(TrimSpace(lines[3]));
    FencedTableLines();
    FencedTableFirstFlush(env);
    var d2 := RunWith(lines, 2, env, true);
    var d3 := Advance(d2, lines[2], 2, env, true);
    assert RunWith(lines, 3, env, true) == d3;
    assert d3.st == Initial;
    assert d3.res[0] == d2.res[0] && d3.res[1] == [] && d3.res[2] == [];
    var d4 := Advance(d3, lines[3], 3, env, true);
    assert RunWith(lines, 4, env, true) == d4;
    assert d4.st == Initial.(tableBuffer := [row3], tableStart := 3);
    assert d4.res[0] == d2.res[0] && d4.res[1] == [] && d4.res[2] == [];
    var out := Flushed(d4, env).res;
    assert out[0] == d2.res[0] && out[1] == [] && out[2] == [];
  }

  /** The opening fence lays out the one-row table before it. */
  lemma FencedTableFirstFlush(env: MdEnv)
    ensures var d := RunWith(FencedTable, 2, env, true);
      && d.st == Initial.(inCodeBlock := true)
      && d.res[0] == TableLines([RowOf(TrimSpace(FencedTable[0]))], env)[0]
      && d.res[1] == []
  {
    var lines := FencedTable;
    var row0 := RowOf(TrimSpace(lines[0]));
    FencedTableLines();
    var d0 := RunWith(lines, 0, env, true);
    var d1 := Advance(d0, lines[0], 0, env, true);
    assert RunWith(lines, 1, env, true) == d1;
    assert d1.st == Initial.(tableBuffer := [row0]);
    var d2 := Advance(d1, lines[1], 1, env, true);
    assert RunWith(lines, 2, env, true) == d2;
  }

  /** How the renderer classifies the four lines. */
  lemma FencedTableLines()
    ensures FenceLang(FencedTable[0]).None? && IsTableRow(TrimSpace(FencedTable[0]))
    ensures FenceLang(FencedTable[1]) == Some([]) && HasPrefix(TrimSpace(FencedTable[2]), Fence)
    ensures FenceLang(FencedTable[3]).None? && IsTableRow(TrimSpace(FencedTable[3]))
  {
  }
}
