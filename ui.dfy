/** The state machine of internal/ui/model.go: the file list with its
    selection and scroll window, the list height, the viewport geometry, the
    choice of what the preview shows, and the rendering of the file list. */
module Ui {
  import opened Bytes
  import opened Ansi
  import opened Wrap
  import opened Paths
  import opened Preview

  /** The fields of git.FileStatus that the user interface reads. */
  datatype FileStatus = FileStatus(path: Str, status: Str, gitCode: Str, gitRoot: Str, fullPath: Str)

  /** The code the model calls but does not contain: reading a file below the
      watched directory, the diff-line classifier, the syntax highlighter,
      the lipgloss styles, the build flag and the terminal's rune widths. */
  datatype Env = Env(
    readFile: (Str, Str) -> Option<Str>,
    diffLines: (Str, Str) -> map<int, Str>,
    highlight: (Str, Str) -> seq<Str>,
    style: Style,
    devBuild: bool,
    rw: RuneWidth)

  const Uncommitted: Str := B("uncommitted")
  const WasDeleted: Str := B(" was deleted")
  const CouldNotRead: Str := B("couldn't read ")
  const NotSupported: Str := B("not supported in perch")
  /** "no file extension — open in your editor", with the em dash in UTF-8. */
  const NoExtension: Str := B("no file extension ") + [0xe2, 0x80, 0x94] + B(" open in your editor")

  /** What updatePreviewKeepScroll does with the preview. */
  datatype Outcome =
    | Cleared
    | Kept
    | Shown(message: Str, rawLines: seq<Str>, highlighted: seq<Str>, diffLines: map<int, Str>)

  /** The message for an unsupported file: its base name, then the reason. */
  function UnsupportedMessage(path: Str): Str {
    Base(path) + [Newline] + (if Ext(path) == [] then NoExtension else NotSupported)
  }

  /** The decision of updatePreviewKeepScroll: clear when the viewport is not
      ready or there are no files, keep a valid preview of the same file,
      else show a message (deleted, unsupported, unreadable) or the file's
      lines, with diff statuses only for an uncommitted file. */
  function PreviewOutcome(ready: bool, files: seq<FileStatus>, selected: int, lastSelected: int,
                          previewValid: bool, dir: Str, gitRoot: Str, env: Env): (o: Outcome)
    requires files == [] || 0 <= selected < |files|
    ensures o.Cleared? <==> !ready || files == []
    ensures o.Kept? <==> ready && files != [] && selected == lastSelected && previewValid
  {
    if !ready || files == [] then Cleared
    else if selected == lastSelected && previewValid then Kept
    else
      var f := files[selected];
      if Contains(f.gitCode, B("D")) then Shown(f.path + WasDeleted, [], [], map[])
      else if IsUnsupportedFile(f.path) then Shown(UnsupportedMessage(f.path), [], [], map[])
      else
        var diff := if f.status == Uncommitted then env.diffLines(if f.gitRoot == [] then gitRoot else f.gitRoot, f.fullPath)
                    else map[];
        match env.readFile(dir, f.path)
        case None => Shown(CouldNotRead + f.path, [], [], map[])
        case Some(content) => Shown([], Split(content, Newline), env.highlight(content, f.path), diff)
  }

  /** The shown outcomes of the decision: every shown preview is a
      non-empty message or the lines of a readable, supported, undeleted file,
      and diff statuses appear only for an uncommitted file. */
  lemma PreviewOutcomeCases(ready: bool, files: seq<FileStatus>, selected: int, lastSelected: int,
                            previewValid: bool, dir: Str, gitRoot: Str, env: Env)
    requires files == [] || 0 <= selected < |files|
    ensures var o := PreviewOutcome(ready, files, selected, lastSelected, previewValid, dir, gitRoot, env);
      o.Shown? ==>
            var f := files[selected];
            && (Contains(f.gitCode, B("D")) ==> o.message == f.path + WasDeleted)
            && (o.message == [] <==>
                  !Contains(f.gitCode, B("D")) && !IsUnsupportedFile(f.path) && env.readFile(dir, f.path).Some?)
            && (o.message == [] ==>
                  o.rawLines == Split(env.readFile(dir, f.path).value, Newline)
                  && |o.rawLines| >= 1)
            && (o.diffLines != map[] ==> f.status == Uncommitted && o.message == [])
  {
    var o := PreviewOutcome(ready, files, selected, lastSelected, previewValid, dir, gitRoot, env);
    if o.Shown? {
      var f := files[selected];
      assert |WasDeleted| > 0 && |CouldNotRead| > 0;
      assert |UnsupportedMessage(f.path)| > 0;
    }
  }

  // ---------------------------------------------------------------------
  // Selection and the list window

  /** The rows the list can show below the header in the down-key rule. */
  function Capacity(listHeight: int): int {
    if listHeight - 3 < 1 then 1 else listHeight - 3
  }

  /** The rows kept below the selection before the list scrolls down. */
  function BottomBuffer(listHeight: int): int {
    if Capacity(listHeight) <= 2 then 0 else 2
  }

  /** The first index whose path is `p`, or -1. */
  function FindPath(files: seq<FileStatus>, p: Str): (k: int)
    ensures -1 <= k < |files|
    ensures k >= 0 ==> files[k].path == p && forall j | 0 <= j < k :: files[j].path != p
    ensures k < 0 ==> forall j | 0 <= j < |files| :: files[j].path != p
    decreases |files|
  {
    if files == [] then -1
    else if files[0].path == p then 0
    else
      var k := FindPath(files[1..], p);
      if k < 0 then -1 else k + 1
  }

  /** The selection after a refresh: 0 if the old selection was 0, else the
      index of the previously selected path (0 when gone), clamped into the
      new list. */
  function SelectionAfterRefresh(oldSelected: int, oldPath: Str, files: seq<FileStatus>): (s: int)
    ensures files == [] ==> s == 0
    ensures files != [] ==> 0 <= s < |files|
    ensures oldSelected == 0 ==> s == 0
    ensures oldSelected != 0 && FindPath(files, oldPath) >= 0 ==> s == FindPath(files, oldPath) && files[s].path == oldPath
    ensures oldSelected != 0 && FindPath(files, oldPath) < 0 ==> s == 0
  {
    var k := if oldSelected == 0 then 0 else FindPath(files, oldPath);
    var n := if k < 0 then 0 else k;
    var c := if n >= |files| then |files| - 1 else n;
    if c < 0 then 0 else c
  }

  /** The `sameFile` flag of a refresh: the first file has the old path when
      the selection was at the top, else some file has it. */
  function SameFile(oldSelected: int, oldPath: Str, files: seq<FileStatus>): bool {
    if oldSelected == 0 then files != [] && files[0].path == oldPath
    else FindPath(files, oldPath) >= 0
  }

  /** A refresh keeps the scroll exactly when the file it selects is the file
      selected before it. */
  lemma SameFileSelects(oldSelected: int, oldPath: Str, files: seq<FileStatus>)
    ensures SameFile(oldSelected, oldPath, files) <==>
      files != [] && files[SelectionAfterRefresh(oldSelected, oldPath, files)].path == oldPath
  {
    if oldSelected != 0 && files != [] && FindPath(files, oldPath) < 0 {
      assert files[0].path != oldPath;
    }
  }

  /** A resize keeps the text of the old size when the preview is kept: a
      valid preview of the selected file is kept, yet the one-line message
      "x" sits one column further right at width 4 than at width 2 (with one
      column per byte and a plain style). */
  lemma StaleAfterResize(dir: Str, gitRoot: Str, env: Env)
    ensures PreviewOutcome(true, [FileStatus([0x78], [], [], [], [])], 0, 0, true, dir, gitRoot, env) == Kept
    ensures PreviewText(true, [0x78], [], [], 2, 1, PlainStyle, env.rw) == [0x78]
    ensures PreviewText(true, [0x78], [], [], 4, 1, PlainStyle, env.rw) == [Space, 0x78]
  {
    ValidPreviewKept(dir, gitRoot, env);
    MessageAtWidth2(env.rw);
    MessageAtWidth4(env.rw);
  }

  /** One column per byte and no decoration. */
  const PlainStyle := Style(t => |t|, t => t, t => t, t => t, t => t, t => t, t => t)

  lemma ValidPreviewKept(dir: Str, gitRoot: Str, env: Env)
    ensures PreviewOutcome(true, [FileStatus([0x78], [], [], [], [])], 0, 0, true, dir, gitRoot, env) == Kept
  {
  }

  lemma MessageAtWidth2(rw: RuneWidth)
    ensures PreviewText(true, [0x78], [], [], 2, 1, PlainStyle, rw) == [0x78]
  {
  }

  lemma MessageAtWidth4(rw: RuneWidth)
    ensures PreviewText(true, [0x78], [], [], 4, 1, PlainStyle, rw) == [Space, 0x78]
  {
  }

  // ---------------------------------------------------------------------
  // The file list

  /** The visible part of the list: the indicators and the index range. */
  datatype Window = Window(showUp: bool, showDown: bool, slots: int, start: int, end: int)

  /** The visible-range arithmetic of renderFileList: at least one slot; the
      range ends inside the list; the indicators say whether files lie above
      and below; and the window shows at least one file whenever the scroll
      offset is inside the list. */
  function FileWindow(listScroll: int, listHeight: int, n: int): (w: Window)
    ensures w.slots >= 1
    ensures w.end <= n
    ensures w.start == listScroll
    ensures w.showUp <==> listScroll > 0
    ensures w.end - w.start <= w.slots
    ensures 0 <= listScroll < n ==> w.start < w.end
    ensures !w.showDown ==> w.end == n || listScroll + w.slots >= n
    ensures w.end < n ==> listScroll + w.slots < n
  {
    var showUp := listScroll > 0;
    var slots0 := listHeight - 1 - (if showUp then 1 else 0);
    var showDown := listScroll + slots0 < n;
    var slots1 := slots0 - (if showDown then 1 else 0);
    var slots := if slots1 < 1 then 1 else slots1;
    var end := if listScroll + slots > n then n else listScroll + slots;
    Window(showUp, showDown, slots, listScroll, end)
  }

  /** The icon of a file: done, new, or modified. */
  function Icon(f: FileStatus): Str {
    if f.status == Uncommitted then
      if f.gitCode == B("??") || f.gitCode == B("A ") || f.gitCode == B("AM") then
        [0xe2, 0x9c, 0xa6, Space]  // "✦ "
      else B("- ")
    else [0xe2, 0x9c, 0x93, Space]  // "✓ "
  }

  /** A path shortened from the left to at most `maxLen` bytes: a short
      path as it is, a long one as "..." and the path's last bytes. */
  function DisplayPath(p: Str, maxLen: int): (d: Str)
    requires maxLen >= 10
    ensures |d| <= maxLen
    ensures |p| <= maxLen ==> d == p
    ensures |p| > maxLen ==> |d| == maxLen && HasPrefix(d, B("...")) && HasSuffix(p, d[3..])
  {
    if |p| > maxLen then
      var d := B("...") + p[|p| - maxLen + 3..];
      assert d[3..] == p[|p| - maxLen + 3..];
      assert d[..3] == B("...");
      d
    else p
  }

  /** The widest path shown for a terminal `width` columns wide. */
  function MaxPathLen(width: int): int {
    if width - 8 < 10 then 10 else width - 8
  }

  const Chevron: Str := [0xe2, 0x80, 0xba, Space]  // "› "

  function FileRow(f: FileStatus, isSelected: bool, maxLen: int, style: Style): Str
    requires maxLen >= 10
  {
    var display := DisplayPath(f.path, maxLen);
    if isSelected then style.selected(Chevron + Icon(f) + display)
    else [Space, Space] + style.dim(Icon(f)) + display
  }

  /** The rows of files `start` up to `end`. */
  function FileRows(files: seq<FileStatus>, start: int, end: int, selected: int, maxLen: int, style: Style): (r: seq<Str>)
    requires 0 <= start <= end <= |files| && maxLen >= 10
    ensures |r| == end - start
    decreases end - start
  {
    if end == start then []
    else FileRows(files, start, end - 1, selected, maxLen, style)
         + [FileRow(files[end - 1], end - 1 == selected, maxLen, style)]
  }

  /** The "  ..." indicator row. */
  function Dots(style: Style): Str {
    style.dim(B("  ..."))
  }

  const DevMarker: Str := B("[dev] ")
  const Title: Str := B("LATEST PROGRESS")
  const PerchedOn: Str := B("perched on ")

  /** The header row: sparkle, title and arrows on the left, the watched
      directory on the right. A development build opens it with its marker,
      and it ends with the watched directory cut to its last two parts. */
  function HeaderRow(dir: Str, sparkleOn: bool, width: int, env: Env): (r: Str)
    ensures env.devBuild ==> HasPrefix(r, env.style.dim(DevMarker))
    ensures HasSuffix(r, env.style.dim(TruncatePath(dir, 2)))
  {
    var style := env.style;
    var sparkle := (if sparkleOn then style.blue else style.blueDim)([0xe2, 0x9c, 0xa7]);  // "✧"
    var devMarker := if env.devBuild then style.dim(DevMarker) else [];
    var title := sparkle + [Space] + style.dim(Title) + [Space, Space]
                 + style.dim([0xe2, 0x86, 0x91, 0xe2, 0x86, 0x93]);  // "↑↓"
    var header := devMarker + title;
    var hint := style.dim(TruncatePath(dir, 2));
    var pathHint := style.dim(PerchedOn) + hint;
    var r := PadLine(header, pathHint, width, style.cols);
    r
  }

  /** The list rows before padding: the header first, alone for an empty
      list, and followed by at least one file row while the scroll offset is
      inside the list. */
  function ListContent(header: Str, files: seq<FileStatus>, selected: int, listScroll: int, listHeight: int,
                       width: int, style: Style): (r: seq<Str>)
    requires listScroll >= 0
    ensures |r| >= 1 && r[0] == header
    ensures files == [] ==> |r| == 1
    ensures listScroll < |files| ==> |r| >= 2
  {
    if files == [] then [header]
    else
      var w := FileWindow(listScroll, listHeight, |files|);
      [header] + (if w.showUp then [Dots(style)] else [])
      + (if w.start < w.end then FileRows(files, w.start, w.end, selected, MaxPathLen(width), style) else [])
      + (if w.showDown then [Dots(style)] else [])
  }

  /** `rows` followed by empty rows up to `height`. */
  function Padded(rows: seq<Str>, height: int): (r: seq<Str>)
    ensures |r| == if |rows| >= height then |rows| else height
    ensures r[..|rows|] == rows
    ensures forall k | |rows| <= k < |r| :: r[k] == []
  {
    if |rows| >= height then rows else rows + seq(height - |rows|, _ => [])
  }

  /** The list has exactly `listHeight` rows when there are at least four, and
      a file row for each index of the window. */
  lemma ListHeightExact(header: Str, files: seq<FileStatus>, selected: int, listScroll: int, listHeight: int,
                        width: int, style: Style)
    requires listScroll >= 0 && listHeight >= 4
    ensures |Padded(ListContent(header, files, selected, listScroll, listHeight, width, style), listHeight)| == listHeight
  {
  }

  /** With the smallest list height, three, and files both above and below
      the window, the list takes four rows: the header, both indicators and
      the one file the slot count never goes below. */
  lemma ListOverflowAtThree(header: Str, style: Style)
    ensures var files := seq(5, _ => FileStatus([], [], [], [], []));
      |Padded(ListContent(header, files, 1, 1, 3, 80, style), 3)| == 4
  {
    var files := seq(5, _ => FileStatus([], [], [], [], []));
    var w := FileWindow(1, 3, 5);
    assert w.showUp && w.showDown && w.slots == 1 && w.end == 2;
  }

  // ---------------------------------------------------------------------
  // The model

  /** The user-interface model. Selection and list scroll are indices into
      `files`; the viewport is its width, height, content and scroll offset. */
  class Model {
    const env: Env
    var files: seq<FileStatus>
    var selected: int
    var lastSelectedFile: int
    var listScroll: int
    const dir: Str
    const gitRoot: Str
    var width: int
    var height: int
    var listHeight: int
    var previewReady: bool
    var preview: PreviewContent
    var vpWidth: int
    var vpHeight: int
    var vpContent: Str
    var vpOffset: int
    var sparkleOn: bool

    /** The selection is a file of the list (0 for an empty list), the
        scroll offset is not negative, the list has at least three rows, and
        the wrap cache holds true wraps. */
    ghost predicate Valid()
      reads this, preview
    {
      && listScroll >= 0
      && listHeight >= 3
      && (if files == [] then selected == 0 else 0 <= selected < |files|)
      && preview.CacheValid(env.rw)
    }

    /** The state an update of the preview leaves alone: the list, the
        selection, the layout and the viewport geometry. */
    ghost function Frame(): (seq<FileStatus>, int, int, int, int, int, bool, int, int, bool)
      reads this
    {
      (files, selected, listScroll, listHeight, width, height, previewReady, vpWidth, vpHeight, sparkleOn)
    }

    /** The state only a resize or a list-height change touches: the
        terminal size, whether the viewport is ready, its width and height,
        and the sparkle of the header. */
    ghost function Layout(): (int, int, bool, int, int, bool)
      reads this
    {
      (width, height, previewReady, vpWidth, vpHeight, sparkleOn)
    }

    /** The viewport holds the preview's text at the current width and
        viewport height. */
    ghost predicate Shows()
      reads this, preview
    {
      vpContent == preview.Text(width, vpHeight, env.style, env.rw)
    }

    /** What updatePreviewKeepScroll leaves for the outcome `o`, given the
        preview, viewport text and scroll offset before it. A cleared preview
        is empty and so is the viewport; a kept one leaves all three alone; a
        shown one holds the outcome's fields, its text is in the viewport,
        the selection is recorded, and the offset is 0 unless kept. */
    ghost predicate Displays(o: Outcome, keepScroll: bool, oldPreview: PreviewContent, oldContent: Str, oldOffset: int)
      reads this, preview
    {
      match o
      case Cleared =>
        && !preview.valid && preview.message == [] && preview.highlightedLines == []
        && vpContent == [] && lastSelectedFile == -1 && vpOffset == oldOffset
      case Kept =>
        preview == oldPreview && vpContent == oldContent && vpOffset == oldOffset
      case Shown(message, rawLines, highlighted, diffLines) =>
        && preview.Fields() == (true, message, rawLines, highlighted, diffLines)
        && vpContent == preview.Text(width, vpHeight, env.style, env.rw)
        && lastSelectedFile == selected
        && vpOffset == (if keepScroll then oldOffset else 0)
    }

    /** What the corrected recalculateViewport leaves for the outcome `o`:
        a kept preview keeps its fields and the scroll offset, anything else
        is what updatePreviewKeepScroll leaves for it. */
    ghost predicate Redrawn(o: Outcome, oldPreview: PreviewContent, oldFields: (bool, Str, seq<Str>, seq<Str>, map<int, Str>),
                            oldContent: Str, oldOffset: int)
      reads this, preview
    {
      if o.Kept? then preview == oldPreview && preview.Fields() == oldFields && vpOffset == oldOffset
      else Displays(o, false, oldPreview, oldContent, oldOffset)
    }

    /** New: an empty list, eight list rows, an 80 by 10 viewport. */
    constructor (dir: Str, gitRoot: Str, env: Env)
      ensures Valid()
      ensures this.env == env && this.dir == dir && this.gitRoot == gitRoot
      ensures files == [] && selected == 0 && listScroll == 0 && listHeight == 8
      ensures width == 0 && height == 0 && !sparkleOn
      ensures !previewReady && !preview.valid && vpWidth == 80 && vpHeight == 10
      ensures lastSelectedFile == 0 && vpContent == [] && vpOffset == 0
      ensures Shows()
    {
      this.env := env;
      this.dir := dir;
      this.gitRoot := gitRoot;
      files := [];
      selected := 0;
      lastSelectedFile := 0;
      listScroll := 0;
      width := 0;
      height := 0;
      listHeight := 8;
      previewReady := false;
      preview := new PreviewContent(false, [], [], [], map[]);
      vpWidth := 80;
      vpHeight := 10;
      vpContent := [];
      vpOffset := 0;
      sparkleOn := false;
    }

    /** The up key: move the selection up one file, keeping one row above it. */
    method KeyUp()
      requires Valid()
      modifies this, preview
      ensures Valid()
      ensures files == old(files) && listHeight == old(listHeight) && Layout() == old(Layout())
      ensures old(selected) == 0 ==> unchanged(this) && unchanged(preview)
      ensures old(selected) > 0 ==>
        && selected == old(selected) - 1
        && listScroll <= old(listScroll)
        && (selected >= listScroll + 1 || listScroll == 0)
        && (old(selected) >= old(listScroll) + 2 ==> listScroll == old(listScroll))
        && lastSelectedFile == (if previewReady then selected else -1)
        && (previewReady ==> preview.valid)
        && Displays(PreviewOutcome(previewReady, files, selected, old(lastSelectedFile), old(preview.valid), dir, gitRoot, env),
                    false, old(preview), old(vpContent), old(vpOffset))
      ensures old(Shows()) ==> Shows()
    {
      if selected > 0 {
        selected := selected - 1;
        var topBuffer := 1;
        if selected < listScroll + topBuffer {
          listScroll := selected - topBuffer;
          if listScroll < 0 {
            listScroll := 0;
          }
        }
        UpdatePreviewKeepScroll(false);
      }
    }

    /** The down key: move the selection down one file, keeping a buffer of
        two rows below it when the window is big enough. */
    method KeyDown()
      requires Valid()
      modifies this, preview
      ensures Valid()
      ensures files == old(files) && listHeight == old(listHeight) && Layout() == old(Layout())
      ensures old(selected) >= |files| - 1 ==> unchanged(this) && unchanged(preview)
      ensures old(selected) < |files| - 1 ==>
        && selected == old(selected) + 1
        && listScroll >= old(listScroll)
        && selected < listScroll + Capacity(listHeight) - BottomBuffer(listHeight)
        && (selected < old(listScroll) + Capacity(listHeight) - BottomBuffer(listHeight) ==> listScroll == old(listScroll))
        && lastSelectedFile == (if previewReady then selected else -1)
        && (previewReady ==> preview.valid)
        && Displays(PreviewOutcome(previewReady, files, selected, old(lastSelectedFile), old(preview.valid), dir, gitRoot, env),
                    false, old(preview), old(vpContent), old(vpOffset))
      ensures old(Shows()) ==> Shows()
    {
      if selected < |files| - 1 {
        selected := selected + 1;
        var visibleCapacity := listHeight - 3;
        if visibleCapacity < 1 {
          visibleCapacity := 1;
        }
        var bottomBuffer := 2;
        if visibleCapacity <= bottomBuffer {
          bottomBuffer := 0;
        }
        if selected >= listScroll + visibleCapacity - bottomBuffer {
          listScroll := selected - visibleCapacity + bottomBuffer + 1;
        }
        UpdatePreviewKeepScroll(false);
      }
    }

    /** The "+" and "=" keys: one more list row while the terminal leaves ten
        rows for the rest. */
    method GrowList()
      requires Valid()
      modifies this, preview
      ensures Valid()
      ensures files == old(files) && selected == old(selected) && listScroll == old(listScroll)
      ensures width == old(width) && height == old(height) && sparkleOn == old(sparkleOn)
      ensures listHeight == if old(listHeight) < height - 10 then old(listHeight) + 1 else old(listHeight)
      ensures listHeight == old(listHeight) ==> unchanged(this) && unchanged(preview)
      ensures listHeight > old(listHeight) ==>
        && listHeight < height - 9 && previewReady && vpWidth == width
        && vpHeight == (if height - listHeight - 4 < 1 then 1 else height - listHeight - 4)
        && (files != [] ==> lastSelectedFile == selected && preview.valid)
        && Redrawn(PreviewOutcome(true, files, selected, old(lastSelectedFile), old(preview.valid), dir, gitRoot, env),
                   old(preview), old(preview.Fields()), old(vpContent), old(vpOffset))
      ensures old(Shows()) || listHeight > old(listHeight) ==> Shows()
    {
      if listHeight < height - 10 {
        listHeight := listHeight + 1;
        RecalculateViewport();
      }
    }

    /** The "-" and "_" keys: one row fewer, never below three. */
    method ShrinkList()
      requires Valid()
      modifies this, preview
      ensures Valid()
      ensures files == old(files) && selected == old(selected) && listScroll == old(listScroll)
      ensures width == old(width) && height == old(height) && sparkleOn == old(sparkleOn)
      ensures listHeight == if old(listHeight) > 3 then old(listHeight) - 1 else old(listHeight)
      ensures listHeight >= 3
      ensures listHeight == old(listHeight) ==> unchanged(this) && unchanged(preview)
      ensures listHeight < old(listHeight) ==>
        && previewReady && vpWidth == width
        && vpHeight == (if height - listHeight - 4 < 1 then 1 else height - listHeight - 4)
        && (files != [] ==> lastSelectedFile == selected && preview.valid)
        && Redrawn(PreviewOutcome(true, files, selected, old(lastSelectedFile), old(preview.valid), dir, gitRoot, env),
                   old(preview), old(preview.Fields()), old(vpContent), old(vpOffset))
      ensures old(Shows()) || listHeight < old(listHeight) ==> Shows()
    {
      if listHeight > 3 {
        listHeight := listHeight - 1;
        RecalculateViewport();
      }
    }

    /** A terminal resize. */
    method Resize(w: int, h: int)
      requires Valid()
      modifies this, preview
      ensures Valid()
      ensures width == w && height == h && vpWidth == w && previewReady
      ensures vpHeight == (if h - listHeight - 4 < 1 then 1 else h - listHeight - 4)
      ensures files == old(files) && selected == old(selected) && listScroll == old(listScroll)
      ensures listHeight == old(listHeight) && sparkleOn == old(sparkleOn)
      ensures files != [] ==> lastSelectedFile == selected && preview.valid
      ensures Redrawn(PreviewOutcome(true, files, selected, old(lastSelectedFile), old(preview.valid), dir, gitRoot, env),
                      old(preview), old(preview.Fields()), old(vpContent), old(vpOffset))
      ensures Shows()
    {
      SetSize(w, h);
      RecalculateViewport();
    }

    /** The new terminal size, before the viewport is recalculated. */
    method SetSize(w: int, h: int)
      modifies this
      ensures width == w && height == h
      ensures files == old(files) && selected == old(selected) && listScroll == old(listScroll)
      ensures listHeight == old(listHeight) && sparkleOn == old(sparkleOn)
      ensures lastSelectedFile == old(lastSelectedFile) && preview == old(preview)
      ensures vpContent == old(vpContent) && vpOffset == old(vpOffset)
    {
      width := w;
      height := h;
    }

    /** recalculateViewport, corrected: as written, and then the preview is
        drawn again at the new size, which a kept preview otherwise is not. */
    method RecalculateViewport()
      requires Valid()
      modifies this, preview
      ensures Valid()
      ensures previewReady && vpWidth == width
      ensures vpHeight == if height - listHeight - 4 < 1 then 1 else height - listHeight - 4
      ensures files == old(files) && selected == old(selected) && listScroll == old(listScroll)
      ensures listHeight == old(listHeight) && width == old(width) && height == old(height)
      ensures sparkleOn == old(sparkleOn)
      ensures files != [] ==> lastSelectedFile == selected && preview.valid
      ensures Redrawn(PreviewOutcome(true, files, selected, old(lastSelectedFile), old(preview.valid), dir, gitRoot, env),
                      old(preview), old(preview.Fields()), old(vpContent), old(vpOffset))
      ensures Shows()
    {
      ghost var o := PreviewOutcome(true, files, selected, lastSelectedFile, preview.valid, dir, gitRoot, env);
      RecalculateViewportAsWritten();
      Redraw();
      assert Redrawn(o, old(preview), old(preview.Fields()), old(vpContent), old(vpOffset));
    }

    /** recalculateViewport as written: the viewport takes the rows the
        list, the divider, the header, its underline and the footer leave,
        at least one, and the full width; then updatePreviewKeepScroll runs,
        which leaves the viewport text of a still valid preview of the same
        file as it was, laid out for the old size. */
    method RecalculateViewportAsWritten()
      requires Valid()
      modifies this, preview
      ensures Valid()
      ensures previewReady && vpWidth == width
      ensures vpHeight == if height - listHeight - 4 < 1 then 1 else height - listHeight - 4
      ensures files == old(files) && selected == old(selected) && listScroll == old(listScroll)
      ensures listHeight == old(listHeight) && width == old(width) && height == old(height)
      ensures sparkleOn == old(sparkleOn)
      ensures files != [] ==> lastSelectedFile == selected && preview.valid
      ensures preview == old(preview) || fresh(preview)
      ensures var o := PreviewOutcome(true, files, selected, old(lastSelectedFile), old(preview.valid), dir, gitRoot, env);
        && Displays(o, false, old(preview), old(vpContent), old(vpOffset))
        && (o.Kept? ==> preview.Fields() == old(preview.Fields()))
    {
      var previewHeight := height - listHeight - 4;
      if previewHeight < 1 {
        previewHeight := 1;
      }
      vpWidth := width;
      vpHeight := previewHeight;
      previewReady := true;
      ghost var o := PreviewOutcome(true, files, selected, lastSelectedFile, preview.valid, dir, gitRoot, env);
      ghost var before, content, offset := preview, vpContent, vpOffset;
      UpdatePreviewKeepScroll(false);
      assert Displays(o, false, before, content, offset);
    }

    /** A refreshed file list: keep the top if the selection was there, else
        follow the selected path, clamp, and rebuild the preview, keeping the
        scroll when the same file is still selected. */
    method FilesLoaded(newFiles: seq<FileStatus>)
      requires Valid()
      modifies this, preview
      ensures Valid()
      ensures files == newFiles
      ensures var oldPath := if old(files) == [] then [] else old(files)[old(selected)].path;
        selected == SelectionAfterRefresh(old(selected), oldPath, newFiles)
      ensures listScroll == old(listScroll) && listHeight == old(listHeight) && Layout() == old(Layout())
      ensures lastSelectedFile == (if previewReady && newFiles != [] then selected else -1)
      ensures previewReady && newFiles != [] ==> preview.valid
      ensures var oldPath := if old(files) == [] then [] else old(files)[old(selected)].path;
        var o := PreviewOutcome(previewReady, newFiles, selected, -1, old(preview.valid), dir, gitRoot, env);
        && !o.Kept?
        && Displays(o, SameFile(old(selected), oldPath, newFiles), old(preview), old(vpContent), old(vpOffset))
      ensures Shows()
    {
      var newSelected, sameFile := Reselect(files, selected, newFiles);
      files := newFiles;
      selected := newSelected;
      ForceUpdatePreview(sameFile);
    }

    /** The tail of the refresh: forget the file shown, so that the preview
        is built again, then update it. */
    method ForceUpdatePreview(keepScroll: bool)
      requires Valid()
      modifies this, preview
      ensures Valid()
      ensures Frame() == old(Frame())
      ensures lastSelectedFile == if previewReady && files != [] then selected else -1
      ensures previewReady && files != [] ==> preview.valid
      ensures var o := PreviewOutcome(previewReady, files, selected, -1, old(preview.valid), dir, gitRoot, env);
        && !o.Kept?
        && Displays(o, keepScroll, old(preview), old(vpContent), old(vpOffset))
      ensures Shows()
    {
      ghost var before, shown, offset := preview, vpContent, vpOffset;
      lastSelectedFile := -1;
      ghost var o := PreviewOutcome(previewReady, files, selected, lastSelectedFile, before.valid, dir, gitRoot, env);
      UpdatePreviewKeepScroll(keepScroll);
      assert Displays(o, keepScroll, before, shown, offset);
    }

    /** updatePreviewKeepScroll: act on PreviewOutcome. A cleared preview
        empties the viewport and forgets the last file; a kept one changes
        nothing; a shown one replaces the preview, puts its text in the
        viewport, scrolls to the top unless asked to keep the
        scroll, and records the selection as the file shown. */
    method UpdatePreviewKeepScroll(keepScroll: bool)
      requires Valid()
      modifies this, preview
      ensures Valid()
      ensures Frame() == old(Frame())
      ensures lastSelectedFile == if previewReady && files != [] then selected else -1
      ensures previewReady && files != [] ==> preview.valid
      ensures preview == old(preview) || fresh(preview)
      ensures var o := PreviewOutcome(old(previewReady), old(files), old(selected), old(lastSelectedFile),
                                      old(preview.valid), dir, gitRoot, env);
        && Displays(o, keepScroll, old(preview), old(vpContent), old(vpOffset))
        && (o.Kept? ==> preview.Fields() == old(preview.Fields()))
        && (old(Shows()) || !o.Kept? ==> Shows())
    {
      var o := Decide();
      match o {
        case Cleared =>
          preview := new PreviewContent(false, [], [], [], map[]);
          vpContent := [];
          lastSelectedFile := -1;
        case Kept =>
        case Shown(message, rawLines, highlighted, diffLines) =>
          Show(message, rawLines, highlighted, diffLines, keepScroll);
      }
    }

    /** The checks of updatePreviewKeepScroll, in its order, with the reads
        of the diff statuses and the file they make. */
    method Decide() returns (o: Outcome)
      requires Valid()
      ensures o == PreviewOutcome(previewReady, files, selected, lastSelectedFile, preview.valid, dir, gitRoot, env)
    {
      if !previewReady || |files| == 0 {
        return Cleared;
      }
      if selected == lastSelectedFile && preview.valid {
        return Kept;
      }
      var file := files[selected];
      if Contains(file.gitCode, B("D")) {
        return Shown(file.path + WasDeleted, [], [], map[]);
      }
      if IsUnsupportedFile(file.path) {
        var reason := NotSupported;
        if Ext(file.path) == [] {
          reason := NoExtension;
        }
        return Shown(Base(file.path) + [Newline] + reason, [], [], map[]);
      }
      var diffLines: map<int, Str>;
      if file.status == Uncommitted {
        var root := file.gitRoot;
        if root == [] {
          root := gitRoot;
        }
        diffLines := env.diffLines(root, file.fullPath);
      } else {
        diffLines := map[];
      }
      var content := env.readFile(dir, file.path);
      if content.None? {
        return Shown(CouldNotRead + file.path, [], [], map[]);
      }
      var rawLines := Split(content.value, Newline);
      var highlightedLines := env.highlight(content.value, file.path);
      return Shown([], rawLines, highlightedLines, diffLines);
    }

    /** The viewport takes the preview's text at the current width and
        viewport height; the preview keeps its fields. */
    method Redraw()
      requires preview.CacheValid(env.rw)
      modifies this, preview
      ensures Frame() == old(Frame()) && preview == old(preview)
      ensures preview.CacheValid(env.rw) && preview.Fields() == old(preview.Fields())
      ensures vpContent == preview.Text(width, vpHeight, env.style, env.rw)
      ensures lastSelectedFile == old(lastSelectedFile) && vpOffset == old(vpOffset)
    {
      var text := preview.Render(width, vpHeight, env.style, env.rw);
      vpContent := text;
    }

    /** The tail every showing branch of updatePreviewKeepScroll shares. */
    method Show(message: Str, rawLines: seq<Str>, highlighted: seq<Str>, diffLines: map<int, Str>, keepScroll: bool)
      modifies this
      ensures Frame() == old(Frame())
      ensures fresh(preview)
      ensures preview.CacheValid(env.rw) && preview.Fields() == (true, message, rawLines, highlighted, diffLines)
      ensures vpContent == preview.Text(width, vpHeight, env.style, env.rw)
      ensures lastSelectedFile == selected
      ensures vpOffset == if keepScroll then old(vpOffset) else 0
    {
      preview := new PreviewContent(true, message, rawLines, highlighted, diffLines);
      Redraw();
      if !keepScroll {
        vpOffset := 0;
      }
      lastSelectedFile := selected;
    }

    /** renderFileList: the header, then the window's files between the
        indicators, padded with empty rows to the list height, one row per
        line. */
    method RenderFileList() returns (s: Str)
      requires Valid()
      ensures var rows := Padded(ListContent(HeaderRow(dir, sparkleOn, width, env), files, selected, listScroll,
                                             listHeight, width, env.style), listHeight);
        s == Join(rows, Newline) + [Newline]
    {
      var style := env.style;
      var header := HeaderRow(dir, sparkleOn, width, env);
      var lines: seq<Str> := [header];
      if |files| > 0 {
        var w := VisibleRange(listScroll, listHeight, |files|);
        var upDots: seq<Str> := [];
        if w.showUp {
          upDots := [Dots(style)];
        }
        var maxPathLen := width - 8;
        if maxPathLen < 10 {
          maxPathLen := 10;
        }
        assert maxPathLen == MaxPathLen(width);
        var rows := RenderRows(files, w.start, w.end, selected, maxPathLen, style);
        var downDots: seq<Str> := [];
        if w.showDown {
          downDots := [Dots(style)];
        }
        lines := lines + upDots + rows + downDots;
      }
      lines := PadRows(lines, listHeight);
      s := Join(lines, Newline) + [Newline];
    }
  }

  /** The selection step of the file refresh: the old selection's path,
      then the top when the selection was there, else the first file with
      that path, clamped into the new list; and whether the same file is
      selected again. */
  method Reselect(oldFiles: seq<FileStatus>, oldSelected: int, newFiles: seq<FileStatus>) returns (selected: int, sameFile: bool)
    requires if oldFiles == [] then oldSelected == 0 else 0 <= oldSelected < |oldFiles|
    ensures var oldPath := if oldFiles == [] then [] else oldFiles[oldSelected].path;
      && selected == SelectionAfterRefresh(oldSelected, oldPath, newFiles)
      && sameFile == SameFile(oldSelected, oldPath, newFiles)
  {
    var wasAtTop := oldSelected == 0;
    var selectedPath: Str := [];
    if 0 <= oldSelected < |oldFiles| {
      selectedPath := oldFiles[oldSelected].path;
    }
    selected, sameFile := 0, false;
    if wasAtTop {
      sameFile := |newFiles| > 0 && newFiles[0].path == selectedPath;
    } else {
      selected, sameFile := Locate(newFiles, selectedPath);
    }
    if selected >= |newFiles| {
      selected := |newFiles| - 1;
    }
    if selected < 0 {
      selected := 0;
    }
  }

  /** The search loop of the file refresh: the first file with path `p`,
      or 0 and no match. */
  method Locate(files: seq<FileStatus>, p: Str) returns (k: int, found: bool)
    ensures found <==> FindPath(files, p) >= 0
    ensures k == if found then FindPath(files, p) else 0
  {
    k, found := 0, false;
    var i := 0;
    while i < |files|
      invariant 0 <= i <= |files|
      invariant forall j | 0 <= j < i :: files[j].path != p
      invariant k == 0 && !found
    {
      if files[i].path == p {
        k, found := i, true;
        break;
      }
      i := i + 1;
    }
  }

  /** The visible-range arithmetic of renderFileList, step by step. */
  method VisibleRange(listScroll: int, listHeight: int, n: int) returns (w: Window)
    ensures w == FileWindow(listScroll, listHeight, n)
  {
    var showUpDots := listScroll > 0;
    var fileSlots := listHeight - 1;
    if showUpDots {
      fileSlots := fileSlots - 1;
    }
    var potentialEnd := listScroll + fileSlots;
    var showDownDots := potentialEnd < n;
    if showDownDots {
      fileSlots := fileSlots - 1;
    }
    if fileSlots < 1 {
      fileSlots := 1;
    }
    var visibleEnd := listScroll + fileSlots;
    if visibleEnd > n {
      visibleEnd := n;
    }
    w := Window(showUpDots, showDownDots, fileSlots, listScroll, visibleEnd);
  }

  /** The loop over the visible files of renderFileList. */
  method RenderRows(files: seq<FileStatus>, start: int, end: int, selected: int, maxLen: int, style: Style)
    returns (rows: seq<Str>)
    requires 0 <= start && end <= |files| && maxLen >= 10
    ensures rows == if start < end then FileRows(files, start, end, selected, maxLen, style) else []
  {
    rows := [];
    if start < end {
      var i := start;
      while i < end
        invariant start <= i <= end
        invariant rows == FileRows(files, start, i, selected, maxLen, style)
      {
        var row := RenderRow(files[i], i == selected, maxLen, style);
        rows := rows + [row];
        i := i + 1;
      }
    }
  }

  /** One pass of the row loop: the path shortened from the left, then the
      row, marked when it is the selection. */
  method RenderRow(f: FileStatus, isSelected: bool, maxLen: int, style: Style) returns (row: Str)
    requires maxLen >= 10
    ensures row == FileRow(f, isSelected, maxLen, style)
  {
    var display := f.path;
    if |display| > maxLen {
      display := B("...") + display[|display| - maxLen + 3..];
    }
    if isSelected {
      row := style.selected(Chevron + Icon(f) + display);
    } else {
      row := [Space, Space] + style.dim(Icon(f)) + display;
    }
  }

  /** The padding loop of renderFileList. */
  method PadRows(lines: seq<Str>, height: int) returns (r: seq<Str>)
    ensures r == Padded(lines, height)
  {
    r := lines;
    while |r| < height
      invariant |r| >= |lines|
      invariant |r| <= if |lines| >= height then |lines| else height
      invariant r[..|lines|] == lines
      invariant forall k | |lines| <= k < |r| :: r[k] == []
      decreases height - |r|
    {
      r := r + [[]];
    }
  }
}
