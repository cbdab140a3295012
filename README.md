# perch user interface core, in Dafny

perch is a terminal viewer that watches a git working tree and shows the
most recently changed files with a syntax-highlighted, diff-coloured preview
of the selected one. This project models the core of its user-interface
package `internal/ui`:

- **the wrapping engine** (`wrap.go`): scanning strings that carry ECMA-48
  control sequences (ESC `[` parameters final-byte), decoding UTF-8 runes,
  measuring visible width with a tab as four columns, cutting a highlighted
  string after a number of columns while carrying the styles still open, and
  wrapping each highlighted line into visual lines with diff gutters and a
  hanging indent; background injection for diff lines;
- **the model** (`model.go`): the file list with its selection, scroll
  offset and height; the keys that move the selection and resize the list;
  the selection kept across a refresh of the file list; the viewport
  geometry; the decision of what the preview shows (nothing, the same
  preview, a message for a deleted, unsupported or unreadable file, or the
  file's lines); the per-width cache of wrapped lines; the text given to the
  viewport; the rendering of the file list; and the path helpers;
- **the markdown renderer** (`markdown.go`): the line-by-line renderer with
  its code-block mode and its table buffer that is laid out and written back
  over the lines the rows came from, and the hand-written parsers for
  headings, list items, links, table cells and inline markup;
- **ERB templates** (`erb.go`): restyling the tags of an already highlighted
  line, and the file-name tests.

Go strings are byte strings here (`Bytes.Str`, a sequence of bytes). Code the
package calls but does not contain is a parameter: the rune-width table
(`Ansi.RuneWidth`, 0, 1 or 2 columns per rune), the lipgloss styles and
their width measure (`Preview.Style`, `Markdown.MdStyle`), the lipgloss
table layout and the chroma highlighters (`MarkdownRender.MdEnv`,
`Ui.Env.highlight`), the file reader and the git diff classifier
(`Ui.Env`), and the matches of the ERB tag pattern (`Erb.ErbEnv`).

Where the code changes state the model does too: `Ui.Model`,
`Preview.PreviewContent` and `MarkdownRender.Renderer` are classes whose
methods update their fields, and every loop of the source is a method with
its invariants, proved equal to a function that states what it computes.
The properties are proved about those functions.

Modules: `Bytes` (strings), `Ansi` and `AnsiSlice` (scanning and cutting),
`Wrap`, `Paths`, `Preview`, `Ui`, `Markdown`, `MarkdownText`,
`MarkdownRender`, `Erb`.

## Model

| member | source | states |
|---|---|---|
| Bytes.Index | internal/ui/markdown.go:429 | strings.Index: -1 when the marker does not occur, else an index where it occurs with no earlier occurrence |
| Bytes.TrimSpaceShape | internal/ui/markdown.go:76 | the trimmed string has no white space at either end |
| Bytes.JoinSplit | internal/ui/model.go:701 | joining the pieces of a split with the separator gives the string back |
| Bytes.SplitJoin | internal/ui/model.go:705 | splitting a join of separator-free pieces gives the pieces back |
| Ansi.FinalFrom | internal/ui/wrap.go:109-117 | the scan stops just past a final byte (0x40..0x7E), or at the end of the string |
| Ansi.SeqEnd | internal/ui/wrap.go:105-118 | a control sequence ends at least two bytes after its start, just past its final byte or at the end of the string |
| Ansi.SkipAnsi | internal/ui/wrap.go:105-118 | skipANSI returns i + 1 where no sequence starts, else the end of the sequence starting at i |
| Ansi.LeadLength | internal/ui/wrap.go:73-87 | the announced length is 1 to 4, and 1 for an ASCII byte |
| Ansi.DecodeRune | internal/ui/wrap.go:69-96 | size 0 past the end; otherwise a size of 1 to 4 that stays inside the string, an ASCII byte or an invalid or truncated lead byte decoding to itself with size 1, and a non-ASCII lead never giving an ASCII rune |
| Ansi.RuneCols | internal/ui/wrap.go:45-50 | a rune takes at most 4 columns, and a tab exactly 4 |
| Ansi.Next | internal/ui/wrap.go:56-63 | each scanning step moves forward and stays inside the string |
| Ansi.TokenCols | internal/ui/wrap.go:56-63 | a token takes at most 4 columns |
| Ansi.VisibleWidth | internal/ui/wrap.go:53-66 | the loop returns the sum of the columns of the runes, control sequences counting 0 |
| Ansi.ColsPrefix | internal/ui/wrap.go:53-66 | the columns of a prefix ending at a token boundary plus the columns of the rest are the columns of the whole string |
| Ansi.NextPrefix | internal/ui/wrap.go:98-118 | a token that ends inside a prefix is the same token, with the same columns, in the prefix |
| Ansi.FinalFromWindow | internal/ui/wrap.go:109-117 | the end of a sequence depends only on the bytes up to its final byte |
| Ansi.AnsiStartIntroducer | internal/ui/wrap.go:98-103 | isAnsiStart(s, i) (`Ansi.IsAnsiStart`) holds exactly when ESC '[' occurs at i, both bytes inside the string; every reset starts such a sequence |
| AnsiSlice.Scan | internal/ui/wrap.go:133-160 | the copying loop stops at a token boundary reachable from the start |
| AnsiSlice.SinceLastReset | internal/ui/wrap.go:140-145 | the tracked sequences never include a reset |
| AnsiSlice.Slice | internal/ui/wrap.go:122-178 | a width of 0 or less gives ("", s, ""); otherwise the remainder is a suffix of s and the content is the bytes before it, followed by a reset exactly when styles are still open |
| AnsiSlice.SliceAnsiAware | internal/ui/wrap.go:122-178 | sliceANSIAware returns exactly Slice(s, maxWidth) |
| AnsiSlice.SliceWidth | internal/ui/wrap.go:133-160 | the visible columns of the content never exceed maxWidth, and when something is left over the content fills maxWidth or the next rune would not have fitted |
| AnsiSlice.SliceActive | internal/ui/wrap.go:139-171 | no style is carried, and no closing reset added, exactly when no control sequence was copied or the last one copied was a reset; otherwise the carried styles end with that last sequence |
| AnsiSlice.SliceProgress | internal/ui/wrap.go:122-178 | with at least 4 columns, a cut that leaves something over returns complete control sequences as active styles, and those plus the remainder are shorter than the input |
| AnsiSlice.SliceKeepsCarry | internal/ui/wrap.go:216-229 | styles carried in front of a continuation are copied whole: the cut never falls inside them |
| Wrap.SplitOn | internal/ui/wrap.go:26 | the pieces between occurrences of the pattern: at least one, none containing the pattern |
| Wrap.SplitOnJoin | internal/ui/wrap.go:26 | joining the pieces with the pattern gives the string back |
| Wrap.ReplaceAllSplit | internal/ui/wrap.go:26 | strings.ReplaceAll is the pieces joined with the replacement |
| Wrap.InjectBackground | internal/ui/wrap.go:21-27 | with no background the line is unchanged; otherwise it opens with the background, and a line without a reset is just the background followed by the line |
| Wrap.InjectBackgroundShape | internal/ui/wrap.go:21-27 | an empty background leaves the line unchanged; otherwise the result is the background followed by the reset-free pieces of the line, joined by a reset and the background each |
| Wrap.CountLeadingSpaces | internal/ui/wrap.go:30-42 | the loop returns the leading columns: 1 per space and 4 per tab up to the first other byte |
| Wrap.LeadingColumnsRun | internal/ui/wrap.go:30-42 | the count is the number of leading blanks plus 3 per leading tab, and 0 exactly when the string does not open with a space or tab |
| Wrap.ClampWidthAsWritten | internal/ui/wrap.go:183-185 | as written: at least one content column beside the gutter, and only a width that leaves none is changed |
| Wrap.ClampWidth | internal/ui/wrap.go:183-185 | corrected: room for the widest rune (4 columns) beside the gutter, and only a width that leaves less is changed |
| Wrap.ClampStallsAsWritten | internal/ui/wrap.go:183-185 | at width 5 the written clamp leaves one content column, and a line "\t" is cut into nothing copied, nothing carried and "\t" left over on every pass |
| Wrap.ClampWidthEnough | internal/ui/wrap.go:183-186 | the corrected clamp leaves room for the widest rune, and agrees with the written one for widths up to 4 and from 8 on; widths 5 to 7 are widened too |
| Wrap.Segments | internal/ui/wrap.go:214-257 | the passes of the wrapping loop: at least one, the first carrying the given styles |
| Wrap.Lines | internal/ui/wrap.go:242-248 | one visual line per pass |
| Wrap.WrapHighlightedLine | internal/ui/wrap.go:182-260 | the loop returns exactly the visual lines of WrapLine, one per pass |
| Wrap.WrapLoop | internal/ui/wrap.go:207-259 | from an empty result, the slicing loop appends one visual line per pass of the line, carrying open styles and the hanging indent into every continuation, and stops after the pass that leaves nothing |
| Wrap.SegmentsRoundTrip | internal/ui/wrap.go:214-257 | the bytes the passes copy for the first time are the whole line, in order: wrapping loses and repeats nothing |
| Wrap.SegmentsFit | internal/ui/wrap.go:221-229 | every pass is its carried styles, its new bytes and a closing reset when styles stay open, and fits the columns available to it |
| Wrap.SegmentsChain | internal/ui/wrap.go:214-257 | each pass carries the styles the previous one left open, and only the last pass leaves nothing over |
| Wrap.WrapLine | internal/ui/wrap.go:182-260 | at least one visual line, the first being segment 0 of the line, with its index, its status and the status gutter |
| Wrap.WrapLineShape | internal/ui/wrap.go:182-260 | at least one segment; segment indices 0, 1, 2, ...; the line's index and status on every segment; the status gutter first and a blank gutter after; an indent of at most half the content width that every indented continuation starts with; at least 10 columns for an indented continuation |
| Wrap.WrapLineRoundTrip | internal/ui/wrap.go:209-257 | the segments put the line back together: copied bytes in order, each text its indent, carried styles, new bytes and closing reset, each within its available columns |
| Wrap.LineGroups | internal/ui/wrap.go:266-280 | one group of segments per highlighted line |
| Wrap.WrapAll | internal/ui/wrap.go:263-284 | no visual line exactly when there is no line |
| Wrap.WrapAllLines | internal/ui/wrap.go:263-284 | the loop returns the groups of all lines, one after the other |
| Wrap.FlattenOrder | internal/ui/wrap.go:263-284 | flattened groups keep line order, carry their line's status, and each line's group opens with its segment 0 |
| Wrap.LineGroupsGrouped | internal/ui/wrap.go:266-280 | every line's group is non-empty, opens with segment 0 and carries the line's index and the status of line number i + 1 |
| Wrap.FlattenSlice | internal/ui/wrap.go:280 | a line's group sits in the result right after the groups before it |
| Wrap.WrapAllOrder | internal/ui/wrap.go:263-284 | every visual line belongs to an input line and carries the status of its 1-based line number, line indices never decrease, every line has its segment 0, and a line without a raw line gets no hanging indent; each visual line of such a line is its pass's carried styles, the pass's new bytes and, when styles are open, a closing reset |
| Paths.Ext | internal/ui/model.go:536 | filepath.Ext: a suffix of the path that is empty or starts with its only '.' and holds no '/' |
| Paths.ExtOfLastElement | internal/ui/model.go:536-538 | the extension is empty exactly when the last path element has no '.', and otherwise ends that element |
| Paths.Base | internal/ui/model.go:326 | filepath.Base is never empty, and for a path with a non-slash byte it is a slash-free suffix of the path without its trailing slashes |
| Paths.IsUnsupportedFile | internal/ui/model.go:535-556 | a supported file has an extension, and its lower-cased form is not one of the listed ones |
| Paths.UnsupportedCases | internal/ui/model.go:535-556 | a name with no '.' in its last element or with a listed extension in any letter case is unsupported; a supported name has both a '.' and an unlisted extension |
| Paths.KelvinExtension | internal/ui/model.go:535-556 | ".xcwor", U+212A KELVIN SIGN, "space" is unsupported: its extension lowers to ".xcworkspace" |
| Paths.TruncatePath | internal/ui/model.go:700-706 | a path of at most n slash-separated parts is returned as is |
| Paths.TruncatePathKeepsTail | internal/ui/model.go:700-706 | a path of at most n parts is returned as is; otherwise ".../" followed by a suffix of the path that splits into exactly the path's last n parts |
| Paths.PadLine | internal/ui/model.go:708-716 | left, at least one space, right; the spaces fill the row to the width when both sides fit, and are exactly one otherwise |
| Preview.PreviewContent.constructor | internal/ui/model.go:365-371 | a preview with the given fields and an empty wrap cache |
| Preview.PreviewContent.ResetWrapCache | internal/ui/model.go:59-61 | the cache is empty and nothing else changes |
| Preview.PreviewContent.WrappedLinesForWidth | internal/ui/model.go:64-74 | returns the wrap of the lines at the width, from the cache when present (the cache then unchanged), else stored under that width; every cached entry stays the true wrap at its width |
| Preview.PreviewContent.Render | internal/ui/model.go:381-408 | renderPreviewContent: nothing for an invalid preview, the centred message, nothing for no lines, else the rendered wrap, which is then cached |
| Preview.HalfPadFloor | internal/ui/model.go:390-399 | Go's truncating half clamped at 0 is half the spare room rounded down, never more |
| Preview.CenteredLines | internal/ui/model.go:389-395 | one centred line per message line |
| Preview.CenterMessage | internal/ui/model.go:386-401 | the centring loop returns MessageText |
| Preview.MessageTextShape | internal/ui/model.go:386-401 | one centred line per message line, each ending in the styled line and indented by half the spare columns, under half the spare rows |
| Preview.RenderLineShape | internal/ui/model.go:411-457 | an unchanged line is gutter, text and padding; a diff line opens with its background, carries it through every reset and ends with padding and a reset; gutter, text and padding fill the width when the text fits |
| Preview.RenderWrapped | internal/ui/model.go:410-464 | the loop returns the rendered rows joined by newlines, with no newline after the last |
| Preview.RenderRow | internal/ui/model.go:426-457 | one pass of the loop renders the line with its measured width |
| Ui.PreviewOutcome | internal/ui/model.go:293-363 | the preview is cleared exactly when the viewport is not ready or there are no files, and kept exactly when it is ready, there are files, the same file is selected and its preview is valid |
| Ui.PreviewOutcomeCases | internal/ui/model.go:293-378 | for a shown preview: a "D" code gives "<path> was deleted"; an empty message exactly for a readable, supported, undeleted file, whose raw lines are its split content; diff statuses only for an uncommitted file's lines |
| Ui.FindPath | internal/ui/model.go:240-246 | the first index holding the path, or -1 when none does |
| Ui.Locate | internal/ui/model.go:240-246 | the search loop finds exactly FindPath, or 0 and no match |
| Ui.SelectionAfterRefresh | internal/ui/model.go:219-255 | 0 for an empty list, else inside the list; 0 when the old selection was 0; otherwise the first index of the old path, or 0 when it is gone |
| Ui.SameFileSelects | internal/ui/model.go:230-247 | the refresh keeps the scroll exactly when the file it selects has the path selected before it |
| Ui.Reselect | internal/ui/model.go:219-255 | the selection step returns SelectionAfterRefresh and the `sameFile` flag SameFile |
| Ui.StaleAfterResize | internal/ui/model.go:277-304 | a valid preview of the selected file is kept by updatePreviewKeepScroll, yet its text differs between two widths: a one-line message sits one column further right at width 4 than at width 2 |
| Ui.FileWindow | internal/ui/model.go:617-635 | at least one slot; the range ends inside the list; the up indicator exactly when scrolled; at least one file shown when the offset is inside the list; files left below only with the down indicator |
| Ui.VisibleRange | internal/ui/model.go:617-635 | the arithmetic returns FileWindow |
| Ui.DisplayPath | internal/ui/model.go:657-660 | a shown path has at most maxLen bytes; a short path is unchanged; a long one is "..." and a suffix of the path, exactly maxLen bytes |
| Ui.HeaderRow | internal/ui/model.go:593-607 | a development build's header row opens with the dimmed "[dev] " marker, and every header row ends with the watched directory cut to its last two parts |
| Ui.FileRows | internal/ui/model.go:647-666 | one row per file of the range |
| Ui.ListContent | internal/ui/model.go:609-671 | the header row first, alone for an empty list, and followed by at least one file row while the scroll offset is inside the list |
| Ui.RenderRows | internal/ui/model.go:647-666 | the row loop returns FileRows, or nothing for an empty range |
| Ui.RenderRow | internal/ui/model.go:648-665 | one pass of the row loop returns FileRow |
| Ui.Padded | internal/ui/model.go:673-676 | the rows followed by empty rows up to the height, never fewer rows than given |
| Ui.PadRows | internal/ui/model.go:673-676 | the padding loop returns Padded |
| Ui.ListHeightExact | internal/ui/model.go:609-678 | with a list height of at least 4 the file list has exactly that many rows |
| Ui.ListOverflowAtThree | internal/ui/model.go:617-676 | at the smallest list height, 3, with files above and below the window the list takes 4 rows |
| Ui.Model.constructor | internal/ui/model.go:97-108 | an empty list with selection and scroll 0, 8 list rows, a terminal of 0 by 0 (Go's zero values), an 80 by 10 viewport that is not ready, with no content and offset 0, no preview, the last file 0 and the sparkle off; the viewport shows the preview |
| Ui.Model.KeyUp | internal/ui/model.go:142-153 | the list, the list height and the layout (terminal size, viewport size and readiness, sparkle) never change; at the top nothing changes at all; otherwise the selection moves up one, the offset never grows and stays at least 0, one row stays above the selection unless at offset 0, and the preview and viewport are what updatePreviewKeepScroll leaves for the outcome at the new selection (Displays); a viewport showing the preview at its size keeps doing so |
| Ui.Model.KeyDown | internal/ui/model.go:154-169 | the list, the list height and the layout never change; at the last file nothing changes at all; otherwise the selection moves down one, the offset never shrinks, and the selection ends below offset + capacity - buffer; the preview and viewport as for the up key |
| Ui.Model.GrowList | internal/ui/model.go:182-186 | the terminal size, sparkle, list, selection and offset never change; the list grows by one row only while it is shorter than height - 10, and otherwise nothing changes at all; after growing, the viewport is the full width and max(1, height - listHeight - 4) rows, the preview is what the recompute leaves for its outcome (Redrawn), and the viewport shows it at the new size |
| Ui.Model.ShrinkList | internal/ui/model.go:187-191 | the list shrinks by one row only above 3, so it never goes below 3, and otherwise nothing changes at all; the rest as for GrowList |
| Ui.Model.Resize | internal/ui/model.go:206-209 | the new size is stored; the list, selection, offset, list height and sparkle do not change; the viewport is the full width and max(1, height - listHeight - 4) rows, the preview is what the recompute leaves for its outcome (Redrawn), and the viewport shows it at the new size |
| Ui.Model.RecalculateViewport | internal/ui/model.go:277-287 | corrected: viewport height max(1, height - listHeight - 4), width the terminal's, the preview ready; the list, selection, offset, list height, terminal size and sparkle unchanged; a cleared or newly shown preview as updatePreviewKeepScroll leaves it, a kept one with its fields and offset; and the viewport shows the preview at the new size in every case |
| Ui.Model.RecalculateViewportAsWritten | internal/ui/model.go:277-287 | as written: the same geometry, then exactly what updatePreviewKeepScroll leaves for the outcome, so a kept preview keeps the viewport text it had |
| Ui.Model.FilesLoaded | internal/ui/model.go:211-259 | the new list, the selection SelectionAfterRefresh, the scroll offset of the list, its height and the layout unchanged; the outcome is never "kept", the preview and viewport are what updatePreviewKeepScroll leaves for it with the scroll kept exactly when SameFile holds, and the viewport shows the preview |
| Ui.Model.ForceUpdatePreview | internal/ui/model.go:258-259 | with the last file forgotten the outcome is never "kept"; the preview and viewport are what updatePreviewKeepScroll leaves for it, and the viewport shows the preview |
| Ui.Model.UpdatePreviewKeepScroll | internal/ui/model.go:293-378 | acts on PreviewOutcome (Displays): clears the preview and viewport (lastSelectedFile -1), keeps preview, text and offset, or shows the new preview's text in the viewport, scrolled to the top unless asked to keep it; the list, selection and layout never change; the viewport shows the preview afterwards unless a kept preview was out of date before |
| Ui.Model.Decide | internal/ui/model.go:294-363 | the checks of updatePreviewKeepScroll, in order, return PreviewOutcome |
| Ui.Model.Show | internal/ui/model.go:365-377 | a new preview with the given fields, whose cache holds only true wraps, its text in the viewport, the offset 0 unless kept, the selection recorded as shown |
| Ui.Model.RenderFileList | internal/ui/model.go:590-679 | the header, then the window's rows between the indicators, padded to the list height, joined by newlines and ending in one |
| Markdown.ClosingByte | internal/ui/markdown.go:436-443 | -1 or an index at or after start holding the byte |
| Markdown.ClosingByteFirst | internal/ui/markdown.go:436-443 | no byte between start and the one found is that byte |
| Markdown.ClosingByteAt | internal/ui/markdown.go:436-443 | the first occurrence from start is the one found |
| Markdown.FindClosingByte | internal/ui/markdown.go:436-443 | the loop returns ClosingByte |
| Markdown.FindClosing | internal/ui/markdown.go:425-434 | -1 or the first index at or after start where the marker occurs |
| Markdown.ParseLink | internal/ui/markdown.go:400-423 | a link consumes at least one byte and no more than the string |
| Markdown.ParseLinkShape | internal/ui/markdown.go:400-423 | a link found is "[text](url)" at the start, text without ']' and url without ')', consuming exactly those bytes |
| Markdown.ParseLinkOfShape | internal/ui/markdown.go:400-423 | every "[text](url)" with no ']' in the text and no ')' in the url is parsed to exactly that text and url |
| Markdown.LeadingWhitespace | internal/ui/markdown.go:261-268 | the leading spaces and tabs of the string, and nothing more |
| Markdown.Hashes | internal/ui/markdown.go:276-282 | the run of leading '#', counted up to the limit (6 in parseHeading) |
| Markdown.HeadingOf | internal/ui/markdown.go:270-298 | a heading exactly when 1 to 6 '#' are followed by a blank or the end; its level is that count and its body the trimmed rest; level 0 with no body otherwise |
| Markdown.ParseHeading | internal/ui/markdown.go:270-298 | parseHeading returns HeadingOf |
| Markdown.SevenHashesAreText | internal/ui/markdown.go:276-295 | seven '#' are never a heading |
| Markdown.Digits | internal/ui/markdown.go:324-327 | the run of leading digits |
| Markdown.ListItemOf | internal/ui/markdown.go:312-335 | an item's bullet opens the text, is shorter than it, and is followed by a blank |
| Markdown.ListItemShape | internal/ui/markdown.go:312-335 | an item is one of '-', '*', '+' or digits and '.', as its bullet, then a blank, its body the trimmed rest |
| Markdown.NumberedShape | internal/ui/markdown.go:324-334 | a numbered item's bullet is all its leading digits and the '.' |
| Markdown.ListItemOfShape | internal/ui/markdown.go:312-335 | both bullet shapes followed by a blank are items with that bullet and the trimmed rest |
| Markdown.ParseListItem | internal/ui/markdown.go:312-335 | ok exactly for an item, with its bullet and body; empty strings otherwise |
| Markdown.SepRun | internal/ui/markdown.go:31 | the run of separator-pattern bytes |
| Markdown.TableRowContains | internal/ui/markdown.go:115-117 | a line is a table row (`Markdown.IsTableRow`) exactly when strings.Contains(line, "|") holds |
| Markdown.IsTableSeparator | internal/ui/markdown.go:115-121 | the separator-row pattern, written out byte by byte; every separator row is a table row |
| Markdown.TableCells | internal/ui/markdown.go:123-131 | one cell per piece between '|' once an outer '|' is dropped on each side, each trimmed |
| Markdown.ParseTableCells | internal/ui/markdown.go:123-131 | the loop returns TableCells |
| Markdown.TableCellsRoundTrip | internal/ui/markdown.go:123-131 | a row written as '|' + trimmed pipe-free cells joined by '|' + '|' parses back to those cells |
| Markdown.FenceLang | internal/ui/markdown.go:30 | a fence exactly when the line opens with blanks and three backticks; its language is the longest run of [A-Za-z0-9_+-] bytes right after them |
| Markdown.TokenAt | internal/ui/markdown.go:341-391 | escapes, code spans, links, bold and italic found at a byte stay inside the string |
| Markdown.Next | internal/ui/markdown.go:341-395 | every token moves forward and stays inside the string |
| Markdown.RenderInlineMarkdown | internal/ui/markdown.go:337-398 | the loop returns Inline, token after token |
| Markdown.InlineStep | internal/ui/markdown.go:342-394 | one pass returns the token's piece and end |
| Markdown.Inline | internal/ui/markdown.go:337-398 | renderInlineMarkdown, token after token; text without '\\', '`', '[', '*' or '_' renders as itself |
| Markdown.InlineEscape | internal/ui/markdown.go:342-348 | text with a backslash before every escapable byte renders back to the text itself |
| MarkdownText.TextLine | internal/ui/markdown.go:236-259 | a blank line renders as nothing; any other line keeps its leading blanks in front |
| MarkdownText.StyleHeading | internal/ui/markdown.go:300-310 | the body's inline rendering in the level's style, levels beyond 2 sharing the third |
| MarkdownText.RenderTextLine | internal/ui/markdown.go:236-259 | renderMarkdownTextLine returns TextLine: leading blanks kept, then heading, list item, quote or plain text |
| MarkdownText.TextLinePlain | internal/ui/markdown.go:236-259 | a blank line renders as nothing, and a line with no markup opening byte renders as itself |
| MarkdownRender.CellRows | internal/ui/markdown.go:143-153 | the non-separator rows, never more than buffered |
| MarkdownRender.Fit | internal/ui/markdown.go:184-191 | exactly n lines |
| MarkdownRender.TableLines | internal/ui/markdown.go:133-198 | exactly one line per buffered row |
| MarkdownRender.SplitRows | internal/ui/markdown.go:139-153 | the first non-separator row is the header and the later ones the body |
| MarkdownRender.StyleRows | internal/ui/markdown.go:169-176 | each body cell with its inline markup rendered |
| MarkdownRender.FitLines | internal/ui/markdown.go:184-191 | the loop returns Fit |
| MarkdownRender.NextState | internal/ui/markdown.go:75-113 | a line adds at most its own row to the table buffer |
| MarkdownRender.StepAsWritten | internal/ui/markdown.go:75-113 | as written: a layout is asked for only outside a code block and with a table buffered, which the line leaves buffered; an opening fence never asks for one and opens a code block |
| MarkdownRender.Step | internal/ui/markdown.go:75-113 | corrected: the same, except that an opening fence asks for a layout exactly when a table is buffered |
| MarkdownRender.HighlightAsWritten | internal/ui/markdown.go:42-73 | as written: one output line per input line |
| MarkdownRender.Highlight | internal/ui/markdown.go:42-73 | corrected: one output line per input line |
| MarkdownRender.Renderer.constructor | internal/ui/markdown.go:43 | a fresh renderer: outside code, no table |
| MarkdownRender.Renderer.RenderLine | internal/ui/markdown.go:75-113 | renderLine: the new state, rendered line and flush flag of Step (a closing fence or a fence or a table row renders as ""; an opening fence lays out a buffered table first) |
| MarkdownRender.Renderer.BufferRow | internal/ui/markdown.go:93-104 | the row is appended, and the first row records its line index |
| MarkdownRender.Renderer.FlushTable | internal/ui/markdown.go:133-198 | returns one line per buffered row and clears the buffer and its start; with nothing buffered returns nothing and changes nothing |
| MarkdownRender.Filled | internal/ui/markdown.go:52-57 | writing back keeps the number of lines |
| MarkdownRender.BackFill | internal/ui/markdown.go:52-57 | the back-fill loop returns Filled, skipping slots past the end |
| MarkdownRender.Feed | internal/ui/markdown.go:45-60 | one pass of the loop is Advance |
| MarkdownRender.FlushRest | internal/ui/markdown.go:62-71 | the final flush is Flushed |
| MarkdownRender.RenderAll | internal/ui/markdown.go:45-60 | the loop over all lines is RunWith |
| MarkdownRender.HighlightMarkdownLines | internal/ui/markdown.go:42-73 | returns Highlight, which has exactly one line per input line |
| MarkdownRender.TableLinesAreRows | internal/ui/markdown.go:93-105 | a buffer kept over its lines has one row per line, each a table row |
| MarkdownRender.StepBuffersOwnLines | internal/ui/markdown.go:75-113 | each line keeps the buffer over its own lines and no table buffered in code |
| MarkdownRender.RunBuffersOwnLines | internal/ui/markdown.go:42-113 | after any number of lines the buffer holds exactly the rows of the lines from its start |
| MarkdownRender.FlushedWritesOwnLines | internal/ui/markdown.go:47-57 | laying out a buffer kept over its lines changes only slots of table rows below the current line |
| MarkdownRender.FlushKeepsBuffer | internal/ui/markdown.go:106-110 | a line that asks for a layout leaves the buffer for it |
| MarkdownRender.AdvanceWritesTableRows | internal/ui/markdown.go:45-60 | each line changes only its own slot and slots of earlier table-row lines |
| MarkdownRender.LastFlushWritesTableRows | internal/ui/markdown.go:62-71 | the final flush changes only slots of table-row lines |
| MarkdownRender.FencedTableLines | internal/ui/markdown.go:75-113 | the four example lines are a table row, an opening fence, a closing fence and a table row |
| MarkdownRender.FencedTableAsWritten | internal/ui/markdown.go:86-104 | as written, the second row joins the first one's buffer across the code block, the table lands on the fence's slot and the second row's slot stays empty |
| MarkdownRender.FencedTableFirstFlush | internal/ui/markdown.go:86-110 | with the opening fence laying out the table, the first row's slot gets its line and the fence stays empty |
| MarkdownRender.FencedTableCorrected | internal/ui/markdown.go:42-113 | with the correction each row lands on its own slot and both fences stay empty |
| Erb.WeaveKeepsText | internal/ui/erb.go:29-51 | with every tag written back as it was, weaving gives the line back |
| Erb.StyleTags | internal/ui/erb.go:21-52 | no match leaves the line unchanged; otherwise the text before the first match is copied and a reset follows it |
| Erb.StyleTagsKeepsText | internal/ui/erb.go:21-52 | no match leaves the line unchanged; otherwise each match becomes a reset, the styled tag and a reset, with the text around copied verbatim and in order |
| Erb.WeaveStep | internal/ui/erb.go:32-46 | one match appends the text before it and its emitted tag |
| Erb.StyleErbTags | internal/ui/erb.go:21-52 | the loop returns StyleTags |
| Erb.ApplyErbStyling | internal/ui/erb.go:66-72 | same length, the i-th line the styled i-th input |
| Erb.IsMarkdownErbFile | internal/ui/erb.go:60-63 | the lower-cased name ends in ".md.erb" or ".markdown.erb"; every such name is a template |
| Erb.ErbIgnoresCase | internal/ui/erb.go:55-63 | both tests give the same answer for a name and its lower-cased form |
| Erb.IsErbFile | internal/ui/erb.go:55-57 | a name is a template exactly when its last four bytes lower-case, byte by byte, to ".erb": no other rune lowers into these letters |
| Erb.KelvinMarkdownErb | internal/ui/erb.go:60-63 | "a.mar", U+212A KELVIN SIGN, "down.erb" is a markdown template, since the Kelvin sign lowers to 'k' |
| Bytes.LowerSuffix | internal/ui/erb.go:55-57 | the lowered text ends in an ASCII suffix without 'k' and 'i' exactly when the text's own last bytes lower-case to it byte by byte |
| Bytes.LowerHighSuffix | internal/ui/erb.go:55-57 | the lowered text ends in non-ASCII bytes only where the text itself does |
| Bytes.LowerAppend | internal/ui/erb.go:55-63 | strings.ToLower of a concatenation cut between runes is the concatenation of the lowered parts |
| Bytes.LowerKelvin | internal/ui/model.go:535-536 | a Kelvin sign anywhere lowers to 'k' and the text on each side lowers on its own |
| Bytes.LowerTwice | internal/ui/erb.go:55-63 | lowering is idempotent: lowering a lowered string changes nothing |

## Left out

- Terminal I/O, the bubbletea event loop and its commands (`Init`, `tickCmd`, `loadFiles`, `Batch`), the quit keys, `RefreshMsg` and `TickMsg` (sparkle toggling and the loading frame), mouse wheel scrolling: event plumbing and decoration with no logic to prove.
- The loading screen and the three-second loading gate (`renderLoadingScreen`, internal/ui/model.go:213-217): wall-clock dependent and decorative.
- `View`, `renderPreviewHeader` and `renderFooter`: string composition of lipgloss renderings; only `padLine`, which they use, is modelled.
- The bubbles viewport: modelled as its width, height, content and scroll offset; `GotoTop` sets the offset to 0. The scroll keys `j`, `k`, `g`, `G`, `ctrl+d`, `ctrl+u` and the viewport's own clamping are library code and not part of this model.
- `highlightCode` (internal/ui/model.go:468-533) and `highlightCodeFenceLine` (internal/ui/markdown.go:200-234): chroma lexers, styles and formatters; they are the parameters `Ui.Env.highlight` and `MarkdownRender.MdEnv.codeLine`.
- lipgloss `Render`, `Width` and the table layout: parameters (`Preview.Style`, `Markdown.MdStyle`, `MarkdownRender.MdEnv.table`).
- `runewidth.RuneWidth`: the parameter `Ansi.RuneWidth`, any table from runes to 0, 1 or 2 columns.
- Reading files, `git.GetDiffLines`, `git.GetGitRoot`, `git.GetStatus`: parameters of `Ui.Env` or constructor arguments; `git.GetDiffStats` and the `DiffStats` field are not modelled, since nothing in the core reads them.
- The regular expressions: the fence and table-separator patterns are hand-written predicates (`Markdown.FenceLang`, `Markdown.IsTableSeparator`); the ERB tag pattern is replaced by its matches, given per line (`Erb.ErbEnv.find`).
- Erb.ApplyErbStyling: requires that the given matches are ordered and inside the line, which is what a regular expression's FindAllStringIndex returns.
- Bytes.TrimSpace: trims the ASCII white space only; Go's strings.TrimSpace also trims multi-byte Unicode spaces such as U+0085 and U+00A0.
- Bytes.Lower: agrees with Go's strings.ToLower in every comparison with ASCII text: the Kelvin sign becomes 'k', the dotted capital I becomes 'i', and ASCII letters are lowered. Other non-ASCII bytes are kept, where Go turns them into other non-ASCII runes or U+FFFD, so the lowered text itself is not Go's byte for byte.
- Paths.Ext: models filepath.Ext and filepath.Base for '/'-separated paths only.
- Ui.Model.FilesLoaded: like the code, it does not re-clamp `listScroll` after a refresh, so the selection can fall outside the visible window until the next key press; the contract states what the code does.
- Go's `int` is 64 bits wide; widths, counts and indices here are unbounded integers, which agrees with the code for every terminal and file size it can meet.
- MarkdownRender.Renderer.RenderLine and MarkdownRender.HighlightMarkdownLines model the corrected renderer (see Findings); the renderer as written is the function `MarkdownRender.StepAsWritten` and `MarkdownRender.HighlightAsWritten`.
- Wrap.WrapHighlightedLine: uses the corrected width clamp (see Findings), so widths 5 to 7 wrap at 10 content columns here where the code uses 1 to 3 (and loops forever on a tab); the written clamp is `Wrap.ClampWidthAsWritten`.
- Ui.Model.RecalculateViewport: draws a kept preview again at the new size (see Findings), and so do `Ui.Model.Resize`, `Ui.Model.GrowList` and `Ui.Model.ShrinkList`, which call it; the code as written is `Ui.Model.RecalculateViewportAsWritten`.
- The watcher, `cmd/perch/main.go`, `internal/highlight` and the test file: outside this core.

## Findings

| source | as written | input that shows it | evidently intended | confidence | as-written member | corrected member |
|---|---|---|---|---|---|---|
| internal/ui/wrap.go:183-185 | only a width of at most 4 is widened to 14, so a width of 5, 6 or 7 leaves 1 to 3 content columns | width 5, raw line and line "\t": the tab (4 columns) never fits, every pass copies nothing and leaves "\t", and the loop at lines 214-257 never ends | any width whose content column cannot hold the widest rune (4 columns) is widened the same way | not executed; high | Wrap.ClampStallsAsWritten | Wrap.ClampWidthEnough |
| internal/ui/markdown.go:86-104 | an opening code fence does not flush a buffered table, so a table row after the code block joins the earlier table's buffer and the laid out table is written over consecutive slots from the first row | lines "\|a\|", "```", "```", "\|b\|": the table lands on the slot of the opening fence and the slot of "\|b\|" stays empty | each table line lands on the slot of the row it came from, as the one-to-one line mapping of flushTable intends | not executed; medium | MarkdownRender.FencedTableAsWritten | MarkdownRender.AdvanceWritesTableRows |
| internal/ui/model.go:277-287 | recalculateViewport calls updatePreview, which returns early (lines 302-304) while the selected file's preview is still valid, so after a resize or a list height change the viewport keeps the text laid out for the old width and height until the next file reload, up to one 2-second tick later | a valid one-line message "x" shown at width 2, then a resize to width 4: the viewport keeps "x" where the new layout is " x" | the viewport is laid out again for the new size, which the per-width wrap cache of PreviewContent exists to make cheap | not executed; medium | Ui.StaleAfterResize | Ui.Model.RecalculateViewport |
