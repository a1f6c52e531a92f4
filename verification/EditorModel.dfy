// The editor seen per character: what every public edit means for text, styles, block kinds,
// selection and composition. Class RichTextBuffer computes the same with style runs.
module EditorModel {
  import opened Collections
  import opened Options
  import opened Unicode
  import opened Styles
  import opened Documents
  import opened Layout

  datatype Span = Span(start: nat, end: nat)

  datatype Editor = Editor(
    cells: seq<Cell>,
    blocks: seq<BlockKind>,
    selection: Span,
    reversed: bool,
    marked: Option<Span>,
    pending: Option<InlineStyle>,
    limit: nat)
  {
    function Text(): string { Chars(cells) }

    function Cursor(): nat { if reversed then selection.start else selection.end }

    predicate HasSelection() { selection.start < selection.end }
  }

  // ---------- invariant ----------

  ghost predicate InText(e: Editor, span: Span) {
    span.start <= |e.cells| && span.end <= |e.cells|
  }

  /** The canonical Markdown exists (one block kind per line) and fits the limit. */
  predicate Fits(cells: seq<Cell>, blocks: seq<BlockKind>, limit: nat) {
    |blocks| == |SplitCells(cells)| && Bytes(PrintCells(cells, blocks)) <= limit
  }

  /** What holds of every editor between public operations. */
  ghost predicate Inv(e: Editor) {
    && Fits(e.cells, e.blocks, e.limit)
    && '\r' !in e.Text()
    && AllExclusive(e.cells)
    && (e.pending.Some? ==> e.pending.value.Exclusive())
    && InText(e, e.selection)
    && (e.marked.Some? ==> InText(e, e.marked.value) && e.marked.value.start <= e.marked.value.end)
  }

  /** The selection is a proper range. */
  predicate Ordered(e: Editor) {
    e.selection.start <= e.selection.end
  }

  // ---------- selection ----------

  /** Offsets arrive in bytes, possibly inside a character or beyond the end. */
  function SetSelection(e: Editor, start: nat, end: nat, reversed: bool): Editor {
    var a := FloorIndex(e.Text(), start);
    var b := FloorIndex(e.Text(), end);
    e.(selection := Span(Min(a, b), Max(a, b)), reversed := reversed && a != b, pending := None)
  }

  function MoveTo(e: Editor, offset: nat): Editor {
    var a := FloorIndex(e.Text(), offset);
    e.(selection := Span(a, a), reversed := false, pending := None)
  }

  function SelectTo(e: Editor, offset: nat): Editor {
    var a := FloorIndex(e.Text(), offset);
    var anchor := if e.reversed then e.selection.end else e.selection.start;
    e.(selection := Span(Min(anchor, a), Max(anchor, a)), reversed := a < anchor, pending := None)
  }

  function SelectAll(e: Editor): Editor {
    e.(selection := Span(0, |e.cells|), reversed := false, pending := None)
  }

  // ---------- lines ----------

  /** Zero-based line of an offset. */
  function LineAtOffset(text: string, offset: nat): nat
    requires offset <= |text|
  {
    Breaks(text[..offset])
  }

  lemma LineInRange(cells: seq<Cell>, offset: nat)
    requires offset <= |cells|
    ensures LineAtOffset(Chars(cells), offset) < |SplitCells(cells)|
  {
    SplitCount(cells);
    BreaksConcat(Chars(cells)[..offset], Chars(cells)[offset..]);
    assert Chars(cells) == Chars(cells)[..offset] + Chars(cells)[offset..];
  }

  lemma LinesOrdered(text: string, a: nat, b: nat)
    requires a <= b <= |text|
    ensures LineAtOffset(text, a) <= LineAtOffset(text, b)
  {
    BreaksConcat(text[..a], text[a..b]);
    assert text[..b] == text[..a] + text[a..b];
  }

  // ---------- replacement ----------

  function StyleForInsertion(cells: seq<Cell>, offset: nat): InlineStyle
    requires offset <= |cells|
  {
    if cells == [] then PLAIN
    else if offset == |cells| then cells[|cells| - 1].style
    else cells[offset].style
  }

  function InsertionStyle(e: Editor, offset: nat): InlineStyle
    requires offset <= |e.cells|
  {
    if e.pending.Some? then e.pending.value else StyleForInsertion(e.cells, offset)
  }

  /** Text and styles spliced character by character. */
  function SpliceCells(cells: seq<Cell>, span: Span, replacement: string, style: InlineStyle): seq<Cell>
    requires span.start <= span.end <= |cells|
  {
    cells[..span.start] + Styled(replacement, style) + cells[span.end..]
  }

  function Copies(kind: BlockKind, n: nat): (blocks: seq<BlockKind>)
    ensures |blocks| == n && forall i :: 0 <= i < n ==> blocks[i] == kind
  {
    seq(n, _ => kind)
  }

  /** Every line of the replacement takes the kind of the line it starts in. */
  function SpliceBlocks(text: string, blocks: seq<BlockKind>, span: Span, replacement: string): seq<BlockKind>
    requires span.start <= span.end <= |text|
    requires LineAtOffset(text, span.start) <= LineAtOffset(text, span.end) < |blocks|
  {
    var first, last := LineAtOffset(text, span.start), LineAtOffset(text, span.end);
    blocks[..first] + Copies(blocks[first], Breaks(replacement) + 1) + blocks[last + 1..]
  }

  function Clamp(e: Editor, range: Span): (span: Span)
    ensures span.start <= span.end <= |e.cells|
  {
    var start := Min(range.start, |e.cells|);
    Span(start, Max(Min(range.end, |e.cells|), start))
  }

  /** The state a replacement would lead to. */
  function Candidate(e: Editor, range: Span, replacement: string): (c: Editor)
    requires |e.blocks| == |SplitCells(e.cells)|
  {
    var span := Clamp(e, range);
    var text := NormalizeNewlines(replacement);
    var style := InsertionStyle(e, span.start);
    var end := span.start + |text|;
    LineInRange(e.cells, span.end);
    LinesOrdered(e.Text(), span.start, span.end);
    e.(cells := SpliceCells(e.cells, span, text, style),
       blocks := SpliceBlocks(e.Text(), e.blocks, span, text),
       selection := Span(end, end), reversed := false, pending := Some(style))
  }

  /** A replacement is the candidate if that fits, and no change at all otherwise. */
  function ReplaceRange(e: Editor, range: Span, replacement: string): (r: (Option<Span>, Editor))
    requires |e.blocks| == |SplitCells(e.cells)|
  {
    var c := Candidate(e, range, replacement);
    if Fits(c.cells, c.blocks, c.limit) then (Some(Span(Clamp(e, range).start, c.selection.end)), c) else (None, e)
  }

  /** The public edits clear the composition when they succeed. */
  function Replaced(e: Editor, range: Span, replacement: string): (bool, Editor)
    requires |e.blocks| == |SplitCells(e.cells)|
  {
    var (inserted, r) := ReplaceRange(e, range, replacement);
    if inserted.Some? then (true, r.(marked := None)) else (false, e)
  }

  function ReplaceSelection(e: Editor, replacement: string): (bool, Editor)
    requires |e.blocks| == |SplitCells(e.cells)|
  {
    Replaced(e, e.selection, replacement)
  }

  function Backspace(e: Editor): (bool, Editor)
    requires |e.blocks| == |SplitCells(e.cells)| && InText(e, e.selection)
  {
    Replaced(e, if e.HasSelection() then e.selection else Span(PreviousGrapheme(e.Text(), e.Cursor()), e.Cursor()), "")
  }

  function DeleteForward(e: Editor): (bool, Editor)
    requires |e.blocks| == |SplitCells(e.cells)| && InText(e, e.selection)
  {
    Replaced(e, if e.HasSelection() then e.selection else Span(e.Cursor(), NextGrapheme(e.Text(), e.Cursor())), "")
  }

  function FromUtf16(text: string, range: Span): Span {
    Span(OffsetFromUtf16(text, range.start), OffsetFromUtf16(text, range.end))
  }

  /** The range a native edit addresses: explicit, else the composition, else the selection. */
  function NativeRange(e: Editor, range: Option<Span>): Span {
    if range.Some? then FromUtf16(e.Text(), range.value)
    else if e.marked.Some? then e.marked.value
    else e.selection
  }

  function ReplaceText(e: Editor, range: Option<Span>, text: string): (bool, Editor)
    requires |e.blocks| == |SplitCells(e.cells)|
  {
    Replaced(e, NativeRange(e, range), text)
  }

  function ReplaceAndMark(e: Editor, range: Option<Span>, text: string, selection: Option<Span>): (bool, Editor)
    requires |e.blocks| == |SplitCells(e.cells)|
  {
    var (inserted, r) := ReplaceRange(e, NativeRange(e, range), text);
    if inserted.None? then (false, e)
    else
      var Span(start, end) := inserted.value;
      var marked := if start < end then Some(Span(start, end)) else None;
      if selection.None? then (true, r.(marked := marked))
      else
        var relative := FromUtf16(NormalizeNewlines(text), selection.value);
        (true, r.(marked := marked, selection := Span(start + relative.start, start + relative.end)))
  }

  // ---------- inline styles ----------

  predicate InlineActive(e: Editor, flag: Flag)
    requires InText(e, e.selection)
  {
    if !e.HasSelection() then InsertionStyle(e, e.Cursor()).Has(flag)
    else forall i :: e.selection.start <= i < e.selection.end ==> e.cells[i].style.Has(flag)
  }

  function Restyled(cell: Cell, inside: bool, flag: Flag, enabled: bool): Cell {
    if inside then Cell(cell.c, cell.style.WithFlag(flag, enabled)) else cell
  }

  function Restyle(cells: seq<Cell>, span: Span, flag: Flag, enabled: bool): (r: seq<Cell>)
    ensures |r| == |cells|
    ensures forall i :: 0 <= i < |cells| ==> r[i] == Restyled(cells[i], span.start <= i < span.end, flag, enabled)
  {
    seq(|cells|, i requires 0 <= i < |cells| => Restyled(cells[i], span.start <= i < span.end, flag, enabled))
  }

  function ToggleInline(e: Editor, flag: Flag): (bool, Editor)
    requires InText(e, e.selection)
  {
    if !e.HasSelection() then
      var current := InsertionStyle(e, e.Cursor());
      (true, e.(pending := Some(current.WithFlag(flag, !current.Has(flag)))))
    else
      var cells := Restyle(e.cells, e.selection, flag, !InlineActive(e, flag));
      if Fits(cells, e.blocks, e.limit) then (true, e.(cells := cells, pending := None)) else (false, e)
  }

  // ---------- block kinds ----------

  /** Lines `first..beyond` touched by the selection; its last character decides where it ends. */
  function SelectedLines(e: Editor): (r: (nat, nat))
    requires InText(e, e.selection)
  {
    var first := LineAtOffset(e.Text(), e.selection.start);
    var last := LineAtOffset(e.Text(), if e.HasSelection() then e.selection.end - 1 else e.selection.end);
    (first, last + 1)
  }

  /** The program can slice the touched lines: a selection given backwards may not begin more than one
      line behind its end. */
  predicate Sliceable(e: Editor)
    requires InText(e, e.selection)
  {
    SelectedLines(e).0 <= SelectedLines(e).1
  }

  lemma SelectedLinesInRange(e: Editor)
    requires InText(e, e.selection)
    ensures SelectedLines(e).1 <= |SplitCells(e.cells)|
    ensures Ordered(e) ==> SelectedLines(e).0 < SelectedLines(e).1
  {
    var last := if e.HasSelection() then e.selection.end - 1 else e.selection.end;
    if Ordered(e) {
      LinesOrdered(e.Text(), e.selection.start, last);
    }
    LineInRange(e.cells, last);
  }

  function SetKinds(blocks: seq<BlockKind>, first: nat, beyond: nat, kind: BlockKind): seq<BlockKind>
    requires first <= beyond <= |blocks|
  {
    blocks[..first] + Copies(kind, beyond - first) + blocks[beyond..]
  }

  function WithBlocks(e: Editor, blocks: seq<BlockKind>): (bool, Editor) {
    if Fits(e.cells, blocks, e.limit) then (true, e.(blocks := blocks)) else (false, e)
  }

  predicate BlockActive(e: Editor, target: BlockKind)
    requires |e.blocks| == |SplitCells(e.cells)| && InText(e, e.selection) && Sliceable(e)
  {
    SelectedLinesInRange(e);
    forall i :: SelectedLines(e).0 <= i < SelectedLines(e).1 ==> e.blocks[i] == target
  }

  function SetBlock(e: Editor, target: BlockKind): (bool, Editor)
    requires |e.blocks| == |SplitCells(e.cells)| && InText(e, e.selection) && Sliceable(e)
  {
    SelectedLinesInRange(e);
    WithBlocks(e, SetKinds(e.blocks, SelectedLines(e).0, SelectedLines(e).1, target))
  }

  function ToggleBlock(e: Editor, target: BlockKind): (bool, Editor)
    requires |e.blocks| == |SplitCells(e.cells)| && InText(e, e.selection) && Sliceable(e)
  {
    SetBlock(e, if BlockActive(e, target) then Paragraph else target)
  }

  // ---------- newline ----------

  predicate IsHeading(kind: BlockKind) {
    kind == Heading1 || kind == Heading2 || kind == Heading3
  }

  function CursorLine(e: Editor): nat
    requires InText(e, e.selection)
  {
    LineAtOffset(e.Text(), e.Cursor())
  }

  function LineStart(e: Editor, line: nat): nat
    requires line < |LineRanges(e.Text(), 0)|
  {
    LineRanges(e.Text(), 0)[line].0
  }

  function LineEnd(e: Editor, line: nat): nat
    requires line < |LineRanges(e.Text(), 0)|
  {
    LineRanges(e.Text(), 0)[line].1
  }

  lemma CursorLineInRange(e: Editor)
    requires |e.blocks| == |SplitCells(e.cells)| && InText(e, e.selection)
    ensures CursorLine(e) < |e.blocks| == |LineRanges(e.Text(), 0)|
    ensures LineStart(e, CursorLine(e)) <= LineEnd(e, CursorLine(e)) <= |e.cells|
  {
    hide LineRanges;
    LineInRange(e.cells, e.Cursor());
    LineSlices(e.cells);
    assert RangeAt(e.Text(), LineRanges(e.Text(), 0), 0, CursorLine(e));
  }

  /** Enter in an empty list item leaves the list. */
  predicate LeavesList(e: Editor)
    requires |e.blocks| == |SplitCells(e.cells)| && InText(e, e.selection)
  {
    CursorLineInRange(e);
    var line := CursorLine(e);
    && !e.HasSelection()
    && (e.blocks[line] == Bulleted || e.blocks[line] == Numbered)
    && IsBlank(e.Text()[LineStart(e, line)..LineEnd(e, line)])
  }

  /** Enter at the end of a heading starts a paragraph on the following line index. */
  predicate EndsHeading(e: Editor)
    requires |e.blocks| == |SplitCells(e.cells)| && InText(e, e.selection)
  {
    CursorLineInRange(e);
    IsHeading(e.blocks[CursorLine(e)]) && e.Cursor() == LineEnd(e, CursorLine(e))
  }

  function InsertNewline(e: Editor): (bool, Editor)
    requires |e.blocks| == |SplitCells(e.cells)| && InText(e, e.selection)
  {
    CursorLineInRange(e);
    var line := CursorLine(e);
    if LeavesList(e) then
      var (ok, r) := WithBlocks(e, e.blocks[line := Paragraph]);
      if ok then (true, r.(pending := Some(PLAIN))) else (false, e)
    else
      var (inserted, r) := ReplaceRange(e, e.selection, "\n");
      if inserted.None? then (false, e)
      else if EndsHeading(e) && line + 1 < |r.blocks| then
        // The line index was taken before the edit.
        (true, r.(blocks := r.blocks[line + 1 := Paragraph], marked := None))
      else (true, r.(marked := None))
  }
}
