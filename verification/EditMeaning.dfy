// What the edits of the rich-text buffer leave behind, line by line and character by character
// (crates/key-editor-core/src/lib.rs).
module EditMeaning {
  import opened Collections
  import opened Options
  import opened Unicode
  import opened Styles
  import opened Documents
  import opened Layout
  import opened EditorModel
  import EditorTheorems

  // ---------- lines ----------

  /** The line number of an offset is that of the range that holds it. */
  lemma {:induction false} OffsetInLine(text: string, from: nat, offset: nat)
    requires from <= offset <= |text|
    ensures var line := Breaks(text[from..offset]);
      && line < |LineRanges(text, from)|
      && LineRanges(text, from)[line].0 <= offset <= LineRanges(text, from)[line].1
    decreases |text| - from
  {
    hide NextBreak, Breaks, LineRanges;
    var end := from + NextBreak(text[from..]);
    assert text[from..][..end - from] == text[from..end];
    LineEndsAt(text, from, end);
    if offset <= end {
      assert '\n' !in text[from..offset] by { assert text[from..offset] == text[from..end][..offset - from]; }
      NoBreaks(text[from..offset]);
    } else {
      OffsetInLine(text, end + 1, offset);
      var before := text[..offset];
      assert before[from..end] == text[from..end] && before[from..] == text[from..offset];
      BreaksByLine(before, from, end);
      assert before[end + 1..] == text[end + 1..offset];
    }
  }

  /** An offset ends its line when a newline or the end of the text follows. */
  predicate AtLineEnd(text: string, offset: nat) {
    offset >= |text| || text[offset] == '\n'
  }

  lemma LineEndExactly(e: Editor, offset: nat)
    requires |e.blocks| == |SplitCells(e.cells)| && offset <= |e.cells|
    ensures var line := LineAtOffset(e.Text(), offset);
      && line < |LineRanges(e.Text(), 0)|
      && (offset == LineEnd(e, line) <==> AtLineEnd(e.Text(), offset))
  {
    hide LineRanges;
    var text := e.Text();
    OffsetInLine(text, 0, offset);
    assert text[0..offset] == text[..offset];
    RangesShape(text, 0);
    var ranges := LineRanges(text, 0);
    var line := LineAtOffset(text, offset);
    assert RangeAt(text, ranges, 0, line);
    if offset < ranges[line].1 {
      assert text[ranges[line].0..ranges[line].1][offset - ranges[line].0] == text[offset];
    }
  }

  // ---------- selection ----------

  /** The fixed end of a selection. */
  function Anchor(e: Editor): nat { if e.reversed then e.selection.end else e.selection.start }

  /** Extending moves the cursor to the boundary at or below the offset and leaves the other end where it is. */
  lemma SelectToMovesCursor(e: Editor, offset: nat)
    ensures var r := SelectTo(e, offset);
      && r.Cursor() == FloorIndex(e.Text(), offset) && Anchor(r) == Anchor(e) && Ordered(r)
      && r == e.(selection := r.selection, reversed := r.reversed, pending := None)
  {
  }

  /** A selection spans the boundaries of its two offsets, in order; the cursor is at its front if asked for. */
  lemma SetSelectionSpans(e: Editor, start: nat, end: nat, reversed: bool)
    ensures var r := SetSelection(e, start, end, reversed);
      var a, b := FloorIndex(e.Text(), start), FloorIndex(e.Text(), end);
      && Ordered(r) && {r.selection.start, r.selection.end} == {a, b}
      && r.Cursor() == (if reversed then r.selection.start else r.selection.end)
      && r == e.(selection := r.selection, reversed := r.reversed, pending := None)
  {
  }

  /** A plain move leaves a caret at the boundary, and selecting all selects everything. */
  lemma MoveToPlacesCaret(e: Editor, offset: nat)
    ensures var at := FloorIndex(e.Text(), offset);
      MoveTo(e, offset) == e.(selection := Span(at, at), reversed := false, pending := None)
    ensures var r := SelectAll(e); r.selection == Span(0, |e.Text()|) && r.Cursor() == |e.Text()|
  {
  }

  // ---------- replacement ----------

  /** The style of typed text: the pending one, else that of the character behind, at the end that of the last. */
  predicate TakesStyle(e: Editor, offset: nat, style: InlineStyle)
    requires offset <= |e.cells|
  {
    if e.pending.Some? then style == e.pending.value
    else if e.cells == [] then style == InlineStyle(false, false, false)
    else style == e.cells[if offset < |e.cells| then offset else offset - 1].style
  }

  /** Every accepted replacement of an ordered range: text, styles, block kinds, caret and pending style. */
  lemma ReplacementGives(e: Editor, start: nat, end: nat, replacement: string)
    requires |e.blocks| == |SplitCells(e.cells)| && start <= end <= |e.cells|
    requires ReplaceRange(e, Span(start, end), replacement).0.Some?
    ensures var (inserted, r) := ReplaceRange(e, Span(start, end), replacement);
      var t := NormalizeNewlines(replacement);
      && inserted.value == Span(start, start + |t|)
      && r.Text() == e.Text()[..start] + t + e.Text()[end..]
      && r.selection == Span(start + |t|, start + |t|) && !r.reversed
      && r.pending.Some? && TakesStyle(e, start, r.pending.value)
      && r.marked == e.marked && r.limit == e.limit
    ensures var r := ReplaceRange(e, Span(start, end), replacement).1;
      var t := NormalizeNewlines(replacement);
      && |r.cells| == |e.cells| - (end - start) + |t|
      && (forall i :: 0 <= i < start ==> r.cells[i] == e.cells[i])
      && (forall i :: start <= i < start + |t| ==> TakesStyle(e, start, r.cells[i].style))
      && (forall i :: end <= i < |e.cells| ==> r.cells[i - end + start + |t|] == e.cells[i])
  {
    hide SplitCells, NormalizeNewlines, SpliceBlocks, Fits;
    var r := ReplaceRange(e, Span(start, end), replacement).1;
    var t := NormalizeNewlines(replacement);
    assert Clamp(e, Span(start, end)) == Span(start, end);
    assert r.cells == SpliceCells(e.cells, Span(start, end), t, InsertionStyle(e, start));
    assert r.Text() == e.Text()[..start] + t + e.Text()[end..];
  }

  /** Block kinds of an accepted replacement: lines in front keep theirs, the lines of the new text have the kind
      of the line where it starts, and lines behind keep theirs. */
  lemma ReplacementKeepsKinds(e: Editor, start: nat, end: nat, replacement: string)
    requires |e.blocks| == |SplitCells(e.cells)| && start <= end <= |e.cells|
    requires ReplaceRange(e, Span(start, end), replacement).0.Some?
    ensures var r := ReplaceRange(e, Span(start, end), replacement).1;
      var added := Breaks(NormalizeNewlines(replacement));
      var first, last := LineAtOffset(e.Text(), start), LineAtOffset(e.Text(), end);
      && first <= last < |e.blocks| && |r.blocks| == |e.blocks| - (last - first) + added
      && (forall i :: 0 <= i < first ==> r.blocks[i] == e.blocks[i])
      && (forall i :: first <= i <= first + added ==> r.blocks[i] == e.blocks[first])
      && (forall i :: last < i < |e.blocks| ==> r.blocks[i - last + first + added] == e.blocks[i])
  {
    hide SplitCells, NormalizeNewlines, SpliceCells, Fits, LineAtOffset;
    LineInRange(e.cells, end);
    LinesOrdered(e.Text(), start, end);
    assert Clamp(e, Span(start, end)) == Span(start, end);
  }

  /** A range beyond the text, or given backwards, is cut to the text first. */
  lemma RangeIsCut(e: Editor, range: Span, replacement: string)
    requires |e.blocks| == |SplitCells(e.cells)|
    ensures var start := if range.start <= |e.cells| then range.start else |e.cells|;
      var end := if range.end <= |e.cells| then range.end else |e.cells|;
      ReplaceRange(e, range, replacement)
        == ReplaceRange(e, Span(start, if end < start then start else end), replacement)
  {
    hide SplitCells, NormalizeNewlines, SpliceCells, SpliceBlocks, Fits, LineAtOffset;
  }

  // ---------- deletion ----------

  lemma DeletedText(e: Editor, start: nat, end: nat)
    requires |e.blocks| == |SplitCells(e.cells)| && start <= end <= |e.cells| && Replaced(e, Span(start, end), "").0
    ensures var r := Replaced(e, Span(start, end), "").1;
      r.Text() == e.Text()[..start] + e.Text()[end..] && r.marked == None
  {
    hide SplitCells, NormalizeNewlines, ReplaceRange, TakesStyle;
    NothingNormalized();
    ReplacementGives(e, start, end, "");
    assert e.Text()[..start] + "" == e.Text()[..start];
  }

  /** Backspace deletes the selection, or the whole cluster in front of the caret. */
  lemma BackspaceDeletes(e: Editor)
    requires |e.blocks| == |SplitCells(e.cells)| && InText(e, e.selection) && Backspace(e).0
    ensures Backspace(e).1.marked == None
    ensures Backspace(e).1.Text() ==
      if e.selection.start < e.selection.end then e.Text()[..e.selection.start] + e.Text()[e.selection.end..]
      else e.Text()[..PreviousGrapheme(e.Text(), e.Cursor())] + e.Text()[e.Cursor()..]
  {
    hide SplitCells, Replaced, PreviousGrapheme;
    var p := PreviousGrapheme(e.Text(), e.Cursor());
    var gone := if e.HasSelection() then e.selection else Span(p, e.Cursor());
    DeletedText(e, gone.start, gone.end);
  }

  /** Delete removes the selection, or the whole cluster behind the caret. */
  lemma DeleteForwardDeletes(e: Editor)
    requires |e.blocks| == |SplitCells(e.cells)| && InText(e, e.selection) && DeleteForward(e).0
    ensures DeleteForward(e).1.marked == None
    ensures DeleteForward(e).1.Text() ==
      if e.selection.start < e.selection.end then e.Text()[..e.selection.start] + e.Text()[e.selection.end..]
      else e.Text()[..e.Cursor()] + e.Text()[NextGrapheme(e.Text(), e.Cursor())..]
  {
    hide SplitCells, Replaced, NextGrapheme;
    var n := NextGrapheme(e.Text(), e.Cursor());
    var gone := if e.HasSelection() then e.selection else Span(e.Cursor(), n);
    DeletedText(e, gone.start, gone.end);
  }

  lemma NothingNormalized()
    ensures NormalizeNewlines("") == ""
  {
    NormalizedNewlines("");
  }

  // ---------- toggles ----------

  /** The last line a selection touches is that of its last character. */
  function LastLine(e: Editor): nat
    requires InText(e, e.selection)
  {
    LineAtOffset(e.Text(), if e.selection.start < e.selection.end then e.selection.end - 1 else e.selection.end)
  }

  /** Touched lines that all have the kind become paragraphs, else all get the kind; nothing else changes. */
  lemma ToggleBlockGives(e: Editor, target: BlockKind)
    requires |e.blocks| == |SplitCells(e.cells)| && InText(e, e.selection) && Sliceable(e) && ToggleBlock(e, target).0
    ensures var r := ToggleBlock(e, target).1;
      var first, last := LineAtOffset(e.Text(), e.selection.start), LastLine(e);
      && r == e.(blocks := r.blocks) && |r.blocks| == |e.blocks| && last < |e.blocks|
      && (forall i :: 0 <= i < |e.blocks| && !(first <= i <= last) ==> r.blocks[i] == e.blocks[i])
      && forall i :: first <= i <= last ==>
           r.blocks[i] == if forall j :: first <= j <= last ==> e.blocks[j] == target then Paragraph else target
  {
    hide SplitCells, Fits, LineAtOffset;
    SelectedLinesInRange(e);
  }

  lemma SetBlockGives(e: Editor, target: BlockKind)
    requires |e.blocks| == |SplitCells(e.cells)| && InText(e, e.selection) && Sliceable(e) && SetBlock(e, target).0
    ensures var r := SetBlock(e, target).1;
      var first, last := LineAtOffset(e.Text(), e.selection.start), LastLine(e);
      && r == e.(blocks := r.blocks) && |r.blocks| == |e.blocks| && last < |e.blocks|
      && forall i :: 0 <= i < |e.blocks| ==> r.blocks[i] == if first <= i <= last then target else e.blocks[i]
  {
    hide SplitCells, Fits, LineAtOffset;
    SelectedLinesInRange(e);
  }

  /** One flag changed: that flag is as wanted, code and emphasis exclude each other, all else stays. */
  predicate Flagged(before: InlineStyle, after: InlineStyle, flag: Flag, enabled: bool) {
    && after.Has(flag) == enabled
    && forall other: Flag :: other != flag ==>
         after.Has(other) == (before.Has(other) && !(enabled && (flag == Code || other == Code)))
  }

  lemma FlagChanges(style: InlineStyle, flag: Flag, enabled: bool)
    ensures Flagged(style, style.WithFlag(flag, enabled), flag, enabled)
  {
  }

  /** A selection gets the flag unless all of it has it, and then loses it; a caret only changes what is typed next. */
  lemma ToggleInlineGives(e: Editor, flag: Flag)
    requires InText(e, e.selection) && ToggleInline(e, flag).0
    ensures var r := ToggleInline(e, flag).1;
      var Span(start, end) := e.selection;
      var enabled := exists i :: start <= i < end && !e.cells[i].style.Has(flag);
      start < end ==>
        && r == e.(cells := r.cells, pending := None) && r.Text() == e.Text()
        && (forall i :: 0 <= i < |e.cells| && !(start <= i < end) ==> r.cells[i] == e.cells[i])
        && forall i :: start <= i < end ==> Flagged(e.cells[i].style, r.cells[i].style, flag, enabled)
    ensures var r := ToggleInline(e, flag).1;
      e.selection.start >= e.selection.end ==>
        && r == e.(pending := r.pending) && r.pending.Some?
        && exists style :: TakesStyle(e, e.Cursor(), style) && Flagged(style, r.pending.value, flag, !style.Has(flag))
  {
    hide Fits;
    var r := ToggleInline(e, flag).1;
    if e.selection.start < e.selection.end {
      forall i | e.selection.start <= i < e.selection.end
        ensures Flagged(e.cells[i].style, r.cells[i].style, flag, !InlineActive(e, flag))
      {
        FlagChanges(e.cells[i].style, flag, !InlineActive(e, flag));
      }
    } else {
      var style := InsertionStyle(e, e.Cursor());
      FlagChanges(style, flag, !style.Has(flag));
      assert TakesStyle(e, e.Cursor(), style);
    }
  }

  // ---------- newline ----------

  /** The offsets of one line. */
  predicate OnLine(text: string, line: nat, offset: nat) {
    offset < |text| && text[offset] != '\n' && LineAtOffset(text, offset) == line
  }

  lemma LineOfRange(e: Editor, line: nat)
    requires |e.blocks| == |SplitCells(e.cells)| && line < |e.blocks|
    ensures line < |LineRanges(e.Text(), 0)| && LineStart(e, line) <= LineEnd(e, line) <= |e.cells|
    ensures forall i: nat :: LineStart(e, line) <= i < LineEnd(e, line) <==> OnLine(e.Text(), line, i)
  {
    hide LineRanges, LineAtOffset;
    var text := e.Text();
    var ranges := LineRanges(text, 0);
    SplitCount(e.cells);
    RangesShape(text, 0);
    assert text[0..] == text;
    assert RangeAt(text, ranges, 0, line);
    forall i: nat | i < |text|
      ensures ranges[line].0 <= i < ranges[line].1 <==> OnLine(text, line, i)
    {
      LineOfOffset(text, line, i);
    }
  }

  lemma LineOfOffset(text: string, line: nat, i: nat)
    requires line < |LineRanges(text, 0)| && i < |text|
    ensures LineRanges(text, 0)[line].0 <= i < LineRanges(text, 0)[line].1 <==> OnLine(text, line, i)
  {
    hide LineRanges;
    var ranges := LineRanges(text, 0);
    RangesShape(text, 0);
    OffsetInLine(text, 0, i);
    assert text[0..i] == text[..i];
    var own := LineAtOffset(text, i);
    assert RangeAt(text, ranges, 0, line) && RangeAt(text, ranges, 0, own);
    if own < line {
      RangesApart(text, own, line);
    } else if line < own {
      RangesApart(text, line, own);
    }
    if i < ranges[own].1 {
      assert text[ranges[own].0..ranges[own].1][i - ranges[own].0] == text[i];
    }
  }

  lemma {:induction false} RangesApart(text: string, a: nat, b: nat)
    requires a < b < |LineRanges(text, 0)|
    ensures LineRanges(text, 0)[a].1 < LineRanges(text, 0)[b].0
    decreases b - a
  {
    hide LineRanges;
    RangesShape(text, 0);
    assert RangeAt(text, LineRanges(text, 0), 0, b);
    if a + 1 < b {
      RangesApart(text, a, b - 1);
      assert RangeAt(text, LineRanges(text, 0), 0, b - 1);
    }
  }

  /** Enter with a caret in a list item of blanks only makes it a paragraph. */
  lemma EnterLeavesList(e: Editor, line: nat)
    requires |e.blocks| == |SplitCells(e.cells)| && InText(e, e.selection) && !e.HasSelection()
    requires line == LineAtOffset(e.Text(), e.Cursor()) < |e.blocks| && e.blocks[line] in {Bulleted, Numbered}
    requires forall i: nat :: OnLine(e.Text(), line, i) ==> IsWhitespace(e.Text()[i])
    requires InsertNewline(e).0
    ensures var r := InsertNewline(e).1;
      && r == e.(blocks := r.blocks, pending := Some(InlineStyle(false, false, false))) && |r.blocks| == |e.blocks|
      && forall i :: 0 <= i < |e.blocks| ==> r.blocks[i] == if i == line then Paragraph else e.blocks[i]
  {
    hide SplitCells, Fits, LineRanges, ReplaceRange;
    CursorLineInRange(e);
    LineOfRange(e, line);
  }

  /** Enter that does not leave a list replaces the caret by a newline, and may reset the kind behind a heading. */
  lemma EnterReplaces(e: Editor, line: nat)
    requires |e.blocks| == |SplitCells(e.cells)| && InText(e, e.selection) && e.selection.start == e.selection.end
    requires line == LineAtOffset(e.Text(), e.Cursor()) < |e.blocks| && InsertNewline(e).0
    requires e.blocks[line] in {Bulleted, Numbered} ==>
      exists i: nat :: OnLine(e.Text(), line, i) && !IsWhitespace(e.Text()[i])
    ensures var (inserted, r) := ReplaceRange(e, Span(e.Cursor(), e.Cursor()), "\n");
      && inserted.Some? && InsertNewline(e).1.cells == r.cells
      && InsertNewline(e).1.blocks ==
        if e.blocks[line] in {Heading1, Heading2, Heading3} && AtLineEnd(e.Text(), e.Cursor()) && line + 1 < |r.blocks|
        then r.blocks[line + 1 := Paragraph]
        else r.blocks
  {
    hide SplitCells, Fits, LineRanges, ReplaceRange, LineAtOffset;
    CursorLineInRange(e);
    LineOfRange(e, line);
    LineEndExactly(e, e.Cursor());
    assert e.selection == Span(e.Cursor(), e.Cursor());
    if e.blocks[line] in {Bulleted, Numbered} {
      var i: nat :| OnLine(e.Text(), line, i) && !IsWhitespace(e.Text()[i]);
      var from := LineStart(e, line);
      assert e.Text()[from..LineEnd(e, line)][i - from] == e.Text()[i];
      assert !IsBlank(e.Text()[from..LineEnd(e, line)]);
    }
    assert CursorLine(e) == line;
    assert !LeavesList(e);
    assert InsertNewline(e) == (
      var (inserted, r) := ReplaceRange(e, e.selection, "\n");
      if inserted.None? then (false, e)
      else if EndsHeading(e) && line + 1 < |r.blocks| then
        (true, r.(blocks := r.blocks[line + 1 := Paragraph], marked := None))
      else (true, r.(marked := None)));
    assert EndsHeading(e) <==> e.blocks[line] in {Heading1, Heading2, Heading3} && AtLineEnd(e.Text(), e.Cursor());
  }

  /** Everywhere else Enter with a caret breaks the line: both halves keep its kind, but a heading that ends there
      is followed by a paragraph. */
  lemma EnterBreaksLine(e: Editor, line: nat)
    requires |e.blocks| == |SplitCells(e.cells)| && InText(e, e.selection) && e.selection.start == e.selection.end
    requires line == LineAtOffset(e.Text(), e.Cursor()) < |e.blocks| && InsertNewline(e).0
    requires e.blocks[line] in {Bulleted, Numbered} ==>
      exists i: nat :: OnLine(e.Text(), line, i) && !IsWhitespace(e.Text()[i])
    ensures var r := InsertNewline(e).1;
      && r.Text() == e.Text()[..e.Cursor()] + "\n" + e.Text()[e.Cursor()..] && |r.blocks| == |e.blocks| + 1
      && (forall i :: 0 <= i <= line ==> r.blocks[i] == e.blocks[i])
      && r.blocks[line + 1] == (
           if e.blocks[line] in {Heading1, Heading2, Heading3} && AtLineEnd(e.Text(), e.Cursor()) then Paragraph
           else e.blocks[line])
      && forall i :: line < i < |e.blocks| ==> r.blocks[i + 1] == e.blocks[i]
  {
    hide SplitCells, InsertNewline, ReplaceRange, NormalizeNewlines, TakesStyle, Breaks, LineAtOffset, AtLineEnd;
    var at := e.Cursor();
    EnterReplaces(e, line);
    assert NormalizeNewlines("\n") == "\n" && Breaks("\n") == 1 by {
      NormalizedNewlines("\n");
      EditorTheorems.OneBreak();
    }
    ReplacementGives(e, at, at, "\n");
    ReplacementKeepsKinds(e, at, at, "\n");
  }

  // ---------- native edits ----------

  /** The range that a native edit names: its own one, else the marked text, else the selection. */
  predicate Names(e: Editor, range: Option<Span>, start: nat, end: nat) {
    match range
    case Some(Span(from, to)) => start == OffsetFromUtf16(e.Text(), from) && end == OffsetFromUtf16(e.Text(), to)
    case None => Span(start, end) == if e.marked.Some? then e.marked.value else e.selection
  }

  /** A native replacement replaces that range and ends the composition. */
  lemma NativeReplacementGives(e: Editor, range: Option<Span>, start: nat, end: nat, text: string)
    requires |e.blocks| == |SplitCells(e.cells)| && ReplaceText(e, range, text).0
    requires Names(e, range, start, end) && start <= end <= |e.cells|
    ensures var r := ReplaceText(e, range, text).1;
      r.Text() == e.Text()[..start] + NormalizeNewlines(text) + e.Text()[end..] && r.marked == None
  {
    hide SplitCells, NormalizeNewlines, ReplaceRange, TakesStyle, OffsetFromUtf16;
    ReplacementGives(e, start, end, text);
  }

  /** A native composition also marks what it inserted, and selects what it says inside that, or the caret behind. */
  lemma CompositionGives(e: Editor, range: Option<Span>, start: nat, end: nat, text: string, selection: Option<Span>)
    requires |e.blocks| == |SplitCells(e.cells)| && ReplaceAndMark(e, range, text, selection).0
    requires Names(e, range, start, end) && start <= end <= |e.cells|
    ensures var r := ReplaceAndMark(e, range, text, selection).1;
      var t := NormalizeNewlines(text);
      && r.Text() == e.Text()[..start] + t + e.Text()[end..]
      && r.marked == (if t == "" then None else Some(Span(start, start + |t|)))
      && match selection
         case None => r.selection == Span(start + |t|, start + |t|)
         case Some(Span(from, to)) =>
           r.selection == Span(start + OffsetFromUtf16(t, from), start + OffsetFromUtf16(t, to))
  {
    hide SplitCells, NormalizeNewlines, ReplaceRange, TakesStyle, OffsetFromUtf16;
    ReplacementGives(e, start, end, text);
  }
}
