// What holds of editing sessions: the invariant over every sequence of public edits, the
// soundness of the cheap size check, and what toggles and newlines do.
module EditorTheorems {
  import opened Options
  import opened Unicode
  import opened Styles
  import opened InlineMarkdown
  import opened Markdown
  import opened Documents
  import opened Layout
  import opened MarkdownWriter
  import opened EditorModel

  // ---------- sizes ----------

  lemma {:induction false} EncodedBytesAtLeast(cells: seq<Cell>)
    ensures Bytes(Chars(cells)) <= Bytes(EncodeCells(cells))
    decreases |cells|
  {
    hide EncodePiece, StretchEnd;
    if cells != [] {
      var n := StretchEnd(cells);
      var s := Chars(cells[..n]);
      EncodeFirst(cells);
      EncodedBytesAtLeast(cells[n..]);
      PieceBytes(s, cells[0].style);
      CharsConcat(cells[..n], cells[n..]);
      assert cells == cells[..n] + cells[n..];
      BytesConcat(s, Chars(cells[n..]));
      BytesConcat(EncodePiece(s, cells[0].style), EncodeCells(cells[n..]));
    }
  }

  lemma LineBytesAtLeast(line: Line)
    ensures Bytes(Chars(line.cells)) <= Bytes(PrintLine(line))
  {
    hide EncodeCells, PrintLine;
    EncodedBytesAtLeast(line.cells);
    LineBytes(line);
  }

  lemma {:induction false} PrintedAtLeastText(cells: seq<Cell>, lines: seq<Line>)
    requires |lines| == |SplitCells(cells)|
    requires forall i :: 0 <= i < |lines| ==> lines[i].cells == SplitCells(cells)[i]
    ensures Bytes(Chars(cells)) <= Bytes(PrintDocument(lines))
    decreases |cells|
  {
    hide NextBreak, SplitCells, PrintLine, Bytes;
    var n := NextBreak(Chars(cells));
    UnfoldSplit(cells);
    LineBytesAtLeast(lines[0]);
    var printed := PrintedLines(lines);
    if n < |cells| {
      var rest := cells[n + 1..];
      PrintedAtLeastText(rest, lines[1..]);
      assert printed[1..] == PrintedLines(lines[1..]);
      BytesConcat(printed[0], "\n" + JoinLines(printed[1..]));
      BytesConcat("\n", JoinLines(printed[1..]));
      assert Chars(cells) == Chars(cells[..n]) + ("\n" + Chars(rest));
      BytesConcat(Chars(cells[..n]), "\n" + Chars(rest));
      BytesConcat("\n", Chars(rest));
    } else {
      assert cells[..n] == cells;
    }
  }

  /** Printing never shortens text, so the check on the visible text alone, made before the
      replacement is normalised, rejects only what the exact check rejects too. */
  lemma CheapCheckIsSound(cells: seq<Cell>, blocks: seq<BlockKind>, limit: nat)
    requires |blocks| == |SplitCells(cells)|
    ensures Bytes(Chars(cells)) > limit ==> !Fits(cells, blocks, limit)
  {
    hide PrintDocument;
    PrintedAtLeastText(cells, LinesOf(cells, blocks));
  }

  lemma {:induction false} BytesUpToPointwise(a: seq<Line>, b: seq<Line>, k: nat)
    requires |a| == |b| && k <= |a|
    requires forall i :: 0 <= i < |a| ==> Bytes(PrintLine(a[i])) <= Bytes(PrintLine(b[i]))
    ensures BytesUpTo(a, k) <= BytesUpTo(b, k)
  {
    hide PrintLine, Bytes;
    if k > 0 {
      BytesUpToPointwise(a, b, k - 1);
      assert Bytes(PrintLine(a[k - 1])) <= Bytes(PrintLine(b[k - 1]));
    }
  }

  /** Turning any line into a paragraph never makes the Markdown longer. */
  lemma ParagraphIsShortest(cells: seq<Cell>, blocks: seq<BlockKind>, line: nat)
    requires |blocks| == |SplitCells(cells)| && line < |blocks|
    ensures Bytes(PrintCells(cells, blocks[line := Paragraph])) <= Bytes(PrintCells(cells, blocks))
  {
    hide PrintLine, PrintDocument, BytesUpTo, Bytes;
    var a, b := LinesOf(cells, blocks[line := Paragraph]), LinesOf(cells, blocks);
    forall i | 0 <= i < |a| ensures Bytes(PrintLine(a[i])) <= Bytes(PrintLine(b[i])) {
      LineBytes(a[i]);
      LineBytes(b[i]);
    }
    BytesUpToPointwise(a, b, |a|);
    BytesUpToEnd(a);
    BytesUpToEnd(b);
  }

  // ---------- replacement ----------

  /** A candidate always has one block kind per line, so only its size can reject it. */
  lemma CandidateShape(e: Editor, range: Span, replacement: string)
    requires |e.blocks| == |SplitCells(e.cells)|
    ensures var c := Candidate(e, range, replacement); |c.blocks| == |SplitCells(c.cells)|
  {
    hide SplitCells, Breaks, FloorIndex, NormalizeNewlines;
    var span := Clamp(e, range);
    var text := NormalizeNewlines(replacement);
    var c := Candidate(e, range, replacement);
    var before, after := e.Text()[..span.start], e.Text()[span.end..];
    assert Chars(c.cells) == before + (text + after);
    assert e.Text() == e.Text()[..span.end] + after;
    BreaksConcat(before, text + after);
    BreaksConcat(text, after);
    BreaksConcat(e.Text()[..span.end], after);
    SplitCount(e.cells);
    SplitCount(c.cells);
    LineInRange(e.cells, span.end);
    LinesOrdered(e.Text(), span.start, span.end);
  }

  /** A replacement is accepted exactly when its canonical Markdown fits. */
  lemma AcceptedIffFits(e: Editor, range: Span, replacement: string)
    requires |e.blocks| == |SplitCells(e.cells)|
    ensures var c := Candidate(e, range, replacement);
            |c.blocks| == |SplitCells(c.cells)|
            && (ReplaceRange(e, range, replacement).0.Some? <==> Bytes(PrintCells(c.cells, c.blocks)) <= e.limit)
    ensures var c := Candidate(e, range, replacement);
            Bytes(Chars(c.cells)) > e.limit ==> ReplaceRange(e, range, replacement) == (None, e)
  {
    hide SplitCells, PrintCells;
    CandidateShape(e, range, replacement);
    var c := Candidate(e, range, replacement);
    CheapCheckIsSound(c.cells, c.blocks, e.limit);
  }

  lemma InsertedIsExclusive(e: Editor, offset: nat)
    requires Inv(e) && offset <= |e.cells|
    ensures InsertionStyle(e, offset).Exclusive()
  {
    hide Fits, InText;
  }

  lemma SpliceKeeps(cells: seq<Cell>, span: Span, text: string, style: InlineStyle)
    requires span.start <= span.end <= |cells| && AllExclusive(cells) && style.Exclusive()
    requires '\r' !in Chars(cells) && '\r' !in text
    ensures var spliced := SpliceCells(cells, span, text, style);
            AllExclusive(spliced) && '\r' !in Chars(spliced) && |spliced| == |cells| - (span.end - span.start) + |text|
  {
    var spliced := SpliceCells(cells, span, text, style);
    assert Chars(spliced) == Chars(cells)[..span.start] + text + Chars(cells)[span.end..];
  }

  lemma CandidateKeeps(e: Editor, range: Span, replacement: string)
    requires Inv(e)
    ensures var c := Candidate(e, range, replacement);
            && '\r' !in c.Text() && AllExclusive(c.cells) && c.pending.Some? && c.pending.value.Exclusive()
            && InText(c, c.selection) && Ordered(c) && c.limit == e.limit
            && c.selection.end == Clamp(e, range).start + |NormalizeNewlines(replacement)|
  {
    hide SplitCells, NormalizeNewlines, SpliceCells, SpliceBlocks, InsertionStyle, AllExclusive, Chars, Fits, Clamp;
    NormalizedNewlines(replacement);
    var span := Clamp(e, range);
    InsertedIsExclusive(e, span.start);
    SpliceKeeps(e.cells, span, NormalizeNewlines(replacement), InsertionStyle(e, span.start));
  }

  // ---------- sessions ----------

  /** The public operations that change an editor. */
  datatype Edit =
    | SelectRange(start: nat, end: nat, reversed: bool)
    | Move(offset: nat)
    | Extend(offset: nat)
    | All
    | ClearMark
    | Replace(text: string)
    | Back
    | Forward
    | Native(range: Option<Span>, text: string)
    | Compose(range: Option<Span>, text: string, selection: Option<Span>)
    | Inline(flag: Flag)
    | Toggle(target: BlockKind)
    | Set(target: BlockKind)
    | Ask(target: BlockKind)
    | Newline

  /** The two block edits, and asking whether a list is active, slice the blocks of the selected lines. */
  predicate SlicesLines(op: Edit) {
    op.Toggle? || op.Set? || op.Ask?
  }

  /** Those need lines that can be sliced; everything else is always served. */
  predicate Served(e: Editor, op: Edit)
    requires InText(e, e.selection)
  {
    SlicesLines(op) ==> Sliceable(e)
  }

  /** A composition whose own selection converts to one given backwards. */
  predicate GivesReversed(op: Edit) {
    op.Compose? && op.selection.Some?
    && var relative := FromUtf16(NormalizeNewlines(op.text), op.selection.value); relative.end < relative.start
  }

  function Apply(e: Editor, op: Edit): (r: (bool, Editor))
    requires |e.blocks| == |SplitCells(e.cells)| && InText(e, e.selection) && Served(e, op)
  {
    match op
    case SelectRange(start, end, reversed) => (true, SetSelection(e, start, end, reversed))
    case Move(offset) => (true, MoveTo(e, offset))
    case Extend(offset) => (true, SelectTo(e, offset))
    case All => (true, SelectAll(e))
    case ClearMark => (true, e.(marked := None))
    case Replace(text) => ReplaceSelection(e, text)
    case Back => Backspace(e)
    case Forward => DeleteForward(e)
    case Native(range, text) => ReplaceText(e, range, text)
    case Compose(range, text, selection) => ReplaceAndMark(e, range, text, selection)
    case Inline(flag) => ToggleInline(e, flag)
    case Toggle(target) => ToggleBlock(e, target)
    case Set(target) => SetBlock(e, target)
    case Ask(target) => (BlockActive(e, target), e)
    case Newline => InsertNewline(e)
  }

  lemma ReplacedKeeps(e: Editor, range: Span, replacement: string)
    requires Inv(e)
    ensures var (ok, r) := Replaced(e, range, replacement);
            Inv(r) && (ok || Ordered(e) ==> Ordered(r)) && r.limit == e.limit && (!ok ==> r == e)
  {
    hide Candidate, Fits;
    CandidateKeeps(e, range, replacement);
  }

  /** A composition leaves an ordered selection exactly when its relative selection converts to one. */
  lemma ComposeKeeps(e: Editor, range: Option<Span>, text: string, selection: Option<Span>)
    requires Inv(e)
    ensures var (ok, r) := ReplaceAndMark(e, range, text, selection);
            && Inv(r) && r.limit == e.limit && (!ok ==> r == e)
            && (ok && selection.Some? ==>
                 (Ordered(r) <==> OffsetFromUtf16(NormalizeNewlines(text), selection.value.start)
                                  <= OffsetFromUtf16(NormalizeNewlines(text), selection.value.end)))
            && (ok && selection.None? ==> Ordered(r))
  {
    hide Candidate, Fits, NormalizeNewlines, OffsetFromUtf16;
    CandidateKeeps(e, NativeRange(e, range), text);
  }

  lemma NewlineKeeps(e: Editor)
    requires Inv(e)
    ensures var (ok, r) := InsertNewline(e);
            Inv(r) && (Ordered(e) ==> Ordered(r)) && r.limit == e.limit && (!ok ==> r == e)
  {
    hide Candidate, SplitCells, PrintCells, LeavesList, EndsHeading, NormalizeNewlines, Clamp, Bytes, LineAtOffset,
      LineRanges;
    CursorLineInRange(e);
    if LeavesList(e) {
      assert Chars(e.cells) == e.Text();
    } else {
      CandidateKeeps(e, e.selection, "\n");
      var (inserted, r) := ReplaceRange(e, e.selection, "\n");
      if inserted.Some? && CursorLine(e) + 1 < |r.blocks| {
        ParagraphIsShortest(r.cells, r.blocks, CursorLine(e) + 1);
      }
    }
  }

  lemma InlineKeeps(e: Editor, flag: Flag)
    requires Inv(e)
    ensures var (ok, r) := ToggleInline(e, flag);
            Inv(r) && (Ordered(e) ==> Ordered(r)) && r.limit == e.limit && (!ok ==> r == e)
  {
    hide Fits;
    var cells := Restyle(e.cells, e.selection, flag, !InlineActive(e, flag));
    assert Chars(cells) == e.Text();
  }

  /** Every public operation keeps the invariant, and one that reports failure changes nothing. An ordered
      selection is lost exactly by a successful composition whose own selection is given backwards. */
  lemma ApplyKeeps(e: Editor, op: Edit)
    requires Inv(e) && Served(e, op)
    ensures var (ok, r) := Apply(e, op);
            && Inv(r) && r.limit == e.limit && (!ok ==> r == e)
            && (Ordered(e) ==> (Ordered(r) <==> !(ok && GivesReversed(op))))
  {
    hide Fits, Candidate, InsertNewline, ToggleInline, ReplaceAndMark, Replaced, FloorIndex, OffsetFromUtf16,
      PreviousGrapheme, NextGrapheme, SelectedLines, BlockActive, SetKinds, NormalizeNewlines, InsertionStyle;
    match op
    case SelectRange(start, end, reversed) =>
    case Move(offset) =>
    case Extend(offset) =>
    case All =>
    case ClearMark =>
    case Replace(text) => ReplacedKeeps(e, e.selection, text);
    case Back =>
      var previous := Span(PreviousGrapheme(e.Text(), e.Cursor()), e.Cursor());
      ReplacedKeeps(e, if e.HasSelection() then e.selection else previous, "");
    case Forward =>
      var next := Span(e.Cursor(), NextGrapheme(e.Text(), e.Cursor()));
      ReplacedKeeps(e, if e.HasSelection() then e.selection else next, "");
    case Native(range, text) => ReplacedKeeps(e, NativeRange(e, range), text);
    case Compose(range, text, selection) => ComposeKeeps(e, range, text, selection);
    case Inline(flag) => InlineKeeps(e, flag);
    case Toggle(target) =>
    case Set(target) =>
    case Ask(target) =>
    case Newline => NewlineKeeps(e);
  }

  /** A session that starts in `e` and performs `edits` in order ends in `last`. */
  ghost predicate Session(e: Editor, edits: seq<Edit>, last: Editor)
    decreases |edits|
  {
    if edits == [] then last == e
    else
      && |e.blocks| == |SplitCells(e.cells)| && InText(e, e.selection) && Served(e, edits[0])
      && Session(Apply(e, edits[0]).1, edits[1..], last)
  }

  /** Over every session: one block kind per line, no carriage return, exclusive styles, selection
      and composition inside the text, and canonical Markdown within the limit. */
  lemma {:induction false} SessionKeeps(e: Editor, edits: seq<Edit>, last: Editor)
    requires Inv(e) && Session(e, edits, last)
    ensures Inv(last) && last.limit == e.limit
    decreases |edits|
  {
    hide Inv, Apply, Served;
    if edits != [] {
      ApplyKeeps(e, edits[0]);
      SessionKeeps(Apply(e, edits[0]).1, edits[1..], last);
    }
  }

  /** Without a composition selection given backwards the selection stays ordered, so every edit is served. */
  lemma {:induction false} SessionStaysOrdered(e: Editor, edits: seq<Edit>, last: Editor, next: Edit)
    requires Inv(e) && Ordered(e) && Session(e, edits, last)
    requires forall i :: 0 <= i < |edits| ==> !GivesReversed(edits[i])
    ensures Inv(last) && Ordered(last) && Served(last, next)
    decreases |edits|
  {
    hide Apply, GivesReversed, Fits;
    if edits == [] {
      OrderedIsServed(e, next);
    } else {
      ApplyKeeps(e, edits[0]);
      SessionStaysOrdered(Apply(e, edits[0]).1, edits[1..], last, next);
    }
  }

  lemma OrderedIsServed(e: Editor, op: Edit)
    requires InText(e, e.selection) && Ordered(e)
    ensures Served(e, op)
  {
    SelectedLinesInRange(e);
  }

  /** The line numbers decide: a selection given backwards is served when it begins at most one line behind its end. */
  lemma SliceableExactly(e: Editor)
    requires InText(e, e.selection)
    ensures Sliceable(e) <==>
            Ordered(e) || LineAtOffset(e.Text(), e.selection.start) <= LineAtOffset(e.Text(), e.selection.end) + 1
  {
    SelectedLinesInRange(e);
    if Ordered(e) {
      LinesOrdered(e.Text(), e.selection.start, e.selection.end);
    }
  }

  // ---------- toggles ----------

  /** A successful toggle flips what the editor reports as active, for a caret and for a selection. */
  lemma ToggleFlips(e: Editor, flag: Flag)
    requires InText(e, e.selection) && ToggleInline(e, flag).0
    ensures var r := ToggleInline(e, flag).1;
            InText(r, r.selection) && InlineActive(r, flag) == !InlineActive(e, flag)
  {
    hide Fits;
    if e.HasSelection() {
      var enabled := !InlineActive(e, flag);
      var cells := Restyle(e.cells, e.selection, flag, enabled);
      assert cells[e.selection.start] == Restyled(e.cells[e.selection.start], true, flag, enabled);
    }
  }

  // ---------- newline ----------

  /** The block kinds right after the selection gave way to a newline. */
  function NewlineBlocks(e: Editor): (blocks: seq<BlockKind>)
    requires |e.blocks| == |SplitCells(e.cells)|
  {
    var span := Clamp(e, e.selection);
    LineInRange(e.cells, span.end);
    LinesOrdered(e.Text(), span.start, span.end);
    var first := LineAtOffset(e.Text(), span.start);
    var last := LineAtOffset(e.Text(), span.end);
    e.blocks[..first] + Copies(e.blocks[first], 2) + e.blocks[last + 1..]
  }

  lemma NewlineSplices(e: Editor)
    requires Inv(e)
    ensures Candidate(e, e.selection, "\n").blocks == NewlineBlocks(e)
  {
    hide SplitCells, PrintCells, NormalizeNewlines, Breaks;
    assert NormalizeNewlines("\n") == "\n" && Breaks("\n") == 1 by {
      NormalizedNewlines("\n");
      OneBreak();
    }
  }

  lemma NewlineResult(e: Editor)
    requires Inv(e) && !LeavesList(e) && InsertNewline(e).0
    ensures var spliced := NewlineBlocks(e);
            var target := CursorLine(e) + 1;
            InsertNewline(e).1.blocks ==
              if EndsHeading(e) && target < |spliced| then spliced[target := Paragraph] else spliced
  {
    hide SplitCells, PrintCells, EndsHeading, LeavesList, NewlineBlocks, Candidate;
    NewlineSplices(e);
  }

  /** The lines that follow the edited ones, from index `first + 2` on, keep their kinds exactly
      unless the edit ends a heading that is not the first line of the selection while the line
      at the index taken before the edit is not a paragraph already. */
  lemma NewlineKeepsLaterKinds(e: Editor, first: nat, last: nat, target: nat)
    requires Inv(e) && !LeavesList(e) && InsertNewline(e).0
    requires first == LineAtOffset(e.Text(), Clamp(e, e.selection).start)
      && last == LineAtOffset(e.Text(), Clamp(e, e.selection).end)
    requires target == CursorLine(e) + 1
    ensures first <= last < |e.blocks|
    ensures |InsertNewline(e).1.blocks| == |NewlineBlocks(e)| == |e.blocks| - (last - first) + 1
    ensures InsertNewline(e).1.blocks[first + 2..] == e.blocks[last + 1..] <==>
            !(EndsHeading(e) && first + 2 <= target < |NewlineBlocks(e)| && NewlineBlocks(e)[target] != Paragraph)
  {
    hide SplitCells, PrintCells, EndsHeading, LeavesList, InsertNewline;
    LineInRange(e.cells, Clamp(e, e.selection).end);
    LinesOrdered(e.Text(), Clamp(e, e.selection).start, Clamp(e, e.selection).end);
    NewlineResult(e);
    var spliced := NewlineBlocks(e);
    assert spliced[first + 2..] == e.blocks[last + 1..];
    if EndsHeading(e) && target < |spliced| {
      ResetLater(spliced, first + 2, target);
    }
  }

  lemma ResetLater(blocks: seq<BlockKind>, from: nat, target: nat)
    requires from <= |blocks| && target < |blocks|
    ensures blocks[target := Paragraph][from..] == blocks[from..] <==> !(from <= target && blocks[target] != Paragraph)
  {
    if from <= target {
      assert blocks[target := Paragraph][from..][target - from] == Paragraph;
      assert blocks[from..][target - from] == blocks[target];
    }
  }

  /** Three lines: a paragraph "a", a heading "b" and a list item "c"; the first two are selected. */
  function Example(limit: nat): Editor {
    Editor(Styled("a\nb\nc", PLAIN), [Paragraph, Heading1, Bulleted], Span(0, 3), false, None, None, limit)
  }

  lemma ExampleShape(limit: nat)
    ensures var e := Example(limit);
            && e.Text() == "a\nb\nc" && |e.blocks| == |SplitCells(e.cells)| && Ordered(e)
            && CursorLine(e) == 1 && EndsHeading(e) && !LeavesList(e)
            && NewlineBlocks(e) == [Paragraph, Paragraph, Bulleted]
  {
    hide LineRanges, SplitCells, Breaks;
    var e := Example(limit);
    assert Chars(e.cells) == "a\nb\nc";
    RangesOfExample();
    LineSlices(e.cells);
    BreaksOfExample();
  }

  /** Pressing Enter there turns the list item "c", which the selection does not touch, into a paragraph. */
  lemma NewlineCanResetLaterKind() returns (limit: nat)
    ensures var e := Example(limit); Inv(e) && Ordered(e) && !LeavesList(e) && InsertNewline(e).0
    ensures InsertNewline(Example(limit)).1.blocks == [Paragraph, Paragraph, Paragraph]
  {
    hide PrintCells, Bytes, LineRanges, SplitCells, LeavesList, EndsHeading, NewlineBlocks, Candidate;
    ExampleShape(0);
    var c := Candidate(Example(0), Span(0, 3), "\n");
    CandidateShape(Example(0), Span(0, 3), "\n");
    limit := Bytes(PrintCells(Example(0).cells, Example(0).blocks)) + Bytes(PrintCells(c.cells, c.blocks));
    var e := Example(limit);
    ExampleShape(limit);
    CandidateShape(e, e.selection, "\n");
    SameCandidate(limit);
    NewlineResult(e);
  }

  lemma SameCandidate(limit: nat)
    requires |Example(0).blocks| == |SplitCells(Example(0).cells)|
    ensures var a, b := Candidate(Example(0), Span(0, 3), "\n"), Candidate(Example(limit), Span(0, 3), "\n");
            a.cells == b.cells && a.blocks == b.blocks && b.limit == limit
  {
    hide SplitCells, NormalizeNewlines;
  }

  lemma RangesOfExample()
    ensures LineRanges("a\nb\nc", 0) == [(0, 1), (2, 3), (4, 5)]
  {
    hide LineRanges, NextBreak;
    var text := "a\nb\nc";
    assert text[0..1] == "a" && text[2..3] == "b" && text[4..5] == "c";
    LineEndsAt(text, 0, 1);
    LineEndsAt(text, 2, 3);
    LineEndsAt(text, 4, 5);
  }

  lemma BreaksOfExample()
    ensures LineAtOffset("a\nb\nc", 0) == 0 && LineAtOffset("a\nb\nc", 3) == 1 && LineAtOffset("a\nb\nc", 4) == 2
  {
    var text := "a\nb\nc";
    assert text[..0] == "" && text[..3] == "a\nb" && text[..4] == "a\nb\n";
    assert "a\nb\n"[1..] == "\nb\n" && "\nb\n"[1..] == "b\n" && "b\n"[1..] == "\n" && "\n"[1..] == "";
    assert "a\nb"[1..] == "\nb" && "\nb"[1..] == "b" && "b"[1..] == "";
  }

  lemma OneBreak()
    ensures Breaks("\n") == 1
  {
    assert "\n"[1..] == "";
  }

  // ---------- a selection given backwards ----------

  /** An empty editor composes three lines with a selection from the last to the first. */
  function Empty(limit: nat): Editor {
    Editor([], [Paragraph], Span(0, 0), false, None, None, limit)
  }

  /** After that composition block edits and list queries cannot slice their lines; everything else is still served. */
  lemma ReversedCompositionIsNotServed() returns (limit: nat)
    ensures Inv(Empty(limit)) && GivesReversed(Compose(None, "a\nb\nc", Some(Span(4, 0))))
    ensures var (ok, r) := Apply(Empty(limit), Compose(None, "a\nb\nc", Some(Span(4, 0))));
            ok && Inv(r) && forall op :: Served(r, op) <==> !SlicesLines(op)
  {
    hide PrintCells, Bytes, SplitCells, Candidate, Breaks, NormalizeNewlines, OffsetFromUtf16;
    var text, op := "a\nb\nc", Compose(None, "a\nb\nc", Some(Span(4, 0)));
    EmptyIsOneLine();
    CandidateShape(Empty(0), Span(0, 0), text);
    var c := Candidate(Empty(0), Span(0, 0), text);
    limit := Bytes(PrintCells([], [Paragraph])) + Bytes(PrintCells(c.cells, c.blocks));
    var e := Empty(limit);
    assert AllExclusive(e.cells) && Inv(e);
    SameEmptyCandidate(limit, text);
    CandidateShape(e, Span(0, 0), text);
    ComposedExample(limit);
    ComposeKeeps(e, None, text, Some(Span(4, 0)));
  }

  lemma EmptyIsOneLine()
    ensures |SplitCells([])| == 1
  {
    SplitCount([]);
  }

  lemma SameEmptyCandidate(limit: nat, text: string)
    requires |SplitCells([])| == 1
    ensures var a, b := Candidate(Empty(0), Span(0, 0), text), Candidate(Empty(limit), Span(0, 0), text);
            a.cells == b.cells && a.blocks == b.blocks && b.limit == limit
  {
    hide SplitCells, NormalizeNewlines;
  }

  /** Text and lines of the composed editor, whatever its limit. */
  lemma ComposedExample(limit: nat)
    requires |SplitCells([])| == 1 && ReplaceAndMark(Empty(limit), None, "a\nb\nc", Some(Span(4, 0))).0
    ensures var text := "a\nb\nc";
            OffsetFromUtf16(NormalizeNewlines(text), 4) == 4 && OffsetFromUtf16(NormalizeNewlines(text), 0) == 0
    ensures var r := ReplaceAndMark(Empty(limit), None, "a\nb\nc", Some(Span(4, 0))).1;
            r.Text() == "a\nb\nc" && r.selection == Span(4, 0) && SelectedLines(r) == (2, 1)
  {
    hide Fits, NormalizeNewlines, SplitCells, Breaks, OffsetFromUtf16;
    var text := "a\nb\nc";
    NormalizedNewlines(text);
    Utf16OfExample();
    BreaksOfExample();
    var r := ReplaceAndMark(Empty(limit), None, text, Some(Span(4, 0))).1;
    assert r.Text() == text;
  }

  lemma Utf16OfExample()
    ensures OffsetFromUtf16("a\nb\nc", 4) == 4 && OffsetFromUtf16("a\nb\nc", 0) == 0
  {
    var text := "a\nb\nc";
    assert text[1..] == "\nb\nc" && "\nb\nc"[1..] == "b\nc" && "b\nc"[1..] == "\nc" && "\nc"[1..] == "c";
    assert OffsetFromUtf16("c", 0) == 0;
    assert OffsetFromUtf16("\nc", 1) == 1;
    assert OffsetFromUtf16("b\nc", 2) == 2;
    assert OffsetFromUtf16("\nb\nc", 3) == 3;
  }
}
