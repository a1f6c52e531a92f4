// The editor as the program keeps it: text, normal style runs, block kinds, selection,
// composition and pending style, updated in place. Every method computes what EditorModel says.
module RichText {
  import opened Collections
  import opened Options
  import opened Unicode
  import opened Styles
  import opened StyleRuns
  import opened Markdown
  import opened Documents
  import opened Layout
  import opened InlineMarkdown
  import opened InlineParser
  import opened MarkdownWriter
  import opened EditorModel
  import EditorTheorems

  // ---------- parsing ----------

  function ParsedCells(source: seq<string>): seq<Cell>
    requires source != []
  {
    JoinCells(ParsedLines(source))
  }

  lemma {:induction false} JoinCellsAppend(lines: seq<Line>, x: Line)
    requires lines != []
    ensures JoinCells(lines + [x]) == JoinCells(lines) + [Cell('\n', PLAIN)] + x.cells
  {
    if |lines| == 1 {
      assert (lines + [x])[1..] == [x];
    } else {
      JoinCellsAppend(lines[1..], x);
      assert (lines + [x])[1..] == lines[1..] + [x];
    }
  }

  /** Reads one more line of a document. */
  method ParseOneLine(text0: string, runs0: seq<StyleRun>, source: string, first: bool)
    returns (text: string, runs: seq<StyleRun>, kind: BlockKind)
    requires Normal(runs0, |text0|)
    ensures Normal(runs, |text|) && kind == ParseLine(source).kind
    ensures Cells(text, runs)
      == Cells(text0, runs0) + (if first then [] else [Cell('\n', PLAIN)]) + ParseLine(source).cells
  {
    hide ParseInline, StyleAt, Normal, ParseBlockPrefix;
    text, runs := text0, runs0;
    if !first {
      AppendCells(text, runs, "\n", PLAIN);
      runs := PushRun(runs, |text|, |text| + 1, PLAIN);
      text := text + "\n";
      assert Styled("\n", PLAIN) == [Cell('\n', PLAIN)];
    }
    assert Cells(text, runs) == Cells(text0, runs0) + (if first then [] else [Cell('\n', PLAIN)]);
    var (blockKind, line) := ParseBlockPrefix(source);
    kind := blockKind;
    var operations;
    text, runs, operations := ParseInlineWithOperations(line, text, runs);
  }

  /** Reads a document line by line into text, runs and block kinds. */
  method ParseMarkdown(markdown: string) returns (text: string, runs: seq<StyleRun>, blocks: seq<BlockKind>)
    ensures Normal(runs, |text|)
    ensures Cells(text, runs) == JoinCells(ParseDocument(markdown)) && blocks == Kinds(ParseDocument(markdown))
  {
    hide StyleAt, Normal, SplitLines, NormalizeNewlines, ParseLine, JoinCells;
    var source := SplitLines(NormalizeNewlines(markdown));
    text, runs, blocks := "", [], [];
    NoText();
    for k := 0 to |source|
      invariant Normal(runs, |text|)
      invariant blocks == Kinds(ParsedLines(source[..k]))
      invariant if k == 0 then Cells(text, runs) == [] else Cells(text, runs) == ParsedCells(source[..k])
    {
      var kind;
      text, runs, kind := ParseOneLine(text, runs, source[k], k == 0);
      blocks := blocks + [kind];
      NextParsedLine(source, k);
    }
    assert source[..|source|] == source;
    NormalAreOrdered(runs, |text|);
    runs := NormalizeRuns(|text|, runs);
  }

  lemma NextParsedLine(source: seq<string>, k: nat)
    requires k < |source|
    ensures ParsedLines(source[..k + 1]) == ParsedLines(source[..k]) + [ParseLine(source[k])]
    ensures ParsedCells(source[..k + 1]) ==
            (if k == 0 then [] else ParsedCells(source[..k])) + (if k == 0 then [] else [Cell('\n', PLAIN)])
                + ParseLine(source[k]).cells
  {
    hide ParseLine;
    assert source[..k + 1] == source[..k] + [source[k]];
    if k > 0 {
      JoinCellsAppend(ParsedLines(source[..k]), ParseLine(source[k]));
    }
  }

  lemma NoText()
    ensures Normal([], 0) && Cells("", []) == []
  {
  }

  lemma NormalAreOrdered(runs: seq<StyleRun>, n: nat)
    requires Normal(runs, n)
    ensures forall k :: 0 <= k < |runs| ==> runs[k].start <= runs[k].end
  {
    forall k | 0 <= k < |runs| ensures runs[k].start <= runs[k].end {
      assert Link(runs, k);
    }
  }

  // ---------- run surgery ----------

  /** Style of each character after a splice. */
  ghost function SplicedStyle(runs: seq<StyleRun>, span: Span, inserted: nat, style: InlineStyle, i: nat): InlineStyle {
    if i < span.start then StyleAt(runs, i)
    else if i < span.start + inserted then style
    else StyleAt(runs, i - inserted - span.start + span.end)
  }

  function EndOf(runs: seq<StyleRun>, k: nat): nat
    requires k <= |runs|
  {
    if k == 0 then 0 else runs[k - 1].end
  }

  lemma RunAt(runs: seq<StyleRun>, n: nat, k: nat)
    requires Normal(runs, n) && k < |runs|
    ensures EndOf(runs, k) == runs[k].start < runs[k].end <= n
    ensures forall i :: runs[k].start <= i < runs[k].end ==> StyleAt(runs, i) == runs[k].style
  {
    hide StyleAt;
    assert Link(runs, k);
    forall i | runs[k].start <= i < runs[k].end ensures StyleAt(runs, i) == runs[k].style {
      StyleWithin(runs, n, k, i);
    }
    StyleWithin(runs, n, k, runs[k].start);
  }

  /** Runs before the removed range, clipped to it. */
  method KeepBefore(runs: seq<StyleRun>, ghost n: nat, start: nat) returns (kept: seq<StyleRun>)
    requires Normal(runs, n) && start <= n
    ensures Normal(kept, start) && forall i :: 0 <= i < start ==> StyleAt(kept, i) == StyleAt(runs, i)
  {
    hide StyleAt, Normal, Link;
    kept := [];
    EmptyRuns(runs, n);
    for k := 0 to |runs|
      invariant Normal(kept, Min(start, EndOf(runs, k)))
      invariant forall i :: 0 <= i < Min(start, EndOf(runs, k)) ==> StyleAt(kept, i) == StyleAt(runs, i)
    {
      var run := runs[k];
      RunAt(runs, n, k);
      if run.end <= start {
        PushRunStyles(kept, run.start, run.end, run.style);
        kept := PushRun(kept, run.start, run.end, run.style);
      } else if run.start < start {
        PushRunStyles(kept, run.start, start, run.style);
        kept := PushRun(kept, run.start, start, run.style);
      }
    }
  }

  lemma EmptyRuns(runs: seq<StyleRun>, n: nat)
    requires Normal(runs, n)
    ensures Normal([], 0) && EndOf(runs, |runs|) == n
  {
  }

  /** Runs after the removed range, clipped to it and moved to where the inserted text ends. */
  method KeepAfter(kept0: seq<StyleRun>, newEnd: nat, runs: seq<StyleRun>, ghost n: nat, end: nat, removed: nat,
      inserted: nat)
    returns (kept: seq<StyleRun>)
    requires Normal(runs, n) && Normal(kept0, newEnd) && removed <= end <= n && newEnd == end - removed + inserted
    ensures Normal(kept, newEnd + n - end)
    ensures forall i :: 0 <= i < newEnd + n - end ==>
              StyleAt(kept, i) == (if i < newEnd then StyleAt(kept0, i) else StyleAt(runs, i - newEnd + end))
  {
    hide StyleAt, Normal, Link;
    kept := kept0;
    EmptyRuns(runs, n);
    for k := 0 to |runs|
      invariant Normal(kept, newEnd + Max(EndOf(runs, k), end) - end)
      invariant forall i :: 0 <= i < newEnd + Max(EndOf(runs, k), end) - end ==>
                  StyleAt(kept, i) == (if i < newEnd then StyleAt(kept0, i) else StyleAt(runs, i - newEnd + end))
    {
      var run := runs[k];
      RunAt(runs, n, k);
      if run.start >= end {
        var shiftedStart := run.start - removed + inserted;
        var shiftedEnd := run.end - removed + inserted;
        PushRunStyles(kept, shiftedStart, shiftedEnd, run.style);
        kept := PushRun(kept, shiftedStart, shiftedEnd, run.style);
      } else if run.end > end {
        PushRunStyles(kept, newEnd, newEnd + (run.end - end), run.style);
        kept := PushRun(kept, newEnd, newEnd + (run.end - end), run.style);
      }
    }
  }

  /** The spliced runs are normal and mean the spliced styles. */
  method SpliceRuns(runs: seq<StyleRun>, ghost n: nat, span: Span, inserted: nat, style: InlineStyle)
    returns (spliced: seq<StyleRun>)
    requires Normal(runs, n) && span.start <= span.end <= n
    ensures Normal(spliced, n - (span.end - span.start) + inserted)
    ensures forall i :: 0 <= i < n - (span.end - span.start) + inserted ==>
              StyleAt(spliced, i) == SplicedStyle(runs, span, inserted, style, i)
  {
    hide StyleAt, Normal;
    var newEnd := span.start + inserted;
    spliced := KeepBefore(runs, n, span.start);
    PushRunStyles(spliced, span.start, newEnd, style);
    if inserted > 0 {
      spliced := PushRun(spliced, span.start, newEnd, style);
    }
    spliced := KeepAfter(spliced, newEnd, runs, n, span.end, span.end - span.start, inserted);
  }

  lemma SplicedCells(text: string, runs: seq<StyleRun>, span: Span, replacement: string, style: InlineStyle,
      spliced: seq<StyleRun>)
    requires span.start <= span.end <= |text|
    requires var n := |text| - (span.end - span.start) + |replacement|;
             forall i :: 0 <= i < n ==> StyleAt(spliced, i) == SplicedStyle(runs, span, |replacement|, style, i)
    ensures Cells(text[..span.start] + replacement + text[span.end..], spliced)
         == SpliceCells(Cells(text, runs), span, replacement, style)
  {
    hide StyleAt;
  }

  ghost function RestyledAt(runs: seq<StyleRun>, span: Span, flag: Flag, enabled: bool, i: nat): InlineStyle {
    if span.start <= i < span.end then StyleAt(runs, i).WithFlag(flag, enabled) else StyleAt(runs, i)
  }

  /** Restyles the selected part of every run. */
  method RestyleRuns(runs: seq<StyleRun>, ghost n: nat, span: Span, flag: Flag, enabled: bool)
      returns (updated: seq<StyleRun>)
    requires Normal(runs, n) && span.start < span.end <= n
    ensures Normal(updated, n)
    ensures forall i :: 0 <= i < n ==> StyleAt(updated, i) == RestyledAt(runs, span, flag, enabled, i)
  {
    hide StyleAt, Normal, Link;
    updated := [];
    EmptyRuns(runs, n);
    for k := 0 to |runs|
      invariant Normal(updated, EndOf(runs, k))
      invariant forall i :: 0 <= i < EndOf(runs, k) ==> StyleAt(updated, i) == RestyledAt(runs, span, flag, enabled, i)
    {
      var run := runs[k];
      RunAt(runs, n, k);
      if run.end <= span.start || run.start >= span.end {
        PushRunStyles(updated, run.start, run.end, run.style);
        updated := PushRun(updated, run.start, run.end, run.style);
      } else {
        updated := RestyleRun(updated, run, span, flag, enabled);
      }
    }
  }

  /** One run that the selection overlaps: up to three pieces. */
  method RestyleRun(updated0: seq<StyleRun>, run: StyleRun, span: Span, flag: Flag, enabled: bool)
      returns (updated: seq<StyleRun>)
    requires Normal(updated0, run.start) && run.start < run.end
    requires span.start < span.end && run.end > span.start && run.start < span.end
    ensures Normal(updated, run.end)
    ensures forall i :: 0 <= i < run.start ==> StyleAt(updated, i) == StyleAt(updated0, i)
    ensures forall i :: run.start <= i < run.end ==>
              StyleAt(updated, i) == if span.start <= i < span.end then run.style.WithFlag(flag, enabled) else run.style
  {
    hide StyleAt, Normal;
    updated := updated0;
    if run.start < span.start {
      PushRunStyles(updated, run.start, span.start, run.style);
      updated := PushRun(updated, run.start, span.start, run.style);
    }
    var middleStart := Max(run.start, span.start);
    var middleEnd := Min(run.end, span.end);
    PushRunStyles(updated, middleStart, middleEnd, run.style.WithFlag(flag, enabled));
    updated := PushRun(updated, middleStart, middleEnd, run.style.WithFlag(flag, enabled));
    if run.end > span.end {
      PushRunStyles(updated, span.end, run.end, run.style);
      updated := PushRun(updated, span.end, run.end, run.style);
    }
  }

  /** Visible bytes of a replacement once its newlines are normalised, without building it. */
  method NormalizedNewlineLen(text: string) returns (normalized: nat)
    ensures normalized == Bytes(NormalizeNewlines(text))
  {
    hide Bytes;
    var source := 0;
    normalized := 0;
    assert text[0..] == text;
    EmptyNormal();
    while source < |text|
      invariant source <= |text|
      invariant normalized + Bytes(NormalizeNewlines(text[source..])) == Bytes(NormalizeNewlines(text))
      decreases |text| - source
    {
      NormalizedStep(text, source);
      if text[source] == '\r' && source + 1 < |text| && text[source + 1] == '\n' {
        source := source + 2;
        normalized := normalized + 1;
      } else {
        normalized := normalized + Width8(text[source]);
        source := source + 1;
      }
    }
  }

  lemma EmptyNormal()
    ensures Bytes(NormalizeNewlines("")) == 0
  {
  }

  lemma NormalizedStep(text: string, i: nat)
    requires i < |text|
    ensures var pair := text[i] == '\r' && i + 1 < |text| && text[i + 1] == '\n';
            Bytes(NormalizeNewlines(text[i..])) ==
              (if pair then 1 else Width8(text[i])) + Bytes(NormalizeNewlines(text[i + (if pair then 2 else 1)..]))
    ensures i + 1 == |text| ==> NormalizeNewlines(text[i + 1..]) == ""
  {
    var rest := text[i..];
    assert rest[1..] == text[i + 1..];
    if "\r\n" <= rest {
      assert rest[0] == "\r\n"[0] && rest[1] == "\r\n"[1];
      assert rest[2..] == text[i + 2..];
    } else {
      assert |rest| > 1 ==> rest[..2] != "\r\n";
    }
    assert NormalizeNewlines(rest)[1..] == NormalizeNewlines(rest[if "\r\n" <= rest then 2 else 1..]);
  }

  // ---------- the buffer ----------

  class RichTextBuffer {
    var text: string
    var runs: seq<StyleRun>
    var blocks: seq<BlockKind>
    var selection: Span
    var selectionReversed: bool
    var markedRange: Option<Span>
    var pendingStyle: Option<InlineStyle>
    const maxMarkdownBytes: nat

    /** The buffer seen per character. */
    ghost function Value(): Editor
      reads this
    {
      Editor(Cells(text, runs), blocks, selection, selectionReversed, markedRange, pendingStyle, maxMarkdownBytes)
    }

    /** Runs are in normal form and the per-character invariant holds. */
    ghost predicate Valid()
      reads this
    {
      && Normal(runs, |text|)
      && maxMarkdownBytes <= USIZE_MAX
      && Inv(Value())
    }

    /** Reads persisted Markdown that fits the limit both raw and in canonical form. */
    static method TryFromMarkdown(markdown: string, maxMarkdownBytes: nat) returns (buffer: RichTextBuffer?)
      requires maxMarkdownBytes <= USIZE_MAX
      ensures buffer != null <==>
                Bytes(markdown) <= maxMarkdownBytes && Bytes(Canonical(markdown)) <= maxMarkdownBytes
      ensures buffer != null ==>
                && fresh(buffer) && buffer.Valid() && Ordered(buffer.Value())
                && buffer.maxMarkdownBytes == maxMarkdownBytes
                && buffer.Value().cells == JoinCells(ParseDocument(markdown))
                && buffer.blocks == Kinds(ParseDocument(markdown))
                && buffer.selection == Span(|buffer.text|, |buffer.text|)
    {
      hide SplitCells, PrintDocument, ParseDocument, StyleAt, Normal, JoinCells, Bytes;
      if Bytes(markdown) > maxMarkdownBytes {
        return null;
      }
      var text, runs, blocks := ParseMarkdown(markdown);
      ParsedTextShape(markdown);
      var fits, operations := MarkdownFitsWithLimit(text, runs, blocks, maxMarkdownBytes);
      if !fits {
        return null;
      }
      CharsOfCells(text, runs);
      buffer := new RichTextBuffer.Parsed(text, runs, blocks, maxMarkdownBytes);
    }

    constructor Parsed(text: string, runs: seq<StyleRun>, blocks: seq<BlockKind>, maxMarkdownBytes: nat)
      requires Normal(runs, |text|) && maxMarkdownBytes <= USIZE_MAX && '\r' !in text
      requires AllExclusive(Cells(text, runs)) && Fits(Cells(text, runs), blocks, maxMarkdownBytes)
      ensures Valid() && Ordered(Value())
      ensures Value() == Editor(Cells(text, runs), blocks, Span(|text|, |text|), false, None, None, maxMarkdownBytes)
      ensures this.text == text
    {
      this.text, this.runs, this.blocks := text, runs, blocks;
      selection, selectionReversed, markedRange, pendingStyle := Span(|text|, |text|), false, None, None;
      this.maxMarkdownBytes := maxMarkdownBytes;
      new;
      CharsOfCells(text, runs);
    }

    /** Canonical Markdown of the buffer. */
    method Markdown() returns (output: string, operations: nat)
      requires Valid()
      ensures output == PrintCells(Value().cells, blocks) && Bytes(output) <= maxMarkdownBytes
      ensures operations <= |runs| + 2 * |blocks|
    {
      output, operations := MarkdownWithRunOperations(text, runs, blocks);
    }

    // ----- selection -----

    method SetSelection(start: nat, end: nat, reversed: bool)
      requires Valid()
      modifies this
      ensures Valid() && Value() == EditorModel.SetSelection(old(Value()), start, end, reversed)
    {
      hide Fits, Normal, StyleAt;
      CharsOfCells(text, runs);
      var a, b := FloorIndex(text, start), FloorIndex(text, end);
      selection := Span(Min(a, b), Max(a, b));
      selectionReversed := reversed && selection.start < selection.end;
      pendingStyle := None;
    }

    method MoveTo(offset: nat)
      requires Valid()
      modifies this
      ensures Valid() && Value() == EditorModel.MoveTo(old(Value()), offset)
    {
      hide Fits, Normal, StyleAt;
      CharsOfCells(text, runs);
      var a := FloorIndex(text, offset);
      selection, selectionReversed, pendingStyle := Span(a, a), false, None;
    }

    method SelectTo(offset: nat)
      requires Valid()
      modifies this
      ensures Valid() && Value() == EditorModel.SelectTo(old(Value()), offset)
    {
      hide Fits, Normal, StyleAt;
      CharsOfCells(text, runs);
      var a := FloorIndex(text, offset);
      var anchor := if selectionReversed then selection.end else selection.start;
      selection := Span(Min(anchor, a), Max(anchor, a));
      selectionReversed, pendingStyle := a < anchor, None;
    }

    method SelectAll()
      requires Valid()
      modifies this
      ensures Valid() && Value() == EditorModel.SelectAll(old(Value()))
    {
      hide Fits, Normal, StyleAt;
      selection, selectionReversed, pendingStyle := Span(0, |text|), false, None;
    }

    method ClearMarkedRange()
      requires Valid()
      modifies this
      ensures Valid() && Value() == old(Value()).(marked := None)
    {
      hide Fits, Normal, StyleAt;
      markedRange := None;
    }

    // ----- replacement -----

    method StyleForInsertion(offset: nat) returns (style: InlineStyle)
      requires Valid() && offset <= |text|
      ensures style == EditorModel.StyleForInsertion(Value().cells, offset)
    {
      hide Fits, StyleAt;
      if text == "" {
        return PLAIN;
      }
      var probe := if offset == |text| then offset - 1 else offset;
      for k := 0 to |runs|
        invariant probe >= EndOf(runs, k)
      {
        RunAt(runs, |text|, k);
        if runs[k].start <= probe < runs[k].end {
          return runs[k].style;
        }
      }
    }

    /** All or nothing: the spliced text, styles and block kinds, or no change at all. The
        composition is left to the callers. */
    method ReplaceRange(range: Span, replacement: string) returns (inserted: Option<Span>)
      requires Valid()
      modifies this
      ensures (inserted, Value()) == EditorModel.ReplaceRange(old(Value()), range, replacement)
      ensures Normal(runs, |text|)
      ensures inserted.None? ==> Valid()
    {
      hide SplitCells, PrintCells, StyleAt, Normal, Breaks, NormalizeNewlines, Bytes, Candidate,
           SpliceCells, SpliceBlocks, Clamp, LineAtOffset;
      ghost var e := Value();
      var start := Min(range.start, |text|);
      var span := Span(start, Max(Min(range.end, |text|), start));
      CandidateParts(text, runs, e, range, replacement, span);
      RejectedEarly(text, runs, e, range, replacement, span);
      var normalizedLen := NormalizedNewlineLen(replacement);
      if Bytes(text) - Bytes(text[span.start..span.end]) + normalizedLen > maxMarkdownBytes {
        return None;
      }
      var normalized := NormalizeNewlines(replacement);
      var style;
      if pendingStyle.Some? {
        style := pendingStyle.value;
      } else {
        style := StyleForInsertion(span.start);
      }
      var newBlocks := SpliceBlocks(text, blocks, span, normalized);
      var newText := text[..span.start] + normalized + text[span.end..];
      var newRuns := SpliceAndNormalize(text, runs, span, normalized, style);
      var fits, operations := MarkdownFitsWithLimit(newText, newRuns, newBlocks, maxMarkdownBytes);
      if !fits {
        return None;
      }
      var newEnd := span.start + |normalized|;
      text, runs, blocks := newText, newRuns, newBlocks;
      selection, selectionReversed, pendingStyle := Span(newEnd, newEnd), false, Some(style);
      return Some(Span(span.start, newEnd));
    }

    /** A successful public edit ends the composition; a rejected one changes nothing. */
    method Replace(range: Span, replacement: string) returns (ok: bool)
      requires Valid()
      modifies this
      ensures Valid() && (ok, Value()) == Replaced(old(Value()), range, replacement)
    {
      hide SplitCells, PrintCells, StyleAt, Normal, Candidate, Fits;
      EditorTheorems.ReplacedKeeps(Value(), range, replacement);
      var inserted := ReplaceRange(range, replacement);
      if inserted.None? {
        return false;
      }
      markedRange := None;
      return true;
    }

    method ReplaceSelection(replacement: string) returns (ok: bool)
      requires Valid()
      modifies this
      ensures Valid() && (ok, Value()) == EditorModel.ReplaceSelection(old(Value()), replacement)
    {
      ok := Replace(selection, replacement);
    }

    function CursorOffset(): nat
      reads this
    {
      if selectionReversed then selection.start else selection.end
    }

    method Backspace() returns (ok: bool)
      requires Valid()
      modifies this
      ensures Valid() && (ok, Value()) == EditorModel.Backspace(old(Value()))
    {
      hide SplitCells, PrintCells, StyleAt, Normal, Replaced, PreviousGrapheme;
      CharsOfCells(text, runs);
      var range := selection;
      if selection.start >= selection.end {
        var cursor := CursorOffset();
        var previous := ScanPreviousGrapheme(text, cursor);
        range := Span(previous, cursor);
      }
      ok := Replace(range, "");
    }

    method DeleteForward() returns (ok: bool)
      requires Valid()
      modifies this
      ensures Valid() && (ok, Value()) == EditorModel.DeleteForward(old(Value()))
    {
      hide SplitCells, PrintCells, StyleAt, Normal, Replaced, NextGrapheme;
      CharsOfCells(text, runs);
      var range := selection;
      if selection.start >= selection.end {
        var cursor := CursorOffset();
        var next := ScanNextGrapheme(text, cursor);
        range := Span(cursor, next);
      }
      ok := Replace(range, "");
    }

    /** The range a native edit addresses. */
    method NativeTarget(range: Option<Span>) returns (target: Span)
      requires Valid()
      ensures target == NativeRange(Value(), range)
    {
      hide Fits, StyleAt, Normal, OffsetFromUtf16;
      CharsOfCells(text, runs);
      if range.Some? {
        var start := ScanFromUtf16(text, range.value.start);
        var end := ScanFromUtf16(text, range.value.end);
        return Span(start, end);
      }
      return if markedRange.Some? then markedRange.value else selection;
    }

    method ReplaceTextUtf16(range: Option<Span>, newText: string) returns (ok: bool)
      requires Valid()
      modifies this
      ensures Valid() && (ok, Value()) == ReplaceText(old(Value()), range, newText)
    {
      hide Fits, StyleAt, Normal, NativeRange, Replaced;
      var target := NativeTarget(range);
      ok := Replace(target, newText);
    }

    method ReplaceAndMarkUtf16(range: Option<Span>, newText: string, newSelection: Option<Span>) returns (ok: bool)
      requires Valid()
      modifies this
      ensures Valid() && (ok, Value()) == ReplaceAndMark(old(Value()), range, newText, newSelection)
    {
      hide SplitCells, PrintCells, StyleAt, Normal, Candidate, NativeRange, OffsetFromUtf16, NormalizeNewlines;
      ghost var e := Value();
      var target := NativeTarget(range);
      EditorTheorems.ComposeKeeps(e, range, newText, newSelection);
      InsertedText(e, target, newText);
      var inserted := ReplaceRange(target, newText);
      if inserted.None? {
        return false;
      }
      markedRange := if inserted.value.start < inserted.value.end then inserted else None;
      CharsOfCells(text, runs);
      if newSelection.Some? {
        var insertedText := text[inserted.value.start..inserted.value.end];
        var relativeStart := ScanFromUtf16(insertedText, newSelection.value.start);
        var relativeEnd := ScanFromUtf16(insertedText, newSelection.value.end);
        selection := Span(inserted.value.start + relativeStart, inserted.value.start + relativeEnd);
      }
      return true;
    }

    // ----- inline styles -----

    method InlineActive(flag: Flag) returns (active: bool)
      requires Valid()
      ensures active == EditorModel.InlineActive(Value(), flag)
    {
      hide Fits, StyleAt, Link;
      if selection.start >= selection.end {
        if pendingStyle.Some? {
          return pendingStyle.value.Has(flag);
        }
        var style := StyleForInsertion(CursorOffset());
        return style.Has(flag);
      }
      EmptyRuns(runs, |text|);
      for k := 0 to |runs|
        invariant forall i :: selection.start <= i < Min(EndOf(runs, k), selection.end) ==> StyleAt(runs, i).Has(flag)
      {
        RunAt(runs, |text|, k);
        if runs[k].start < selection.end && runs[k].end > selection.start {
          if !runs[k].style.Has(flag) {
            ghost var at := Max(runs[k].start, selection.start);
            assert !Value().cells[at].style.Has(flag);
            return false;
          }
        }
      }
      return true;
    }

    /** Caret: flips the pending style. Selection: restyles its characters if the result fits. */
    method ToggleInline(flag: Flag) returns (ok: bool)
      requires Valid()
      modifies this
      ensures Valid() && (ok, Value()) == EditorModel.ToggleInline(old(Value()), flag)
    {
      hide SplitCells, PrintCells, StyleAt, Normal;
      ghost var e := Value();
      EditorTheorems.InlineKeeps(e, flag);
      if selection.start >= selection.end {
        var current;
        if pendingStyle.Some? {
          current := pendingStyle.value;
        } else {
          current := StyleForInsertion(CursorOffset());
        }
        pendingStyle := Some(current.WithFlag(flag, !current.Has(flag)));
        return true;
      }
      var active := InlineActive(flag);
      var updated := RestyleRuns(runs, |text|, selection, flag, !active);
      NormalAreOrdered(updated, |text|);
      updated := NormalizeRuns(|text|, updated);
      assert Cells(text, updated) == Restyle(e.cells, selection, flag, !active);
      var fits, operations := MarkdownFitsWithLimit(text, updated, blocks, maxMarkdownBytes);
      if !fits {
        return false;
      }
      runs, pendingStyle := updated, None;
      return true;
    }

    // ----- block kinds -----

    method TouchedLines() returns (first: nat, beyond: nat)
      requires Valid()
      ensures (first, beyond) == SelectedLines(Value())
    {
      hide Fits, StyleAt, Normal, Breaks;
      CharsOfCells(text, runs);
      first := LineAtOffset(text, selection.start);
      var lastOffset := if selection.end > selection.start then selection.end - 1 else selection.end;
      beyond := LineAtOffset(text, lastOffset) + 1;
    }

    method BlockActive(target: BlockKind) returns (active: bool)
      requires Valid() && Sliceable(Value())
      ensures active == EditorModel.BlockActive(Value(), target)
    {
      hide SplitCells, PrintCells, StyleAt, Normal, SelectedLines;
      SelectedLinesInRange(Value());
      var first, beyond := TouchedLines();
      active := true;
      for i := first to beyond
        invariant active <==> forall j :: first <= j < i ==> blocks[j] == target
      {
        active := active && blocks[i] == target;
      }
    }

    method ToggleBlock(target: BlockKind) returns (ok: bool)
      requires Valid() && Sliceable(Value())
      modifies this
      ensures Valid() && (ok, Value()) == EditorModel.ToggleBlock(old(Value()), target)
    {
      hide SplitCells, PrintCells, StyleAt, Normal, EditorModel.BlockActive, EditorModel.SetBlock;
      var active := BlockActive(target);
      ok := SetBlock(if active then Paragraph else target);
    }

    /** One block kind for every line the selection touches, as far as those lines can be sliced. */
    method SetBlock(target: BlockKind) returns (ok: bool)
      requires Valid() && Sliceable(Value())
      modifies this
      ensures Valid() && (ok, Value()) == EditorModel.SetBlock(old(Value()), target)
    {
      hide SplitCells, PrintCells, StyleAt, Normal, SelectedLines, SetKinds;
      SelectedLinesInRange(Value());
      var first, beyond := TouchedLines();
      var kinds, updated := blocks, blocks;
      NoKinds(kinds, first, target);
      for i := first to beyond
        modifies {}
        invariant updated == SetKinds(kinds, first, i, target)
      {
        NextKind(kinds, first, i, target);
        updated := updated[i := target];
      }
      ok := InstallBlocks(updated);
    }

    method InstallBlocks(updated: seq<BlockKind>) returns (ok: bool)
      requires Valid()
      modifies this
      ensures Valid() && (ok, Value()) == WithBlocks(old(Value()), updated)
    {
      hide SplitCells, PrintCells, StyleAt, Normal;
      var fits, operations := MarkdownFitsWithLimit(text, runs, updated, maxMarkdownBytes);
      if fits {
        blocks := updated;
      }
      return fits;
    }

    // ----- newline -----

    /** Leaves a list on an empty item, ends a heading, or just breaks the line. */
    method InsertNewline() returns (ok: bool)
      requires Valid()
      modifies this
      ensures Valid() && (ok, Value()) == EditorModel.InsertNewline(old(Value()))
    {
      hide SplitCells, PrintCells, StyleAt, Normal, LineRanges, Candidate, Breaks;
      ghost var e := Value();
      CharsOfCells(text, runs);
      CursorLineInRange(e);
      EditorTheorems.NewlineKeeps(e);
      var cursor := CursorOffset();
      var line := LineAtOffset(text, cursor);
      var ranges := ScanLineRanges(text);
      var (lineStart, lineEnd) := ranges[line];
      var kind := blocks[line];
      if selection.start >= selection.end && (kind == Bulleted || kind == Numbered)
          && IsBlank(text[lineStart..lineEnd]) {
        ok := InstallBlocks(blocks[line := Paragraph]);
        if ok {
          pendingStyle := Some(PLAIN);
        }
        return;
      }
      var inserted := ReplaceRange(selection, "\n");
      if inserted.None? {
        return false;
      }
      if IsHeading(kind) && cursor == lineEnd && line + 1 < |blocks| {
        blocks := blocks[line + 1 := Paragraph];
      }
      markedRange := None;
      return true;
    }
  }

  lemma NoKinds(blocks: seq<BlockKind>, first: nat, target: BlockKind)
    requires first <= |blocks|
    ensures SetKinds(blocks, first, first, target) == blocks
  {
  }

  lemma NextKind(blocks: seq<BlockKind>, first: nat, i: nat, target: BlockKind)
    requires first <= i < |blocks|
    ensures |SetKinds(blocks, first, i, target)| == |blocks|
    ensures SetKinds(blocks, first, i + 1, target) == SetKinds(blocks, first, i, target)[i := target]
  {
  }

  /** What an accepted replacement inserted is the normalised replacement. */
  lemma InsertedText(e: Editor, range: Span, replacement: string)
    requires |e.blocks| == |SplitCells(e.cells)|
    ensures var (inserted, r) := EditorModel.ReplaceRange(e, range, replacement);
            inserted.Some? ==>
              && inserted.value.start <= inserted.value.end <= |r.cells|
              && r.Text()[inserted.value.start..inserted.value.end] == NormalizeNewlines(replacement)
  {
    hide SplitCells, PrintCells, NormalizeNewlines, Breaks, Fits;
    CandidateText(e, range, replacement);
    var span := Clamp(e, range);
    var normalized := NormalizeNewlines(replacement);
    var whole := e.Text()[..span.start] + normalized + e.Text()[span.end..];
    assert whole[span.start..span.start + |normalized|] == normalized;
  }

  /** New runs for a splice, brought into normal form. */
  method SpliceAndNormalize(text: string, runs: seq<StyleRun>, span: Span, replacement: string, style: InlineStyle)
    returns (spliced: seq<StyleRun>)
    requires Normal(runs, |text|) && span.start <= span.end <= |text|
    ensures var newText := text[..span.start] + replacement + text[span.end..];
            Normal(spliced, |newText|)
            && Cells(newText, spliced) == SpliceCells(Cells(text, runs), span, replacement, style)
  {
    hide StyleAt, Normal;
    spliced := SpliceRuns(runs, |text|, span, |replacement|, style);
    SplicedCells(text, runs, span, replacement, style, spliced);
    NormalAreOrdered(spliced, |text| - (span.end - span.start) + |replacement|);
    spliced := NormalizeRuns(|text| - (span.end - span.start) + |replacement|, spliced);
  }

  /** The parts of a replacement, in terms of text and runs. */
  lemma CandidateParts(text: string, runs: seq<StyleRun>, e: Editor, range: Span, replacement: string, span: Span)
    requires e.cells == Cells(text, runs) && |e.blocks| == |SplitCells(e.cells)|
    requires span == Span(Min(range.start, |text|), Max(Min(range.end, |text|), Min(range.start, |text|)))
    ensures span.start <= span.end <= |text| == |e.cells| && Clamp(e, range) == span
    ensures LineAtOffset(text, span.start) <= LineAtOffset(text, span.end) < |e.blocks|
    ensures Candidate(e, range, replacement) ==
            var normalized := NormalizeNewlines(replacement);
            var style := if e.pending.Some? then e.pending.value
              else EditorModel.StyleForInsertion(e.cells, span.start);
            var end := span.start + |normalized|;
            e.(cells := SpliceCells(e.cells, span, normalized, style),
               blocks := SpliceBlocks(text, e.blocks, span, normalized),
               selection := Span(end, end), reversed := false, pending := Some(style))
  {
    hide SplitCells, StyleAt, Breaks, NormalizeNewlines, SpliceCells, SpliceBlocks, LineAtOffset;
    CharsOfCells(text, runs);
    LineInRange(e.cells, span.end);
    LinesOrdered(text, span.start, span.end);
  }

  /** Too many visible bytes: the exact check would reject the replacement as well. */
  lemma RejectedEarly(text: string, runs: seq<StyleRun>, e: Editor, range: Span, replacement: string, span: Span)
    requires e.cells == Cells(text, runs) && |e.blocks| == |SplitCells(e.cells)| && Clamp(e, range) == span
    ensures Bytes(text[span.start..span.end]) <= Bytes(text)
    ensures Bytes(text) - Bytes(text[span.start..span.end]) + Bytes(NormalizeNewlines(replacement)) > e.limit ==>
              EditorModel.ReplaceRange(e, range, replacement) == (None, e)
  {
    hide SplitCells, StyleAt, Clamp, NormalizeNewlines, Bytes, PrintCells, Candidate;
    CharsOfCells(text, runs);
    SpliceBytes(text, span, NormalizeNewlines(replacement));
    CandidateText(e, range, replacement);
    EditorTheorems.AcceptedIffFits(e, range, replacement);
  }

  lemma CharsOfCells(text: string, runs: seq<StyleRun>)
    ensures Chars(Cells(text, runs)) == text
  {
  }

  lemma SpliceBytes(text: string, span: Span, replacement: string)
    requires span.start <= span.end <= |text|
    ensures Bytes(text[span.start..span.end]) <= Bytes(text)
    ensures Bytes(text[..span.start] + replacement + text[span.end..])
         == Bytes(text) - Bytes(text[span.start..span.end]) + Bytes(replacement)
  {
    hide Bytes;
    var a, b, c := text[..span.start], text[span.start..span.end], text[span.end..];
    assert text == a + (b + c);
    BytesConcat(a, b + c);
    BytesConcat(b, c);
    assert a + replacement + c == a + (replacement + c);
    BytesConcat(a, replacement + c);
    BytesConcat(replacement, c);
  }

  lemma CandidateText(e: Editor, range: Span, replacement: string)
    requires |e.blocks| == |SplitCells(e.cells)|
    ensures var span := Clamp(e, range);
            Chars(Candidate(e, range, replacement).cells)
            == e.Text()[..span.start] + NormalizeNewlines(replacement) + e.Text()[span.end..]
  {
    hide SplitCells, NormalizeNewlines, Breaks;
  }

  /** What a parsed document looks like as an editor's content. */
  lemma ParsedTextShape(markdown: string)
    ensures var cells := JoinCells(ParseDocument(markdown));
            var blocks := Kinds(ParseDocument(markdown));
            && |blocks| == |SplitCells(cells)| && PrintCells(cells, blocks) == Canonical(markdown)
            && '\r' !in Chars(cells) && AllExclusive(cells)
  {
    hide SplitCells, ParseDocument, PrintDocument;
    var lines := ParseDocument(markdown);
    ParsedDocumentIsWellFormed(markdown);
    assert forall i :: 0 <= i < |lines| ==> WellFormed(lines[i]);
    LinesOfJoin(lines);
    JoinedIsWellFormed(lines);
  }

  lemma {:induction false} JoinedIsWellFormed(lines: seq<Line>)
    requires lines != [] && forall i :: 0 <= i < |lines| ==> WellFormed(lines[i])
    ensures '\r' !in Chars(JoinCells(lines)) && AllExclusive(JoinCells(lines))
  {
    assert WellFormed(lines[0]);
    if |lines| > 1 {
      JoinedIsWellFormed(lines[1..]);
      var tail := [Cell('\n', PLAIN)] + JoinCells(lines[1..]);
      assert Chars(tail) == "\n" + Chars(JoinCells(lines[1..]));
      CharsConcat(lines[0].cells, tail);
    }
  }
}
