// Printing with the run cursor, and the size check that mirrors it without printing.
module MarkdownWriter {
  import opened Collections
  import opened Options
  import opened Unicode
  import opened Styles
  import opened StyleRuns
  import opened InlineMarkdown
  import opened Markdown
  import opened Documents
  import opened Layout

  // ---------- the inline encoder ----------

  lemma LongestStep(s: string, i: nat)
    requires i < |s|
    ensures LongestRun(s[i..]) == Max(LeadingBackticks(s[i..]), LongestRun(s[i + 1..]))
    ensures LeadingBackticks(s[i..]) == if s[i] == '`' then 1 + LeadingBackticks(s[i + 1..]) else 0
    ensures LeadingBackticks(s[i + 1..]) <= LongestRun(s[i + 1..])
  {
    assert s[i..][1..] == s[i + 1..];
    LeadingWithinLongest(s[i + 1..]);
  }

  lemma NoRuns()
    ensures LongestRun("") == 0 && LeadingBackticks("") == 0
  {
  }

  method LongestBacktickRun(source: string) returns (longest: nat)
    ensures longest == LongestRun(source)
  {
    hide LongestRun, LeadingBackticks;
    longest := 0;
    var current := 0;
    assert source[0..] == source;
    LeadingWithinLongest(source);
    for i := 0 to |source|
      invariant LongestRun(source)
        == Max(longest, Max(current + LeadingBackticks(source[i..]), LongestRun(source[i..])))
      invariant current <= longest
    {
      LongestStep(source, i);
      if source[i] == '`' {
        current := current + 1;
        longest := Max(longest, current);
      } else {
        current := 0;
      }
    }
    assert source[|source|..] == "" && LongestRun("") == LeadingBackticks("") == 0 by {
      NoRuns();
    }
  }

  lemma EscapeStep(source: string, i: nat)
    requires i < |source|
    ensures Escape(source[i..])
      == (if IsSpecial(source[i]) then ['\\', source[i]] else [source[i]]) + Escape(source[i + 1..])
  {
    assert source[i..][1..] == source[i + 1..];
  }

  method EscapeInline(source: string) returns (output: string)
    ensures output == Escape(source)
  {
    output := "";
    for i := 0 to |source|
      invariant output + Escape(source[i..]) == Escape(source)
    {
      hide Escape;
      EscapeStep(source, i);
      ghost var piece := if IsSpecial(source[i]) then ['\\', source[i]] else [source[i]];
      Associates(output, piece, Escape(source[i + 1..]));
      ghost var longer := output + piece;
      if IsSpecial(source[i]) {
        output := output + "\\";
      }
      output := output + [source[i]];
      assert output == longer;
    }
  }

  method EncodeInline(source: string, style: InlineStyle) returns (output: string)
    ensures output == EncodePiece(source, style)
  {
    if source == "" {
      return "";
    }
    if style.code {
      var longest := LongestBacktickRun(source);
      var fence := Repeat('`', longest + 1);
      return fence + source + fence;
    }
    var escaped := EscapeInline(source);
    var marker :=
      if style.bold && style.italic then "***" else if style.bold then "**" else if style.italic then "*" else "";
    assert marker == Repeat('*', StarCount(style));
    return marker + escaped + marker;
  }

  // ---------- pieces of a line ----------

  /** What the cursor's visits print to. */
  function EncodePieces(text: string, pieces: seq<StyleRun>): string
    requires forall i :: 0 <= i < |pieces| ==> pieces[i].start <= pieces[i].end <= |text|
  {
    if pieces == [] then ""
    else EncodePiece(text[pieces[0].start..pieces[0].end], pieces[0].style) + EncodePieces(text, pieces[1..])
  }

  lemma {:induction false} OverlapsInBounds(runs: seq<StyleRun>, start: nat, end: nat)
    ensures forall i :: 0 <= i < |Overlaps(runs, start, end)| ==>
              start <= Overlaps(runs, start, end)[i].start < Overlaps(runs, start, end)[i].end <= end
  {
    if runs != [] {
      OverlapsInBounds(runs[1..], start, end);
    }
  }

  /** The first stretch of a slice ends with the run or with the slice. */
  lemma StretchOfRun(text: string, runs: seq<StyleRun>, k: nat, start: nat, end: nat)
    requires Normal(runs, |text|) && k < |runs| && runs[k].start <= start < runs[k].end && start < end <= |text|
    ensures StretchEnd(Cells(text, runs)[start..end]) == Min(runs[k].end, end) - start
    ensures Cells(text, runs)[start..end][0].style == runs[k].style
  {
    hide StyleAt, StretchEnd;
    var slice := Cells(text, runs)[start..end];
    var n := Min(runs[k].end, end) - start;
    forall i | 0 <= i < n ensures slice[i].style == runs[k].style {
      StyleWithin(runs, |text|, k, start + i);
    }
    if runs[k].end < end {
      assert k + 1 < |runs| by {
        assert Link(runs, k);
      }
      assert Link(runs, k + 1);
      StyleWithin(runs, |text|, k + 1, runs[k].end);
    }
    StretchIs(slice, n);
  }

  lemma {:induction false} StretchIs(cells: seq<Cell>, n: nat)
    requires 0 < n <= |cells| && (forall i :: 0 <= i < n ==> cells[i].style == cells[0].style)
    requires n < |cells| ==> cells[n].style != cells[0].style
    ensures StretchEnd(cells) == n
  {
  }

  lemma {:induction false} OverlapsTail(runs: seq<StyleRun>, start: nat, later: nat, end: nat)
    requires start <= later && forall k :: 0 <= k < |runs| ==> later <= runs[k].start
    ensures Overlaps(runs, start, end) == Overlaps(runs, later, end)
  {
    if runs != [] {
      OverlapsTail(runs[1..], start, later, end);
    }
  }

  /** Printing the visited pieces prints the slice, stretch by stretch. */
  lemma {:induction false} PiecesEncode(text: string, runs: seq<StyleRun>, k: nat, start: nat, end: nat)
    requires Normal(runs, |text|) && k < |runs| && runs[k].start <= start < runs[k].end && start < end <= |text|
    ensures var pieces := Overlaps(runs[k..], start, end);
            (forall i :: 0 <= i < |pieces| ==> pieces[i].start <= pieces[i].end <= |text|)
            && EncodePieces(text, pieces) == EncodeCells(Cells(text, runs)[start..end])
    decreases |runs| - k
  {
    hide StyleAt, Overlaps, EncodePiece, EncodeCells, StretchEnd;
    var cells := Cells(text, runs);
    var stop := Min(runs[k].end, end);
    StretchOfRun(text, runs, k, start, end);
    OverlapsAt(runs, k, start, end);
    OverlapsInBounds(runs[k..], start, end);
    var piece := StyleRun(start, stop, runs[k].style);
    assert Max(runs[k].start, start) == start;
    assert Chars(cells[start..end][..stop - start]) == text[start..stop];
    assert cells[start..end][stop - start..] == cells[stop..end];
    EncodeFirst(cells[start..end]);
    if stop < end {
      assert k + 1 < |runs| by {
        assert Link(runs, k);
      }
      assert Link(runs, k + 1);
      RunsFrom(runs, |text|, k + 1);
      OverlapsTail(runs[k + 1..], start, stop, end);
      PiecesEncode(text, runs, k + 1, stop, end);
    } else {
      assert k + 1 < |runs| ==> Link(runs, k + 1);
      RestBeyond(runs, |text|, k + 1, start, end);
      assert cells[stop..end] == [];
      EncodeNothing();
    }
    assert Overlaps(runs[k..], start, end) == [piece] + Overlaps(runs[k + 1..], start, end);
    assert ([piece] + Overlaps(runs[k + 1..], start, end))[1..] == Overlaps(runs[k + 1..], start, end);
  }

  lemma EncodeFirst(cells: seq<Cell>)
    requires cells != []
    ensures var n := StretchEnd(cells);
            EncodeCells(cells) == EncodePiece(Chars(cells[..n]), cells[0].style) + EncodeCells(cells[n..])
  {
  }

  lemma RunsFrom(runs: seq<StyleRun>, n: nat, k: nat)
    requires Normal(runs, n) && k < |runs|
    ensures forall j :: 0 <= j < |runs[k..]| ==> runs[k].start <= runs[k..][j].start
  {
    forall j | 0 <= j < |runs[k..]| ensures runs[k].start <= runs[k..][j].start {
      if j > 0 {
        RunsOrdered(runs, n, k, k + j);
        assert Link(runs, k);
      }
    }
  }

  /** The visits of one line print exactly that line's styled text. */
  lemma LinePieces(text: string, runs: seq<StyleRun>, start: nat, end: nat)
    requires Normal(runs, |text|) && start <= end <= |text|
    ensures var pieces := if start < end then Overlaps(runs, start, end) else [];
            (forall i :: 0 <= i < |pieces| ==> pieces[i].start <= pieces[i].end <= |text|)
            && EncodePieces(text, pieces) == EncodeCells(Cells(text, runs)[start..end])
  {
    hide StyleAt, Overlaps, EncodeCells;
    if start < end {
      var k := RunContaining(runs, |text|, start);
      forall j | 0 <= j < k ensures runs[j].end <= start {
        RunsOrdered(runs, |text|, j, k);
      }
      OverlapsSkip(runs, k, start, end);
      PiecesEncode(text, runs, k, start, end);
    } else {
      assert Cells(text, runs)[start..end] == [];
      EncodeNothing();
    }
  }

  // ---------- the paragraph escape ----------

  predicate ParagraphPrefixNeedsEscape(text: string, start: nat, end: nat, firstStyle: InlineStyle, firstRunEnd: nat)
    requires start <= end <= |text| && start <= firstRunEnd
  {
    && start != end
    && firstStyle == PLAIN
    && var prefix := text[start..Min(firstRunEnd, end)];
       "- " <= prefix || NumberedPrefix(prefix).Some?
  }

  lemma CharsOfPart(text: string, runs: seq<StyleRun>, start: nat, end: nat, n: nat)
    requires start <= end <= |text| && n <= end - start
    ensures Chars(Cells(text, runs)[start..end][..n]) == text[start..start + n]
  {
    hide StyleAt;
    var part := Cells(text, runs)[start..end][..n];
    forall i | 0 <= i < n
      ensures Chars(part)[i] == text[start..start + n][i]
    {
      assert part[i] == Cells(text, runs)[start + i];
    }
  }

  lemma EscapeAgrees(text: string, runs: seq<StyleRun>, start: nat, end: nat)
    requires Normal(runs, |text|) && start <= end <= |text|
    ensures start <= ExtentAt(runs, start)
    ensures ParagraphPrefixNeedsEscape(text, start, end, StyleAt(runs, start), ExtentAt(runs, start))
            <==> NeedsEscape(Cells(text, runs)[start..end])
  {
    hide StyleAt, ExtentAt, StretchEnd, NumberedPrefix;
    var slice := Cells(text, runs)[start..end];
    if start < |text| {
      var k := RunContaining(runs, |text|, start);
      StyleWithin(runs, |text|, k, start);
      if start < end {
        StretchOfRun(text, runs, k, start, end);
        CharsOfPart(text, runs, start, end, StretchEnd(slice));
      }
    } else {
      ExtentPastEnd(runs, start);
    }
  }

  lemma {:induction false} ExtentPastEnd(runs: seq<StyleRun>, i: nat)
    ensures i <= ExtentAt(runs, i)
  {
    if runs != [] {
      ExtentPastEnd(runs[1..], i);
    }
  }

  // ---------- the printer ----------

  lemma {:induction false} JoinAppend(lines: seq<string>, x: string)
    requires lines != []
    ensures JoinLines(lines + [x]) == JoinLines(lines) + ("\n" + x)
  {
    if |lines| == 1 {
      assert (lines + [x])[1..] == [x];
    } else {
      JoinAppend(lines[1..], x);
      assert (lines + [x])[1..] == lines[1..] + [x];
    }
  }

  /** Text printed after the first `k` lines. */
  function PrintedUpTo(lines: seq<Line>, k: nat): string
    requires k <= |lines|
  {
    if k == 0 then ""
    else if k == 1 then PrintLine(lines[0])
    else PrintedUpTo(lines, k - 1) + ("\n" + PrintLine(lines[k - 1]))
  }

  lemma {:induction false} PrintedUpToAll(lines: seq<Line>, k: nat)
    requires 0 < k <= |lines|
    ensures PrintedUpTo(lines, k) == JoinLines(PrintedLines(lines[..k]))
    decreases k
  {
    hide PrintLine;
    if k == 1 {
      assert PrintedLines(lines[..1]) == [PrintLine(lines[0])];
    } else {
      PrintedUpToAll(lines, k - 1);
      JoinAppend(PrintedLines(lines[..k - 1]), PrintLine(lines[k - 1]));
      assert PrintedLines(lines[..k]) == PrintedLines(lines[..k - 1]) + [PrintLine(lines[k - 1])];
    }
  }

  lemma PrintedUpToEnd(lines: seq<Line>)
    requires lines != []
    ensures PrintedUpTo(lines, |lines|) == PrintDocument(lines)
  {
    hide PrintLine, PrintedUpTo;
    PrintedUpToAll(lines, |lines|);
    assert lines[..|lines|] == lines;
  }

  /** The slice that line `k` covers. */
  lemma LineAt(text: string, runs: seq<StyleRun>, blocks: seq<BlockKind>, k: nat)
    requires |blocks| == |LineRanges(text, 0)| && k < |blocks|
    ensures |SplitCells(Cells(text, runs))| == |blocks|
    ensures var (start, end) := LineRanges(text, 0)[k];
            && start <= end <= |text|
            && (k > 0 ==> start == LineRanges(text, 0)[k - 1].1 + 1)
            && LinesOf(Cells(text, runs), blocks)[k] == Line(blocks[k], Cells(text, runs)[start..end])
  {
    hide LineRanges, SplitCells;
    var cells := Cells(text, runs);
    assert Chars(cells) == text;
    LineSlices(cells);
    assert RangeAt(text, LineRanges(text, 0), 0, k);
  }

  lemma RangeCount(text: string, runs: seq<StyleRun>)
    ensures |LineRanges(text, 0)| == |SplitCells(Cells(text, runs))|
  {
    hide LineRanges, SplitCells;
    assert Chars(Cells(text, runs)) == text;
    LineSlices(Cells(text, runs));
  }

  lemma PrintedStep(lines: seq<Line>, k: nat)
    requires k < |lines|
    ensures PrintedUpTo(lines, k + 1)
            == if k == 0 then PrintLine(lines[0]) else PrintedUpTo(lines, k) + ("\n" + PrintLine(lines[k]))
    ensures PrintedUpTo(lines, 0) == ""
  {
  }

  /** One line of output, with the cursor; costs at most two operations beyond the runs passed. */
  method WriteLine(text: string, cursor: StyleRunCursor, kind: BlockKind, start: nat, end: nat) returns (output: string)
    requires cursor.length == |text| && cursor.ReadyAt(start) && start <= end <= |text|
    modifies cursor
    ensures cursor.ReadyAt(end)
    ensures output == PrintLine(Line(kind, Cells(text, cursor.runs)[start..end]))
    ensures cursor.index >= old(cursor.index)
    ensures cursor.operations - old(cursor.operations) <= cursor.index - old(cursor.index) + 2
  {
    hide EncodeCells, StyleAt, ExtentAt, Overlaps, NeedsEscape, ParagraphPrefixNeedsEscape, EncodePieces;
    output := Prefix(kind);
    var firstStyle, firstRunEnd := cursor.StyleExtentAt(start);
    EscapeAgrees(text, cursor.runs, start, end);
    if kind == Paragraph && ParagraphPrefixNeedsEscape(text, start, end, firstStyle, firstRunEnd) {
      output := output + "\\";
    }
    var visits := cursor.ForEachOverlap(start, end);
    LinePieces(text, cursor.runs, start, end);
    var pieces := WritePieces(text, visits);
    output := output + pieces;
  }

  lemma PiecesStep(text: string, visits: seq<StyleRun>, i: nat)
    requires i < |visits| && forall k :: 0 <= k < |visits| ==> visits[k].start <= visits[k].end <= |text|
    ensures EncodePieces(text, visits[i..]) ==
            EncodePiece(text[visits[i].start..visits[i].end], visits[i].style) + EncodePieces(text, visits[i + 1..])
  {
    hide EncodePiece;
    assert visits[i..][1..] == visits[i + 1..];
  }

  method WritePieces(text: string, visits: seq<StyleRun>) returns (output: string)
    requires forall i :: 0 <= i < |visits| ==> visits[i].start <= visits[i].end <= |text|
    ensures output == EncodePieces(text, visits)
  {
    output := "";
    for i := 0 to |visits|
      invariant output + EncodePieces(text, visits[i..]) == EncodePieces(text, visits)
    {
      hide EncodePiece, EncodePieces;
      PiecesStep(text, visits, i);
      var piece := EncodeInline(text[visits[i].start..visits[i].end], visits[i].style);
      Associates(output, piece, EncodePieces(text, visits[i + 1..]));
      output := output + piece;
    }
  }

  /** The printer: canonical Markdown, at a cost of at most the runs plus twice the lines. */
  method MarkdownWithRunOperations(text: string, runs: seq<StyleRun>, blocks: seq<BlockKind>)
    returns (output: string, operations: nat)
    requires Normal(runs, |text|) && |blocks| == |SplitCells(Cells(text, runs))|
    ensures output == PrintCells(Cells(text, runs), blocks)
    ensures operations <= |runs| + 2 * |blocks|
  {
    hide LineRanges, SplitCells, PrintLine, StyleAt, Normal, Link, PrintedUpTo, PrintDocument;
    output := "";
    var cursor := new StyleRunCursor(runs, |text|);
    var ranges := ScanLineRanges(text);
    ghost var lines := LinesOf(Cells(text, runs), blocks);
    RangeCount(text, runs);
    PrintedStep(lines, 0);
    for k := 0 to |ranges|
      invariant fresh(cursor) && cursor.runs == runs && cursor.length == |text|
      invariant cursor.ReadyAt(if k == 0 then 0 else ranges[k - 1].1)
      invariant output == PrintedUpTo(lines, k)
      invariant cursor.operations <= cursor.index + 2 * k
    {
      LineAt(text, runs, blocks, k);
      PrintedStep(lines, k);
      var (start, end) := ranges[k];
      var before := if k > 0 then "\n" else "";
      var line := WriteLine(text, cursor, blocks[k], start, end);
      Associates(output, before, line);
      output := output + before + line;
    }
    PrintedUpToEnd(lines);
    operations := cursor.operations;
  }

  // ---------- the size check ----------

  /** Largest machine word on the supported targets. */
  const USIZE_MAX: nat := 0xFFFF_FFFF_FFFF_FFFF

  function CheckedAdd(a: nat, b: nat): Option<nat> {
    if a + b <= USIZE_MAX then Some(a + b) else None
  }

  /** The running total, or nothing once it would pass the limit or the machine word. */
  function AddWithLimit(total: nat, additional: nat, limit: nat): Option<nat> {
    match CheckedAdd(total, additional)
    case None => None
    case Some(updated) => if updated > limit then None else Some(updated)
  }

  function CountSpecials(s: string): nat {
    if s == "" then 0 else (if IsSpecial(s[0]) then 1 else 0) + CountSpecials(s[1..])
  }

  lemma {:induction false} EscapedBytes(s: string)
    ensures Bytes(Escape(s)) == Bytes(s) + CountSpecials(s)
  {
    if s != "" {
      EscapedBytes(s[1..]);
      var head := if IsSpecial(s[0]) then ['\\', s[0]] else [s[0]];
      BytesConcat(head, Escape(s[1..]));
      assert ['\\', s[0]][1..] == [s[0]] && [s[0]][1..] == "";
    }
  }

  lemma {:induction false} RepeatBytes(c: char, n: nat)
    requires Width8(c) == 1
    ensures Bytes(Repeat(c, n)) == n
  {
    if n > 0 {
      RepeatBytes(c, n - 1);
      assert Repeat(c, n)[1..] == Repeat(c, n - 1);
    }
  }

  lemma PieceBytes(source: string, style: InlineStyle)
    ensures Bytes(EncodePiece(source, style)) ==
            if source == "" then 0
            else if style.code then Bytes(source) + 2 * (LongestRun(source) + 1)
            else Bytes(source) + CountSpecials(source) + 2 * StarCount(style)
  {
    hide LongestRun, Escape, CountSpecials;
    if source != "" {
      var marker := if style.code then Repeat('`', LongestRun(source) + 1) else Repeat('*', StarCount(style));
      var body := if style.code then source else Escape(source);
      EscapedBytes(source);
      RepeatBytes(if style.code then '`' else '*', |marker|);
      BytesConcat(marker + body, marker);
      BytesConcat(marker, body);
    }
  }

  /** The length of an encoded piece, computed without encoding it; nothing on overflow only. */
  method EncodedInlineLen(source: string, style: InlineStyle) returns (r: Option<nat>)
    ensures var n := Bytes(EncodePiece(source, style)); r == if n <= USIZE_MAX then Some(n) else None
  {
    hide EncodePiece, LongestRun, CountSpecials;
    PieceBytes(source, style);
    if source == "" {
      return Some(0);
    }
    if style.code {
      var longest := LongestBacktickRun(source);
      var fence := CheckedAdd(longest, 1);
      if fence.None? || 2 * fence.value > USIZE_MAX {
        return None;
      }
      return CheckedAdd(Bytes(source), 2 * fence.value);
    }
    var markerLen := if style.bold && style.italic then 3 else if style.bold then 2 else if style.italic then 1 else 0;
    var sum := CheckedAdd(Bytes(source), CountSpecials(source));
    if sum.None? {
      return None;
    }
    return CheckedAdd(sum.value, markerLen * 2);
  }

  function PrefixLen(kind: BlockKind): nat {
    match kind
    case Paragraph => 0
    case Heading1 => 2
    case Heading2 => 3
    case Heading3 => 4
    case Bulleted => 2
    case Numbered => 3
    case Quote => 2
  }

  lemma PrefixBytes(kind: BlockKind)
    ensures Bytes(Prefix(kind)) == PrefixLen(kind)
  {
    match kind
    case Paragraph =>
    case Heading1 => assert "# "[1..] == " ";
    case Heading2 => assert "## "[1..] == "# "; assert "# "[1..] == " ";
    case Heading3 => assert "### "[1..] == "## "; assert "## "[1..] == "# "; assert "# "[1..] == " ";
    case Bulleted => assert "- "[1..] == " ";
    case Numbered => assert "1. "[1..] == ". "; assert ". "[1..] == " ";
    case Quote => assert "> "[1..] == " ";
  }

  lemma LineBytes(line: Line)
    ensures Bytes(PrintLine(line)) ==
            PrefixLen(line.kind)
            + (if line.kind == Paragraph && NeedsEscape(line.cells) then 1 else 0)
            + Bytes(EncodeCells(line.cells))
  {
    hide EncodeCells, NeedsEscape;
    var mark := if line.kind == Paragraph && NeedsEscape(line.cells) then "\\" else "";
    PrefixBytes(line.kind);
    BytesConcat(Prefix(line.kind) + mark, EncodeCells(line.cells));
    BytesConcat(Prefix(line.kind), mark);
    assert "\\"[1..] == "";
  }

  /** Bytes printed for the first `k` lines. */
  function BytesUpTo(lines: seq<Line>, k: nat): nat
    requires k <= |lines|
  {
    if k == 0 then 0 else BytesUpTo(lines, k - 1) + (if k > 1 then 1 else 0) + Bytes(PrintLine(lines[k - 1]))
  }

  lemma {:induction false} BytesUpToPrinted(lines: seq<Line>, k: nat)
    requires k <= |lines|
    ensures BytesUpTo(lines, k) == Bytes(PrintedUpTo(lines, k))
  {
    hide PrintLine;
    if k > 0 {
      BytesUpToPrinted(lines, k - 1);
      if k > 1 {
        BytesConcat(PrintedUpTo(lines, k - 1), "\n" + PrintLine(lines[k - 1]));
        BytesConcat("\n", PrintLine(lines[k - 1]));
        assert "\n"[1..] == "";
      }
    }
  }

  lemma {:induction false} BytesUpToGrows(lines: seq<Line>, j: nat, k: nat)
    requires j <= k <= |lines|
    ensures BytesUpTo(lines, j) <= BytesUpTo(lines, k)
    decreases k
  {
    hide PrintLine, Bytes;
    if j < k {
      BytesUpToGrows(lines, j, k - 1);
    }
  }

  lemma BytesUpToEnd(lines: seq<Line>)
    requires lines != []
    ensures BytesUpTo(lines, |lines|) == Bytes(PrintDocument(lines))
  {
    BytesUpToPrinted(lines, |lines|);
    PrintedUpToEnd(lines);
  }

  /** Adds up the pieces of a line while they fit. */
  method AddPieces(text: string, visits: seq<StyleRun>, total0: nat, limit: nat) returns (fits: bool, total: nat)
    requires forall i :: 0 <= i < |visits| ==> visits[i].start <= visits[i].end <= |text|
    requires total0 <= limit <= USIZE_MAX
    ensures fits <==> total0 + Bytes(EncodePieces(text, visits)) <= limit
    ensures fits ==> total == total0 + Bytes(EncodePieces(text, visits))
  {
    fits, total := true, total0;
    for i := 0 to |visits|
      invariant fits ==>
        total <= limit && total + Bytes(EncodePieces(text, visits[i..])) == total0 + Bytes(EncodePieces(text, visits))
      invariant !fits ==> total0 + Bytes(EncodePieces(text, visits)) > limit
    {
      hide EncodePiece, EncodePieces, Bytes;
      var source := text[visits[i].start..visits[i].end];
      PiecesStep(text, visits, i);
      BytesConcat(EncodePiece(source, visits[i].style), EncodePieces(text, visits[i + 1..]));
      if fits {
        var length := EncodedInlineLen(source, visits[i].style);
        var updated := if length.Some? then AddWithLimit(total, length.value, limit) else None;
        if updated.Some? {
          total := updated.value;
        } else {
          fits := false;
        }
      }
    }
  }

  lemma BytesLineStep(lines: seq<Line>, k: nat)
    requires k < |lines|
    ensures BytesUpTo(lines, k + 1) == BytesUpTo(lines, k) + (if k > 0 then 1 else 0) + Bytes(PrintLine(lines[k]))
    ensures BytesUpTo(lines, 0) == 0 && BytesUpTo(lines, k + 1) <= BytesUpTo(lines, |lines|)
  {
    BytesUpToGrows(lines, k + 1, |lines|);
  }

  /** One line of the size check. */
  method AddLine(text: string, cursor: StyleRunCursor, kind: BlockKind, start: nat, end: nat, total0: nat, limit: nat)
    returns (fits: bool, total: nat)
    requires cursor.length == |text| && cursor.ReadyAt(start) && start <= end <= |text|
    requires total0 <= limit <= USIZE_MAX
    modifies cursor
    ensures var size := Bytes(PrintLine(Line(kind, Cells(text, cursor.runs)[start..end])));
            && (fits <==> total0 + size <= limit)
            && (fits ==> total == total0 + size)
    ensures fits ==> cursor.ReadyAt(end)
    ensures old(cursor.index) <= cursor.index <= |cursor.runs|
    ensures cursor.operations - old(cursor.operations) <= cursor.index - old(cursor.index) + 2
  {
    hide EncodeCells, StyleAt, ExtentAt, Overlaps, NeedsEscape, ParagraphPrefixNeedsEscape, EncodePieces, PrintLine;
    LineBytes(Line(kind, Cells(text, cursor.runs)[start..end]));
    LinePieces(text, cursor.runs, start, end);
    var added := AddWithLimit(total0, PrefixLen(kind), limit);
    if added.None? {
      return false, total0;
    }
    total := added.value;
    var firstStyle, firstRunEnd := cursor.StyleExtentAt(start);
    EscapeAgrees(text, cursor.runs, start, end);
    if kind == Paragraph && ParagraphPrefixNeedsEscape(text, start, end, firstStyle, firstRunEnd) {
      var escaped := AddWithLimit(total, 1, limit);
      if escaped.None? {
        return false, total;
      }
      total := escaped.value;
    }
    var visits := cursor.ForEachOverlap(start, end);
    fits, total := AddPieces(text, visits, total, limit);
  }

  /** The size check accepts exactly when the printed Markdown fits the limit. */
  method MarkdownFitsWithLimit(text: string, runs: seq<StyleRun>, blocks: seq<BlockKind>, limit: nat)
    returns (fits: bool, operations: nat)
    requires Normal(runs, |text|) && limit <= USIZE_MAX
    ensures fits <==>
      |blocks| == |SplitCells(Cells(text, runs))| && Bytes(PrintCells(Cells(text, runs), blocks)) <= limit
    ensures operations <= |runs| + 2 * |blocks|
  {
    hide LineRanges, SplitCells, PrintLine, StyleAt, Normal, Link, BytesUpTo, PrintDocument, Bytes;
    var ranges := ScanLineRanges(text);
    RangeCount(text, runs);
    if |ranges| != |blocks| {
      return false, 0;
    }
    var total: nat := 0;
    var cursor := new StyleRunCursor(runs, |text|);
    ghost var lines := LinesOf(Cells(text, runs), blocks);
    BytesUpToEnd(lines);
    BytesLineStep(lines, 0);
    for k := 0 to |ranges|
      invariant fresh(cursor) && cursor.runs == runs && cursor.length == |text|
      invariant cursor.ReadyAt(if k == 0 then 0 else ranges[k - 1].1)
      invariant total == BytesUpTo(lines, k) <= limit
      invariant cursor.operations <= cursor.index + 2 * k
    {
      LineAt(text, runs, blocks, k);
      BytesLineStep(lines, k);
      var (start, end) := ranges[k];
      if k > 0 {
        var added := AddWithLimit(total, 1, limit);
        if added.None? {
          CursorInBounds(cursor, ranges[k - 1].1);
          return false, cursor.operations;
        }
        total := added.value;
      }
      var lineFits, updated := AddLine(text, cursor, blocks[k], start, end, total, limit);
      if !lineFits {
        return false, cursor.operations;
      }
      total := updated;
    }
    return true, cursor.operations;
  }

  lemma CursorInBounds(cursor: StyleRunCursor, at: nat)
    requires cursor.ReadyAt(at)
    ensures cursor.index <= |cursor.runs|
  {
  }
}
