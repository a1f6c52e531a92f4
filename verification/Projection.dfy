// The display projection: model text with generated list markers, the span table, and the
// offset maps between model and display (crates/key-editor-gpui/src/projection.rs).
module Projection {
  import opened Collections
  import opened Options
  import opened Styles
  import opened StyleRuns
  import opened Layout
  import opened EditorModel
  import MarkdownWriter

  datatype ProjectedLine = ProjectedLine(modelStart: nat, modelEnd: nat, contentStart: nat, displayEnd: nat)

  /** A stretch of display text; generated text has no model range. */
  datatype ProjectedSpan = ProjectedSpan(start: nat, end: nat, model: Option<Span>, style: InlineStyle)

  // ---------- generated prefixes ----------

  function Decimal(n: nat): (s: string)
    ensures s != ""
  {
    var digit := ['0', '1', '2', '3', '4', '5', '6', '7', '8', '9'][n % 10];
    if n < 10 then [digit] else Decimal(n / 10) + [digit]
  }

  /** How many numbered lines in a row end at line `k`. */
  function NumberAt(blocks: seq<BlockKind>, k: nat): nat
    requires k < |blocks|
  {
    if blocks[k] != Numbered then 0 else 1 + if k > 0 then NumberAt(blocks, k - 1) else 0
  }

  function DisplayPrefix(kind: BlockKind, number: nat): string {
    match kind
    case Bulleted => "• "
    case Numbered => Decimal(number) + ". "
    case Quote => "› "
    case _ => ""
  }

  function ValueOf(digits: string): int {
    if digits == "" then 0 else 10 * ValueOf(digits[..|digits| - 1]) + (digits[|digits| - 1] as int - '0' as int)
  }

  /** Decimal digits without a leading zero that spell the number. */
  lemma {:induction false} DecimalSpells(n: nat)
    ensures ValueOf(Decimal(n)) == n && forall i :: 0 <= i < |Decimal(n)| ==> '0' <= Decimal(n)[i] <= '9'
    ensures n > 0 ==> Decimal(n)[0] != '0'
  {
    var s := Decimal(n);
    if n >= 10 {
      DecimalSpells(n / 10);
      assert s[..|s| - 1] == Decimal(n / 10);
    } else {
      assert s[..0] == "" && ValueOf("") == 0;
    }
  }

  /** A numbered line shows its position among the numbered lines in a row, other lists and quotes their mark, and
      every other line nothing. */
  lemma MarkerShows(blocks: seq<BlockKind>, k: nat)
    requires k < |blocks|
    ensures var marker := DisplayPrefix(blocks[k], NumberAt(blocks, k));
      match blocks[k]
      case Numbered =>
        var n := NumberAt(blocks, k);
        && 0 < n <= k + 1 && (forall i :: k - n < i <= k ==> blocks[i] == Numbered)
        && (n <= k ==> blocks[k - n] != Numbered)
        && |marker| > 2 && marker[|marker| - 2..] == ". " && ValueOf(marker[..|marker| - 2]) == n
      case Bulleted => marker == "• "
      case Quote => marker == "› "
      case _ => marker == ""
  {
    if blocks[k] == Numbered {
      var n := NumberAt(blocks, k);
      NumberCounts(blocks, k);
      DecimalSpells(n);
      var marker := DisplayPrefix(blocks[k], n);
      assert marker == Decimal(n) + ". " && marker[..|marker| - 2] == Decimal(n);
    }
  }

  lemma {:induction false} NumberCounts(blocks: seq<BlockKind>, k: nat)
    requires k < |blocks|
    ensures var n := NumberAt(blocks, k);
      && n <= k + 1 && (forall i :: k - n < i <= k ==> blocks[i] == Numbered) && (n <= k ==> blocks[k - n] != Numbered)
  {
    if blocks[k] == Numbered && k > 0 {
      NumberCounts(blocks, k - 1);
    }
  }

  // ---------- spans ----------

  /** The spans tile `0..n` in order; their model ranges tile `0..m` in the same order. */
  ghost predicate Tracks(spans: seq<ProjectedSpan>, n: nat, m: nat) {
    if spans == [] then n == 0 && m == 0
    else
      var last := spans[|spans| - 1];
      && last.start < last.end == n
      && (match last.model
          case None => last.style == PLAIN && Tracks(spans[..|spans| - 1], last.start, m)
          case Some(model) =>
            && model.end == m
            && model.start <= model.end
            && model.end - model.start == last.end - last.start
            && Tracks(spans[..|spans| - 1], last.start, model.start))
  }

  /** Display text without the generated spans, with the styles the spans carry. */
  ghost function Strip(display: string, spans: seq<ProjectedSpan>, n: nat, m: nat): seq<Cell>
    requires Tracks(spans, n, m) && n <= |display|
  {
    if spans == [] then []
    else
      var last := spans[|spans| - 1];
      var before := spans[..|spans| - 1];
      match last.model
      case None => Strip(display, before, last.start, m)
      case Some(model) =>
        Strip(display, before, last.start, model.start) + Styled(display[last.start..last.end], last.style)
  }

  lemma {:induction false} StripExtend(display: string, more: string, spans: seq<ProjectedSpan>, n: nat, m: nat)
    requires Tracks(spans, n, m) && n <= |display|
    ensures Strip(display + more, spans, n, m) == Strip(display, spans, n, m)
    decreases |spans|
  {
    if spans != [] {
      var last := spans[|spans| - 1];
      var before := spans[..|spans| - 1];
      assert (display + more)[last.start..last.end] == display[last.start..last.end];
      match last.model
      case None => StripExtend(display, more, before, last.start, m);
      case Some(model) => StripExtend(display, more, before, last.start, model.start);
    }
  }

  /** Pushing a model span extends both texts by the same piece. */
  lemma PushModelSpan(display: string, piece: string, spans: seq<ProjectedSpan>, m: nat, style: InlineStyle)
    requires Tracks(spans, |display|, m) && piece != ""
    ensures var span := ProjectedSpan(|display|, |display| + |piece|, Some(Span(m, m + |piece|)), style);
            Tracks(spans + [span], |display| + |piece|, m + |piece|)
            && Strip(display + piece, spans + [span], |display| + |piece|, m + |piece|)
               == Strip(display, spans, |display|, m) + Styled(piece, style)
  {
    var span := ProjectedSpan(|display|, |display| + |piece|, Some(Span(m, m + |piece|)), style);
    assert (spans + [span])[..|spans|] == spans;
    assert (display + piece)[|display|..|display| + |piece|] == piece;
    StripExtend(display, piece, spans, |display|, m);
  }

  /** Pushing a generated span leaves the stripped text alone. */
  lemma PushGeneratedSpan(display: string, piece: string, spans: seq<ProjectedSpan>, m: nat)
    requires Tracks(spans, |display|, m) && piece != ""
    ensures var span := ProjectedSpan(|display|, |display| + |piece|, None, PLAIN);
            Tracks(spans + [span], |display| + |piece|, m)
            && Strip(display + piece, spans + [span], |display| + |piece|, m) == Strip(display, spans, |display|, m)
  {
    var span := ProjectedSpan(|display|, |display| + |piece|, None, PLAIN);
    assert (spans + [span])[..|spans|] == spans;
    StripExtend(display, piece, spans, |display|, m);
  }

  // ---------- line table ----------

  /** Lines continue each other in the model, and never run backwards in the display. */
  ghost predicate Chain(lines: seq<ProjectedLine>, modelFrom: nat, displayFrom: nat) {
    lines == [] ||
    (var line := lines[0];
     && line.modelStart == modelFrom && line.modelStart <= line.modelEnd
     && displayFrom <= line.contentStart
     && line.displayEnd - line.contentStart == line.modelEnd - line.modelStart
     && Chain(lines[1..], line.modelEnd + 1, line.displayEnd + 1))
  }

  function LastModelEnd(lines: seq<ProjectedLine>): nat {
    if lines == [] then 0 else lines[|lines| - 1].modelEnd
  }

  function LastDisplayEnd(lines: seq<ProjectedLine>): nat {
    if lines == [] then 0 else lines[|lines| - 1].displayEnd
  }

  lemma {:induction false} ChainAppend(lines: seq<ProjectedLine>, line: ProjectedLine, modelFrom: nat, displayFrom: nat)
    requires Chain(lines, modelFrom, displayFrom)
    requires line.modelStart == (if lines == [] then modelFrom else LastModelEnd(lines) + 1)
    requires line.contentStart >= (if lines == [] then displayFrom else LastDisplayEnd(lines) + 1)
    requires line.modelStart <= line.modelEnd && line.displayEnd - line.contentStart == line.modelEnd - line.modelStart
    ensures Chain(lines + [line], modelFrom, displayFrom)
  {
    if lines == [] {
      assert [line][1..] == [];
    } else {
      ChainAppend(lines[1..], line, lines[0].modelEnd + 1, lines[0].displayEnd + 1);
      assert (lines + [line])[1..] == lines[1..] + [line];
    }
  }

  // ---------- building ----------

  /** What a projection of a buffer must be. */
  ghost predicate Projects(text: string, runs: seq<StyleRun>, display: string, lines: seq<ProjectedLine>,
      spans: seq<ProjectedSpan>, m: nat) {
    && Chain(lines, 0, 0)
    && LastModelEnd(lines) == m && LastDisplayEnd(lines) == |display|
    && StripsTo(text, runs, display, spans, m)
  }

  /** One visited piece pushed onto the spans of the pieces before it. */
  lemma PushTile(text: string, runs: seq<StyleRun>, display0: string, spans: seq<ProjectedSpan>, visits: seq<StyleRun>,
                 modelStart: nat, modelEnd: nat, i: nat)
    requires i < |visits| && Tile(text, runs, visits, modelStart, i) && modelStart <= PieceStart(visits, i, modelStart)
    requires visits[i].end <= modelEnd <= |text|
    requires var at := PieceStart(visits, i, modelStart);
             at <= modelEnd && StripsTo(text, runs, display0 + text[modelStart..at], spans, at)
    ensures modelStart <= visits[i].start < visits[i].end && PieceStart(visits, i + 1, modelStart) == visits[i].end
    ensures var span := ProjectedSpan(|display0| + (visits[i].start - modelStart),
      |display0| + (visits[i].end - modelStart),
                                      Some(Span(visits[i].start, visits[i].end)), visits[i].style);
            StripsTo(text, runs, display0 + text[modelStart..visits[i].end], spans + [span], visits[i].end)
  {
    hide StyleAt, Tile, StripsTo, PieceStart;
    TileFacts(text, runs, visits, modelStart, i);
    PushPiece(text, runs, display0, spans, modelStart, visits[i]);
  }

  lemma NoPieces(visits: seq<StyleRun>, from: nat)
    ensures PieceStart(visits, 0, from) == from
  {
  }

  lemma TileFacts(text: string, runs: seq<StyleRun>, visits: seq<StyleRun>, from: nat, i: nat)
    requires i < |visits| && Tile(text, runs, visits, from, i)
    ensures visits[i].start == PieceStart(visits, i, from) < visits[i].end <= |text|
    ensures forall j :: visits[i].start <= j < visits[i].end ==> StyleAt(runs, j) == visits[i].style
    ensures PieceStart(visits, i + 1, from) == visits[i].end
  {
    hide StyleAt;
  }

  method PushPieces(display0: string, spans0: seq<ProjectedSpan>, text: string, runs: seq<StyleRun>,
      visits: seq<StyleRun>,
                    modelStart: nat, modelEnd: nat)
    returns (display: string, spans: seq<ProjectedSpan>)
    requires Normal(runs, |text|) && modelStart <= modelEnd <= |text|
    requires visits == if modelStart < modelEnd then Overlaps(runs, modelStart, modelEnd) else []
    requires StripsTo(text, runs, display0, spans0, modelStart)
    ensures display == display0 + text[modelStart..modelEnd] && StripsTo(text, runs, display, spans, modelEnd)
  {
    hide StyleAt, Overlaps, Normal, StripsTo, Tile, PieceStart;
    PiecesTile(text, runs, modelStart, modelEnd);
    NoPieces(visits, modelStart);
    ghost var at := modelStart;
    spans := spans0;
    display := display0 + text[modelStart..modelEnd];
    assert display0 + text[modelStart..modelStart] == display0;
    for i := 0 to |visits|
      invariant at == PieceStart(visits, i, modelStart) && modelStart <= at <= modelEnd
      invariant StripsTo(text, runs, display0 + text[modelStart..at], spans, at)
    {
      var visit := visits[i];
      PushTile(text, runs, display0, spans, visits, modelStart, modelEnd, i);
      var start: nat := |display0| + (visit.start - modelStart);
      spans := spans + [ProjectedSpan(start, |display0| + (visit.end - modelStart),
          Some(Span(visit.start, visit.end)), visit.style)];
      at := visit.end;
    }
  }

  /** The display so far strips to the first `m` characters of the model, with their styles. */
  ghost predicate StripsTo(text: string, runs: seq<StyleRun>, display: string, spans: seq<ProjectedSpan>, m: nat) {
    && m <= |text|
    && Tracks(spans, |display|, m)
    && Strip(display, spans, |display|, m) == Cells(text, runs)[..m]
  }

  lemma PushPiece(text: string, runs: seq<StyleRun>, display0: string, spans: seq<ProjectedSpan>, modelStart: nat,
      visit: StyleRun)
    requires modelStart <= visit.start < visit.end <= |text|
    requires forall j :: visit.start <= j < visit.end ==> StyleAt(runs, j) == visit.style
    requires StripsTo(text, runs, display0 + text[modelStart..visit.start], spans, visit.start)
    ensures var span := ProjectedSpan(|display0| + (visit.start - modelStart), |display0| + (visit.end - modelStart),
                                      Some(Span(visit.start, visit.end)), visit.style);
            StripsTo(text, runs, display0 + text[modelStart..visit.end], spans + [span], visit.end)
  {
    hide StyleAt, Tracks, Strip;
    var shown := display0 + text[modelStart..visit.start];
    var piece := text[visit.start..visit.end];
    PushModelSpan(shown, piece, spans, visit.start, visit.style);
    assert shown + piece == display0 + text[modelStart..visit.end];
    assert Cells(text, runs)[..visit.end] == Cells(text, runs)[..visit.start] + Styled(piece, visit.style);
  }

  function PieceStart(visits: seq<StyleRun>, i: nat, from: nat): nat
    requires i <= |visits|
  {
    if i == 0 then from else visits[i - 1].end
  }

  /** Visit `i` continues the previous one and carries the style of all its characters. */
  ghost predicate Tile(text: string, runs: seq<StyleRun>, visits: seq<StyleRun>, from: nat, i: nat)
    requires i < |visits|
  {
    && visits[i].start == PieceStart(visits, i, from) < visits[i].end <= |text|
    && forall j :: visits[i].start <= j < visits[i].end ==> StyleAt(runs, j) == visits[i].style
  }

  /** The pieces that the cursor visits are exactly the ordered partition of the range. */
  lemma PiecesTile(text: string, runs: seq<StyleRun>, start: nat, end: nat)
    requires Normal(runs, |text|) && start <= end <= |text|
    ensures var visits := if start < end then Overlaps(runs, start, end) else [];
            (forall i :: 0 <= i < |visits| ==> Tile(text, runs, visits, start, i) && visits[i].end <= end)
            && PieceStart(visits, |visits|, start) == end
  {
    hide StyleAt, Overlaps;
    if start < end {
      var k := RunContaining(runs, |text|, start);
      forall j | 0 <= j < k ensures runs[j].end <= start {
        RunsOrdered(runs, |text|, j, k);
      }
      OverlapsSkip(runs, k, start, end);
      PiecesTileFrom(text, runs, k, start, end);
    }
  }

  lemma {:induction false} PiecesTileFrom(text: string, runs: seq<StyleRun>, k: nat, start: nat, end: nat)
    requires Normal(runs, |text|) && k < |runs| && runs[k].start <= start < runs[k].end && start < end <= |text|
    ensures var visits := Overlaps(runs[k..], start, end);
            (forall i :: 0 <= i < |visits| ==> Tile(text, runs, visits, start, i) && visits[i].end <= end)
            && visits != [] && visits[|visits| - 1].end == end
    decreases |runs| - k
  {
    hide StyleAt, Overlaps, Tile;
    var stop := Min(runs[k].end, end);
    OverlapsAt(runs, k, start, end);
    var first := StyleRun(start, stop, runs[k].style);
    forall j | start <= j < stop ensures StyleAt(runs, j) == runs[k].style {
      StyleWithin(runs, |text|, k, j);
    }
    if stop < end {
      assert k + 1 < |runs| by {
        assert Link(runs, k);
      }
      assert Link(runs, k + 1);
      MarkdownWriter.RunsFrom(runs, |text|, k + 1);
      MarkdownWriter.OverlapsTail(runs[k + 1..], start, stop, end);
      PiecesTileFrom(text, runs, k + 1, stop, end);
      TileCons(text, runs, first, Overlaps(runs[k + 1..], stop, end), start, stop, end);
    } else {
      assert k + 1 < |runs| ==> Link(runs, k + 1);
      RestBeyond(runs, |text|, k + 1, start, end);
      assert Overlaps(runs[k..], start, end) == [first];
      SingleTile(text, runs, first);
    }
  }

  lemma SingleTile(text: string, runs: seq<StyleRun>, only: StyleRun)
    requires only.start < only.end <= |text| && forall j :: only.start <= j < only.end ==>
      StyleAt(runs, j) == only.style
    ensures Tile(text, runs, [only], only.start, 0)
  {
    hide StyleAt;
  }

  lemma TileCons(text: string, runs: seq<StyleRun>, first: StyleRun, rest: seq<StyleRun>, start: nat, stop: nat,
      end: nat)
    requires first.start == start < first.end == stop <= |text|
    requires forall j :: start <= j < stop ==> StyleAt(runs, j) == first.style
    requires stop <= end && forall i :: 0 <= i < |rest| ==> Tile(text, runs, rest, stop, i) && rest[i].end <= end
    ensures forall i :: 0 <= i < |rest| + 1 ==>
      Tile(text, runs, [first] + rest, start, i) && ([first] + rest)[i].end <= end
  {
    hide StyleAt;
    forall i | 0 <= i < |rest| + 1
      ensures Tile(text, runs, [first] + rest, start, i) && ([first] + rest)[i].end <= end
    {
      if i > 0 {
        assert Tile(text, runs, rest, stop, i - 1);
      }
    }
  }

  /** One projected line: newline, generated prefix, content. */
  method ProjectLine(display0: string, lines0: seq<ProjectedLine>, spans0: seq<ProjectedSpan>, text: string,
      cursor: StyleRunCursor,
                     prefix: string, modelStart: nat, modelEnd: nat)
    returns (display: string, lines: seq<ProjectedLine>, spans: seq<ProjectedSpan>)
    requires cursor.length == |text| && modelStart <= modelEnd <= |text|
    requires modelStart == (if lines0 == [] then 0 else LastModelEnd(lines0) + 1)
    requires lines0 != [] ==> text[modelStart - 1] == '\n'
    requires cursor.ReadyAt(LastModelEnd(lines0))
    requires Projects(text, cursor.runs, display0, lines0, spans0, LastModelEnd(lines0))
    modifies cursor
    ensures Projects(text, cursor.runs, display, lines, spans, modelEnd)
    ensures |lines| == |lines0| + 1 && lines[..|lines0|] == lines0
    ensures display == display0 + (if lines0 == [] then "" else "\n") + prefix + text[modelStart..modelEnd]
    ensures cursor.ReadyAt(modelEnd) && cursor.index >= old(cursor.index)
    ensures cursor.operations - old(cursor.operations) <= cursor.index - old(cursor.index) + 2
  {
    hide StyleAt, Overlaps, Tracks, Strip, Normal, Chain;
    display, spans := display0, spans0;
    if lines0 != [] {
      var newlineOffset := modelStart - 1;
      var style, extent := cursor.StyleExtentAt(newlineOffset);
      PushModelSpan(display, "\n", spans, newlineOffset, style);
      spans := spans + [ProjectedSpan(|display|, |display| + 1, Some(Span(newlineOffset, modelStart)), style)];
      display := display + "\n";
      assert Cells(text, cursor.runs)[..modelStart] == Cells(text, cursor.runs)[..newlineOffset] + Styled("\n", style);
    }
    assert StripsTo(text, cursor.runs, display, spans, modelStart);
    if prefix != "" {
      PushGeneratedSpan(display, prefix, spans, modelStart);
      spans := spans + [ProjectedSpan(|display|, |display| + |prefix|, None, PLAIN)];
    } else {
      assert display + prefix == display;
    }
    display := display + prefix;
    var contentStart := |display|;
    var visits := cursor.ForEachOverlap(modelStart, modelEnd);
    display, spans := PushPieces(display, spans, text, cursor.runs, visits, modelStart, modelEnd);
    var line := ProjectedLine(modelStart, modelEnd, contentStart, |display|);
    ChainAppend(lines0, line, 0, 0);
    lines := lines0 + [line];
  }

  /** Builds the projection; costs at most the runs plus twice the lines. */
  method NewWithRunOperations(text: string, runs: seq<StyleRun>, blocks: seq<BlockKind>)
    returns (display: string, lines: seq<ProjectedLine>, spans: seq<ProjectedSpan>, operations: nat)
    requires Normal(runs, |text|) && |blocks| == |LineRanges(text, 0)|
    ensures Projects(text, runs, display, lines, spans, |text|)
    ensures |lines| == |blocks| && display == DisplayText(text, blocks, |blocks|)
    ensures operations <= |runs| + 2 * |blocks|
  {
    hide StyleAt, Normal, Projects, LineRanges, SplitCells, DisplayText;
    var ranges := ScanLineRanges(text);
    var cursor := new StyleRunCursor(runs, |text|);
    display, lines, spans := "", [], [];
    var numberedIndex: nat := 0;
    EmptyProjection(text, runs, blocks);
    for k := 0 to |ranges|
      invariant fresh(cursor) && cursor.runs == runs && cursor.length == |text| && |lines| == k
      invariant Projects(text, runs, display, lines, spans, LastModelEnd(lines)) && cursor.ReadyAt(LastModelEnd(lines))
      invariant LastModelEnd(lines) == (if k == 0 then 0 else ranges[k - 1].1)
      invariant display == DisplayText(text, blocks, k)
      invariant numberedIndex == (if k == 0 then 0 else NumberAt(blocks, k - 1))
      invariant cursor.operations <= cursor.index + 2 * k
    {
      RangeFacts(text, k);
      DisplayStep(text, blocks, k);
      var (modelStart, modelEnd) := ranges[k];
      numberedIndex := if blocks[k] == Numbered then numberedIndex + 1 else 0;
      var prefix := DisplayPrefix(blocks[k], numberedIndex);
      ghost var before := display;
      display, lines, spans := ProjectLine(display, lines, spans, text, cursor, prefix, modelStart, modelEnd);
      ProjectedEnd(text, runs, display, lines, spans, modelEnd);
      assert display == before + (if k == 0 then "" else "\n") + prefix + text[modelStart..modelEnd];
    }
    RangeFacts(text, |ranges| - 1);
    operations := cursor.operations;
    CursorBound(cursor, LastModelEnd(lines));
  }

  lemma CursorBound(cursor: StyleRunCursor, at: nat)
    requires cursor.ReadyAt(at)
    ensures cursor.index <= |cursor.runs|
  {
  }

  lemma ProjectedEnd(text: string, runs: seq<StyleRun>, display: string, lines: seq<ProjectedLine>,
      spans: seq<ProjectedSpan>, m: nat)
    requires Projects(text, runs, display, lines, spans, m)
    ensures LastModelEnd(lines) == m
  {
  }

  lemma RangeFacts(text: string, k: nat)
    requires k < |LineRanges(text, 0)|
    ensures var ranges := LineRanges(text, 0);
            && ranges[k].0 <= ranges[k].1 <= |text|
            && ranges[k].0 == (if k == 0 then 0 else ranges[k - 1].1 + 1)
            && (k == |ranges| - 1 ==> ranges[k].1 == |text|)
            && (k > 0 ==> text[ranges[k].0 - 1] == '\n')
  {
    hide LineRanges;
    RangesShape(text, 0);
    var ranges := LineRanges(text, 0);
    assert RangeAt(text, ranges, 0, k);
    if k > 0 {
      assert RangeAt(text, ranges, 0, k - 1);
    }
  }

  /** The display text by definition: every line with its marker, in order. */
  ghost function DisplayText(text: string, blocks: seq<BlockKind>, k: nat): string
    requires k <= |blocks| == |LineRanges(text, 0)|
  {
    if k == 0 then ""
    else
      RangeFacts(text, k - 1);
      var (start, end) := LineRanges(text, 0)[k - 1];
      DisplayText(text, blocks, k - 1) + (if k == 1 then "" else "\n")
      + DisplayPrefix(blocks[k - 1], NumberAt(blocks, k - 1)) + text[start..end]
  }

  lemma DisplayStep(text: string, blocks: seq<BlockKind>, k: nat)
    requires k < |blocks| == |LineRanges(text, 0)|
    ensures LineRanges(text, 0)[k].0 <= LineRanges(text, 0)[k].1 <= |text|
    ensures DisplayText(text, blocks, k + 1)
            == DisplayText(text, blocks, k) + (if k == 0 then "" else "\n")
               + DisplayPrefix(blocks[k], NumberAt(blocks, k))
                   + text[LineRanges(text, 0)[k].0..LineRanges(text, 0)[k].1]
    ensures NumberAt(blocks, k) ==
      if blocks[k] == Numbered then 1 + (if k > 0 then NumberAt(blocks, k - 1) else 0) else 0
  {
    RangeFacts(text, k);
  }

  lemma EmptyProjection(text: string, runs: seq<StyleRun>, blocks: seq<BlockKind>)
    requires |blocks| == |LineRanges(text, 0)|
    ensures Projects(text, runs, "", [], [], 0) && DisplayText(text, blocks, 0) == ""
  {
  }

  // ---------- offset maps ----------

  function DisplayIn(lines: seq<ProjectedLine>, model: nat, beyond: nat): nat {
    if lines == [] then beyond
    else if model <= lines[0].modelEnd then
      lines[0].contentStart + (if model > lines[0].modelStart then model - lines[0].modelStart else 0)
    else DisplayIn(lines[1..], model, beyond)
  }

  function DisplayForModel(lines: seq<ProjectedLine>, displayLength: nat, model: nat): nat {
    DisplayIn(lines, Min(model, LastModelEnd(lines)), displayLength)
  }

  function ModelIn(lines: seq<ProjectedLine>, display: nat, beyond: nat): nat {
    if lines == [] then beyond
    else if display <= lines[0].displayEnd then
      if display <= lines[0].contentStart then lines[0].modelStart
      else Min(lines[0].modelStart + display - lines[0].contentStart, lines[0].modelEnd)
    else ModelIn(lines[1..], display, beyond)
  }

  function ModelForDisplay(lines: seq<ProjectedLine>, displayLength: nat, display: nat): nat {
    ModelIn(lines, Min(display, displayLength), LastModelEnd(lines))
  }

  lemma {:induction false} ThereAndBack(lines: seq<ProjectedLine>, modelFrom: nat, displayFrom: nat, o: nat, a: nat,
      b: nat)
    requires lines != [] && Chain(lines, modelFrom, displayFrom) && modelFrom <= o <= LastModelEnd(lines)
    ensures displayFrom <= DisplayIn(lines, o, a) <= LastDisplayEnd(lines)
    ensures ModelIn(lines, DisplayIn(lines, o, a), b) == o
  {
    var line := lines[0];
    if o > line.modelEnd {
      ThereAndBack(lines[1..], line.modelEnd + 1, line.displayEnd + 1, o, a, b);
    }
    LastAtLeast(lines, modelFrom, displayFrom);
  }

  lemma {:induction false} LastAtLeast(lines: seq<ProjectedLine>, modelFrom: nat, displayFrom: nat)
    requires lines != [] && Chain(lines, modelFrom, displayFrom)
    ensures lines[0].displayEnd <= LastDisplayEnd(lines) && lines[0].modelEnd <= LastModelEnd(lines)
  {
    if |lines| > 1 {
      LastAtLeast(lines[1..], lines[0].modelEnd + 1, lines[0].displayEnd + 1);
    }
  }

  /** Every model offset survives the trip to the display and back. */
  lemma OffsetRoundTrip(text: string, runs: seq<StyleRun>, display: string, lines: seq<ProjectedLine>,
      spans: seq<ProjectedSpan>, o: nat)
    requires Projects(text, runs, display, lines, spans, |text|) && lines != [] && o <= |text|
    ensures DisplayForModel(lines, |display|, o) <= |display|
    ensures ModelForDisplay(lines, |display|, DisplayForModel(lines, |display|, o)) == o
  {
    hide Tracks, Strip, StyleAt;
    ThereAndBack(lines, 0, 0, o, |display|, LastModelEnd(lines));
  }

  /** Where display offset `d` goes by way of the model: past the marker in front of it, if there is one. */
  function PastMarker(lines: seq<ProjectedLine>, d: nat): nat {
    if lines == [] then d
    else if d <= lines[0].displayEnd then Max(d, lines[0].contentStart)
    else PastMarker(lines[1..], d)
  }

  /** The display offset touches a line's own text rather than a generated marker. */
  predicate InContent(lines: seq<ProjectedLine>, d: nat) {
    exists i :: 0 <= i < |lines| && lines[i].contentStart <= d <= lines[i].displayEnd
  }

  lemma {:induction false} BackAndThere(lines: seq<ProjectedLine>, modelFrom: nat, displayFrom: nat, d: nat, a: nat,
      b: nat)
    requires lines != [] && Chain(lines, modelFrom, displayFrom) && displayFrom <= d <= LastDisplayEnd(lines)
    ensures modelFrom <= ModelIn(lines, d, b) <= LastModelEnd(lines)
    ensures DisplayIn(lines, ModelIn(lines, d, b), a) == PastMarker(lines, d) <= LastDisplayEnd(lines)
    ensures PastMarker(lines, d) == d <==> InContent(lines, d)
    decreases |lines|
  {
    var line, rest := lines[0], lines[1..];
    LastAtLeast(lines, modelFrom, displayFrom);
    if d > line.displayEnd {
      BackAndThere(rest, line.modelEnd + 1, line.displayEnd + 1, d, a, b);
      ContentOfTail(lines, d);
    } else {
      LaterContent(rest, line.modelEnd + 1, line.displayEnd + 1, d);
      if line.contentStart <= d {
        assert InContent(lines, d);
      }
      ContentOfTail(lines, d);
    }
  }

  lemma ContentOfTail(lines: seq<ProjectedLine>, d: nat)
    requires lines != []
    ensures InContent(lines, d) <==> lines[0].contentStart <= d <= lines[0].displayEnd || InContent(lines[1..], d)
  {
    if InContent(lines[1..], d) {
      var i :| 0 <= i < |lines[1..]| && lines[1..][i].contentStart <= d <= lines[1..][i].displayEnd;
      assert lines[i + 1].contentStart <= d <= lines[i + 1].displayEnd;
    }
    if InContent(lines, d) {
      var i :| 0 <= i < |lines| && lines[i].contentStart <= d <= lines[i].displayEnd;
      assert i > 0 ==> lines[1..][i - 1] == lines[i];
    }
  }

  lemma {:induction false} LaterContent(lines: seq<ProjectedLine>, modelFrom: nat, displayFrom: nat, d: nat)
    requires Chain(lines, modelFrom, displayFrom) && d < displayFrom
    ensures !InContent(lines, d)
    decreases |lines|
  {
    if lines != [] {
      LaterContent(lines[1..], lines[0].modelEnd + 1, lines[0].displayEnd + 1, d);
      ContentOfTail(lines, d);
    }
  }

  /** A display offset survives the trip to the model exactly in a line's own text; a marker is skipped. */
  lemma DisplayRoundTrip(text: string, runs: seq<StyleRun>, display: string, lines: seq<ProjectedLine>,
      spans: seq<ProjectedSpan>, d: nat)
    requires Projects(text, runs, display, lines, spans, |text|) && lines != []
    ensures DisplayForModel(lines, |display|, ModelForDisplay(lines, |display|, d))
      == PastMarker(lines, Min(d, |display|))
    ensures DisplayForModel(lines, |display|, ModelForDisplay(lines, |display|, d)) == d <==> InContent(lines, d)
  {
    hide Tracks, Strip, StyleAt;
    var inside := Min(d, |display|);
    BackAndThere(lines, 0, 0, inside, |display|, LastModelEnd(lines));
    EndsWithin(lines, 0, 0, |display|);
  }

  lemma {:induction false} EndsWithin(lines: seq<ProjectedLine>, modelFrom: nat, displayFrom: nat, n: nat)
    requires Chain(lines, modelFrom, displayFrom) && (lines != [] ==> LastDisplayEnd(lines) <= n)
    ensures forall d: nat :: d > n ==> !InContent(lines, d)
    decreases |lines|
  {
    if lines != [] {
      LastAtLeast(lines, modelFrom, displayFrom);
      EndsWithin(lines[1..], lines[0].modelEnd + 1, lines[0].displayEnd + 1, n);
      forall d: nat | d > n
        ensures !InContent(lines, d)
      {
        ContentOfTail(lines, d);
      }
    }
  }

  lemma {:induction false} DisplayGrows(lines: seq<ProjectedLine>, modelFrom: nat, displayFrom: nat, a: nat, b: nat,
      beyond: nat)
    requires lines != [] && Chain(lines, modelFrom, displayFrom) && modelFrom <= a < b <= LastModelEnd(lines)
    ensures DisplayIn(lines, a, beyond) < DisplayIn(lines, b, beyond)
  {
    var line := lines[0];
    if a > line.modelEnd {
      DisplayGrows(lines[1..], line.modelEnd + 1, line.displayEnd + 1, a, b, beyond);
    } else if b > line.modelEnd {
      ThereAndBack(lines[1..], line.modelEnd + 1, line.displayEnd + 1, b, beyond, 0);
    }
  }

  lemma {:induction false} ModelGrows(lines: seq<ProjectedLine>, modelFrom: nat, displayFrom: nat, a: nat, b: nat,
      beyond: nat)
    requires Chain(lines, modelFrom, displayFrom) && a <= b && modelFrom <= beyond && LastModelEnd(lines) <= beyond
    ensures modelFrom <= ModelIn(lines, a, beyond) <= ModelIn(lines, b, beyond)
  {
    if lines != [] {
      var line := lines[0];
      LastAtLeast(lines, modelFrom, displayFrom);
      if |lines| > 1 {
        LastAtLeast(lines[1..], line.modelEnd + 1, line.displayEnd + 1);
        ModelGrows(lines[1..], line.modelEnd + 1, line.displayEnd + 1, a, b, beyond);
        ModelGrows(lines[1..], line.modelEnd + 1, line.displayEnd + 1, b, b, beyond);
      }
    }
  }

  /** Both maps are monotone: strictly from model to display on the text, weakly back. */
  lemma MapsAreMonotone(text: string, runs: seq<StyleRun>, display: string, lines: seq<ProjectedLine>,
      spans: seq<ProjectedSpan>, a: nat, b: nat)
    requires Projects(text, runs, display, lines, spans, |text|) && lines != [] && a < b
    ensures b <= |text| ==> DisplayForModel(lines, |display|, a) < DisplayForModel(lines, |display|, b)
    ensures DisplayForModel(lines, |display|, a) <= DisplayForModel(lines, |display|, b)
    ensures ModelForDisplay(lines, |display|, a) <= ModelForDisplay(lines, |display|, b)
  {
    hide Tracks, Strip, StyleAt;
    if a < |text| {
      DisplayGrows(lines, 0, 0, a, Min(b, |text|), |display|);
    }
    ModelGrows(lines, 0, 0, Min(a, |display|), Min(b, |display|), LastModelEnd(lines));
  }
}
