// Logical lines of styled text, and what printing and parsing mean for a whole text with its
// block kinds.
module Layout {
  import opened Styles
  import opened Markdown
  import opened Documents

  // ---------- line ranges ----------

  function LineRanges(text: string, from: nat): (ranges: seq<(nat, nat)>)
    requires from <= |text|
    ensures ranges != []
    decreases |text| - from
  {
    var end := from + NextBreak(text[from..]);
    if end == |text| then [(from, end)] else [(from, end)] + LineRanges(text, end + 1)
  }

  /** The program's scan computes LineRanges. */
  method ScanLineRanges(text: string) returns (result: seq<(nat, nat)>)
    ensures result == LineRanges(text, 0)
  {
    hide LineRanges;
    result := [];
    var start := 0;
    for index := 0 to |text|
      invariant start <= index && '\n' !in text[start..index]
      invariant result + LineRanges(text, start) == LineRanges(text, 0)
    {
      if text[index] == '\n' {
        LineEndsAt(text, start, index);
        result := result + [(start, index)];
        start := index + 1;
      } else {
        assert text[start..index + 1] == text[start..index] + [text[index]];
      }
    }
    LineEndsAt(text, start, |text|);
    result := result + [(start, |text|)];
  }

  lemma LineEndsAt(text: string, start: nat, end: nat)
    requires start <= end <= |text| && '\n' !in text[start..end] && (end < |text| ==> text[end] == '\n')
    ensures LineRanges(text, start) == [(start, end)] + if end < |text| then LineRanges(text, end + 1) else []
  {
    hide NextBreak;
    var rest := text[start..];
    assert rest[..end - start] == text[start..end];
    assert end < |text| ==> rest[end - start] == text[end];
    NextBreakIs(rest, end - start);
  }

  /** Shape of the ranges: in bounds, newline-free, one newline apart, covering the text. */
  ghost predicate RangeAt(text: string, ranges: seq<(nat, nat)>, from: nat, k: nat)
    requires k < |ranges|
  {
    var (start, end) := ranges[k];
    && from <= start <= end <= |text|
    && '\n' !in text[start..end]
    && start == (if k == 0 then from else ranges[k - 1].1 + 1)
    && (if k == |ranges| - 1 then end == |text| else end < |text| && text[end] == '\n')
  }

  lemma {:induction false} RangesShape(text: string, from: nat)
    requires from <= |text|
    ensures |LineRanges(text, from)| == Breaks(text[from..]) + 1
    ensures forall k :: 0 <= k < |LineRanges(text, from)| ==> RangeAt(text, LineRanges(text, from), from, k)
    decreases |text| - from
  {
    hide NextBreak, LineRanges, Breaks;
    var end := from + NextBreak(text[from..]);
    assert text[from..][..end - from] == text[from..end];
    LineEndsAt(text, from, end);
    BreaksByLine(text, from, end);
    if end < |text| {
      RangesShape(text, end + 1);
      RangesShapeCons(text, from, end, end + 1, LineRanges(text, end + 1));
    }
  }

  lemma BreaksByLine(text: string, from: nat, end: nat)
    requires from <= end <= |text| && '\n' !in text[from..end] && (end < |text| ==> text[end] == '\n')
    ensures Breaks(text[from..]) == if end < |text| then 1 + Breaks(text[end + 1..]) else 0
  {
    NoBreaks(text[from..end]);
    if end < |text| {
      assert text[from..] == text[from..end] + text[end..];
      BreaksConcat(text[from..end], text[end..]);
      assert text[end..][1..] == text[end + 1..];
    } else {
      assert text[from..] == text[from..end];
    }
  }

  lemma RangesShapeCons(text: string, from: nat, end: nat, next: nat, rest: seq<(nat, nat)>)
    requires from <= end < |text| && '\n' !in text[from..end] && text[end] == '\n' && rest != [] && next == end + 1
    requires forall k :: 0 <= k < |rest| ==> RangeAt(text, rest, next, k)
    ensures var ranges := [(from, end)] + rest;
            forall k :: 0 <= k < |ranges| ==> RangeAt(text, ranges, from, k)
  {
    var ranges := [(from, end)] + rest;
    forall k | 0 <= k < |ranges| ensures RangeAt(text, ranges, from, k) {
      if k > 0 {
        assert RangeAt(text, rest, next, k - 1);
      }
    }
  }

  // ---------- lines of styled text ----------

  function SplitCells(cells: seq<Cell>): (lines: seq<seq<Cell>>)
    ensures lines != []
    decreases |cells|
  {
    var n := NextBreak(Chars(cells));
    if n == |cells| then [cells[..n]] else [cells[..n]] + SplitCells(cells[n + 1..])
  }

  /** One line taken off the front, as text and as styled text. */
  lemma SplitStep(cells: seq<Cell>, from: nat) returns (end: nat)
    requires from <= |cells|
    ensures from <= end <= |cells|
    ensures LineRanges(Chars(cells), from)
            == [(from, end)] + if end < |cells| then LineRanges(Chars(cells), end + 1) else []
    ensures SplitCells(cells[from..])
            == [cells[from..end]] + if end < |cells| then SplitCells(cells[end + 1..]) else []
  {
    hide NextBreak, SplitCells, LineRanges;
    var text := Chars(cells);
    var rest := cells[from..];
    var n := NextBreak(Chars(rest));
    end := from + n;
    SliceOfChars(cells, from, end);
    LineEndsAt(text, from, end);
    UnfoldSplit(rest);
    assert n < |rest| ==> rest[n + 1..] == cells[end + 1..];
  }

  lemma SliceOfChars(cells: seq<Cell>, from: nat, end: nat)
    requires from <= end <= |cells|
    ensures Chars(cells)[from..end] == Chars(cells[from..])[..end - from]
    ensures cells[from..][..end - from] == cells[from..end]
    ensures end < |cells| ==> Chars(cells)[end] == Chars(cells[from..])[end - from]
  {
  }

  lemma UnfoldSplit(cells: seq<Cell>)
    ensures var n := NextBreak(Chars(cells));
            SplitCells(cells) == [cells[..n]] + if n < |cells| then SplitCells(cells[n + 1..]) else []
  {
    hide NextBreak;
  }

  /** Lines are the slices that the ranges delimit. */
  lemma {:induction false} SplitByRanges(cells: seq<Cell>, from: nat)
    requires from <= |cells|
    ensures var ranges := LineRanges(Chars(cells), from);
            |SplitCells(cells[from..])| == |ranges|
            && forall k :: 0 <= k < |ranges| ==>
                 from <= ranges[k].0 <= ranges[k].1 <= |cells|
                 && SplitCells(cells[from..])[k] == cells[ranges[k].0..ranges[k].1]
    decreases |cells| - from
  {
    hide LineRanges, SplitCells;
    var end := SplitStep(cells, from);
    if end < |cells| {
      SplitByRanges(cells, end + 1);
    }
  }

  /** The whole text by its ranges. */
  lemma LineSlices(cells: seq<Cell>)
    ensures var ranges := LineRanges(Chars(cells), 0);
            |SplitCells(cells)| == |ranges|
            && forall k :: 0 <= k < |ranges| ==>
                 RangeAt(Chars(cells), ranges, 0, k)
                 && SplitCells(cells)[k] == cells[ranges[k].0..ranges[k].1]
  {
    hide LineRanges, SplitCells;
    assert cells[0..] == cells;
    SplitByRanges(cells, 0);
    RangesShape(Chars(cells), 0);
  }

  lemma {:induction false} SplitCount(cells: seq<Cell>)
    ensures |SplitCells(cells)| == Breaks(Chars(cells)) + 1
  {
    hide LineRanges, SplitCells;
    assert Chars(cells)[0..] == Chars(cells);
    LineSlices(cells);
    RangesShape(Chars(cells), 0);
  }

  /** The lines of a text together with their block kinds. */
  function LinesOf(cells: seq<Cell>, blocks: seq<BlockKind>): (lines: seq<Line>)
    requires |blocks| == |SplitCells(cells)|
    ensures |lines| == |blocks| && lines != []
    ensures forall i :: 0 <= i < |lines| ==> lines[i] == Line(blocks[i], SplitCells(cells)[i])
  {
    seq(|blocks|, i requires 0 <= i < |blocks| => Line(blocks[i], SplitCells(cells)[i]))
  }

  /** The canonical Markdown of a styled text. */
  function PrintCells(cells: seq<Cell>, blocks: seq<BlockKind>): string
    requires |blocks| == |SplitCells(cells)|
  {
    PrintDocument(LinesOf(cells, blocks))
  }

  function JoinCells(lines: seq<Line>): seq<Cell>
    requires lines != []
  {
    if |lines| == 1 then lines[0].cells
    else lines[0].cells + ([Cell('\n', PLAIN)] + JoinCells(lines[1..]))
  }

  function Kinds(lines: seq<Line>): (kinds: seq<BlockKind>)
    ensures |kinds| == |lines|
    ensures forall i :: 0 <= i < |lines| ==> kinds[i] == lines[i].kind
  {
    seq(|lines|, i requires 0 <= i < |lines| => lines[i].kind)
  }

  /** Newlines lose their style when text is printed and read back. */
  function PlainBreaks(cells: seq<Cell>): (plain: seq<Cell>)
    ensures |plain| == |cells|
    ensures forall i :: 0 <= i < |cells| ==> plain[i] == if cells[i].c == '\n' then Cell('\n', PLAIN) else cells[i]
  {
    seq(|cells|, i requires 0 <= i < |cells| => if cells[i].c == '\n' then Cell('\n', PLAIN) else cells[i])
  }

  lemma SplitFirstCells(a: seq<Cell>, nl: Cell, b: seq<Cell>)
    requires '\n' !in Chars(a) && nl.c == '\n'
    ensures SplitCells(a) == [a]
    ensures SplitCells(a + ([nl] + b)) == [a] + SplitCells(b)
  {
    hide NextBreak;
    assert Chars(a)[..|a|] == Chars(a) && a[..|a|] == a;
    NextBreakIs(Chars(a), |a|);
    var s := a + ([nl] + b);
    assert s[..|a|] == a && s[|a| + 1..] == b;
    assert Chars(s)[..|a|] == Chars(a);
    NextBreakIs(Chars(s), |a|);
  }

  /** Joining lines and splitting again is the identity. */
  lemma {:induction false} SplitOfJoin(lines: seq<Line>)
    requires lines != [] && forall i :: 0 <= i < |lines| ==> '\n' !in Chars(lines[i].cells)
    ensures |SplitCells(JoinCells(lines))| == |lines|
    ensures forall i :: 0 <= i < |lines| ==> SplitCells(JoinCells(lines))[i] == lines[i].cells
  {
    hide SplitCells;
    if |lines| == 1 {
      SplitFirstCells(lines[0].cells, Cell('\n', PLAIN), []);
    } else {
      SplitOfJoin(lines[1..]);
      SplitFirstCells(lines[0].cells, Cell('\n', PLAIN), JoinCells(lines[1..]));
    }
  }

  lemma LinesOfJoin(lines: seq<Line>)
    requires lines != [] && forall i :: 0 <= i < |lines| ==> '\n' !in Chars(lines[i].cells)
    ensures |SplitCells(JoinCells(lines))| == |lines|
    ensures LinesOf(JoinCells(lines), Kinds(lines)) == lines
  {
    SplitOfJoin(lines);
  }

  /** Splitting styled text and joining again only resets the style of newlines. */
  lemma {:induction false} JoinOfSplit(cells: seq<Cell>, lines: seq<Line>)
    requires |lines| == |SplitCells(cells)|
    requires forall i :: 0 <= i < |lines| ==> lines[i].cells == SplitCells(cells)[i]
    ensures JoinCells(lines) == PlainBreaks(cells)
    decreases |cells|
  {
    hide NextBreak, SplitCells;
    var n := NextBreak(Chars(cells));
    UnfoldSplit(cells);
    assert forall i :: 0 <= i < n ==> cells[i].c == Chars(cells)[..n][i] != '\n';
    assert PlainBreaks(cells)[..n] == cells[..n];
    if n < |cells| {
      var rest := cells[n + 1..];
      JoinOfSplit(rest, lines[1..]);
      assert PlainBreaks(cells)[n + 1..] == PlainBreaks(rest);
      assert PlainBreaks(cells) == cells[..n] + ([Cell('\n', PLAIN)] + PlainBreaks(rest));
    }
  }

  lemma SliceIsWellFormed(cells: seq<Cell>, start: nat, end: nat, kind: BlockKind)
    requires start <= end <= |cells| && '\r' !in Chars(cells) && AllExclusive(cells)
    requires '\n' !in Chars(cells)[start..end]
    ensures WellFormed(Line(kind, cells[start..end]))
  {
    assert Chars(cells[start..end]) == Chars(cells)[start..end];
  }

  lemma {:induction false} LinesAreWellFormed(cells: seq<Cell>, blocks: seq<BlockKind>)
    requires |blocks| == |SplitCells(cells)| && '\r' !in Chars(cells) && AllExclusive(cells)
    ensures forall i :: 0 <= i < |blocks| ==> WellFormed(LinesOf(cells, blocks)[i])
  {
    hide SplitCells, LineRanges, NextBreak;
    var text := Chars(cells);
    LineSlices(cells);
    forall i | 0 <= i < |blocks| ensures WellFormed(LinesOf(cells, blocks)[i]) {
      assert RangeAt(text, LineRanges(text, 0), 0, i);
      var range := LineRanges(text, 0)[i];
      SliceIsWellFormed(cells, range.0, range.1, blocks[i]);
    }
  }

  /** Text, block kinds and the style of every character but newlines survive printing and
      parsing exactly when every line meets ReadsBack. */
  lemma TextRoundTrip(cells: seq<Cell>, blocks: seq<BlockKind>)
    requires |blocks| == |SplitCells(cells)| && '\r' !in Chars(cells) && AllExclusive(cells)
    ensures var back := ParseDocument(PrintCells(cells, blocks));
            JoinCells(back) == PlainBreaks(cells) && Kinds(back) == blocks
            <==> forall i :: 0 <= i < |blocks| ==> ReadsBack(LinesOf(cells, blocks)[i])
  {
    hide SplitCells, PrintDocument, ParseDocument, ReadsBack, JoinCells;
    var lines := LinesOf(cells, blocks);
    LinesAreWellFormed(cells, blocks);
    DocumentRoundTrip(lines);
    JoinOfSplit(cells, lines);
    var back := ParseDocument(PrintDocument(lines));
    if JoinCells(back) == PlainBreaks(cells) && Kinds(back) == blocks {
      ParsedDocumentIsWellFormed(PrintDocument(lines));
      assert forall i :: 0 <= i < |back| ==> WellFormed(back[i]);
      assert forall i :: 0 <= i < |lines| ==> WellFormed(lines[i]);
      LinesOfJoin(back);
      LinesOfJoin(lines);
      assert Kinds(lines) == blocks;
    }
  }
}
