// Whole lines and whole documents: block prefixes, the paragraph escape, newline
// normalisation, the round trip between styled text and Markdown, and canonical form.
module Markdown {
  import opened Collections
  import opened Options
  import opened Styles
  import opened Unicode
  import opened InlineMarkdown

  /** One logical line: its block kind and its styled text, without the newline. */
  datatype Line = Line(kind: BlockKind, cells: seq<Cell>)

  // ---------- block prefixes ----------

  function Prefix(kind: BlockKind): string {
    match kind
    case Paragraph => ""
    case Heading1 => "# "
    case Heading2 => "## "
    case Heading3 => "### "
    case Bulleted => "- "
    case Numbered => "1. "
    case Quote => "> "
  }

  /** Length of a leading numbered-list prefix of any number: digits, a point, a space. */
  function NumberedPrefix(s: string): (r: Option<nat>)
    ensures r.Some? ==> 3 <= r.value <= |s|
  {
    var digits := DigitCount(s);
    if digits > 0 && ". " <= s[digits..] then Some(digits + 2) else None
  }

  function ParseBlockPrefix(s: string): (BlockKind, string) {
    if "### " <= s then (Heading3, s[4..])
    else if "## " <= s then (Heading2, s[3..])
    else if "# " <= s then (Heading1, s[2..])
    else if "- " <= s then (Bulleted, s[2..])
    else if NumberedPrefix(s).Some? then (Numbered, s[NumberedPrefix(s).value..])
    else if "> " <= s then (Quote, s[2..])
    else (Paragraph, s)
  }

  /** A paragraph whose first stretch is plain and looks like a list item is escaped. */
  predicate NeedsEscape(cells: seq<Cell>) {
    && cells != []
    && cells[0].style == PLAIN
    && var first := Chars(cells[..StretchEnd(cells)]);
       "- " <= first || NumberedPrefix(first).Some?
  }

  function PrintLine(line: Line): string {
    Prefix(line.kind)
    + (if line.kind == Paragraph && NeedsEscape(line.cells) then "\\" else "")
    + EncodeCells(line.cells)
  }

  function ParseLine(s: string): Line {
    var (kind, rest) := ParseBlockPrefix(s);
    Line(kind, ParseInline(rest))
  }

  // ---------- what a printed line starts with ----------

  predicate StartsPlain(cells: seq<Cell>, p: string) {
    Styled(p, PLAIN) <= cells
  }

  /** The paragraph beginnings that the printer does not escape. */
  predicate HeadingLike(cells: seq<Cell>) {
    StartsPlain(cells, "# ") || StartsPlain(cells, "## ") || StartsPlain(cells, "### ") || StartsPlain(cells, "> ")
  }

  predicate NoSpecials(p: string) {
    forall i :: 0 <= i < |p| ==> !IsSpecial(p[i])
  }

  lemma PlainStretch(cells: seq<Cell>)
    requires cells != [] && cells[0].style == PLAIN
    ensures EncodeCells(cells) == Escape(Chars(cells[..StretchEnd(cells)])) + EncodeCells(cells[StretchEnd(cells)..])
  {
    var s := Chars(cells[..StretchEnd(cells)]);
    assert Repeat('*', 0) == "";
    assert EncodePiece(s, PLAIN) == Escape(s);
  }

  lemma EscapeHead(s: string)
    requires s != ""
    ensures Escape(s) == (if IsSpecial(s[0]) then ['\\', s[0]] else [s[0]]) + Escape(s[1..])
    ensures Escape("") == ""
  {
  }

  lemma StretchOfTail(cells: seq<Cell>)
    requires cells != [] && StretchEnd(cells) > 1
    ensures StretchEnd(cells[1..]) == StretchEnd(cells) - 1
  {
  }

  lemma PlainHead(cells: seq<Cell>)
    requires cells != [] && cells[0].style == PLAIN
    ensures EncodeCells(cells)
      == (if IsSpecial(cells[0].c) then ['\\', cells[0].c] else [cells[0].c]) + EncodeCells(cells[1..])
  {
    hide EncodeCells, StretchEnd, Escape;
    var n := StretchEnd(cells);
    var tail := cells[1..];
    var s := Chars(cells[..n]);
    var head := if IsSpecial(cells[0].c) then ['\\', cells[0].c] else [cells[0].c];
    PlainStretch(cells);
    EscapeHead(s);
    Associates(head, Escape(s[1..]), EncodeCells(cells[n..]));
    assert EncodeCells(cells) == head + (Escape(s[1..]) + EncodeCells(cells[n..]));
    if n > 1 {
      PlainStretch(tail);
      StretchOfTail(cells);
      assert Chars(tail[..n - 1]) == s[1..];
      assert tail[n - 1..] == cells[n..];
    } else {
      assert s[1..] == "";
      assert "" + EncodeCells(cells[n..]) == EncodeCells(tail);
    }
  }

  lemma MarkedHead(cells: seq<Cell>)
    requires cells != [] && cells[0].style != PLAIN
    ensures EncodeCells(cells) != "" && IsSpecial(EncodeCells(cells)[0])
  {
    var n := StretchEnd(cells);
    var s := Chars(cells[..n]);
    if cells[0].style.code {
      assert EncodePiece(s, cells[0].style)[0] == '`';
    } else {
      assert StarCount(cells[0].style) > 0;
      assert EncodePiece(s, cells[0].style)[0] == '*';
    }
  }

  /** Characters that need no escape open a printed line exactly when they open its plain text. */
  lemma {:induction false} PrintedStart(cells: seq<Cell>, p: string)
    requires NoSpecials(p)
    ensures p <= EncodeCells(cells) <==> StartsPlain(cells, p)
    ensures StartsPlain(cells, p) ==> EncodeCells(cells) == p + EncodeCells(cells[|p|..])
    decreases |p|
  {
    hide EncodeCells;
    var out := EncodeCells(cells);
    if p == "" {
      assert cells[0..] == cells;
      assert out == "" + out;
    } else if cells == [] {
      EncodeNothing();
    } else if cells[0].style != PLAIN {
      MarkedHead(cells);
      assert p[0] != out[0];
      assert Styled(p, PLAIN)[0] != cells[0];
    } else {
      PlainHead(cells);
      if cells[0].c != p[0] {
        assert out[0] != p[0];
        assert Styled(p, PLAIN)[0] != cells[0];
      } else {
        PrintedStart(cells[1..], p[1..]);
        PrintedStartCons(cells, p, EncodeCells(cells[1..]));
        assert StartsPlain(cells, p) ==> cells[1..][|p| - 1..] == cells[|p|..];
      }
    }
  }

  lemma PrintedStartCons(cells: seq<Cell>, p: string, tail: string)
    requires p != "" && cells != [] && cells[0] == Cell(p[0], PLAIN)
    ensures p <= [p[0]] + tail <==> p[1..] <= tail
    ensures StartsPlain(cells, p) <==> StartsPlain(cells[1..], p[1..])
  {
    assert Styled(p, PLAIN) == [cells[0]] + Styled(p[1..], PLAIN);
    assert p == [p[0]] + p[1..] && cells == [cells[0]] + cells[1..];
    ConsPrefix(p[0], p[1..], tail);
    ConsPrefix(cells[0], Styled(p[1..], PLAIN), cells[1..]);
  }

  lemma EncodeNothing()
    ensures EncodeCells([]) == ""
  {
  }

  lemma ConsPrefix<T>(x: T, a: seq<T>, b: seq<T>)
    ensures [x] + a <= [x] + b <==> a <= b
  {
    if [x] + a <= [x] + b {
      assert a == ([x] + a)[1..] && b == ([x] + b)[1..];
      assert forall i :: 0 <= i < |a| ==> a[i] == ([x] + a)[i + 1] == ([x] + b)[i + 1] == b[i];
    }
  }

  lemma {:induction false} DigitsThenPoint(s: string, digits: string)
    requires digits != "" && (forall i :: 0 <= i < |digits| ==> '0' <= digits[i] <= '9')
    requires digits + ". " <= s
    ensures NumberedPrefix(s) == Some(|digits| + 2)
  {
    assert s[|digits|] == (digits + ". ")[|digits|];
    DigitCountIs(s, |digits|);
    assert s[|digits|..][..2] == (digits + ". ")[|digits|..];
  }

  lemma {:induction false} DigitCountIs(s: string, n: nat)
    requires n < |s| && (forall i :: 0 <= i < n ==> '0' <= s[i] <= '9') && !('0' <= s[n] <= '9')
    ensures DigitCount(s) == n
  {
    if n > 0 {
      DigitCountIs(s[1..], n - 1);
    }
  }

  /** The numbered prefix of `s`, as a string that only digits, a point and a space make up. */
  lemma NumberedText(s: string)
    requires NumberedPrefix(s).Some?
    ensures var p := s[..NumberedPrefix(s).value];
            NoSpecials(p) && |p| > 2 && p[..|p| - 2] + ". " == p
            && (forall i :: 0 <= i < |p| - 2 ==> '0' <= p[i] <= '9')
  {
    var n := DigitCount(s);
    assert s[n..][0] == '.' && s[n..][1] == ' ';
    assert s[..n + 2] == s[..n] + ". ";
  }

  lemma StartsPlainInStretch(cells: seq<Cell>, p: string)
    requires p != "" && StartsPlain(cells, p)
    ensures cells[0].style == PLAIN && p <= Chars(cells[..StretchEnd(cells)])
  {
    var n := StretchEnd(cells);
    assert forall i :: 0 <= i < |p| ==> cells[i] == Styled(p, PLAIN)[i];
  }

  lemma StretchStartsPlain(cells: seq<Cell>, p: string)
    requires cells != [] && cells[0].style == PLAIN && p <= Chars(cells[..StretchEnd(cells)])
    ensures StartsPlain(cells, p)
  {
    assert forall i :: 0 <= i < |p| ==> cells[i] == Styled(p, PLAIN)[i];
  }

  /** The escape is written exactly when the bare text would read as a list item. */
  lemma EscapeIsExact(cells: seq<Cell>)
    ensures NeedsEscape(cells) <==> "- " <= EncodeCells(cells) || NumberedPrefix(EncodeCells(cells)).Some?
  {
    hide EncodeCells, NumberedPrefix, StretchEnd;
    var out := EncodeCells(cells);
    PrintedStart(cells, "- ");
    if "- " <= out {
      StartsPlainInStretch(cells, "- ");
    }
    if NumberedPrefix(out).Some? {
      var p := out[..NumberedPrefix(out).value];
      NumberedText(out);
      PrintedStart(cells, p);
      StartsPlainInStretch(cells, p);
      DigitsThenPoint(Chars(cells[..StretchEnd(cells)]), p[..|p| - 2]);
    }
    if NeedsEscape(cells) {
      var first := Chars(cells[..StretchEnd(cells)]);
      if "- " <= first {
        StretchStartsPlain(cells, "- ");
      } else {
        var p := first[..NumberedPrefix(first).value];
        NumberedText(first);
        StretchStartsPlain(cells, p);
        PrintedStart(cells, p);
        DigitsThenPoint(out, p[..|p| - 2]);
      }
    }
  }

  // ---------- one line ----------

  lemma PrefixReadsBack(kind: BlockKind, rest: string)
    requires kind != Paragraph
    ensures ParseBlockPrefix(Prefix(kind) + rest) == (kind, rest)
  {
    var s := Prefix(kind) + rest;
    assert s[|Prefix(kind)|..] == rest;
    assert s[0] == Prefix(kind)[0] && s[1] == Prefix(kind)[1];
    match kind
    case Heading1 =>
    case Heading2 => assert s[2] == ' ';
    case Heading3 => assert s[2] == '#' && s[3] == ' ';
    case Bulleted =>
    case Numbered =>
      assert s[2] == ' ';
      DigitCountIs(s, 1);
      assert s[1..][..2] == ". ";
    case Quote =>
      assert DigitCount(s) == 0;
    case Paragraph =>
  }

  /** An unescaped paragraph keeps its kind exactly when it does not look like a heading or quote. */
  lemma ParagraphKind(cells: seq<Cell>)
    requires !NeedsEscape(cells)
    ensures ParseBlockPrefix(EncodeCells(cells)).0 == Paragraph <==> !HeadingLike(cells)
    ensures !HeadingLike(cells) ==> ParseBlockPrefix(EncodeCells(cells)).1 == EncodeCells(cells)
    ensures HeadingLike(cells) ==>
              var kind := ParseBlockPrefix(EncodeCells(cells)).0;
              kind != Paragraph && StartsPlain(cells, Prefix(kind))
              && ParseBlockPrefix(EncodeCells(cells)).1 == EncodeCells(cells[|Prefix(kind)|..])
  {
    hide EncodeCells, NumberedPrefix, NeedsEscape;
    EscapeIsExact(cells);
    PrintedStart(cells, "# ");
    PrintedStart(cells, "## ");
    PrintedStart(cells, "### ");
    PrintedStart(cells, "> ");
  }

  lemma EscapedHead(cells: seq<Cell>)
    requires NeedsEscape(cells)
    ensures cells != [] && cells[0].style == PLAIN && !IsSpecial(cells[0].c)
  {
    var first := Chars(cells[..StretchEnd(cells)]);
    assert first[0] == cells[0].c;
  }

  lemma EscapedParagraph(cells: seq<Cell>)
    requires NeedsEscape(cells)
    ensures cells != []
    ensures var out := "\\" + EncodeCells(cells);
            ParseBlockPrefix(out) == (Paragraph, out)
            && ParseInline(out) == [cells[0]] + ParseInline(EncodeCells(cells[1..]))
  {
    hide EncodeCells, ParseInline, NeedsEscape, DigitCount;
    EscapedHead(cells);
    PlainHead(cells);
    var rest := EncodeCells(cells[1..]);
    var out := ['\\', cells[0].c] + rest;
    assert "\\" + EncodeCells(cells) == out;
    EscapedToken(cells[0].c, rest);
    BackslashIsNoPrefix(out);
  }

  lemma BackslashIsNoPrefix(s: string)
    requires s != "" && s[0] == '\\'
    ensures ParseBlockPrefix(s) == (Paragraph, s)
  {
    assert DigitCount(s) == 0;
  }

  lemma FencedTail(cells: seq<Cell>)
    requires cells != [] && !cells[0].style.code
    ensures Fenced(cells) <==> Fenced(cells[1..])
  {
    var tail := cells[1..];
    forall i | 0 <= i < |tail| ensures Inside(tail, i) <==> Inside(cells, i + 1) {
      if i > 0 {
        assert tail[i - 1] == cells[i];
      }
    }
    if Fenced(cells) {
      forall i | 0 <= i < |tail| ensures Inside(tail, i) {
        assert Inside(cells, i + 1);
      }
    } else {
      var j :| 0 <= j < |cells| && !Inside(cells, j);
      assert !Inside(tail, j - 1);
    }
  }

  /** The inline text of a line survives exactly when its code never touches a backtick at its ends. */
  lemma LineTextRoundTrip(line: Line)
    requires AllExclusive(line.cells) && !(line.kind == Paragraph && HeadingLike(line.cells))
    ensures ParseLine(PrintLine(line)).kind == line.kind
    ensures ParseLine(PrintLine(line)) == line <==> Fenced(line.cells)
  {
    hide EncodeCells, ParseInline, NeedsEscape, HeadingLike;
    var Line(kind, cells) := line;
    var out := EncodeCells(cells);
    if kind != Paragraph {
      assert PrintLine(line) == Prefix(kind) + out;
      PrefixReadsBack(kind, out);
      InlineRoundTrip(cells);
    } else if NeedsEscape(cells) {
      assert PrintLine(line) == "\\" + out;
      EscapedParagraph(cells);
      EscapedHead(cells);
      FencedTail(cells);
      InlineRoundTrip(cells[1..]);
      assert cells == [cells[0]] + cells[1..];
      assert ([cells[0]] + ParseInline(EncodeCells(cells[1..])))[1..] == ParseInline(EncodeCells(cells[1..]));
    } else {
      assert PrintLine(line) == out;
      ParagraphKind(cells);
      InlineRoundTrip(cells);
    }
  }

  /** What a caller can check before printing: this line will read back unchanged. */
  ghost predicate ReadsBack(line: Line) {
    Fenced(line.cells) && !(line.kind == Paragraph && HeadingLike(line.cells))
  }

  /** A line reads back exactly when it meets that condition. */
  lemma LineRoundTrip(line: Line)
    requires AllExclusive(line.cells)
    ensures ParseLine(PrintLine(line)) == line <==> ReadsBack(line)
  {
    hide EncodeCells, ParseInline, NeedsEscape, HeadingLike;
    if line.kind == Paragraph && HeadingLike(line.cells) {
      HeadingLikeNotEscaped(line.cells);
      assert PrintLine(line) == EncodeCells(line.cells);
      ParagraphKind(line.cells);
    } else {
      LineTextRoundTrip(line);
    }
  }

  lemma HeadingLikeNotEscaped(cells: seq<Cell>)
    requires HeadingLike(cells)
    ensures !NeedsEscape(cells)
  {
    assert cells[0].c == '#' || cells[0].c == '>' by {
      assert Styled("# ", PLAIN)[0].c == Styled("## ", PLAIN)[0].c == Styled("### ", PLAIN)[0].c == '#';
      assert Styled("> ", PLAIN)[0].c == '>';
    }
    var first := Chars(cells[..StretchEnd(cells)]);
    assert first[0] == cells[0].c;
    assert DigitCount(first) == 0;
  }

  /** A heading-like paragraph prints as the heading or quote it then becomes. */
  lemma HeadingLikeIsCanonical(cells: seq<Cell>)
    requires AllExclusive(cells) && Fenced(cells) && HeadingLike(cells)
    ensures var out := EncodeCells(cells); PrintLine(ParseLine(out)) == out
  {
    hide EncodeCells, ParseInline, HeadingLike, ParseBlockPrefix;
    HeadingLikeNotEscaped(cells);
    var out := EncodeCells(cells);
    ParagraphKind(cells);
    var kind := ParseBlockPrefix(out).0;
    var n := |Prefix(kind)|;
    PrefixesAreLiteral(kind);
    PrintedStart(cells, Prefix(kind));
    assert forall i :: 0 <= i < n ==> cells[i] == Styled(Prefix(kind), PLAIN)[i];
    FencedDrop(cells, n);
    InlineRoundTrip(cells[n..]);
    assert ParseLine(out) == Line(kind, cells[n..]);
    assert Prefix(kind) + "" == Prefix(kind);
  }

  /** Printing a read-back of a printed line changes nothing, for every line of fenced code. */
  lemma LineIsCanonical(line: Line)
    requires AllExclusive(line.cells) && Fenced(line.cells)
    ensures PrintLine(ParseLine(PrintLine(line))) == PrintLine(line)
  {
    hide EncodeCells, ParseInline, NeedsEscape, HeadingLike, ParseLine, Fenced;
    if line.kind == Paragraph && HeadingLike(line.cells) {
      HeadingLikeNotEscaped(line.cells);
      assert PrintLine(line) == EncodeCells(line.cells);
      HeadingLikeIsCanonical(line.cells);
    } else {
      LineTextRoundTrip(line);
    }
  }

  lemma PrefixesAreLiteral(kind: BlockKind)
    ensures NoSpecials(Prefix(kind))
  {
  }

  lemma {:induction false} FencedDrop(cells: seq<Cell>, n: nat)
    requires Fenced(cells) && n <= |cells| && forall i :: 0 <= i < n ==> cells[i].style == PLAIN
    ensures Fenced(cells[n..])
  {
    if n == 0 {
      assert cells[0..] == cells;
    } else {
      FencedTail(cells);
      FencedDrop(cells[1..], n - 1);
      assert cells[1..][n - 1..] == cells[n..];
    }
  }

  // ---------- literal lines ----------

  /** Literal source is read as that kind of line. */
  lemma LiteralLinesRead(t: string)
    ensures ParseLine("# " + Escape(t)) == Line(Heading1, Styled(t, PLAIN))
    ensures ParseLine("## " + Escape(t)) == Line(Heading2, Styled(t, PLAIN))
    ensures ParseLine("### " + Escape(t)) == Line(Heading3, Styled(t, PLAIN))
    ensures ParseLine("- " + Escape(t)) == Line(Bulleted, Styled(t, PLAIN))
    ensures ParseLine("> " + Escape(t)) == Line(Quote, Styled(t, PLAIN))
  {
    hide ParseInline, Escape, ParseBlockPrefix;
    PlainReads(t);
    HeadingPrefixes(Escape(t));
    ItemPrefixes(Escape(t));
  }

  lemma HeadingPrefixes(rest: string)
    ensures ParseBlockPrefix("# " + rest) == (Heading1, rest) && ParseBlockPrefix("## " + rest) == (Heading2, rest)
    ensures ParseBlockPrefix("### " + rest) == (Heading3, rest)
  {
    hide NumberedPrefix;
    assert ("# " + rest)[1] == ' ' && ("## " + rest)[2] == ' ';
    assert ("# " + rest)[2..] == rest && ("## " + rest)[3..] == rest && ("### " + rest)[4..] == rest;
  }

  lemma ItemPrefixes(rest: string)
    ensures ParseBlockPrefix("- " + rest) == (Bulleted, rest) && ParseBlockPrefix("> " + rest) == (Quote, rest)
  {
    hide NumberedPrefix;
    assert ("- " + rest)[0] == '-' && ("> " + rest)[0] == '>';
    NoNumberInFront("> " + rest);
    assert ("- " + rest)[2..] == rest && ("> " + rest)[2..] == rest;
  }

  /** Each kind of line is written as that literal source. */
  lemma LiteralLinesWritten(t: string)
    ensures PrintLine(Line(Heading1, Styled(t, PLAIN))) == "# " + Escape(t)
    ensures PrintLine(Line(Heading2, Styled(t, PLAIN))) == "## " + Escape(t)
    ensures PrintLine(Line(Heading3, Styled(t, PLAIN))) == "### " + Escape(t)
    ensures PrintLine(Line(Bulleted, Styled(t, PLAIN))) == "- " + Escape(t)
    ensures PrintLine(Line(Numbered, Styled(t, PLAIN))) == "1. " + Escape(t)
    ensures PrintLine(Line(Quote, Styled(t, PLAIN))) == "> " + Escape(t)
  {
    hide Escape, EncodeCells, NeedsEscape;
    PlainWrites(t);
  }

  lemma NoNumberInFront(s: string)
    requires s != "" && !('0' <= s[0] <= '9')
    ensures NumberedPrefix(s).None?
  {
  }

  lemma PlainReads(t: string)
    ensures ParseInline(Escape(t)) == Styled(t, PLAIN)
  {
    hide ParseInline, Escape;
    ParsePlainPiece(t, "");
    assert Escape(t) + "" == Escape(t);
    NothingParsed();
  }

  lemma NothingParsed()
    ensures ParseInline("") == []
  {
  }

  lemma PlainWrites(t: string)
    ensures EncodeCells(Styled(t, PLAIN)) == Escape(t)
  {
    var cells := Styled(t, PLAIN);
    if t != "" {
      var n := StretchEnd(cells);
      assert n == |cells|;
      assert cells[..n] == cells && cells[n..] == [] && Chars(cells) == t;
      assert Repeat('*', 0) == "";
      assert EncodePiece(t, PLAIN) == Escape(t);
    }
  }

  /** Any number in front makes a numbered line. */
  lemma LiteralNumber(digits: string, t: string)
    requires digits != "" && forall i :: 0 <= i < |digits| ==> '0' <= digits[i] <= '9'
    ensures ParseLine(digits + ". " + Escape(t)) == Line(Numbered, Styled(t, PLAIN))
  {
    hide ParseInline, Escape, DigitCount;
    var s := digits + ". " + Escape(t);
    PlainReads(t);
    DigitCountIs(s, |digits|);
    assert s[|digits|..] == ". " + Escape(t) && s[|digits| + 2..] == Escape(t);
    assert s[0] == digits[0];
  }
}
