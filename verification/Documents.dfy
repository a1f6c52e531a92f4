// Documents as lists of lines: newline normalisation, splitting and joining, and the
// document-level round trip and canonical form.
module Documents {
  import opened Collections
  import opened Styles
  import opened InlineMarkdown
  import opened Markdown

  // ---------- newline normalisation ----------

  function ReplaceCrLf(s: string): string {
    if s == "" then ""
    else if "\r\n" <= s then "\n" + ReplaceCrLf(s[2..])
    else [s[0]] + ReplaceCrLf(s[1..])
  }

  function ReplaceCr(s: string): (r: string)
    ensures |r| == |s|
    ensures forall i :: 0 <= i < |s| ==> r[i] == (if s[i] == '\r' then '\n' else s[i])
  {
    seq(|s|, i requires 0 <= i < |s| => if s[i] == '\r' then '\n' else s[i])
  }

  function NormalizeNewlines(s: string): string {
    ReplaceCr(ReplaceCrLf(s))
  }

  lemma {:induction false} ReplaceCrLfIdentity(s: string)
    requires '\r' !in s
    ensures ReplaceCrLf(s) == s
  {
    if s != "" {
      assert s == [s[0]] + s[1..];
      ReplaceCrLfIdentity(s[1..]);
    }
  }

  /** Normalised text has no carriage return and is left alone by a second pass. */
  lemma NormalizedNewlines(s: string)
    ensures '\r' !in NormalizeNewlines(s)
    ensures '\r' !in s ==> NormalizeNewlines(s) == s
  {
    if '\r' !in s {
      ReplaceCrLfIdentity(s);
    }
  }

  lemma ReplaceCrLfStep(s: string)
    requires s != ""
    ensures ReplaceCrLf(s) ==
      if |s| > 1 && s[0] == '\r' && s[1] == '\n' then "\n" + ReplaceCrLf(s[2..]) else [s[0]] + ReplaceCrLf(s[1..])
  {
    assert "\r\n" <= s <==> |s| > 1 && s[0] == '\r' && s[1] == '\n';
  }

  lemma {:induction false} ReplaceCrLfConcat(a: string, b: string)
    requires !(a != "" && a[|a| - 1] == '\r' && b != "" && b[0] == '\n')
    ensures ReplaceCrLf(a + b) == ReplaceCrLf(a) + ReplaceCrLf(b)
    decreases |a|
  {
    hide ReplaceCrLf;
    if a == "" {
      assert a + b == b && ReplaceCrLf("") == "" by { NothingToReplace(); }
    } else {
      var k := if |a| > 1 && a[0] == '\r' && a[1] == '\n' then 2 else 1;
      ReplaceCrLfConcat(a[k..], b);
      ReplaceCrLfStep(a);
      ReplaceCrLfStep(a + b);
      assert (a + b)[k..] == a[k..] + b && (a + b)[0] == a[0];
      Associates(if k == 2 then "\n" else [a[0]], ReplaceCrLf(a[k..]), ReplaceCrLf(b));
    }
  }

  lemma NothingToReplace()
    ensures ReplaceCrLf("") == ""
  {
  }

  /** Normalisation is determined by these: a pair of carriage return and newline becomes one newline, a lone
      carriage return becomes one too, and all else stays; only between the two of a pair may text not be cut. */
  lemma NormalizesPairs(a: string, b: string, c: char)
    requires !(a != "" && a[|a| - 1] == '\r' && b != "" && b[0] == '\n')
    ensures NormalizeNewlines(a + b) == NormalizeNewlines(a) + NormalizeNewlines(b)
    ensures NormalizeNewlines("\r\n") == "\n" && NormalizeNewlines([c]) == if c == '\r' then "\n" else [c]
  {
    ReplaceCrLfConcat(a, b);
    assert ReplaceCrLf("\r\n") == "\n" by { assert "\r\n"[2..] == ""; }
    assert ReplaceCrLf([c]) == [c] by { assert [c][1..] == ""; }
  }

  // ---------- lines ----------

  /** Index of the first newline, or the length. */
  function NextBreak(s: string): (n: nat)
    ensures n <= |s| && '\n' !in s[..n]
    ensures n < |s| ==> s[n] == '\n'
  {
    if s == "" || s[0] == '\n' then 0 else 1 + NextBreak(s[1..])
  }

  function Breaks(s: string): nat {
    if s == "" then 0 else (if s[0] == '\n' then 1 else 0) + Breaks(s[1..])
  }

  lemma {:induction false} BreaksConcat(a: string, b: string)
    ensures Breaks(a + b) == Breaks(a) + Breaks(b)
  {
    if a == "" {
      assert a + b == b;
    } else {
      BreaksConcat(a[1..], b);
      assert (a + b)[1..] == a[1..] + b;
    }
  }

  lemma {:induction false} NoBreaks(s: string)
    ensures Breaks(s) == 0 <==> '\n' !in s
  {
    if s != "" {
      NoBreaks(s[1..]);
      assert s == [s[0]] + s[1..];
    }
  }

  function SplitLines(s: string): (lines: seq<string>)
    ensures lines != [] && (forall i :: 0 <= i < |lines| ==> '\n' !in lines[i])
    decreases |s|
  {
    var n := NextBreak(s);
    if n == |s| then [s[..n]] else [s[..n]] + SplitLines(s[n + 1..])
  }

  function JoinLines(lines: seq<string>): string
    requires lines != []
  {
    if |lines| == 1 then lines[0] else lines[0] + ("\n" + JoinLines(lines[1..]))
  }

  lemma {:induction false} NextBreakIs(s: string, n: nat)
    requires n <= |s| && '\n' !in s[..n] && (n < |s| ==> s[n] == '\n')
    ensures NextBreak(s) == n
  {
    if n > 0 {
      assert s[0] == s[..n][0];
      assert s[..n][1..] == s[1..][..n - 1];
      NextBreakIs(s[1..], n - 1);
    }
  }

  lemma SplitFirst(a: string, b: string)
    requires '\n' !in a
    ensures SplitLines(a) == [a]
    ensures SplitLines(a + ("\n" + b)) == [a] + SplitLines(b)
  {
    hide NextBreak;
    assert a[..|a|] == a;
    NextBreakIs(a, |a|);
    var s := a + ("\n" + b);
    assert s[..|a|] == a && s[|a|] == '\n' && s[|a| + 1..] == b;
    NextBreakIs(s, |a|);
  }

  lemma {:induction false} SplitJoin(lines: seq<string>)
    requires lines != [] && forall i :: 0 <= i < |lines| ==> '\n' !in lines[i]
    ensures SplitLines(JoinLines(lines)) == lines
  {
    hide SplitLines;
    if |lines| == 1 {
      SplitFirst(lines[0], "");
    } else {
      SplitJoin(lines[1..]);
      SplitFirst(lines[0], JoinLines(lines[1..]));
    }
  }

  lemma JoinFirst(first: string, rest: seq<string>)
    ensures JoinLines([first] + rest) == if rest == [] then first else first + ("\n" + JoinLines(rest))
  {
    assert ([first] + rest)[1..] == rest;
  }

  lemma {:induction false} JoinSplit(s: string)
    ensures JoinLines(SplitLines(s)) == s
    decreases |s|
  {
    hide NextBreak, JoinLines;
    var n := NextBreak(s);
    if n < |s| {
      var tail := SplitLines(s[n + 1..]);
      JoinSplit(s[n + 1..]);
      JoinFirst(s[..n], tail);
      assert s == s[..n] + ("\n" + s[n + 1..]);
    } else {
      assert s[..n] == s && [s] + [] == [s];
      JoinFirst(s, []);
    }
  }

  lemma {:induction false} JoinAvoids(lines: seq<string>, c: char)
    requires lines != [] && c != '\n' && forall i :: 0 <= i < |lines| ==> c !in lines[i]
    ensures c !in JoinLines(lines)
  {
    if |lines| > 1 {
      JoinAvoids(lines[1..], c);
    }
  }

  lemma {:induction false} SplitAvoids(s: string, c: char)
    requires c !in s
    ensures forall i :: 0 <= i < |SplitLines(s)| ==> c !in SplitLines(s)[i]
    decreases |s|
  {
    var n := NextBreak(s);
    if n < |s| {
      SplitAvoids(s[n + 1..], c);
    }
  }

  // ---------- documents ----------

  function PrintedLines(lines: seq<Line>): (out: seq<string>)
    ensures |out| == |lines|
    ensures forall i :: 0 <= i < |lines| ==> out[i] == PrintLine(lines[i])
  {
    seq(|lines|, i requires 0 <= i < |lines| => PrintLine(lines[i]))
  }

  function PrintDocument(lines: seq<Line>): string
    requires lines != []
  {
    JoinLines(PrintedLines(lines))
  }

  function ParsedLines(source: seq<string>): (lines: seq<Line>)
    ensures |lines| == |source|
    ensures forall i :: 0 <= i < |source| ==> lines[i] == ParseLine(source[i])
  {
    seq(|source|, i requires 0 <= i < |source| => ParseLine(source[i]))
  }

  function ParseDocument(markdown: string): (lines: seq<Line>)
    ensures lines != []
  {
    ParsedLines(SplitLines(NormalizeNewlines(markdown)))
  }

  // ---------- characters neither appear nor disappear ----------

  lemma {:induction false} EscapeChars(s: string, x: char)
    requires x in Escape(s)
    ensures IsSpecial(x) || x in s
  {
    if s != "" && x in Escape(s[1..]) {
      EscapeChars(s[1..], x);
    }
  }

  lemma PieceChars(s: string, style: InlineStyle, x: char)
    requires x in EncodePiece(s, style)
    ensures IsSpecial(x) || x in s
  {
    hide Escape, LongestRun;
    if x in Escape(s) {
      EscapeChars(s, x);
    }
  }

  lemma {:induction false} EncodedChars(cells: seq<Cell>, x: char)
    requires x in EncodeCells(cells)
    ensures IsSpecial(x) || x in Chars(cells)
    decreases |cells|
  {
    hide EncodePiece, StretchEnd;
    var n := StretchEnd(cells);
    CharsConcat(cells[..n], cells[n..]);
    assert cells == cells[..n] + cells[n..];
    if x in EncodeCells(cells[n..]) {
      EncodedChars(cells[n..], x);
    } else {
      PieceChars(Chars(cells[..n]), cells[0].style, x);
    }
  }

  lemma PrintedChars(line: Line, x: char)
    requires x == '\n' || x == '\r'
    requires x !in Chars(line.cells)
    ensures x !in PrintLine(line)
  {
    hide EncodeCells;
    if x in EncodeCells(line.cells) {
      EncodedChars(line.cells, x);
    }
    assert x !in Prefix(line.kind);
  }

  lemma {:induction false} UnescapeChars(s: string, x: char)
    requires x in Unescape(s)
    ensures x in s
    decreases |s|
  {
    if s[0] == '\\' && |s| > 1 {
      if x in Unescape(s[2..]) {
        UnescapeChars(s[2..], x);
      }
    } else if x in Unescape(s[1..]) {
      UnescapeChars(s[1..], x);
    }
  }

  lemma TokenChars(s: string, x: char)
    requires s != "" && x in NextToken(s).text
    ensures x in s
  {
    hide FindRun, FindMarker, Unescape, LeadingStars, LeadingBackticks;
    var n := LeadingStars(s);
    if s[0] != '\\' && s[0] != '`' && n > 0 {
      var e := FindMarker(s[n..], Repeat('*', n));
      if e.Some? {
        UnescapeChars(s[n..n + e.value], x);
      }
    }
  }

  lemma {:induction false} ParsedChars(s: string, x: char)
    requires x in Chars(ParseInline(s))
    ensures x in s
    decreases |s|
  {
    hide NextToken;
    var t := NextToken(s);
    var rest := ParseInline(s[t.length..]);
    CharsConcat(Styled(t.text, t.style), rest);
    assert Chars(Styled(t.text, t.style)) == t.text;
    if x in t.text {
      TokenChars(s, x);
    } else {
      ParsedChars(s[t.length..], x);
    }
  }

  lemma ParsedLineChars(s: string, x: char)
    requires x !in s
    ensures x !in Chars(ParseLine(s).cells)
  {
    hide ParseInline;
    var rest := ParseBlockPrefix(s).1;
    if x in Chars(ParseInline(rest)) {
      ParsedChars(rest, x);
    }
  }

  // ---------- the document round trip ----------

  /** Lines as the editor keeps them. */
  ghost predicate WellFormed(line: Line) {
    '\n' !in Chars(line.cells) && '\r' !in Chars(line.cells) && AllExclusive(line.cells)
  }

  lemma PrintThenSplit(lines: seq<Line>)
    requires lines != [] && forall i :: 0 <= i < |lines| ==> WellFormed(lines[i])
    ensures SplitLines(NormalizeNewlines(PrintDocument(lines))) == PrintedLines(lines)
  {
    hide PrintLine;
    var out := PrintedLines(lines);
    forall i | 0 <= i < |out| ensures '\n' !in out[i] && '\r' !in out[i] {
      assert WellFormed(lines[i]);
      PrintedChars(lines[i], '\n');
      PrintedChars(lines[i], '\r');
    }
    JoinAvoids(out, '\r');
    NormalizedNewlines(PrintDocument(lines));
    SplitJoin(out);
  }

  /** Printing then parsing gives the same lines exactly when every line meets ReadsBack. */
  lemma DocumentRoundTrip(lines: seq<Line>)
    requires lines != [] && forall i :: 0 <= i < |lines| ==> WellFormed(lines[i])
    ensures ParseDocument(PrintDocument(lines)) == lines <==> forall i :: 0 <= i < |lines| ==> ReadsBack(lines[i])
  {
    hide PrintLine, ParseLine, ReadsBack;
    PrintThenSplit(lines);
    var back := ParseDocument(PrintDocument(lines));
    assert |back| == |lines|;
    forall i | 0 <= i < |lines| ensures back[i] == lines[i] <==> ReadsBack(lines[i]) {
      assert WellFormed(lines[i]);
      assert back[i] == ParseLine(PrintLine(lines[i]));
      LineRoundTrip(lines[i]);
    }
  }

  lemma ParsedDocumentIsWellFormed(markdown: string)
    ensures forall i :: 0 <= i < |ParseDocument(markdown)| ==>
              WellFormed(ParseDocument(markdown)[i]) && Fenced(ParseDocument(markdown)[i].cells)
  {
    hide ParseInline;
    var text := NormalizeNewlines(markdown);
    NormalizedNewlines(markdown);
    var source := SplitLines(text);
    SplitAvoids(text, '\r');
    forall i | 0 <= i < |source|
      ensures WellFormed(ParseLine(source[i])) && Fenced(ParseLine(source[i]).cells)
    {
      ParsedLineChars(source[i], '\n');
      ParsedLineChars(source[i], '\r');
      ParsedIsFenced(ParseBlockPrefix(source[i]).1);
    }
  }

  /** Lines whose code is fenced print to a fixed point. */
  lemma FencedIsCanonical(lines: seq<Line>)
    requires lines != [] && forall i :: 0 <= i < |lines| ==> WellFormed(lines[i]) && Fenced(lines[i].cells)
    ensures PrintDocument(ParseDocument(PrintDocument(lines))) == PrintDocument(lines)
  {
    hide PrintLine, ParseLine, Fenced;
    PrintThenSplit(lines);
    var back := ParseDocument(PrintDocument(lines));
    forall i | 0 <= i < |lines| ensures PrintLine(back[i]) == PrintLine(lines[i]) {
      assert WellFormed(lines[i]);
      LineIsCanonical(lines[i]);
    }
    assert PrintedLines(back) == PrintedLines(lines);
  }

  /** Canonical Markdown, for any input whatever. */
  function Canonical(markdown: string): string {
    PrintDocument(ParseDocument(markdown))
  }

  /** Canonicalisation is idempotent on every input, with no side condition. */
  lemma CanonicalIsIdempotent(markdown: string)
    ensures Canonical(Canonical(markdown)) == Canonical(markdown)
  {
    hide PrintDocument, ParseDocument;
    ParsedDocumentIsWellFormed(markdown);
    FencedIsCanonical(ParseDocument(markdown));
  }

  /** Canonicalising keeps what the source parses to exactly when it has no heading-like paragraph. */
  lemma CanonicalMeansTheSame(markdown: string)
    ensures var lines := ParseDocument(markdown);
      ParseDocument(Canonical(markdown)) == lines
      <==> forall i :: 0 <= i < |lines| ==> !(lines[i].kind == Paragraph && HeadingLike(lines[i].cells))
  {
    hide PrintDocument, ParseDocument, HeadingLike, Fenced;
    ParsedDocumentIsWellFormed(markdown);
    DocumentRoundTrip(ParseDocument(markdown));
  }
}
