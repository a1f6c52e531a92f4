// The inline Markdown subset: how styled text is printed and read back.
// Everything here is a specification on suffixes; module InlineParser holds the
// indexed loops that the program runs and proves that they compute ParseInline.
module InlineMarkdown {
  import opened Options
  import opened Styles

  // ---------- backticks and escapes ----------

  function Repeat(c: char, n: nat): (s: string)
    ensures |s| == n
    ensures forall i :: 0 <= i < n ==> s[i] == c
  {
    seq(n, _ => c)
  }

  predicate IsSpecial(c: char) {
    c == '\\' || c == '*' || c == '`'
  }

  function Escape(s: string): string {
    if s == "" then ""
    else (if IsSpecial(s[0]) then ['\\', s[0]] else [s[0]]) + Escape(s[1..])
  }

  function Unescape(s: string): string {
    if s == "" then ""
    else if s[0] == '\\' && |s| > 1 then [s[1]] + Unescape(s[2..])
    else [s[0]] + Unescape(s[1..])
  }

  /** Length of the leading stretch of backticks. */
  function LeadingBackticks(s: string): (n: nat)
    ensures n <= |s|
    ensures forall i :: 0 <= i < n ==> s[i] == '`'
    ensures n < |s| ==> s[n] != '`'
  {
    if s != "" && s[0] == '`' then 1 + LeadingBackticks(s[1..]) else 0
  }

  function LongestRun(s: string): nat {
    if s == "" then 0
    else
      var first := LeadingBackticks(s);
      var rest := LongestRun(s[1..]);
      if first > rest then first else rest
  }

  function Shift(d: nat, r: Option<nat>): Option<nat> {
    match r
    case Some(p) => Some(d + p)
    case None => None
  }

  /** First maximal backtick run of exactly `n` characters, reading `s` from its start. */
  function FindRun(s: string, n: nat): (r: Option<nat>)
    ensures r.Some? ==> r.value + n <= |s|
    decreases |s|
  {
    if s == "" then None
    else if s[0] == '`' then
      var k := LeadingBackticks(s);
      if k == n then Some(0) else Shift(k, FindRun(s[k..], n))
    else Shift(1, FindRun(s[1..], n))
  }

  /** First occurrence of `marker` that no backslash protects. */
  function FindMarker(s: string, marker: string): (r: Option<nat>)
    requires marker != ""
    ensures r.Some? ==> r.value + |marker| <= |s|
  {
    if s == "" then None
    else if s[0] == '\\' then
      if |s| == 1 then None else Shift(2, FindMarker(s[2..], marker))
    else if marker <= s then Some(0)
    else Shift(1, FindMarker(s[1..], marker))
  }

  // ---------- printing ----------

  /** Stars around an emphasised piece: 1 italic, 2 bold, 3 both. */
  function StarCount(style: InlineStyle): nat {
    (if style.bold then 2 else 0) + (if style.italic then 1 else 0)
  }

  function StarStyle(stars: nat): InlineStyle
    requires 1 <= stars <= 3
  {
    InlineStyle(stars >= 2, stars != 2, false)
  }

  /** One maximal stretch of equally styled text. */
  function EncodePiece(s: string, style: InlineStyle): string {
    if s == "" then ""
    else if style.code then
      var fence := Repeat('`', LongestRun(s) + 1);
      fence + s + fence
    else
      var marker := Repeat('*', StarCount(style));
      marker + Escape(s) + marker
  }

  /** Length of the leading stretch of cells of one style. */
  function StretchEnd(cells: seq<Cell>): (n: nat)
    requires cells != []
    ensures 1 <= n <= |cells|
    ensures forall i :: 0 <= i < n ==> cells[i].style == cells[0].style
    ensures n < |cells| ==> cells[n].style != cells[0].style
  {
    if |cells| > 1 && cells[1].style == cells[0].style then 1 + StretchEnd(cells[1..]) else 1
  }

  function EncodeCells(cells: seq<Cell>): string {
    if cells == [] then ""
    else
      var n := StretchEnd(cells);
      EncodePiece(Chars(cells[..n]), cells[0].style) + EncodeCells(cells[n..])
  }

  // ---------- parsing ----------

  /** The longest of the markers three, two or one star that `s` starts with. */
  function LeadingStars(s: string): (n: nat)
    ensures n <= 3 && n <= |s| && Repeat('*', n) <= s
  {
    if Repeat('*', 3) <= s then 3
    else if Repeat('*', 2) <= s then 2
    else if Repeat('*', 1) <= s then 1
    else 0
  }

  /** What one step of the parser reads: the text it yields, its style, and the length consumed. */
  datatype Token = Token(text: string, style: InlineStyle, length: nat)

  function NextToken(s: string): (t: Token)
    requires s != ""
    ensures 0 < t.length <= |s|
  {
    if s[0] == '\\' then
      if |s| == 1 then Token("\\", PLAIN, 1) else Token([s[1]], PLAIN, 2)
    else if s[0] == '`' then
      var n := LeadingBackticks(s);
      match FindRun(s[n..], n)
      case Some(e) => Token(s[n..n + e], CODE, n + e + n)
      case None => Token(s[..n], PLAIN, n)
    else
      var n := LeadingStars(s);
      var e := if n > 0 then FindMarker(s[n..], Repeat('*', n)) else None;
      if e.Some? then Token(Unescape(s[n..n + e.value]), StarStyle(n), n + e.value + n)
      else Token([s[0]], PLAIN, 1)
  }

  function ParseInline(s: string): seq<Cell>
    decreases |s|
  {
    if s == "" then []
    else
      var t := NextToken(s);
      Styled(t.text, t.style) + ParseInline(s[t.length..])
  }

  // ---------- reading back one printed piece ----------

  lemma {:induction false} UnescapeEscape(s: string)
    ensures Unescape(Escape(s)) == s
  {
    if s != "" {
      UnescapeEscape(s[1..]);
      var e := Escape(s);
      if IsSpecial(s[0]) {
        assert e[2..] == Escape(s[1..]);
      } else {
        assert e[1..] == Escape(s[1..]);
      }
    }
  }

  lemma {:induction false} FindMarkerAfterEscape(s: string, stars: nat, rest: string)
    requires 1 <= stars <= 3
    ensures FindMarker(Escape(s) + Repeat('*', stars) + rest, Repeat('*', stars)) == Some(|Escape(s)|)
  {
    var marker := Repeat('*', stars);
    var whole := Escape(s) + marker + rest;
    if s == "" {
      assert whole == marker + rest;
      assert marker <= whole;
      assert whole[0] == '*';
    } else {
      FindMarkerAfterEscape(s[1..], stars, rest);
      var tail := Escape(s[1..]) + marker + rest;
      if IsSpecial(s[0]) {
        assert whole[2..] == tail;
      } else {
        assert whole[1..] == tail;
        assert whole[0] != '*';
        assert marker[0] == '*';
      }
    }
  }

  lemma LeadingStarsExact(s: string, n: nat)
    requires 1 <= n <= 3 && Repeat('*', n) <= s
    requires n == |s| || s[n] != '*'
    ensures LeadingStars(s) == n
  {
    assert n < 2 ==> !(Repeat('*', 2) <= s) by { assert Repeat('*', 2)[1] == '*'; }
    assert n < 3 ==> !(Repeat('*', 3) <= s) by { assert Repeat('*', 3)[n % 3] == '*'; }
  }

  lemma NoLeadingStars(s: string)
    requires s != "" && s[0] != '*'
    ensures LeadingStars(s) == 0
  {
    assert Repeat('*', 3)[0] == Repeat('*', 2)[0] == Repeat('*', 1)[0] == '*';
  }

  // One step of the parser for each of its branches.

  lemma EscapedToken(c: char, rest: string)
    ensures ParseInline(['\\', c] + rest) == [Cell(c, PLAIN)] + ParseInline(rest)
  {
    hide NextToken;
    var whole := ['\\', c] + rest;
    BackslashToken(whole);
    assert whole[2..] == rest;
    assert Styled([c], PLAIN) == [Cell(c, PLAIN)];
  }

  lemma BackslashToken(s: string)
    requires |s| > 1 && s[0] == '\\'
    ensures NextToken(s) == Token([s[1]], PLAIN, 2)
  {
    hide FindRun, FindMarker, LeadingBackticks, LeadingStars, Unescape;
  }

  lemma PlainToken(c: char, rest: string)
    requires !IsSpecial(c)
    ensures ParseInline([c] + rest) == [Cell(c, PLAIN)] + ParseInline(rest)
  {
    hide FindRun, FindMarker, Unescape, LeadingBackticks, LeadingStars;
    var whole := [c] + rest;
    NoLeadingStars(whole);
    assert NextToken(whole) == Token([c], PLAIN, 1);
    assert whole[1..] == rest;
  }

  lemma StarToken(n: nat, body: string, rest: string)
    requires 1 <= n <= 3
    requires LeadingStars(Repeat('*', n) + (body + Repeat('*', n) + rest)) == n
    requires FindMarker(body + Repeat('*', n) + rest, Repeat('*', n)) == Some(|body|)
    ensures ParseInline(Repeat('*', n) + (body + Repeat('*', n) + rest))
         == Styled(Unescape(body), StarStyle(n)) + ParseInline(rest)
  {
    var tail := body + Repeat('*', n) + rest;
    var whole := Repeat('*', n) + tail;
    assert whole[n..] == tail;
    assert whole[0] == '*';
    assert whole[n..n + |body|] == body;
    assert whole[n + |body| + n..] == rest;
  }

  lemma MatchedBackticks(s: string, n: nat, e: nat)
    requires s != "" && s[0] == '`' && LeadingBackticks(s) == n && FindRun(s[n..], n) == Some(e)
    ensures n + e + n <= |s| && NextToken(s) == Token(s[n..n + e], CODE, n + e + n)
  {
    hide FindRun;
  }

  lemma FenceToken(n: nat, body: string, rest: string)
    requires n > 0
    requires LeadingBackticks(Repeat('`', n) + (body + Repeat('`', n) + rest)) == n
    requires FindRun(body + Repeat('`', n) + rest, n) == Some(|body|)
    ensures ParseInline(Repeat('`', n) + (body + Repeat('`', n) + rest)) == Styled(body, CODE) + ParseInline(rest)
  {
    hide FindRun, LeadingBackticks, NextToken;
    var tail := body + Repeat('`', n) + rest;
    var whole := Repeat('`', n) + tail;
    assert whole[n..] == tail;
    assert whole[0] == '`';
    MatchedBackticks(whole, n, |body|);
    assert whole[n..n + |body|] == body;
    assert whole[n + |body| + n..] == rest;
  }

  lemma {:induction false} ParsePlainPiece(s: string, rest: string)
    ensures ParseInline(Escape(s) + rest) == Styled(s, PLAIN) + ParseInline(rest)
  {
    hide ParseInline;
    if s == "" {
      assert Escape(s) + rest == rest;
      assert Styled(s, PLAIN) + ParseInline(rest) == ParseInline(rest);
    } else {
      var tail := Escape(s[1..]) + rest;
      ParsePlainPiece(s[1..], rest);
      ParsePlainCons(s[0], Escape(s[1..]), rest);
      assert Styled(s, PLAIN) == [Cell(s[0], PLAIN)] + Styled(s[1..], PLAIN);
      assert Styled(s, PLAIN) + ParseInline(rest) == [Cell(s[0], PLAIN)] + (Styled(s[1..], PLAIN) + ParseInline(rest));
    }
  }

  lemma ParsePlainCons(c: char, escaped: string, rest: string)
    ensures ParseInline((if IsSpecial(c) then ['\\', c] else [c]) + escaped + rest)
      == [Cell(c, PLAIN)] + ParseInline(escaped + rest)
  {
    hide ParseInline;
    if IsSpecial(c) {
      assert ['\\', c] + escaped + rest == ['\\', c] + (escaped + rest);
      EscapedToken(c, escaped + rest);
    } else {
      assert [c] + escaped + rest == [c] + (escaped + rest);
      PlainToken(c, escaped + rest);
    }
  }

  lemma ParseStarredPiece(s: string, style: InlineStyle, rest: string)
    requires s != "" && !style.code && StarCount(style) > 0
    ensures ParseInline(EncodePiece(s, style) + rest) == Styled(s, style) + ParseInline(rest)
  {
    hide ParseInline;
    var n := StarCount(style);
    var marker := Repeat('*', n);
    var body := Escape(s);
    var whole := marker + (body + marker + rest);
    assert EncodePiece(s, style) + rest == whole;
    assert whole[n] == body[0] != '*';
    LeadingStarsExact(whole, n);
    FindMarkerAfterEscape(s, n, rest);
    StarToken(n, body, rest);
    UnescapeEscape(s);
    assert StarStyle(n) == style;
  }

  // ---------- code fences ----------

  lemma {:induction false} LeadingWithinLongest(s: string)
    ensures LeadingBackticks(s) <= LongestRun(s)
  {
    if s != "" {
      LeadingWithinLongest(s[1..]);
    }
  }

  lemma {:induction false} LongestOfSuffix(s: string, k: nat)
    requires k <= |s|
    ensures LongestRun(s[k..]) <= LongestRun(s)
  {
    if k == 0 {
      assert s[0..] == s;
    } else {
      LongestOfSuffix(s[1..], k - 1);
      assert s[1..][k - 1..] == s[k..];
    }
  }

  lemma {:induction false} LeadingBackticksOf(s: string, n: nat)
    requires n <= |s| && (forall i :: 0 <= i < n ==> s[i] == '`') && (n < |s| ==> s[n] != '`')
    ensures LeadingBackticks(s) == n
  {
    if n > 0 {
      LeadingBackticksOf(s[1..], n - 1);
    }
  }

  predicate EndsWithBacktick(s: string) {
    s != "" && s[|s| - 1] == '`'
  }

  predicate StartsWithBacktick(s: string) {
    s != "" && s[0] == '`'
  }

  /** Content shorter in runs than its fence: the closing fence is found exactly at its end. */
  lemma {:induction false} FindClosingFence(s: string, n: nat, rest: string)
    requires LongestRun(s) < n && !EndsWithBacktick(s) && !StartsWithBacktick(rest)
    ensures FindRun(s + Repeat('`', n) + rest, n) == Some(|s|)
    decreases |s|
  {
    hide LongestRun, FindRun;
    if s == "" {
      assert s + Repeat('`', n) + rest == Repeat('`', n) + rest;
      LeadingBackticksOf(Repeat('`', n) + rest, n);
      FindRunStep(Repeat('`', n) + rest, n, n);
    } else {
      var k := if s[0] == '`' then LeadingBackticks(s) else 1;
      FindRunPast(s, n, rest, k);
      FindClosingFence(s[k..], n, rest);
    }
  }

  lemma FindRunStep(s: string, n: nat, k: nat)
    requires s != "" && k == (if s[0] == '`' then LeadingBackticks(s) else 1)
    ensures FindRun(s, n) == if s[0] == '`' && k == n then Some(0) else Shift(k, FindRun(s[k..], n))
  {
  }

  /** Looking for a longer run passes over the start of `s`. */
  lemma FindRunPast(s: string, n: nat, rest: string, k: nat)
    requires s != "" && LongestRun(s) < n
    requires k == (if s[0] == '`' then LeadingBackticks(s) else 1) && (k == |s| ==> s[0] != '`')
    ensures k <= |s| && LongestRun(s[k..]) < n
    ensures FindRun(s + Repeat('`', n) + rest, n) == Shift(k, FindRun(s[k..] + Repeat('`', n) + rest, n))
  {
    hide LongestRun, FindRun;
    var whole := s + Repeat('`', n) + rest;
    LeadingWithinLongest(s);
    LongestOfSuffix(s, k);
    if s[0] == '`' {
      LeadingBackticksOf(whole, k);
    }
    FindRunStep(whole, n, k);
    assert whole[k..] == s[k..] + Repeat('`', n) + rest;
  }

  /** Content that ends in backticks hides its closing fence: no match before what follows it. */
  lemma {:induction false} NoClosingFence(s: string, n: nat, rest: string)
    requires LongestRun(s) < n && EndsWithBacktick(s) && !StartsWithBacktick(rest)
    ensures var r := FindRun(s + Repeat('`', n) + rest, n);
            r.Some? ==> r.value >= |s| + n
    decreases |s|
  {
    hide LongestRun, FindRun;
    var k := if s[0] == '`' then LeadingBackticks(s) else 1;
    if k == |s| {
      var whole := s + Repeat('`', n) + rest;
      LeadingBackticksOf(whole, k + n);
      FindRunStep(whole, n, k + n);
    } else {
      FindRunPast(s, n, rest, k);
      NoClosingFence(s[k..], n, rest);
    }
  }

  lemma ParseCodePiece(s: string, rest: string)
    requires s != "" && !StartsWithBacktick(s) && !EndsWithBacktick(s) && !StartsWithBacktick(rest)
    ensures ParseInline(EncodePiece(s, CODE) + rest) == Styled(s, CODE) + ParseInline(rest)
  {
    hide ParseInline;
    var n := LongestRun(s) + 1;
    var fence := Repeat('`', n);
    var whole := fence + (s + fence + rest);
    assert EncodePiece(s, CODE) + rest == whole;
    assert whole[n] == s[0];
    LeadingBackticksOf(whole, n);
    FindClosingFence(s, n, rest);
    FenceToken(n, s, rest);
  }

  /** A code piece with a backtick at either end never reads back. */
  lemma ParseUnfencedPiece(s: string, rest: string)
    requires s != "" && (StartsWithBacktick(s) || EndsWithBacktick(s)) && !StartsWithBacktick(rest)
    ensures var back := ParseInline(EncodePiece(s, CODE) + rest);
            || !(Styled(s, CODE) <= back)
            || (|back| > |s| && back[|s|].style == CODE)
  {
    hide ParseInline, FindRun, LongestRun, LeadingBackticks;
    var n := LongestRun(s) + 1;
    var fence := Repeat('`', n);
    var whole := fence + (s + fence + rest);
    assert EncodePiece(s, CODE) + rest == whole;
    assert whole[0] == '`';
    var k := LeadingBackticks(whole);
    BackticksFirst(whole, k);
    if s[0] != '`' {
      assert whole[n] == s[0];
      LeadingBackticksOf(whole, n);
      assert whole[n..] == s + fence + rest;
      NoClosingFence(s, n, rest);
    } else {
      // The opening run is longer than the fence, so the first character read is
      // either a plain backtick or a character other than a backtick.
      OpeningAbsorbs(s, fence, rest);
      if FindRun(whole[k..], k) == Some(0) {
        FindRunAtBacktick(whole[k..], k);
      }
    }
  }

  /** What a run of backticks yields first, and how far the code it opens reaches. */
  lemma BackticksFirst(s: string, k: nat)
    requires s != "" && s[0] == '`' && k == LeadingBackticks(s)
    ensures k > 0
    ensures var e := FindRun(s[k..], k);
            var back := ParseInline(s);
            if e.Some? then |back| >= e.value && forall i :: 0 <= i < e.value ==> back[i] == Cell(s[k + i], CODE)
            else back != [] && back[0] == Cell('`', PLAIN)
  {
    hide FindRun, NextToken;
    var e := FindRun(s[k..], k);
    if e.Some? {
      MatchedBackticks(s, k, e.value);
    } else {
      UnmatchedBackticks(s, k);
    }
  }

  lemma UnmatchedBackticks(s: string, n: nat)
    requires s != "" && s[0] == '`' && LeadingBackticks(s) == n && FindRun(s[n..], n) == None
    ensures NextToken(s) == Token(s[..n], PLAIN, n)
  {
    hide FindRun;
  }

  lemma OpeningAbsorbs(s: string, fence: string, rest: string)
    requires StartsWithBacktick(s) && |fence| > 0 && forall i :: 0 <= i < |fence| ==> fence[i] == '`'
    ensures LeadingBackticks(fence + (s + fence + rest)) > |fence|
  {
    var whole := fence + (s + fence + rest);
    assert whole[|fence|] == s[0];
  }

  lemma FindRunAtBacktick(s: string, n: nat)
    requires n > 0 && FindRun(s, n) == Some(0)
    ensures StartsWithBacktick(s)
  {
  }

  // ---------- the inline round trip and its exact condition ----------

  /** A backtick in code has code on both sides of it. */
  ghost predicate Inside(cells: seq<Cell>, i: nat)
    requires i < |cells|
  {
    cells[i].c == '`' && cells[i].style.code ==>
      0 < i < |cells| - 1 && cells[i - 1].style.code && cells[i + 1].style.code
  }

  /** No stretch of code starts or ends with a backtick. */
  ghost predicate Fenced(cells: seq<Cell>) {
    forall i :: 0 <= i < |cells| ==> Inside(cells, i)
  }

  lemma {:induction false} EncodedStart(cells: seq<Cell>)
    requires AllExclusive(cells) && (cells != [] ==> !cells[0].style.code)
    ensures !StartsWithBacktick(EncodeCells(cells))
  {
    if cells != [] {
      var n := StretchEnd(cells);
      var s := Chars(cells[..n]);
      var stars := StarCount(cells[0].style);
      if stars > 0 {
        assert EncodePiece(s, cells[0].style)[0] == '*';
      } else {
        assert Repeat('*', 0) == "";
        assert EncodePiece(s, cells[0].style) == Escape(s);
        assert Escape(s) != "" && Escape(s)[0] != '`';
      }
    }
  }

  /** A stretch that reads back leaves the question to the rest of the line. */
  lemma StretchReadsBack(cells: seq<Cell>)
    requires cells != [] && AllExclusive(cells)
    requires cells[0].style.code ==> cells[0].c != '`' && cells[StretchEnd(cells) - 1].c != '`'
    ensures var n := StretchEnd(cells);
            ParseInline(EncodeCells(cells)) == cells[..n] + ParseInline(EncodeCells(cells[n..]))
  {
    var n := StretchEnd(cells);
    var s := Chars(cells[..n]);
    var style := cells[0].style;
    var rest := EncodeCells(cells[n..]);
    assert Styled(s, style) == cells[..n];
    if style.code {
      assert style == CODE;
      EncodedStart(cells[n..]);
      ParseCodePiece(s, rest);
    } else if StarCount(style) > 0 {
      ParseStarredPiece(s, style, rest);
    } else {
      assert style == PLAIN;
      assert Repeat('*', 0) == "";
      assert EncodePiece(s, style) == Escape(s);
      ParsePlainPiece(s, rest);
    }
  }

  /** After a stretch of code comes something else. */
  lemma CodeStretchEnds(cells: seq<Cell>)
    requires cells != [] && AllExclusive(cells)
    ensures var n := StretchEnd(cells);
            n < |cells| && cells[0].style.code ==> !cells[n].style.code
  {
    if StretchEnd(cells) < |cells| {
      assert cells[0].style.Exclusive() && cells[StretchEnd(cells)].style.Exclusive();
    }
  }

  /** Inside the first stretch the condition concerns its two ends only. */
  lemma FencedStretch(cells: seq<Cell>, n: nat)
    requires cells != [] && AllExclusive(cells) && n == StretchEnd(cells) && cells[0].style.code
    ensures (forall i :: 0 <= i < n ==> Inside(cells, i)) <==> cells[0].c != '`' && cells[n - 1].c != '`'
  {
    CodeStretchEnds(cells);
    if cells[0].c != '`' && cells[n - 1].c != '`' {
      forall i | 0 <= i < n ensures Inside(cells, i) {
        if 0 < i < n - 1 {
          assert cells[i - 1].style == cells[i + 1].style == cells[0].style;
        }
      }
    } else {
      assert cells[n - 1].style == cells[0].style;
      assert !Inside(cells, 0) || !Inside(cells, n - 1);
    }
  }

  lemma FencedSplits(cells: seq<Cell>)
    requires cells != [] && AllExclusive(cells)
    ensures var n := StretchEnd(cells);
            Fenced(cells) <==>
              Fenced(cells[n..]) && (cells[0].style.code ==> cells[0].c != '`' && cells[n - 1].c != '`')
  {
    hide StretchEnd;
    var n := StretchEnd(cells);
    var rest := cells[n..];
    CodeStretchEnds(cells);
    if cells[0].style.code {
      FencedStretch(cells, n);
    }
    forall i | 0 <= i < |rest|
      ensures Inside(rest, i) <==> Inside(cells, n + i)
    {
      assert rest[i] == cells[n + i];
      if i > 0 {
        assert rest[i - 1] == cells[n + i - 1];
      } else {
        assert cells[n - 1].style == cells[0].style;
      }
    }
    if Fenced(cells) {
      forall i | 0 <= i < |rest| ensures Inside(rest, i) {
        assert Inside(cells, n + i);
      }
    } else {
      var j :| 0 <= j < |cells| && !Inside(cells, j);
      if j >= n {
        assert !Inside(rest, j - n);
      } else {
        assert cells[j].style == cells[0].style;
      }
    }
  }

  lemma SamePrefix<T>(a: seq<T>, b: seq<T>, c: seq<T>)
    ensures a + b == a + c <==> b == c
  {
    if a + b == a + c {
      assert b == (a + b)[|a|..] == (a + c)[|a|..] == c;
    }
  }

  /** A code stretch with a backtick at either end spoils the line, whatever follows it. */
  lemma UnfencedStretch(cells: seq<Cell>)
    requires cells != [] && AllExclusive(cells) && cells[0].style.code
    requires cells[0].c == '`' || cells[StretchEnd(cells) - 1].c == '`'
    ensures ParseInline(EncodeCells(cells)) != cells
  {
    hide ParseInline, EncodePiece, StretchEnd;
    var n := StretchEnd(cells);
    var s := Chars(cells[..n]);
    var rest := EncodeCells(cells[n..]);
    assert cells[0].style.Exclusive();
    assert Styled(s, CODE) == cells[..n];
    CodeStretchEnds(cells);
    EncodedStart(cells[n..]);
    ParseUnfencedPiece(s, rest);
    assert EncodeCells(cells) == EncodePiece(s, CODE) + rest;
  }

  /** Inline text reads back exactly when no code stretch touches a backtick at its ends. */
  lemma {:induction false} InlineRoundTrip(cells: seq<Cell>)
    requires AllExclusive(cells)
    ensures ParseInline(EncodeCells(cells)) == cells <==> Fenced(cells)
    decreases |cells|
  {
    hide ParseInline, EncodeCells, Fenced, StretchEnd;
    if cells == [] {
      NothingReadsBack();
    } else {
      var n := StretchEnd(cells);
      FencedSplits(cells);
      if cells[0].style.code && (cells[0].c == '`' || cells[n - 1].c == '`') {
        UnfencedStretch(cells);
      } else {
        StretchReadsBack(cells);
        InlineRoundTrip(cells[n..]);
        assert cells == cells[..n] + cells[n..];
        SamePrefix(cells[..n], ParseInline(EncodeCells(cells[n..])), cells[n..]);
      }
    }
  }

  lemma NothingReadsBack()
    ensures ParseInline(EncodeCells([])) == [] && Fenced([])
  {
  }

  // ---------- what parsing produces ----------

  lemma FencedConcat(a: seq<Cell>, b: seq<Cell>)
    requires Fenced(a) && Fenced(b)
    ensures Fenced(a + b)
  {
    var ab := a + b;
    forall i | 0 <= i < |ab| ensures Inside(ab, i) {
      if i < |a| {
        assert Inside(a, i);
      } else {
        assert Inside(b, i - |a|);
      }
    }
  }

  /** A matched run is a maximal run of exactly the length asked for. */
  lemma {:induction false} FoundRunIsMaximal(s: string, n: nat)
    requires n > 0 && FindRun(s, n).Some?
    ensures IsMaximalRun(s, FindRun(s, n).value, n)
    decreases |s|
  {
    hide LeadingBackticks, Repeat, IsMaximalRun;
    if s[0] == '`' {
      var k := LeadingBackticks(s);
      if k == n {
        LeadingIsMaximal(s, n);
      } else {
        FoundRunIsMaximal(s[k..], n);
        if FindRun(s[k..], n).value == 0 {
          FindRunAtBacktick(s[k..], n);
        }
        MaximalInSuffix(s, k, FindRun(s[k..], n).value, n);
      }
    } else {
      FoundRunIsMaximal(s[1..], n);
      MaximalInSuffix(s, 1, FindRun(s[1..], n).value, n);
    }
  }

  /** Exactly `n` backticks stand at `at`, with no backtick on either side. */
  predicate IsMaximalRun(s: string, at: nat, n: nat) {
    at + n <= |s| && s[at..at + n] == Repeat('`', n) && (at > 0 ==> s[at - 1] != '`')
    && (at + n < |s| ==> s[at + n] != '`')
  }

  lemma LeadingIsMaximal(s: string, n: nat)
    requires LeadingBackticks(s) == n
    ensures IsMaximalRun(s, 0, n)
  {
    hide LeadingBackticks;
  }

  lemma MaximalInSuffix(s: string, k: nat, at: nat, n: nat)
    requires 0 < k <= |s| && IsMaximalRun(s[k..], at, n) && (at == 0 ==> s[k - 1] != '`')
    ensures IsMaximalRun(s, k + at, n)
  {
    hide Repeat;
    assert s[k..][at..at + n] == s[k + at..k + at + n];
  }

  lemma TokenIsFenced(s: string)
    requires s != ""
    ensures var t := NextToken(s); Fenced(Styled(t.text, t.style)) && t.style.Exclusive()
  {
    hide FindRun, FindMarker, Unescape;
    if s[0] == '`' {
      var n := LeadingBackticks(s);
      if FindRun(s[n..], n).Some? {
        FoundRunIsMaximal(s[n..], n);
      }
    }
  }

  /** Whatever the input, parsed text is exclusive and never has code touching a backtick at its ends. */
  lemma {:induction false} ParsedIsFenced(s: string)
    ensures Fenced(ParseInline(s)) && AllExclusive(ParseInline(s))
    decreases |s|
  {
    hide NextToken;
    if s != "" {
      var t := NextToken(s);
      TokenIsFenced(s);
      ParsedIsFenced(s[t.length..]);
      FencedConcat(Styled(t.text, t.style), ParseInline(s[t.length..]));
    }
  }
}
