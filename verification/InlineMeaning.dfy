// What inline Markdown means, said without the parser: its source is a sequence of segments, each shown in
// its own way, and the parser gives exactly what they show (crates/key-editor-core/src/lib.rs).
module InlineMeaning {
  import opened Collections
  import opened Options
  import opened Styles
  import opened Unicode
  import opened InlineMarkdown

  // ---------- segments ----------

  datatype Segment =
    | Char(c: char)                          // one character as it is
    | Escaped(c: char)                       // a backslash and the character that it protects
    | LastBackslash                          // a backslash with nothing behind it
    | Ticks(count: nat)                      // backticks that nothing closes
    | Coded(count: nat, body: string)        // text between two runs of backticks
    | Starred(count: nat, inner: seq<Segment>)  // text between two runs of one, two or three stars

  /** The characters of a segment in the source. */
  function Source(segment: Segment): string
    decreases segment, 1
  {
    match segment
    case Char(c) => [c]
    case Escaped(c) => ['\\', c]
    case LastBackslash => "\\"
    case Ticks(count) => Repeat('`', count)
    case Coded(count, body) => Repeat('`', count) + body + Repeat('`', count)
    case Starred(count, inner) => Repeat('*', count) + Sources(inner) + Repeat('*', count)
  }

  function Sources(segments: seq<Segment>): string
    decreases segments, 0
  {
    if segments == [] then "" else Source(segments[0]) + Sources(segments[1..])
  }

  /** Which characters of the source are shown: all but markers, fences and protecting backslashes. */
  function Kept(segment: Segment): seq<bool>
    decreases segment, 1
  {
    match segment
    case Char(_) => [true]
    case Escaped(_) => [false, true]
    case LastBackslash => [true]
    case Ticks(count) => Copies(true, count)
    case Coded(count, body) => Copies(false, count) + Copies(true, |body|) + Copies(false, count)
    case Starred(count, inner) => Copies(false, count) + KeptOf(inner) + Copies(false, count)
  }

  function KeptOf(segments: seq<Segment>): seq<bool>
    decreases segments, 0
  {
    if segments == [] then [] else Kept(segments[0]) + KeptOf(segments[1..])
  }

  function Copies<T>(value: T, n: nat): (values: seq<T>)
    ensures |values| == n && forall i :: 0 <= i < n ==> values[i] == value
  {
    seq(n, _ => value)
  }

  /** Code is code, one star is italic, two are bold, three are both; all else is plain. */
  function StyleOf(segment: Segment): InlineStyle {
    match segment
    case Coded(_, _) => InlineStyle(false, false, true)
    case Starred(count, _) => InlineStyle(count >= 2, count != 2, false)
    case _ => InlineStyle(false, false, false)
  }

  /** The characters that a mask selects. */
  function Selected(s: string, mask: seq<bool>): string
    requires |mask| == |s|
  {
    if s == "" then "" else (if mask[0] then [s[0]] else "") + Selected(s[1..], mask[1..])
  }

  lemma {:induction false} MaskFits(segment: Segment)
    ensures |Kept(segment)| == |Source(segment)|
    decreases segment, 1
  {
    if segment.Starred? {
      MasksFit(segment.inner);
    }
  }

  lemma {:induction false} MasksFit(segments: seq<Segment>)
    ensures |KeptOf(segments)| == |Sources(segments)|
    decreases segments, 0
  {
    if segments != [] {
      MaskFits(segments[0]);
      MasksFit(segments[1..]);
    }
  }

  /** The shown text of one segment. */
  function Shown(segment: Segment): string {
    MaskFits(segment);
    Selected(Source(segment), Kept(segment))
  }

  function Cells(segments: seq<Segment>): seq<Cell> {
    if segments == [] then []
    else Styled(Shown(segments[0]), StyleOf(segments[0])) + Cells(segments[1..])
  }

  // ---------- which segments may stand where ----------

  /** A closing marker: that many stars which no backslash protects. */
  predicate Closes(s: string, at: nat, count: nat) {
    at + count <= |s| && s[at..at + count] == Repeat('*', count) && BackslashesBefore(s, at) % 2 == 0
  }

  predicate NoneCloses(s: string, count: nat, before: nat) {
    forall i :: 0 <= i < before ==> !Closes(s, i, count)
  }

  /** The number of stars in front, as far as three. */
  predicate Opens(s: string, count: nat) {
    1 <= count <= 3 && Repeat('*', count) <= s && (count == 3 || |s| == count || s[count] != '*')
  }

  predicate NoRunBefore(s: string, count: nat, before: nat) {
    forall i :: 0 <= i < before ==> !IsMaximalRun(s, i, count)
  }

  predicate Literal(segment: Segment) {
    (segment.Char? && segment.c != '\\') || segment.Escaped?
  }

  /** A segment may stand in front of `rest`. */
  predicate Fits(segment: Segment, rest: string) {
    var s := Source(segment) + rest;
    match segment
    case Char(c) =>
      c != '\\' && c != '`' && forall n :: 1 <= n <= 3 && Opens(s, n) ==> NoneCloses(s[n..], n, |s| + 1)
    case Escaped(_) => true
    case LastBackslash => rest == ""
    case Ticks(count) => count > 0 && !StartsWithBacktick(rest) && NoRunBefore(rest, count, |rest| + 1)
    case Coded(count, body) =>
      var behind := body + Repeat('`', count) + rest;
      && count > 0 && !StartsWithBacktick(behind)
      && IsMaximalRun(behind, |body|, count) && NoRunBefore(behind, count, |body|)
    case Starred(count, inner) =>
      && Opens(s, count) && (forall i :: 0 <= i < |inner| ==> Literal(inner[i]))
      && NoneCloses(Sources(inner) + Repeat('*', count) + rest, count, |Sources(inner)|)
  }

  /** The segments spell the source, each where it may stand. */
  predicate Reads(segments: seq<Segment>, s: string) {
    if segments == [] then s == ""
    else
      && Source(segments[0]) <= s && Fits(segments[0], s[|Source(segments[0])|..])
      && Reads(segments[1..], s[|Source(segments[0])|..])
  }

  // ---------- the searches find the first place that closes ----------

  lemma ShortSuffix(s: string, k: nat, i: nat)
    requires 0 < k <= i <= |s| && k <= 2
    requires if k == 1 then s[0] != '\\' else s[0] == '\\'
    ensures BackslashesBefore(s, i) % 2 == BackslashesBefore(s[k..], i - k) % 2
    decreases i
  {
    if i == k {
      assert BackslashesBefore(s[k..], 0) == 0;
      assert BackslashesBefore(s, 0) == 0;
      assert BackslashesBefore(s, 1) == if s[0] == '\\' then 1 else 0;
    } else {
      assert s[k..][i - k - 1] == s[i - 1];
      ShortSuffix(s, k, i - 1);
    }
  }

  lemma ClosesInSuffix(s: string, k: nat, i: nat, count: nat)
    requires 0 < k <= i <= |s| && k <= 2
    requires if k == 1 then s[0] != '\\' else s[0] == '\\'
    ensures Closes(s, i, count) <==> Closes(s[k..], i - k, count)
  {
    hide BackslashesBefore;
    ShortSuffix(s, k, i);
    if i + count <= |s| {
      assert s[i..i + count] == s[k..][i - k..i - k + count];
    }
  }

  /** The marker search gives the first place where the marker closes, and nothing exactly when there is none. */
  lemma {:induction false} FindMarkerIsFirst(s: string, count: nat)
    requires count > 0
    ensures match FindMarker(s, Repeat('*', count))
      case Some(e) => Closes(s, e, count) && NoneCloses(s, count, e)
      case None => NoneCloses(s, count, |s| + 1)
    decreases |s|
  {
    hide Closes;
    if s == "" {
      ClosesHere(s, count);
    } else {
      var k := if s[0] == '\\' then 2 else 1;
      ClosesHere(s, count);
      if k <= |s| {
        FindMarkerIsFirst(s[k..], count);
      }
      forall i | k <= i <= |s|
        ensures Closes(s, i, count) <==> Closes(s[k..], i - k, count)
      {
        ClosesInSuffix(s, k, i, count);
      }
    }
  }

  lemma ClosesHere(s: string, count: nat)
    requires count > 0
    ensures Closes(s, 0, count) <==> Repeat('*', count) <= s
    ensures s != "" && s[0] == '\\' ==> !Closes(s, 0, count)
    ensures s != "" && s[0] == '\\' ==> !Closes(s, 1, count)
  {
    assert BackslashesBefore(s, 0) == 0;
    if s != "" && s[0] == '\\' {
      assert BackslashesBefore(s, 1) == 1;
    }
  }

  /** The fence search gives the first maximal run of its length, and nothing exactly when there is none. */
  lemma {:induction false} FindRunIsFirst(s: string, count: nat)
    requires count > 0
    ensures match FindRun(s, count)
      case Some(e) => IsMaximalRun(s, e, count) && NoRunBefore(s, count, e)
      case None => NoRunBefore(s, count, |s| + 1)
    decreases |s|
  {
    hide IsMaximalRun, FindRun, LeadingBackticks;
    if s == "" {
      NoRunInNothing(count);
    } else {
      var k := if s[0] == '`' then LeadingBackticks(s) else 1;
      FindRunStep(s, count, k);
      if s[0] == '`' && k == count {
        LeadingIsMaximal(s, count);
      } else {
        FindRunIsFirst(s[k..], count);
        forall i | 0 <= i <= |s|
          ensures IsMaximalRun(s, i, count) <==> k <= i && IsMaximalRun(s[k..], i - k, count)
        {
          RunInSuffix(s, k, i, count);
        }
      }
    }
  }

  lemma NoRunInNothing(count: nat)
    requires count > 0
    ensures FindRun("", count) == None && NoRunBefore("", count, 1)
  {
  }

  lemma RunIsPointwise(s: string, i: nat, count: nat)
    ensures IsMaximalRun(s, i, count) <==>
      (&& i + count <= |s| && (forall j :: i <= j < i + count ==> s[j] == '`')
       && (i > 0 ==> s[i - 1] != '`') && (i + count < |s| ==> s[i + count] != '`'))
  {
    if i + count <= |s| && s[i..i + count] == Repeat('`', count) {
      assert forall j :: i <= j < i + count ==> s[j] == s[i..i + count][j - i];
    }
  }

  lemma RunInSuffix(s: string, k: nat, i: nat, count: nat)
    requires s != "" && k == (if s[0] == '`' then LeadingBackticks(s) else 1) && i <= |s|
    requires count > 0 && !(s[0] == '`' && k == count)
    ensures IsMaximalRun(s, i, count) <==> k <= i && IsMaximalRun(s[k..], i - k, count)
  {
    hide IsMaximalRun, LeadingBackticks;
    RunIsPointwise(s, i, count);
    if k <= i {
      RunIsPointwise(s[k..], i - k, count);
      assert forall j :: k <= j < |s| ==> s[j] == s[k..][j - k];
      assert i == k && i + count <= |s| && (forall j :: i <= j < i + count ==> s[j] == '`') ==> s[k] == '`';
    }
  }

  // ---------- what each segment shows ----------

  lemma SelectedStep(s: string, mask: seq<bool>)
    requires |mask| == |s| > 0
    ensures Selected(s, mask) == (if mask[0] then [s[0]] else "") + Selected(s[1..], mask[1..])
  {
  }

  lemma {:induction false} SelectedConcat(a: string, b: string, x: seq<bool>, y: seq<bool>)
    requires |x| == |a| && |y| == |b|
    ensures Selected(a + b, x + y) == Selected(a, x) + Selected(b, y)
  {
    hide Selected;
    if a == "" {
      assert a + b == b && x + y == y;
      NothingSelected();
    } else {
      SelectedConcat(a[1..], b, x[1..], y);
      assert (a + b)[1..] == a[1..] + b && (x + y)[1..] == x[1..] + y;
      SelectedStep(a, x);
      SelectedStep(a + b, x + y);
      Associates(if x[0] then [a[0]] else "", Selected(a[1..], x[1..]), Selected(b, y));
    }
  }

  lemma NothingSelected()
    ensures Selected("", []) == ""
  {
  }

  lemma {:induction false} SelectedCopies(s: string, kept: bool)
    ensures Selected(s, Copies(kept, |s|)) == if kept then s else ""
  {
    if s != "" {
      SelectedCopies(s[1..], kept);
      assert Copies(kept, |s|)[1..] == Copies(kept, |s| - 1);
    }
  }

  /** Between two runs of markers everything is shown that the mask of the middle selects. */
  lemma SelectedBetween(marker: string, middle: string, mask: seq<bool>)
    requires |mask| == |middle|
    ensures var none := Copies(false, |marker|);
      Selected(marker + middle + marker, none + mask + none) == Selected(middle, mask)
  {
    hide Selected;
    var none := Copies(false, |marker|);
    SelectedConcat(marker + middle, marker, none + mask, none);
    SelectedConcat(marker, middle, none, mask);
    SelectedCopies(marker, false);
    NothingAround(Selected(middle, mask));
  }

  lemma NothingAround(s: string)
    ensures "" + s + "" == s
  {
  }

  lemma ShownIs(segment: Segment)
    ensures match segment
      case Char(c) => Shown(segment) == [c]
      case Escaped(c) => Shown(segment) == [c]
      case LastBackslash => Shown(segment) == "\\"
      case Ticks(count) => Shown(segment) == Repeat('`', count)
      case Coded(_, body) => Shown(segment) == body
      case Starred(_, inner) =>
        |KeptOf(inner)| == |Sources(inner)| && Shown(segment) == Selected(Sources(inner), KeptOf(inner))
  {
    hide Selected;
    assert [true] == Copies(true, 1) && [false] == Copies(false, 1);
    match segment
    case Char(c) => SelectedCopies([c], true);
    case Escaped(c) =>
      SelectedConcat("\\", [c], [false], [true]);
      SelectedCopies("\\", false);
      SelectedCopies([c], true);
      assert ['\\', c] == "\\" + [c] && [false, true] == [false] + [true];
    case LastBackslash => SelectedCopies("\\", true);
    case Ticks(count) => SelectedCopies(Repeat('`', count), true);
    case Coded(count, body) =>
      SelectedBetween(Repeat('`', count), body, Copies(true, |body|));
      SelectedCopies(body, true);
    case Starred(count, inner) =>
      MasksFit(inner);
      SelectedBetween(Repeat('*', count), Sources(inner), KeptOf(inner));
  }

  /** Between stars, what the mask selects is the source without its protecting backslashes. */
  lemma {:induction false} LiteralsUnescape(inner: seq<Segment>)
    requires forall i :: 0 <= i < |inner| ==> Literal(inner[i])
    ensures |KeptOf(inner)| == |Sources(inner)| && Selected(Sources(inner), KeptOf(inner)) == Unescape(Sources(inner))
  {
    MasksFit(inner);
    if inner != [] {
      var first, rest := inner[0], inner[1..];
      LiteralsUnescape(rest);
      MaskFits(first);
      SelectedConcat(Source(first), Sources(rest), Kept(first), KeptOf(rest));
      ShownIs(first);
      var s := Sources(inner);
      assert s[|Source(first)|..] == Sources(rest);
    }
  }

  // ---------- the parser gives what the segments show ----------

  lemma OpensIsLeading(s: string, count: nat)
    requires s != "" && s[0] == '*'
    ensures Opens(s, count) <==> LeadingStars(s) == count
  {
    assert Repeat('*', 1) <= s;
    assert Repeat('*', 2) <= s <==> |s| >= 2 && s[1] == '*';
    assert Repeat('*', 3) <= s <==> |s| >= 3 && s[1] == '*' && s[2] == '*';
  }

  lemma OpensOnlyStars(s: string, count: nat)
    requires Opens(s, count)
    ensures 1 <= count <= 3 && s != "" && s[0] == '*'
  {
    assert s[0] == Repeat('*', count)[0];
  }

  lemma CharToken(c: char, rest: string)
    requires Fits(Char(c), rest)
    ensures NextToken([c] + rest) == Token([c], PLAIN, 1)
  {
    hide FindMarker, FindRun, LeadingStars, Opens, NoneCloses, Unescape, LeadingBackticks;
    var s := [c] + rest;
    if c == '*' {
      var n := LeadingStars(s);
      OpensIsLeading(s, n);
      StarsLead(s);
      FindMarkerIsFirst(s[n..], n);
      assert Source(Char(c)) + rest == s && Opens(s, n);
      assert NoneCloses(s[n..], n, |s| + 1);
      if FindMarker(s[n..], Repeat('*', n)).Some? {
        NotNone(s[n..], n, FindMarker(s[n..], Repeat('*', n)).value, |s| + 1);
      }
    } else {
      NoLeadingStars(s);
    }
  }

  lemma StarsLead(s: string)
    requires s != "" && s[0] == '*'
    ensures LeadingStars(s) > 0
  {
    assert Repeat('*', 1) <= s;
  }

  lemma NotNone(s: string, count: nat, at: nat, before: nat)
    requires Closes(s, at, count) && at < before
    ensures !NoneCloses(s, count, before)
  {
  }

  lemma FirstIsUnique(s: string, count: nat, a: nat, b: nat)
    requires Closes(s, a, count) && NoneCloses(s, count, a) && Closes(s, b, count) && NoneCloses(s, count, b)
    ensures a == b
  {
  }

  lemma StarredToken(count: nat, inner: seq<Segment>, rest: string)
    requires Fits(Starred(count, inner), rest)
    ensures NextToken(Source(Starred(count, inner)) + rest)
      == Token(Unescape(Sources(inner)), InlineStyle(count >= 2, count != 2, false), |Sources(inner)| + 2 * count)
  {
    hide FindMarker, FindRun, LeadingStars, Opens, NoneCloses, Closes, Unescape, LeadingBackticks, Sources;
    var marker, body := Repeat('*', count), Sources(inner);
    var s := Source(Starred(count, inner)) + rest;
    var behind := body + marker + rest;
    OpensOnlyStars(s, count);
    OpensIsLeading(s, count);
    assert s[count..] == behind;
    LiteralsEndEven(inner, marker + rest);
    assert behind == body + (marker + rest);
    assert Closes(behind, |body|, count) by { ClosesAt(behind, |body|, count); }
    FindMarkerIsFirst(behind, count);
    var found := FindMarker(behind, marker);
    if found.None? {
      NotNone(behind, count, |body|, |behind| + 1);
    } else {
      FirstIsUnique(behind, count, found.value, |body|);
    }
    assert s[count..count + |body|] == body;
  }

  lemma ClosesAt(s: string, at: nat, count: nat)
    requires at + count <= |s| && s[at..at + count] == Repeat('*', count) && BackslashesBefore(s, at) % 2 == 0
    ensures Closes(s, at, count)
  {
  }

  /** Characters that stand for themselves or are escaped leave no open backslash. */
  lemma {:induction false} LiteralsEndEven(inner: seq<Segment>, rest: string)
    requires forall i :: 0 <= i < |inner| ==> Literal(inner[i])
    ensures BackslashesBefore(Sources(inner) + rest, |Sources(inner)|) % 2 == 0
    decreases |inner|
  {
    var s := Sources(inner) + rest;
    if inner == [] {
      assert BackslashesBefore(s, 0) == 0;
    } else {
      LiteralsEndEven(inner[1..], rest);
      var k := |Source(inner[0])|;
      assert s[k..] == Sources(inner[1..]) + rest;
      ShortSuffix(s, k, |Sources(inner)|);
    }
  }

  lemma TicksToken(count: nat, rest: string)
    requires Fits(Ticks(count), rest)
    ensures NextToken(Repeat('`', count) + rest) == Token(Repeat('`', count), PLAIN, count)
  {
    hide FindRun, NextToken, IsMaximalRun, LeadingBackticks;
    var s := Repeat('`', count) + rest;
    LeadingBackticksOf(s, count);
    assert s[count..] == rest;
    FindRunIsFirst(rest, count);
    UnmatchedBackticks(s, count);
  }

  lemma CodeToken(count: nat, body: string, rest: string)
    requires Fits(Coded(count, body), rest)
    ensures NextToken(Source(Coded(count, body)) + rest) == Token(body, CODE, |body| + 2 * count)
  {
    hide FindRun, NextToken, IsMaximalRun, LeadingBackticks;
    var behind := body + Repeat('`', count) + rest;
    var s := Source(Coded(count, body)) + rest;
    assert s == Repeat('`', count) + behind;
    LeadingBackticksOf(s, count);
    assert s[count..] == behind;
    FindRunIsFirst(behind, count);
    MatchedBackticks(s, count, |body|);
    assert s[count..count + |body|] == body;
  }

  lemma TokenOf(segment: Segment, rest: string)
    requires Fits(segment, rest)
    ensures NextToken(Source(segment) + rest) == Token(Shown(segment), StyleOf(segment), |Source(segment)|)
  {
    hide NextToken, Shown, Kept, Fits;
    ShownIs(segment);
    match segment
    case Char(c) => CharToken(c, rest);
    case Escaped(c) => BackslashToken(['\\', c] + rest);
    case LastBackslash => LoneBackslash(rest);
    case Ticks(count) => TicksToken(count, rest);
    case Coded(count, body) => CodeToken(count, body, rest);
    case Starred(count, inner) =>
      StarredToken(count, inner, rest);
      assert forall i :: 0 <= i < |inner| ==> Literal(inner[i]) by { FitsLiterals(count, inner, rest); }
      LiteralsUnescape(inner);
  }

  lemma FitsLiterals(count: nat, inner: seq<Segment>, rest: string)
    requires Fits(Starred(count, inner), rest)
    ensures forall i :: 0 <= i < |inner| ==> Literal(inner[i])
  {
  }

  lemma LoneBackslash(rest: string)
    requires Fits(LastBackslash, rest)
    ensures NextToken("\\" + rest) == Token("\\", PLAIN, 1)
  {
    assert "\\" + rest == "\\";
  }

  /** However the source is split into segments that fit, the parser gives what they show. */
  lemma {:induction false} SegmentsMean(s: string, segments: seq<Segment>)
    requires Reads(segments, s)
    ensures ParseInline(s) == Cells(segments)
    decreases |segments|
  {
    hide NextToken, Fits, Shown, StyleOf;
    if segments != [] {
      var first, rest := segments[0], s[|Source(segments[0])|..];
      assert s == Source(first) + rest;
      TokenOf(first, rest);
      SegmentsMean(rest, segments[1..]);
      assert s != "" by { SourceIsLong(first, rest); }
    }
  }

  lemma SourceIsLong(segment: Segment, rest: string)
    requires Fits(segment, rest)
    ensures Source(segment) != ""
  {
  }

  // ---------- every source has such segments ----------

  lemma {:induction false} LiteralsUpTo(s: string, count: nat) returns (inner: seq<Segment>)
    requires count > 0 && FindMarker(s, Repeat('*', count)).Some?
    ensures Sources(inner) == s[..FindMarker(s, Repeat('*', count)).value]
    ensures forall i :: 0 <= i < |inner| ==> Literal(inner[i])
    decreases |s|
  {
    var e := FindMarker(s, Repeat('*', count)).value;
    if e == 0 {
      inner := [];
    } else {
      var k := if s[0] == '\\' then 2 else 1;
      var rest := LiteralsUpTo(s[k..], count);
      var first := if s[0] == '\\' then Escaped(s[1]) else Char(s[0]);
      inner := [first] + rest;
      assert inner[1..] == rest;
      assert s[..e] == s[..k] + s[k..][..e - k];
    }
  }

  lemma NoneBeyond(s: string, count: nat, before: nat)
    requires count > 0 && NoneCloses(s, count, |s| + 1)
    ensures NoneCloses(s, count, before)
  {
    forall i | 0 <= i < before
      ensures !Closes(s, i, count)
    {
      assert i <= |s| || i + count > |s|;
    }
  }

  lemma ClosingStars(s: string, at: nat, count: nat)
    requires Closes(s, at, count)
    ensures at + count <= |s| && s[at..at + count] == Repeat('*', count)
  {
  }

  lemma OpenStays(s: string, count: nat)
    requires Opens(s, count) && NoneCloses(s[count..], count, |s[count..]| + 1)
    ensures forall n :: 1 <= n <= 3 && Opens(s, n) ==> NoneCloses(s[n..], n, |s| + 1)
  {
    hide NoneCloses;
    OpensOnlyStars(s, count);
    OpensIsLeading(s, count);
    NoneBeyond(s[count..], count, |s| + 1);
    forall n | 1 <= n <= 3 && Opens(s, n)
      ensures NoneCloses(s[n..], n, |s| + 1)
    {
      OpensIsLeading(s, n);
    }
  }

  lemma StarSegment(s: string) returns (segment: Segment)
    requires s != "" && s[0] == '*'
    ensures Source(segment) != "" && Source(segment) <= s && Fits(segment, s[|Source(segment)|..])
  {
    hide FindMarker, LeadingStars, Opens, NoneCloses, Closes;
    var n := LeadingStars(s);
    StarsLead(s);
    OpensIsLeading(s, n);
    FindMarkerIsFirst(s[n..], n);
    var found := FindMarker(s[n..], Repeat('*', n));
    if found.Some? {
      var inner := LiteralsUpTo(s[n..], n);
      segment := Starred(n, inner);
      var e := found.value;
      assert s[n..][e..e + n] == Repeat('*', n) by { ClosingStars(s[n..], e, n); }
      assert s == Repeat('*', n) + s[n..][..e] + Repeat('*', n) + s[n + e + n..];
      assert Source(segment) == s[..n + e + n];
      assert s[n..] == Sources(inner) + Repeat('*', n) + s[n + e + n..];
    } else {
      segment := Char('*');
      assert s[1..] == s[|Source(segment)|..] && Source(segment) + s[1..] == s;
      OpenStays(s, n);
    }
  }

  lemma TickSegment(s: string) returns (segment: Segment)
    requires s != "" && s[0] == '`'
    ensures Source(segment) != "" && Source(segment) <= s && Fits(segment, s[|Source(segment)|..])
  {
    hide FindRun, IsMaximalRun;
    var n := LeadingBackticks(s);
    FindRunIsFirst(s[n..], n);
    assert s[..n] == Repeat('`', n);
    var found := FindRun(s[n..], n);
    if found.Some? {
      var e := found.value;
      var body := s[n..n + e];
      segment := Coded(n, body);
      assert s[n + e..n + e + n] == Repeat('`', n) by { RunIsPointwise(s[n..], e, n); }
      assert Source(segment) == s[..n + e + n];
      assert s[n..] == body + Repeat('`', n) + s[n + e + n..];
    } else {
      segment := Ticks(n);
      assert Source(segment) == s[..n];
    }
  }

  lemma SegmentOf(s: string) returns (segment: Segment)
    requires s != ""
    ensures Source(segment) != "" && Source(segment) <= s && Fits(segment, s[|Source(segment)|..])
  {
    if s[0] == '`' {
      segment := TickSegment(s);
    } else if s[0] == '*' {
      segment := StarSegment(s);
    } else if s[0] != '\\' {
      segment := Char(s[0]);
      NothingOpens(s);
      assert [s[0]] + s[1..] == s;
    } else {
      segment := if |s| == 1 then LastBackslash else Escaped(s[1]);
    }
  }

  lemma NothingOpens(s: string)
    requires s != "" && s[0] != '*'
    ensures forall n :: 1 <= n <= 3 ==> !Opens(s, n)
  {
    assert Repeat('*', 3)[0] == Repeat('*', 2)[0] == Repeat('*', 1)[0] == '*';
  }

  lemma {:induction false} SegmentsOf(s: string) returns (segments: seq<Segment>)
    ensures Reads(segments, s)
    decreases |s|
  {
    hide Fits;
    if s == "" {
      segments := [];
    } else {
      var first := SegmentOf(s);
      var rest := SegmentsOf(s[|Source(first)|..]);
      segments := [first] + rest;
      assert segments[1..] == rest;
    }
  }

  // ---------- the meaning of inline source ----------

  /** Inline source parses to some cells exactly when it can be split into fitting segments that show them. */
  lemma MeansExactly(s: string, cells: seq<Cell>)
    ensures ParseInline(s) == cells <==> exists segments :: Reads(segments, s) && Cells(segments) == cells
  {
    hide ParseInline, Reads, Cells;
    var segments := SegmentsOf(s);
    SegmentsMean(s, segments);
    if other :| Reads(other, s) && Cells(other) == cells {
      SegmentsMean(s, other);
    }
  }

  lemma {:induction false} ShownChars(segments: seq<Segment>)
    ensures |KeptOf(segments)| == |Sources(segments)|
    ensures Chars(Cells(segments)) == Selected(Sources(segments), KeptOf(segments))
  {
    hide Source, Kept, Selected, StyleOf;
    if segments == [] {
      SelectedCopies("", true);
      assert Copies(true, 0) == [];
    } else {
      var first, rest := segments[0], segments[1..];
      MaskFits(first);
      ShownChars(rest);
      SelectedConcat(Source(first), Sources(rest), Kept(first), KeptOf(rest));
      assert Shown(first) == Selected(Source(first), Kept(first));
      CharsConcat(Styled(Shown(first), StyleOf(first)), Cells(rest));
      assert Chars(Styled(Shown(first), StyleOf(first))) == Shown(first);
    }
  }

  lemma {:induction false} SegmentsSpell(segments: seq<Segment>, s: string)
    requires Reads(segments, s)
    ensures Sources(segments) == s
    decreases |segments|
  {
    hide Fits, Source;
    if segments != [] {
      var k := |Source(segments[0])|;
      SegmentsSpell(segments[1..], s[k..]);
      assert s == s[..k] + s[k..];
    }
  }

  /** Every character of the source is shown, in order, except markers, fences and protecting backslashes. */
  lemma EveryCharacterIsShown(s: string) returns (segments: seq<Segment>)
    ensures Reads(segments, s) && |KeptOf(segments)| == |s|
    ensures Chars(ParseInline(s)) == Selected(s, KeptOf(segments))
  {
    hide ParseInline, Reads, Cells, KeptOf, Selected, Sources;
    segments := SegmentsOf(s);
    SegmentsMean(s, segments);
    SegmentsSpell(segments, s);
    ShownChars(segments);
  }

  /** Stars in front that nothing closes: one star is shown as it is, and reading goes on behind it. */
  lemma UnclosedStarIsShown(s: string, count: nat)
    requires Opens(s, count) && NoneCloses(s[count..], count, |s|)
    ensures ParseInline(s) == [Cell('*', InlineStyle(false, false, false))] + ParseInline(s[1..])
  {
    hide Closes;
    OpensOnlyStars(s, count);
    OpenStays(s, count);
    assert ['*'] + s[1..] == s;
    CharToken('*', s[1..]);
    assert Styled("*", PLAIN) == [Cell('*', PLAIN)];
  }

  /** Text between one star is italic, between two bold, between three both. */
  lemma StarsStyleText(t: string, rest: string)
    requires t != ""
    ensures ParseInline("*" + Escape(t) + "*" + rest) == Styled(t, InlineStyle(false, true, false)) + ParseInline(rest)
    ensures ParseInline("**" + Escape(t) + "**" + rest)
      == Styled(t, InlineStyle(true, false, false)) + ParseInline(rest)
    ensures ParseInline("***" + Escape(t) + "***" + rest)
      == Styled(t, InlineStyle(true, true, false)) + ParseInline(rest)
  {
    hide ParseInline, Escape;
    assert Repeat('*', 1) == "*" && Repeat('*', 2) == "**" && Repeat('*', 3) == "***";
    ParseStarredPiece(t, InlineStyle(false, true, false), rest);
    ParseStarredPiece(t, InlineStyle(true, false, false), rest);
    ParseStarredPiece(t, InlineStyle(true, true, false), rest);
  }

  // ---------- what is written ----------

  predicate TicksAt(s: string, at: nat, n: nat) {
    at + n <= |s| && forall j :: at <= j < at + n ==> s[j] == '`'
  }

  /** That many backticks in a row. */
  ghost predicate HasTicks(s: string, n: nat) {
    exists at: nat :: TicksAt(s, at, n)
  }

  lemma {:induction false} LongestIsLongest(s: string)
    ensures HasTicks(s, LongestRun(s)) && !HasTicks(s, LongestRun(s) + 1)
  {
    hide TicksAt, LeadingBackticks;
    if s == "" {
      NoTicks();
    } else {
      var lead, later := LeadingBackticks(s), LongestRun(s[1..]);
      LongestIsLongest(s[1..]);
      if lead > later {
        LeadingTicks(s);
      } else {
        var at: nat :| TicksAt(s[1..], at, later);
        TicksInTail(s, at + 1, later);
      }
      var n := LongestRun(s) + 1;
      forall at: nat
        ensures !TicksAt(s, at, n)
      {
        if at == 0 {
          LeadingTicks(s);
          FewerAt(s, 0, n, lead + 1);
        } else {
          TicksInTail(s, at, n);
          FewerAt(s[1..], at - 1, n, later + 1);
        }
      }
    }
  }

  lemma NoTicks()
    ensures HasTicks("", 0) && !HasTicks("", 1)
  {
    assert TicksAt("", 0, 0);
  }

  lemma LeadingTicks(s: string)
    ensures TicksAt(s, 0, LeadingBackticks(s)) && !TicksAt(s, 0, LeadingBackticks(s) + 1)
  {
    hide LeadingBackticks;
  }

  lemma TicksInTail(s: string, at: nat, n: nat)
    requires s != "" && at > 0
    ensures TicksAt(s, at, n) <==> TicksAt(s[1..], at - 1, n)
  {
    if TicksAt(s[1..], at - 1, n) {
      assert forall j :: at <= j < at + n ==> s[j] == s[1..][j - 1];
    }
  }

  lemma FewerAt(s: string, at: nat, n: nat, m: nat)
    requires m <= n
    ensures TicksAt(s, at, n) ==> TicksAt(s, at, m)
  {
  }

  /** Code is written between fences one longer than its longest run of backticks, and nothing in it is escaped. */
  lemma CodeIsFenced(s: string, longest: nat)
    requires s != "" && HasTicks(s, longest) && !HasTicks(s, longest + 1)
    ensures EncodePiece(s, CODE) == Repeat('`', longest + 1) + s + Repeat('`', longest + 1)
  {
    hide LongestRun, TicksAt;
    LongestIsLongest(s);
    var mine: nat :| TicksAt(s, mine, longest);
    var own: nat :| TicksAt(s, own, LongestRun(s));
    if longest < LongestRun(s) {
      FewerAt(s, own, LongestRun(s), longest + 1);
    } else if LongestRun(s) < longest {
      FewerAt(s, mine, longest, LongestRun(s) + 1);
    }
  }

  function Specials(s: string): nat {
    if s == "" then 0 else (if s[0] == '\\' || s[0] == '*' || s[0] == '`' then 1 else 0) + Specials(s[1..])
  }

  /** Text that is no code costs one backslash for each backslash, star and backtick, and its markers. */
  lemma TextIsEscaped(s: string, style: InlineStyle)
    requires s != "" && !style.code
    ensures |EncodePiece(s, style)|
      == |s| + Specials(s) + (if style.bold then 4 else 0) + (if style.italic then 2 else 0)
  {
    EscapedLength(s);
  }

  lemma {:induction false} EscapedLength(s: string)
    ensures |Escape(s)| == |s| + Specials(s)
  {
    if s != "" {
      EscapedLength(s[1..]);
    }
  }
}
