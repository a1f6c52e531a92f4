// Marks of extension Markdown that open nothing are text, and autolinks show their target
// (crates/key-extension-gpui/src/safe_markdown.rs).
module SafeInlineMeaning {
  import opened Collections
  import opened Options
  import opened SafeHtml
  import opened SafeMarkdown
  import opened InlineTheorems
  import opened Unicode

  /** No mark from `from` on. */
  predicate NoneFrom(s: string, from: nat, mark: string)
    requires from <= |s|
  {
    forall j :: from <= j <= |s| ==> !Found(s, j, mark)
  }

  /** Nothing that starts here is closed further on: no emphasis, no code, no link, no autolink, no escape. */
  predicate OpensNothing(s: string, i: nat)
    requires i < |s|
  {
    && (s[i] == '\\' ==> i + 1 == |s| || !IsAsciiPunctuation(s[i + 1]))
    && (s[i] == '[' || (s[i] == '!' && i + 1 < |s| && s[i + 1] == '[') ==> ']' !in s[i..])
    && (match InlineDelimiter(s, i)
        case Some(Delimiter(mark, _)) => NoneFrom(s, i + |mark|, mark)
        case None => true)
    && (s[i] == '`' ==> var n := RunLength(s, i, '`'); n > 0 && NoneFrom(s, i + n, s[i..i + n]))
    && (s[i] == '<' ==> '>' !in s[i..])
  }

  lemma UnclosedSearch(s: string, from: nat, mark: string)
    requires from <= |s| && mark != "" && NoneFrom(s, from, mark)
    ensures FindUnescaped(s, from, mark).None?
  {
    hide FindUnescaped, Found;
  }

  lemma NoBracketCloses(s: string, index: nat, image: bool)
    requires index + (if image then 2 else 1) <= |s| && ']' !in s[index..]
    ensures BracketedReference(s, index, image).None?
  {
    hide FindBalanced;
    Nowhere(s, index, ']');
  }

  lemma NoAutolinkHere(s: string, index: nat, nodes: seq<SafeInline>, budget: Budget)
    requires index < |s| && (s[index] == '<' ==> '>' !in s[index..])
    ensures AutolinkAt(s, index, nodes, budget).0.None?
  {
    hide FindText, LooksLikeAutolink;
    if s[index] == '<' {
      Nowhere(s, index, '>');
      NotFoundAhead(s, index + 1, '>');
    }
  }

  lemma Nowhere(s: string, index: nat, c: char)
    requires index <= |s| && c !in s[index..]
    ensures forall j :: index <= j < |s| ==> s[j] != c
  {
    forall j | index <= j < |s|
      ensures s[j] != c
    {
      assert s[index..][j - index] == s[j];
    }
  }

  lemma {:induction false} NotFoundAhead(s: string, from: nat, c: char)
    requires from <= |s| && forall j :: from <= j < |s| ==> s[j] != c
    ensures FindText(s, from, [c]).None?
    decreases |s| - from
  {
    NotFoundBy(s, from, [c], 0);
    if from < |s| {
      NotFoundAhead(s, from + 1, c);
    }
  }

  lemma NoLinkOpens(s: string, index: nat, nodes: seq<SafeInline>, depth: nat, budget: Budget)
    requires index < |s| && depth < MAX_DEPTH
    requires s[index] == '[' || (s[index] == '!' && index + 1 < |s| && s[index + 1] == '[') ==> ']' !in s[index..]
    ensures LinkAt(s, index, nodes, depth, budget).0.None?
  {
    hide BracketedReference, InertLink, InertImage;
    if Found(s, index, "![") {
      FoundBracket(s, index);
      NoBracketCloses(s, index, true);
    } else if s[index] == '[' {
      NoBracketCloses(s, index, false);
    }
  }

  lemma FoundBracket(s: string, index: nat)
    requires index <= |s| && Found(s, index, "![")
    ensures index + 2 <= |s| && s[index] == '!' && s[index + 1] == '['
  {
  }

  lemma NothingOpens(s: string, index: nat, nodes: seq<SafeInline>, depth: nat, budget: Budget)
    requires index < |s| && depth < MAX_DEPTH && OpensNothing(s, index)
    ensures ConstructAt(s, index, nodes, depth, budget).0.None? && !EscapesAt(s, index)
  {
    hide LinkAt, AutolinkAt, FindUnescaped, InlineDelimiter, NoneFrom, StyledContent, IsAsciiPunctuation;
    NoLinkOpens(s, index, nodes, depth, budget);
    var b1 := LinkAt(s, index, nodes, depth, budget).1;
    match InlineDelimiter(s, index) {
      case Some(Delimiter(mark, _)) => UnclosedSearch(s, index + |mark|, mark);
      case None =>
    }
    var b2 := StyledAt(s, index, nodes, depth, b1).1;
    if s[index] == '`' {
      var n := RunLength(s, index, '`');
      UnclosedSearch(s, index + n, s[index..index + n]);
    }
    NoAutolinkHere(s, index, nodes, CodeAt(s, index, nodes, b2).1);
  }

  lemma {:induction false} UnopenedFrom(s: string, index: nat, nodes: seq<SafeInline>, depth: nat, budget: Budget)
    requires index <= |s| && depth < MAX_DEPTH && forall i :: index <= i < |s| ==> OpensNothing(s, i)
    ensures ParseFrom(s, index, nodes, depth, budget).0 == Shown(nodes, s[index..])
    decreases |s| - index
  {
    hide ParseFrom, ConstructAt, OpensNothing, PushText, EscapesAt;
    if index == |s| {
      ParseFromEnd(s, nodes, depth, budget);
    } else {
      NothingOpens(s, index, nodes, depth, budget);
      StepOverChar(s, index, nodes, depth, budget);
      var next := if s[index] == '\n' then nodes + [LineBreak] else PushText(nodes, [s[index]]);
      UnopenedFrom(s, index + 1, next, depth, ConstructAt(s, index, nodes, depth, budget).1);
      assert s[index..][0] == s[index] && s[index..][1..] == s[index + 1..];
    }
  }

  /** Text in which nothing that opens is closed is shown as it is, marks and backslashes included, at any budget. */
  lemma UnopenedIsShown(s: string, depth: nat, budget: Budget)
    requires depth < MAX_DEPTH && forall i :: 0 <= i < |s| ==> OpensNothing(s, i)
    ensures ParseInlines(s, depth, budget).0 == Shown([], s)
    ensures Plain(ParseInlines(s, depth, budget).0) == s
  {
    hide ParseFrom, OpensNothing, Plain;
    ParseInlinesStarts(s, depth, budget);
    UnopenedFrom(s, 0, [], depth, budget);
    assert s[0..] == s;
    ShownIsText([], s);
    PlainOfNothing();
  }

  /** Below the last level the source is shown as it is, backslashes included, and costs nothing. */
  lemma DeepSourceIsShown(s: string, depth: nat, budget: Budget)
    requires depth >= 16
    ensures Plain(ParseInlines(s, depth, budget).0) == s && ParseInlines(s, depth, budget).1 == budget
  {
    assert [Text(s)][1..] == [] && Plain([]) == "";
    assert s + "" == s;
  }

  /** Text without the backslashes in front of punctuation. */
  function Unquoted(s: string): string {
    if s == "" then ""
    else if |s| > 1 && s[0] == '\\' && IsAsciiPunctuation(s[1]) then [s[1]] + Unquoted(s[2..])
    else [s[0]] + Unquoted(s[1..])
  }

  lemma {:induction false} SpentFrom(s: string, index: nat, nodes: seq<SafeInline>, depth: nat)
    requires index <= |s| && depth < MAX_DEPTH
    ensures ParseFrom(s, index, nodes, depth, Budget(0, 0, 0)).0 == Shown(nodes, Unquoted(s[index..]))
    decreases |s| - index
  {
    hide ParseFrom, ConstructAt, PushText, IsAsciiPunctuation;
    var spent := Budget(0, 0, 0);
    if index == |s| {
      ParseFromEnd(s, nodes, depth, spent);
    } else if EscapesAt(s, index) {
      StepOverEscape(s, index, nodes, depth, spent);
      SpentFrom(s, index + 2, PushText(nodes, [s[index + 1]]), depth);
      assert s[index..][2..] == s[index + 2..];
      BreakIsNoMark();
    } else {
      NothingLeft(s, index, nodes, depth);
      StepOverChar(s, index, nodes, depth, spent);
      SpentFrom(s, index + 1, if s[index] == '\n' then nodes + [LineBreak] else PushText(nodes, [s[index]]), depth);
      assert s[index..][1..] == s[index + 1..];
    }
  }

  lemma BreakIsNoMark()
    ensures !IsAsciiPunctuation('\n')
  {
  }

  lemma NothingLeft(s: string, index: nat, nodes: seq<SafeInline>, depth: nat)
    requires index < |s| && depth < MAX_DEPTH
    ensures ConstructAt(s, index, nodes, depth, Budget(0, 0, 0)) == (None, Budget(0, 0, 0))
  {
  }

  /** Once all scans are spent the rest is text: every mark is shown, and only escapes are undone. */
  lemma SpentBudgetShowsText(s: string, depth: nat)
    requires depth < MAX_DEPTH
    ensures Plain(ParseInlines(s, depth, Budget(0, 0, 0)).0) == Unquoted(s)
  {
    hide ParseFrom, Plain;
    ParseInlinesStarts(s, depth, Budget(0, 0, 0));
    SpentFrom(s, 0, [], depth);
    assert s[0..] == s;
    ShownIsText([], Unquoted(s));
    PlainOfNothing();
  }

  /** A target in angle brackets is shown as text, if it looks like one. */
  lemma AutolinkIsShown(target: string, depth: nat, budget: Budget)
    requires '>' !in target && target != "" && depth < MAX_DEPTH && budget.autolinks > 0
    requires LooksLikeAutolink(target)
    ensures ParseInlines("<" + target + ">", depth, budget).0 == [Text(target)]
  {
    hide ParseFrom, ParseInlines, LinkAt, StyledAt, LooksLikeAutolink, Found, FindText, ConstructAt;
    var s := "<" + target + ">";
    ParseInlinesStarts(s, depth, budget);
    NoLinkHere(s, 0, [], depth, budget);
    NoDelimiterHere(s, [], depth, budget);
    TargetInside("<", target, ">");
    FirstEnd(s, 1, |target| + 1);
    AutolinkConstruct(s, depth, budget, |target| + 1);
    StepOverConstruct(s, 0, [], depth, budget);
    ParseFromEnd(s, PushText([], target), depth, budget.(autolinks := budget.autolinks - 1));
  }

  lemma NoDelimiterHere(s: string, nodes: seq<SafeInline>, depth: nat, budget: Budget)
    requires s != "" && s[0] == '<' && depth < MAX_DEPTH
    ensures StyledAt(s, 0, nodes, depth, budget) == (None, budget)
  {
    hide FindUnescaped, StyledContent;
  }

  lemma {:induction false} FirstEnd(s: string, from: nat, end: nat)
    requires from <= end < |s| && s[end] == '>' && forall i :: from <= i < end ==> s[i] != '>'
    ensures FindText(s, from, ">") == Some(end)
    decreases end - from
  {
    if from < end {
      NotFoundBy(s, from, ">", 0);
      FirstEnd(s, from + 1, end);
    } else {
      assert s[from..][..1] == ">";
    }
  }

  lemma TargetInside(open: string, target: string, close: string)
    requires |open| == 1 && close == ">" && '>' !in target
    ensures var s := open + target + close;
      && |s| == |target| + 2 && s[1..|target| + 1] == target && s[|target| + 1] == '>'
      && forall i :: 1 <= i < |target| + 1 ==> s[i] != '>'
  {
    var s := open + target + close;
    forall i | 1 <= i < |target| + 1
      ensures s[i] != '>'
    {
      assert s[i] == target[i - 1];
    }
  }

  lemma AutolinkConstruct(s: string, depth: nat, budget: Budget, end: nat)
    requires s != "" && s[0] == '<' && depth < MAX_DEPTH && budget.autolinks > 0
    requires FindText(s, 1, ">") == Some(end) && end + 1 == |s| && LooksLikeAutolink(s[1..end])
    requires LinkAt(s, 0, [], depth, budget) == (None, budget) && StyledAt(s, 0, [], depth, budget) == (None, budget)
    ensures !EscapesAt(s, 0) && ConstructAt(s, 0, [], depth, budget).0
      == Some(Progress(PushText([], s[1..end]), |s|, budget.(autolinks := budget.autolinks - 1)))
  {
    hide LinkAt, StyledAt, LooksLikeAutolink, FindText;
  }

  /** What looks like a target: five schemes in any case, or an address without white space. */
  lemma TargetsLookLikeLinks(rest: string)
    ensures LooksLikeAutolink("http://" + rest) && LooksLikeAutolink("https://" + rest)
    ensures LooksLikeAutolink("mailto:" + rest) && LooksLikeAutolink("file:" + rest)
      && LooksLikeAutolink("data:" + rest)
    ensures LooksLikeAutolink("HTTPS://" + rest)
    ensures (forall i :: 0 <= i < |rest| ==> !IsWhitespace(rest[i])) && '@' in rest && '.' in rest ==>
      LooksLikeAutolink(rest)
  {
    assert "http://" <= LowerAscii("http://" + rest);
    assert "https://" <= LowerAscii("https://" + rest) && "https://" <= LowerAscii("HTTPS://" + rest);
    assert "mailto:" <= LowerAscii("mailto:" + rest) && "file:" <= LowerAscii("file:" + rest);
    assert "data:" <= LowerAscii("data:" + rest);
  }

  // ---------- white space around ----------

  lemma {:induction false} TrimStartAround(before: string, t: string)
    requires IsBlank(before) && (t != "" ==> !IsWhitespace(t[0]))
    ensures TrimStart(before + t) == t
  {
    if before == "" {
      assert before + t == t;
    } else {
      assert (before + t)[1..] == before[1..] + t;
      TrimStartAround(before[1..], t);
    }
  }

  lemma {:induction false} TrimEndAround(t: string, behind: string)
    requires IsBlank(behind) && (t != "" ==> !IsWhitespace(t[|t| - 1]))
    ensures TrimEnd(t + behind) == t
    decreases |behind|
  {
    var s := t + behind;
    if behind == "" {
      assert s == t;
    } else {
      assert s[|s| - 1] == behind[|behind| - 1] && s[..|s| - 1] == t + behind[..|behind| - 1];
      TrimEndAround(t, behind[..|behind| - 1]);
    }
  }

  /** Trimming takes the white space on both sides and nothing else. */
  lemma TrimAround(before: string, t: string, behind: string)
    requires IsBlank(before) && IsBlank(behind)
    requires t != "" ==> !IsWhitespace(t[0]) && !IsWhitespace(t[|t| - 1])
    ensures Trim(before + t + behind) == t
  {
    if t == "" {
      var s := before + t + behind;
      assert s + "" == s;
      TrimStartAround(s, "");
      assert TrimEnd("") == "";
    } else {
      assert before + t + behind == before + (t + behind);
      TrimStartAround(before, t + behind);
      TrimEndAround(t, behind);
    }
  }
}
