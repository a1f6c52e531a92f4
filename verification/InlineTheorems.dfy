// What the inline parser of extension Markdown gives back: bounded nesting, escaped text as it is,
// and delimiters, code and links around it (crates/key-extension-gpui/src/safe_markdown.rs).
module InlineTheorems {
  import opened Collections
  import opened Options
  import InlineMarkdown
  import opened SafeHtml
  import opened SafeMarkdown
  import opened Unicode

  // ---------- nesting ----------

  function NodeHeight(node: SafeInline): nat
    decreases node, 1
  {
    match node
    case Emphasis(content) => 1 + Height(content)
    case Strong(content) => 1 + Height(content)
    case Strikethrough(content) => 1 + Height(content)
    case _ => 0
  }

  function Height(nodes: seq<SafeInline>): nat
    decreases nodes, 0
  {
    if nodes == [] then 0 else Max(NodeHeight(nodes[0]), Height(nodes[1..]))
  }

  lemma {:induction false} HeightOfConcat(a: seq<SafeInline>, b: seq<SafeInline>)
    ensures Height(a + b) == Max(Height(a), Height(b))
  {
    if a == [] {
      assert a + b == b;
    } else {
      HeightOfConcat(a[1..], b);
      assert (a + b)[1..] == a[1..] + b;
    }
  }

  lemma HeightOfOne(node: SafeInline)
    ensures Height([node]) == NodeHeight(node)
  {
    assert [node][1..] == [];
  }

  lemma HeightOfPush(nodes: seq<SafeInline>, text: string)
    ensures Height(PushText(nodes, text)) == Height(nodes)
  {
    if text != "" {
      HeightOfOne(Text(text));
      HeightOfConcat(nodes, [Text(text)]);
      if nodes != [] && nodes[|nodes| - 1].Text? {
        var front, last := nodes[..|nodes| - 1], nodes[|nodes| - 1];
        var longer := Text(last.text + text);
        assert nodes == front + [last] && PushText(nodes, text) == front + [longer];
        HeightOfConcat(front, [last]);
        HeightOfConcat(front, [longer]);
        HeightOfOne(last);
        HeightOfOne(longer);
      }
    }
  }

  lemma HeightOfTarget(nodes: seq<SafeInline>, destination: string)
    ensures Height(Target(nodes, destination)) == Height(nodes)
  {
    hide Height, PushText;
    HeightOfPush(nodes, " (");
    HeightOfConcat(PushText(nodes, " ("), [Code(destination)]);
    HeightOfOne(Code(destination));
    HeightOfPush(PushText(nodes, " (") + [Code(destination)], ")");
  }

  /** Nesting never exceeds what is left below the maximum depth. */
  lemma {:induction false} NestingIsBounded(s: string, depth: nat, budget: Budget)
    requires depth <= MAX_DEPTH
    ensures Height(ParseInlines(s, depth, budget).0) <= MAX_DEPTH - depth
    decreases MAX_DEPTH - depth, 2, 0
  {
    hide ParseFrom;
    if depth == MAX_DEPTH {
      HeightOfOne(Text(s));
    } else {
      ParseFromHeight(s, 0, [], depth, budget);
    }
  }

  lemma {:induction false} ParseFromHeight(s: string, index: nat, nodes: seq<SafeInline>, depth: nat, budget: Budget)
    requires index <= |s| && depth < MAX_DEPTH && Height(nodes) <= MAX_DEPTH - depth
    ensures Height(ParseFrom(s, index, nodes, depth, budget).0) <= MAX_DEPTH - depth
    decreases MAX_DEPTH - depth, 1, |s| - index
  {
    hide ConstructAt, PushText, Height;
    if index == |s| {
      ParseFromEnd(s, nodes, depth, budget);
    } else if EscapesAt(s, index) {
      StepOverEscape(s, index, nodes, depth, budget);
      HeightOfPush(nodes, [s[index + 1]]);
      ParseFromHeight(s, index + 2, PushText(nodes, [s[index + 1]]), depth, budget);
    } else {
      var (construct, left) := ConstructAt(s, index, nodes, depth, budget);
      if construct.Some? {
        StepOverConstruct(s, index, nodes, depth, budget);
        ConstructHeight(s, index, nodes, depth, budget);
        var p := construct.value;
        ParseFromHeight(s, p.next, p.nodes, depth, p.budget);
      } else {
        StepOverChar(s, index, nodes, depth, budget);
        HeightOfPush(nodes, [s[index]]);
        HeightOfOne(LineBreak);
        HeightOfConcat(nodes, [LineBreak]);
        ParseFromHeight(s, index + 1, if s[index] == '\n' then nodes + [LineBreak] else PushText(nodes, [s[index]]),
            depth, left);
      }
    }
  }

  lemma {:induction false} ConstructHeight(s: string, index: nat, nodes: seq<SafeInline>, depth: nat, budget: Budget)
    requires index < |s| && depth < MAX_DEPTH && Height(nodes) <= MAX_DEPTH - depth
    requires ConstructAt(s, index, nodes, depth, budget).0.Some?
    ensures Height(ConstructAt(s, index, nodes, depth, budget).0.value.nodes) <= MAX_DEPTH - depth
    decreases MAX_DEPTH - depth, 0, 2
  {
    hide LinkAt, StyledAt, CodeAt, AutolinkAt, Height;
    var (link, b1) := LinkAt(s, index, nodes, depth, budget);
    if link.Some? {
      LinkHeight(s, index, nodes, depth, budget);
    } else {
      var (styled, b2) := StyledAt(s, index, nodes, depth, b1);
      if styled.Some? {
        StyledHeight(s, index, nodes, depth, b1);
      } else {
        var (code, b3) := CodeAt(s, index, nodes, b2);
        if code.Some? {
          CodeHeight(s, index, nodes, b2);
        } else {
          AutolinkHeight(s, index, nodes, b3);
        }
      }
    }
  }

  lemma CodeHeight(s: string, index: nat, nodes: seq<SafeInline>, budget: Budget)
    requires index < |s| && CodeAt(s, index, nodes, budget).0.Some?
    ensures Height(CodeAt(s, index, nodes, budget).0.value.nodes) == Height(nodes)
  {
    hide Height, FindUnescaped;
    var node := CodeAt(s, index, nodes, budget).0.value.nodes[|nodes|];
    HeightOfOne(node);
    HeightOfConcat(nodes, [node]);
  }

  lemma AutolinkHeight(s: string, index: nat, nodes: seq<SafeInline>, budget: Budget)
    requires index < |s| && AutolinkAt(s, index, nodes, budget).0.Some?
    ensures Height(AutolinkAt(s, index, nodes, budget).0.value.nodes) == Height(nodes)
  {
    hide Height, PushText;
    HeightOfPush(nodes, s[index + 1..FindText(s, index + 1, ">").value]);
  }

  lemma {:induction false} StyledHeight(s: string, index: nat, nodes: seq<SafeInline>, depth: nat, budget: Budget)
    requires index < |s| && depth < MAX_DEPTH && Height(nodes) <= MAX_DEPTH - depth
    requires StyledAt(s, index, nodes, depth, budget).0.Some?
    ensures Height(StyledAt(s, index, nodes, depth, budget).0.value.nodes) <= MAX_DEPTH - depth
    decreases MAX_DEPTH - depth, 0, 1
  {
    hide Height, FindUnescaped, InlineDelimiter, ParseInlines;
    var left := budget.(delimiters := budget.delimiters - 1);
    var Delimiter(mark, style) := InlineDelimiter(s, index).value;
    var inside := s[index + |mark|..FindUnescaped(s, index + |mark|, mark).value];
    NestingIsBounded(inside, depth + 1, left);
    var node := Wrap(style, ParseInlines(inside, depth + 1, left).0);
    assert NodeHeight(node) <= MAX_DEPTH - depth;
    HeightOfOne(node);
    HeightOfConcat(nodes, [node]);
  }

  lemma {:induction false} LinkHeight(s: string, index: nat, nodes: seq<SafeInline>, depth: nat, budget: Budget)
    requires index < |s| && depth < MAX_DEPTH && Height(nodes) <= MAX_DEPTH - depth
    requires LinkAt(s, index, nodes, depth, budget).0.Some?
    ensures Height(LinkAt(s, index, nodes, depth, budget).0.value.nodes) <= MAX_DEPTH - depth
    decreases MAX_DEPTH - depth, 0, 1
  {
    hide Height, BracketedReference, ParseInlines, PushText, Target;
    var left := budget.(references := budget.references - 1);
    var reference := BracketedReference(s, index, Found(s, index, "![")).value;
    NestingIsBounded(reference.caption, depth + 1, left);
    var inner := ParseInlines(reference.caption, depth + 1, left).0;
    HeightOfPush(nodes, reference.destination);
    HeightOfConcat(nodes, inner);
    HeightOfTarget(nodes + inner, reference.destination);
    var announced := PushText(nodes, "Image: ");
    HeightOfPush(nodes, "Image: ");
    HeightOfPush(announced, "unnamed");
    HeightOfTarget(PushText(announced, "unnamed"), reference.destination);
    HeightOfConcat(announced, inner);
    HeightOfTarget(announced + inner, reference.destination);
  }

  // ---------- what the search for a closing mark finds ----------

  predicate UnescapedAt(s: string, at: nat, mark: string)
    requires at <= |s|
  {
    Found(s, at, mark) && BackslashesBefore(s, at) % 2 == 0
  }

  /** An unescaped occurrence that no escaped occurrence, read from `from` on, overlaps. */
  predicate CleanAt(s: string, from: nat, at: nat, mark: string)
    requires from <= at <= |s|
  {
    UnescapedAt(s, at, mark) && forall p :: from <= p < at < p + |mark| ==> !EscapedAt(s, p, mark)
  }

  predicate EscapedAt(s: string, at: nat, mark: string)
    requires at <= |s|
  {
    Found(s, at, mark) && BackslashesBefore(s, at) % 2 == 1
  }

  /** The closing mark found is the first clean occurrence, and there is none exactly when nothing is found. */
  lemma {:induction false} ClosesAtFirstClean(s: string, from: nat, mark: string)
    requires from <= |s| && mark != "" && '\\' !in mark
    ensures match FindUnescaped(s, from, mark)
      case Some(at) => CleanAt(s, from, at, mark) && forall i :: from <= i < at ==> !CleanAt(s, from, i, mark)
      case None => forall i :: from <= i <= |s| ==> !CleanAt(s, from, i, mark)
    decreases |s| - from
  {
    hide FindText, FindUnescaped, Found, BackslashesBefore;
    FindUnescapedStep(s, from, mark);
    FirstOccurrence(s, from, mark);
    var found := FindText(s, from, mark);
    if found.Some? && BackslashesBefore(s, found.value) % 2 != 0 {
      var f := found.value;
      ClosesAtFirstClean(s, f + |mark|, mark);
      forall i | from <= i <= |s|
        ensures CleanAt(s, from, i, mark) <==> i >= f + |mark| && CleanAt(s, f + |mark|, i, mark)
      {
        CleanBeyondEscaped(s, from, f, i, mark);
      }
    }
  }

  /** Behind the first occurrence, if that is escaped, the same occurrences are clean. */
  lemma CleanBeyondEscaped(s: string, from: nat, f: nat, i: nat, mark: string)
    requires from <= f && f + |mark| <= |s| && mark != "" && '\\' !in mark && EscapedAt(s, f, mark)
    requires from <= i <= |s| && forall p :: from <= p < f ==> !Found(s, p, mark)
    ensures CleanAt(s, from, i, mark) <==> i >= f + |mark| && CleanAt(s, f + |mark|, i, mark)
  {
    hide Found, BackslashesBefore;
    if i >= f + |mark| && CleanAt(s, f + |mark|, i, mark) {
      forall p | from <= p < i < p + |mark|
        ensures !EscapedAt(s, p, mark)
      {
        if f < p < f + |mark| {
          InsideMark(s, f, p, mark);
        }
      }
    }
  }

  lemma InsideMark(s: string, f: nat, p: nat, mark: string)
    requires f < p < f + |mark| && f + |mark| <= |s| && '\\' !in mark && Found(s, f, mark)
    ensures BackslashesBefore(s, p) == 0
  {
    assert s[p - 1] == s[f..][p - 1 - f] == mark[p - 1 - f];
  }

  /** The first unescaped occurrence closes the mark exactly when it is clean; for one character it always is. */
  lemma FirstUnescapedCloses(s: string, from: nat, at: nat, mark: string)
    requires mark != "" && '\\' !in mark && from <= at <= |s|
    requires UnescapedAt(s, at, mark) && forall i :: from <= i < at ==> !UnescapedAt(s, i, mark)
    ensures FindUnescaped(s, from, mark) == Some(at) <==> CleanAt(s, from, at, mark)
    ensures |mark| == 1 ==> CleanAt(s, from, at, mark)
  {
    hide FindUnescaped, Found, BackslashesBefore;
    ClosesAtFirstClean(s, from, mark);
  }

  /** A mark of one character closes at its first unescaped occurrence, if there is one. */
  lemma {:induction false} SingleMarkClosesFirst(s: string, from: nat, mark: char)
    requires from <= |s|
    ensures match FindUnescaped(s, from, [mark])
      case Some(at) => UnescapedAt(s, at, [mark]) && forall i :: from <= i < at ==> !UnescapedAt(s, i, [mark])
      case None => forall i :: from <= i <= |s| ==> !UnescapedAt(s, i, [mark])
    decreases |s| - from
  {
    hide FindText, FindUnescaped, Found, BackslashesBefore;
    FindUnescapedStep(s, from, [mark]);
    FirstOccurrence(s, from, [mark]);
    var found := FindText(s, from, [mark]);
    if found.Some? && BackslashesBefore(s, found.value) % 2 != 0 {
      SingleMarkClosesFirst(s, found.value + 1, mark);
    }
  }

  lemma {:induction false} FirstOccurrence(s: string, from: nat, mark: string)
    requires from <= |s| && mark != ""
    ensures match FindText(s, from, mark)
      case Some(at) => Found(s, at, mark) && forall i :: from <= i < at ==> !Found(s, i, mark)
      case None => forall i :: from <= i <= |s| ==> !Found(s, i, mark)
    decreases |s| - from
  {
    hide Found;
    if !Found(s, from, mark) && from < |s| {
      FirstOccurrence(s, from + 1, mark);
    }
  }

  /** The smallest input where the first unescaped occurrence is not clean, and so nothing is found. */
  lemma DoubleMarkCanBeMissed()
    ensures UnescapedAt("\\***", 2, "**") && FindUnescaped("\\***", 0, "**") == None
  {
    hide FindUnescaped, Found, BackslashesBefore;
    var s := "\\***";
    NotFoundBy(s, 0, "**", 0);
    NotFoundBy(s, 3, "**", 1);
    NotFoundBy(s, 4, "**", 0);
    assert s[1..][..2] == "**" && s[2..][..2] == "**";
    FoundBy(s, 1, "**");
    FoundBy(s, 2, "**");
    CountsOfExample();
    assert EscapedAt(s, 1, "**");
    forall i | 0 <= i <= |s|
      ensures !CleanAt(s, 0, i, "**")
    {
      assert |s| == 4 && |"**"| == 2;
    }
    ClosesAtFirstClean(s, 0, "**");
  }

  lemma CountsOfExample()
    ensures BackslashesBefore("\\***", 1) == 1 && BackslashesBefore("\\***", 2) == 0
  {
    assert BackslashesBefore("\\***", 0) == 0;
  }

  // ---------- text that a caller escapes ----------

  function Quoted(c: char): string { if IsAsciiPunctuation(c) then ['\\', c] else [c] }

  /** Markdown that stands for `t` literally: a backslash before all ASCII punctuation. */
  function EscapeAll(t: string): string {
    if t == "" then "" else Quoted(t[0]) + EscapeAll(t[1..])
  }

  /** The literal inline text: one text node a line, with breaks between. */
  function Shown(nodes: seq<SafeInline>, t: string): seq<SafeInline>
    decreases |t|
  {
    if t == "" then nodes
    else Shown(if t[0] == '\n' then nodes + [LineBreak] else PushText(nodes, [t[0]]), t[1..])
  }

  lemma {:induction false} PlainConcat(a: seq<SafeInline>, b: seq<SafeInline>)
    ensures Plain(a + b) == Plain(a) + Plain(b)
  {
    hide PlainOne;
    if a == [] {
      assert a + b == b;
    } else {
      PlainConcat(a[1..], b);
      assert (a + b)[1..] == a[1..] + b && (a + b)[0] == a[0];
      assert PlainOne(a[0]) + (Plain(a[1..]) + Plain(b)) == (PlainOne(a[0]) + Plain(a[1..])) + Plain(b);
    }
  }

  lemma PlainOfOne(node: SafeInline)
    ensures Plain([node]) == PlainOne(node)
  {
    assert [node][1..] == [];
  }

  lemma PlainOfPush(nodes: seq<SafeInline>, text: string)
    ensures Plain(PushText(nodes, text)) == Plain(nodes) + text
  {
    if text != "" {
      PlainOfOne(Text(text));
      PlainConcat(nodes, [Text(text)]);
      if nodes != [] && nodes[|nodes| - 1].Text? {
        var front, last := nodes[..|nodes| - 1], nodes[|nodes| - 1];
        var longer := Text(last.text + text);
        assert nodes == front + [last] && PushText(nodes, text) == front + [longer];
        PlainConcat(front, [last]);
        PlainConcat(front, [longer]);
        PlainOfOne(last);
        PlainOfOne(longer);
      }
    }
  }

  lemma {:induction false} ShownIsText(nodes: seq<SafeInline>, t: string)
    ensures Plain(Shown(nodes, t)) == Plain(nodes) + t
    decreases |t|
  {
    hide Plain, PushText;
    if t != "" {
      var next := if t[0] == '\n' then nodes + [LineBreak] else PushText(nodes, [t[0]]);
      ShownIsText(next, t[1..]);
      PlainOfPush(nodes, [t[0]]);
      PlainConcat(nodes, [LineBreak]);
      PlainOfOne(LineBreak);
      assert PlainOne(LineBreak) == "\n";
      assert t == [t[0]] + t[1..];
    }
  }

  lemma NothingStartsHere(s: string, index: nat, nodes: seq<SafeInline>, depth: nat, budget: Budget)
    requires index < |s| && depth < MAX_DEPTH && !IsAsciiPunctuation(s[index])
    ensures ConstructAt(s, index, nodes, depth, budget) == (None, budget)
  {
    assert s[index..][0] == s[index];
  }

  /** Escaped text reads back as the text itself and costs no budget. */
  lemma {:induction false} EscapedReadsFrom(before: string, t: string, nodes: seq<SafeInline>, depth: nat,
      budget: Budget)
    requires depth < MAX_DEPTH
    ensures ParseFrom(before + EscapeAll(t), |before|, nodes, depth, budget) == (Shown(nodes, t), budget)
    decreases |t|
  {
    hide ParseFrom, ConstructAt, PushText, IsAsciiPunctuation;
    var s := before + EscapeAll(t);
    if t == "" {
      ParseFromEnd(s, nodes, depth, budget);
    } else {
      var c := t[0];
      assert s == before + Quoted(c) + EscapeAll(t[1..]);
      if IsAsciiPunctuation(c) {
        BackslashIsPunctuation();
        assert s[|before|] == '\\' && s[|before| + 1] == c;
        StepOverEscape(s, |before|, nodes, depth, budget);
        EscapedReadsFrom(before + Quoted(c), t[1..], PushText(nodes, [c]), depth, budget);
      } else {
        assert s[|before|] == c;
        BackslashIsPunctuation();
        NothingStartsHere(s, |before|, nodes, depth, budget);
        StepOverChar(s, |before|, nodes, depth, budget);
        EscapedReadsFrom(before + [c], t[1..], if c == '\n' then nodes + [LineBreak] else PushText(nodes, [c]), depth,
            budget);
      }
    }
  }

  lemma BackslashIsPunctuation()
    ensures IsAsciiPunctuation('\\') && !IsAsciiPunctuation('\n')
  {
  }

  lemma EscapedReadsBack(t: string, depth: nat, budget: Budget)
    requires depth < MAX_DEPTH
    ensures ParseInlines(EscapeAll(t), depth, budget) == (Shown([], t), budget)
    ensures Plain(ParseInlines(EscapeAll(t), depth, budget).0) == t
  {
    hide ParseFrom, Shown, EscapeAll, Plain;
    assert "" + EscapeAll(t) == EscapeAll(t);
    EscapedReadsFrom("", t, [], depth, budget);
    ShownIsText([], t);
    assert Plain([]) == "" by { PlainOfNothing(); }
    ParseInlinesStarts(EscapeAll(t), depth, budget);
  }

  lemma PlainOfNothing()
    ensures Plain([]) == ""
  {
  }

  // ---------- marks, code and links around escaped text ----------

  predicate IsMark(delimiter: Delimiter) {
    || delimiter == Delimiter("**", StrongStyle) || delimiter == Delimiter("__", StrongStyle)
    || delimiter == Delimiter("~~", StrikethroughStyle)
    || delimiter == Delimiter("*", EmphasisStyle) || delimiter == Delimiter("_", EmphasisStyle)
  }

  predicate EndsWith(t: string, c: char) {
    t != "" && t[|t| - 1] == c
  }

  lemma SearchMovesOn(s: string, from: nat, mark: string)
    requires from < |s| && mark != "" && !Found(s, from, mark)
    ensures FindUnescaped(s, from, mark) == FindUnescaped(s, from + 1, mark)
  {
    hide Found, BackslashesBefore;
  }

  lemma SearchStopsAt(s: string, from: nat, mark: string)
    requires from < |s| && mark != "" && Found(s, from, mark)
    ensures FindUnescaped(s, from, mark) ==
      if BackslashesBefore(s, from) % 2 == 0 then Some(from) else FindUnescaped(s, from + |mark|, mark)
  {
    hide Found, BackslashesBefore;
  }

  predicate Doubled(mark: string) {
    |mark| == 2 && mark[0] == mark[1]
  }

  lemma QuotedGoesOn(before: string, t: string, mark: string)
    requires mark != "" && mark[0] != '\\' && IsAsciiPunctuation(mark[0])
    ensures var s := before + EscapeAll(t) + mark;
      |before| < |s| && if t == "" then s[|before|..] == mark else s[|before|] != mark[0]
  {
    hide IsAsciiPunctuation;
    BackslashIsPunctuation();
    if t != "" {
      assert EscapeAll(t)[0] == Quoted(t[0])[0];
    }
  }

  /** Where the search for a closing mark arrives behind escaped text: at the mark, or just past it. */
  lemma {:induction false} SearchPassesEscapes(before: string, t: string, mark: string)
    requires |mark| == 1 || Doubled(mark)
    requires mark[0] != '\\' && IsAsciiPunctuation(mark[0])
    requires BackslashesBefore(before + EscapeAll(t) + mark, |before|) % 2 == 0
    ensures FindUnescaped(before + EscapeAll(t) + mark, |before|, mark) ==
      if Doubled(mark) && EndsWith(t, mark[0]) then None else Some(|before| + |EscapeAll(t)|)
    decreases |t|
  {
    hide FindUnescaped, IsAsciiPunctuation, Found, BackslashesBefore;
    var s, n := before + EscapeAll(t) + mark, |before|;
    if t == "" {
      assert s == before + mark;
      FoundBy(s, n, mark);
      SearchStopsAt(s, n, mark);
    } else {
      var c, rest := t[0], EscapeAll(t[1..]);
      assert s == before + Quoted(c) + rest + mark;
      assert s[n] == Quoted(c)[0];
      BackslashIsPunctuation();
      NotFoundBy(s, n, mark, 0);
      SearchMovesOn(s, n, mark);
      if IsAsciiPunctuation(c) {
        assert s[n] == '\\' && s[n + 1] == c && s == (before + Quoted(c)) + EscapeAll(t[1..]) + mark;
        QuotedGoesOn(before + Quoted(c), t[1..], mark);
        SearchPassesQuoted(s, n, mark);
        if !(Doubled(mark) && t[1..] == "" && c == mark[0]) {
          SearchPassesEscapes(before + Quoted(c), t[1..], mark);
        }
      } else {
        assert s == (before + [c]) + EscapeAll(t[1..]) + mark;
        PlainCounts(s, n);
        SearchPassesEscapes(before + [c], t[1..], mark);
      }
    }
  }

  lemma PlainCounts(s: string, n: nat)
    requires n < |s| && s[n] != '\\'
    ensures BackslashesBefore(s, n + 1) == 0
  {
  }

  lemma NotFoundBy(s: string, at: nat, mark: string, k: nat)
    requires at <= |s| && k < |mark| && (at + k < |s| ==> s[at + k] != mark[k])
    ensures !Found(s, at, mark)
  {
  }

  lemma EscapedCounts(s: string, n: nat)
    requires n + 1 < |s| && s[n] == '\\' && BackslashesBefore(s, n) % 2 == 0
    ensures BackslashesBefore(s, n + 1) % 2 == 1 && (s[n + 1] == '\\' ==> BackslashesBefore(s, n + 2) % 2 == 0)
    ensures s[n + 1] != '\\' ==> BackslashesBefore(s, n + 2) == 0
  {
  }

  /** The search at an escaped character, with the mark itself or some other character behind it. */
  lemma SearchPassesQuoted(s: string, n: nat, mark: string)
    requires |mark| == 1 || Doubled(mark)
    requires n + 2 < |s| && s[n] == '\\' && BackslashesBefore(s, n) % 2 == 0
    requires s[n + 2..] == mark || s[n + 2] != mark[0]
    ensures BackslashesBefore(s, n + 2) % 2 == 0
    ensures FindUnescaped(s, n + 1, mark) ==
      if Doubled(mark) && s[n + 2..] == mark && s[n + 1] == mark[0] then None else FindUnescaped(s, n + 2, mark)
  {
    hide FindUnescaped, Found, BackslashesBefore;
    EscapedCounts(s, n);
    if s[n + 1] != mark[0] {
      NotFoundBy(s, n + 1, mark, 0);
      SearchMovesOn(s, n + 1, mark);
    } else if |mark| == 1 {
      assert s[n + 1..][..1] == mark;
      FoundBy(s, n + 1, mark);
      SearchStopsAt(s, n + 1, mark);
    } else if s[n + 2..] == mark {
      assert s[n + 1..][..2] == mark by { assert s[n + 2..][0] == s[n + 2]; }
      FoundBy(s, n + 1, mark);
      SearchStopsAt(s, n + 1, mark);
      NotFoundBy(s, n + 3, mark, 1);
      SearchMovesOn(s, n + 3, mark);
      NothingAtTheEnd(s, mark);
    } else {
      NotFoundBy(s, n + 1, mark, 1);
      SearchMovesOn(s, n + 1, mark);
    }
  }

  lemma FoundBy(s: string, at: nat, mark: string)
    requires at + |mark| <= |s| && s[at..][..|mark|] == mark
    ensures Found(s, at, mark)
  {
  }

  lemma NothingAtTheEnd(s: string, mark: string)
    requires mark != ""
    ensures FindUnescaped(s, |s|, mark) == None
  {
  }

  /** The first node; a text node may still grow. */
  predicate Leads(nodes: seq<SafeInline>, lead: SafeInline) {
    nodes != [] && if lead.Text? then nodes[0].Text? else nodes[0] == lead
  }

  lemma ConstructKeepsLead(s: string, index: nat, nodes: seq<SafeInline>, depth: nat, budget: Budget, lead: SafeInline)
    requires index < |s| && depth < MAX_DEPTH && Leads(nodes, lead)
    requires ConstructAt(s, index, nodes, depth, budget).0.Some?
    ensures Leads(ConstructAt(s, index, nodes, depth, budget).0.value.nodes, lead)
  {
    hide InlineDelimiter, Found, FindText, FindUnescaped, BracketedReference, ParseInlines, RunLength,
      LooksLikeAutolink, LinkAt, StyledAt;
    var (link, b1) := LinkAt(s, index, nodes, depth, budget);
    if link.Some? {
      LinkKeepsLead(s, index, nodes, depth, budget, lead);
    } else {
      var (styled, b2) := StyledAt(s, index, nodes, depth, b1);
      if styled.Some? {
        StyledKeepsLead(s, index, nodes, depth, b1, lead);
      }
    }
  }

  lemma LinkKeepsLead(s: string, index: nat, nodes: seq<SafeInline>, depth: nat, budget: Budget, lead: SafeInline)
    requires index < |s| && depth < MAX_DEPTH && Leads(nodes, lead) && LinkAt(s, index, nodes, depth, budget).0.Some?
    ensures Leads(LinkAt(s, index, nodes, depth, budget).0.value.nodes, lead)
  {
    hide BracketedReference, InertLink, InertImage;
    var left := budget.(references := budget.references - 1);
    var image := Found(s, index, "![");
    var reference := BracketedReference(s, index, image).value;
    if image {
      ImageKeepsLead(reference, nodes, depth, left, lead);
    } else {
      InertKeepsLead(reference, nodes, depth, left, lead);
    }
  }

  lemma InertKeepsLead(reference: Reference, nodes: seq<SafeInline>, depth: nat, budget: Budget, lead: SafeInline)
    requires depth < MAX_DEPTH && Leads(nodes, lead)
    ensures Leads(InertLink(reference, nodes, depth, budget).0, lead)
  {
    hide ParseInlines;
  }

  lemma ImageKeepsLead(reference: Reference, nodes: seq<SafeInline>, depth: nat, budget: Budget, lead: SafeInline)
    requires depth < MAX_DEPTH && Leads(nodes, lead)
    ensures Leads(InertImage(reference, nodes, depth, budget).0, lead)
  {
    hide ParseInlines;
  }

  lemma StyledKeepsLead(s: string, index: nat, nodes: seq<SafeInline>, depth: nat, budget: Budget, lead: SafeInline)
    requires index < |s| && depth < MAX_DEPTH && Leads(nodes, lead) && StyledAt(s, index, nodes, depth, budget).0.Some?
    ensures Leads(StyledAt(s, index, nodes, depth, budget).0.value.nodes, lead)
  {
    hide InlineDelimiter, FindUnescaped, ParseInlines;
  }

  /** What opens the output stays in front of it. */
  lemma {:induction false} LeadStays(s: string, index: nat, nodes: seq<SafeInline>, depth: nat, budget: Budget,
      lead: SafeInline)
    requires index <= |s| && depth < MAX_DEPTH && Leads(nodes, lead)
    ensures Leads(ParseFrom(s, index, nodes, depth, budget).0, lead)
    decreases |s| - index
  {
    hide ParseFrom, ConstructAt, IsAsciiPunctuation;
    if index == |s| {
      ParseFromEnd(s, nodes, depth, budget);
    } else if EscapesAt(s, index) {
      StepOverEscape(s, index, nodes, depth, budget);
      LeadStays(s, index + 2, PushText(nodes, [s[index + 1]]), depth, budget, lead);
    } else {
      var (construct, left) := ConstructAt(s, index, nodes, depth, budget);
      if construct.Some? {
        StepOverConstruct(s, index, nodes, depth, budget);
        ConstructKeepsLead(s, index, nodes, depth, budget, lead);
        LeadStays(s, construct.value.next, construct.value.nodes, depth, construct.value.budget, lead);
      } else {
        StepOverChar(s, index, nodes, depth, budget);
        LeadStays(s, index + 1, if s[index] == '\n' then nodes + [LineBreak] else PushText(nodes, [s[index]]), depth,
            left, lead);
      }
    }
  }

  /** An opening mark that does nothing is shown as text. */
  lemma UnusedMarkLeads(s: string, depth: nat, budget: Budget)
    requires s != "" && depth < MAX_DEPTH && s[0] != '\n' && s[0] != '\\'
    requires ConstructAt(s, 0, [], depth, budget).0.None?
    ensures Leads(ParseInlines(s, depth, budget).0, Text(""))
  {
    hide ParseFrom, ConstructAt;
    ParseInlinesStarts(s, depth, budget);
    StepOverChar(s, 0, [], depth, budget);
    LeadStays(s, 1, PushText([], [s[0]]), depth, ConstructAt(s, 0, [], depth, budget).1, Text(""));
  }

  /** What a construct at the start leaves in front stays there. */
  lemma ConstructLeads(s: string, depth: nat, budget: Budget, lead: SafeInline)
    requires s != "" && depth < MAX_DEPTH && s[0] != '\\'
    requires ConstructAt(s, 0, [], depth, budget).0.Some?
      && Leads(ConstructAt(s, 0, [], depth, budget).0.value.nodes, lead)
    ensures Leads(ParseInlines(s, depth, budget).0, lead)
  {
    hide ParseFrom, ConstructAt;
    var p := ConstructAt(s, 0, [], depth, budget).0.value;
    ParseInlinesStarts(s, depth, budget);
    StepOverConstruct(s, 0, [], depth, budget);
    LeadStays(s, p.next, p.nodes, depth, p.budget, lead);
  }

  /** A construct that spans the whole text gives its nodes. */
  lemma WholeConstruct(s: string, depth: nat, budget: Budget)
    requires s != "" && depth < MAX_DEPTH && s[0] != '\\'
    requires ConstructAt(s, 0, [], depth, budget).0.Some? && ConstructAt(s, 0, [], depth, budget).0.value.next == |s|
    ensures ParseInlines(s, depth, budget).0 == ConstructAt(s, 0, [], depth, budget).0.value.nodes
  {
    hide ParseFrom, ConstructAt;
    var p := ConstructAt(s, 0, [], depth, budget).0.value;
    ParseInlinesStarts(s, depth, budget);
    StepOverConstruct(s, 0, [], depth, budget);
    ParseFromEnd(s, p.nodes, depth, p.budget);
  }

  lemma OpensMark(delimiter: Delimiter, t: string)
    requires IsMark(delimiter) && (Doubled(delimiter.mark) || t != "")
    ensures var s := delimiter.mark + EscapeAll(t) + delimiter.mark;
      InlineDelimiter(s, 0) == Some(delimiter) && BackslashesBefore(s, |delimiter.mark|) == 0
  {
    hide IsAsciiPunctuation, EscapeAll, Found;
    var Delimiter(mark, _) := delimiter;
    var s := mark + EscapeAll(t) + mark;
    FoundBy(s, 0, mark);
    if |mark| == 1 {
      MarksArePunctuation(delimiter);
      QuotedGoesOn(mark, t, mark);
      NotFoundBy(s, 0, "**", if mark == "*" then 1 else 0);
      NotFoundBy(s, 0, "__", if mark == "_" then 1 else 0);
    } else {
      NotFoundBy(s, 0, if mark == "**" then "__" else "**", 0);
      NotFoundBy(s, 0, if mark == "__" then "~~" else "__", 0);
    }
    NotFoundBy(s, 0, if mark[0] == '~' then "*" else "~~", 0);
    NotFoundBy(s, 0, if mark[0] == '*' then "_" else "*", 0);
  }

  lemma NoLinkHere(s: string, index: nat, nodes: seq<SafeInline>, depth: nat, budget: Budget)
    requires index < |s| && depth < MAX_DEPTH && s[index] != '!' && s[index] != '['
    ensures LinkAt(s, index, nodes, depth, budget) == (None, budget)
  {
    NotFoundBy(s, index, "![", 0);
  }

  /** Escaped text between marks is styled text, exactly when the text does not end with a double mark's own
      character. */
  lemma StyledReadsBack(delimiter: Delimiter, t: string, depth: nat, budget: Budget)
    requires IsMark(delimiter) && (Doubled(delimiter.mark) || t != "")
    requires depth + 1 < MAX_DEPTH && budget.delimiters > 0
    ensures ParseInlines(delimiter.mark + EscapeAll(t) + delimiter.mark, depth, budget).0
      == [Wrap(delimiter.style, Shown([], t))]
      <==> !(Doubled(delimiter.mark) && EndsWith(t, delimiter.mark[0]))
  {
    hide ParseInlines, LinkAt, StyledAt, CodeAt, AutolinkAt, EscapeAll, Shown, InlineDelimiter, BackslashesBefore,
      FindUnescaped, IsAsciiPunctuation;
    var Delimiter(mark, style) := delimiter;
    var inside := EscapeAll(t);
    var s := mark + inside + mark;
    OpensMark(delimiter, t);
    assert s[0] == mark[0];
    MarksArePunctuation(delimiter);
    NoLinkHere(s, 0, [], depth, budget);
    SearchPassesEscapes(mark, t, mark);
    var left := budget.(delimiters := budget.delimiters - 1);
    if Doubled(mark) && EndsWith(t, mark[0]) {
      StyledUnclosed(s, 0, [], depth, budget, mark);
      NoCodeHere(s, 0, [], left);
      UnusedMarkLeads(s, depth, budget);
    } else {
      StyledClosed(s, 0, [], depth, budget, delimiter, |mark| + |inside|);
      assert s[|mark|..|mark| + |inside|] == inside;
      EscapedReadsBack(t, depth + 1, left);
      WholeConstruct(s, depth, budget);
    }
  }

  lemma MarksArePunctuation(delimiter: Delimiter)
    requires IsMark(delimiter)
    ensures IsAsciiPunctuation(delimiter.mark[0]) && delimiter.mark[0] in "*_~"
  {
  }

  lemma NoCodeHere(s: string, index: nat, nodes: seq<SafeInline>, budget: Budget)
    requires index < |s| && s[index] != '`' && s[index] != '<'
    ensures CodeAt(s, index, nodes, budget) == (None, budget) && AutolinkAt(s, index, nodes, budget) == (None, budget)
  {
  }

  /** Text that a fence of `n` backticks carries: it does not start with one, and the fence closes first at its end. */
  predicate FenceCarries(t: string, n: nat) {
    var fence := InlineMarkdown.Repeat('`', n);
    var s := fence + t + fence;
    && t != "" && t[0] != '`'
    && CleanAt(s, n, n + |t|, fence) && forall i :: n <= i < n + |t| ==> !CleanAt(s, n, i, fence)
  }

  /** Any text between fences of any length is kept as code exactly when the fence carries it. */
  lemma CodeReadsBack(t: string, n: nat, depth: nat, budget: Budget)
    requires n > 0 && depth < MAX_DEPTH && budget.delimiters > 0
    ensures var fence := InlineMarkdown.Repeat('`', n);
      ParseInlines(fence + t + fence, depth, budget).0 == [Code(t)] <==> FenceCarries(t, n)
  {
    hide ParseInlines, ConstructAt, FindUnescaped, FenceCarries, RunLength;
    var fence := InlineMarkdown.Repeat('`', n);
    var s := fence + t + fence;
    var m := RunLength(s, 0, '`');
    RunLengthIs(s, 0, '`');
    OpeningRun(t, n);
    var mark := s[0..m];
    var end := FindUnescaped(s, m, mark);
    CodeConstruct(s, depth, budget, m, end);
    FenceCloses(t, n);
    assert m == n ==> mark == fence;
    if end.None? {
      UnusedMarkLeads(s, depth, budget);
    } else {
      var content := s[m..end.value];
      ConstructLeads(s, depth, budget, Code(content));
      if m == n {
        assert s[n..n + |t|] == t;
        if content == t {
          WholeConstruct(s, depth, budget);
        }
      } else {
        OpenedTooFar(t, n, m, end.value);
      }
    }
  }

  /** A longer opening run leaves content that cannot be `t`. */
  lemma OpenedTooFar(t: string, n: nat, m: nat, end: nat)
    requires n > 0 && (t == "" || t[0] == '`')
    requires var s := InlineMarkdown.Repeat('`', n) + t + InlineMarkdown.Repeat('`', n);
      m == RunLength(s, 0, '`') && m <= end && end + m <= |s| && m > 0
    ensures (InlineMarkdown.Repeat('`', n) + t + InlineMarkdown.Repeat('`', n))[m..end] != t
  {
    hide RunLength;
    var s := InlineMarkdown.Repeat('`', n) + t + InlineMarkdown.Repeat('`', n);
    RunLengthIs(s, 0, '`');
    var content := s[m..end];
    assert forall i :: 0 <= i < n || n + |t| <= i < |s| ==> s[i] == '`';
    assert content != "" ==> content[0] == s[m];
  }

  /** When the content starts with no backtick, the opening run is the fence, and it closes at the first clean one. */
  lemma FenceCloses(t: string, n: nat)
    requires n > 0
    ensures var fence := InlineMarkdown.Repeat('`', n);
      var s := fence + t + fence;
      FenceCarries(t, n) <==>
      RunLength(s, 0, '`') == n && FindUnescaped(s, n, fence) == Some(n + |t|) && t != ""
  {
    hide FindUnescaped, CleanAt, RunLength;
    var fence := InlineMarkdown.Repeat('`', n);
    var s := fence + t + fence;
    RunLengthIs(s, 0, '`');
    OpeningRun(t, n);
    ClosesAtFirstClean(s, n, fence);
  }

  lemma OpeningRun(t: string, n: nat)
    requires n > 0
    ensures var s := InlineMarkdown.Repeat('`', n) + t + InlineMarkdown.Repeat('`', n);
      (RunLength(s, 0, '`') == n <==> t != "" && t[0] != '`') && RunLength(s, 0, '`') >= n
  {
    hide RunLength;
    var s := InlineMarkdown.Repeat('`', n) + t + InlineMarkdown.Repeat('`', n);
    var m := RunLength(s, 0, '`');
    RunLengthIs(s, 0, '`');
    assert forall i :: 0 <= i < n ==> s[i] == '`';
    assert t != "" ==> s[n] == t[0];
    if t == "" {
      assert s[n] == '`';
    }
  }

  lemma {:induction false} RunLengthIs(s: string, at: nat, c: char)
    requires at <= |s|
    ensures var n := RunLength(s, at, c);
      (forall i :: at <= i < at + n ==> s[i] == c) && (at + n < |s| ==> s[at + n] != c)
    decreases |s| - at
  {
    if at < |s| && s[at] == c {
      RunLengthIs(s, at + 1, c);
    }
  }

  /** The construct at an opening run of backticks. */
  lemma CodeConstruct(s: string, depth: nat, budget: Budget, m: nat, end: Option<nat>)
    requires s != "" && s[0] == '`' && depth < MAX_DEPTH && budget.delimiters > 0
    requires m == RunLength(s, 0, '`') && end == FindUnescaped(s, m, s[0..m]) && m > 0
    ensures var construct := ConstructAt(s, 0, [], depth, budget).0;
      if end.None? then construct.None?
      else construct.Some? && construct.value.nodes == [Code(s[m..end.value])] && construct.value.next == end.value + m
  {
    hide LinkAt, StyledAt, AutolinkAt, FindUnescaped, RunLength, InlineDelimiter;
    NoLinkHere(s, 0, [], depth, budget);
    assert InlineDelimiter(s, 0).None? by { NoMarkHere(s, 0); }
    StyledNone(s, 0, [], depth, budget);
    NoAutolinkHere(s, 0, [], budget.(delimiters := budget.delimiters - 1));
    assert [] + [Code(s[m..if end.Some? then end.value else m])] == [Code(s[m..if end.Some? then end.value else m])];
  }

  lemma NoAutolinkHere(s: string, index: nat, nodes: seq<SafeInline>, budget: Budget)
    requires index < |s| && s[index] != '<'
    ensures AutolinkAt(s, index, nodes, budget) == (None, budget)
  {
  }

  lemma NoMarkHere(s: string, index: nat)
    requires index < |s| && s[index] !in "*_~"
    ensures InlineDelimiter(s, index) == None
  {
    assert s[index..][0] == s[index];
  }

  // ---------- links and images ----------

  lemma {:induction false} BracketsPassEscapes(before: string, t: string, after: string, open: char, close: char)
    requires IsAsciiPunctuation(open) && IsAsciiPunctuation(close) && open != close && open != '\\' && close != '\\'
    requires after != "" && after[0] == close
    ensures FindBalanced(before + EscapeAll(t) + after, |before|, 0, open, close) == Some(|before| + |EscapeAll(t)|)
    decreases |t|
  {
    hide IsAsciiPunctuation;
    var s, n := before + EscapeAll(t) + after, |before|;
    if t == "" {
      assert s == before + after && s[n] == close;
    } else {
      var c := t[0];
      assert s == (before + Quoted(c)) + EscapeAll(t[1..]) + after;
      assert s[n] == Quoted(c)[0];
      BackslashIsPunctuation();
      BracketsPassEscapes(before + Quoted(c), t[1..], after, open, close);
    }
  }

  /** Parentheses balance, with escaped characters stepped over. */
  predicate Balanced(t: string, depth: nat) {
    if t == "" then depth == 0
    else if t[0] == '\\' then |t| >= 2 && Balanced(t[2..], depth)
    else if t[0] == '(' then Balanced(t[1..], depth + 1)
    else if t[0] == ')' then depth > 0 && Balanced(t[1..], depth - 1)
    else Balanced(t[1..], depth)
  }

  /** A destination ends at its own closing parenthesis exactly when it is balanced. */
  lemma {:induction false} BracketsPassBalanced(before: string, t: string, depth: nat)
    ensures FindBalanced(before + t + ")", |before|, depth, '(', ')') == Some(|before| + |t|) <==> Balanced(t, depth)
    decreases |t|
  {
    var s := before + t + ")";
    if t == "" {
      assert s == before + ")" && s[|before|] == ')';
    } else {
      assert s[|before|] == t[0];
      if t[0] == '\\' && |t| >= 2 {
        assert s == (before + t[..2]) + t[2..] + ")";
        BracketsPassBalanced(before + t[..2], t[2..], depth);
      } else if t[0] != '\\' {
        assert s == (before + [t[0]]) + t[1..] + ")";
        BracketsPassBalanced(before + [t[0]], t[1..],
            if t[0] == '(' then depth + 1 else if t[0] == ')' && depth > 0 then depth - 1 else depth);
      }
    }
  }

  function LinkSource(image: bool, caption: string, destination: string): string {
    (if image then "![" else "[") + EscapeAll(caption) + ("](" + destination + ")")
  }

  /** The whole source is one reference exactly when its destination is balanced. */
  lemma ReferenceReadsBack(image: bool, caption: string, destination: string)
    ensures var s := LinkSource(image, caption, destination);
      var r := BracketedReference(s, 0, image);
      && (Balanced(destination, 0) <==> r.Some? && r.value.end == |s|)
      && (Balanced(destination, 0) ==> r == Some(Reference(EscapeAll(caption), Trim(destination), |s|)))
  {
    hide EscapeAll, FindBalanced, Trim, Balanced;
    var opening := if image then "![" else "[";
    var inside := EscapeAll(caption);
    var s := LinkSource(image, caption, destination);
    BracketsPassEscapes(opening, caption, "](" + destination + ")", '[', ']');
    var end := |opening| + |inside|;
    assert s[|opening|..end] == inside && s[end + 1] == '(';
    var before := opening + inside + "](";
    assert s == before + destination + ")";
    BracketsPassBalanced(before, destination, 0);
    assert s[|before|..|before| + |destination|] == destination;
  }

  /** What a link leaves behind: its caption as text and, if that differs, its target as code. */
  function LinkShows(caption: string, destination: string): seq<SafeInline> {
    if caption == "" then PushText([], destination)
    else if destination == "" || destination == EscapeAll(caption) then Shown([], caption)
    else Target(Shown([], caption), destination)
  }

  function ImageShows(caption: string, destination: string): seq<SafeInline> {
    var announced := PushText([], "Image: ");
    var shown := if caption == "" then PushText(announced, "unnamed") else announced + Shown([], caption);
    if destination == "" then shown else Target(shown, destination)
  }

  /** Links and images become inert text: no target survives except as code. */
  lemma LinkReadsBack(image: bool, caption: string, destination: string, depth: nat, budget: Budget)
    requires Balanced(destination, 0) && depth + 1 < MAX_DEPTH && budget.references > 0
    ensures ParseInlines(LinkSource(image, caption, destination), depth, budget).0
      == if image then ImageShows(caption, Trim(destination)) else LinkShows(caption, Trim(destination))
  {
    hide ParseInlines, ParseFrom, EscapeAll, Shown, BracketedReference, Trim, PushText, Target, Balanced;
    var s := LinkSource(image, caption, destination);
    assert s[0] == if image then '!' else '[';
    assert Found(s, 0, "![") == image by {
      if image { assert s[0..][..2] == "!["; FoundBy(s, 0, "!["); }
    }
    ReferenceReadsBack(image, caption, destination);
    EscapeKeepsEmpty(caption);
    EscapedReadsBack(caption, depth + 1, budget.(references := budget.references - 1));
    assert [] + Shown([], caption) == Shown([], caption);
    WholeConstruct(s, depth, budget);
    var left := budget.(references := budget.references - 1);
    var r := Reference(EscapeAll(caption), Trim(destination), |s|);
    assert ConstructAt(s, 0, [], depth, budget).0.value.nodes
      == (if image then InertImage(r, [], depth, left).0 else InertLink(r, [], depth, left).0);
    if image {
      assert InertImage(r, [], depth, left).0 == ImageShows(caption, Trim(destination));
    } else {
      assert InertLink(r, [], depth, left).0 == LinkShows(caption, Trim(destination));
    }
  }

  lemma EscapeKeepsEmpty(t: string)
    ensures EscapeAll(t) == "" <==> t == ""
  {
    assert t != "" ==> |Quoted(t[0])| > 0;
  }
}
