// What extension Markdown means block by block: literal source of every kind of block, in any order, reads back
// as that block and is written as that HTML (crates/key-extension-gpui/src/safe_markdown.rs).
module BlockMeaning {
  import opened Collections
  import opened Options
  import opened Unicode
  import opened Documents
  import opened SafeHtml
  import opened SafeMarkdown
  import opened InlineTheorems
  import opened SafeBlocks
  import opened SafeInlineMeaning
  import InlineMarkdown

  // ---------- literal source ----------

  /** A quoted line; without the space behind its mark the text may not begin with one. */
  datatype QuoteLine = QuoteLine(spaced: bool, text: string)

  datatype NumberedItem = NumberedItem(digits: string, text: string)

  /** A closing fence: as long as the opening one or longer, with white space around it. */
  datatype Closing = Closing(before: string, extra: nat, behind: string)

  /** A block as an author writes it, its text taken literally. */
  datatype Written =
    | WrittenHeading(level: nat, gap: char, text: string)
    | WrittenBullets(mark: char, items: seq<string>)
    | WrittenNumbers(numbered: seq<NumberedItem>)
    | WrittenQuote(quoted: seq<QuoteLine>)
    | WrittenRule(rule: string)
    | WrittenCode(fence: Fence, info: string, code: seq<string>, closing: Closing)
    | WrittenText(lines: seq<string>)

  function Occurrences(s: string, c: char): nat {
    if s == "" then 0 else (if s[0] == c then 1 else 0) + Occurrences(s[1..], c)
  }

  /** Three or more of one of the marks `-`, `*` and `_`, with white space anywhere. */
  predicate IsRule(line: string, mark: char) {
    mark in "-*_" && Occurrences(line, mark) >= 3 && forall i :: 0 <= i < |line| ==>
        line[i] == mark || IsWhitespace(line[i])
  }

  predicate Legal(w: Written) {
    match w
    case WrittenHeading(level, gap, _) => 1 <= level <= 6 && gap in " \t"
    case WrittenBullets(mark, items) => mark in "-*+" && items != []
    case WrittenNumbers(numbered) =>
      numbered != [] && forall i :: 0 <= i < |numbered| ==> IsNumber(numbered[i].digits)
    case WrittenQuote(quoted) =>
      quoted != [] && forall i :: 0 <= i < |quoted| ==> quoted[i].spaced || !StartsWithSpace(quoted[i].text)
    case WrittenRule(rule) => IsRule(rule, '-') || IsRule(rule, '*') || IsRule(rule, '_')
    case WrittenCode(fence, info, code, closing) =>
      && fence.mark in "`~" && fence.length >= 3 && (info != "" ==> info[0] != fence.mark)
      && NoneCloses(code, fence) && IsBlank(closing.before) && IsBlank(closing.behind)
    case WrittenText(lines) => lines != [] && forall i :: 0 <= i < |lines| ==> !IsBlank(lines[i])
  }

  predicate IsNumber(digits: string) {
    digits != "" && forall i :: 0 <= i < |digits| ==> '0' <= digits[i] <= '9'
  }

  predicate StartsWithSpace(s: string) {
    s != "" && s[0] == ' '
  }

  /** The lines of a block; the marks of headings, items and quotes may be indented. */
  function LinesOf(w: Written, indent: string): (written: seq<string>) {
    match w
    case WrittenHeading(level, gap, text) => [indent + (InlineMarkdown.Repeat('#', level) + ([gap] + EscapeAll(text)))]
    case WrittenBullets(mark, items) =>
      seq(|items|, i requires 0 <= i < |items| => indent + ([mark, ' '] + EscapeAll(items[i])))
    case WrittenNumbers(numbered) =>
      seq(|numbered|, i requires 0 <= i < |numbered| =>
        indent + (numbered[i].digits + (". " + EscapeAll(numbered[i].text))))
    case WrittenQuote(quoted) =>
      seq(|quoted|, i requires 0 <= i < |quoted| =>
        indent + ((if quoted[i].spaced then "> " else ">") + EscapeAll(quoted[i].text)))
    case WrittenRule(rule) => [rule]
    case WrittenCode(fence, info, code, closing) =>
      var last := closing.before + InlineMarkdown.Repeat(fence.mark, fence.length + closing.extra) + closing.behind;
      [indent + (InlineMarkdown.Repeat(fence.mark, fence.length) + info)] + (code + [last])
    case WrittenText(lines) => EscapeLines(lines)
  }

  /** Text of a quote: its lines with breaks between, but none in front. */
  function QuoteText(quoted: seq<QuoteLine>): string {
    if quoted == [] then ""
    else if quoted[0].text == "" then QuoteText(quoted[1..])
    else JoinLines(Texts(quoted))
  }

  function Texts(quoted: seq<QuoteLine>): (texts: seq<string>)
    ensures |texts| == |quoted|
  {
    seq(|quoted|, i requires 0 <= i < |quoted| => quoted[i].text)
  }

  /** The block that the source is. */
  function BlockOf(w: Written): SafeBlock {
    match w
    case WrittenHeading(level, _, text) => Heading(level, Shown([], TrimEnd(text)))
    case WrittenBullets(_, items) => UnorderedList(seq(|items|, i requires 0 <= i < |items| => Shown([], items[i])))
    case WrittenNumbers(numbered) =>
      OrderedList(seq(|numbered|, i requires 0 <= i < |numbered| => Shown([], numbered[i].text)))
    case WrittenQuote(quoted) => BlockQuote(Shown([], QuoteText(quoted)))
    case WrittenRule(_) => ThematicBreak
    case WrittenCode(_, _, code, _) => CodeBlock(if code == [] then "" else JoinLines(code))
    case WrittenText(lines) => Paragraph(Shown([], if lines == [] then "" else JoinLines(lines)))
  }

  // ---------- lines behind an indentation ----------

  lemma {:induction false} TrimIndent(indent: string, body: string)
    requires IsBlank(indent) && body != "" && !IsWhitespace(body[0])
    ensures TrimStart(indent + body) == body && !IsBlank(indent + body) && Marks(indent + body) == Marks(body)
    ensures Marks(body) == [body[0]] + Marks(body[1..])
  {
    var line := indent + body;
    assert line[|indent|] == body[0];
    if indent == "" {
      assert line == body;
    } else {
      TrimIndent(indent[1..], body);
      assert line[1..] == indent[1..] + body;
    }
  }

  /** The mark in front decides which kinds of block a line can start. */
  lemma MarkedLine(indent: string, body: string)
    requires IsBlank(indent) && body != "" && !IsWhitespace(body[0])
    ensures var line := indent + body;
      && !IsBlank(line)
      && (body[0] !in "`~" ==> FenceStart(line).None?)
      && (body[0] != '#' ==> HeadingOf(line).None?)
      && (body[0] !in "-*_" ==> !IsThematicBreak(line))
      && (body[0] !in "-*+" ==> UnorderedItem(line).None?)
      && (!('0' <= body[0] <= '9') ==> OrderedItem(line).None?)
      && (body[0] != '>' ==> QuoteContent(line).None?)
  {
    hide IsBlank, Marks, TrimStart;
    TrimIndent(indent, body);
    if body[0] != '#' {
      NoRun(body, '#');
    }
  }

  lemma BlankStartsNothing(line: string)
    requires IsBlank(line)
    ensures UnorderedItem(line).None? && OrderedItem(line).None? && QuoteContent(line).None?
  {
    TrimBlank(line);
  }

  lemma {:induction false} TrimBlank(line: string)
    requires IsBlank(line)
    ensures TrimStart(line) == ""
  {
    if line != "" {
      BlankTail(line);
      TrimBlank(line[1..]);
    }
  }

  // ---------- headings ----------

  lemma {:induction false} RunThen(c: char, n: nat, at: nat, rest: string)
    requires at <= n && (rest != "" ==> rest[0] != c)
    ensures RunLength(InlineMarkdown.Repeat(c, n) + rest, at, c) == n - at
    decreases n - at
  {
    if at < n {
      RunThen(c, n, at + 1, rest);
    }
  }

  lemma {:induction false} EscapedTrimEnd(t: string)
    ensures TrimEnd(EscapeAll(t)) == EscapeAll(TrimEnd(t))
    decreases |t|
  {
    if t != "" {
      var front, last := t[..|t| - 1], t[|t| - 1];
      assert t == front + [last];
      EscapeConcat(front, [last]);
      assert EscapeAll([last]) == Quoted(last) by { assert [last][1..] == ""; }
      var s := EscapeAll(t);
      assert s == EscapeAll(front) + Quoted(last) && s[|s| - 1] == last;
      if IsWhitespace(last) {
        assert s[..|s| - 1] == EscapeAll(front);
        EscapedTrimEnd(front);
      }
    }
  }

  lemma HeadingIsRead(level: nat, gap: char, text: string, indent: string)
    requires IsBlank(indent) && 1 <= level <= 6 && gap in " \t"
    ensures var line := LinesOf(WrittenHeading(level, gap, text), indent)[0];
      && !IsBlank(line) && FenceStart(line).None?
      && HeadingOf(line) == Some((level, EscapeAll(TrimEnd(text))))
  {
    hide IsBlank, FenceStart, IsThematicBreak, UnorderedItem, OrderedItem, QuoteContent, Marks, TrimStart, TrimEnd,
      EscapeAll, RunLength;
    var body := InlineMarkdown.Repeat('#', level) + ([gap] + EscapeAll(text));
    assert body[0] == '#' && body[level] == gap && body[level + 1..] == EscapeAll(text);
    MarkedLine(indent, body);
    TrimIndent(indent, body);
    RunThen('#', level, 0, [gap] + EscapeAll(text));
    EscapedTrimEnd(text);
  }

  lemma HeadingAt(lines: seq<string>)
    requires lines != [] && !IsBlank(lines[0]) && FenceStart(lines[0]).None? && HeadingOf(lines[0]).Some?
    ensures BlockAt(lines) == (Heading(HeadingOf(lines[0]).value.0, Inlines(HeadingOf(lines[0]).value.1)), 1)
  {
    hide IsBlank, FenceStart, HeadingOf, IsThematicBreak, UnorderedItem, OrderedItem, QuoteContent, Taken, CodeLines,
      Joined, ParagraphLines, JoinedFrom, ParseInlines;
  }

  /** More than six marks, or no gap behind them, make no heading. */
  lemma NotAHeading(level: nat, rest: string, indent: string)
    requires IsBlank(indent) && level > 0 && (rest != "" ==> rest[0] != '#')
    requires level > 6 || rest == "" || rest[0] !in " \t"
    ensures var line := indent + (InlineMarkdown.Repeat('#', level) + rest);
      Blocks([line]) == [Paragraph(Inlines(line))]
  {
    hide IsBlank, FenceStart, IsThematicBreak, UnorderedItem, OrderedItem, QuoteContent, Marks, TrimStart, TrimEnd,
      RunLength, Blocks, Inlines;
    var body := InlineMarkdown.Repeat('#', level) + rest;
    var line := indent + body;
    assert body[0] == '#' && body[level..] == rest;
    MarkedLine(indent, body);
    TrimIndent(indent, body);
    RunThen('#', level, 0, rest);
    ParagraphOf([line]);
    assert JoinLines([line]) == line;
  }

  // ---------- rules ----------

  lemma {:induction false} RuleMarks(line: string, mark: char)
    requires forall i :: 0 <= i < |line| ==> line[i] == mark || IsWhitespace(line[i])
    requires !IsWhitespace(mark)
    ensures |Marks(line)| == Occurrences(line, mark) && forall i :: 0 <= i < |Marks(line)| ==> Marks(line)[i] == mark
  {
    if line != "" {
      RuleMarks(line[1..], mark);
    }
  }

  lemma RuleIsRead(line: string, mark: char)
    requires IsRule(line, mark)
    ensures !IsBlank(line) && FenceStart(line).None? && HeadingOf(line).None? && IsThematicBreak(line)
  {
    hide TrimStart, Marks, RunLength;
    RuleMarks(line, mark);
    if IsBlank(line) {
      BlankHasNoMarks(line);
    }
    TrimStartStops(line);
    NoRun(TrimStart(line), '#');
  }

  lemma {:induction false} BlankHasNoMarks(line: string)
    requires IsBlank(line)
    ensures Marks(line) == ""
  {
    if line != "" {
      BlankTail(line);
      BlankHasNoMarks(line[1..]);
    }
  }

  lemma RuleAt(lines: seq<string>)
    requires lines != [] && !IsBlank(lines[0]) && FenceStart(lines[0]).None? && HeadingOf(lines[0]).None?
    requires IsThematicBreak(lines[0])
    ensures BlockAt(lines) == (ThematicBreak, 1)
  {
    hide IsBlank, FenceStart, HeadingOf, IsThematicBreak, UnorderedItem, OrderedItem, QuoteContent, Taken, CodeLines,
      Joined, ParagraphLines, JoinedFrom, ParseInlines;
  }

  // ---------- items ----------

  lemma {:induction false} TakenAll(lines: seq<string>, rest: seq<string>, item: string -> Option<string>,
      contents: seq<string>)
    requires |contents| == |lines| && forall i :: 0 <= i < |lines| ==> item(lines[i]) == Some(contents[i])
    requires rest != [] ==> item(rest[0]).None?
    ensures Taken(lines + rest, item) == contents
  {
    if lines == [] {
      assert lines + rest == rest;
    } else {
      TakenAll(lines[1..], rest, item, contents[1..]);
      assert (lines + rest)[1..] == lines[1..] + rest;
      assert contents == [contents[0]] + contents[1..];
    }
  }

  lemma BulletIsRead(mark: char, item: string, indent: string)
    requires IsBlank(indent) && mark in "-*+"
    ensures var line := indent + ([mark, ' '] + EscapeAll(item));
      && !IsBlank(line) && FenceStart(line).None? && HeadingOf(line).None? && !IsThematicBreak(line)
      && UnorderedItem(line) == Some(EscapeAll(item))
  {
    hide IsBlank, FenceStart, HeadingOf, OrderedItem, QuoteContent, Marks, TrimStart, EscapeAll;
    var inside := EscapeAll(item);
    var body := [mark, ' '] + inside;
    MarkedLine(indent, body);
    TrimIndent(indent, body);
    assert body[1..] == " " + inside && body[2..] == inside;
    assert Marks(body[1..]) == Marks(inside) by { SkipBlank(inside); }
    EscapedTrimStart(item);
    if !IsBlank(item) {
      TrimStartStops(item);
      TrimStartStops(inside);
      EscapedFront(TrimStart(item));
      assert Marks(body)[1] == Marks(inside)[0] != mark;
    } else {
      BlankHasNoMarks(inside);
    }
  }

  lemma SkipBlank(s: string)
    ensures Marks(" " + s) == Marks(s)
  {
    assert (" " + s)[1..] == s && IsWhitespace(' ');
  }

  lemma BulletsAt(lines: seq<string>)
    requires lines != [] && !IsBlank(lines[0]) && FenceStart(lines[0]).None? && HeadingOf(lines[0]).None?
    requires !IsThematicBreak(lines[0]) && UnorderedItem(lines[0]).Some?
    ensures var items := Taken(lines, UnorderedItem); BlockAt(lines) == (UnorderedList(ItemInlines(items)), |items|)
  {
    hide IsBlank, FenceStart, HeadingOf, IsThematicBreak, UnorderedItem, OrderedItem, QuoteContent, Taken, CodeLines,
      Joined, ParagraphLines, JoinedFrom, ParseInlines;
  }

  lemma {:induction false} DigitsThen(digits: string, rest: string)
    requires (forall i :: 0 <= i < |digits| ==> '0' <= digits[i] <= '9') && (rest != "" ==> !('0' <= rest[0] <= '9'))
    ensures DigitCount(digits + rest) == |digits|
  {
    if digits == "" {
      assert digits + rest == rest;
    } else {
      DigitsThen(digits[1..], rest);
      assert (digits + rest)[1..] == digits[1..] + rest;
    }
  }

  lemma NumberIsRead(digits: string, item: string, indent: string)
    requires IsBlank(indent) && IsNumber(digits)
    ensures var line := indent + (digits + (". " + EscapeAll(item)));
      && !IsBlank(line) && FenceStart(line).None? && HeadingOf(line).None? && !IsThematicBreak(line)
      && UnorderedItem(line).None? && OrderedItem(line) == Some(EscapeAll(item))
  {
    hide IsBlank, FenceStart, HeadingOf, IsThematicBreak, UnorderedItem, QuoteContent, Marks, TrimStart, EscapeAll,
      DigitCount;
    var body := digits + (". " + EscapeAll(item));
    assert body[0] == digits[0] && !IsWhitespace(body[0]);
    MarkedLine(indent, body);
    TrimIndent(indent, body);
    DigitsThen(digits, ". " + EscapeAll(item));
    assert body[|digits|..] == ". " + EscapeAll(item) && body[|digits| + 2..] == EscapeAll(item);
  }

  lemma NumbersAt(lines: seq<string>)
    requires lines != [] && !IsBlank(lines[0]) && FenceStart(lines[0]).None? && HeadingOf(lines[0]).None?
    requires !IsThematicBreak(lines[0]) && UnorderedItem(lines[0]).None? && OrderedItem(lines[0]).Some?
    ensures var items := Taken(lines, OrderedItem); BlockAt(lines) == (OrderedList(ItemInlines(items)), |items|)
  {
    hide IsBlank, FenceStart, HeadingOf, IsThematicBreak, UnorderedItem, OrderedItem, QuoteContent, Taken, CodeLines,
      Joined, ParagraphLines, JoinedFrom, ParseInlines;
  }

  // ---------- quotes ----------

  lemma QuoteIsRead(line: QuoteLine, indent: string)
    requires IsBlank(indent) && (line.spaced || !StartsWithSpace(line.text))
    ensures var s := indent + ((if line.spaced then "> " else ">") + EscapeAll(line.text));
      && !IsBlank(s) && !FenceStart(s).Some? && HeadingOf(s).None? && !IsThematicBreak(s)
      && UnorderedItem(s).None? && OrderedItem(s).None? && QuoteContent(s) == Some(EscapeAll(line.text))
  {
    hide IsBlank, FenceStart, HeadingOf, IsThematicBreak, UnorderedItem, OrderedItem, Marks, TrimStart, EscapeAll;
    var inside := EscapeAll(line.text);
    var body := (if line.spaced then "> " else ">") + inside;
    assert !IsWhitespace('>');
    MarkedLine(indent, body);
    TrimIndent(indent, body);
    assert body[if line.spaced then 2 else 1..] == inside;
    if line.text != "" {
      EscapedFirst(line.text);
    } else {
      EscapeKeepsEmpty(line.text);
    }
  }

  lemma EscapedFirst(t: string)
    requires t != ""
    ensures EscapeAll(t) != "" && (EscapeAll(t)[0] == ' ' <==> t[0] == ' ')
  {
    assert EscapeAll(t)[0] == Quoted(t[0])[0];
  }

  lemma QuoteAt(lines: seq<string>)
    requires lines != [] && !IsBlank(lines[0]) && FenceStart(lines[0]).None? && HeadingOf(lines[0]).None?
    requires !IsThematicBreak(lines[0]) && UnorderedItem(lines[0]).None? && OrderedItem(lines[0]).None?
    requires QuoteContent(lines[0]).Some?
    ensures var contents := Taken(lines, QuoteContent);
      BlockAt(lines) == (BlockQuote(Inlines(JoinedFrom("", contents))), |contents|)
  {
    hide IsBlank, FenceStart, HeadingOf, IsThematicBreak, UnorderedItem, OrderedItem, QuoteContent, Taken, CodeLines,
      Joined, ParagraphLines, JoinedFrom, ParseInlines;
  }

  lemma {:induction false} QuoteJoins(quoted: seq<QuoteLine>)
    ensures JoinedFrom("", EscapeLines(Texts(quoted))) == EscapeAll(QuoteText(quoted))
  {
    hide EscapeAll, JoinLines;
    var contents := EscapeLines(Texts(quoted));
    if quoted == [] {
      EscapeKeepsEmpty("");
    } else {
      EscapeKeepsEmpty(quoted[0].text);
      assert contents[0] == EscapeAll(quoted[0].text);
      if quoted[0].text == "" {
        QuoteJoins(quoted[1..]);
        assert contents[1..] == EscapeLines(Texts(quoted[1..]));
        assert "" + contents[0] == "";
      } else {
        JoinedWhole(contents);
        EscapeJoined(Texts(quoted));
      }
    }
  }

  // ---------- every block, whatever follows it ----------

  /** Lists, quotes and text go on until a blank line. */
  predicate NeedsBlank(w: Written) {
    w.WrittenBullets? || w.WrittenNumbers? || w.WrittenQuote? || w.WrittenText?
  }

  predicate MayFollow(w: Written, rest: seq<string>) {
    rest == [] || !NeedsBlank(w) || IsBlank(rest[0])
  }

  ghost predicate ReadsAs(w: Written, indent: string, rest: seq<string>) {
    var lines := LinesOf(w, indent);
    lines != [] && !IsBlank(lines[0]) && BlockAt(lines + rest) == (BlockOf(w), |lines|)
  }

  lemma HeadingReads(w: Written, indent: string, rest: seq<string>)
    requires Legal(w) && IsBlank(indent) && w.WrittenHeading?
    ensures ReadsAs(w, indent, rest)
  {
    hide IsBlank, FenceStart, HeadingOf, BlockAt, ParseInlines, TrimEnd;
    HeadingIsRead(w.level, w.gap, w.text, indent);
    HeadingAt(LinesOf(w, indent) + rest);
    EscapedReadsBack(TrimEnd(w.text), 0, FULL);
  }

  lemma RuleReads(w: Written, indent: string, rest: seq<string>)
    requires Legal(w) && w.WrittenRule?
    ensures ReadsAs(w, indent, rest)
  {
    hide IsBlank, FenceStart, HeadingOf, IsThematicBreak, BlockAt, IsRule;
    RuleIsRead(w.rule, if IsRule(w.rule, '-') then '-' else if IsRule(w.rule, '*') then '*' else '_');
    RuleAt(LinesOf(w, indent) + rest);
  }

  lemma EscapedItems(items: seq<string>)
    ensures ItemInlines(EscapeLines(items)) == seq(|items|, i requires 0 <= i < |items| => Shown([], items[i]))
  {
    hide ParseInlines, Shown, EscapeAll;
    forall i | 0 <= i < |items|
      ensures ItemInlines(EscapeLines(items))[i] == Shown([], items[i])
    {
      EscapedReadsBack(items[i], 0, FULL);
    }
  }

  lemma BulletsRead(w: Written, indent: string, rest: seq<string>)
    requires Legal(w) && IsBlank(indent) && w.WrittenBullets? && MayFollow(w, rest)
    ensures ReadsAs(w, indent, rest)
  {
    hide IsBlank, FenceStart, HeadingOf, IsThematicBreak, UnorderedItem, BlockAt, Taken, EscapeAll, ItemInlines, Shown;
    var lines, contents := LinesOf(w, indent), EscapeLines(w.items);
    forall i | 0 <= i < |lines|
      ensures UnorderedItem(lines[i]) == Some(contents[i])
    {
      BulletIsRead(w.mark, w.items[i], indent);
    }
    BulletIsRead(w.mark, w.items[0], indent);
    if rest != [] {
      BlankStartsNothing(rest[0]);
    }
    TakenAll(lines, rest, UnorderedItem, contents);
    BulletsAt(lines + rest);
    EscapedItems(w.items);
  }

  function NumberedTexts(numbered: seq<NumberedItem>): (texts: seq<string>)
    ensures |texts| == |numbered|
  {
    seq(|numbered|, i requires 0 <= i < |numbered| => numbered[i].text)
  }

  lemma NumbersRead(w: Written, indent: string, rest: seq<string>)
    requires Legal(w) && IsBlank(indent) && w.WrittenNumbers? && MayFollow(w, rest)
    ensures ReadsAs(w, indent, rest)
  {
    hide IsBlank, FenceStart, HeadingOf, IsThematicBreak, UnorderedItem, OrderedItem, BlockAt, Taken, EscapeAll,
      ItemInlines, Shown;
    var lines, texts := LinesOf(w, indent), NumberedTexts(w.numbered);
    var contents := EscapeLines(texts);
    forall i | 0 <= i < |lines|
      ensures OrderedItem(lines[i]) == Some(contents[i])
    {
      NumberIsRead(w.numbered[i].digits, w.numbered[i].text, indent);
    }
    NumberIsRead(w.numbered[0].digits, w.numbered[0].text, indent);
    if rest != [] {
      BlankStartsNothing(rest[0]);
    }
    TakenAll(lines, rest, OrderedItem, contents);
    NumbersAt(lines + rest);
    EscapedItems(texts);
    assert BlockOf(w).items == seq(|texts|, i requires 0 <= i < |texts| => Shown([], texts[i]));
  }

  lemma QuoteReads(w: Written, indent: string, rest: seq<string>)
    requires Legal(w) && IsBlank(indent) && w.WrittenQuote? && MayFollow(w, rest)
    ensures ReadsAs(w, indent, rest)
  {
    hide IsBlank, FenceStart, HeadingOf, IsThematicBreak, UnorderedItem, OrderedItem, QuoteContent, BlockAt, Taken,
      EscapeAll, JoinedFrom, QuoteText, Shown, ParseInlines;
    var lines, contents := LinesOf(w, indent), EscapeLines(Texts(w.quoted));
    forall i | 0 <= i < |lines|
      ensures QuoteContent(lines[i]) == Some(contents[i])
    {
      QuoteIsRead(w.quoted[i], indent);
    }
    QuoteIsRead(w.quoted[0], indent);
    if rest != [] {
      BlankStartsNothing(rest[0]);
    }
    TakenAll(lines, rest, QuoteContent, contents);
    QuoteAt(lines + rest);
    QuoteJoins(w.quoted);
    EscapedReadsBack(QuoteText(w.quoted), 0, FULL);
  }

  lemma FenceOpens(fence: Fence, info: string, indent: string)
    requires IsBlank(indent) && fence.mark in "`~" && fence.length >= 3 && (info != "" ==> info[0] != fence.mark)
    ensures var line := indent + (InlineMarkdown.Repeat(fence.mark, fence.length) + info);
      !IsBlank(line) && FenceStart(line) == Some(fence)
  {
    hide IsBlank, TrimStart, Marks, RunLength;
    var body := InlineMarkdown.Repeat(fence.mark, fence.length) + info;
    assert body[0] == fence.mark && !IsWhitespace(fence.mark);
    TrimIndent(indent, body);
    RunThen(fence.mark, fence.length, 0, info);
  }

  lemma FenceCloses(fence: Fence, closing: Closing)
    requires IsBlank(closing.before) && IsBlank(closing.behind) && fence.mark in "`~" && fence.length >= 3
    ensures ClosesFence(closing.before + InlineMarkdown.Repeat(fence.mark, fence.length + closing.extra)
      + closing.behind,
      fence)
  {
    hide IsBlank, Trim;
    var marks := InlineMarkdown.Repeat(fence.mark, fence.length + closing.extra);
    assert marks[0] == fence.mark == marks[|marks| - 1] && !IsWhitespace(fence.mark);
    TrimAround(closing.before, marks, closing.behind);
  }

  predicate IsClosing(line: string, fence: Fence, closing: Closing) {
    && IsBlank(closing.before) && IsBlank(closing.behind)
    && line == closing.before + InlineMarkdown.Repeat(fence.mark, fence.length + closing.extra) + closing.behind
  }

  /** A line closes a fence exactly when it is such a closing line. */
  lemma ClosesExactly(line: string, fence: Fence)
    requires fence.mark in "`~" && fence.length >= 3
    ensures ClosesFence(line, fence) <==> exists closing :: IsClosing(line, fence, closing)
  {
    hide IsBlank, Trim, InlineMarkdown.Repeat;
    if ClosesFence(line, fence) {
      var before, behind := WhiteSpaceAround(line);
      var t := Trim(line);
      var closing := Closing(before, |t| - fence.length, behind);
      assert t == InlineMarkdown.Repeat(fence.mark, fence.length + closing.extra);
      assert IsClosing(line, fence, closing);
    }
    if closing :| IsClosing(line, fence, closing) {
      FenceCloses(fence, closing);
    }
  }

  lemma WhiteSpaceAround(line: string) returns (before: string, behind: string)
    ensures IsBlank(before) && IsBlank(behind) && line == before + Trim(line) + behind
  {
    before := WhiteSpaceBefore(line);
    behind := WhiteSpaceBehind(TrimStart(line));
  }

  lemma {:induction false} WhiteSpaceBefore(s: string) returns (before: string)
    ensures IsBlank(before) && s == before + TrimStart(s)
  {
    before := "";
    if s != "" && IsWhitespace(s[0]) {
      var more := WhiteSpaceBefore(s[1..]);
      before := [s[0]] + more;
    }
  }

  lemma {:induction false} WhiteSpaceBehind(s: string) returns (behind: string)
    ensures IsBlank(behind) && s == TrimEnd(s) + behind
    decreases |s|
  {
    behind := "";
    if s != "" && IsWhitespace(s[|s| - 1]) {
      var more := WhiteSpaceBehind(s[..|s| - 1]);
      behind := more + [s[|s| - 1]];
    }
  }

  lemma CodeReads(w: Written, indent: string, rest: seq<string>)
    requires Legal(w) && IsBlank(indent) && w.WrittenCode?
    ensures ReadsAs(w, indent, rest)
  {
    hide IsBlank, FenceStart, ClosesFence, CodeLines, BlockAt, NoneCloses, InlineMarkdown.Repeat;
    var written := LinesOf(w, indent);
    var last := written[|w.code| + 1];
    var lines := written + rest;
    FenceOpens(w.fence, w.info, indent);
    FenceCloses(w.fence, w.closing);
    CodeLinesStop(w.code, [last] + rest, w.fence);
    assert lines[1..] == w.code + ([last] + rest);
    CodeBlockAt(lines);
    assert lines[1..|w.code| + 1] == w.code;
  }

  /** A fence that nothing closes takes all lines that follow. */
  lemma UnclosedFenceTakesAll(fence: Fence, code: seq<string>)
    requires fence.mark in "`~" && fence.length >= 3 && NoneCloses(code, fence)
    ensures Blocks([InlineMarkdown.Repeat(fence.mark, fence.length)] + code)
      == [CodeBlock(if code == [] then "" else JoinLines(code))]
  {
    hide IsBlank, FenceStart, ClosesFence, CodeLines, BlockAt, Blocks, NoneCloses, InlineMarkdown.Repeat;
    var lines := [InlineMarkdown.Repeat(fence.mark, fence.length)] + code;
    FenceIsRead(fence);
    AllCodeLines(code, fence);
    assert lines[1..] == code && lines[1..|code| + 1] == code;
    CodeBlockAt(lines);
    FirstBlock(lines);
    NoBlocks();
    assert lines[|lines|..] == [];
  }

  lemma {:induction false} AllCodeLines(code: seq<string>, fence: Fence)
    requires NoneCloses(code, fence)
    ensures CodeLines(code, fence) == |code|
  {
    hide ClosesFence;
    if code != [] {
      AllCodeLines(code[1..], fence);
    }
  }

  lemma {:induction false} ParagraphStops(lines: seq<string>, rest: seq<string>, first: bool)
    requires forall i :: 0 <= i < |lines| ==> !IsBlank(lines[i]) && !StartsBlock(lines[i])
    requires rest == [] || IsBlank(rest[0])
    ensures ParagraphLines(lines + rest, first) == |lines|
  {
    hide IsBlank, StartsBlock;
    if lines == [] {
      assert lines + rest == rest;
    } else {
      assert (lines + rest)[1..] == lines[1..] + rest;
      ParagraphStops(lines[1..], rest, false);
    }
  }

  lemma TextReads(w: Written, indent: string, rest: seq<string>)
    requires Legal(w) && w.WrittenText? && MayFollow(w, rest)
    ensures ReadsAs(w, indent, rest)
  {
    hide IsBlank, StartsBlock, BlockAt, ParagraphLines, EscapeAll, JoinedFrom, JoinLines, Shown, ParseInlines;
    var lines := EscapeLines(w.lines);
    forall i | 0 <= i < |lines|
      ensures !IsBlank(lines[i]) && !StartsBlock(lines[i])
    {
      EscapedStartsNothing(w.lines[i]);
    }
    ParagraphStops(lines, rest, true);
    ParagraphAt(lines + rest);
    assert (lines + rest)[..|lines|] == lines;
    NotBlankNotEmpty(lines[0]);
    JoinedWhole(lines);
    EscapeJoined(w.lines);
    EscapedReadsBack(JoinLines(w.lines), 0, FULL);
  }

  lemma NotBlankNotEmpty(line: string)
    requires !IsBlank(line)
    ensures line != ""
  {
  }

  /** Every block is read from the front of its source, in front of anything that may follow it. */
  lemma WrittenReads(w: Written, indent: string, rest: seq<string>)
    requires Legal(w) && IsBlank(indent) && MayFollow(w, rest)
    ensures ReadsAs(w, indent, rest)
  {
    hide ReadsAs, Legal, IsBlank, MayFollow;
    match w
    case WrittenHeading(_, _, _) => HeadingReads(w, indent, rest);
    case WrittenBullets(_, _) => BulletsRead(w, indent, rest);
    case WrittenNumbers(_) => NumbersRead(w, indent, rest);
    case WrittenQuote(_) => QuoteReads(w, indent, rest);
    case WrittenRule(_) => RuleReads(w, indent, rest);
    case WrittenCode(_, _, _, _) => CodeReads(w, indent, rest);
    case WrittenText(_) => TextReads(w, indent, rest);
  }

  // ---------- whole documents ----------

  /** A block with its indentation and the blank lines behind it. */
  datatype Placed = Placed(block: Written, indent: string, after: seq<string>)

  ghost predicate LegalDocument(document: seq<Placed>) {
    forall i :: 0 <= i < |document| ==>
      && Legal(document[i].block) && IsBlank(document[i].indent)
      && (forall j :: 0 <= j < |document[i].after| ==> IsBlank(document[i].after[j]))
      && (NeedsBlank(document[i].block) && i + 1 < |document| ==> document[i].after != [])
  }

  function SourceLines(document: seq<Placed>): seq<string> {
    if document == [] then []
    else LinesOf(document[0].block, document[0].indent) + document[0].after + SourceLines(document[1..])
  }

  function BlocksOf(document: seq<Placed>): seq<SafeBlock> {
    if document == [] then [] else [BlockOf(document[0].block)] + BlocksOf(document[1..])
  }

  lemma {:induction false} BlankLines(blank: seq<string>, rest: seq<string>)
    requires forall i :: 0 <= i < |blank| ==> IsBlank(blank[i])
    ensures Blocks(blank + rest) == Blocks(rest)
  {
    hide IsBlank, BlockAt;
    if blank == [] {
      assert blank + rest == rest;
    } else {
      assert (blank + rest)[1..] == blank[1..] + rest;
      BlankLines(blank[1..], rest);
    }
  }

  /** A document of literal blocks, in any order, is read block by block. */
  lemma {:induction false} DocumentReads(document: seq<Placed>)
    requires LegalDocument(document)
    ensures Blocks(SourceLines(document)) == BlocksOf(document)
  {
    hide IsBlank, BlockAt, Legal, LinesOf, BlockOf, Blocks, NeedsBlank;
    if document == [] {
      NoBlocks();
    } else {
      var Placed(w, indent, after) := document[0];
      var lines, later := LinesOf(w, indent), SourceLines(document[1..]);
      assert LegalDocument(document[1..]);
      DocumentReads(document[1..]);
      NothingLater(document);
      WrittenReads(w, indent, after + later);
      assert lines + after + later == lines + (after + later);
      FirstBlock(lines + (after + later));
      assert (lines + (after + later))[|lines|..] == after + later;
      BlankLines(after, later);
    }
  }

  lemma NothingLater(document: seq<Placed>)
    requires document != [] && LegalDocument(document)
    ensures MayFollow(document[0].block, document[0].after + SourceLines(document[1..]))
  {
    hide IsBlank, Legal, LinesOf, NeedsBlank;
    if document[0].after != [] {
      assert (document[0].after + SourceLines(document[1..]))[0] == document[0].after[0];
    } else if |document| == 1 {
      assert SourceLines(document[1..]) == [];
    }
  }

  /** The same from one string. */
  lemma DocumentMeans(document: seq<Placed>)
    requires LegalDocument(document) && SourceLines(document) != []
    requires forall i :: 0 <= i < |SourceLines(document)| ==>
      '\n' !in SourceLines(document)[i] && '\r' !in SourceLines(document)[i]
    ensures Parse(JoinLines(SourceLines(document))) == BlocksOf(document)
  {
    hide Blocks, LegalDocument, SourceLines, BlocksOf, JoinLines, SplitLines, NormalizeNewlines;
    var lines := SourceLines(document);
    JoinAvoids(lines, '\r');
    NormalizedNewlines(JoinLines(lines));
    SplitJoin(lines);
    DocumentReads(document);
  }

  // ---------- the HTML that is written ----------

  /** Literal text as HTML: five characters are escaped and line breaks are tags. */
  function TextHtml(t: string): string {
    if t == "" then "" else (if t[0] == '\n' then "<br>" else EscapeChar(t[0])) + TextHtml(t[1..])
  }

  lemma InlinesStep(inlines: seq<SafeInline>)
    requires inlines != []
    ensures InlinesHtml(inlines) == InlineHtml(inlines[0]) + InlinesHtml(inlines[1..])
  {
    hide InlineHtml;
  }

  lemma NoInlines()
    ensures InlinesHtml([]) == ""
  {
  }

  lemma {:induction false} InlinesConcat(a: seq<SafeInline>, b: seq<SafeInline>)
    ensures InlinesHtml(a + b) == InlinesHtml(a) + InlinesHtml(b)
  {
    hide InlineHtml, InlinesHtml;
    if a == [] {
      assert a + b == b;
      NoInlines();
    } else {
      InlinesConcat(a[1..], b);
      assert (a + b)[1..] == a[1..] + b && (a + b)[0] == a[0];
      InlinesStep(a);
      InlinesStep(a + b);
      Associates(InlineHtml(a[0]), InlinesHtml(a[1..]), InlinesHtml(b));
    }
  }

  lemma OneInline(inline: SafeInline)
    ensures InlinesHtml([inline]) == InlineHtml(inline)
  {
    hide InlineHtml;
    assert [inline][1..] == [];
    NoInlines();
  }

  lemma EscapedStep(t: string)
    requires t != ""
    ensures EscapedText(t) == EscapeChar(t[0]) + EscapedText(t[1..])
  {
    hide EscapeChar;
  }

  lemma NoText()
    ensures EscapedText("") == ""
  {
  }

  lemma {:induction false} EscapedTextConcat(a: string, b: string)
    ensures EscapedText(a + b) == EscapedText(a) + EscapedText(b)
  {
    hide EscapeChar, EscapedText;
    if a == "" {
      assert a + b == b;
      NoText();
    } else {
      EscapedTextConcat(a[1..], b);
      assert (a + b)[1..] == a[1..] + b && (a + b)[0] == a[0];
      EscapedStep(a);
      EscapedStep(a + b);
      Associates(EscapeChar(a[0]), EscapedText(a[1..]), EscapedText(b));
    }
  }

  lemma PushedTextHtml(nodes: seq<SafeInline>, text: string)
    ensures InlinesHtml(PushText(nodes, text)) == InlinesHtml(nodes) + EscapedText(text)
  {
    hide InlinesHtml, EscapedText;
    if text == "" {
      NoText();
      assert InlinesHtml(nodes) + "" == InlinesHtml(nodes);
    } else if nodes != [] && nodes[|nodes| - 1].Text? {
      var front, last := nodes[..|nodes| - 1], nodes[|nodes| - 1];
      assert nodes == front + [last] && PushText(nodes, text) == front + [Text(last.text + text)];
      InlinesConcat(front, [last]);
      InlinesConcat(front, [Text(last.text + text)]);
      OneInline(last);
      OneInline(Text(last.text + text));
      EscapedTextConcat(last.text, text);
    } else {
      InlinesConcat(nodes, [Text(text)]);
      OneInline(Text(text));
    }
  }

  lemma PushedHtml(nodes: seq<SafeInline>, c: char)
    ensures InlinesHtml(PushText(nodes, [c])) == InlinesHtml(nodes) + EscapeChar(c)
  {
    hide InlinesHtml, PushText, EscapeChar;
    PushedTextHtml(nodes, [c]);
    EscapedStep([c]);
    assert [c][1..] == "";
    NoText();
  }

  lemma {:induction false} ShownHtml(nodes: seq<SafeInline>, t: string)
    ensures InlinesHtml(Shown(nodes, t)) == InlinesHtml(nodes) + TextHtml(t)
    decreases |t|
  {
    hide InlinesHtml, EscapeChar, PushText;
    if t != "" {
      ShownHtml(if t[0] == '\n' then nodes + [LineBreak] else PushText(nodes, [t[0]]), t[1..]);
      if t[0] == '\n' {
        InlinesConcat(nodes, [LineBreak]);
        OneInline(LineBreak);
      } else {
        PushedHtml(nodes, t[0]);
      }
    }
  }

  function ItemsOf(texts: seq<string>): string {
    if texts == [] then "" else "<li>" + TextHtml(texts[0]) + "</li>" + ItemsOf(texts[1..])
  }

  /** The HTML of a written block. */
  function HtmlOf(w: Written): string {
    match w
    case WrittenHeading(level, _, text) =>
      var digit := ['0', '1', '2', '3', '4', '5', '6', '7', '8', '9'][level % 10];
      "<h" + [digit] + ">" + TextHtml(TrimEnd(text)) + "</h" + [digit] + ">"
    case WrittenBullets(_, items) => "<ul>" + ItemsOf(items) + "</ul>"
    case WrittenNumbers(numbered) => "<ol>" + ItemsOf(NumberedTexts(numbered)) + "</ol>"
    case WrittenQuote(quoted) => "<blockquote>" + TextHtml(QuoteText(quoted)) + "</blockquote>"
    case WrittenRule(_) => "<hr>"
    case WrittenCode(_, _, code, _) => "<pre><code>" + EscapedText(if code == [] then "" else JoinLines(code))
      + "</code></pre>"
    case WrittenText(lines) => "<p>" + TextHtml(if lines == [] then "" else JoinLines(lines)) + "</p>"
  }

  lemma ShownAlone(t: string)
    ensures InlinesHtml(Shown([], t)) == TextHtml(t)
  {
    hide Shown, TextHtml;
    ShownHtml([], t);
    assert InlinesHtml([]) == "";
  }

  lemma {:induction false} ItemsAreWritten(items: seq<seq<SafeInline>>, texts: seq<string>)
    requires |items| == |texts| && forall i :: 0 <= i < |items| ==> items[i] == Shown([], texts[i])
    ensures ItemsHtml(items) == ItemsOf(texts)
  {
    hide Shown, TextHtml, InlinesHtml;
    if items != [] {
      ShownAlone(texts[0]);
      ItemsAreWritten(items[1..], texts[1..]);
      assert OpenTag(Li) == "<li>" && CloseTag(Li) == "</li>";
    }
  }

  lemma HeadingTags(level: nat)
    requires 1 <= level <= 6
    ensures var digit := ['0', '1', '2', '3', '4', '5', '6', '7', '8', '9'][level % 10];
      OpenTag(HeadingTag(level)) == "<h" + [digit] + ">" && CloseTag(HeadingTag(level)) == "</h" + [digit] + ">"
  {
  }

  lemma HeadingIsWritten(level: nat, content: seq<SafeInline>)
    requires 1 <= level <= 6
    ensures var digit := ['0', '1', '2', '3', '4', '5', '6', '7', '8', '9'][level % 10];
      BlockHtml(Heading(level, content)) == "<h" + [digit] + ">" + InlinesHtml(content) + "</h" + [digit] + ">"
  {
    hide InlinesHtml, OpenTag, CloseTag;
    HeadingTags(level);
  }

  lemma PartsAreWritten(content: seq<SafeInline>, items: seq<seq<SafeInline>>, code: string)
    ensures BlockHtml(Paragraph(content)) == "<p>" + InlinesHtml(content) + "</p>"
    ensures BlockHtml(BlockQuote(content)) == "<blockquote>" + InlinesHtml(content) + "</blockquote>"
    ensures BlockHtml(UnorderedList(items)) == "<ul>" + ItemsHtml(items) + "</ul>"
    ensures BlockHtml(OrderedList(items)) == "<ol>" + ItemsHtml(items) + "</ol>"
    ensures BlockHtml(CodeBlock(code)) == "<pre><code>" + EscapedText(code) + "</code></pre>"
    ensures BlockHtml(ThematicBreak) == "<hr>"
  {
    hide InlinesHtml, ItemsHtml, EscapedText, OpenTag, CloseTag;
    TagsAre();
  }

  lemma TagsAre()
    ensures OpenTag(P) == "<p>" && CloseTag(P) == "</p>"
    ensures OpenTag(Quote) == "<blockquote>" && CloseTag(Quote) == "</blockquote>"
    ensures OpenTag(Ul) == "<ul>" && CloseTag(Ul) == "</ul>" && OpenTag(Ol) == "<ol>" && CloseTag(Ol) == "</ol>"
    ensures OpenTag(Pre) + OpenTag(CodeTag) == "<pre><code>" && CloseTag(CodeTag) + CloseTag(Pre) == "</code></pre>"
  {
  }

  lemma BlockIsWritten(w: Written)
    requires Legal(w)
    ensures BlockHtml(BlockOf(w)) == HtmlOf(w)
  {
    hide BlockHtml, Shown, TextHtml, InlinesHtml, ItemsOf, ItemsHtml, QuoteText, JoinLines, TrimEnd, EscapedText;
    hide IsBlank, IsRule, NoneCloses, IsNumber, StartsWithSpace;
    PartsAreWritten([], [], "");
    match w
    case WrittenHeading(level, _, text) =>
      ShownAlone(TrimEnd(text));
      HeadingIsWritten(level, Shown([], TrimEnd(text)));
    case WrittenBullets(_, items) =>
      ItemsAreWritten(BlockOf(w).items, items);
      PartsAreWritten([], BlockOf(w).items, "");
    case WrittenNumbers(numbered) =>
      ItemsAreWritten(BlockOf(w).items, NumberedTexts(numbered));
      PartsAreWritten([], BlockOf(w).items, "");
    case WrittenQuote(quoted) =>
      ShownAlone(QuoteText(quoted));
      PartsAreWritten(BlockOf(w).inlines, [], "");
    case WrittenRule(_) =>
    case WrittenCode(_, _, code, _) => PartsAreWritten([], [], BlockOf(w).code);
    case WrittenText(lines) =>
      ShownAlone(JoinLines(lines));
      PartsAreWritten(BlockOf(w).inlines, [], "");
  }

  function HtmlOfAll(document: seq<Placed>): string {
    if document == [] then "" else HtmlOf(document[0].block) + HtmlOfAll(document[1..])
  }

  lemma {:induction false} BlocksAreWritten(document: seq<Placed>)
    requires LegalDocument(document)
    ensures DocumentHtml(BlocksOf(document)) == HtmlOfAll(document)
  {
    hide BlockHtml, HtmlOf, BlockOf, Legal, IsBlank, NeedsBlank;
    if document != [] {
      assert LegalDocument(document[1..]);
      BlocksAreWritten(document[1..]);
      BlockIsWritten(document[0].block);
    }
  }

  /** From source to HTML: a document of literal blocks is rendered as its blocks, one after the other. */
  lemma DocumentIsRendered(document: seq<Placed>)
    requires LegalDocument(document) && SourceLines(document) != []
    requires forall i :: 0 <= i < |SourceLines(document)| ==>
      '\n' !in SourceLines(document)[i] && '\r' !in SourceLines(document)[i]
    ensures DocumentHtml(Parse(JoinLines(SourceLines(document)))) == HtmlOfAll(document)
  {
    hide LegalDocument, SourceLines, BlocksOf, HtmlOfAll, DocumentHtml, Parse, JoinLines;
    DocumentMeans(document);
    BlocksAreWritten(document);
  }

  lemma MarkIsRendered(delimiter: Delimiter, t: string)
    requires IsMark(delimiter) && t != "" && !(Doubled(delimiter.mark) && EndsWith(t, delimiter.mark[0]))
    ensures InlinesHtml(Inlines(delimiter.mark + EscapeAll(t) + delimiter.mark))
      == InlineHtml(Wrap(delimiter.style, Shown([], t)))
  {
    hide ParseInlines, EscapeAll, Shown, InlinesHtml, InlineHtml;
    StyledReadsBack(delimiter, t, 0, FULL);
    OneInline(Wrap(delimiter.style, Shown([], t)));
  }

  lemma StylesAreWritten(content: seq<SafeInline>)
    ensures InlineHtml(Emphasis(content)) == "<em>" + InlinesHtml(content) + "</em>"
    ensures InlineHtml(Strong(content)) == "<strong>" + InlinesHtml(content) + "</strong>"
    ensures InlineHtml(Strikethrough(content)) == "<del>" + InlinesHtml(content) + "</del>"
  {
    hide InlinesHtml, OpenTag, CloseTag;
    StyleTagsAre();
  }

  lemma StyleTagsAre()
    ensures OpenTag(Em) == "<em>" && CloseTag(Em) == "</em>" && OpenTag(Del) == "<del>" && CloseTag(Del) == "</del>"
    ensures OpenTag(StrongTag) == "<strong>" && CloseTag(StrongTag) == "</strong>"
  {
  }

  /** Marked text as HTML. A doubled mark needs text that does not end in its own character. */
  lemma MarkedTextIsRendered(t: string)
    requires t != ""
    ensures InlinesHtml(Inlines("*" + EscapeAll(t) + "*")) == "<em>" + TextHtml(t) + "</em>"
    ensures InlinesHtml(Inlines("_" + EscapeAll(t) + "_")) == "<em>" + TextHtml(t) + "</em>"
    ensures t[|t| - 1] != '*' ==>
      InlinesHtml(Inlines("**" + EscapeAll(t) + "**")) == "<strong>" + TextHtml(t) + "</strong>"
    ensures t[|t| - 1] != '_' ==>
      InlinesHtml(Inlines("__" + EscapeAll(t) + "__")) == "<strong>" + TextHtml(t) + "</strong>"
    ensures t[|t| - 1] != '~' ==>
      InlinesHtml(Inlines("~~" + EscapeAll(t) + "~~")) == "<del>" + TextHtml(t) + "</del>"
  {
    hide Inlines, EscapeAll, Shown, TextHtml, InlinesHtml, InlineHtml;
    ShownAlone(t);
    StylesAreWritten(Shown([], t));
    MarkIsRendered(Delimiter("*", EmphasisStyle), t);
    MarkIsRendered(Delimiter("_", EmphasisStyle), t);
    if t[|t| - 1] != '*' {
      MarkIsRendered(Delimiter("**", StrongStyle), t);
    }
    if t[|t| - 1] != '_' {
      MarkIsRendered(Delimiter("__", StrongStyle), t);
    }
    if t[|t| - 1] != '~' {
      MarkIsRendered(Delimiter("~~", StrikethroughStyle), t);
    }
  }

  // ---------- links ----------

  /** A target behind its caption: in brackets and as code. */
  function TargetHtml(target: string): string {
    " (<code>" + EscapedText(target) + "</code>)"
  }

  lemma TargetIsWritten(nodes: seq<SafeInline>, target: string)
    ensures InlinesHtml(Target(nodes, target)) == InlinesHtml(nodes) + TargetHtml(target)
  {
    hide InlinesHtml, EscapedText, PushText;
    var begun := PushText(nodes, " (");
    PlainMarks();
    PushedTextHtml(nodes, " (");
    InlinesConcat(begun, [SafeInline.Code(target)]);
    OneInline(SafeInline.Code(target));
    CodeIsWritten(target);
    PushedTextHtml(begun + [SafeInline.Code(target)], ")");
  }

  lemma CodeIsWritten(text: string)
    ensures InlineHtml(SafeInline.Code(text)) == "<code>" + EscapedText(text) + "</code>"
  {
    hide EscapedText;
    assert OpenTag(CodeTag) == "<code>" && CloseTag(CodeTag) == "</code>";
  }

  lemma PlainMarks()
    ensures EscapedText(" (") == " (" && EscapedText(")") == ")"
    ensures EscapedText("Image: ") == "Image: " && EscapedText("unnamed") == "unnamed"
  {
    hide EscapedText;
    PlainEscapes(" (");
    PlainEscapes(")");
    PlainEscapes("Image: ");
    PlainEscapes("unnamed");
  }

  lemma {:induction false} PlainEscapes(t: string)
    requires forall i :: 0 <= i < |t| ==> t[i] != '&' && t[i] != '<' && t[i] != '>' && t[i] != '"' && t[i] != '\''
    ensures EscapedText(t) == t
  {
    if t != "" {
      PlainEscapes(t[1..]);
      assert t == [t[0]] + t[1..];
    }
  }

  /** A link as HTML: its caption and, if that differs, its target as code; never as a link. */
  lemma LinkIsRendered(caption: string, destination: string)
    requires Balanced(destination, 0)
    ensures var target := Trim(destination);
      InlinesHtml(Inlines("[" + EscapeAll(caption) + "](" + destination + ")")) ==
        if caption == "" then EscapedText(target)
        else if target == "" || target == EscapeAll(caption) then TextHtml(caption)
        else TextHtml(caption) + TargetHtml(target)
  {
    hide ParseInlines, EscapeAll, Shown, TextHtml, InlinesHtml, Target, TargetHtml, EscapedText, Trim, Balanced,
      PushText;
    var target := Trim(destination);
    assert LinkSource(false, caption, destination) == "[" + EscapeAll(caption) + "](" + destination + ")";
    LinkReadsBack(false, caption, destination, 0, FULL);
    PushedTextHtml([], target);
    NoInlines();
    ShownAlone(caption);
    TargetIsWritten(Shown([], caption), target);
    assert "" + EscapedText(target) == EscapedText(target);
  }

  /** An image as HTML: announced, with its caption or the word unnamed, and its target as code. */
  lemma ImageIsRendered(caption: string, destination: string)
    requires Balanced(destination, 0)
    ensures var target := Trim(destination);
      var shown := "Image: " + if caption == "" then "unnamed" else TextHtml(caption);
      InlinesHtml(Inlines("![" + EscapeAll(caption) + "](" + destination + ")")) ==
        if target == "" then shown else shown + TargetHtml(target)
  {
    hide ParseInlines, EscapeAll, Shown, TextHtml, InlinesHtml, Target, TargetHtml, EscapedText, Trim, Balanced,
      PushText;
    var target := Trim(destination);
    assert LinkSource(true, caption, destination) == "![" + EscapeAll(caption) + "](" + destination + ")";
    LinkReadsBack(true, caption, destination, 0, FULL);
    PlainMarks();
    NoInlines();
    var announced := PushText([], "Image: ");
    PushedTextHtml([], "Image: ");
    assert InlinesHtml(announced) == "Image: ";
    PushedTextHtml(announced, "unnamed");
    InlinesConcat(announced, Shown([], caption));
    ShownAlone(caption);
    TargetIsWritten(if caption == "" then PushText(announced, "unnamed") else announced + Shown([], caption), target);
  }
}
