// The block parser of extension Markdown and the guarantee on its HTML
// (crates/key-extension-gpui/src/safe_markdown.rs).
module SafeBlocks {
  import opened Options
  import opened Unicode
  import opened Documents
  import opened SafeHtml
  import opened SafeMarkdown
  import opened InlineTheorems
  import InlineMarkdown

  const MIN_FENCE: nat := 3

  function Inlines(source: string): seq<SafeInline> { ParseInlines(source, 0, FULL).0 }

  // ---------- one line ----------

  datatype Fence = Fence(mark: char, length: nat)

  function FenceStart(line: string): (r: Option<Fence>)
    ensures r.Some? ==> r.value.length >= MIN_FENCE && r.value.mark in "`~"
  {
    var trimmed := TrimStart(line);
    if trimmed == "" || (trimmed[0] != '`' && trimmed[0] != '~') then None
    else
      var n := RunLength(trimmed, 0, trimmed[0]);
      if n >= MIN_FENCE then Some(Fence(trimmed[0], n)) else None
  }

  predicate ClosesFence(line: string, fence: Fence) {
    var trimmed := Trim(line);
    |trimmed| >= fence.length && forall i :: 0 <= i < |trimmed| ==> trimmed[i] == fence.mark
  }

  function HeadingOf(line: string): (r: Option<(nat, string)>)
    ensures r.Some? ==> 1 <= r.value.0 <= 6
  {
    var trimmed := TrimStart(line);
    var level := RunLength(trimmed, 0, '#');
    if 1 <= level <= 6 && level < |trimmed| && (trimmed[level] == ' ' || trimmed[level] == '\t') then
      Some((level, TrimEnd(trimmed[level + 1..])))
    else None
  }

  function Marks(s: string): string {
    if s == "" then "" else (if IsWhitespace(s[0]) then "" else [s[0]]) + Marks(s[1..])
  }

  /** Three or more of one of the marks, whatever whitespace is around and between them. */
  predicate IsThematicBreak(line: string) {
    var marks := Marks(line);
    |marks| >= 3 && marks[0] in "-*_" && forall i :: 0 <= i < |marks| ==> marks[i] == marks[0]
  }

  function UnorderedItem(line: string): Option<string> {
    var trimmed := TrimStart(line);
    if |trimmed| >= 2 && trimmed[0] in "-*+" && trimmed[1] == ' ' then Some(trimmed[2..]) else None
  }

  function OrderedItem(line: string): Option<string> {
    var trimmed := TrimStart(line);
    var n := DigitCount(trimmed);
    if n > 0 && ". " <= trimmed[n..] then Some(trimmed[n + 2..]) else None
  }

  function QuoteContent(line: string): Option<string> {
    var trimmed := TrimStart(line);
    if trimmed == "" || trimmed[0] != '>' then None
    else if |trimmed| >= 2 && trimmed[1] == ' ' then Some(trimmed[2..])
    else Some(trimmed[1..])
  }

  predicate StartsBlock(line: string) {
    || FenceStart(line).Some? || HeadingOf(line).Some? || IsThematicBreak(line)
    || UnorderedItem(line).Some? || OrderedItem(line).Some? || QuoteContent(line).Some?
  }

  // ---------- runs of lines ----------

  /** Number of leading lines that a fence keeps as code. */
  function CodeLines(lines: seq<string>, fence: Fence): (n: nat)
    ensures n <= |lines|
  {
    if lines == [] || ClosesFence(lines[0], fence) then 0 else 1 + CodeLines(lines[1..], fence)
  }

  /** Leading lines that a kind of item takes, with their content. */
  function Taken(lines: seq<string>, item: string -> Option<string>): (contents: seq<string>)
    ensures |contents| <= |lines|
    ensures lines != [] && item(lines[0]).Some? ==> contents != []
  {
    if lines == [] || item(lines[0]).None? then [] else [item(lines[0]).value] + Taken(lines[1..], item)
  }

  function Joined(lines: seq<string>): string {
    if lines == [] then "" else JoinLines(lines)
  }

  /** Lines joined so that empty ones in front leave no line break. */
  function JoinedFrom(text: string, lines: seq<string>): string
    decreases |lines|
  {
    if lines == [] then text
    else JoinedFrom((if text == "" then "" else text + "\n") + lines[0], lines[1..])
  }

  /** Leading lines of a paragraph; only the first may look like another block. */
  function ParagraphLines(lines: seq<string>, first: bool): (n: nat)
    ensures n <= |lines|
    ensures lines != [] && first && !IsBlank(lines[0]) ==> n > 0
  {
    if lines == [] || IsBlank(lines[0]) || (!first && StartsBlock(lines[0])) then 0
    else 1 + ParagraphLines(lines[1..], false)
  }

  function ItemInlines(items: seq<string>): (r: seq<seq<SafeInline>>)
    ensures |r| == |items| && forall i :: 0 <= i < |items| ==> r[i] == Inlines(items[i])
  {
    seq(|items|, i requires 0 <= i < |items| => Inlines(items[i]))
  }

  // ---------- blocks ----------

  /** The block at the front of some lines, and how many lines it takes. */
  function BlockAt(lines: seq<string>): (r: (SafeBlock, nat))
    requires lines != [] && !IsBlank(lines[0])
    ensures 0 < r.1 <= |lines|
  {
    var line := lines[0];
    var fence := FenceStart(line);
    if fence.Some? then
      var n := CodeLines(lines[1..], fence.value);
      (CodeBlock(Joined(lines[1..n + 1])), if n + 1 < |lines| then n + 2 else n + 1)
    else if HeadingOf(line).Some? then (Heading(HeadingOf(line).value.0, Inlines(HeadingOf(line).value.1)), 1)
    else if IsThematicBreak(line) then (ThematicBreak, 1)
    else if UnorderedItem(line).Some? then
      var items := Taken(lines, UnorderedItem);
      (UnorderedList(ItemInlines(items)), |items|)
    else if OrderedItem(line).Some? then
      var items := Taken(lines, OrderedItem);
      (OrderedList(ItemInlines(items)), |items|)
    else if QuoteContent(line).Some? then
      var contents := Taken(lines, QuoteContent);
      (BlockQuote(Inlines(JoinedFrom("", contents))), |contents|)
    else
      var n := ParagraphLines(lines, true);
      (Paragraph(Inlines(JoinedFrom("", lines[..n]))), n)
  }

  function Blocks(lines: seq<string>): seq<SafeBlock>
    decreases |lines|
  {
    if lines == [] then []
    else if IsBlank(lines[0]) then Blocks(lines[1..])
    else
      var (block, n) := BlockAt(lines);
      [block] + Blocks(lines[n..])
  }

  function Parse(markdown: string): seq<SafeBlock> {
    Blocks(SplitLines(NormalizeNewlines(markdown)))
  }

  // ---------- the same parser with loops ----------

  method TakeCode(lines: seq<string>, start: nat, fence: Fence) returns (codeLines: seq<string>, next: nat)
    requires start <= |lines|
    ensures next == start + CodeLines(lines[start..], fence) && codeLines == lines[start..next]
  {
    codeLines, next := [], start;
    while next < |lines| && !ClosesFence(lines[next], fence)
      invariant start <= next <= |lines| && codeLines == lines[start..next]
      invariant next + CodeLines(lines[next..], fence) == start + CodeLines(lines[start..], fence)
    {
      assert lines[next..][1..] == lines[next + 1..];
      codeLines := codeLines + [lines[next]];
      next := next + 1;
    }
  }

  method TakeItems(lines: seq<string>, start: nat, item: string -> Option<string>)
      returns (items: seq<seq<SafeInline>>, next: nat)
    requires start <= |lines|
    ensures items == ItemInlines(Taken(lines[start..], item)) && next == start + |Taken(lines[start..], item)|
  {
    hide ParseInlines, Taken;
    items, next := [], start;
    ghost var contents: seq<string> := [];
    while next < |lines| && item(lines[next]).Some?
      invariant start <= next <= |lines| && |items| == |contents| == next - start
      invariant contents + Taken(lines[next..], item) == Taken(lines[start..], item)
      invariant forall i :: 0 <= i < |items| ==> items[i] == Inlines(contents[i])
    {
      TakenStep(lines, next, item);
      var inlines, _ := ParseBlockInlines(item(lines[next]).value);
      items := items + [inlines];
      contents := contents + [item(lines[next]).value];
      next := next + 1;
    }
    TakenStep(lines, next, item);
    assert contents == Taken(lines[start..], item);
    assert items == ItemInlines(contents);
  }

  lemma TakenStep(lines: seq<string>, next: nat, item: string -> Option<string>)
    requires next <= |lines|
    ensures Taken(lines[next..], item) ==
      if next < |lines| && item(lines[next]).Some? then [item(lines[next]).value] + Taken(lines[next + 1..], item)
      else []
  {
    if next < |lines| {
      assert lines[next..][1..] == lines[next + 1..];
    }
  }

  method TakeQuote(lines: seq<string>, start: nat) returns (quote: string, next: nat)
    requires start <= |lines|
    ensures quote == JoinedFrom("", Taken(lines[start..], QuoteContent))
      && next == start + |Taken(lines[start..], QuoteContent)|
  {
    quote, next := "", start;
    while next < |lines| && QuoteContent(lines[next]).Some?
      invariant start <= next <= |lines|
      invariant next + |Taken(lines[next..], QuoteContent)| == start + |Taken(lines[start..], QuoteContent)|
      invariant JoinedFrom(quote, Taken(lines[next..], QuoteContent))
        == JoinedFrom("", Taken(lines[start..], QuoteContent))
    {
      assert lines[next..][1..] == lines[next + 1..];
      if quote != "" {
        quote := quote + "\n";
      }
      quote := quote + QuoteContent(lines[next]).value;
      next := next + 1;
    }
  }

  method TakeParagraph(lines: seq<string>, start: nat) returns (paragraph: string, next: nat)
    requires start <= |lines|
    ensures next == start + ParagraphLines(lines[start..], true) && paragraph == JoinedFrom("", lines[start..next])
  {
    paragraph, next := "", start;
    ghost var end := start + ParagraphLines(lines[start..], true);
    while next < |lines| && !IsBlank(lines[next]) && (paragraph == "" || !StartsBlock(lines[next]))
      invariant start <= next <= end <= |lines| && (paragraph == "" <==> next == start)
      invariant next + ParagraphLines(lines[next..], next == start) == end
      invariant JoinedFrom(paragraph, lines[next..end]) == JoinedFrom("", lines[start..end])
    {
      assert lines[next..][1..] == lines[next + 1..] && lines[next..end][1..] == lines[next + 1..end];
      if paragraph != "" {
        paragraph := paragraph + "\n";
      }
      paragraph := paragraph + lines[next];
      next := next + 1;
    }
  }

  method ParseLines(lines: seq<string>) returns (blocks: seq<SafeBlock>)
    ensures blocks == Blocks(lines)
  {
    hide IsBlank, FenceStart, HeadingOf, IsThematicBreak, UnorderedItem, OrderedItem, QuoteContent, ParseInlines,
      CodeLines, Taken, ParagraphLines, JoinedFrom, BlockAt;
    blocks := [];
    var lineIndex := 0;
    while lineIndex < |lines|
      invariant lineIndex <= |lines|
      invariant blocks + Blocks(lines[lineIndex..]) == Blocks(lines)
    {
      var line := lines[lineIndex];
      ghost var rest := lines[lineIndex..];
      if IsBlank(line) {
        assert rest[1..] == lines[lineIndex + 1..];
        lineIndex := lineIndex + 1;
        continue;
      }
      var block, next := ParseBlock(lines, lineIndex);
      assert rest[next - lineIndex..] == lines[next..];
      blocks := blocks + [block];
      lineIndex := next;
    }
  }

  method ParseBlock(lines: seq<string>, start: nat) returns (block: SafeBlock, next: nat)
    requires start < |lines| && !IsBlank(lines[start])
    ensures (block, next - start) == BlockAt(lines[start..])
    ensures start < next <= |lines|
  {
    hide IsBlank, FenceStart, HeadingOf, IsThematicBreak, UnorderedItem, OrderedItem, QuoteContent, ParseInlines,
      CodeLines, Taken, ParagraphLines, JoinedFrom, JoinLines;
    var line := lines[start];
    next := start + 1;
    var fence := FenceStart(line);
    if fence.Some? {
      var codeLines;
      codeLines, next := TakeCode(lines, next, fence.value);
      assert lines[start..][1..] == lines[start + 1..];
      assert lines[start..][1..next - start] == codeLines;
      if next < |lines| {
        next := next + 1;
      }
      return CodeBlock(Joined(codeLines)), next;
    }
    var heading := HeadingOf(line);
    if heading.Some? {
      var inlines, _ := ParseBlockInlines(heading.value.1);
      return Heading(heading.value.0, inlines), next;
    }
    if IsThematicBreak(line) {
      return ThematicBreak, next;
    }
    if UnorderedItem(line).Some? {
      var items;
      items, next := TakeItems(lines, start, UnorderedItem);
      return UnorderedList(items), next;
    }
    if OrderedItem(line).Some? {
      var items;
      items, next := TakeItems(lines, start, OrderedItem);
      return OrderedList(items), next;
    }
    if QuoteContent(line).Some? {
      var quote;
      quote, next := TakeQuote(lines, start);
      var inlines, _ := ParseBlockInlines(quote);
      return BlockQuote(inlines), next;
    }
    var paragraph;
    paragraph, next := TakeParagraph(lines, start);
    assert lines[start..][..next - start] == lines[start..next];
    var inlines, _ := ParseBlockInlines(paragraph);
    block := Paragraph(inlines);
  }

  /** The whole renderer: its HTML lexes to the allowlist, nests, and spells the plain text. */
  method SafeMarkdownHtml(markdown: string) returns (html: string, ghost toks: seq<Tok>)
    ensures html == DocumentHtml(Parse(markdown))
    ensures Lex(html) == Some(toks) && Nested(toks, []) && TextOf(toks) == PlainDocument(Parse(markdown))
  {
    hide Blocks, DocumentHtml, PlainDocument, DocumentToks, Lex, Nested, TextOf, NormalizeNewlines, SplitLines;
    var blocks := ParseLines(SplitLines(NormalizeNewlines(markdown)));
    html := WriteDocument(blocks);
    toks := DocumentToks(blocks);
    HtmlReadsBack(blocks);
    HtmlIsNested(blocks);
    TextOfDocument(blocks);
  }

  // ---------- what every parsed block looks like ----------

  predicate Shallow(inlines: seq<SafeInline>) { Height(inlines) <= 16 }

  predicate WellFormed(block: SafeBlock) {
    match block
    case Heading(level, inlines) =>
      1 <= level <= 6 && Name(HeadingTag(level)) == ['h', ('0' as int + level) as char] && Shallow(inlines)
    case Paragraph(inlines) => Shallow(inlines)
    case BlockQuote(inlines) => Shallow(inlines)
    case UnorderedList(items) => items != [] && forall i :: 0 <= i < |items| ==> Shallow(items[i])
    case OrderedList(items) => items != [] && forall i :: 0 <= i < |items| ==> Shallow(items[i])
    case CodeBlock(_) => true
    case ThematicBreak => true
  }

  lemma HeadingTagShowsLevel(level: nat)
    requires 1 <= level <= 6
    ensures Name(HeadingTag(level)) == ['h', ('0' as int + level) as char]
  {
  }

  lemma ItemsAreShallow(items: seq<string>)
    ensures forall i :: 0 <= i < |items| ==> Shallow(ItemInlines(items)[i])
  {
    hide Height, ParseInlines;
    forall i | 0 <= i < |items|
      ensures Shallow(ItemInlines(items)[i])
    {
      NestingIsBounded(items[i], 0, FULL);
    }
  }

  lemma BlockIsWellFormed(lines: seq<string>)
    requires lines != [] && !IsBlank(lines[0])
    ensures WellFormed(BlockAt(lines).0)
  {
    hide IsBlank, FenceStart, HeadingOf, IsThematicBreak, UnorderedItem, OrderedItem, QuoteContent, ParseInlines,
      CodeLines, Taken, ParagraphLines, JoinedFrom, Height;
    match BlockAt(lines).0
    case UnorderedList(_) => ItemsAreShallow(Taken(lines, UnorderedItem));
    case OrderedList(_) => ItemsAreShallow(Taken(lines, OrderedItem));
    case BlockQuote(_) => NestingIsBounded(JoinedFrom("", Taken(lines, QuoteContent)), 0, FULL);
    case Heading(level, _) =>
      HeadingTagShowsLevel(level);
      NestingIsBounded(HeadingOf(lines[0]).value.1, 0, FULL);
    case Paragraph(_) => NestingIsBounded(JoinedFrom("", lines[..ParagraphLines(lines, true)]), 0, FULL);
    case _ =>
  }

  /** Heading levels stay in 1 to 6, lists are never empty and nesting never exceeds the maximum depth. */
  lemma {:induction false} BlocksAreWellFormed(lines: seq<string>)
    ensures forall i :: 0 <= i < |Blocks(lines)| ==> WellFormed(Blocks(lines)[i])
    decreases |lines|
  {
    hide IsBlank, BlockAt, WellFormed;
    if lines != [] {
      if IsBlank(lines[0]) {
        BlocksAreWellFormed(lines[1..]);
      } else {
        BlockIsWellFormed(lines);
        BlocksAreWellFormed(lines[BlockAt(lines).1..]);
      }
    }
  }

  // ---------- fenced code ----------

  lemma {:induction false} RunOfRepeated(c: char, n: nat, at: nat)
    requires at <= n
    ensures RunLength(InlineMarkdown.Repeat(c, n), at, c) == n - at
    decreases n - at
  {
    if at < n {
      RunOfRepeated(c, n, at + 1);
    }
  }

  lemma FenceIsRead(fence: Fence)
    requires fence.mark in "`~" && fence.length >= MIN_FENCE
    ensures var line := InlineMarkdown.Repeat(fence.mark, fence.length);
      !IsBlank(line) && FenceStart(line) == Some(fence) && ClosesFence(line, fence)
  {
    var line := InlineMarkdown.Repeat(fence.mark, fence.length);
    assert line[0] == fence.mark && line[|line| - 1] == fence.mark;
    assert !IsWhitespace(fence.mark);
    assert Trim(line) == line && TrimStart(line) == line;
    RunOfRepeated(fence.mark, fence.length, 0);
  }

  predicate NoneCloses(code: seq<string>, fence: Fence) {
    forall i :: 0 <= i < |code| ==> !ClosesFence(code[i], fence)
  }

  lemma {:induction false} CodeLinesStop(code: seq<string>, rest: seq<string>, fence: Fence)
    requires rest != [] && ClosesFence(rest[0], fence)
    ensures CodeLines(code + rest, fence) <= |code|
    ensures CodeLines(code + rest, fence) == |code| <==> NoneCloses(code, fence)
    ensures var n := CodeLines(code + rest, fence); ClosesFence((code + rest)[n], fence)
  {
    hide ClosesFence;
    if code == [] {
      assert code + rest == rest;
    } else {
      assert (code + rest)[1..] == code[1..] + rest;
      if !ClosesFence(code[0], fence) {
        CodeLinesStop(code[1..], rest, fence);
        assert NoneCloses(code, fence) <==> NoneCloses(code[1..], fence) by {
          if NoneCloses(code[1..], fence) {
            forall i | 0 <= i < |code|
              ensures !ClosesFence(code[i], fence)
            {
              assert i > 0 ==> code[i] == code[1..][i - 1];
            }
          }
        }
      }
    }
  }

  lemma {:induction false} JoinedLength(lines: seq<string>, n: nat)
    requires n < |lines| && lines[n] != ""
    ensures |Joined(lines[..n])| < |Joined(lines)|
  {
    if n == 0 {
      if |lines| == 1 {
        assert JoinLines(lines) == lines[0];
      }
    } else {
      JoinedLength(lines[1..], n - 1);
      assert lines[..n][1..] == lines[1..][..n - 1];
    }
  }

  lemma FirstBlock(lines: seq<string>)
    requires lines != [] && !IsBlank(lines[0])
    ensures Blocks(lines) == [BlockAt(lines).0] + Blocks(lines[BlockAt(lines).1..])
  {
    hide IsBlank, BlockAt;
  }

  lemma CodeBlockAt(lines: seq<string>)
    requires lines != [] && !IsBlank(lines[0]) && FenceStart(lines[0]).Some?
    ensures var n := CodeLines(lines[1..], FenceStart(lines[0]).value);
      BlockAt(lines) == (CodeBlock(Joined(lines[1..n + 1])), if n + 1 < |lines| then n + 2 else n + 1)
  {
    hide IsBlank, FenceStart, HeadingOf, IsThematicBreak, UnorderedItem, OrderedItem, QuoteContent, Taken, CodeLines,
      Joined, ParagraphLines, JoinedFrom, ParseInlines;
  }

  lemma FencedBlockAt(fence: Fence, code: seq<string>, lines: seq<string>)
    requires fence.mark in "`~" && fence.length >= MIN_FENCE
    requires lines == [InlineMarkdown.Repeat(fence.mark, fence.length)]
      + (code + [InlineMarkdown.Repeat(fence.mark, fence.length)]) && !IsBlank(lines[0])
    ensures var n := CodeLines(lines[1..], fence);
      n <= |code| && lines[1..] == code + [lines[0]] && BlockAt(lines) == (CodeBlock(Joined(code[..n])), n + 2)
  {
    hide IsBlank, FenceStart, ClosesFence, CodeLines, Joined, BlockAt, InlineMarkdown.Repeat;
    FenceIsRead(fence);
    assert lines[1..] == code + [lines[0]];
    CodeLinesStop(code, [lines[0]], fence);
    CodeBlockAt(lines);
    var n := CodeLines(lines[1..], fence);
    assert lines[1..n + 1] == lines[1..][..n] == code[..n];
  }

  /** Lines between a fence and its like are kept as code, exactly when none of them closes the fence. */
  lemma FencedCodeReadsBack(fence: Fence, code: seq<string>)
    requires fence.mark in "`~" && fence.length >= MIN_FENCE
    ensures var line := InlineMarkdown.Repeat(fence.mark, fence.length);
      Blocks([line] + (code + [line])) == [CodeBlock(Joined(code))] <==> NoneCloses(code, fence)
  {
    hide IsBlank, Blocks, BlockAt, ClosesFence, CodeLines, Joined, InlineMarkdown.Repeat;
    var line := InlineMarkdown.Repeat(fence.mark, fence.length);
    var lines := [line] + (code + [line]);
    FenceIsRead(fence);
    FencedBlockAt(fence, code, lines);
    FirstBlock(lines);
    CodeLinesStop(code, [line], fence);
    var n := CodeLines(code + [line], fence);
    if NoneCloses(code, fence) {
      assert code[..n] == code && lines[n + 2..] == [];
      NoBlocks();
    } else {
      assert code[n] != "" by { ClosingIsLong((code + [line])[n], fence); }
      JoinedLength(code, n);
      assert Blocks(lines)[0] == CodeBlock(Joined(code[..n]));
    }
  }

  lemma NoBlocks()
    ensures Blocks([]) == []
  {
  }

  lemma ClosingIsLong(line: string, fence: Fence)
    requires ClosesFence(line, fence) && fence.length >= MIN_FENCE
    ensures line != ""
  {
  }

  // ---------- escaped text is one literal paragraph ----------

  function EscapeLines(lines: seq<string>): (r: seq<string>)
    ensures |r| == |lines| && forall i :: 0 <= i < |lines| ==> r[i] == EscapeAll(lines[i])
  {
    seq(|lines|, i requires 0 <= i < |lines| => EscapeAll(lines[i]))
  }

  lemma {:induction false} EscapeConcat(a: string, b: string)
    ensures EscapeAll(a + b) == EscapeAll(a) + EscapeAll(b)
  {
    hide Quoted;
    if a == "" {
      assert a + b == b;
    } else {
      EscapeConcat(a[1..], b);
      assert (a + b)[1..] == a[1..] + b && (a + b)[0] == a[0];
      assert Quoted(a[0]) + (EscapeAll(a[1..]) + EscapeAll(b)) == (Quoted(a[0]) + EscapeAll(a[1..])) + EscapeAll(b);
    }
  }

  lemma {:induction false} EscapeJoined(lines: seq<string>)
    requires lines != []
    ensures EscapeAll(JoinLines(lines)) == JoinLines(EscapeLines(lines))
  {
    if |lines| > 1 {
      EscapeJoined(lines[1..]);
      EscapeConcat(lines[0], "\n" + JoinLines(lines[1..]));
      EscapeConcat("\n", JoinLines(lines[1..]));
      assert EscapeAll("\n") == "\n" by { assert "\n"[1..] == "" && Quoted('\n') == "\n"; }
      assert EscapeLines(lines)[1..] == EscapeLines(lines[1..]);
    }
  }

  lemma {:induction false} EscapeAvoids(t: string, c: char)
    requires c !in t && c != '\\'
    ensures c !in EscapeAll(t)
  {
    if t != "" {
      EscapeAvoids(t[1..], c);
    }
  }

  /** Leading whitespace is left alone, and what follows it is escaped or is no punctuation. */
  lemma {:induction false} EscapedTrimStart(t: string)
    ensures TrimStart(EscapeAll(t)) == EscapeAll(TrimStart(t))
    ensures IsBlank(EscapeAll(t)) <==> IsBlank(t)
  {
    if t != "" {
      var c, rest := t[0], EscapeAll(t[1..]);
      var s := EscapeAll(t);
      assert s == Quoted(c) + rest && s[0] == Quoted(c)[0];
      if IsWhitespace(c) {
        assert !IsAsciiPunctuation(c) && s[1..] == rest;
        EscapedTrimStart(t[1..]);
        BlankTail(t);
        BlankTail(s);
      } else {
        assert !IsWhitespace(s[0]);
      }
    }
  }

  lemma BlankTail(s: string)
    requires s != ""
    ensures IsBlank(s) <==> IsWhitespace(s[0]) && IsBlank(s[1..])
  {
    if IsWhitespace(s[0]) && IsBlank(s[1..]) {
      forall i | 0 <= i < |s|
        ensures IsWhitespace(s[i])
      {
        assert i > 0 ==> s[i] == s[1..][i - 1];
      }
    }
  }

  lemma {:induction false} TrimStartStops(s: string)
    requires !IsBlank(s)
    ensures TrimStart(s) != "" && !IsWhitespace(TrimStart(s)[0]) && Marks(s) != "" && Marks(s)[0] == TrimStart(s)[0]
  {
    BlankTail(s);
    if IsWhitespace(s[0]) {
      TrimStartStops(s[1..]);
    }
  }

  lemma {:induction false} EscapedDigits(t: string)
    ensures DigitCount(EscapeAll(t)) == DigitCount(t) && EscapeAll(t)[DigitCount(t)..] == EscapeAll(t[DigitCount(t)..])
  {
    if t != "" {
      var s := EscapeAll(t);
      assert s == Quoted(t[0]) + EscapeAll(t[1..]) && s[0] == Quoted(t[0])[0];
      if '0' <= t[0] <= '9' {
        EscapedDigits(t[1..]);
        assert s[1..] == EscapeAll(t[1..]);
      }
    }
  }

  lemma EscapedStartsNothing(line: string)
    requires !IsBlank(line)
    ensures !IsBlank(EscapeAll(line)) && !StartsBlock(EscapeAll(line))
  {
    hide IsBlank, TrimStart, DigitCount, Marks, RunLength, OrderedItem, EscapeAll;
    var s := EscapeAll(line);
    EscapedTrimStart(line);
    TrimStartStops(line);
    TrimStartStops(s);
    EscapedFront(TrimStart(line));
    EscapedIsNotOrdered(line);
    NoRun(TrimStart(s), '#');
  }

  lemma EscapedFront(t: string)
    requires t != ""
    ensures EscapeAll(t) != "" && (EscapeAll(t)[0] == '\\' || !IsAsciiPunctuation(EscapeAll(t)[0]))
  {
    assert EscapeAll(t)[0] == Quoted(t[0])[0];
  }

  lemma EscapedIsNotOrdered(line: string)
    ensures OrderedItem(EscapeAll(line)) == None
  {
    hide TrimStart, DigitCount, EscapeAll;
    EscapedTrimStart(line);
    var trimmed := TrimStart(line);
    EscapedDigits(trimmed);
    var after := trimmed[DigitCount(trimmed)..];
    if after != "" {
      EscapedFront(after);
    } else {
      EscapeKeepsEmpty(after);
    }
  }

  lemma NoRun(s: string, c: char)
    requires s != "" && s[0] != c
    ensures RunLength(s, 0, c) == 0
  {
  }

  lemma {:induction false} WholeParagraph(lines: seq<string>, first: bool)
    requires forall i :: 0 <= i < |lines| ==> !IsBlank(lines[i]) && !StartsBlock(lines[i])
    ensures ParagraphLines(lines, first) == |lines|
  {
    hide IsBlank, StartsBlock;
    if lines != [] {
      WholeParagraph(lines[1..], false);
    }
  }

  lemma {:induction false} JoinedFromIsJoin(text: string, lines: seq<string>)
    requires text != "" && lines != []
    ensures JoinedFrom(text, lines) == text + "\n" + JoinLines(lines)
    decreases |lines|
  {
    if |lines| > 1 {
      JoinedFromIsJoin(text + "\n" + lines[0], lines[1..]);
    }
  }

  lemma JoinedWhole(lines: seq<string>)
    requires lines != [] && lines[0] != ""
    ensures JoinedFrom("", lines) == JoinLines(lines)
  {
    assert "" + lines[0] == lines[0];
    assert JoinedFrom("", lines) == JoinedFrom(lines[0], lines[1..]);
    if |lines| > 1 {
      JoinedFromIsJoin(lines[0], lines[1..]);
      assert JoinLines(lines) == lines[0] + ("\n" + JoinLines(lines[1..]));
      assert lines[0] + "\n" + JoinLines(lines[1..]) == lines[0] + ("\n" + JoinLines(lines[1..]));
    }
  }

  lemma ParagraphAt(lines: seq<string>)
    requires lines != [] && !IsBlank(lines[0]) && !StartsBlock(lines[0])
    ensures var n := ParagraphLines(lines, true);
      BlockAt(lines) == (Paragraph(Inlines(JoinedFrom("", lines[..n]))), n)
  {
    hide IsBlank, FenceStart, HeadingOf, IsThematicBreak, UnorderedItem, OrderedItem, QuoteContent, Taken, CodeLines,
      Joined, ParagraphLines, JoinedFrom, ParseInlines;
  }

  lemma ParagraphOf(lines: seq<string>)
    requires lines != [] && forall i :: 0 <= i < |lines| ==> !IsBlank(lines[i]) && !StartsBlock(lines[i])
    ensures Blocks(lines) == [Paragraph(Inlines(JoinLines(lines)))]
  {
    hide ParseInlines, Blocks, BlockAt, StartsBlock, JoinedFrom, ParagraphLines, JoinLines;
    WholeParagraph(lines, true);
    ParagraphAt(lines);
    FirstBlock(lines);
    NoBlocks();
    assert lines[..|lines|] == lines && lines[|lines|..] == [];
    JoinedWhole(lines);
  }

  /** Escaped text with no blank line is one paragraph that shows exactly that text. */
  lemma EscapedTextReadsBack(t: string)
    requires '\r' !in t && forall i :: 0 <= i < |SplitLines(t)| ==> !IsBlank(SplitLines(t)[i])
    ensures Parse(EscapeAll(t)) == [Paragraph(Shown([], t))]
    ensures PlainDocument(Parse(EscapeAll(t))) == t
  {
    hide ParseInlines, Blocks, IsBlank, StartsBlock, EscapeAll, SplitLines, JoinLines, Shown, NormalizeNewlines;
    var lines := SplitLines(t);
    var escaped := EscapeLines(lines);
    JoinSplit(t);
    EscapeJoined(lines);
    EscapeAvoids(t, '\r');
    NormalizedNewlines(EscapeAll(t));
    forall i | 0 <= i < |lines|
      ensures '\n' !in escaped[i] && !IsBlank(escaped[i]) && !StartsBlock(escaped[i])
    {
      EscapeAvoids(lines[i], '\n');
      EscapedStartsNothing(lines[i]);
    }
    SplitJoin(escaped);
    ParagraphOf(escaped);
    EscapedReadsBack(t, 0, FULL);
    OnlyParagraph(Shown([], t));
  }

  lemma OnlyParagraph(inlines: seq<SafeInline>)
    ensures PlainDocument([Paragraph(inlines)]) == Plain(inlines)
  {
    assert [Paragraph(inlines)][1..] == [];
    assert PlainDocument([]) == "";
  }
}
