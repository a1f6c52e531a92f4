// The inert document model of extension Markdown, its HTML, and an independent reader of that
// HTML (crates/key-extension-gpui/src/safe_markdown.rs).
module SafeHtml {
  import opened Collections
  import opened Options

  datatype SafeInline =
    | Text(text: string)
    | Emphasis(content: seq<SafeInline>)
    | Strong(content: seq<SafeInline>)
    | Strikethrough(content: seq<SafeInline>)
    | Code(text: string)
    | LineBreak

  datatype SafeBlock =
    | Paragraph(inlines: seq<SafeInline>)
    | Heading(level: nat, inlines: seq<SafeInline>)
    | BlockQuote(inlines: seq<SafeInline>)
    | UnorderedList(items: seq<seq<SafeInline>>)
    | OrderedList(items: seq<seq<SafeInline>>)
    | CodeBlock(code: string)
    | ThematicBreak

  // ---------- the allowlist ----------

  datatype Tag = P | H1 | H2 | H3 | H4 | H5 | H6 | Quote | Ul | Ol | Li | Pre | CodeTag | Em | StrongTag | Del

  function Name(tag: Tag): string {
    match tag
    case P => "p"
    case H1 => "h1"
    case H2 => "h2"
    case H3 => "h3"
    case H4 => "h4"
    case H5 => "h5"
    case H6 => "h6"
    case Quote => "blockquote"
    case Ul => "ul"
    case Ol => "ol"
    case Li => "li"
    case Pre => "pre"
    case CodeTag => "code"
    case Em => "em"
    case StrongTag => "strong"
    case Del => "del"
  }

  function HeadingTag(level: nat): Tag {
    match level
    case 1 => H1
    case 2 => H2
    case 3 => H3
    case 4 => H4
    case 5 => H5
    case _ => H6
  }

  function OpenTag(tag: Tag): string { "<" + Name(tag) + ">" }
  function CloseTag(tag: Tag): string { "</" + Name(tag) + ">" }

  // ---------- writing ----------

  function EscapeChar(c: char): string {
    if c == '&' then "&amp;"
    else if c == '<' then "&lt;"
    else if c == '>' then "&gt;"
    else if c == '"' then "&quot;"
    else if c == '\'' then "&#39;"
    else [c]
  }

  function EscapedText(text: string): string {
    if text == "" then "" else EscapeChar(text[0]) + EscapedText(text[1..])
  }

  function InlineHtml(inline: SafeInline): string
    decreases inline, 1
  {
    match inline
    case Text(text) => EscapedText(text)
    case Emphasis(content) => OpenTag(Em) + (InlinesHtml(content) + CloseTag(Em))
    case Strong(content) => OpenTag(StrongTag) + (InlinesHtml(content) + CloseTag(StrongTag))
    case Strikethrough(content) => OpenTag(Del) + (InlinesHtml(content) + CloseTag(Del))
    case Code(text) => OpenTag(CodeTag) + (EscapedText(text) + CloseTag(CodeTag))
    case LineBreak => "<br>"
  }

  function InlinesHtml(inlines: seq<SafeInline>): string
    decreases inlines, 0
  {
    if inlines == [] then "" else InlineHtml(inlines[0]) + InlinesHtml(inlines[1..])
  }

  function ItemsHtml(items: seq<seq<SafeInline>>): string {
    if items == [] then ""
    else (OpenTag(Li) + (InlinesHtml(items[0]) + CloseTag(Li))) + ItemsHtml(items[1..])
  }

  function BlockHtml(block: SafeBlock): string {
    match block
    case Paragraph(inlines) => OpenTag(P) + (InlinesHtml(inlines) + CloseTag(P))
    case Heading(level, inlines) => OpenTag(HeadingTag(level)) + (InlinesHtml(inlines) + CloseTag(HeadingTag(level)))
    case BlockQuote(inlines) => OpenTag(Quote) + (InlinesHtml(inlines) + CloseTag(Quote))
    case UnorderedList(items) => OpenTag(Ul) + (ItemsHtml(items) + CloseTag(Ul))
    case OrderedList(items) => OpenTag(Ol) + (ItemsHtml(items) + CloseTag(Ol))
    case CodeBlock(code) =>
      OpenTag(Pre) + ((OpenTag(CodeTag) + (EscapedText(code) + CloseTag(CodeTag))) + CloseTag(Pre))
    case ThematicBreak => "<hr>"
  }

  function DocumentHtml(blocks: seq<SafeBlock>): string {
    if blocks == [] then "" else BlockHtml(blocks[0]) + DocumentHtml(blocks[1..])
  }

  /** The program's writer, appending to one buffer. */
  method WriteEscapedText(text: string, html0: string) returns (html: string)
    ensures html == html0 + EscapedText(text)
  {
    html := html0;
    for i := 0 to |text|
      invariant html + EscapedText(text[i..]) == html0 + EscapedText(text)
    {
      assert text[i..][1..] == text[i + 1..];
      html := html + EscapeChar(text[i]);
    }
  }

  method WriteInline(inline: SafeInline, html0: string) returns (html: string)
    ensures html == html0 + InlineHtml(inline)
    decreases inline, 1
  {
    hide EscapedText, OpenTag, CloseTag, InlinesHtml;
    match inline
    case Text(text) => html := WriteEscapedText(text, html0);
    case Emphasis(content) =>
      html := WriteInlines(content, html0 + OpenTag(Em));
      html := html + CloseTag(Em);
    case Strong(content) =>
      html := WriteInlines(content, html0 + OpenTag(StrongTag));
      html := html + CloseTag(StrongTag);
    case Strikethrough(content) =>
      html := WriteInlines(content, html0 + OpenTag(Del));
      html := html + CloseTag(Del);
    case Code(text) =>
      html := WriteEscapedText(text, html0 + OpenTag(CodeTag));
      html := html + CloseTag(CodeTag);
    case LineBreak => html := html0 + "<br>";
  }

  method WriteInlines(inlines: seq<SafeInline>, html0: string) returns (html: string)
    ensures html == html0 + InlinesHtml(inlines)
    decreases inlines, 0
  {
    hide InlineHtml;
    html := html0;
    for i := 0 to |inlines|
      invariant html + InlinesHtml(inlines[i..]) == html0 + InlinesHtml(inlines)
    {
      assert inlines[i..][0] == inlines[i] && inlines[i..][1..] == inlines[i + 1..];
      html := WriteInline(inlines[i], html);
    }
  }

  method WriteListItems(items: seq<seq<SafeInline>>, html0: string) returns (html: string)
    ensures html == html0 + ItemsHtml(items)
  {
    hide InlinesHtml, OpenTag, CloseTag;
    html := html0;
    for i := 0 to |items|
      invariant html + ItemsHtml(items[i..]) == html0 + ItemsHtml(items)
    {
      assert items[i..][0] == items[i] && items[i..][1..] == items[i + 1..];
      html := WriteInlines(items[i], html + OpenTag(Li));
      html := html + CloseTag(Li);
    }
  }

  method WritePart(tag: Tag, inlines: seq<SafeInline>, html0: string) returns (html: string)
    ensures html == html0 + (OpenTag(tag) + (InlinesHtml(inlines) + CloseTag(tag)))
  {
    hide InlinesHtml, OpenTag, CloseTag;
    html := WriteInlines(inlines, html0 + OpenTag(tag));
    html := html + CloseTag(tag);
  }

  method WriteBlock(block: SafeBlock, html0: string) returns (html: string)
    ensures html == html0 + BlockHtml(block)
  {
    hide InlinesHtml, ItemsHtml, EscapedText, OpenTag, CloseTag;
    match block
    case Paragraph(inlines) => html := WritePart(P, inlines, html0);
    case Heading(level, inlines) => html := WritePart(HeadingTag(level), inlines, html0);
    case BlockQuote(inlines) => html := WritePart(Quote, inlines, html0);
    case UnorderedList(items) =>
      html := WriteListItems(items, html0 + OpenTag(Ul));
      html := html + CloseTag(Ul);
    case OrderedList(items) =>
      html := WriteListItems(items, html0 + OpenTag(Ol));
      html := html + CloseTag(Ol);
    case CodeBlock(code) =>
      html := WriteEscapedText(code, html0 + OpenTag(Pre) + OpenTag(CodeTag));
      html := html + CloseTag(CodeTag) + CloseTag(Pre);
    case ThematicBreak => html := html0 + "<hr>";
  }

  method WriteDocument(blocks: seq<SafeBlock>) returns (html: string)
    ensures html == DocumentHtml(blocks)
  {
    hide BlockHtml;
    html := "";
    for i := 0 to |blocks|
      invariant html + DocumentHtml(blocks[i..]) == DocumentHtml(blocks)
    {
      assert blocks[i..][0] == blocks[i] && blocks[i..][1..] == blocks[i + 1..];
      html := WriteBlock(blocks[i], html);
    }
  }

  // ---------- plain text ----------

  function Plain(inlines: seq<SafeInline>): string
    decreases inlines, 0
  {
    if inlines == [] then "" else PlainOne(inlines[0]) + Plain(inlines[1..])
  }

  function PlainOne(inline: SafeInline): string
    decreases inline, 1
  {
    match inline
    case Text(text) => text
    case Code(text) => text
    case LineBreak => "\n"
    case Emphasis(content) => Plain(content)
    case Strong(content) => Plain(content)
    case Strikethrough(content) => Plain(content)
  }

  function PlainItems(items: seq<seq<SafeInline>>): string {
    if items == [] then "" else Plain(items[0]) + PlainItems(items[1..])
  }

  function PlainBlock(block: SafeBlock): string {
    match block
    case Paragraph(inlines) => Plain(inlines)
    case Heading(_, inlines) => Plain(inlines)
    case BlockQuote(inlines) => Plain(inlines)
    case UnorderedList(items) => PlainItems(items)
    case OrderedList(items) => PlainItems(items)
    case CodeBlock(code) => code
    case ThematicBreak => ""
  }

  function PlainDocument(blocks: seq<SafeBlock>): string {
    if blocks == [] then "" else PlainBlock(blocks[0]) + PlainDocument(blocks[1..])
  }

  // ---------- the reader ----------

  datatype Tok = Open(tag: Tag) | Shut(tag: Tag) | Break | Rule | Char(c: char)

  function TagNamed(name: string): Option<Tag> {
    if name == "p" then Some(P)
    else if name == "h1" then Some(H1)
    else if name == "h2" then Some(H2)
    else if name == "h3" then Some(H3)
    else if name == "h4" then Some(H4)
    else if name == "h5" then Some(H5)
    else if name == "h6" then Some(H6)
    else if name == "blockquote" then Some(Quote)
    else if name == "ul" then Some(Ul)
    else if name == "ol" then Some(Ol)
    else if name == "li" then Some(Li)
    else if name == "pre" then Some(Pre)
    else if name == "code" then Some(CodeTag)
    else if name == "em" then Some(Em)
    else if name == "strong" then Some(StrongTag)
    else if name == "del" then Some(Del)
    else None
  }

  /** Index of the first closing angle bracket, or the length. */
  function TagEnd(s: string): (n: nat)
    ensures n <= |s|
  {
    if s == "" || s[0] == '>' then 0 else 1 + TagEnd(s[1..])
  }

  /** Reads what stands between angle brackets; anything but an allowed bare tag is refused. */
  function ReadTag(inside: string): Option<Tok> {
    if inside == "br" then Some(Break)
    else if inside == "hr" then Some(Rule)
    else if inside != "" && inside[0] == '/' then
      var tag := TagNamed(inside[1..]);
      if tag.Some? then Some(Shut(tag.value)) else None
    else
      var tag := TagNamed(inside);
      if tag.Some? then Some(Open(tag.value)) else None
  }

  /** The five entities; any other ampersand is refused. */
  function ReadEntity(s: string): (r: Option<(char, nat)>)
    ensures r.Some? ==> 0 < r.value.1 <= |s|
  {
    if "&amp;" <= s then Some(('&', 5))
    else if "&lt;" <= s then Some(('<', 4))
    else if "&gt;" <= s then Some(('>', 4))
    else if "&quot;" <= s then Some(('"', 6))
    else if "&#39;" <= s then Some(('\'', 5))
    else None
  }

  function Then(tok: Tok, rest: Option<seq<Tok>>): Option<seq<Tok>> {
    if rest.Some? then Some([tok] + rest.value) else None
  }

  function Ahead(toks: seq<Tok>, rest: Option<seq<Tok>>): Option<seq<Tok>> {
    if rest.Some? then Some(toks + rest.value) else None
  }

  function Lex(s: string): Option<seq<Tok>>
    decreases |s|
  {
    if s == "" then Some([])
    else if s[0] == '<' then
      var n := TagEnd(s[1..]);
      if n == |s| - 1 then None
      else
        var tok := ReadTag(s[1..1 + n]);
        if tok.None? then None else Then(tok.value, Lex(s[n + 2..]))
    else if s[0] == '&' then
      var entity := ReadEntity(s);
      if entity.None? then None else Then(Char(entity.value.0), Lex(s[entity.value.1..]))
    else if s[0] == '>' || s[0] == '"' || s[0] == '\'' then None
    else Then(Char(s[0]), Lex(s[1..]))
  }

  /** Every closing tag closes the innermost open one, and nothing stays open. */
  predicate Nested(toks: seq<Tok>, stack: seq<Tag>) {
    if toks == [] then stack == []
    else
      match toks[0]
      case Open(tag) => Nested(toks[1..], [tag] + stack)
      case Shut(tag) => stack != [] && stack[0] == tag && Nested(toks[1..], stack[1..])
      case _ => Nested(toks[1..], stack)
  }

  function TokText(tok: Tok): string {
    match tok
    case Char(c) => [c]
    case Break => "\n"
    case _ => ""
  }

  /** Dropping tags, reading a break as a newline. */
  function TextOf(toks: seq<Tok>): string {
    if toks == [] then "" else TokText(toks[0]) + TextOf(toks[1..])
  }

  // ---------- what the writer's output is, token by token ----------

  function CharToks(text: string): (toks: seq<Tok>)
    ensures |toks| == |text| && forall i :: 0 <= i < |text| ==> toks[i] == Char(text[i])
  {
    seq(|text|, i requires 0 <= i < |text| => Char(text[i]))
  }

  function Wrapped(tag: Tag, inside: seq<Tok>): seq<Tok> {
    [Open(tag)] + (inside + [Shut(tag)])
  }

  function InlineToks(inline: SafeInline): seq<Tok>
    decreases inline, 1
  {
    match inline
    case Text(text) => CharToks(text)
    case Emphasis(content) => Wrapped(Em, InlinesToks(content))
    case Strong(content) => Wrapped(StrongTag, InlinesToks(content))
    case Strikethrough(content) => Wrapped(Del, InlinesToks(content))
    case Code(text) => Wrapped(CodeTag, CharToks(text))
    case LineBreak => [Break]
  }

  function InlinesToks(inlines: seq<SafeInline>): seq<Tok>
    decreases inlines, 0
  {
    if inlines == [] then [] else InlineToks(inlines[0]) + InlinesToks(inlines[1..])
  }

  function ItemsToks(items: seq<seq<SafeInline>>): seq<Tok> {
    if items == [] then [] else Wrapped(Li, InlinesToks(items[0])) + ItemsToks(items[1..])
  }

  function BlockToks(block: SafeBlock): seq<Tok> {
    match block
    case Paragraph(inlines) => Wrapped(P, InlinesToks(inlines))
    case Heading(level, inlines) => Wrapped(HeadingTag(level), InlinesToks(inlines))
    case BlockQuote(inlines) => Wrapped(Quote, InlinesToks(inlines))
    case UnorderedList(items) => Wrapped(Ul, ItemsToks(items))
    case OrderedList(items) => Wrapped(Ol, ItemsToks(items))
    case CodeBlock(code) => Wrapped(Pre, Wrapped(CodeTag, CharToks(code)))
    case ThematicBreak => [Rule]
  }

  function DocumentToks(blocks: seq<SafeBlock>): seq<Tok> {
    if blocks == [] then [] else BlockToks(blocks[0]) + DocumentToks(blocks[1..])
  }

  // ---------- reading back ----------

  lemma {:induction false} TagEndIs(s: string, n: nat)
    requires n < |s| && s[n] == '>' && '>' !in s[..n]
    ensures TagEnd(s) == n
  {
    if n > 0 {
      assert s[0] == s[..n][0];
      assert s[..n][1..] == s[1..][..n - 1];
      TagEndIs(s[1..], n - 1);
    }
  }

  lemma LexTag(inside: string, tok: Tok, rest: string)
    requires '>' !in inside && ReadTag(inside) == Some(tok)
    ensures Lex("<" + inside + ">" + rest) == Then(tok, Lex(rest))
  {
    hide ReadTag;
    var s := "<" + inside + ">" + rest;
    assert s[1..][..|inside|] == inside && s[1..][|inside|] == '>';
    TagEndIs(s[1..], |inside|);
    assert s[1..1 + |inside|] == inside && s[|inside| + 2..] == rest;
  }

  lemma NamesAreRead(tag: Tag)
    ensures '>' !in Name(tag) && ReadTag(Name(tag)) == Some(Open(tag)) && ReadTag("/" + Name(tag)) == Some(Shut(tag))
  {
    hide TagNamed;
    NameIsNamed(tag);
    assert ("/" + Name(tag))[1..] == Name(tag) && ("/" + Name(tag))[0] == '/';
    assert ("/" + Name(tag))[0] != "br"[0] && ("/" + Name(tag))[0] != "hr"[0];
  }

  lemma NameIsNamed(tag: Tag)
    ensures TagNamed(Name(tag)) == Some(tag)
    ensures Name(tag)[0] != '/' && Name(tag) != "br" && Name(tag) != "hr" && '>' !in Name(tag)
  {
  }

  lemma LexOpen(tag: Tag, rest: string)
    ensures Lex(OpenTag(tag) + rest) == Then(Open(tag), Lex(rest))
  {
    hide Lex, Name, ReadTag;
    NamesAreRead(tag);
    LexTag(Name(tag), Open(tag), rest);
  }

  lemma LexShut(tag: Tag, rest: string)
    ensures Lex(CloseTag(tag) + rest) == Then(Shut(tag), Lex(rest))
  {
    hide Lex, Name, ReadTag;
    NamesAreRead(tag);
    LexTag("/" + Name(tag), Shut(tag), rest);
    assert "<" + ("/" + Name(tag)) + ">" + rest == CloseTag(tag) + rest;
  }

  lemma LexVoid(rest: string)
    ensures Lex("<br>" + rest) == Then(Break, Lex(rest))
    ensures Lex("<hr>" + rest) == Then(Rule, Lex(rest))
  {
    hide Lex;
    LexTag("br", Break, rest);
    LexTag("hr", Rule, rest);
    assert "<" + "br" + ">" + rest == "<br>" + rest && "<" + "hr" + ">" + rest == "<hr>" + rest;
  }

  lemma LexEscaped(c: char, rest: string)
    ensures Lex(EscapeChar(c) + rest) == Then(Char(c), Lex(rest))
  {
    var e := EscapeChar(c);
    var s := e + rest;
    assert s[|e|..] == rest && s[..|e|] == e;
    assert s[0] == e[0];
    if c in "&<>\"'" {
      assert s[0] == '&' && s[1] == e[1] && s[2] == e[2];
      EntityIs(c, s);
    }
  }

  lemma EntityIs(c: char, s: string)
    requires c in "&<>\"'" && EscapeChar(c) <= s
    ensures ReadEntity(s) == Some((c, |EscapeChar(c)|))
  {
    var e := EscapeChar(c);
    assert s[1] == e[1];
    assert "&amp;"[1] == 'a' && "&lt;"[1] == 'l' && "&gt;"[1] == 'g' && "&quot;"[1] == 'q' && "&#39;"[1] == '#';
  }

  lemma {:induction false} LexText(text: string, rest: string)
    ensures Lex(EscapedText(text) + rest) == Ahead(CharToks(text), Lex(rest))
  {
    hide Lex, EscapeChar;
    if text == "" {
      assert EscapedText(text) + rest == rest;
      AheadNothing(Lex(rest));
    } else {
      LexText(text[1..], rest);
      LexEscaped(text[0], EscapedText(text[1..]) + rest);
      assert EscapedText(text) + rest == EscapeChar(text[0]) + (EscapedText(text[1..]) + rest);
      assert CharToks(text) == [Char(text[0])] + CharToks(text[1..]);
      AheadCons(Char(text[0]), CharToks(text[1..]), Lex(rest));
    }
  }

  lemma AheadNothing(rest: Option<seq<Tok>>)
    ensures Ahead([], rest) == rest
  {
    if rest.Some? {
      assert [] + rest.value == rest.value;
    }
  }

  lemma AheadCons(tok: Tok, toks: seq<Tok>, rest: Option<seq<Tok>>)
    ensures Then(tok, Ahead(toks, rest)) == Ahead([tok] + toks, rest)
  {
    if rest.Some? {
      assert [tok] + (toks + rest.value) == ([tok] + toks) + rest.value;
    }
  }

  lemma AheadTwice(a: seq<Tok>, b: seq<Tok>, rest: Option<seq<Tok>>)
    ensures Ahead(a, Ahead(b, rest)) == Ahead(a + b, rest)
  {
    if rest.Some? {
      assert a + (b + rest.value) == (a + b) + rest.value;
    }
  }

  /** A part that reads as `toks` whatever follows it reads, inside its tags, as the wrapped tokens. */
  lemma LexWrapped(tag: Tag, inside: string, toks: seq<Tok>, rest: string)
    requires Lex(inside + (CloseTag(tag) + rest)) == Ahead(toks, Lex(CloseTag(tag) + rest))
    ensures Lex((OpenTag(tag) + (inside + CloseTag(tag))) + rest) == Ahead(Wrapped(tag, toks), Lex(rest))
  {
    hide Lex, OpenTag, CloseTag;
    var tail := inside + (CloseTag(tag) + rest);
    assert (OpenTag(tag) + (inside + CloseTag(tag))) + rest == OpenTag(tag) + tail;
    LexOpen(tag, tail);
    LexShut(tag, rest);
    if Lex(rest).Some? {
      assert [Open(tag)] + (toks + ([Shut(tag)] + Lex(rest).value)) == Wrapped(tag, toks) + Lex(rest).value;
    }
  }

  lemma {:induction false} LexInline(inline: SafeInline, rest: string)
    ensures Lex(InlineHtml(inline) + rest) == Ahead(InlineToks(inline), Lex(rest))
    decreases inline, 1
  {
    hide Lex, Wrapped, EscapedText, OpenTag, CloseTag;
    match inline
    case Text(text) => LexText(text, rest);
    case Emphasis(content) =>
      LexInlines(content, CloseTag(Em) + rest);
      LexWrapped(Em, InlinesHtml(content), InlinesToks(content), rest);
    case Strong(content) =>
      LexInlines(content, CloseTag(StrongTag) + rest);
      LexWrapped(StrongTag, InlinesHtml(content), InlinesToks(content), rest);
    case Strikethrough(content) =>
      LexInlines(content, CloseTag(Del) + rest);
      LexWrapped(Del, InlinesHtml(content), InlinesToks(content), rest);
    case Code(text) =>
      LexText(text, CloseTag(CodeTag) + rest);
      LexWrapped(CodeTag, EscapedText(text), CharToks(text), rest);
    case LineBreak => LexVoid(rest);
  }

  lemma {:induction false} LexInlines(inlines: seq<SafeInline>, rest: string)
    ensures Lex(InlinesHtml(inlines) + rest) == Ahead(InlinesToks(inlines), Lex(rest))
    decreases inlines, 0
  {
    hide Lex, InlineHtml, InlineToks;
    if inlines == [] {
      assert InlinesHtml(inlines) + rest == rest;
      AheadNothing(Lex(rest));
    } else {
      LexInlines(inlines[1..], rest);
      LexInline(inlines[0], InlinesHtml(inlines[1..]) + rest);
      assert InlinesHtml(inlines) + rest == InlineHtml(inlines[0]) + (InlinesHtml(inlines[1..]) + rest);
      AheadTwice(InlineToks(inlines[0]), InlinesToks(inlines[1..]), Lex(rest));
    }
  }

  lemma {:induction false} LexItems(items: seq<seq<SafeInline>>, rest: string)
    ensures Lex(ItemsHtml(items) + rest) == Ahead(ItemsToks(items), Lex(rest))
  {
    hide Lex, Wrapped, OpenTag, CloseTag;
    if items == [] {
      assert ItemsHtml(items) + rest == rest;
      AheadNothing(Lex(rest));
    } else {
      var tail := ItemsHtml(items[1..]) + rest;
      LexItems(items[1..], rest);
      LexInlines(items[0], CloseTag(Li) + tail);
      LexWrapped(Li, InlinesHtml(items[0]), InlinesToks(items[0]), tail);
      assert ItemsHtml(items) + rest == (OpenTag(Li) + (InlinesHtml(items[0]) + CloseTag(Li))) + tail;
      AheadTwice(Wrapped(Li, InlinesToks(items[0])), ItemsToks(items[1..]), Lex(rest));
    }
  }

  lemma LexBlock(block: SafeBlock, rest: string)
    ensures Lex(BlockHtml(block) + rest) == Ahead(BlockToks(block), Lex(rest))
  {
    hide Lex, Wrapped, EscapedText, OpenTag, CloseTag, InlinesHtml, InlinesToks, ItemsHtml, ItemsToks;
    match block
    case Paragraph(inlines) => LexPart(P, inlines, rest);
    case Heading(level, inlines) => LexPart(HeadingTag(level), inlines, rest);
    case BlockQuote(inlines) => LexPart(Quote, inlines, rest);
    case UnorderedList(items) =>
      LexItems(items, CloseTag(Ul) + rest);
      LexWrapped(Ul, ItemsHtml(items), ItemsToks(items), rest);
    case OrderedList(items) =>
      LexItems(items, CloseTag(Ol) + rest);
      LexWrapped(Ol, ItemsHtml(items), ItemsToks(items), rest);
    case CodeBlock(code) =>
      LexText(code, CloseTag(CodeTag) + (CloseTag(Pre) + rest));
      LexWrapped(CodeTag, EscapedText(code), CharToks(code), CloseTag(Pre) + rest);
      LexWrapped(Pre, OpenTag(CodeTag) + (EscapedText(code) + CloseTag(CodeTag)), Wrapped(CodeTag, CharToks(code)),
          rest);
    case ThematicBreak => LexVoid(rest);
  }

  lemma LexPart(tag: Tag, inlines: seq<SafeInline>, rest: string)
    ensures Lex((OpenTag(tag) + (InlinesHtml(inlines) + CloseTag(tag))) + rest)
         == Ahead(Wrapped(tag, InlinesToks(inlines)), Lex(rest))
  {
    hide Lex, Wrapped, OpenTag, CloseTag;
    LexInlines(inlines, CloseTag(tag) + rest);
    LexWrapped(tag, InlinesHtml(inlines), InlinesToks(inlines), rest);
  }

  /** The HTML of any document reads as exactly the document's tokens: allowed bare tags and text. */
  lemma {:induction false} HtmlReadsBack(blocks: seq<SafeBlock>)
    ensures Lex(DocumentHtml(blocks)) == Some(DocumentToks(blocks))
  {
    hide Lex, BlockHtml, BlockToks;
    if blocks == [] {
      LexEnd();
    } else {
      HtmlReadsBack(blocks[1..]);
      LexBlock(blocks[0], DocumentHtml(blocks[1..]));
    }
  }

  lemma LexEnd()
    ensures Lex("") == Some([])
  {
  }

  // ---------- nesting ----------

  /** A token sequence that leaves every stack as it found it. */
  lemma {:induction false} NestedChars(text: string, rest: seq<Tok>, stack: seq<Tag>)
    ensures Nested(CharToks(text) + rest, stack) == Nested(rest, stack)
  {
    if text == "" {
      assert CharToks(text) + rest == rest;
    } else {
      NestedChars(text[1..], rest, stack);
      assert (CharToks(text) + rest)[1..] == CharToks(text[1..]) + rest;
    }
  }

  lemma NestedWrapped(tag: Tag, inside: seq<Tok>, rest: seq<Tok>, stack: seq<Tag>)
    requires Nested(inside + ([Shut(tag)] + rest), [tag] + stack) == Nested([Shut(tag)] + rest, [tag] + stack)
    ensures Nested(Wrapped(tag, inside) + rest, stack) == Nested(rest, stack)
  {
    assert (Wrapped(tag, inside) + rest)[1..] == inside + ([Shut(tag)] + rest);
    assert ([Shut(tag)] + rest)[1..] == rest && ([tag] + stack)[1..] == stack;
  }

  lemma {:induction false} NestedInline(inline: SafeInline, rest: seq<Tok>, stack: seq<Tag>)
    ensures Nested(InlineToks(inline) + rest, stack) == Nested(rest, stack)
    decreases inline, 1
  {
    hide Wrapped;
    match inline
    case Text(text) => NestedChars(text, rest, stack);
    case Emphasis(content) =>
      NestedInlines(content, [Shut(Em)] + rest, [Em] + stack);
      NestedWrapped(Em, InlinesToks(content), rest, stack);
    case Strong(content) =>
      NestedInlines(content, [Shut(StrongTag)] + rest, [StrongTag] + stack);
      NestedWrapped(StrongTag, InlinesToks(content), rest, stack);
    case Strikethrough(content) =>
      NestedInlines(content, [Shut(Del)] + rest, [Del] + stack);
      NestedWrapped(Del, InlinesToks(content), rest, stack);
    case Code(text) =>
      NestedChars(text, [Shut(CodeTag)] + rest, [CodeTag] + stack);
      NestedWrapped(CodeTag, CharToks(text), rest, stack);
    case LineBreak => assert ([Break] + rest)[1..] == rest;
  }

  lemma {:induction false} NestedInlines(inlines: seq<SafeInline>, rest: seq<Tok>, stack: seq<Tag>)
    ensures Nested(InlinesToks(inlines) + rest, stack) == Nested(rest, stack)
    decreases inlines, 0
  {
    hide Nested, InlineToks;
    if inlines == [] {
      assert InlinesToks(inlines) + rest == rest;
    } else {
      NestedInlines(inlines[1..], rest, stack);
      NestedInline(inlines[0], InlinesToks(inlines[1..]) + rest, stack);
      assert InlinesToks(inlines) + rest == InlineToks(inlines[0]) + (InlinesToks(inlines[1..]) + rest);
    }
  }

  lemma {:induction false} NestedItems(items: seq<seq<SafeInline>>, rest: seq<Tok>, stack: seq<Tag>)
    ensures Nested(ItemsToks(items) + rest, stack) == Nested(rest, stack)
  {
    hide Nested, Wrapped;
    if items == [] {
      assert ItemsToks(items) + rest == rest;
    } else {
      var tail := ItemsToks(items[1..]) + rest;
      NestedItems(items[1..], rest, stack);
      NestedInlines(items[0], [Shut(Li)] + tail, [Li] + stack);
      NestedWrapped(Li, InlinesToks(items[0]), tail, stack);
      assert ItemsToks(items) + rest == Wrapped(Li, InlinesToks(items[0])) + tail;
    }
  }

  lemma NestedBlock(block: SafeBlock, rest: seq<Tok>, stack: seq<Tag>)
    ensures Nested(BlockToks(block) + rest, stack) == Nested(rest, stack)
  {
    hide Wrapped, InlinesToks, ItemsToks;
    match block
    case Paragraph(inlines) => NestedPart(P, inlines, rest, stack);
    case Heading(level, inlines) => NestedPart(HeadingTag(level), inlines, rest, stack);
    case BlockQuote(inlines) => NestedPart(Quote, inlines, rest, stack);
    case UnorderedList(items) =>
      NestedItems(items, [Shut(Ul)] + rest, [Ul] + stack);
      NestedWrapped(Ul, ItemsToks(items), rest, stack);
    case OrderedList(items) =>
      NestedItems(items, [Shut(Ol)] + rest, [Ol] + stack);
      NestedWrapped(Ol, ItemsToks(items), rest, stack);
    case CodeBlock(code) =>
      NestedChars(code, [Shut(CodeTag)] + ([Shut(Pre)] + rest), [CodeTag] + ([Pre] + stack));
      NestedWrapped(CodeTag, CharToks(code), [Shut(Pre)] + rest, [Pre] + stack);
      NestedWrapped(Pre, Wrapped(CodeTag, CharToks(code)), rest, stack);
    case ThematicBreak => assert ([Rule] + rest)[1..] == rest;
  }

  lemma NestedPart(tag: Tag, inlines: seq<SafeInline>, rest: seq<Tok>, stack: seq<Tag>)
    ensures Nested(Wrapped(tag, InlinesToks(inlines)) + rest, stack) == Nested(rest, stack)
  {
    hide Nested, Wrapped;
    NestedInlines(inlines, [Shut(tag)] + rest, [tag] + stack);
    NestedWrapped(tag, InlinesToks(inlines), rest, stack);
  }

  /** Tags of any document nest correctly. */
  lemma {:induction false} HtmlIsNested(blocks: seq<SafeBlock>)
    ensures Nested(DocumentToks(blocks), [])
  {
    hide BlockToks;
    if blocks != [] {
      HtmlIsNested(blocks[1..]);
      NestedBlock(blocks[0], DocumentToks(blocks[1..]), []);
    }
  }

  // ---------- text ----------

  lemma {:induction false} TextConcat(a: seq<Tok>, b: seq<Tok>)
    ensures TextOf(a + b) == TextOf(a) + TextOf(b)
  {
    hide TokText, TextOf;
    if a == [] {
      assert a + b == b;
      TextOfNothing();
    } else {
      TextConcat(a[1..], b);
      assert a + b == [a[0]] + (a[1..] + b);
      TextCons(a[0], a[1..] + b);
      TextCons(a[0], a[1..]);
      assert a == [a[0]] + a[1..];
      Associates(TokText(a[0]), TextOf(a[1..]), TextOf(b));
    }
  }

  lemma TextOfNothing()
    ensures TextOf([]) == ""
  {
  }

  lemma TextCons(tok: Tok, toks: seq<Tok>)
    ensures TextOf([tok] + toks) == TokText(tok) + TextOf(toks)
  {
    assert ([tok] + toks)[1..] == toks;
  }

  lemma {:induction false} TextOfChars(text: string)
    ensures TextOf(CharToks(text)) == text
  {
    if text != "" {
      TextOfChars(text[1..]);
      assert CharToks(text)[1..] == CharToks(text[1..]);
    }
  }

  lemma TextOfWrapped(tag: Tag, inside: seq<Tok>)
    ensures TextOf(Wrapped(tag, inside)) == TextOf(inside)
  {
    TextConcat([Open(tag)], inside + [Shut(tag)]);
    TextConcat(inside, [Shut(tag)]);
    assert [Open(tag)][1..] == [] && [Shut(tag)][1..] == [];
  }

  lemma {:induction false} TextOfInline(inline: SafeInline)
    ensures TextOf(InlineToks(inline)) == PlainOne(inline)
    decreases inline, 1
  {
    hide Wrapped, TextOf;
    match inline
    case Text(text) => TextOfChars(text);
    case Emphasis(content) => TextOfInlines(content); TextOfWrapped(Em, InlinesToks(content));
    case Strong(content) => TextOfInlines(content); TextOfWrapped(StrongTag, InlinesToks(content));
    case Strikethrough(content) => TextOfInlines(content); TextOfWrapped(Del, InlinesToks(content));
    case Code(text) => TextOfChars(text); TextOfWrapped(CodeTag, CharToks(text));
    case LineBreak => TextOfBreak();
  }

  lemma TextOfBreak()
    ensures TextOf([Break]) == "\n" && TextOf([Rule]) == ""
  {
    assert [Break][1..] == [] && [Rule][1..] == [];
  }

  /** Dropping tags, reading breaks as newlines and decoding the entities of a fragment's HTML gives
      its plain text. */
  lemma {:induction false} TextOfInlines(inlines: seq<SafeInline>)
    ensures TextOf(InlinesToks(inlines)) == Plain(inlines)
    decreases inlines, 0
  {
    hide InlineToks, PlainOne;
    if inlines != [] {
      TextOfInline(inlines[0]);
      TextOfInlines(inlines[1..]);
      TextConcat(InlineToks(inlines[0]), InlinesToks(inlines[1..]));
    }
  }

  lemma {:induction false} TextOfItems(items: seq<seq<SafeInline>>)
    ensures TextOf(ItemsToks(items)) == PlainItems(items)
  {
    hide Wrapped;
    if items != [] {
      TextOfInlines(items[0]);
      TextOfWrapped(Li, InlinesToks(items[0]));
      TextOfItems(items[1..]);
      TextConcat(Wrapped(Li, InlinesToks(items[0])), ItemsToks(items[1..]));
    }
  }

  lemma TextOfBlock(block: SafeBlock)
    ensures TextOf(BlockToks(block)) == PlainBlock(block)
  {
    hide Wrapped, TextOf, InlinesToks, ItemsToks, Plain, PlainItems;
    match block
    case Paragraph(inlines) => TextOfInlines(inlines); TextOfWrapped(P, InlinesToks(inlines));
    case Heading(level, inlines) => TextOfInlines(inlines); TextOfWrapped(HeadingTag(level), InlinesToks(inlines));
    case BlockQuote(inlines) => TextOfInlines(inlines); TextOfWrapped(Quote, InlinesToks(inlines));
    case UnorderedList(items) => TextOfItems(items); TextOfWrapped(Ul, ItemsToks(items));
    case OrderedList(items) => TextOfItems(items); TextOfWrapped(Ol, ItemsToks(items));
    case CodeBlock(code) =>
      TextOfChars(code);
      TextOfWrapped(CodeTag, CharToks(code));
      TextOfWrapped(Pre, Wrapped(CodeTag, CharToks(code)));
    case ThematicBreak => TextOfBreak();
  }

  /** The text of a whole document, block after block. */
  lemma {:induction false} TextOfDocument(blocks: seq<SafeBlock>)
    ensures TextOf(DocumentToks(blocks)) == PlainDocument(blocks)
  {
    hide BlockToks, PlainBlock;
    if blocks != [] {
      TextOfBlock(blocks[0]);
      TextOfDocument(blocks[1..]);
      TextConcat(BlockToks(blocks[0]), DocumentToks(blocks[1..]));
    }
  }
}
