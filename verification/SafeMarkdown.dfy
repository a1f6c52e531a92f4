// The budgeted inline parser and the block parser of extension Markdown
// (crates/key-extension-gpui/src/safe_markdown.rs).
module SafeMarkdown {
  import opened Options
  import opened Unicode
  import opened SafeHtml

  const MAX_DEPTH: nat := 16
  const MAX_SCANS: nat := 128

  // ---------- budget ----------

  datatype Budget = Budget(references: nat, delimiters: nat, autolinks: nat) {
    predicate Covers(other: Budget) {
      other.references <= references && other.delimiters <= delimiters && other.autolinks <= autolinks
    }
  }

  const FULL := Budget(MAX_SCANS, MAX_SCANS, MAX_SCANS)

  // ---------- scanning ----------

  function Found(s: string, at: nat, needle: string): bool
    requires at <= |s|
  {
    needle <= s[at..]
  }

  /** First occurrence at or after `from`. */
  function FindText(s: string, from: nat, needle: string): (r: Option<nat>)
    requires from <= |s| && needle != ""
    ensures r.Some? ==> from <= r.value && r.value + |needle| <= |s|
    decreases |s| - from
  {
    if Found(s, from, needle) then Some(from)
    else if from == |s| then None
    else FindText(s, from + 1, needle)
  }

  /** The next occurrence that an even number of backslashes precedes; an escaped one is skipped whole. */
  function FindUnescaped(s: string, from: nat, delimiter: string): (r: Option<nat>)
    requires from <= |s| && delimiter != ""
    ensures r.Some? ==> from <= r.value && r.value + |delimiter| <= |s| && Found(s, r.value, delimiter)
    ensures r.Some? ==> BackslashesBefore(s, r.value) % 2 == 0
    decreases |s| - from
  {
    var found := FindText(s, from, delimiter);
    if found.None? then None
    else if BackslashesBefore(s, found.value) % 2 == 0 then
      FoundAt(s, from, delimiter);
      found
    else FindUnescaped(s, found.value + |delimiter|, delimiter)
  }

  lemma {:induction false} FoundAt(s: string, from: nat, needle: string)
    requires from <= |s| && needle != "" && FindText(s, from, needle).Some?
    ensures Found(s, FindText(s, from, needle).value, needle)
    decreases |s| - from
  {
    if !Found(s, from, needle) {
      FoundAt(s, from + 1, needle);
    }
  }

  /** The closing bracket that balances an opening one just before `index`, stepping over escapes. */
  function FindBalanced(s: string, index: nat, depth: nat, open: char, close: char): (r: Option<nat>)
    requires index <= |s|
    ensures r.Some? ==> index <= r.value < |s| && s[r.value] == close
    decreases |s| - index
  {
    if index == |s| then None
    else if s[index] == '\\' then
      if index + 1 < |s| then FindBalanced(s, index + 2, depth, open, close) else None
    else if s[index] == open then FindBalanced(s, index + 1, depth + 1, open, close)
    else if s[index] == close then
      if depth == 0 then Some(index) else FindBalanced(s, index + 1, depth - 1, open, close)
    else FindBalanced(s, index + 1, depth, open, close)
  }

  function TrimStart(s: string): string {
    if s != "" && IsWhitespace(s[0]) then TrimStart(s[1..]) else s
  }

  function TrimEnd(s: string): string {
    if s != "" && IsWhitespace(s[|s| - 1]) then TrimEnd(s[..|s| - 1]) else s
  }

  function Trim(s: string): string { TrimEnd(TrimStart(s)) }

  function RunLength(s: string, at: nat, c: char): (n: nat)
    requires at <= |s|
    ensures at + n <= |s|
    decreases |s| - at
  {
    if at < |s| && s[at] == c then 1 + RunLength(s, at + 1, c) else 0
  }

  // ---------- inline constructs ----------

  datatype Reference = Reference(caption: string, destination: string, end: nat)

  function BracketedReference(s: string, start: nat, image: bool): (r: Option<Reference>)
    requires start + (if image then 1 else 0) + 1 <= |s|
    ensures r.Some? ==> start < r.value.end <= |s|
  {
    var captionStart := start + (if image then 1 else 0) + 1;
    var captionEnd := FindBalanced(s, captionStart, 0, '[', ']');
    if captionEnd.None? || captionEnd.value + 1 >= |s| || s[captionEnd.value + 1] != '(' then None
    else
      var destinationStart := captionEnd.value + 2;
      var destinationEnd := FindBalanced(s, destinationStart, 0, '(', ')');
      if destinationEnd.None? then None
      else
        Some(Reference(s[captionStart..captionEnd.value], Trim(s[destinationStart..destinationEnd.value]),
            destinationEnd.value + 1))
  }

  datatype Delimiter = Delimiter(mark: string, style: DelimiterStyle)
  datatype DelimiterStyle = EmphasisStyle | StrongStyle | StrikethroughStyle

  function InlineDelimiter(s: string, index: nat): (r: Option<Delimiter>)
    requires index <= |s|
    ensures r.Some? ==> r.value.mark != "" && index + |r.value.mark| <= |s|
  {
    if Found(s, index, "**") then Some(Delimiter("**", StrongStyle))
    else if Found(s, index, "__") then Some(Delimiter("__", StrongStyle))
    else if Found(s, index, "~~") then Some(Delimiter("~~", StrikethroughStyle))
    else if Found(s, index, "*") then Some(Delimiter("*", EmphasisStyle))
    else if Found(s, index, "_") then Some(Delimiter("_", EmphasisStyle))
    else None
  }

  function Wrap(style: DelimiterStyle, content: seq<SafeInline>): SafeInline {
    match style
    case EmphasisStyle => Emphasis(content)
    case StrongStyle => Strong(content)
    case StrikethroughStyle => Strikethrough(content)
  }

  function LowerAscii(s: string): (r: string)
    ensures |r| == |s|
  {
    seq(|s|, i requires 0 <= i < |s| => if 'A' <= s[i] <= 'Z' then (s[i] as int + 32) as char else s[i])
  }

  predicate LooksLikeAutolink(candidate: string) {
    var lower := LowerAscii(candidate);
    || "http://" <= lower || "https://" <= lower || "mailto:" <= lower || "file:" <= lower || "data:" <= lower
    || ((forall i :: 0 <= i < |candidate| ==> !IsWhitespace(candidate[i])) && '@' in candidate && '.' in candidate)
  }

  predicate IsAsciiPunctuation(c: char) {
    '!' <= c <= '/' || ':' <= c <= '@' || '[' <= c <= '`' || '{' <= c <= '~'
  }

  /** Text is added to a text node that ends the list, if there is one. */
  function PushText(nodes: seq<SafeInline>, text: string): seq<SafeInline> {
    if text == "" then nodes
    else if nodes != [] && nodes[|nodes| - 1].Text? then
      nodes[|nodes| - 1 := Text(nodes[|nodes| - 1].text + text)]
    else nodes + [Text(text)]
  }

  /** Pushing text in pieces or at once is the same. */
  lemma PushTextTwice(nodes: seq<SafeInline>, a: string, b: string)
    ensures PushText(PushText(nodes, a), b) == PushText(nodes, a + b)
  {
    if a == "" {
      assert a + b == b;
    } else if b == "" {
      assert a + b == a;
    } else if nodes != [] && nodes[|nodes| - 1].Text? {
      assert (nodes[|nodes| - 1].text + a) + b == nodes[|nodes| - 1].text + (a + b);
    }
  }

  lemma PushNothing(nodes: seq<SafeInline>, s: string, at: nat)
    requires at <= |s|
    ensures PushText(nodes, s[at..at]) == nodes
  {
    assert s[at..at] == "";
  }

  // ---------- the parser, one construct at a time ----------

  /** Outcome of one step: nodes so far, where to go on, and what is left of the budget. */
  datatype Progress = Progress(nodes: seq<SafeInline>, next: nat, budget: Budget)

  /** A link becomes its label, followed by its target as inert code. */
  function Target(nodes: seq<SafeInline>, destination: string): seq<SafeInline> {
    PushText(PushText(nodes, " (") + [Code(destination)], ")")
  }

  function InertLink(reference: Reference, nodes: seq<SafeInline>, depth: nat,
      budget: Budget): (r: (seq<SafeInline>, Budget))
    requires depth < MAX_DEPTH
    ensures budget.Covers(r.1)
    decreases MAX_DEPTH - depth, 0, 0
  {
    var Reference(caption, destination, _) := reference;
    if caption == "" then (PushText(nodes, destination), budget)
    else
      var (inner, after) := ParseInlines(caption, depth + 1, budget);
      var shown := nodes + inner;
      (if destination != "" && destination != caption then Target(shown, destination) else shown, after)
  }

  function InertImage(reference: Reference, nodes: seq<SafeInline>, depth: nat,
      budget: Budget): (r: (seq<SafeInline>, Budget))
    requires depth < MAX_DEPTH
    ensures budget.Covers(r.1)
    decreases MAX_DEPTH - depth, 0, 0
  {
    var Reference(caption, destination, _) := reference;
    var announced := PushText(nodes, "Image: ");
    var (shown, after) :=
      if caption == "" then (PushText(announced, "unnamed"), budget)
      else
        var (inner, rest) := ParseInlines(caption, depth + 1, budget);
        (announced + inner, rest);
    (if destination == "" then shown else Target(shown, destination), after)
  }

  function LinkAt(s: string, index: nat, nodes: seq<SafeInline>, depth: nat,
      budget: Budget): (r: (Option<Progress>, Budget))
    requires index < |s| && depth < MAX_DEPTH
    ensures budget.Covers(r.1) && (r.0.Some? ==> index < r.0.value.next <= |s| && budget.Covers(r.0.value.budget))
    decreases MAX_DEPTH - depth, 0, 1
  {
    var image := Found(s, index, "![");
    if budget.references == 0 || !(image || s[index] == '[') then (None, budget)
    else
      var left := budget.(references := budget.references - 1);
      var reference := BracketedReference(s, index, image);
      if reference.None? then (None, left)
      else
        var (shown, after) :=
          if image then InertImage(reference.value, nodes, depth, left)
          else InertLink(reference.value, nodes, depth, left);
        (Some(Progress(shown, reference.value.end, after)), left)
  }

  function StyledContent(style: DelimiterStyle, inside: string, nodes: seq<SafeInline>, depth: nat,
      budget: Budget): (r: (seq<SafeInline>, Budget))
    requires depth < MAX_DEPTH
    ensures budget.Covers(r.1)
    decreases MAX_DEPTH - depth, 0, 0
  {
    var (content, after) := ParseInlines(inside, depth + 1, budget);
    (nodes + [Wrap(style, content)], after)
  }

  function StyledAt(s: string, index: nat, nodes: seq<SafeInline>, depth: nat,
      budget: Budget): (r: (Option<Progress>, Budget))
    requires index < |s| && depth < MAX_DEPTH
    ensures budget.Covers(r.1) && (r.0.Some? ==> index < r.0.value.next <= |s| && budget.Covers(r.0.value.budget))
    decreases MAX_DEPTH - depth, 0, 1
  {
    var delimiter := InlineDelimiter(s, index);
    if delimiter.None? || budget.delimiters == 0 then (None, budget)
    else
      var left := budget.(delimiters := budget.delimiters - 1);
      var Delimiter(mark, style) := delimiter.value;
      var end := FindUnescaped(s, index + |mark|, mark);
      if end.None? then (None, left)
      else
        var (shown, after) := StyledContent(style, s[index + |mark|..end.value], nodes, depth, left);
        (Some(Progress(shown, end.value + |mark|, after)), left)
  }

  function CodeAt(s: string, index: nat, nodes: seq<SafeInline>, budget: Budget): (r: (Option<Progress>, Budget))
    requires index < |s|
    ensures budget.Covers(r.1) && (r.0.Some? ==> index < r.0.value.next <= |s| && budget.Covers(r.0.value.budget))
  {
    if s[index] != '`' || budget.delimiters == 0 then (None, budget)
    else
      var left := budget.(delimiters := budget.delimiters - 1);
      var n := RunLength(s, index, '`');
      var end := FindUnescaped(s, index + n, s[index..index + n]);
      if end.None? then (None, left)
      else (Some(Progress(nodes + [Code(s[index + n..end.value])], end.value + n, left)), left)
  }

  function AutolinkAt(s: string, index: nat, nodes: seq<SafeInline>, budget: Budget): (r: (Option<Progress>, Budget))
    requires index < |s|
    ensures budget.Covers(r.1) && (r.0.Some? ==> index < r.0.value.next <= |s| && budget.Covers(r.0.value.budget))
  {
    if s[index] != '<' || budget.autolinks == 0 then (None, budget)
    else
      var left := budget.(autolinks := budget.autolinks - 1);
      var end := FindText(s, index + 1, ">");
      if end.Some? && LooksLikeAutolink(s[index + 1..end.value]) then
        (Some(Progress(PushText(nodes, s[index + 1..end.value]), end.value + 1, left)), left)
      else (None, left)
  }

  /** The first construct that applies at `index`, and the budget after the ones that were tried. */
  function ConstructAt(s: string, index: nat, nodes: seq<SafeInline>, depth: nat,
      budget: Budget): (r: (Option<Progress>, Budget))
    requires index < |s| && depth < MAX_DEPTH
    ensures budget.Covers(r.1) && (r.0.Some? ==> index < r.0.value.next <= |s| && budget.Covers(r.0.value.budget))
    decreases MAX_DEPTH - depth, 0, 2
  {
    var (link, b1) := LinkAt(s, index, nodes, depth, budget);
    if link.Some? then (link, b1)
    else
      var (styled, b2) := StyledAt(s, index, nodes, depth, b1);
      if styled.Some? then (styled, b2)
      else
        var (code, b3) := CodeAt(s, index, nodes, b2);
        if code.Some? then (code, b3) else AutolinkAt(s, index, nodes, b3)
  }

  /** An escaped character, a construct, a line break, or the character itself. */
  function InlineStep(s: string, index: nat, nodes: seq<SafeInline>, depth: nat, budget: Budget): (r: Progress)
    requires index < |s| && depth < MAX_DEPTH
    ensures index < r.next <= |s| && budget.Covers(r.budget)
    decreases MAX_DEPTH - depth, 0, 3
  {
    if EscapesAt(s, index) then
      Progress(PushText(nodes, [s[index + 1]]), index + 2, budget)
    else
      var (construct, left) := ConstructAt(s, index, nodes, depth, budget);
      if construct.Some? then construct.value
      else if s[index] == '\n' then Progress(nodes + [LineBreak], index + 1, left)
      else Progress(PushText(nodes, [s[index]]), index + 1, left)
  }

  function ParseFrom(s: string, index: nat, nodes: seq<SafeInline>, depth: nat,
      budget: Budget): (r: (seq<SafeInline>, Budget))
    requires index <= |s| && depth < MAX_DEPTH
    ensures budget.Covers(r.1)
    decreases MAX_DEPTH - depth, 1, |s| - index
  {
    if index == |s| then (nodes, budget)
    else
      var p := InlineStep(s, index, nodes, depth, budget);
      ParseFrom(s, p.next, p.nodes, depth, p.budget)
  }

  /** Inline text at a nesting depth; beyond the maximum depth it stays as it is. */
  function ParseInlines(s: string, depth: nat, budget: Budget): (r: (seq<SafeInline>, Budget))
    ensures budget.Covers(r.1)
    decreases if depth >= MAX_DEPTH then 0 else MAX_DEPTH - depth, 2, 0
  {
    if depth >= MAX_DEPTH then ([Text(s)], budget) else ParseFrom(s, 0, [], depth, budget)
  }

  // ---------- the same parser with loops and one shared budget ----------

  /** Scans left of each kind. `scans` counts the scans made so far. */
  class InlineParseBudget {
    var references: nat
    var delimiters: nat
    var autolinks: nat
    ghost var scans: Budget

    constructor ()
      ensures Value() == FULL && scans == Budget(0, 0, 0)
    {
      references, delimiters, autolinks := MAX_SCANS, MAX_SCANS, MAX_SCANS;
      scans := Budget(0, 0, 0);
    }

    function Value(): Budget
      reads this
    {
      Budget(references, delimiters, autolinks)
    }

    /** What is left and what was used, together. */
    ghost function Total(): Budget
      reads this
    {
      Budget(references + scans.references, delimiters + scans.delimiters, autolinks + scans.autolinks)
    }

    method TakeReference() returns (taken: bool)
      modifies this
      ensures taken == (old(references) > 0) && scans == old(scans)
      ensures Value() == if taken then old(Value()).(references := old(references) - 1) else old(Value())
    {
      taken := references > 0;
      if taken {
        references := references - 1;
      }
    }

    method TakeDelimiter() returns (taken: bool)
      modifies this
      ensures taken == (old(delimiters) > 0) && scans == old(scans)
      ensures Value() == if taken then old(Value()).(delimiters := old(delimiters) - 1) else old(Value())
    {
      taken := delimiters > 0;
      if taken {
        delimiters := delimiters - 1;
      }
    }

    method TakeAutolink() returns (taken: bool)
      modifies this
      ensures taken == (old(autolinks) > 0) && scans == old(scans)
      ensures Value() == if taken then old(Value()).(autolinks := old(autolinks) - 1) else old(Value())
    {
      taken := autolinks > 0;
      if taken {
        autolinks := autolinks - 1;
      }
    }
  }

  method FindBalancedClosing(s: string, start: nat, open: char, close: char) returns (r: Option<nat>)
    requires start <= |s|
    ensures r == FindBalanced(s, start, 0, open, close)
  {
    var depth, index := 0, start;
    while index < |s|
      invariant start <= index <= |s| && 0 <= depth
      invariant FindBalanced(s, index, depth, open, close) == FindBalanced(s, start, 0, open, close)
      decreases |s| - index
    {
      if s[index] == '\\' {
        index := index + 1;
        if index < |s| {
          index := index + 1;
        }
        continue;
      }
      if s[index] == open {
        depth := depth + 1;
      } else if s[index] == close {
        if depth == 0 {
          return Some(index);
        }
        depth := depth - 1;
      }
      index := index + 1;
    }
    r := None;
  }

  lemma FindUnescapedStep(s: string, from: nat, delimiter: string)
    requires from <= |s| && delimiter != ""
    ensures var found := FindText(s, from, delimiter);
      FindUnescaped(s, from, delimiter) ==
      if found.None? || BackslashesBefore(s, found.value) % 2 == 0 then found
      else FindUnescaped(s, found.value + |delimiter|, delimiter)
  {
  }

  method FindUnescapedDelimiter(s: string, start: nat, delimiter: string) returns (r: Option<nat>)
    requires start <= |s| && delimiter != ""
    ensures r == FindUnescaped(s, start, delimiter)
  {
    hide FindText, FindUnescaped, BackslashesBefore;
    var from := start;
    var found := FindText(s, from, delimiter);
    while found.Some?
      invariant start <= from <= |s| && found == FindText(s, from, delimiter)
      invariant FindUnescaped(s, from, delimiter) == FindUnescaped(s, start, delimiter)
      decreases |s| - from
    {
      FindUnescapedStep(s, from, delimiter);
      if BackslashesBefore(s, found.value) % 2 == 0 {
        return found;
      }
      from := found.value + |delimiter|;
      found := FindText(s, from, delimiter);
    }
    FindUnescapedStep(s, from, delimiter);
    r := None;
  }

  method FindReference(s: string, start: nat, image: bool) returns (r: Option<Reference>)
    requires start + (if image then 1 else 0) + 1 <= |s|
    ensures r == BracketedReference(s, start, image)
  {
    var captionStart := start + (if image then 1 else 0) + 1;
    var captionEnd := FindBalancedClosing(s, captionStart, '[', ']');
    if captionEnd.None? || captionEnd.value + 1 >= |s| || s[captionEnd.value + 1] != '(' {
      return None;
    }
    var destinationStart := captionEnd.value + 2;
    var destinationEnd := FindBalancedClosing(s, destinationStart, '(', ')');
    if destinationEnd.None? {
      return None;
    }
    r := Some(Reference(s[captionStart..captionEnd.value], Trim(s[destinationStart..destinationEnd.value]),
        destinationEnd.value + 1));
  }

  method PushInertLink(nodes0: seq<SafeInline>, reference: Reference, depth: nat, budget: InlineParseBudget)
      returns (nodes: seq<SafeInline>)
    requires depth < MAX_DEPTH
    modifies budget
    ensures (nodes, budget.Value()) == InertLink(reference, nodes0, depth, old(budget.Value()))
    ensures budget.Total() == old(budget.Total())
    decreases MAX_DEPTH - depth, 0
  {
    hide ParseInlines;
    if reference.caption == "" {
      return PushText(nodes0, reference.destination);
    }
    var inner := ParseInlinesWithBudget(reference.caption, depth + 1, budget);
    nodes := nodes0 + inner;
    if reference.destination != "" && reference.destination != reference.caption {
      nodes := PushText(nodes, " (");
      nodes := nodes + [Code(reference.destination)];
      nodes := PushText(nodes, ")");
    }
  }

  method PushInertImage(nodes0: seq<SafeInline>, reference: Reference, depth: nat, budget: InlineParseBudget)
      returns (nodes: seq<SafeInline>)
    requires depth < MAX_DEPTH
    modifies budget
    ensures (nodes, budget.Value()) == InertImage(reference, nodes0, depth, old(budget.Value()))
    ensures budget.Total() == old(budget.Total())
    decreases MAX_DEPTH - depth, 0
  {
    hide ParseInlines;
    nodes := PushText(nodes0, "Image: ");
    if reference.caption == "" {
      nodes := PushText(nodes, "unnamed");
    } else {
      var inner := ParseInlinesWithBudget(reference.caption, depth + 1, budget);
      nodes := nodes + inner;
    }
    if reference.destination != "" {
      nodes := PushText(nodes, " (");
      nodes := nodes + [Code(reference.destination)];
      nodes := PushText(nodes, ")");
    }
  }

  predicate EscapesAt(s: string, index: nat) {
    index + 1 < |s| && s[index] == '\\' && IsAsciiPunctuation(s[index + 1])
  }

  lemma StepOverEscape(s: string, index: nat, nodes: seq<SafeInline>, depth: nat, budget: Budget)
    requires depth < MAX_DEPTH && EscapesAt(s, index)
    ensures ParseFrom(s, index, nodes, depth, budget)
      == ParseFrom(s, index + 2, PushText(nodes, [s[index + 1]]), depth, budget)
  {
    hide ConstructAt, PushText, IsAsciiPunctuation;
  }

  lemma StepOverConstruct(s: string, index: nat, nodes: seq<SafeInline>, depth: nat, budget: Budget)
    requires index < |s| && depth < MAX_DEPTH && !EscapesAt(s, index)
    requires ConstructAt(s, index, nodes, depth, budget).0.Some?
    ensures var p := ConstructAt(s, index, nodes, depth, budget).0.value;
      ParseFrom(s, index, nodes, depth, budget) == ParseFrom(s, p.next, p.nodes, depth, p.budget)
  {
    hide ConstructAt, PushText, IsAsciiPunctuation;
  }

  lemma StepOverChar(s: string, index: nat, nodes: seq<SafeInline>, depth: nat, budget: Budget)
    requires index < |s| && depth < MAX_DEPTH && !EscapesAt(s, index)
    requires ConstructAt(s, index, nodes, depth, budget).0.None?
    ensures var left := ConstructAt(s, index, nodes, depth, budget).1;
      ParseFrom(s, index, nodes, depth, budget)
      == ParseFrom(s, index + 1, if s[index] == '\n' then nodes + [LineBreak] else PushText(nodes, [s[index]]), depth,
          left)
  {
    hide ConstructAt, PushText, IsAsciiPunctuation;
  }

  lemma ParseInlinesStarts(s: string, depth: nat, budget: Budget)
    ensures ParseInlines(s, depth, budget) ==
      if depth >= MAX_DEPTH then ([Text(s)], budget) else ParseFrom(s, 0, [], depth, budget)
  {
    hide ParseFrom;
  }

  lemma ParseFromEnd(s: string, nodes: seq<SafeInline>, depth: nat, budget: Budget)
    requires depth < MAX_DEPTH
    ensures ParseFrom(s, |s|, nodes, depth, budget) == (nodes, budget)
  {
  }

  /** The construct's outcome is what was pushed; without one, only the budget has changed. */
  ghost predicate Reaches(outcome: (Option<Progress>, Budget), next: Option<nat>, nodes: seq<SafeInline>,
      nodes0: seq<SafeInline>, left: Budget) {
    match next
    case Some(n) => outcome.0 == Some(Progress(nodes, n, left))
    case None => outcome == (None, left) && nodes == nodes0
  }

  method TryLink(source: string, index: nat, nodes0: seq<SafeInline>, pending: string, depth: nat,
      budget: InlineParseBudget)
    returns (ghost outcome: (Option<Progress>, Budget), next: Option<nat>, nodes: seq<SafeInline>)
    requires index < |source| && depth < MAX_DEPTH
    modifies budget
    ensures outcome == LinkAt(source, index, PushText(nodes0, pending), depth, old(budget.Value()))
    ensures Reaches(outcome, next, nodes, nodes0, budget.Value())
    ensures budget.Total() == old(budget.Total())
    decreases MAX_DEPTH - depth, 1
  {
    outcome := LinkAt(source, index, PushText(nodes0, pending), depth, budget.Value());
    nodes, next := nodes0, None;
    hide InertLink, InertImage, BracketedReference;
    var image := Found(source, index, "![");
    if image || source[index] == '[' {
      var taken := budget.TakeReference();
      if taken {
        budget.scans := budget.scans.(references := budget.scans.references + 1);
        var reference := FindReference(source, index, image);
        if reference.Some? {
          nodes := PushText(nodes, pending);
          if image {
            nodes := PushInertImage(nodes, reference.value, depth, budget);
          } else {
            nodes := PushInertLink(nodes, reference.value, depth, budget);
          }
          next := Some(reference.value.end);
        }
      }
    }
  }

  method PushStyled(nodes0: seq<SafeInline>, style: DelimiterStyle, inside: string, depth: nat,
      budget: InlineParseBudget) returns (nodes: seq<SafeInline>)
    requires depth < MAX_DEPTH
    modifies budget
    ensures (nodes, budget.Value()) == StyledContent(style, inside, nodes0, depth, old(budget.Value()))
    ensures budget.Total() == old(budget.Total())
    decreases MAX_DEPTH - depth, 0
  {
    hide ParseInlines;
    var content := ParseInlinesWithBudget(inside, depth + 1, budget);
    nodes := nodes0 + [Wrap(style, content)];
  }

  lemma StyledNone(s: string, index: nat, nodes: seq<SafeInline>, depth: nat, budget: Budget)
    requires index < |s| && depth < MAX_DEPTH && (InlineDelimiter(s, index).None? || budget.delimiters == 0)
    ensures StyledAt(s, index, nodes, depth, budget) == (None, budget)
  {
    hide InlineDelimiter;
  }

  lemma StyledUnclosed(s: string, index: nat, nodes: seq<SafeInline>, depth: nat, budget: Budget, mark: string)
    requires index < |s| && depth < MAX_DEPTH && budget.delimiters > 0
    requires InlineDelimiter(s, index).Some? && InlineDelimiter(s, index).value.mark == mark
    requires FindUnescaped(s, index + |mark|, mark).None?
    ensures StyledAt(s, index, nodes, depth, budget) == (None, budget.(delimiters := budget.delimiters - 1))
  {
    hide InlineDelimiter, FindUnescaped;
  }

  lemma StyledClosed(s: string, index: nat, nodes: seq<SafeInline>, depth: nat, budget: Budget, delimiter: Delimiter,
      end: nat)
    requires index < |s| && depth < MAX_DEPTH && budget.delimiters > 0
    requires InlineDelimiter(s, index) == Some(delimiter)
      && FindUnescaped(s, index + |delimiter.mark|, delimiter.mark) == Some(end)
    ensures var Delimiter(mark, style) := delimiter;
      var left := budget.(delimiters := budget.delimiters - 1);
      var content := StyledContent(style, s[index + |mark|..end], nodes, depth, left);
      StyledAt(s, index, nodes, depth, budget) == (Some(Progress(content.0, end + |mark|, content.1)), left)
  {
    hide InlineDelimiter, FindUnescaped, StyledContent;
  }

  method TryStyled(source: string, index: nat, nodes0: seq<SafeInline>, pending: string, depth: nat,
      budget: InlineParseBudget)
    returns (ghost outcome: (Option<Progress>, Budget), next: Option<nat>, nodes: seq<SafeInline>)
    requires index < |source| && depth < MAX_DEPTH
    modifies budget
    ensures outcome == StyledAt(source, index, PushText(nodes0, pending), depth, old(budget.Value()))
    ensures Reaches(outcome, next, nodes, nodes0, budget.Value())
    ensures budget.Total() == old(budget.Total())
    decreases MAX_DEPTH - depth, 1
  {
    hide StyledAt, FindUnescaped, StyledContent, PushText, InlineDelimiter;
    ghost var shown := PushText(nodes0, pending);
    ghost var before := budget.Value();
    outcome := StyledAt(source, index, shown, depth, before);
    nodes, next := nodes0, None;
    var delimiter := InlineDelimiter(source, index);
    if delimiter.None? {
      StyledNone(source, index, shown, depth, before);
      return;
    }
    var taken := budget.TakeDelimiter();
    if !taken {
      StyledNone(source, index, shown, depth, before);
      return;
    }
    budget.scans := budget.scans.(delimiters := budget.scans.delimiters + 1);
    var Delimiter(mark, style) := delimiter.value;
    var end := FindUnescapedDelimiter(source, index + |mark|, mark);
    if end.None? {
      StyledUnclosed(source, index, shown, depth, before, mark);
      return;
    }
    StyledClosed(source, index, shown, depth, before, delimiter.value, end.value);
    nodes := PushText(nodes, pending);
    nodes := PushStyled(nodes, style, source[index + |mark|..end.value], depth, budget);
    next := Some(end.value + |mark|);
  }

  method TryCode(source: string, index: nat, nodes0: seq<SafeInline>, pending: string, budget: InlineParseBudget)
    returns (ghost outcome: (Option<Progress>, Budget), next: Option<nat>, nodes: seq<SafeInline>)
    requires index < |source|
    modifies budget
    ensures outcome == CodeAt(source, index, PushText(nodes0, pending), old(budget.Value()))
    ensures Reaches(outcome, next, nodes, nodes0, budget.Value())
    ensures budget.Total() == old(budget.Total())

  {
    outcome := CodeAt(source, index, PushText(nodes0, pending), budget.Value());
    nodes, next := nodes0, None;
    if source[index] == '`' {
      var taken := budget.TakeDelimiter();
      if taken {
        budget.scans := budget.scans.(delimiters := budget.scans.delimiters + 1);
        var n := RunLength(source, index, '`');
        var end := FindUnescapedDelimiter(source, index + n, source[index..index + n]);
        if end.Some? {
          nodes := PushText(nodes, pending);
          nodes := nodes + [Code(source[index + n..end.value])];
          next := Some(end.value + n);
        }
      }
    }
  }

  method TryAutolink(source: string, index: nat, nodes0: seq<SafeInline>, pending: string, budget: InlineParseBudget)
    returns (ghost outcome: (Option<Progress>, Budget), next: Option<nat>, nodes: seq<SafeInline>)
    requires index < |source|
    modifies budget
    ensures outcome == AutolinkAt(source, index, PushText(nodes0, pending), old(budget.Value()))
    ensures Reaches(outcome, next, nodes, nodes0, budget.Value())
    ensures budget.Total() == old(budget.Total())

  {
    outcome := AutolinkAt(source, index, PushText(nodes0, pending), budget.Value());
    nodes, next := nodes0, None;
    if source[index] == '<' {
      var taken := budget.TakeAutolink();
      if taken {
        budget.scans := budget.scans.(autolinks := budget.scans.autolinks + 1);
        var end := FindText(source, index + 1, ">");
        if end.Some? {
          var candidate := source[index + 1..end.value];
          if LooksLikeAutolink(candidate) {
            nodes := PushText(nodes, pending);
            nodes := PushText(nodes, candidate);
            next := Some(end.value + 1);
          }
        }
      }
    }
  }

  method TryConstruct(source: string, index: nat, nodes0: seq<SafeInline>, pending: string, depth: nat,
      budget: InlineParseBudget)
    returns (ghost outcome: (Option<Progress>, Budget), next: Option<nat>, nodes: seq<SafeInline>)
    requires index < |source| && depth < MAX_DEPTH
    modifies budget
    ensures outcome == ConstructAt(source, index, PushText(nodes0, pending), depth, old(budget.Value()))
    ensures Reaches(outcome, next, nodes, nodes0, budget.Value())
    ensures budget.Total() == old(budget.Total())
    decreases MAX_DEPTH - depth, 2
  {
    hide LinkAt, StyledAt, CodeAt, AutolinkAt, PushText;
    outcome, next, nodes := TryLink(source, index, nodes0, pending, depth, budget);
    if next.None? {
      outcome, next, nodes := TryStyled(source, index, nodes, pending, depth, budget);
    }
    if next.None? {
      outcome, next, nodes := TryCode(source, index, nodes, pending, budget);
    }
    if next.None? {
      outcome, next, nodes := TryAutolink(source, index, nodes, pending, budget);
    }
    outcome := ConstructAt(source, index, PushText(nodes0, pending), depth, old(budget.Value()));
  }

  /** Text waits as a slice of the source until a construct ends it. */
  method ParseInlinesWithBudget(source: string, depth: nat, budget: InlineParseBudget) returns (nodes: seq<SafeInline>)
    modifies budget
    ensures (nodes, budget.Value()) == ParseInlines(source, depth, old(budget.Value()))
    ensures budget.Total() == old(budget.Total())
    decreases if depth >= MAX_DEPTH then 0 else MAX_DEPTH - depth, 3
  {
    hide ParseInlines, ParseFrom, InlineStep, ConstructAt, PushText, IsAsciiPunctuation;
    ParseInlinesStarts(source, depth, budget.Value());
    if depth >= MAX_DEPTH {
      return [Text(source)];
    }
    ghost var result := ParseFrom(source, 0, [], depth, budget.Value());
    nodes := [];
    var textStart, index := 0, 0;
    PushNothing(nodes, source, index);
    while index < |source|
      invariant 0 <= textStart <= index <= |source|
      invariant ParseFrom(source, index, PushText(nodes, source[textStart..index]), depth, budget.Value()) == result
      invariant budget.Total() == old(budget.Total())
      decreases |source| - index
    {
      var pending := source[textStart..index];
      ghost var shown := PushText(nodes, pending);
      if EscapesAt(source, index) {
        StepOverEscape(source, index, shown, depth, budget.Value());
        nodes := PushText(nodes, pending);
        nodes := PushText(nodes, [source[index + 1]]);
        index := index + 2;
        textStart := index;
        PushNothing(nodes, source, index);
        continue;
      }
      ghost var before := budget.Value();
      ghost var outcome;
      var next;
      outcome, next, nodes := TryConstruct(source, index, nodes, pending, depth, budget);
      if next.Some? {
        StepOverConstruct(source, index, shown, depth, before);
        index := next.value;
        textStart := index;
        PushNothing(nodes, source, index);
        continue;
      }
      StepOverChar(source, index, shown, depth, before);
      if source[index] == '\n' {
        nodes := PushText(nodes, pending);
        nodes := nodes + [LineBreak];
        index := index + 1;
        textStart := index;
        PushNothing(nodes, source, index);
        continue;
      }
      PushTextTwice(nodes, pending, [source[index]]);
      index := index + 1;
      assert source[textStart..index] == pending + [source[index - 1]];
    }
    assert source[textStart..index] == source[textStart..];
    nodes := PushText(nodes, source[textStart..]);
    assert ParseFrom(source, |source|, nodes, depth, budget.Value()) == result;
    ParseFromEnd(source, nodes, depth, budget.Value());
  }

  /** One block's inline text, with a budget of its own: at most 128 scans of each kind over the whole recursion. */
  method ParseBlockInlines(source: string) returns (nodes: seq<SafeInline>, ghost scans: Budget)
    ensures nodes == ParseInlines(source, 0, FULL).0
    ensures FULL.Covers(scans) && scans.references == MAX_SCANS - ParseInlines(source, 0, FULL).1.references
  {
    var budget := new InlineParseBudget();
    nodes := ParseInlinesWithBudget(source, 0, budget);
    scans := budget.scans;
  }
}
