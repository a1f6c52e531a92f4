// The indexed inline parser: the backtick index with its monotone cursors, and the parse loop.
// It computes ParseInline of module InlineMarkdown, with bounded delimiter work.
module InlineParser {
  import opened Options
  import opened Collections
  import opened Unicode
  import opened Styles
  import opened StyleRuns
  import opened InlineMarkdown

  /** A maximal stretch of exactly `n` backticks starts at `p`. */
  ghost predicate IsRun(s: string, p: nat, n: nat) {
    && 0 < n && p + n <= |s|
    && (forall i :: p <= i < p + n ==> s[i] == '`')
    && (p == 0 || s[p - 1] != '`')
    && (p + n == |s| || s[p + n] != '`')
  }

  ghost predicate StartsRun(s: string, p: nat)
    requires p < |s|
  {
    s[p] == '`' && (p == 0 || s[p - 1] != '`')
  }

  /** Starts of all maximal backtick runs. */
  ghost function RunStarts(s: string): set<nat> {
    set p: nat | p < |s| && StartsRun(s, p)
  }

  /** No run of length `n` starts in `from..to`. */
  ghost predicate NoRun(s: string, n: nat, from: nat, to: nat) {
    forall p :: from <= p < to ==> !IsRun(s, p, n)
  }

  /** The naive scan: the first run of exactly that length at or after the minimum. */
  ghost predicate IsNextRun(s: string, n: nat, minimum: nat, r: Option<nat>) {
    match r
    case Some(p) => minimum <= p && IsRun(s, p, n) && NoRun(s, n, minimum, p)
    case None => NoRun(s, n, minimum, |s|)
  }

  lemma RunLengthUnique(s: string, p: nat, n: nat, m: nat)
    requires IsRun(s, p, n) && IsRun(s, p, m)
    ensures n == m
  {
  }

  lemma LeadingRun(s: string, at: nat)
    requires at < |s| && s[at] == '`' && (at == 0 || s[at - 1] != '`')
    ensures IsRun(s, at, LeadingBackticks(s[at..]))
    ensures forall p, n :: at < p < at + LeadingBackticks(s[at..]) ==> !IsRun(s, p, n)
  {
    var k := LeadingBackticks(s[at..]);
    assert s[at..][0] == '`';
    forall i | at <= i < at + k ensures s[i] == '`' {
      assert s[i] == s[at..][i - at];
    }
    assert at + k < |s| ==> s[at + k] == s[at..][k];
  }

  /** On suffixes that do not cut a run, FindRun is the naive scan. */
  lemma {:induction false} FindRunIsNaive(s: string, n: nat, at: nat)
    requires n > 0 && at <= |s| && (at == |s| || s[at] != '`' || at == 0 || s[at - 1] != '`')
    ensures IsNextRun(s, n, at, Shift(at, FindRun(s[at..], n)))
    decreases |s| - at
  {
    hide FindRun, LeadingBackticks;
    var rest := s[at..];
    if at < |s| {
      var k := if s[at] == '`' then LeadingBackticks(rest) else 1;
      FindRunStep(rest, n, k);
      assert rest[k..] == s[at + k..];
      NoRunSkipped(s, n, at, k);
      if !(s[at] == '`' && k == n) {
        FindRunIsNaive(s, n, at + k);
      }
    } else {
      FindNothing(n);
    }
  }

  /** One step of the scan passes over no run of the wanted length. */
  lemma NoRunSkipped(s: string, n: nat, at: nat, k: nat)
    requires at < |s| && (s[at] != '`' || at == 0 || s[at - 1] != '`')
    requires k == (if s[at] == '`' then LeadingBackticks(s[at..]) else 1)
    ensures at + k <= |s| && (at + k == |s| || s[at + k] != '`' || s[at + k - 1] != '`')
    ensures if s[at] == '`' && k == n then IsRun(s, at, n) else NoRun(s, n, at, at + k)
  {
    if s[at] == '`' {
      LeadingRun(s, at);
      if k != n && IsRun(s, at, n) {
        RunLengthUnique(s, at, n, k);
      }
    }
  }

  lemma FindNothing(n: nat)
    ensures FindRun("", n) == None
  {
  }

  lemma NextRunUnique(s: string, n: nat, minimum: nat, a: Option<nat>, b: Option<nat>)
    requires IsNextRun(s, n, minimum, a) && IsNextRun(s, n, minimum, b)
    ensures a == b
  {
    if a.Some? && b.Some? {
      assert !(a.value < b.value) && !(b.value < a.value);
    }
  }

  /** Positions of all runs by length, each list with a cursor that only advances. */
  class BacktickRunIndex {
    ghost const source: string
    var positions: map<nat, seq<nat>>
    var cursors: map<nat, nat>
    var indexedBytes: nat
    var positionsAdvanced: nat
    ghost var floor: nat           // the largest minimum asked for so far
    ghost var passed: set<nat>     // run starts that some cursor has moved past

    /** The list for length `n` holds exactly the runs of that length, in order. */
    static ghost predicate Lists(source: string, positions: map<nat, seq<nat>>, upTo: nat) {
      && (forall n :: n in positions ==>
            (forall j :: 0 <= j < |positions[n]| ==> positions[n][j] < upTo && IsRun(source, positions[n][j], n))
            && (forall j, k :: 0 <= j < k < |positions[n]| ==> positions[n][j] < positions[n][k]))
      && (forall p: nat, n: nat :: p < upTo && IsRun(source, p, n) ==> n in positions && p in positions[n])
    }

    ghost function Cursor(n: nat): nat
      reads this
    {
      if n in cursors then cursors[n] else 0
    }

    ghost predicate Valid()
      reads this
    {
      && Lists(source, positions, |source|)
      && (forall n :: n in positions ==> Cursor(n) <= |positions[n]|)
      && (forall n, j :: n in positions && 0 <= j < |positions[n]| ==>
            (j < Cursor(n) ==> positions[n][j] < floor) && (positions[n][j] in passed <==> j < Cursor(n)))
      && passed <= RunStarts(source)
      && positionsAdvanced == |passed|
    }

    constructor (source: string)
      ensures Valid() && this.source == source && floor == 0
      ensures indexedBytes == Bytes(source) && positionsAdvanced == 0
    {
      var found: map<nat, seq<nat>> := map[];
      var index := 0;
      while index < |source|
        invariant index <= |source|
        invariant index == 0 || index == |source| || source[index - 1] != '`' || source[index] != '`'
        invariant Lists(source, found, index)
      {
        if source[index] == '`' {
          var start := index;
          while index < |source| && source[index] == '`'
            invariant start <= index <= |source|
            invariant forall i :: start <= i < index ==> source[i] == '`'
          {
            index := index + 1;
          }
          var length := index - start;
          AddRun(source, found, start, length);
          found := found[length := (if length in found then found[length] else []) + [start]];
        } else {
          assert forall n :: !IsRun(source, index, n);
          index := index + 1;
        }
      }
      this.source := source;
      positions := found;
      cursors := map[];
      indexedBytes := Bytes(source);
      positionsAdvanced := 0;
      floor := 0;
      passed := {};
    }

    static lemma AddRun(source: string, found: map<nat, seq<nat>>, start: nat, length: nat)
      requires start + length <= |source| && length > 0 && Lists(source, found, start)
      requires start == 0 || source[start - 1] != '`'
      requires forall i :: start <= i < start + length ==> source[i] == '`'
      requires start + length == |source| || source[start + length] != '`'
      ensures Lists(source, found[length := (if length in found then found[length] else []) + [start]], start + length)
    {
      var more := found[length := (if length in found then found[length] else []) + [start]];
      assert IsRun(source, start, length);
      forall p: nat, n: nat | p < start + length && IsRun(source, p, n)
        ensures n in more && p in more[n]
      {
        if p == start {
          RunLengthUnique(source, p, n, length);
          assert more[n][|more[n]| - 1] == start;
        } else if p < start {
          assert p in found[n];
        }
      }
    }

    /** Same answer as the naive scan under non-decreasing queries; total advances never exceed the runs. */
    method NextRun(length: nat, minimum: nat) returns (r: Option<nat>)
      requires Valid() && length > 0 && floor <= minimum
      modifies this
      ensures Valid() && floor == minimum
      ensures IsNextRun(source, length, minimum, r)
      ensures positionsAdvanced <= |RunStarts(source)|
      ensures indexedBytes == old(indexedBytes)
    {
      hide Lists, IsNextRun, RunStarts;
      floor := minimum;
      if length !in positions {
        NotIndexed(length, minimum);
        Bounded();
        return None;
      }
      var list := positions[length];
      if length !in cursors {
        cursors := cursors[length := 0];
      }
      while cursors[length] < |list| && list[cursors[length]] < minimum
        invariant Valid() && floor == minimum && length in cursors
        invariant positions == old(positions) && indexedBytes == old(indexedBytes)
        decreases |list| - cursors[length]
      {
        Advance(length);
      }
      Bounded();
      Found(length, minimum);
      return if cursors[length] < |list| then Some(list[cursors[length]]) else None;
    }

    /** A cursor that stands on the first position not below the minimum answers the query. */
    lemma Found(length: nat, minimum: nat)
      requires Valid() && floor == minimum && length in positions && length in cursors
      requires var c := cursors[length];
               c < |positions[length]| ==> minimum <= positions[length][c]
      ensures var c := cursors[length];
              IsNextRun(source, length, minimum, if c < |positions[length]| then Some(positions[length][c]) else None)
    {
      hide IsRun, RunStarts;
      var list, c := positions[length], cursors[length];
      forall p | minimum <= p < (if c < |list| then list[c] else |source|)
        ensures !IsRun(source, p, length)
      {
        assert IsRun(source, p, length) ==> p in list;
      }
    }

    lemma NotIndexed(length: nat, minimum: nat)
      requires Valid() && length !in positions
      ensures IsNextRun(source, length, minimum, None)
    {
    }

    lemma Bounded()
      requires Valid()
      ensures positionsAdvanced <= |RunStarts(source)|
    {
      SubsetSize(passed, RunStarts(source));
    }

    lemma StartsHere(length: nat, j: nat)
      requires Valid() && length in positions && j < |positions[length]|
      ensures positions[length][j] in RunStarts(source)
    {
      assert IsRun(source, positions[length][j], length);
    }

    /** One step of one cursor. */
    method Advance(length: nat)
      requires Valid() && length in positions && length in cursors
      requires cursors[length] < |positions[length]| && positions[length][cursors[length]] < floor
      modifies this`cursors, this`positionsAdvanced, this`passed
      ensures Valid() && cursors == old(cursors)[length := old(cursors)[length] + 1]
    {
      hide IsRun;
      var p := positions[length][cursors[length]];
      StartsHere(length, cursors[length]);
      assert IsRun(source, p, length);
      assert p !in passed;
      forall n, j | n in positions && 0 <= j < |positions[n]| && positions[n][j] == p
        ensures n == length && j == cursors[length]
      {
        RunLengthUnique(source, p, n, length);
      }
      cursors := cursors[length := cursors[length] + 1];
      positionsAdvanced := positionsAdvanced + 1;
      passed := passed + {p};
    }
  }

  // ---------- the loops of the parser ----------

  /** Counters that the program reports about its own work. */
  datatype InlineParseOperations = InlineParseOperations(
    indexedBytes: nat, parseSteps: nat, delimiterQueries: nat, delimiterPositionsAdvanced: nat)

  method CountBackticks(source: string, index: nat) returns (n: nat)
    requires index <= |source|
    ensures n == LeadingBackticks(source[index..])
  {
    n := 0;
    while index + n < |source| && source[index + n] == '`'
      invariant index + n <= |source| && forall i :: index <= i < index + n ==> source[i] == '`'
    {
      n := n + 1;
    }
    LeadingBackticksOf(source[index..], n);
  }

  /** FindMarker in terms of offsets into the whole source. */
  ghost function MarkerFrom(source: string, index: nat, marker: string): Option<nat>
    requires index <= |source| && marker != ""
  {
    Shift(index, FindMarker(source[index..], marker))
  }

  lemma MarkerStep(source: string, index: nat, marker: string)
    requires index < |source| && marker != ""
    ensures MarkerFrom(source, |source|, marker) == None
    ensures MarkerFrom(source, index, marker) ==
            if source[index] == '\\' then
              if index + 1 == |source| then None else MarkerFrom(source, index + 2, marker)
            else if marker <= source[index..] then Some(index)
            else MarkerFrom(source, index + 1, marker)
  {
    var rest := source[index..];
    assert rest[1..] == source[index + 1..];
    assert |rest| > 1 ==> rest[2..] == source[index + 2..];
  }

  method FindUnescapedMarker(source: string, from: nat, marker: string) returns (r: Option<nat>)
    requires from <= |source| && marker != ""
    ensures r == Shift(from, FindMarker(source[from..], marker))
  {
    hide FindMarker, MarkerFrom;
    MarkerFromIs(source, from, marker);
    var index := from;
    while index < |source|
      invariant from <= index <= |source|
      invariant MarkerFrom(source, from, marker) == MarkerFrom(source, index, marker)
      decreases |source| - index
    {
      MarkerStep(source, index, marker);
      if source[index] == '\\' {
        index := index + 1;
        if index < |source| {
          index := index + 1;
        }
      } else if marker <= source[index..] {
        return Some(index);
      } else {
        index := index + 1;
      }
    }
    MarkerFromIs(source, |source|, marker);
    return None;
  }

  lemma MarkerFromIs(source: string, from: nat, marker: string)
    requires from <= |source| && marker != ""
    ensures MarkerFrom(source, from, marker) == Shift(from, FindMarker(source[from..], marker))
    ensures from == |source| ==> MarkerFrom(source, from, marker) == None
  {
  }

  lemma UnescapeStep(source: string, i: nat)
    requires i < |source|
    ensures Unescape(source[i..]) ==
            if source[i] == '\\' && i + 1 < |source| then [source[i + 1]] + Unescape(source[i + 2..])
            else [source[i]] + Unescape(source[i + 1..])
  {
    assert source[i..][1..] == source[i + 1..];
    assert i + 1 < |source| ==> source[i..][2..] == source[i + 2..] && source[i..][1] == source[i + 1];
  }

  method UnescapeInline(source: string) returns (output: string)
    ensures output == Unescape(source)
  {
    output := "";
    var i := 0;
    while i < |source|
      invariant i <= |source| && output + Unescape(source[i..]) == Unescape(source)
    {
      hide Unescape;
      UnescapeStep(source, i);
      ghost var kept := if source[i] == '\\' && i + 1 < |source| then i + 1 else i;
      Associates(output, [source[kept]], Unescape(source[kept + 1..]));
      var character := source[i];
      i := i + 1;
      if character == '\\' && i < |source| {
        output := output + [source[i]];
        i := i + 1;
      } else {
        output := output + [character];
      }
    }
  }

  /** Appending a piece of one style to text with normal runs. */
  lemma AppendCells(output: string, runs: seq<StyleRun>, piece: string, style: InlineStyle)
    requires Normal(runs, |output|)
    ensures var more := PushRun(runs, |output|, |output| + |piece|, style);
            Normal(more, |output| + |piece|)
            && Cells(output + piece, more) == Cells(output, runs) + Styled(piece, style)
  {
    hide StyleAt;
    PushRunStyles(runs, |output|, |output| + |piece|, style);
  }

  /** What one step of the parser does to the output. */
  lemma StepCells(output: string, runs: seq<StyleRun>, source: string, index: nat, t: Token)
    requires Normal(runs, |output|) && index < |source| && t == NextToken(source[index..])
    ensures index + t.length <= |source|
    ensures var more := PushRun(runs, |output|, |output| + |t.text|, t.style);
            Normal(more, |output| + |t.text|)
            && Cells(output + t.text, more) + ParseInline(source[index + t.length..])
               == Cells(output, runs) + ParseInline(source[index..])
  {
    hide NextToken, StyleAt;
    AppendCells(output, runs, t.text, t.style);
    assert source[index..][t.length..] == source[index + t.length..];
  }

  /** The token at `index`, computed with the indexed delimiters. */
  method ReadToken(source: string, index: nat, backticks: BacktickRunIndex) returns (t: Token, queries: nat)
    requires index < |source| && backticks.Valid() && backticks.source == source && backticks.floor <= index
    modifies backticks
    ensures t == NextToken(source[index..])
    ensures backticks.Valid() && backticks.floor <= index + t.length && queries <= 1
    ensures backticks.indexedBytes == old(backticks.indexedBytes)
  {
    hide FindRun, FindMarker, Unescape, LeadingBackticks, LeadingStars, RunStarts, IsNextRun;
    ghost var rest := source[index..];
    queries := 0;
    if source[index] == '\\' {
      if index + 1 < |source| {
        return Token([source[index + 1]], PLAIN, 2), 0;
      }
      return Token("\\", PLAIN, 1), 0;
    }
    if source[index] == '`' {
      t := ReadBackticks(source, index, backticks);
      return t, 1;
    }
    StarsOf(source, index);
    var stars :=
      if Repeat('*', 3) <= source[index..] then 3
      else if Repeat('*', 2) <= source[index..] then 2
      else if Repeat('*', 1) <= source[index..] then 1
      else 0;
    if stars > 0 {
      assert rest[stars..] == source[index + stars..];
      var end := FindUnescapedMarker(source, index + stars, Repeat('*', stars));
      if end.Some? {
        var decoded := UnescapeInline(source[index + stars..end.value]);
        SliceOfSuffix(source, index, stars, end.value - index);
        return Token(decoded, StarStyle(stars), end.value + stars - index), 0;
      }
    }
    return Token([source[index]], PLAIN, 1), 0;
  }

  lemma SliceOfSuffix(s: string, at: nat, from: nat, to: nat)
    requires from <= to && at + to <= |s|
    ensures s[at..][from..to] == s[at + from..at + to]
  {
  }

  lemma StarsOf(source: string, index: nat)
    requires index < |source|
    ensures LeadingStars(source[index..]) ==
      if Repeat('*', 3) <= source[index..] then 3
      else if Repeat('*', 2) <= source[index..] then 2
      else if Repeat('*', 1) <= source[index..] then 1
      else 0
  {
  }

  method ReadBackticks(source: string, index: nat, backticks: BacktickRunIndex) returns (t: Token)
    requires index < |source| && source[index] == '`'
    requires backticks.Valid() && backticks.source == source && backticks.floor <= index
    modifies backticks
    ensures t == NextToken(source[index..])
    ensures backticks.Valid() && backticks.floor <= index + t.length
    ensures backticks.indexedBytes == old(backticks.indexedBytes)
  {
    hide FindRun, RunStarts, NextToken, LeadingBackticks, IsNextRun;
    var fence := CountBackticks(source, index);
    FenceFits(source, index, fence);
    var end := backticks.NextRun(fence, index + fence);
    ClosingFence(source, index, fence, end);
    if end.Some? {
      t := Token(source[index + fence..end.value], CODE, end.value + fence - index);
    } else {
      t := Token(source[index..index + fence], PLAIN, fence);
    }
  }

  /** What the index answers is what the token needs. */
  lemma ClosingFence(source: string, index: nat, fence: nat, end: Option<nat>)
    requires index < |source| && source[index] == '`' && fence == LeadingBackticks(source[index..])
    requires fence > 0 && index + fence <= |source| && (index + fence == |source| || source[index + fence] != '`')
    requires IsNextRun(source, fence, index + fence, end)
    ensures end.Some? ==> index + fence <= end.value && end.value + fence <= |source|
    ensures NextToken(source[index..]) ==
            if end.Some? then Token(source[index + fence..end.value], CODE, end.value + fence - index)
            else Token(source[index..index + fence], PLAIN, fence)
  {
    hide FindRun, NextToken, LeadingBackticks, IsNextRun;
    var rest := source[index..];
    var scan := FindRun(rest[fence..], fence);
    assert rest[fence..] == source[index + fence..];
    FindRunIsNaive(source, fence, index + fence);
    NextRunUnique(source, fence, index + fence, end, Shift(index + fence, scan));
    if scan.Some? {
      MatchedBackticks(rest, fence, scan.value);
      SliceOfSuffix(source, index, fence, fence + scan.value);
    } else {
      UnmatchedBackticks(rest, fence);
      SliceOfSuffix(source, index, 0, fence);
    }
  }

  lemma FenceFits(source: string, index: nat, n: nat)
    requires index < |source| && source[index] == '`' && n == LeadingBackticks(source[index..])
    ensures n > 0 && index + n <= |source| && (index + n == |source| || source[index + n] != '`')
  {
    assert source[index..][0] == '`';
    assert index + n < |source| ==> source[index..][n] == source[index + n];
  }

  /** Appends the parsed source to the output; delimiter work is linear in the runs of backticks. */
  method ParseInlineWithOperations(source: string, output0: string, runs0: seq<StyleRun>)
    returns (output: string, runs: seq<StyleRun>, operations: InlineParseOperations)
    requires Normal(runs0, |output0|)
    ensures Normal(runs, |output|)
    ensures Cells(output, runs) == Cells(output0, runs0) + ParseInline(source)
    ensures operations.indexedBytes == Bytes(source)
    ensures operations.delimiterQueries <= operations.parseSteps <= |source|
    ensures operations.delimiterPositionsAdvanced <= |RunStarts(source)|
  {
    hide NextToken, ParseInline, StyleAt, RunStarts, Link;
    output, runs := output0, runs0;
    var backticks := new BacktickRunIndex(source);
    var index: nat, steps: nat, queries: nat := 0, 0, 0;
    assert source[0..] == source;
    while index < |source|
      invariant index <= |source| && queries <= steps <= index
      invariant fresh(backticks) && backticks.Valid() && backticks.source == source && backticks.floor <= index
      invariant backticks.indexedBytes == Bytes(source)
      invariant Normal(runs, |output|)
      invariant Cells(output, runs) + ParseInline(source[index..]) == Cells(output0, runs0) + ParseInline(source)
      decreases |source| - index
    {
      var t, asked := ReadToken(source, index, backticks);
      StepCells(output, runs, source, index, t);
      runs := PushRun(runs, |output|, |output| + |t.text|, t.style);
      output := output + t.text;
      index := index + t.length;
      steps, queries := steps + 1, queries + asked;
    }
    ParseNothing();
    assert source[index..] == "";
    backticks.Bounded();
    operations := InlineParseOperations(backticks.indexedBytes, steps, queries, backticks.positionsAdvanced);
  }

  lemma ParseNothing()
    ensures ParseInline("") == []
  {
  }
}
