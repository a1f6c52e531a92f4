// Style runs over text offsets: pushing, normalising, and the monotone cursor.
module StyleRuns {
  import opened Collections
  import opened Styles

  datatype StyleRun = StyleRun(start: nat, end: nat, style: InlineStyle)

  /** Direct lookup: the first run that ends after `i` decides, and a gap is plain. */
  function StyleAt(runs: seq<StyleRun>, i: nat): InlineStyle {
    if runs == [] then PLAIN
    else if runs[0].end <= i then StyleAt(runs[1..], i)
    else if runs[0].start <= i then runs[0].style
    else PLAIN
  }

  /** End of the run at `i`, or `i` itself where no run is. */
  function ExtentAt(runs: seq<StyleRun>, i: nat): nat {
    if runs == [] then i
    else if runs[0].end <= i then ExtentAt(runs[1..], i)
    else if runs[0].start <= i then runs[0].end
    else i
  }

  /** Styled text: what text and runs together mean. */
  function Cells(text: string, runs: seq<StyleRun>): (cells: seq<Cell>)
    ensures |cells| == |text|
    ensures forall i :: 0 <= i < |text| ==> cells[i] == Cell(text[i], StyleAt(runs, i))
  {
    seq(|text|, i requires 0 <= i < |text| => Cell(text[i], StyleAt(runs, i)))
  }

  // ---------- normal form ----------

  /** Run `k` is not empty, continues its predecessor and differs from it in style. */
  ghost predicate Link(runs: seq<StyleRun>, k: nat)
    requires k < |runs|
  {
    && runs[k].start < runs[k].end
    && (if k == 0 then runs[k].start == 0
        else runs[k - 1].end == runs[k].start && runs[k - 1].style != runs[k].style)
  }

  /** The runs cover `0..n` in order, without gaps, empty runs or equal neighbours. */
  ghost predicate Normal(runs: seq<StyleRun>, n: nat) {
    && (forall k :: 0 <= k < |runs| ==> Link(runs, k))
    && (if runs == [] then n == 0 else runs[|runs| - 1].end == n)
  }

  lemma {:induction false} RunsOrdered(runs: seq<StyleRun>, n: nat, j: nat, k: nat)
    requires Normal(runs, n) && j < k < |runs|
    ensures runs[j].end <= runs[k].start
    decreases k
  {
    assert Link(runs, k);
    if j < k - 1 {
      RunsOrdered(runs, n, j, k - 1);
      assert Link(runs, k - 1);
    }
  }

  lemma {:induction false} SkipPassed(runs: seq<StyleRun>, k: nat, i: nat)
    requires k <= |runs| && forall j :: 0 <= j < k ==> runs[j].end <= i
    ensures StyleAt(runs, i) == StyleAt(runs[k..], i)
    ensures ExtentAt(runs, i) == ExtentAt(runs[k..], i)
  {
    if k == 0 {
      assert runs[0..] == runs;
    } else {
      SkipPassed(runs[1..], k - 1, i);
      assert runs[1..][k - 1..] == runs[k..];
    }
  }

  lemma StyleWithin(runs: seq<StyleRun>, n: nat, k: nat, i: nat)
    requires Normal(runs, n) && k < |runs| && runs[k].start <= i < runs[k].end
    ensures StyleAt(runs, i) == runs[k].style && ExtentAt(runs, i) == runs[k].end && runs[k].end <= n
  {
    forall j | 0 <= j < k ensures runs[j].end <= i {
      RunsOrdered(runs, n, j, k);
    }
    SkipPassed(runs, k, i);
    if k < |runs| - 1 {
      RunsOrdered(runs, n, k, |runs| - 1);
      assert Link(runs, |runs| - 1);
    }
  }

  lemma {:induction false} RunContaining(runs: seq<StyleRun>, n: nat, i: nat) returns (k: nat)
    requires Normal(runs, n) && i < n
    ensures k < |runs| && runs[k].start <= i < runs[k].end
  {
    k := |runs| - 1;
    assert Link(runs, k);
    while i < runs[k].start
      invariant k < |runs| && i < runs[k].end
      decreases k
    {
      assert Link(runs, k);
      k := k - 1;
    }
  }

  function PushRun(runs: seq<StyleRun>, start: nat, end: nat, style: InlineStyle): seq<StyleRun> {
    if start >= end then runs
    else if runs != [] && runs[|runs| - 1].end == start && runs[|runs| - 1].style == style then
      runs[|runs| - 1 := runs[|runs| - 1].(end := end)]
    else runs + [StyleRun(start, end, style)]
  }

  lemma PushKeepsNormal(runs: seq<StyleRun>, a: nat, b: nat, style: InlineStyle)
    requires Normal(runs, a) && a <= b
    ensures Normal(PushRun(runs, a, b, style), b)
  {
    var out := PushRun(runs, a, b, style);
    forall k | 0 <= k < |out| ensures Link(out, k) {
      if k < |runs| {
        assert Link(runs, k);
      }
    }
  }

  /** Pushing onto normal runs appends the style of the pushed range, character by character. */
  lemma PushRunStyles(runs: seq<StyleRun>, a: nat, b: nat, style: InlineStyle)
    requires Normal(runs, a) && a <= b
    ensures Normal(PushRun(runs, a, b, style), b)
    ensures forall i :: 0 <= i < b ==>
      StyleAt(PushRun(runs, a, b, style), i) == if i < a then StyleAt(runs, i) else style
  {
    hide StyleAt;
    PushKeepsNormal(runs, a, b, style);
    var out := PushRun(runs, a, b, style);
    forall i | 0 <= i < b
      ensures StyleAt(out, i) == if i < a then StyleAt(runs, i) else style
    {
      if i < a {
        var k := RunContaining(runs, a, i);
        StyleWithin(runs, a, k, i);
        StyleWithin(out, b, k, i);
      } else {
        var k := RunContaining(out, b, i);
        StyleWithin(out, b, k, i);
        if k < |out| - 1 {
          RunsOrdered(out, b, k, |out| - 1);
        }
        if runs != [] {
          assert Link(runs, |runs| - 1);
        }
      }
    }
  }

  /** Normal runs are determined by the style of every character. */
  lemma {:induction false} NormalFormIsUnique(a: seq<StyleRun>, b: seq<StyleRun>, n: nat)
    requires Normal(a, n) && Normal(b, n)
    requires forall i :: 0 <= i < n ==> StyleAt(a, i) == StyleAt(b, i)
    ensures a == b
    decreases |a|
  {
    hide StyleAt;
    if a == [] || b == [] {
      assert a != [] ==> Link(a, |a| - 1);
      assert b != [] ==> Link(b, |b| - 1);
      EmptyIsZero(a, n);
      EmptyIsZero(b, n);
    } else {
      LastRunAgrees(a, b, n);
      LastRunAgrees(b, a, n);
      var last := a[|a| - 1];
      assert b[|b| - 1] == last;
      DropLast(a, n);
      DropLast(b, n);
      assert Link(a, |a| - 1);
      var headA, headB := a[..|a| - 1], b[..|b| - 1];
      forall i | 0 <= i < last.start ensures StyleAt(headA, i) == StyleAt(headB, i) {
        assert StyleAt(a, i) == StyleAt(b, i);
      }
      NormalFormIsUnique(headA, headB, last.start);
      assert a == headA + [last] && b == headB + [last];
    }
  }

  lemma EmptyIsZero(a: seq<StyleRun>, n: nat)
    requires Normal(a, n)
    ensures n == 0 <==> a == []
  {
    if a != [] {
      assert Link(a, |a| - 1);
    }
  }

  lemma LastRunAgrees(a: seq<StyleRun>, b: seq<StyleRun>, n: nat)
    requires Normal(a, n) && Normal(b, n) && a != [] && b != []
    requires forall i :: 0 <= i < n ==> StyleAt(a, i) == StyleAt(b, i)
    ensures a[|a| - 1].style == b[|b| - 1].style && a[|a| - 1].start <= b[|b| - 1].start
  {
    hide StyleAt;
    var x, y := |a| - 1, |b| - 1;
    assert Link(a, x) && Link(b, y);
    StyleWithin(a, n, x, n - 1);
    StyleWithin(b, n, y, n - 1);
    if b[y].start < a[x].start {
      var i := a[x].start - 1;
      StyleWithin(b, n, y, i);
      assert x > 0 && Link(a, x - 1);
      StyleWithin(a, n, x - 1, i);
    }
  }

  lemma DropLast(a: seq<StyleRun>, n: nat)
    requires Normal(a, n) && a != []
    ensures var last := a[|a| - 1]; Normal(a[..|a| - 1], last.start)
    ensures var last := a[|a| - 1]; forall i :: 0 <= i < last.start ==> StyleAt(a[..|a| - 1], i) == StyleAt(a, i)
  {
    hide StyleAt;
    var last := a[|a| - 1];
    var rest := a[..|a| - 1];
    assert Link(a, |a| - 1);
    forall k | 0 <= k < |rest| ensures Link(rest, k) {
      assert Link(a, k);
    }
    forall i | 0 <= i < last.start ensures StyleAt(rest, i) == StyleAt(a, i) {
      var k := RunContaining(rest, last.start, i);
      StyleWithin(rest, last.start, k, i);
      StyleWithin(a, n, k, i);
    }
  }

  // ---------- normalisation ----------

  /** Any list of ordered ranges becomes normal runs of the same meaning. */
  method NormalizeRuns(length: nat, source: seq<StyleRun>) returns (runs: seq<StyleRun>)
    requires forall k :: 0 <= k < |source| ==> source[k].start <= source[k].end
    ensures Normal(runs, length)
    ensures forall i :: 0 <= i < length ==> StyleAt(runs, i) == StyleAt(source, i)
    ensures Normal(source, length) ==> runs == source
  {
    runs := [];
    var cursor: nat := 0;
    for k := 0 to |source|
      invariant cursor <= length && Normal(runs, cursor)
      invariant forall j :: 0 <= j < k ==> source[j].end <= cursor || cursor == length
      invariant forall i :: 0 <= i < cursor ==> StyleAt(runs, i) == StyleAt(source, i)
    {
      var start := Min(Max(source[k].start, cursor), length);
      var end := Min(Max(source[k].end, start), length);
      NormalizeStep(source, k, cursor, length, start, end);
      PushRunStyles(runs, cursor, start, PLAIN);
      if cursor < start {
        runs := PushRun(runs, cursor, start, PLAIN);
      }
      PushRunStyles(runs, start, end, source[k].style);
      runs := PushRun(runs, start, end, source[k].style);
      cursor := end;
    }
    forall i | cursor <= i < length ensures StyleAt(source, i) == PLAIN {
      SkipPassed(source, |source|, i);
    }
    PushRunStyles(runs, cursor, length, PLAIN);
    if cursor < length {
      runs := PushRun(runs, cursor, length, PLAIN);
    }
    if Normal(source, length) {
      NormalFormIsUnique(runs, source, length);
    }
  }

  lemma NormalizeStep(runs: seq<StyleRun>, k: nat, cursor: nat, length: nat, start: nat, end: nat)
    requires k < |runs| && runs[k].start <= runs[k].end && cursor <= length
    requires start == Min(Max(runs[k].start, cursor), length) && end == Min(Max(runs[k].end, start), length)
    requires forall j :: 0 <= j < k ==> runs[j].end <= cursor || cursor == length
    ensures forall i :: cursor <= i < start ==> StyleAt(runs, i) == PLAIN
    ensures forall i :: start <= i < end ==> StyleAt(runs, i) == runs[k].style
  {
    forall i | cursor <= i < end
      ensures StyleAt(runs, i) == if i < start then PLAIN else runs[k].style
    {
      SkipPassed(runs, k, i);
      assert runs[k..][0] == runs[k];
    }
  }

  // ---------- the cursor ----------

  /** Every run clipped to the range, empty pieces dropped. */
  function Overlaps(runs: seq<StyleRun>, start: nat, end: nat): seq<StyleRun> {
    if runs == [] then []
    else
      var lo := Max(runs[0].start, start);
      var hi := Min(runs[0].end, end);
      (if lo < hi then [StyleRun(lo, hi, runs[0].style)] else []) + Overlaps(runs[1..], start, end)
  }

  lemma {:induction false} NoOverlap(runs: seq<StyleRun>, start: nat, end: nat)
    requires forall k :: 0 <= k < |runs| ==> runs[k].end <= start || end <= runs[k].start
    ensures Overlaps(runs, start, end) == []
  {
    if runs != [] {
      NoOverlap(runs[1..], start, end);
    }
  }

  lemma {:induction false} OverlapsSkip(runs: seq<StyleRun>, k: nat, start: nat, end: nat)
    requires k <= |runs| && forall j :: 0 <= j < k ==> runs[j].end <= start
    ensures Overlaps(runs, start, end) == Overlaps(runs[k..], start, end)
  {
    if k == 0 {
      assert runs[0..] == runs;
    } else {
      OverlapsSkip(runs[1..], k - 1, start, end);
      assert runs[1..][k - 1..] == runs[k..];
    }
  }

  /** Monotone access to normal runs. */
  class StyleRunCursor {
    const runs: seq<StyleRun>
    ghost const length: nat
    var index: nat
    var operations: nat

    constructor (runs: seq<StyleRun>, ghost length: nat)
      requires Normal(runs, length)
      ensures this.runs == runs && this.length == length
      ensures index == 0 && operations == 0 && ReadyAt(0)
    {
      this.runs := runs;
      this.length := length;
      index := 0;
      operations := 0;
    }

    /** No run that a query at `offset` or later needs has been passed. */
    ghost predicate ReadyAt(offset: nat)
      reads this
    {
      && Normal(runs, length)
      && index <= |runs|
      && forall k :: 0 <= k < index ==> runs[k].end <= offset
    }

    method AdvanceTo(offset: nat)
      requires ReadyAt(offset)
      modifies this
      ensures ReadyAt(offset) && (index < |runs| ==> offset < runs[index].end)
      ensures operations - old(operations) == index - old(index) >= 0
    {
      while index < |runs| && runs[index].end <= offset
        invariant ReadyAt(offset)
        invariant operations - old(operations) == index - old(index) >= 0
        decreases |runs| - index
      {
        index := index + 1;
        operations := operations + 1;
      }
    }

    /** Agrees with the direct lookup under non-decreasing queries. */
    method StyleExtentAt(offset: nat) returns (style: InlineStyle, end: nat)
      requires ReadyAt(offset)
      modifies this
      ensures ReadyAt(offset)
      ensures style == StyleAt(runs, offset) && end == ExtentAt(runs, offset)
      ensures index >= old(index) && operations - old(operations) <= index - old(index) + 1
    {
      AdvanceTo(offset);
      SkipPassed(runs, index, offset);
      if index == |runs| {
        return PLAIN, offset;
      }
      operations := operations + 1;
      var run := runs[index];
      if run.start <= offset && offset < run.end {
        return run.style, run.end;
      }
      return PLAIN, offset;
    }

    /** The pieces visited are exactly the runs clipped to the range, in order. */
    method ForEachOverlap(start: nat, end: nat) returns (visits: seq<StyleRun>)
      requires start < end ==> ReadyAt(start)
      modifies this
      ensures visits == if start < end then Overlaps(runs, start, end) else []
      ensures start < end ==> ReadyAt(end)
      ensures start >= end ==> index == old(index)
      ensures index >= old(index) && operations - old(operations) <= index - old(index) + 1
    {
      hide Overlaps, StyleAt;
      visits := [];
      if start >= end {
        return;
      }
      AdvanceTo(start);
      OverlapsSkip(runs, index, start, end);
      while index < |runs|
        invariant ReadyAt(end)
        invariant visits + Overlaps(runs[index..], start, end) == Overlaps(runs, start, end)
        invariant index >= old(index) && operations - old(operations) <= index - old(index)
        decreases |runs| - index
      {
        var run := runs[index];
        if run.start >= end {
          RestBeyond(runs, length, index, start, end);
          return;
        }
        operations := operations + 1;
        OverlapsAt(runs, index, start, end);
        var lo, hi := Max(run.start, start), Min(run.end, end);
        if lo < hi {
          visits := visits + [StyleRun(lo, hi, run.style)];
        }
        if run.end <= end {
          index := index + 1;
        } else {
          assert index + 1 < |runs| ==> Link(runs, index + 1);
          RestBeyond(runs, length, index + 1, start, end);
          return;
        }
      }
      NoOverlap(runs[index..], start, end);
    }
  }

  lemma OverlapsAt(runs: seq<StyleRun>, k: nat, start: nat, end: nat)
    requires k < |runs|
    ensures var lo, hi := Max(runs[k].start, start), Min(runs[k].end, end);
            Overlaps(runs[k..], start, end)
            == (if lo < hi then [StyleRun(lo, hi, runs[k].style)] else []) + Overlaps(runs[k + 1..], start, end)
  {
    assert runs[k..][1..] == runs[k + 1..];
  }

  lemma RestBeyond(runs: seq<StyleRun>, n: nat, k: nat, start: nat, end: nat)
    requires Normal(runs, n) && k <= |runs| && (k < |runs| ==> end <= runs[k].start)
    ensures Overlaps(runs[k..], start, end) == []
  {
    forall j | 0 <= j < |runs[k..]| ensures end <= runs[k..][j].start {
      if j > 0 {
        RunsOrdered(runs, n, k, k + j);
        assert Link(runs, k);
      }
    }
    NoOverlap(runs[k..], start, end);
  }
}
