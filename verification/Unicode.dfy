// Code points, their encoded widths, offset conversion and grapheme boundaries
// (crates/key-editor-core/src/lib.rs). Offsets are code-point indices; the byte offset of
// index i is Bytes(s[..i]).
module Unicode {

  /** UTF-8 width (RFC 3629, section 3). */
  function Width8(c: char): (w: nat)
    ensures 1 <= w <= 4
  {
    var v := c as int;
    if v < 0x80 then 1 else if v < 0x800 then 2 else if v < 0x1_0000 then 3 else 4
  }

  /** UTF-16 width (RFC 2781, section 2.1). */
  function Width16(c: char): (w: nat)
    ensures 1 <= w <= 2
  {
    if c as int < 0x1_0000 then 1 else 2
  }

  /** The characters below this number fit into that many UTF-8 bytes. */
  function Capacity8(bytes: nat): nat
    requires 1 <= bytes <= 4
  {
    match bytes
    case 1 => 128
    case 2 => 32 * 64
    case 3 => 16 * 64 * 64
    case _ => 8 * 64 * 64 * 64
  }

  /** The UTF-8 width is the least number of bytes that holds the character. */
  lemma WidthIsLeast(c: char, bytes: nat)
    requires 1 <= bytes <= 4
    ensures Width8(c) <= bytes <==> c as int < Capacity8(bytes)
    ensures Width16(c) == if c as int < 65536 then 1 else 2
  {
  }

  /** UTF-8 length of a string. */
  function Bytes(s: string): nat {
    if s == "" then 0 else Width8(s[0]) + Bytes(s[1..])
  }

  /** UTF-16 length of a string. */
  function Units(s: string): nat {
    if s == "" then 0 else Width16(s[0]) + Units(s[1..])
  }

  lemma {:induction false} BytesConcat(a: string, b: string)
    ensures Bytes(a + b) == Bytes(a) + Bytes(b)
  {
    if a == "" {
      assert a + b == b;
    } else {
      BytesConcat(a[1..], b);
      assert (a + b)[1..] == a[1..] + b;
    }
  }

  lemma {:induction false} UnitsConcat(a: string, b: string)
    ensures Units(a + b) == Units(a) + Units(b)
  {
    if a == "" {
      assert a + b == b;
    } else {
      UnitsConcat(a[1..], b);
      assert (a + b)[1..] == a[1..] + b;
    }
  }

  lemma BytesStep(s: string, i: nat)
    requires i < |s|
    ensures Bytes(s[..i + 1]) == Bytes(s[..i]) + Width8(s[i])
  {
    BytesConcat(s[..i], [s[i]]);
    assert s[..i + 1] == s[..i] + [s[i]];
    assert [s[i]][1..] == "";
  }

  lemma UnitsStep(s: string, i: nat)
    requires i < |s|
    ensures Units(s[..i + 1]) == Units(s[..i]) + Width16(s[i])
  {
    UnitsConcat(s[..i], [s[i]]);
    assert s[..i + 1] == s[..i] + [s[i]];
    assert [s[i]][1..] == "";
  }

  lemma {:induction false} UnitsMonotone(s: string, i: nat, j: nat)
    requires i <= j <= |s|
    ensures Units(s[..i]) + (j - i) <= Units(s[..j])
    decreases j
  {
    if i < j {
      UnitsMonotone(s, i, j - 1);
      UnitsStep(s, j - 1);
    }
  }

  lemma {:induction false} BytesMonotone(s: string, i: nat, j: nat)
    requires i <= j <= |s|
    ensures Bytes(s[..i]) + (j - i) <= Bytes(s[..j])
    decreases j
  {
    if i < j {
      BytesMonotone(s, i, j - 1);
      BytesStep(s, j - 1);
    }
  }

  // ---------- white space ----------

  /** Unicode White_Space. */
  predicate IsWhitespace(c: char) {
    var v := c as int;
    || 0x09 <= v <= 0x0d || v == 0x20 || v == 0x85 || v == 0xa0 || v == 0x1680
    || 0x2000 <= v <= 0x200a || v == 0x2028 || v == 0x2029 || v == 0x202f || v == 0x205f || v == 0x3000
  }

  /** How many ASCII digits a string starts with. */
  function DigitCount(s: string): (n: nat)
    ensures n <= |s|
    ensures forall i :: 0 <= i < n ==> '0' <= s[i] <= '9'
    ensures n < |s| ==> !('0' <= s[n] <= '9')
  {
    if s != "" && '0' <= s[0] <= '9' then 1 + DigitCount(s[1..]) else 0
  }

  /** How many backslashes stand directly in front of a position. */
  function BackslashesBefore(s: string, at: nat): nat
    requires at <= |s|
  {
    if at > 0 && s[at - 1] == '\\' then 1 + BackslashesBefore(s, at - 1) else 0
  }

  predicate IsBlank(s: string) {
    forall i :: 0 <= i < |s| ==> IsWhitespace(s[i])
  }

  // ---------- byte offsets ----------

  /** Index of the character that contains byte `offset`, or the length beyond the end. */
  function FloorIndex(s: string, offset: nat): (i: nat)
    ensures i <= |s|
  {
    if s == "" || offset < Width8(s[0]) then 0 else 1 + FloorIndex(s[1..], offset - Width8(s[0]))
  }

  /** Rounding a byte offset down to a character boundary: the greatest boundary not beyond it. */
  lemma {:induction false} FloorIndexIsGreatest(s: string, offset: nat)
    ensures var i := FloorIndex(s, offset);
            Bytes(s[..i]) <= offset && (i < |s| ==> offset < Bytes(s[..i + 1]))
  {
    if s == "" || offset < Width8(s[0]) {
      assert s[..0] == "";
      if s != "" {
        BytesStep(s, 0);
      }
    } else {
      var i := FloorIndex(s[1..], offset - Width8(s[0]));
      FloorIndexIsGreatest(s[1..], offset - Width8(s[0]));
      assert s[..1 + i] == [s[0]] + s[1..][..i];
      BytesConcat([s[0]], s[1..][..i]);
      if i < |s| - 1 {
        assert s[..2 + i] == [s[0]] + s[1..][..i + 1];
        BytesConcat([s[0]], s[1..][..i + 1]);
      }
      assert [s[0]][1..] == "";
    }
  }

  /** A character boundary given in bytes comes back as its own index. */
  lemma FloorIndexOfBoundary(s: string, i: nat)
    requires i <= |s|
    ensures FloorIndex(s, Bytes(s[..i])) == i
  {
    var k := FloorIndex(s, Bytes(s[..i]));
    FloorIndexIsGreatest(s, Bytes(s[..i]));
    if k < i {
      BytesMonotone(s, k + 1, i);
    } else if i < k {
      BytesMonotone(s, i, k);
    }
  }

  // ---------- UTF-16 offsets ----------

  function OffsetToUtf16(s: string, i: nat): nat
    requires i <= |s|
  {
    Units(s[..i])
  }

  function OffsetFromUtf16(s: string, target: nat): (i: nat)
    ensures i <= |s|
  {
    if s == "" || target < Width16(s[0]) then 0 else 1 + OffsetFromUtf16(s[1..], target - Width16(s[0]))
  }

  /** The program's scan computes OffsetFromUtf16. */
  method ScanFromUtf16(text: string, target: nat) returns (offset: nat)
    ensures offset == OffsetFromUtf16(text, target)
  {
    var utf16: nat := 0;
    for i := 0 to |text|
      invariant utf16 <= target
      invariant OffsetFromUtf16(text, target) == i + OffsetFromUtf16(text[i..], target - utf16)
    {
      assert text[i..][0] == text[i] && text[i..][1..] == text[i + 1..];
      if utf16 >= target {
        return i;
      }
      var next := utf16 + Width16(text[i]);
      if target < next {
        return i;
      }
      utf16 := next;
    }
    return |text|;
  }

  lemma {:induction false} FromUtf16IsGreatest(s: string, target: nat)
    ensures var i := OffsetFromUtf16(s, target);
            OffsetToUtf16(s, i) <= target && (i < |s| ==> target < OffsetToUtf16(s, i + 1))
  {
    if s == "" || target < Width16(s[0]) {
      assert s[..0] == "";
      if s != "" {
        UnitsStep(s, 0);
      }
    } else {
      var i := OffsetFromUtf16(s[1..], target - Width16(s[0]));
      FromUtf16IsGreatest(s[1..], target - Width16(s[0]));
      assert s[..1 + i] == [s[0]] + s[1..][..i];
      UnitsConcat([s[0]], s[1..][..i]);
      if i < |s| - 1 {
        assert s[..2 + i] == [s[0]] + s[1..][..i + 1];
        UnitsConcat([s[0]], s[1..][..i + 1]);
      }
      assert [s[0]][1..] == "";
    }
  }

  /** There and back from any character boundary. */
  lemma Utf16RoundTrip(s: string, i: nat)
    requires i <= |s|
    ensures OffsetFromUtf16(s, OffsetToUtf16(s, i)) == i
  {
    var k := OffsetFromUtf16(s, OffsetToUtf16(s, i));
    FromUtf16IsGreatest(s, OffsetToUtf16(s, i));
    if k < i {
      UnitsMonotone(s, k + 1, i);
    } else if i < k {
      UnitsMonotone(s, i, k);
    }
  }

  /** Target lies between the two code units of one character. */
  predicate InsideSurrogatePair(s: string, target: nat) {
    exists i :: 0 <= i < |s| && Width16(s[i]) == 2 && target == Units(s[..i]) + 1
  }

  /** Back and forth never overshoots, and loses something only inside a pair or past the end. */
  lemma Utf16Exactness(s: string, target: nat)
    ensures OffsetToUtf16(s, OffsetFromUtf16(s, target)) <= target
    ensures OffsetToUtf16(s, OffsetFromUtf16(s, target)) == target
            <==> !InsideSurrogatePair(s, target) && target <= Units(s)
  {
    var k := OffsetFromUtf16(s, target);
    FromUtf16IsGreatest(s, target);
    assert s[..|s|] == s;
    UnitsMonotone(s, k, |s|);
    if k < |s| {
      UnitsStep(s, k);
      UnitsMonotone(s, k + 1, |s|);
      if OffsetToUtf16(s, k) < target {
        assert Width16(s[k]) == 2 && target == Units(s[..k]) + 1;
      }
    }
    if OffsetToUtf16(s, k) == target && InsideSurrogatePair(s, target) {
      var i :| 0 <= i < |s| && Width16(s[i]) == 2 && target == Units(s[..i]) + 1;
      UnitsStep(s, i);
      if i < k {
        UnitsMonotone(s, i + 1, k);
      } else {
        UnitsMonotone(s, k, i);
      }
    }
  }

  // ---------- grapheme boundaries ----------

  const ZWJ: char := '\U{200d}'

  predicate IsGraphemeExtend(c: char) {
    var v := c as int;
    || 0x0300 <= v <= 0x036f
    || 0x1ab0 <= v <= 0x1aff
    || 0x1dc0 <= v <= 0x1dff
    || 0x20d0 <= v <= 0x20ff
    || 0xfe00 <= v <= 0xfe0f
    || 0xfe20 <= v <= 0xfe2f
    || 0x1f3fb <= v <= 0x1f3ff
    || 0xe0100 <= v <= 0xe01ef
  }

  predicate IsRegionalIndicator(c: char) {
    0x1f1e6 <= c as int <= 0x1f1ff
  }

  /** End of the extending characters, and of joined characters, from index `end` on. */
  function ClusterEnd(s: string, end: nat): (r: nat)
    requires end <= |s|
    ensures end <= r <= |s|
    decreases |s| - end
  {
    if end == |s| then end
    else if IsGraphemeExtend(s[end]) then ClusterEnd(s, end + 1)
    else if s[end] != ZWJ then end
    else if end + 1 < |s| then ClusterEnd(s, end + 2)
    else end + 1
  }

  function NextGrapheme(s: string, start: nat): (r: nat)
    requires start <= |s|
    ensures start <= r <= |s|
    ensures start < |s| ==> start < r
  {
    if start == |s| then start
    else if s[start] == '\r' && start + 1 < |s| && s[start + 1] == '\n' then start + 2
    else if IsRegionalIndicator(s[start]) && start + 1 < |s| && IsRegionalIndicator(s[start + 1]) then
      ClusterEnd(s, start + 2)
    else ClusterEnd(s, start + 1)
  }

  /** The program's loops compute NextGrapheme. */
  method ScanNextGrapheme(text: string, start: nat) returns (end: nat)
    requires start <= |text|
    ensures end == NextGrapheme(text, start)
  {
    if start >= |text| {
      return |text|;
    }
    var first := text[start];
    end := start + 1;
    if first == '\r' && end < |text| && text[end] == '\n' {
      return end + 1;
    }
    if IsRegionalIndicator(first) && end < |text| && IsRegionalIndicator(text[end]) {
      end := end + 1;
    }
    ghost var begin := end;
    while true
      invariant begin <= end <= |text|
      invariant ClusterEnd(text, end) == ClusterEnd(text, begin)
      decreases |text| - end
    {
      while end < |text| && IsGraphemeExtend(text[end])
        invariant begin <= end <= |text|
        invariant ClusterEnd(text, end) == ClusterEnd(text, begin)
      {
        end := end + 1;
      }
      if !(end < |text| && text[end] == ZWJ) {
        break;
      }
      end := end + 1;
      if end < |text| {
        end := end + 1;
      } else {
        break;
      }
    }
  }

  /** What keeps a character together with the one in front of it, in a cluster from `start` on. */
  predicate Glued(s: string, start: nat, k: nat)
    requires start < k < |s|
  {
    || IsGraphemeExtend(s[k]) || s[k] == ZWJ || s[k - 1] == ZWJ
    || (k == start + 1 && s[start] == '\r' && s[k] == '\n')
    || (k == start + 1 && IsRegionalIndicator(s[start]) && IsRegionalIndicator(s[k]))
  }

  lemma {:induction false} ClusterIsGlued(s: string, start: nat, end: nat)
    requires start < end <= |s|
    ensures var r := ClusterEnd(s, end);
      && (forall k :: end <= k < r ==> Glued(s, start, k))
      && (r < |s| ==> !IsGraphemeExtend(s[r]) && s[r] != ZWJ)
    decreases |s| - end
  {
    if end < |s| {
      if IsGraphemeExtend(s[end]) {
        ClusterIsGlued(s, start, end + 1);
      } else if s[end] == ZWJ && end + 1 < |s| {
        ClusterIsGlued(s, start, end + 2);
      }
    }
  }

  /** Everything in a cluster is glued to what is in front of it, and no extending character or joiner follows it,
      except behind a carriage return and newline, which are a cluster of their own. */
  lemma ClusterStops(s: string, start: nat)
    requires start < |s|
    ensures var r := NextGrapheme(s, start);
      && (forall k :: start < k < r ==> Glued(s, start, k))
      && (r < |s| && !(s[start] == '\r' && s[start + 1] == '\n') ==> !IsGraphemeExtend(s[r]) && s[r] != ZWJ)
      && (start + 1 < |s| && s[start] == '\r' && s[start + 1] == '\n' ==> r == start + 2)
      && (start + 1 < |s| && IsRegionalIndicator(s[start]) && IsRegionalIndicator(s[start + 1]) ==> r >= start + 2)
  {
    hide ClusterEnd, IsGraphemeExtend, IsRegionalIndicator;
    ClusterIsGlued(s, start, start + 1);
    if start + 2 <= |s| {
      ClusterIsGlued(s, start, start + 2);
    }
  }

  /** The last grapheme start strictly before `offset`, walking from the start of the text. */
  function PreviousFrom(s: string, at: nat, offset: nat): (r: nat)
    requires at < offset <= |s|
    ensures at <= r < offset
    decreases |s| - at
  {
    var next := NextGrapheme(s, at);
    if next >= offset then at else PreviousFrom(s, next, offset)
  }

  function PreviousGrapheme(s: string, offset: nat): (r: nat)
    requires offset <= |s|
    ensures r <= offset
  {
    if offset == 0 then 0 else PreviousFrom(s, 0, offset)
  }

  method ScanPreviousGrapheme(text: string, offset: nat) returns (previous: nat)
    requires offset <= |text|
    ensures previous == PreviousGrapheme(text, offset)
  {
    if offset == 0 {
      return 0;
    }
    previous := 0;
    var current := 0;
    while current < offset
      invariant current < offset && PreviousFrom(text, current, offset) == PreviousFrom(text, 0, offset)
      decreases |text| - current
    {
      previous := current;
      current := ScanNextGrapheme(text, current);
      if current >= offset {
        return previous;
      }
    }
  }

  /** `o` is reached by repeating NextGrapheme from `at`. */
  ghost predicate Reachable(s: string, at: nat, o: nat)
    requires at <= |s|
    decreases |s| - at
  {
    at == o || (at < |s| && Reachable(s, NextGrapheme(s, at), o))
  }

  lemma {:induction false} ReachableNotBefore(s: string, at: nat, o: nat)
    requires at <= |s| && Reachable(s, at, o)
    ensures at <= o
    decreases |s| - at
  {
    if at != o {
      ReachableNotBefore(s, NextGrapheme(s, at), o);
    }
  }

  lemma {:induction false} PreviousFromStep(s: string, at: nat, o: nat)
    requires at < o <= |s|
    ensures var p := PreviousFrom(s, at, o);
            NextGrapheme(s, p) >= o && (NextGrapheme(s, p) == o <==> Reachable(s, at, o))
    decreases |s| - at
  {
    var next := NextGrapheme(s, at);
    if next < o {
      PreviousFromStep(s, next, o);
    } else if Reachable(s, next, o) {
      ReachableNotBefore(s, next, o);
    }
  }

  /** Previous is strictly smaller; the next after it reaches the offset, exactly so on boundaries. */
  lemma PreviousThenNext(s: string, o: nat)
    requires 0 < o <= |s|
    ensures PreviousGrapheme(s, o) < o <= NextGrapheme(s, PreviousGrapheme(s, o))
    ensures NextGrapheme(s, PreviousGrapheme(s, o)) == o <==> Reachable(s, 0, o)
  {
    PreviousFromStep(s, 0, o);
  }
}
