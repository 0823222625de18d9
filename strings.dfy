/**
 * String primitives the engine relies on: the byte-wise order used to sort
 * names, the tokenizer that splits a team name into the names of the
 * individuals it concatenates (the pattern [A-Z][^A-Z]*), and the test of a
 * file name for individual mode.
 */
module Strings {

  predicate IsUpper(c: char)
  {
    'A' <= c <= 'Z'
  }

  /**
   * Lexicographic order on strings. Comparing characters by code point
   * orders strings exactly as comparing their UTF-8 bytes does. A prefix
   * comes first.
   */
  predicate LexLe(a: string, b: string)
    ensures a <= b ==> LexLe(a, b)
    decreases |a|
  {
    assert a <= b && a != [] ==> a[1..] <= b[1..];
    a == [] || (b != [] && (a[0] < b[0] || (a[0] == b[0] && LexLe(a[1..], b[1..]))))
  }

  lemma {:induction false} LexLeTotal(a: string, b: string)
    ensures LexLe(a, b) || LexLe(b, a)
    decreases |a|
  {
    if a != [] && b != [] && a[0] == b[0] {
      LexLeTotal(a[1..], b[1..]);
    }
  }

  lemma {:induction false} LexLeTransitive(a: string, b: string, c: string)
    requires LexLe(a, b) && LexLe(b, c)
    ensures LexLe(a, c)
    decreases |a|
  {
    if a != [] && a[0] == b[0] && b[0] == c[0] {
      LexLeTransitive(a[1..], b[1..], c[1..]);
    }
  }

  lemma {:induction false} LexLeAntisymmetric(a: string, b: string)
    requires LexLe(a, b) && LexLe(b, a)
    ensures a == b
    decreases |a|
  {
    if a != [] {
      LexLeAntisymmetric(a[1..], b[1..]);
      assert a == [a[0]] + a[1..];
      assert b == [b[0]] + b[1..];
    }
  }

  // ---------------------------------------------------------------------
  // Name segments: the matches of [A-Z][^A-Z]*, leftmost first
  // ---------------------------------------------------------------------

  /** The position of the first uppercase letter of s at or after i, or |s| when there is none. */
  function NextUpper(s: string, i: nat): (k: nat)
    requires i <= |s|
    ensures i <= k <= |s|
    ensures k < |s| ==> IsUpper(s[k])
    decreases |s| - i
  {
    if i == |s| || IsUpper(s[i]) then i else NextUpper(s, i + 1)
  }

  /** NextUpper skips only characters that are not uppercase letters. */
  lemma {:induction false} NextUpperSkips(s: string, i: nat)
    requires i <= |s|
    ensures forall j :: i <= j < NextUpper(s, i) ==> !IsUpper(s[j])
    decreases |s| - i
  {
    if i < |s| && !IsUpper(s[i]) {
      NextUpperSkips(s, i + 1);
    }
  }

  /** One uppercase letter followed by characters that are not uppercase letters. */
  predicate IsSegment(w: string)
  {
    |w| > 0 && IsUpper(w[0]) && forall i :: 1 <= i < |w| ==> !IsUpper(w[i])
  }

  /** The segments of s that start at or after position i, left to right. */
  function SegmentsFrom(s: string, i: nat): seq<string>
    requires i <= |s|
    decreases |s| - i
  {
    var start := NextUpper(s, i);
    if start == |s| then []
    else
      var end := NextUpper(s, start + 1);
      [s[start..end]] + SegmentsFrom(s, end)
  }

  /** Everything the tokenizer returns is shaped like a segment. */
  lemma {:induction false} SegmentsFromAreSegments(s: string, i: nat)
    requires i <= |s|
    ensures forall k :: 0 <= k < |SegmentsFrom(s, i)| ==> IsSegment(SegmentsFrom(s, i)[k])
    decreases |s| - i
  {
    var start := NextUpper(s, i);
    if start < |s| {
      var end := NextUpper(s, start + 1);
      NextUpperSkips(s, start + 1);
      SegmentsFromAreSegments(s, end);
      SegmentsFromStep(s, i, start, end);
      assert IsSegment(s[start..end]);
    }
  }

  /**
   * Splits s into its segments, left to right: the matches of [A-Z][^A-Z]*.
   * Characters before the first uppercase letter belong to no segment and
   * are dropped; every segment runs from an uppercase letter up to the next
   * one or to the end of s.
   */
  function Segments(s: string): (r: seq<string>)
    ensures Concat(r) == s[NextUpper(s, 0)..]
  {
    SegmentsFromCover(s, 0);
    SegmentsFrom(s, 0)
  }

  function Concat(ws: seq<string>): string
  {
    if ws == [] then [] else ws[0] + Concat(ws[1..])
  }

  lemma {:induction false} SegmentsFromCover(s: string, i: nat)
    requires i <= |s|
    ensures Concat(SegmentsFrom(s, i)) == s[NextUpper(s, i)..]
    decreases |s| - i
  {
    var start := NextUpper(s, i);
    if start < |s| {
      var end := NextUpper(s, start + 1);
      var ws := SegmentsFrom(s, i);
      SegmentsFromCover(s, end);
      assert NextUpper(s, end) == end;
      assert ws[1..] == SegmentsFrom(s, end);
      assert s[start..] == s[start..end] + s[end..];
    }
  }

  lemma {:induction false} NextUpperShift(p: string, t: string, i: nat)
    requires i <= |t|
    ensures NextUpper(p + t, |p| + i) == |p| + NextUpper(t, i)
    decreases |t| - i
  {
    if i < |t| {
      assert (p + t)[|p| + i] == t[i];
      if !IsUpper(t[i]) {
        NextUpperShift(p, t, i + 1);
      }
    }
  }

  lemma SegmentsFromStep(s: string, i: nat, start: nat, end: nat)
    requires i <= |s|
    requires start == NextUpper(s, i) < |s|
    requires end == NextUpper(s, start + 1)
    ensures SegmentsFrom(s, i) == [s[start..end]] + SegmentsFrom(s, end)
  {
  }

  lemma SegmentsFromNone(s: string, i: nat)
    requires i <= |s| && NextUpper(s, i) == |s|
    ensures SegmentsFrom(s, i) == []
  {
  }

  lemma SliceOfConcat(p: string, t: string, x: nat, y: nat)
    requires x <= y <= |t|
    ensures (p + t)[|p| + x..|p| + y] == t[x..y]
  {
    assert (p + t)[|p|..] == t;
  }

  lemma ShiftedPositions(p: string, t: string, i: nat, start: nat, end: nat)
    requires i <= |t|
    requires |p| + start == NextUpper(p + t, |p| + i) < |p + t|
    requires |p| + end == NextUpper(p + t, |p| + start + 1)
    requires end <= |t|
    ensures SegmentsFrom(p + t, |p| + i) == [t[start..end]] + SegmentsFrom(p + t, |p| + end)
  {
    SegmentsFromStep(p + t, |p| + i, |p| + start, |p| + end);
    SliceOfConcat(p, t, start, end);
  }

  lemma ShiftedStep(p: string, t: string, i: nat, start: nat, end: nat)
    requires i <= |t|
    requires start == NextUpper(t, i) < |t|
    requires end == NextUpper(t, start + 1)
    ensures SegmentsFrom(p + t, |p| + i) == [t[start..end]] + SegmentsFrom(p + t, |p| + end)
  {
    NextUpperShift(p, t, i);
    NextUpperShift(p, t, start + 1);
    ShiftedPositions(p, t, i, start, end);
  }

  /** Whatever precedes position |p| does not change the segments found from there on. */
  lemma {:induction false} SegmentsFromShift(p: string, t: string, i: nat)
    requires i <= |t|
    ensures SegmentsFrom(p + t, |p| + i) == SegmentsFrom(t, i)
    decreases |t| - i
  {
    var start := NextUpper(t, i);
    if start < |t| {
      var end := NextUpper(t, start + 1);
      ShiftedStep(p, t, i, start, end);
      SegmentsFromShift(p, t, end);
      SegmentsFromStep(t, i, start, end);
    } else {
      NextUpperShift(p, t, i);
      SegmentsFromNone(p + t, |p| + i);
      SegmentsFromNone(t, i);
    }
  }

  /** NextUpper stops at the first uppercase letter and nowhere before it. */
  lemma {:induction false} NextUpperIs(s: string, i: nat, k: nat)
    requires i <= k <= |s|
    requires forall j :: i <= j < k ==> !IsUpper(s[j])
    requires k == |s| || IsUpper(s[k])
    ensures NextUpper(s, i) == k
    decreases k - i
  {
    if i < k {
      NextUpperIs(s, i + 1, k);
    }
  }

  /** A segment followed by an uppercase letter or nothing is found first and whole. */
  lemma LeadingSegment(w: string, rest: string)
    requires IsSegment(w)
    requires rest == [] || IsUpper(rest[0])
    ensures SegmentsFrom(w + rest, 0) == [w] + SegmentsFrom(w + rest, |w|)
  {
    var s := w + rest;
    assert s[0] == w[0];
    NextUpperIs(s, 0, 0);
    assert forall j :: 1 <= j < |w| ==> s[j] == w[j];
    assert |w| < |s| ==> s[|w|] == rest[0];
    NextUpperIs(s, 1, |w|);
    assert s[0..|w|] == w;
    SegmentsFromStep(s, 0, 0, |w|);
  }

  lemma ConcatStartsUpper(ws: seq<string>)
    requires forall k :: 0 <= k < |ws| ==> IsSegment(ws[k])
    ensures Concat(ws) == [] || IsUpper(Concat(ws)[0])
  {
    if ws != [] {
      assert Concat(ws)[0] == ws[0][0];
    }
  }

  /** Joining segments and splitting the result gives the segments back. */
  lemma {:induction false} SegmentsOfConcat(ws: seq<string>)
    requires forall k :: 0 <= k < |ws| ==> IsSegment(ws[k])
    ensures Segments(Concat(ws)) == ws
    decreases |ws|
  {
    if ws != [] {
      var w := ws[0];
      var rest := Concat(ws[1..]);
      assert Concat(ws) == w + rest;
      SegmentsOfConcat(ws[1..]);
      ConcatStartsUpper(ws[1..]);
      LeadingSegment(w, rest);
      SegmentsFromShift(w, rest, 0);
      assert ws == [w] + ws[1..];
    }
  }

  /** w stands in s at position p as a whole segment: nothing uppercase follows it directly. */
  predicate SegmentAt(s: string, p: int, w: string)
  {
    0 <= p && p + |w| <= |s| && s[p..p + |w|] == w && (p + |w| == |s| || IsUpper(s[p + |w|]))
  }

  lemma {:induction false} SegmentsStandInName(s: string, i: nat, w: string)
    requires i <= |s|
    requires w in SegmentsFrom(s, i)
    ensures exists p :: i <= p && SegmentAt(s, p, w)
    decreases |s| - i
  {
    var start := NextUpper(s, i);
    var end := NextUpper(s, start + 1);
    if w == s[start..end] {
      assert SegmentAt(s, start, w);
    } else {
      SegmentsStandInName(s, end, w);
    }
  }

  lemma {:induction false} WholeSegmentsAreSegments(s: string, i: nat, w: string, p: int)
    requires i <= p
    requires IsSegment(w) && SegmentAt(s, p, w)
    ensures w in SegmentsFrom(s, i)
    decreases |s| - i
  {
    var start := NextUpper(s, i);
    NextUpperSkips(s, i);
    assert s[p] == w[0];
    assert start <= p;
    var end := NextUpper(s, start + 1);
    NextUpperSkips(s, start + 1);
    if p == start {
      assert forall j :: 1 <= j < |w| ==> s[p + j] == w[j];
      NextUpperIs(s, start + 1, p + |w|);
      assert w == s[start..end];
    } else {
      assert end <= p;
      WholeSegmentsAreSegments(s, end, w, p);
    }
  }

  /**
   * Membership in Segments(s) without the tokenizer: w is a segment of s
   * exactly when w is shaped like a segment and stands in s with an
   * uppercase letter or the end of s right after it.
   */
  lemma SegmentMembership(s: string, w: string)
    ensures w in Segments(s) <==> IsSegment(w) && exists p :: SegmentAt(s, p, w)
  {
    if w in Segments(s) {
      SegmentsFromAreSegments(s, 0);
      SegmentsStandInName(s, 0, w);
    }
    if IsSegment(w) && exists p :: SegmentAt(s, p, w) {
      var p :| SegmentAt(s, p, w);
      WholeSegmentsAreSegments(s, 0, w, p);
    }
  }

  // ---------------------------------------------------------------------
  // Individual mode is signalled by the file name
  // ---------------------------------------------------------------------

  function LowerChar(c: char): char
  {
    if IsUpper(c) then (c as int + 32) as char else c
  }

  /** Lower-cases the ASCII letters of s. */
  function ToLower(s: string): (r: string)
    ensures |r| == |s|
    ensures forall i :: 0 <= i < |r| ==> !IsUpper(r[i])
    ensures forall i :: 0 <= i < |s| && !IsUpper(s[i]) ==> r[i] == s[i]
  {
    seq(|s|, i requires 0 <= i < |s| => LowerChar(s[i]))
  }

  predicate OccursAt(s: string, sub: string, i: int)
  {
    0 <= i <= |s| - |sub| && s[i..i + |sub|] == sub
  }

  predicate ContainsSubstring(s: string, sub: string)
  {
    exists i | 0 <= i <= |s| - |sub| :: OccursAt(s, sub, i)
  }

  /** The characters a file name needs at i and after for "2v2" to stand there once lower-cased. */
  predicate Has2v2At(filename: string, i: int)
  {
    0 <= i && i + 2 < |filename| && filename[i] == '2'
    && (filename[i + 1] == 'v' || filename[i + 1] == 'V') && filename[i + 2] == '2'
  }

  /**
   * Whether the lower-cased file name contains "2v2". Only 'V' lower-cases to
   * 'v', so the ASCII lower-casing decides exactly what a full Unicode one would.
   */
  function FilenameContains2v2(filename: string): (b: bool)
    ensures b <==> exists i :: Has2v2At(filename, i)
  {
    var lower := ToLower(filename);
    assert forall i :: OccursAt(lower, "2v2", i) <==> Has2v2At(filename, i) by {
      forall i
        ensures OccursAt(lower, "2v2", i) <==> Has2v2At(filename, i)
      {
        if 0 <= i && i + 2 < |filename| {
          assert lower[i..i + 3] == [lower[i], lower[i + 1], lower[i + 2]];
        }
      }
    }
    ContainsSubstring(lower, "2v2")
  }
}
