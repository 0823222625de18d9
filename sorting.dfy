/**
 * The stable in-place sort every ranking step of the engine goes through
 * (a stable slice sort keyed on a metric, and the sort of team and
 * individual names). The order is given as a relation le(x, y): "x may stay
 * in front of y". A stable sort leaves elements that are equivalent under le
 * in the order they had.
 */
module Sorting {

  /** le relates every pair one way or the other, and chains. */
  ghost predicate TotalPreorder<T(!new)>(le: (T, T) -> bool)
  {
    (forall x, y :: le(x, y) || le(y, x))
    && (forall x, y, z :: le(x, y) && le(y, z) ==> le(x, z))
  }

  predicate SortedBy<T>(s: seq<T>, le: (T, T) -> bool)
  {
    forall p, q :: 0 <= p < q < |s| ==> le(s[p], s[q])
  }

  /** The elements of s equivalent to e under le, in the order they stand in s. */
  function Ties<T>(s: seq<T>, e: T, le: (T, T) -> bool): seq<T>
  {
    if s == [] then []
    else
      var x := s[|s| - 1];
      Ties(s[..|s| - 1], e, le) + (if le(x, e) && le(e, x) then [x] else [])
  }

  lemma {:induction false} TiesAppend<T>(a: seq<T>, b: seq<T>, e: T, le: (T, T) -> bool)
    ensures Ties(a + b, e, le) == Ties(a, e, le) + Ties(b, e, le)
    decreases |b|
  {
    if b == [] {
      assert a + b == a;
    } else {
      var b' := b[..|b| - 1];
      var x := b[|b| - 1];
      assert (a + b)[..|a + b| - 1] == a + b';
      assert (a + b)[|a + b| - 1] == x;
      TiesAppend(a, b', e, le);
    }
  }

  function Swap<T>(s: seq<T>, i: nat, j: nat): (r: seq<T>)
    requires i < |s| && j < |s|
    ensures |r| == |s|
  {
    s[i := s[j]][j := s[i]]
  }

  /** Of two elements out of order, at most one is equivalent to e, so they may trade places. */
  lemma TiesOfPair<T(!new)>(x: T, y: T, e: T, le: (T, T) -> bool)
    requires TotalPreorder(le)
    requires !le(x, y)
    ensures Ties([x, y], e, le) == Ties([y, x], e, le)
  {
    assert [x, y][..1] == [x] && [y, x][..1] == [y];
    assert [x][..0] == [] && [y][..0] == [];
    assert !(le(x, e) && le(e, y));
  }

  lemma SwapKeepsTiesOf<T(!new)>(s: seq<T>, j: nat, e: T, le: (T, T) -> bool)
    requires TotalPreorder(le)
    requires 0 < j < |s|
    requires !le(s[j - 1], s[j])
    ensures Ties(Swap(s, j - 1, j), e, le) == Ties(s, e, le)
  {
    var x, y := s[j - 1], s[j];
    var pre, post := s[..j - 1], s[j + 1..];
    assert s == pre + [x, y] + post;
    assert Swap(s, j - 1, j) == pre + [y, x] + post;
    TiesAppend(pre + [x, y], post, e, le);
    TiesAppend(pre, [x, y], e, le);
    TiesAppend(pre + [y, x], post, e, le);
    TiesAppend(pre, [y, x], e, le);
    TiesOfPair(x, y, e, le);
  }

  /**
   * Swapping two neighbours that are out of order keeps every run of
   * equivalent elements in its order.
   */
  lemma SwapKeepsTies<T(!new)>(s: seq<T>, j: nat, le: (T, T) -> bool)
    requires TotalPreorder(le)
    requires 0 < j < |s|
    requires !le(s[j - 1], s[j])
    ensures forall e :: Ties(Swap(s, j - 1, j), e, le) == Ties(s, e, le)
  {
    forall e
      ensures Ties(Swap(s, j - 1, j), e, le) == Ties(s, e, le)
    {
      SwapKeepsTiesOf(s, j, e, le);
    }
  }

  /**
   * The state of an insertion of s[j] into the first i + 1 elements: all of
   * them but s[j] are in order, and s[j] must precede everything after it.
   */
  predicate Inserting<T>(s: seq<T>, i: nat, j: nat, le: (T, T) -> bool)
  {
    j <= i < |s|
    && (forall p, q :: 0 <= p < q <= i && p != j && q != j ==> le(s[p], s[q]))
    && (forall q :: j < q <= i ==> !le(s[q], s[j]))
  }

  predicate SortedPrefix<T>(s: seq<T>, n: nat, le: (T, T) -> bool)
  {
    n <= |s| && forall p, q :: 0 <= p < q < n ==> le(s[p], s[q])
  }

  ghost predicate SameTies<T(!new)>(s: seq<T>, t: seq<T>, le: (T, T) -> bool)
  {
    forall e :: Ties(s, e, le) == Ties(t, e, le)
  }

  lemma StartInserting<T>(s: seq<T>, i: nat, le: (T, T) -> bool)
    requires i < |s| && SortedPrefix(s, i, le)
    ensures Inserting(s, i, i, le)
  {
  }

  /** Once the new element stops, the first i + 1 elements are in order. */
  lemma InsertedInOrder<T(!new)>(s: seq<T>, i: nat, j: nat, le: (T, T) -> bool)
    requires TotalPreorder(le)
    requires Inserting(s, i, j, le)
    requires j == 0 || le(s[j - 1], s[j])
    ensures SortedPrefix(s, i + 1, le)
  {
    forall p, q | 0 <= p < q <= i
      ensures le(s[p], s[q])
    {
      if q == j {
        if p < j - 1 {
          assert le(s[p], s[j - 1]);
        }
      } else if p == j {
        assert !le(s[q], s[j]);
      }
    }
  }

  /** One swap of the new element to the left keeps the invariant of the insertion. */
  lemma SwapStep<T(!new)>(s: seq<T>, i: nat, j: nat, le: (T, T) -> bool)
    requires TotalPreorder(le)
    requires 0 < j && Inserting(s, i, j, le)
    requires !le(s[j - 1], s[j])
    ensures Inserting(Swap(s, j - 1, j), i, j - 1, le)
  {
    var t := Swap(s, j - 1, j);
    forall p, q | 0 <= p < q <= i && p != j - 1 && q != j - 1
      ensures le(t[p], t[q])
    {
      if p == j {
        assert t[p] == s[j - 1] && t[q] == s[q];
        assert le(s[j - 1], s[q]);
      } else if q == j {
        assert t[q] == s[j - 1] && t[p] == s[p];
        assert le(s[p], s[j - 1]);
      } else {
        assert t[p] == s[p] && t[q] == s[q];
      }
    }
  }

  /**
   * Moves a[i] left past the elements it must precede, stopping at the first
   * one it may follow; the first i elements were in order and the first i + 1
   * are in order afterwards.
   */
  method InsertAt<T(!new)>(a: array<T>, i: nat, le: (T, T) -> bool)
    requires TotalPreorder(le)
    requires i < a.Length && SortedPrefix(a[..], i, le)
    modifies a
    ensures SortedPrefix(a[..], i + 1, le)
    ensures multiset(a[..]) == multiset(old(a[..]))
    ensures SameTies(a[..], old(a[..]), le)
  {
    StartInserting(a[..], i, le);
    var j: nat := i;
    while 0 < j && !le(a[j - 1], a[j])
      invariant Inserting(a[..], i, j, le)
      invariant multiset(a[..]) == multiset(old(a[..]))
      invariant SameTies(a[..], old(a[..]), le)
    {
      var s := a[..];
      SwapKeepsTies(s, j, le);
      SwapStep(s, i, j, le);
      a[j - 1], a[j] := a[j], a[j - 1];
      assert a[..] == Swap(s, j - 1, j);
      j := j - 1;
    }
    InsertedInOrder(a[..], i, j, le);
  }

  /**
   * Stable insertion sort: each element in turn is inserted into the sorted
   * prefix before it.
   */
  method SortStable<T(!new)>(a: array<T>, le: (T, T) -> bool)
    requires TotalPreorder(le)
    modifies a
    ensures SortedBy(a[..], le)
    ensures multiset(a[..]) == multiset(old(a[..]))
    ensures forall e :: Ties(a[..], e, le) == Ties(old(a[..]), e, le)
  {
    var i := 0;
    while i < a.Length
      invariant 0 <= i <= a.Length
      invariant SortedPrefix(a[..], i, le)
      invariant multiset(a[..]) == multiset(old(a[..]))
      invariant SameTies(a[..], old(a[..]), le)
    {
      InsertAt(a, i, le);
      i := i + 1;
    }
  }
}
