/**
 * The names the engine reports on: the distinct teams of a history and the
 * distinct individuals those team names are made of, both in byte-wise
 * ascending order, and the membership tests they are built from.
 */
module Directory {
  import opened Model
  import opened Strings
  import opened Sorting

  predicate Distinct<T(==)>(s: seq<T>)
  {
    forall p, q :: 0 <= p < q < |s| ==> s[p] != s[q]
  }

  /** team played in some match of the history, at home or away. */
  predicate Appears(records: seq<Match>, team: string)
  {
    exists m :: m in records && (m.homeTeam == team || m.awayTeam == team)
  }

  /** The team names in the order the scan meets them: home, then away, match by match. */
  function Appearances(records: seq<Match>): seq<string>
  {
    if records == [] then []
    else
      var m := records[|records| - 1];
      Appearances(records[..|records| - 1]) + [m.homeTeam, m.awayTeam]
  }

  lemma AppearancesStep(records: seq<Match>, i: nat)
    requires i < |records|
    ensures Appearances(records[..i + 1]) == Appearances(records[..i]) + [records[i].homeTeam] + [records[i].awayTeam]
  {
    assert records[..i + 1][..i] == records[..i];
  }

  lemma {:induction false} AppearancesAreTeams(records: seq<Match>)
    ensures forall t :: t in Appearances(records) <==> Appears(records, t)
  {
    if records != [] {
      var init := records[..|records| - 1];
      var m := records[|records| - 1];
      AppearancesAreTeams(init);
      assert records == init + [m];
      forall t
        ensures t in Appearances(records) <==> Appears(records, t)
      {
        if Appears(records, t) {
          var m' :| m' in records && (m'.homeTeam == t || m'.awayTeam == t);
          if m' != m {
            assert m' in init;
          }
        }
      }
    }
  }

  // ---------------------------------------------------------------------
  // Extending a list with the elements it does not hold yet
  // ---------------------------------------------------------------------

  /** s1 followed by the elements of s2 that are new, each on its first appearance. */
  function Extended<T(==)>(s1: seq<T>, s2: seq<T>): seq<T>
  {
    if s2 == [] then s1
    else
      var r := Extended(s1, s2[..|s2| - 1]);
      var x := s2[|s2| - 1];
      if x in r then r else r + [x]
  }

  lemma ExtendedSnoc<T>(s1: seq<T>, s2: seq<T>, x: T)
    ensures var r := Extended(s1, s2);
            Extended(s1, s2 + [x]) == if x in r then r else r + [x]
  {
    assert (s2 + [x])[..|s2|] == s2;
  }

  /** Extending keeps the original list in front, adds exactly the new elements and never repeats one. */
  lemma {:induction false} ExtendedProperties<T>(s1: seq<T>, s2: seq<T>)
    ensures |s1| <= |Extended(s1, s2)| && Extended(s1, s2)[..|s1|] == s1
    ensures forall x :: x in Extended(s1, s2) <==> x in s1 || x in s2
    ensures Distinct(s1) ==> Distinct(Extended(s1, s2))
    decreases |s2|
  {
    if s2 != [] {
      var init := s2[..|s2| - 1];
      assert s2 == init + [s2[|s2| - 1]];
      ExtendedProperties(s1, init);
    }
  }

  /** Extending with a + b is extending with a, then with b. */
  lemma {:induction false} ExtendedAppend<T>(s1: seq<T>, a: seq<T>, b: seq<T>)
    ensures Extended(Extended(s1, a), b) == Extended(s1, a + b)
    decreases |b|
  {
    if b == [] {
      assert a + b == a;
    } else {
      var init := b[..|b| - 1];
      var x := b[|b| - 1];
      ExtendedAppend(s1, a, init);
      assert a + b == (a + init) + [x];
      ExtendedSnoc(s1, a + init, x);
    }
  }

  /** Whether str is an element of slice; the scan stops at the first match. */
  method StringInSlice(str: string, slice: seq<string>) returns (found: bool)
    ensures found <==> str in slice
  {
    for k := 0 to |slice|
      invariant str !in slice[..k]
    {
      if slice[k] == str {
        return true;
      }
    }
    assert slice[..|slice|] == slice;
    return false;
  }

  /** Appends to slice1 the elements of slice2 it does not hold yet, in the order of slice2. */
  method ExtendUniqueElements(slice1: seq<string>, slice2: seq<string>) returns (r: seq<string>)
    ensures r == Extended(slice1, slice2)
    ensures |slice1| <= |r| && r[..|slice1|] == slice1
    ensures forall x :: x in r <==> x in slice1 || x in slice2
    ensures Distinct(slice1) ==> Distinct(r)
  {
    r := slice1;
    for k := 0 to |slice2|
      invariant r == Extended(slice1, slice2[..k])
    {
      var present := StringInSlice(slice2[k], r);
      ExtendedSnoc(slice1, slice2[..k], slice2[k]);
      assert slice2[..k + 1] == slice2[..k] + [slice2[k]];
      if !present {
        r := r + [slice2[k]];
      }
    }
    assert slice2[..|slice2|] == slice2;
    ExtendedProperties(slice1, slice2);
  }

  // ---------------------------------------------------------------------
  // Sorting names
  // ---------------------------------------------------------------------

  lemma LexLeIsTotalPreorder()
    ensures TotalPreorder(LexLe)
  {
    forall a, b
      ensures LexLe(a, b) || LexLe(b, a)
    {
      LexLeTotal(a, b);
    }
    forall a, b, c | LexLe(a, b) && LexLe(b, c)
      ensures LexLe(a, c)
    {
      LexLeTransitive(a, b, c);
    }
  }

  /** A list has no repeats exactly when no element occurs in it twice. */
  lemma {:induction false} DistinctCounts<T>(s: seq<T>)
    ensures Distinct(s) <==> forall x :: multiset(s)[x] <= 1
  {
    if s != [] {
      var init := s[..|s| - 1];
      var y := s[|s| - 1];
      assert s == init + [y];
      DistinctCounts(init);
      if Distinct(s) {
        assert y !in init;
        assert Distinct(init);
      } else {
        var p, q :| 0 <= p < q < |s| && s[p] == s[q];
        if q < |s| - 1 {
          assert init[p] == init[q];
          assert !Distinct(init);
          var x :| multiset(init)[x] > 1;
          assert multiset(s) == multiset(init) + multiset{y};
          assert multiset(s)[x] > 1;
        } else {
          assert s[p] in init;
          assert multiset(s)[y] >= 2;
        }
      }
    }
  }

  lemma DistinctPermutation<T>(a: seq<T>, b: seq<T>)
    requires multiset(a) == multiset(b)
    requires Distinct(a)
    ensures Distinct(b)
  {
    DistinctCounts(a);
    DistinctCounts(b);
  }

  /** Sorts names into byte-wise ascending order. */
  method SortStrings(s: seq<string>) returns (r: seq<string>)
    ensures SortedBy(r, LexLe)
    ensures multiset(r) == multiset(s)
    ensures Distinct(s) ==> Distinct(r)
  {
    var a := new string[|s|](k requires 0 <= k < |s| => s[k]);
    assert a[..] == s;
    LexLeIsTotalPreorder();
    SortStable(a, LexLe);
    r := a[..];
    if Distinct(s) {
      DistinctPermutation(s, r);
    }
  }

  lemma SameElements<T>(a: seq<T>, b: seq<T>)
    requires multiset(a) == multiset(b)
    ensures forall x :: x in a <==> x in b
  {
    forall x
      ensures x in a <==> x in b
    {
      assert x in a <==> x in multiset(a);
      assert x in b <==> x in multiset(b);
    }
  }

  // ---------------------------------------------------------------------
  // Teams and individuals
  // ---------------------------------------------------------------------

  /** The home and away names of the history, each kept once, in order of first appearance. */
  method CollectTeams(records: seq<Match>) returns (found: seq<string>)
    ensures found == Extended([], Appearances(records))
  {
    found := [];
    for i := 0 to |records|
      invariant found == Extended([], Appearances(records[..i]))
    {
      var home, away := records[i].homeTeam, records[i].awayTeam;
      ghost var seen := Appearances(records[..i]);
      AppearancesStep(records, i);
      var present := StringInSlice(home, found);
      ExtendedSnoc([], seen, home);
      if !present {
        found := found + [home];
      }
      present := StringInSlice(away, found);
      ExtendedSnoc([], seen + [home], away);
      if !present {
        found := found + [away];
      }
    }
    assert records[..|records|] == records;
  }

  /** The distinct teams of a history, sorted by name. */
  method UniqueTeamNames(records: seq<Match>) returns (names: seq<string>)
    ensures SortedBy(names, LexLe)
    ensures Distinct(names)
    ensures forall t :: t in names <==> Appears(records, t)
  {
    var found := CollectTeams(records);
    ExtendedProperties([], Appearances(records));
    AppearancesAreTeams(records);
    names := SortStrings(found);
    SameElements(names, found);
  }

  /** Whether individual is one of the segments the team name is made of. */
  method IndividualInTeam(individual: string, team: string) returns (b: bool)
    ensures b <==> individual in Segments(team)
  {
    var members := Segments(team);
    for k := 0 to |members|
      invariant individual !in members[..k]
    {
      if members[k] == individual {
        return true;
      }
    }
    assert members[..|members|] == members;
    return false;
  }

  /** The segments of the names in teams, name by name. */
  function MembersOf(teams: seq<string>): seq<string>
  {
    if teams == [] then []
    else MembersOf(teams[..|teams| - 1]) + Segments(teams[|teams| - 1])
  }

  lemma {:induction false} MembersOfElements(teams: seq<string>)
    ensures forall w :: w in MembersOf(teams) <==> exists t :: t in teams && w in Segments(t)
  {
    if teams != [] {
      var init := teams[..|teams| - 1];
      var last := teams[|teams| - 1];
      assert teams == init + [last];
      MembersOfElements(init);
      forall w | exists t :: t in teams && w in Segments(t)
        ensures w in MembersOf(teams)
      {
        var t :| t in teams && w in Segments(t);
        if t != last {
          assert t in init;
        }
      }
    }
  }

  /** The segments of the names in teams, each kept once, in order of first appearance. */
  method CollectMembers(teams: seq<string>) returns (found: seq<string>)
    ensures found == Extended([], MembersOf(teams))
    ensures Distinct(found)
    ensures forall w :: w in found <==> exists t :: t in teams && w in Segments(t)
  {
    found := [];
    for k := 0 to |teams|
      invariant found == Extended([], MembersOf(teams[..k]))
    {
      assert teams[..k + 1][..k] == teams[..k];
      ExtendedAppend([], MembersOf(teams[..k]), Segments(teams[k]));
      found := ExtendUniqueElements(found, Segments(teams[k]));
    }
    assert teams[..|teams|] == teams;
    ExtendedProperties([], MembersOf(teams));
    MembersOfElements(teams);
  }

  /** The distinct individuals of a history, sorted by name. */
  method UniqueIndividualNames(records: seq<Match>) returns (names: seq<string>)
    ensures SortedBy(names, LexLe)
    ensures Distinct(names)
    ensures forall w :: w in names <==> exists t :: Appears(records, t) && w in Segments(t)
  {
    var teams := UniqueTeamNames(records);
    var found := CollectMembers(teams);
    names := SortStrings(found);
    SameElements(names, found);
    forall w
      ensures w in names <==> exists t :: Appears(records, t) && w in Segments(t)
    {
      if w in names {
        var t :| t in teams && w in Segments(t);
        assert Appears(records, t);
      }
      if exists t :: Appears(records, t) && w in Segments(t) {
        var t :| Appears(records, t) && w in Segments(t);
        assert t in teams;
      }
    }
  }
}
