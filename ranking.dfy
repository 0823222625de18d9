/**
 * The ranker: every table is sorted stably by points per game, highest
 * first, and then numbered 1, 2, 3, ... in that order. The sorts reorder the
 * table in place; the numbering builds a new table.
 */
module Ranking {
  import opened Model
  import opened Sorting
  import opened Normalize
  import opened Directory
  import opened Individuals

  /**
   * Points per game of an absolute row, computed from its wins, draws and
   * games. A row without games is keyed 0.0; the sort below is only ever
   * given rows with games.
   */
  function AbsPpg(s: StatsAbs): (r: real)
    ensures 0 <= s.wins && 0 <= s.draws && s.wins + s.draws <= s.gamesPlayed ==> 0.0 <= r <= 3.0
  {
    if s.gamesPlayed > 0 then
      var points := 3 * s.wins + s.draws;
      var q := (points as real) / (s.gamesPlayed as real);
      assert 0 <= s.wins && 0 <= s.draws && s.wins + s.draws <= s.gamesPlayed ==> 0.0 <= q <= 3.0 by {
        if 0 <= s.wins && 0 <= s.draws && s.wins + s.draws <= s.gamesPlayed {
          RatioInRange(points as real, s.gamesPlayed as real, 3.0);
        }
      }
      q
    else 0.0
  }

  /** x may stay in front of y: its points per game are not lower. */
  predicate AbsPpgLe(x: StatsAbs, y: StatsAbs)
  {
    AbsPpg(x) >= AbsPpg(y)
  }

  predicate NormPpgLe(x: StatsNorm, y: StatsNorm)
  {
    x.ppg >= y.ppg
  }

  predicate FormPpgLe(x: LatestForm, y: LatestForm)
  {
    x.latestPpg >= y.latestPpg
  }

  lemma AbsPpgLeIsTotalPreorder()
    ensures TotalPreorder(AbsPpgLe)
  {
  }

  lemma NormPpgLeIsTotalPreorder()
    ensures TotalPreorder(NormPpgLe)
  {
  }

  lemma FormPpgLeIsTotalPreorder()
    ensures TotalPreorder(FormPpgLe)
  {
  }

  lemma CrossMultiply(a: real, b: real, c: real, d: real)
    requires b > 0.0 && d > 0.0
    ensures a / b >= c / d <==> a * d >= c * b
  {
    assert a / b - c / d == (a * d - c * b) / (b * d);
  }

  /**
   * For rows with games, the order on points per game is the integer
   * comparison of the cross products: x may precede y exactly when
   * points(x) * games(y) >= points(y) * games(x).
   */
  lemma AbsPpgLeCrossMultiplied(x: StatsAbs, y: StatsAbs)
    requires x.gamesPlayed > 0 && y.gamesPlayed > 0
    ensures AbsPpgLe(x, y)
            <==> (3 * x.wins + x.draws) * y.gamesPlayed >= (3 * y.wins + y.draws) * x.gamesPlayed
  {
    var px, py := 3 * x.wins + x.draws, 3 * y.wins + y.draws;
    CrossMultiply(px as real, x.gamesPlayed as real, py as real, y.gamesPlayed as real);
    assert (px as real) * (y.gamesPlayed as real) == (px * y.gamesPlayed) as real;
    assert (py as real) * (x.gamesPlayed as real) == (py * x.gamesPlayed) as real;
  }

  // ---------------------------------------------------------------------
  // The sorts
  // ---------------------------------------------------------------------

  /**
   * Reorders the absolute table in place so that points per game never
   * increase along it; rows with equal points per game keep their order.
   */
  method SortAbsStatsByMetric(a: array<StatsAbs>)
    requires forall k :: 0 <= k < a.Length ==> a[k].gamesPlayed > 0
    modifies a
    ensures SortedBy(a[..], AbsPpgLe)
    ensures multiset(a[..]) == multiset(old(a[..]))
    ensures forall e :: Ties(a[..], e, AbsPpgLe) == Ties(old(a[..]), e, AbsPpgLe)
  {
    AbsPpgLeIsTotalPreorder();
    SortStable(a, AbsPpgLe);
  }

  /** Reorders the per-game table in place by rounded points per game, highest first, stably. */
  method SortNormStatsByMetric(a: array<StatsNorm>)
    modifies a
    ensures SortedBy(a[..], NormPpgLe)
    ensures multiset(a[..]) == multiset(old(a[..]))
    ensures forall e :: Ties(a[..], e, NormPpgLe) == Ties(old(a[..]), e, NormPpgLe)
  {
    NormPpgLeIsTotalPreorder();
    SortStable(a, NormPpgLe);
  }

  /** Reorders the latest-form table in place by its points per game, highest first, stably. */
  method SortLatestFormByMetric(a: array<LatestForm>)
    modifies a
    ensures SortedBy(a[..], FormPpgLe)
    ensures multiset(a[..]) == multiset(old(a[..]))
    ensures forall e :: Ties(a[..], e, FormPpgLe) == Ties(old(a[..]), e, FormPpgLe)
  {
    FormPpgLeIsTotalPreorder();
    SortStable(a, FormPpgLe);
  }

  /**
   * A table sorted by exact points per game stays sorted once each row is
   * normalised, as rounding keeps the order; this needs the points of each
   * row to be three per win and one per draw, as in every absolute table.
   */
  lemma NormalizedKeepsOrder(table: seq<StatsAbs>, norm: seq<StatsNorm>)
    requires forall k :: 0 <= k < |table| ==> table[k].gamesPlayed > 0
    requires forall k :: 0 <= k < |table| ==> table[k].points == 3 * table[k].wins + table[k].draws
    requires |norm| == |table| && forall k :: 0 <= k < |table| ==> norm[k] == NormalizeRow(table[k])
    requires SortedBy(table, AbsPpgLe)
    ensures SortedBy(norm, NormPpgLe)
  {
    forall p, q | 0 <= p < q < |norm|
      ensures NormPpgLe(norm[p], norm[q])
    {
      assert AbsPpgLe(table[p], table[q]);
      NormalizeKeepsPpgOrder(table[q], table[p]);
    }
  }

  // ---------------------------------------------------------------------
  // The numbering
  // ---------------------------------------------------------------------

  /**
   * Numbers the rows 1, 2, 3, ... in the order given and changes nothing
   * else; a table sorted by points per game stays sorted.
   */
  method AttachRankingToAbsStats(s: seq<StatsAbs>) returns (r: seq<StatsAbs>)
    ensures |r| == |s|
    ensures forall k :: 0 <= k < |s| ==> r[k].rank == k + 1 && r[k].(rank := s[k].rank) == s[k]
    ensures SortedBy(s, AbsPpgLe) ==> SortedBy(r, AbsPpgLe)
  {
    r := [];
    for i := 0 to |s|
      invariant |r| == i
      invariant forall k :: 0 <= k < i ==> r[k] == s[k].(rank := k + 1)
    {
      var row := s[i].(rank := i + 1);
      r := r + [row];
    }
    if SortedBy(s, AbsPpgLe) {
      assert forall k :: 0 <= k < |s| ==> AbsPpg(r[k]) == AbsPpg(s[k]);
    }
  }

  /** As AttachRankingToAbsStats, for the per-game table. */
  method AttachRankingToNormStats(s: seq<StatsNorm>) returns (r: seq<StatsNorm>)
    ensures |r| == |s|
    ensures forall k :: 0 <= k < |s| ==> r[k].rank == k + 1 && r[k].(rank := s[k].rank) == s[k]
    ensures SortedBy(s, NormPpgLe) ==> SortedBy(r, NormPpgLe)
  {
    r := [];
    for i := 0 to |s|
      invariant |r| == i
      invariant forall k :: 0 <= k < i ==> r[k] == s[k].(rank := k + 1)
    {
      var row := s[i].(rank := i + 1);
      r := r + [row];
    }
  }

  /** As AttachRankingToAbsStats, for the latest-form table. */
  method AttachRankingToLatestForm(s: seq<LatestForm>) returns (r: seq<LatestForm>)
    ensures |r| == |s|
    ensures forall k :: 0 <= k < |s| ==> r[k].rank == k + 1 && r[k].(rank := s[k].rank) == s[k]
    ensures SortedBy(s, FormPpgLe) ==> SortedBy(r, FormPpgLe)
  {
    r := [];
    for i := 0 to |s|
      invariant |r| == i
      invariant forall k :: 0 <= k < i ==> r[k] == s[k].(rank := k + 1)
    {
      var row := s[i].(rank := i + 1);
      r := r + [row];
    }
  }

  /**
   * The individual table is built from the team table after it has been
   * sorted and numbered. Neither step changes any individual's totals: they
   * equal the totals over the team table as first computed.
   */
  lemma RankedTeamTableGivesSameTotals(individual: string, table: seq<StatsAbs>, sorted: seq<StatsAbs>, ranked: seq<StatsAbs>)
    requires multiset(sorted) == multiset(table)
    requires |ranked| == |sorted|
    requires forall k :: 0 <= k < |sorted| ==> ranked[k].(rank := sorted[k].rank) == sorted[k]
    ensures IndividualTotals(individual, ranked) == IndividualTotals(individual, table)
  {
    TotalsPermutation(individual, sorted, table);
    TotalsIgnoreRank(individual, ranked);
    TotalsIgnoreRank(individual, sorted);
    assert Unranked(ranked) == Unranked(sorted);
  }

  /**
   * The team table the individual table is built from (sorted and numbered)
   * still covers the history: every row has games and every team of the
   * history has a row. So every individual row has games too, and the
   * individual table meets the requirements of normalising and sorting.
   */
  lemma RankedTableCoversTeams(records: seq<Match>, table: seq<StatsAbs>, sorted: seq<StatsAbs>, ranked: seq<StatsAbs>)
    requires forall t :: t in Names(table) <==> Appears(records, t)
    requires forall k :: 0 <= k < |table| ==> table[k].gamesPlayed >= 1
    requires multiset(sorted) == multiset(table)
    requires |ranked| == |sorted|
    requires forall k :: 0 <= k < |sorted| ==> ranked[k].(rank := sorted[k].rank) == sorted[k]
    ensures CoversTeams(records, ranked)
  {
    forall k | 0 <= k < |ranked|
      ensures ranked[k].gamesPlayed >= 1
    {
      assert sorted[k] in multiset(table);
      var j :| 0 <= j < |table| && table[j] == sorted[k];
    }
    forall t | Appears(records, t)
      ensures t in Names(ranked)
    {
      var names := Names(table);
      var j :| 0 <= j < |names| && names[j] == t;
      assert table[j] in multiset(sorted);
      var k :| 0 <= k < |sorted| && sorted[k] == table[j];
      assert Names(ranked)[k] == t;
    }
  }
}
