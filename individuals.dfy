/**
 * Statistics of individuals in a history of team games. A team name is the
 * concatenation of its members' names (see Strings.Segments); an individual's
 * row is the field-by-field sum of the rows of every team they belong to.
 */
module Individuals {
  import opened Model
  import opened Strings
  import opened Sorting
  import opened Directory

  /** Row a plus the twelve counters of row b; the rank and the name stay those of a. */
  function Add(a: StatsAbs, b: StatsAbs): StatsAbs
  {
    a.(gamesPlayed := a.gamesPlayed + b.gamesPlayed,
       points := a.points + b.points,
       goalDifference := a.goalDifference + b.goalDifference,
       wins := a.wins + b.wins,
       losses := a.losses + b.losses,
       draws := a.draws + b.draws,
       goalsScored := a.goalsScored + b.goalsScored,
       goalsAllowed := a.goalsAllowed + b.goalsAllowed,
       cleanSheets := a.cleanSheets + b.cleanSheets,
       cleanSheetsAgainst := a.cleanSheetsAgainst + b.cleanSheetsAgainst,
       bigWins := a.bigWins + b.bigWins,
       bigLosses := a.bigLosses + b.bigLosses)
  }

  function Zero(name: string): StatsAbs
  {
    StatsAbs(0, name, 0, 0, 0, 0, 0, 0, 0, 0, 0, 0, 0, 0)
  }

  /** The row of individual: the sum of the rows of the teams they belong to. */
  function IndividualTotals(individual: string, table: seq<StatsAbs>): (s: StatsAbs)
    ensures s.rank == 0 && s.team == individual
  {
    if table == [] then Zero(individual)
    else
      var s := IndividualTotals(individual, table[..|table| - 1]);
      var row := table[|table| - 1];
      if individual in Segments(row.team) then Add(s, row) else s
  }

  lemma IndividualTotalsStep(individual: string, table: seq<StatsAbs>, i: nat)
    requires i < |table|
    ensures IndividualTotals(individual, table[..i + 1])
            == var s := IndividualTotals(individual, table[..i]);
               if individual in Segments(table[i].team) then Add(s, table[i]) else s
  {
    assert table[..i + 1][..i] == table[..i];
  }

  // ---------------------------------------------------------------------
  // The map of twelve counters
  // ---------------------------------------------------------------------

  /** The twelve counters of a row, the keys of the map the counters are summed in. */
  datatype Counter =
    | GamesPlayed | Points | GoalDifference | Wins | Losses | Draws
    | GoalsScored | GoalsAllowed | CleanSheets | CleanSheetsAgainst | BigWins | BigLosses

  /** The counter of row s that key names. */
  function Field(s: StatsAbs, key: Counter): int
  {
    match key
    case GamesPlayed => s.gamesPlayed
    case Points => s.points
    case GoalDifference => s.goalDifference
    case Wins => s.wins
    case Losses => s.losses
    case Draws => s.draws
    case GoalsScored => s.goalsScored
    case GoalsAllowed => s.goalsAllowed
    case CleanSheets => s.cleanSheets
    case CleanSheetsAgainst => s.cleanSheetsAgainst
    case BigWins => s.bigWins
    case BigLosses => s.bigLosses
  }

  /** Reading a map: a missing key reads as zero. */
  function Get(m: map<Counter, int>, key: Counter): int
  {
    if key in m then m[key] else 0
  }

  /** Some team of the table has individual among its members. */
  predicate InSomeTeam(individual: string, table: seq<StatsAbs>)
  {
    exists k :: 0 <= k < |table| && individual in Segments(table[k].team)
  }

  /** Adds the twelve counters of row to m, one key at a time. */
  method Accumulate(m: map<Counter, int>, row: StatsAbs) returns (r: map<Counter, int>)
    ensures forall key :: key in r
    ensures forall key :: Get(r, key) == Get(m, key) + Field(row, key)
  {
    r := m;
    r := r[GamesPlayed := Get(r, GamesPlayed) + row.gamesPlayed];
    r := r[Points := Get(r, Points) + row.points];
    r := r[GoalDifference := Get(r, GoalDifference) + row.goalDifference];
    r := r[Wins := Get(r, Wins) + row.wins];
    r := r[Losses := Get(r, Losses) + row.losses];
    r := r[Draws := Get(r, Draws) + row.draws];
    r := r[GoalsScored := Get(r, GoalsScored) + row.goalsScored];
    r := r[GoalsAllowed := Get(r, GoalsAllowed) + row.goalsAllowed];
    r := r[CleanSheets := Get(r, CleanSheets) + row.cleanSheets];
    r := r[CleanSheetsAgainst := Get(r, CleanSheetsAgainst) + row.cleanSheetsAgainst];
    r := r[BigWins := Get(r, BigWins) + row.bigWins];
    r := r[BigLosses := Get(r, BigLosses) + row.bigLosses];
    forall key
      ensures key in r && Get(r, key) == Get(m, key) + Field(row, key)
    {
      match key
      case GamesPlayed =>
      case Points =>
      case GoalDifference =>
      case Wins =>
      case Losses =>
      case Draws =>
      case GoalsScored =>
      case GoalsAllowed =>
      case CleanSheets =>
      case CleanSheetsAgainst =>
      case BigWins =>
      case BigLosses =>
    }
  }

  lemma FieldOfAdd(a: StatsAbs, b: StatsAbs)
    ensures forall key :: Field(Add(a, b), key) == Field(a, key) + Field(b, key)
  {
    forall key
      ensures Field(Add(a, b), key) == Field(a, key) + Field(b, key)
    {
      match key
      case GamesPlayed =>
      case Points =>
      case GoalDifference =>
      case Wins =>
      case Losses =>
      case Draws =>
      case GoalsScored =>
      case GoalsAllowed =>
      case CleanSheets =>
      case CleanSheetsAgainst =>
      case BigWins =>
      case BigLosses =>
    }
  }

  lemma InSomeTeamStep(individual: string, table: seq<StatsAbs>, i: nat)
    requires i < |table|
    ensures InSomeTeam(individual, table[..i + 1])
            <==> InSomeTeam(individual, table[..i]) || individual in Segments(table[i].team)
  {
    assert forall k :: 0 <= k < i ==> table[..i + 1][k] == table[..i][k];
    assert table[..i + 1][i] == table[i];
  }

  /**
   * The counters of individual over the teams of the table they belong to.
   * The map holds all twelve keys once some team matched and no key before.
   */
  method ExtractIndividualStats(individual: string, table: seq<StatsAbs>) returns (m: map<Counter, int>)
    ensures InSomeTeam(individual, table) ==> forall key :: key in m
    ensures !InSomeTeam(individual, table) ==> m == map[]
    ensures forall key :: Get(m, key) == Field(IndividualTotals(individual, table), key)
  {
    m := map[];
    for i := 0 to |table|
      invariant InSomeTeam(individual, table[..i]) ==> forall key :: key in m
      invariant !InSomeTeam(individual, table[..i]) ==> m == map[]
      invariant forall key :: Get(m, key) == Field(IndividualTotals(individual, table[..i]), key)
    {
      var inTeam := IndividualInTeam(individual, table[i].team);
      IndividualTotalsStep(individual, table, i);
      InSomeTeamStep(individual, table, i);
      if inTeam {
        m := Accumulate(m, table[i]);
        FieldOfAdd(IndividualTotals(individual, table[..i]), table[i]);
      }
    }
    assert table[..|table|] == table;
  }

  /** The row the map stands for: each counter read under its key, missing ones as zero. */
  lemma RowOfMap(individual: string, m: map<Counter, int>, s: StatsAbs)
    requires s.rank == 0 && s.team == individual
    requires forall key :: Get(m, key) == Field(s, key)
    ensures s == StatsAbs(0, individual,
      Get(m, GamesPlayed), Get(m, Points), Get(m, GoalDifference), Get(m, Wins),
      Get(m, Losses), Get(m, Draws), Get(m, GoalsScored), Get(m, GoalsAllowed),
      Get(m, CleanSheets), Get(m, CleanSheetsAgainst), Get(m, BigWins), Get(m, BigLosses))
  {
    assert Get(m, GamesPlayed) == s.gamesPlayed && Get(m, Points) == s.points;
    assert Get(m, GoalDifference) == s.goalDifference && Get(m, Wins) == s.wins;
    assert Get(m, Losses) == s.losses && Get(m, Draws) == s.draws;
    assert Get(m, GoalsScored) == s.goalsScored && Get(m, GoalsAllowed) == s.goalsAllowed;
    assert Get(m, CleanSheets) == s.cleanSheets && Get(m, CleanSheetsAgainst) == s.cleanSheetsAgainst;
    assert Get(m, BigWins) == s.bigWins && Get(m, BigLosses) == s.bigLosses;
  }

  /**
   * One row per individual of the history, in name order, each the sum of
   * the rows of the teams of teamTable the individual belongs to.
   */
  method AbsoluteStatsByIndividual(records: seq<Match>, teamTable: seq<StatsAbs>) returns (table: seq<StatsAbs>)
    ensures SortedBy(Names(table), LexLe) && Distinct(Names(table))
    ensures forall w :: w in Names(table) <==> exists t :: Appears(records, t) && w in Segments(t)
    ensures forall k :: 0 <= k < |table| ==> table[k] == IndividualTotals(table[k].team, teamTable)
    ensures CoversTeams(records, teamTable) ==> forall k :: 0 <= k < |table| ==> table[k].gamesPlayed >= 1
  {
    var individuals := UniqueIndividualNames(records);
    table := [];
    for i := 0 to |individuals|
      invariant |table| == i
      invariant forall k :: 0 <= k < i ==> table[k] == IndividualTotals(individuals[k], teamTable)
    {
      var individual := individuals[i];
      var m := ExtractIndividualStats(individual, teamTable);
      var row := StatsAbs(
        rank := 0,
        team := individual,
        gamesPlayed := Get(m, GamesPlayed),
        points := Get(m, Points),
        goalDifference := Get(m, GoalDifference),
        wins := Get(m, Wins),
        losses := Get(m, Losses),
        draws := Get(m, Draws),
        goalsScored := Get(m, GoalsScored),
        goalsAllowed := Get(m, GoalsAllowed),
        cleanSheets := Get(m, CleanSheets),
        cleanSheetsAgainst := Get(m, CleanSheetsAgainst),
        bigWins := Get(m, BigWins),
        bigLosses := Get(m, BigLosses));
      RowOfMap(individual, m, IndividualTotals(individual, teamTable));
      table := table + [row];
    }
    assert Names(table) == individuals;
    RowsHaveGames(records, teamTable, table);
  }

  /** Every row of an individual table built over a covering team table has games. */
  lemma RowsHaveGames(records: seq<Match>, teamTable: seq<StatsAbs>, table: seq<StatsAbs>)
    requires forall w :: w in Names(table) <==> exists t :: Appears(records, t) && w in Segments(t)
    requires forall k :: 0 <= k < |table| ==> table[k] == IndividualTotals(table[k].team, teamTable)
    ensures CoversTeams(records, teamTable) ==> forall k :: 0 <= k < |table| ==> table[k].gamesPlayed >= 1
  {
    if CoversTeams(records, teamTable) {
      forall k | 0 <= k < |table|
        ensures table[k].gamesPlayed >= 1
      {
        assert Names(table)[k] == table[k].team;
        assert table[k].team in Names(table);
        MemberHasGames(records, teamTable, table[k].team);
      }
    }
  }

  // ---------------------------------------------------------------------
  // What the sum keeps
  // ---------------------------------------------------------------------

  /** Points are three per win and one per draw; goal difference is scored minus allowed. */
  predicate Consistent(s: StatsAbs)
  {
    s.points == 3 * s.wins + s.draws && s.goalDifference == s.goalsScored - s.goalsAllowed
  }

  /** Counts are non-negative and big results are results. */
  predicate Bounded(s: StatsAbs)
  {
    0 <= s.bigWins <= s.wins && 0 <= s.bigLosses <= s.losses && 0 <= s.draws
    && s.wins + s.draws <= s.gamesPlayed && s.losses + s.draws <= s.gamesPlayed
    && 0 <= s.cleanSheets <= s.gamesPlayed && 0 <= s.cleanSheetsAgainst <= s.gamesPlayed
  }

  /** Every result is one of a win, a loss and a draw. */
  predicate Partitioned(s: StatsAbs)
  {
    s.wins + s.losses + s.draws == s.gamesPlayed
  }

  /** Summing team rows that are consistent, bounded or partitioned gives an individual row that is too. */
  lemma {:induction false} IndividualTotalsKeep(individual: string, table: seq<StatsAbs>)
    ensures (forall k :: 0 <= k < |table| ==> Consistent(table[k])) ==> Consistent(IndividualTotals(individual, table))
    ensures (forall k :: 0 <= k < |table| ==> Bounded(table[k])) ==> Bounded(IndividualTotals(individual, table))
    ensures (forall k :: 0 <= k < |table| ==> Partitioned(table[k])) ==> Partitioned(IndividualTotals(individual, table))
  {
    if table != [] {
      var init, row := table[..|table| - 1], table[|table| - 1];
      assert forall k :: 0 <= k < |init| ==> init[k] == table[k];
      IndividualTotalsKeep(individual, init);
      AddKeeps(IndividualTotals(individual, init), row);
    }
  }

  lemma AddKeeps(a: StatsAbs, b: StatsAbs)
    ensures Consistent(a) && Consistent(b) ==> Consistent(Add(a, b))
    ensures Bounded(a) && Bounded(b) ==> Bounded(Add(a, b))
    ensures Partitioned(a) && Partitioned(b) ==> Partitioned(Add(a, b))
  {
  }

  /** An individual who belongs to no team of the table has an all-zero row. */
  lemma {:induction false} NoTeamNoStats(individual: string, table: seq<StatsAbs>)
    requires !InSomeTeam(individual, table)
    ensures IndividualTotals(individual, table) == Zero(individual)
  {
    if table != [] {
      var init := table[..|table| - 1];
      assert !InSomeTeam(individual, init) by {
        assert forall k :: 0 <= k < |init| ==> init[k] == table[k];
      }
      NoTeamNoStats(individual, init);
    }
  }

  // ---------------------------------------------------------------------
  // The order and the ranks of the team rows do not matter
  // ---------------------------------------------------------------------

  function Unranked(table: seq<StatsAbs>): (r: seq<StatsAbs>)
    ensures |r| == |table|
    ensures forall k :: 0 <= k < |table| ==> r[k] == table[k].(rank := 0)
  {
    seq(|table|, k requires 0 <= k < |table| => table[k].(rank := 0))
  }

  lemma {:induction false} TotalsIgnoreRank(individual: string, table: seq<StatsAbs>)
    ensures IndividualTotals(individual, Unranked(table)) == IndividualTotals(individual, table)
  {
    if table != [] {
      var init := table[..|table| - 1];
      assert Unranked(table)[..|table| - 1] == Unranked(init);
      TotalsIgnoreRank(individual, init);
    }
  }

  lemma {:induction false} TotalsAppend(individual: string, a: seq<StatsAbs>, b: seq<StatsAbs>)
    ensures IndividualTotals(individual, a + b)
            == Add(IndividualTotals(individual, a), IndividualTotals(individual, b))
    decreases |b|
  {
    if b == [] {
      assert a + b == a;
    } else {
      var init := b[..|b| - 1];
      assert (a + b)[..|a + b| - 1] == a + init;
      assert (a + b)[|a + b| - 1] == b[|b| - 1];
      TotalsAppend(individual, a, init);
    }
  }

  /** Adding q and then x to p is adding x and q in one go. */
  lemma AddRotate(p: StatsAbs, x: StatsAbs, q: StatsAbs)
    ensures Add(p, Add(x, q)) == Add(Add(p, q), x)
  {
  }

  /** Taking one row out of a table and putting it at the end does not change the sum. */
  lemma MoveToEnd(individual: string, b: seq<StatsAbs>, j: nat)
    requires j < |b|
    ensures IndividualTotals(individual, b)
            == IndividualTotals(individual, b[..j] + b[j + 1..] + [b[j]])
  {
    var pre, x, post := b[..j], b[j], b[j + 1..];
    assert b == pre + ([x] + post);
    TotalsAppend(individual, pre, [x] + post);
    TotalsAppend(individual, [x], post);
    TotalsAppend(individual, pre + post, [x]);
    TotalsAppend(individual, pre, post);
    AddRotate(IndividualTotals(individual, pre), IndividualTotals(individual, [x]), IndividualTotals(individual, post));
  }

  /** Removing the row at j removes one copy of it from the collection. */
  lemma RemoveAt<T>(b: seq<T>, j: nat)
    requires j < |b|
    ensures multiset(b[..j] + b[j + 1..]) == multiset(b) - multiset{b[j]}
  {
    assert b == b[..j] + [b[j]] + b[j + 1..];
  }

  /** The sum depends on the team rows only as a collection, not on their order. */
  lemma {:induction false} TotalsPermutation(individual: string, a: seq<StatsAbs>, b: seq<StatsAbs>)
    requires multiset(a) == multiset(b)
    ensures IndividualTotals(individual, a) == IndividualTotals(individual, b)
    decreases |a|
  {
    if a != [] {
      var init := a[..|a| - 1];
      var x := a[|a| - 1];
      assert a == init + [x];
      assert x in multiset(b);
      var j :| 0 <= j < |b| && b[j] == x;
      var rest := b[..j] + b[j + 1..];
      RemoveAt(b, j);
      RemoveAt(a, |a| - 1);
      assert a[..|a| - 1] + a[|a|..] == init;
      TotalsPermutation(individual, init, rest);
      MoveToEnd(individual, b, j);
      assert (rest + [x])[..|rest|] == rest;
    }
  }

  /**
   * Individual rows computed from a ranked and re-ordered team table are
   * those computed from the table as first built.
   */
  lemma TotalsOrderAndRankFree(individual: string, a: seq<StatsAbs>, b: seq<StatsAbs>)
    requires multiset(Unranked(a)) == multiset(Unranked(b))
    ensures IndividualTotals(individual, a) == IndividualTotals(individual, b)
  {
    TotalsIgnoreRank(individual, a);
    TotalsIgnoreRank(individual, b);
    TotalsPermutation(individual, Unranked(a), Unranked(b));
  }

  // ---------------------------------------------------------------------
  // Games of the individual rows
  // ---------------------------------------------------------------------

  /**
   * A team table that fits the history: every row has at least one game and
   * every team of the history has a row. The absolute table is one, and so
   * is any reordering or renumbering of it.
   */
  ghost predicate CoversTeams(records: seq<Match>, teamTable: seq<StatsAbs>)
  {
    (forall k :: 0 <= k < |teamTable| ==> teamTable[k].gamesPlayed >= 1)
    && (forall t :: Appears(records, t) ==> t in Names(teamTable))
  }

  /** With no negative game counts, an individual has at least the games of each of their teams. */
  lemma {:induction false} GamesOfTotals(individual: string, table: seq<StatsAbs>)
    requires forall k :: 0 <= k < |table| ==> table[k].gamesPlayed >= 0
    ensures IndividualTotals(individual, table).gamesPlayed >= 0
    ensures forall j :: 0 <= j < |table| && individual in Segments(table[j].team)
              ==> IndividualTotals(individual, table).gamesPlayed >= table[j].gamesPlayed
  {
    if table != [] {
      var init := table[..|table| - 1];
      GamesOfTotals(individual, init);
      forall j | 0 <= j < |table| && individual in Segments(table[j].team)
        ensures IndividualTotals(individual, table).gamesPlayed >= table[j].gamesPlayed
      {
        if j < |init| {
          assert init[j] == table[j];
        }
      }
    }
  }

  /** A member of a team of the history has at least one game in a table that covers the history. */
  lemma MemberHasGames(records: seq<Match>, teamTable: seq<StatsAbs>, individual: string)
    requires CoversTeams(records, teamTable)
    requires exists t :: Appears(records, t) && individual in Segments(t)
    ensures IndividualTotals(individual, teamTable).gamesPlayed >= 1
  {
    var t :| Appears(records, t) && individual in Segments(t);
    var names := Names(teamTable);
    assert t in names;
    var j :| 0 <= j < |names| && names[j] == t;
    GamesOfTotals(individual, teamTable);
    assert individual in Segments(teamTable[j].team);
  }
}
