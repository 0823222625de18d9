/**
 * Absolute statistics per team: ten scans over the match history, one per
 * counted quantity, and the table that gathers them for every team in
 * name order.
 *
 * Each scan tests the home side first and the away side only when the home
 * test fails ("if ... else if ..."), so a match a team plays against itself
 * is credited once for games, goals and draws, but a decisive result in it is
 * credited both as a win (home side) and as a loss (away side).
 */
module Aggregate {
  import opened Model
  import opened Strings
  import opened Sorting
  import opened Directory

  /** The quantities a scan accumulates. */
  datatype Stat =
    | Played
    | Won
    | Lost
    | Drawn
    | Scored
    | Conceded
    | CleanSheet
    | CleanSheetAgainst
    | BigWon(margin: int)
    | BigLost(margin: int)

  /** Quantities that count matches, as opposed to goals. */
  predicate IsCount(stat: Stat)
  {
    !stat.Scored? && !stat.Conceded?
  }

  function Abs(x: int): int
  {
    if x < 0 then -x else x
  }

  /** What one match adds to team's tally of stat. */
  function Credit(m: Match, team: string, stat: Stat): int
  {
    var hg, ag := m.homeGoals, m.awayGoals;
    var home, away := m.homeTeam == team, m.awayTeam == team;
    match stat
    case Played => if home then 1 else if away then 1 else 0
    case Won => if home && hg > ag then 1 else if away && ag > hg then 1 else 0
    case Lost => if home && hg < ag then 1 else if away && ag < hg then 1 else 0
    case Drawn => if home && hg == ag then 1 else if away && ag == hg then 1 else 0
    case Scored => if home then hg else if away then ag else 0
    case Conceded => if home then ag else if away then hg else 0
    case CleanSheet => if home && ag == 0 then 1 else if away && hg == 0 then 1 else 0
    case CleanSheetAgainst => if home && hg == 0 then 1 else if away && ag == 0 then 1 else 0
    case BigWon(margin) =>
      if home && hg > ag && Abs(hg - ag) >= margin then 1
      else if away && ag > hg && Abs(hg - ag) >= margin then 1
      else 0
    case BigLost(margin) =>
      if home && hg < ag && Abs(hg - ag) >= margin then 1
      else if away && ag < hg && Abs(hg - ag) >= margin then 1
      else 0
  }

  /** team's tally of stat over the whole history: a count lies between 0 and the number of matches. */
  function Total(records: seq<Match>, team: string, stat: Stat): (r: int)
    ensures IsCount(stat) ==> 0 <= r <= |records|
  {
    if records == [] then 0
    else Total(records[..|records| - 1], team, stat) + Credit(records[|records| - 1], team, stat)
  }

  lemma TotalStep(records: seq<Match>, i: nat, team: string, stat: Stat)
    requires i < |records|
    ensures Total(records[..i + 1], team, stat) == Total(records[..i], team, stat) + Credit(records[i], team, stat)
  {
    assert records[..i + 1][..i] == records[..i];
  }

  lemma {:induction false} TotalAppend(a: seq<Match>, b: seq<Match>, team: string, stat: Stat)
    ensures Total(a + b, team, stat) == Total(a, team, stat) + Total(b, team, stat)
    decreases |b|
  {
    if b == [] {
      assert a + b == a;
    } else {
      var init := b[..|b| - 1];
      assert (a + b)[..|a + b| - 1] == a + init;
      assert (a + b)[|a + b| - 1] == b[|b| - 1];
      TotalAppend(a, init, team, stat);
    }
  }

  /** No team of the history plays against itself. */
  predicate NoSelfPlay(records: seq<Match>)
  {
    forall m :: m in records ==> m.homeTeam != m.awayTeam
  }

  /**
   * Per team, a game brings at most one of win and draw, at most one of loss
   * and draw; big results are results, and a clean sheet needs a game.
   */
  lemma {:induction false} CountsBounded(records: seq<Match>, team: string, margin: int)
    ensures Total(records, team, Won) + Total(records, team, Drawn) <= Total(records, team, Played)
    ensures Total(records, team, Lost) + Total(records, team, Drawn) <= Total(records, team, Played)
    ensures Total(records, team, BigWon(margin)) <= Total(records, team, Won)
    ensures Total(records, team, BigLost(margin)) <= Total(records, team, Lost)
    ensures Total(records, team, CleanSheet) <= Total(records, team, Played)
    ensures Total(records, team, CleanSheetAgainst) <= Total(records, team, Played)
  {
    if records != [] {
      CountsBounded(records[..|records| - 1], team, margin);
    }
  }

  /** Without self-play every game of a team is exactly one of a win, a loss and a draw. */
  lemma {:induction false} ResultsPartitionGames(records: seq<Match>, team: string)
    requires NoSelfPlay(records)
    ensures Total(records, team, Won) + Total(records, team, Lost) + Total(records, team, Drawn)
            == Total(records, team, Played)
  {
    if records != [] {
      var init := records[..|records| - 1];
      assert forall m :: m in init ==> m in records;
      ResultsPartitionGames(init, team);
      assert records[|records| - 1] in records;
    }
  }

  /** A team has played a game exactly when it appears in the history. */
  lemma {:induction false} PlayedIffAppears(records: seq<Match>, team: string)
    ensures Total(records, team, Played) >= 1 <==> Appears(records, team)
  {
    if records != [] {
      var init := records[..|records| - 1];
      var m := records[|records| - 1];
      assert records == init + [m];
      PlayedIffAppears(init, team);
      if Appears(records, team) && !Appears(init, team) {
        var m' :| m' in records && (m'.homeTeam == team || m'.awayTeam == team);
        assert m' == m;
      }
    }
  }

  // ---------------------------------------------------------------------
  // The ten scans
  // ---------------------------------------------------------------------

  method GamesPlayedCount(records: seq<Match>, team: string) returns (count: int)
    ensures count == Total(records, team, Played)
  {
    count := 0;
    for i := 0 to |records|
      invariant count == Total(records[..i], team, Played)
    {
      var m := records[i];
      if m.homeTeam == team {
        count := count + 1;
      } else if m.awayTeam == team {
        count := count + 1;
      }
      TotalStep(records, i, team, Played);
    }
    assert records[..|records|] == records;
  }

  method WinCount(records: seq<Match>, team: string) returns (count: int)
    ensures count == Total(records, team, Won)
  {
    count := 0;
    for i := 0 to |records|
      invariant count == Total(records[..i], team, Won)
    {
      var m := records[i];
      if m.homeTeam == team && m.homeGoals > m.awayGoals {
        count := count + 1;
      } else if m.awayTeam == team && m.awayGoals > m.homeGoals {
        count := count + 1;
      }
      TotalStep(records, i, team, Won);
    }
    assert records[..|records|] == records;
  }

  method LossCount(records: seq<Match>, team: string) returns (count: int)
    ensures count == Total(records, team, Lost)
  {
    count := 0;
    for i := 0 to |records|
      invariant count == Total(records[..i], team, Lost)
    {
      var m := records[i];
      if m.homeTeam == team && m.homeGoals < m.awayGoals {
        count := count + 1;
      } else if m.awayTeam == team && m.awayGoals < m.homeGoals {
        count := count + 1;
      }
      TotalStep(records, i, team, Lost);
    }
    assert records[..|records|] == records;
  }

  method DrawCount(records: seq<Match>, team: string) returns (count: int)
    ensures count == Total(records, team, Drawn)
  {
    count := 0;
    for i := 0 to |records|
      invariant count == Total(records[..i], team, Drawn)
    {
      var m := records[i];
      if m.homeTeam == team && m.homeGoals == m.awayGoals {
        count := count + 1;
      } else if m.awayTeam == team && m.awayGoals == m.homeGoals {
        count := count + 1;
      }
      TotalStep(records, i, team, Drawn);
    }
    assert records[..|records|] == records;
  }

  method GoalsScored(records: seq<Match>, team: string) returns (goals: int)
    ensures goals == Total(records, team, Scored)
  {
    goals := 0;
    for i := 0 to |records|
      invariant goals == Total(records[..i], team, Scored)
    {
      var m := records[i];
      if m.homeTeam == team {
        goals := goals + m.homeGoals;
      } else if m.awayTeam == team {
        goals := goals + m.awayGoals;
      }
      TotalStep(records, i, team, Scored);
    }
    assert records[..|records|] == records;
  }

  method GoalsAllowed(records: seq<Match>, team: string) returns (goals: int)
    ensures goals == Total(records, team, Conceded)
  {
    goals := 0;
    for i := 0 to |records|
      invariant goals == Total(records[..i], team, Conceded)
    {
      var m := records[i];
      if m.homeTeam == team {
        goals := goals + m.awayGoals;
      } else if m.awayTeam == team {
        goals := goals + m.homeGoals;
      }
      TotalStep(records, i, team, Conceded);
    }
    assert records[..|records|] == records;
  }

  method CleanSheets(records: seq<Match>, team: string) returns (count: int)
    ensures count == Total(records, team, CleanSheet)
  {
    count := 0;
    for i := 0 to |records|
      invariant count == Total(records[..i], team, CleanSheet)
    {
      var m := records[i];
      if m.homeTeam == team && m.awayGoals == 0 {
        count := count + 1;
      } else if m.awayTeam == team && m.homeGoals == 0 {
        count := count + 1;
      }
      TotalStep(records, i, team, CleanSheet);
    }
    assert records[..|records|] == records;
  }

  method CleanSheetsAgainst(records: seq<Match>, team: string) returns (count: int)
    ensures count == Total(records, team, CleanSheetAgainst)
  {
    count := 0;
    for i := 0 to |records|
      invariant count == Total(records[..i], team, CleanSheetAgainst)
    {
      var m := records[i];
      if m.homeTeam == team && m.homeGoals == 0 {
        count := count + 1;
      } else if m.awayTeam == team && m.awayGoals == 0 {
        count := count + 1;
      }
      TotalStep(records, i, team, CleanSheetAgainst);
    }
    assert records[..|records|] == records;
  }

  method BigWinCount(records: seq<Match>, team: string, margin: int) returns (count: int)
    ensures count == Total(records, team, BigWon(margin))
  {
    count := 0;
    for i := 0 to |records|
      invariant count == Total(records[..i], team, BigWon(margin))
    {
      var hg, ag := records[i].homeGoals, records[i].awayGoals;
      var goalMargin := Abs(hg - ag);
      if records[i].homeTeam == team && hg > ag && goalMargin >= margin {
        count := count + 1;
      } else if records[i].awayTeam == team && ag > hg && goalMargin >= margin {
        count := count + 1;
      }
      TotalStep(records, i, team, BigWon(margin));
    }
    assert records[..|records|] == records;
  }

  method BigLossCount(records: seq<Match>, team: string, margin: int) returns (count: int)
    ensures count == Total(records, team, BigLost(margin))
  {
    count := 0;
    for i := 0 to |records|
      invariant count == Total(records[..i], team, BigLost(margin))
    {
      var hg, ag := records[i].homeGoals, records[i].awayGoals;
      var goalMargin := Abs(hg - ag);
      if records[i].homeTeam == team && hg < ag && goalMargin >= margin {
        count := count + 1;
      } else if records[i].awayTeam == team && ag < hg && goalMargin >= margin {
        count := count + 1;
      }
      TotalStep(records, i, team, BigLost(margin));
    }
    assert records[..|records|] == records;
  }

  // ---------------------------------------------------------------------
  // The table of absolute statistics
  // ---------------------------------------------------------------------

  /**
   * The row of team in the absolute table: points are three per win and one
   * per draw, goal difference is scored minus allowed, and the counts keep
   * the bounds CountsBounded proves.
   */
  function TeamStats(records: seq<Match>, team: string): (s: StatsAbs)
    ensures s.team == team && s.rank == 0
    ensures 0 <= s.bigWins <= s.wins && 0 <= s.bigLosses <= s.losses
    ensures s.wins + s.draws <= s.gamesPlayed && s.losses + s.draws <= s.gamesPlayed
    ensures 0 <= s.cleanSheets <= s.gamesPlayed && 0 <= s.cleanSheetsAgainst <= s.gamesPlayed
    ensures s.gamesPlayed <= |records|
  {
    CountsBounded(records, team, BigResultMargin);
    var wins := Total(records, team, Won);
    var draws := Total(records, team, Drawn);
    var gs := Total(records, team, Scored);
    var ga := Total(records, team, Conceded);
    StatsAbs(
      rank := 0,
      team := team,
      gamesPlayed := Total(records, team, Played),
      points := 3 * wins + draws,
      goalDifference := gs - ga,
      wins := wins,
      losses := Total(records, team, Lost),
      draws := draws,
      goalsScored := gs,
      goalsAllowed := ga,
      cleanSheets := Total(records, team, CleanSheet),
      cleanSheetsAgainst := Total(records, team, CleanSheetAgainst),
      bigWins := Total(records, team, BigWon(BigResultMargin)),
      bigLosses := Total(records, team, BigLost(BigResultMargin)))
  }

  /** Without self-play a team's points never exceed three per game, and its results add up to its games. */
  lemma PointsBounded(records: seq<Match>, team: string)
    requires NoSelfPlay(records)
    ensures var s := TeamStats(records, team);
            s.wins + s.losses + s.draws == s.gamesPlayed && 0 <= s.points <= 3 * s.gamesPlayed
  {
    ResultsPartitionGames(records, team);
  }

  /** The row of team, counted scan by scan. */
  method TeamRow(records: seq<Match>, team: string) returns (row: StatsAbs)
    ensures row == TeamStats(records, team)
  {
    var wins := WinCount(records, team);
    var draws := DrawCount(records, team);
    var gs := GoalsScored(records, team);
    var ga := GoalsAllowed(records, team);
    var gd := gs - ga;
    var points := 3 * wins + draws;
    var played := GamesPlayedCount(records, team);
    var losses := LossCount(records, team);
    var cs := CleanSheets(records, team);
    var csa := CleanSheetsAgainst(records, team);
    var bigWins := BigWinCount(records, team, BigResultMargin);
    var bigLosses := BigLossCount(records, team, BigResultMargin);
    row := StatsAbs(
      rank := 0,
      team := team,
      gamesPlayed := played,
      points := points,
      goalDifference := gd,
      wins := wins,
      losses := losses,
      draws := draws,
      goalsScored := gs,
      goalsAllowed := ga,
      cleanSheets := cs,
      cleanSheetsAgainst := csa,
      bigWins := bigWins,
      bigLosses := bigLosses);
  }

  /**
   * One row per team of the history, in name order, each holding that
   * team's counts; every team listed has played at least one game.
   */
  method AbsoluteStats(records: seq<Match>) returns (table: seq<StatsAbs>)
    ensures SortedBy(Names(table), LexLe) && Distinct(Names(table))
    ensures forall t :: t in Names(table) <==> Appears(records, t)
    ensures forall k :: 0 <= k < |table| ==> table[k] == TeamStats(records, table[k].team)
    ensures forall k :: 0 <= k < |table| ==> table[k].gamesPlayed >= 1
    ensures forall k :: 0 <= k < |table| ==>
      table[k].points == 3 * table[k].wins + table[k].draws
      && table[k].goalDifference == table[k].goalsScored - table[k].goalsAllowed
  {
    var teams := UniqueTeamNames(records);
    table := TeamRows(records, teams);
    RowsOfTeams(records, teams, table);
  }

  /** The rows of the given teams, in the order given; a team of the history has played. */
  method TeamRows(records: seq<Match>, teams: seq<string>) returns (table: seq<StatsAbs>)
    ensures |table| == |teams|
    ensures forall k :: 0 <= k < |table| ==> table[k] == TeamStats(records, teams[k]) && table[k].team == teams[k]
    ensures forall k :: 0 <= k < |table| ==> (table[k].gamesPlayed >= 1 <==> Appears(records, teams[k]))
  {
    table := [];
    for i := 0 to |teams|
      invariant |table| == i
      invariant forall k :: 0 <= k < i ==> table[k] == TeamStats(records, teams[k]) && table[k].team == teams[k]
      invariant forall k :: 0 <= k < i ==> (table[k].gamesPlayed >= 1 <==> Appears(records, teams[k]))
    {
      var row := TeamRow(records, teams[i]);
      PlayedIffAppears(records, teams[i]);
      table := table + [row];
    }
  }

  lemma RowsOfTeams(records: seq<Match>, teams: seq<string>, table: seq<StatsAbs>)
    requires |table| == |teams|
    requires forall k :: 0 <= k < |table| ==> table[k] == TeamStats(records, teams[k]) && table[k].team == teams[k]
    ensures Names(table) == teams
    ensures forall k :: 0 <= k < |table| ==> table[k] == TeamStats(records, table[k].team)
  {
  }
}
