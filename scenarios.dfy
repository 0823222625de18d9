/**
 * Small histories worked through the model: a single 2-0, a 4-0 against a
 * 2-0 for the big-result margin, a match a team plays against itself, and a
 * two-a-side match in which one individual plays on both sides.
 */
module Scenarios {
  import opened Model
  import opened Strings
  import opened Aggregate
  import opened Individuals
  import opened Form
  import opened Normalize
  import opened Ranking

  lemma TotalOfOne(m: Match, team: string, stat: Stat)
    ensures Total([m], team, stat) == Credit(m, team, stat)
  {
    assert [m][..0] == [];
  }

  /** The tallies of one match for team, read off the match alone. */
  lemma StatsOfOne(m: Match, team: string)
    ensures TeamStats([m], team) == StatsAbs(
      rank := 0, team := team,
      gamesPlayed := Credit(m, team, Played),
      points := 3 * Credit(m, team, Won) + Credit(m, team, Drawn),
      goalDifference := Credit(m, team, Scored) - Credit(m, team, Conceded),
      wins := Credit(m, team, Won), losses := Credit(m, team, Lost), draws := Credit(m, team, Drawn),
      goalsScored := Credit(m, team, Scored), goalsAllowed := Credit(m, team, Conceded),
      cleanSheets := Credit(m, team, CleanSheet), cleanSheetsAgainst := Credit(m, team, CleanSheetAgainst),
      bigWins := Credit(m, team, BigWon(BigResultMargin)), bigLosses := Credit(m, team, BigLost(BigResultMargin)))
  {
    TotalOfOne(m, team, Played);
    TotalOfOne(m, team, Won);
    TotalOfOne(m, team, Lost);
    TotalOfOne(m, team, Drawn);
    TotalOfOne(m, team, Scored);
    TotalOfOne(m, team, Conceded);
    TotalOfOne(m, team, CleanSheet);
    TotalOfOne(m, team, CleanSheetAgainst);
    TotalOfOne(m, team, BigWon(BigResultMargin));
    TotalOfOne(m, team, BigLost(BigResultMargin));
  }

  /** A 2-0: the winner has a win, three points, +2 and a clean sheet; the loser the mirror image. */
  lemma TwoNil(a: string, b: string)
    requires a != b
    ensures TeamStats([Match(a, 2, 0, b)], a) == StatsAbs(0, a, 1, 3, 2, 1, 0, 0, 2, 0, 1, 0, 0, 0)
    ensures TeamStats([Match(a, 2, 0, b)], b) == StatsAbs(0, b, 1, 0, -2, 0, 1, 0, 0, 2, 0, 1, 0, 0)
  {
    StatsOfOne(Match(a, 2, 0, b), a);
    StatsOfOne(Match(a, 2, 0, b), b);
  }

  /** A margin of four is a big win and a big loss; a margin of two is neither. */
  lemma BigResults(a: string, b: string)
    requires a != b
    ensures TeamStats([Match(a, 4, 0, b)], a).bigWins == 1
    ensures TeamStats([Match(a, 4, 0, b)], b).bigLosses == 1
    ensures TeamStats([Match(a, 2, 0, b)], a).bigWins == 0
    ensures TeamStats([Match(a, 2, 0, b)], b).bigLosses == 0
  {
    StatsOfOne(Match(a, 4, 0, b), a);
    StatsOfOne(Match(a, 4, 0, b), b);
    StatsOfOne(Match(a, 2, 0, b), a);
    StatsOfOne(Match(a, 2, 0, b), b);
  }

  /**
   * A team that plays itself is credited one game but both a win and a
   * loss, so its results no longer add up to its games.
   */
  lemma SelfPlayBreaksPartition(a: string)
    ensures var s := TeamStats([Match(a, 2, 0, a)], a);
            s.gamesPlayed == 1 && s.wins == 1 && s.losses == 1 && s.wins + s.losses + s.draws != s.gamesPlayed
  {
    StatsOfOne(Match(a, 2, 0, a), a);
  }

  /** A name made of two segments splits into exactly those two. */
  lemma TwoSegments(x: string, y: string)
    requires IsSegment(x) && IsSegment(y)
    ensures Segments(x + y) == [x, y]
  {
    assert Concat([x, y]) == x + y by {
      assert [x, y][1..] == [y] && [y][1..] == [];
      assert Concat([y]) == y + Concat([]);
      assert y + [] == y;
    }
    SegmentsOfConcat([x, y]);
  }

  /** "AliceBob" is made of the segments "Alice" and "Bob"; its prefix "Al" is not one of them. */
  lemma AliceBobSegments()
    ensures Segments("AliceBob") == ["Alice", "Bob"]
    ensures "Al" !in Segments("AliceBob")
  {
    TwoSegments("Alice", "Bob");
    assert "Alice" + "Bob" == "AliceBob";
    assert "Al" != "Alice" && "Al" != "Bob";
  }

  /** A drawn match gives each side one game, one draw and one point. */
  lemma DrawOfOne(m: Match, team: string)
    requires team == m.homeTeam || team == m.awayTeam
    requires m.homeGoals == m.awayGoals
    ensures var s := TeamStats([m], team);
            s.gamesPlayed == 1 && s.draws == 1 && s.points == 1
  {
    StatsOfOne(m, team);
  }

  /**
   * x + y 1-1 x + z, for instance "AliceBob" 1-1 "AliceCharlie": x is on both
   * sides, and the sum of the two teams' rows gives x two games, two draws
   * and two points.
   */
  lemma OnBothSidesTotals(x: string, y: string, z: string)
    requires IsSegment(x) && IsSegment(y) && IsSegment(z)
    ensures var r := [Match(x + y, 1, 1, x + z)];
            var totals := IndividualTotals(x, [TeamStats(r, x + y), TeamStats(r, x + z)]);
            totals.gamesPlayed == 2 && totals.draws == 2 && totals.points == 2
  {
    var m := Match(x + y, 1, 1, x + z);
    var home, away := TeamStats([m], x + y), TeamStats([m], x + z);
    DrawOfOne(m, x + y);
    DrawOfOne(m, x + z);
    TwoSegments(x, y);
    TwoSegments(x, z);
    TotalsOfTwo(x, home, away);
  }

  /** An individual in both teams of a two-row table gets the sum of both rows. */
  lemma TotalsOfTwo(individual: string, a: StatsAbs, b: StatsAbs)
    requires individual in Segments(a.team) && individual in Segments(b.team)
    ensures IndividualTotals(individual, [a, b]) == Add(Add(Zero(individual), a), b)
  {
    var table := [a, b];
    IndividualTotalsStep(individual, table, 0);
    IndividualTotalsStep(individual, table, 1);
    assert table[..0] == [] && table[..2] == table;
  }

  /** In the same match x's form counts the game once, from the home side: "D". */
  lemma OnBothSidesForm(x: string, y: string, z: string)
    requires IsSegment(x) && IsSegment(y) && IsSegment(z)
    ensures Window([Match(x + y, 1, 1, x + z)], Individual(x), 10) == "D"
  {
    var r := [Match(x + y, 1, 1, x + z)];
    TwoSegments(x, y);
    assert x in Segments(x + y);
    assert Reversed(r) == r;
    assert r[..0] == [];
    assert Letters(r, Individual(x)) == "D";
  }

  /** Rounding points per game to four places: the scaled quotient lands on n. */
  lemma PpgRoundsTo(points: int, gp: int, n: int)
    requires gp > 0 && n >= 1
    requires (n as real) - 0.5 <= (points as real) / (gp as real) * 10000.0 < (n as real) + 0.5
    ensures PerGame(points, gp, 4) == (n as real) / 10000.0
  {
    assert TenPower(4) == 10000;
    var q := (points as real) / (gp as real);
    var y := Scaled(q, 4);
    assert y == q * 10000.0;
    assert Integerify(y) == n;
  }

  /**
   * Two rows whose exact points per game differ (41/91 > 50/111) can round
   * to the same four places (0.4505). The absolute table then puts the first
   * ahead, while the per-game table keeps whatever order it was given, so
   * the two rankings need not agree.
   */
  lemma RoundingMergesPpg(a: string, b: string)
    ensures var rowB := StatsAbs(0, b, 91, 41, 0, 13, 76, 2, 0, 0, 0, 0, 0, 0);
            var rowA := StatsAbs(0, a, 111, 50, 0, 16, 93, 2, 0, 0, 0, 0, 0, 0);
            AbsPpg(rowB) > AbsPpg(rowA) && NormalizeRow(rowB).ppg == NormalizeRow(rowA).ppg
  {
    PpgRoundsTo(41, 91, 4505);
    PpgRoundsTo(50, 111, 4505);
  }
}
