/**
 * The records of the match-statistics engine: one played match as read from a
 * results table, and the three tables the engine produces (absolute counts,
 * per-game rates, latest form). Every table row starts with a rank, which is 0
 * until the ranker assigns it, and the name of the team or individual.
 */
module Model {

  /** One match result. The history is a sequence of these, oldest first. */
  datatype Match = Match(homeTeam: string, homeGoals: int, awayGoals: int, awayTeam: string)

  /** Absolute counts for one team or individual. */
  datatype StatsAbs = StatsAbs(
    rank: int,
    team: string,
    gamesPlayed: int,
    points: int,
    goalDifference: int,
    wins: int,
    losses: int,
    draws: int,
    goalsScored: int,
    goalsAllowed: int,
    cleanSheets: int,
    cleanSheetsAgainst: int,
    bigWins: int,
    bigLosses: int)

  /** Per-game rates and percentages; the source's float64 fields are idealised as reals. */
  datatype StatsNorm = StatsNorm(
    rank: int,
    team: string,
    gamesPlayed: int,
    ppg: real,
    gdpg: real,
    winPct: real,
    lossPct: real,
    drawPct: real,
    gspg: real,
    gapg: real,
    csPct: real,
    csaPct: real,
    bigWinPct: real,
    bigLossPct: real)

  /** Results of the latest games, newest first, as a string over W, L and D. */
  datatype LatestForm = LatestForm(
    rank: int,
    team: string,
    form: string,
    latestPpg: real,
    numGamesConsidered: int)

  /** The goal margin from which a win or loss counts as big. */
  const BigResultMargin: int := 3

  /** The names of the rows of a table, in table order. */
  function Names(table: seq<StatsAbs>): (names: seq<string>)
    ensures |names| == |table|
    ensures forall k :: 0 <= k < |table| ==> names[k] == table[k].team
  {
    seq(|table|, k requires 0 <= k < |table| => table[k].team)
  }

  function Min(a: int, b: int): int
  {
    if a <= b then a else b
  }
}
