/**
 * The earlier revision of the individual statistics, which sums the twelve
 * counters of the matching team rows in twelve local variables instead of a
 * map. It computes the same table as Individuals.AbsoluteStatsByIndividual.
 */
module Legacy {
  import opened Model
  import opened Strings
  import opened Sorting
  import opened Directory
  import opened Individuals

  method AbsoluteStatsByIndividual(records: seq<Match>, teamTable: seq<StatsAbs>) returns (table: seq<StatsAbs>)
    ensures SortedBy(Names(table), LexLe) && Distinct(Names(table))
    ensures forall w :: w in Names(table) <==> exists t :: Appears(records, t) && w in Segments(t)
    ensures forall k :: 0 <= k < |table| ==> table[k] == IndividualTotals(table[k].team, teamTable)
    ensures CoversTeams(records, teamTable) ==> forall k :: 0 <= k < |table| ==> table[k].gamesPlayed >= 1
  {
    var individuals := UniqueIndividualNames(records);
    table := [];
    for i := 0 to |individuals|
      invariant |table| == i
      invariant forall k :: 0 <= k < i ==> table[k] == IndividualTotals(individuals[k], teamTable)
    {
      var individual := individuals[i];
      var gamesPlayed, points, goalDifference, wins, losses, draws := 0, 0, 0, 0, 0, 0;
      var goalsScored, goalsAllowed, cleanSheets, cleanSheetsAgainst, bigWins, bigLosses := 0, 0, 0, 0, 0, 0;
      for j := 0 to |teamTable|
        invariant IndividualTotals(individual, teamTable[..j])
          == StatsAbs(0, individual, gamesPlayed, points, goalDifference, wins, losses, draws,
                      goalsScored, goalsAllowed, cleanSheets, cleanSheetsAgainst, bigWins, bigLosses)
      {
        var obj := teamTable[j];
        var inTeam := IndividualInTeam(individual, obj.team);
        IndividualTotalsStep(individual, teamTable, j);
        if inTeam {
          gamesPlayed := gamesPlayed + obj.gamesPlayed;
          points := points + obj.points;
          goalDifference := goalDifference + obj.goalDifference;
          wins := wins + obj.wins;
          losses := losses + obj.losses;
          draws := draws + obj.draws;
          goalsScored := goalsScored + obj.goalsScored;
          goalsAllowed := goalsAllowed + obj.goalsAllowed;
          cleanSheets := cleanSheets + obj.cleanSheets;
          cleanSheetsAgainst := cleanSheetsAgainst + obj.cleanSheetsAgainst;
          bigWins := bigWins + obj.bigWins;
          bigLosses := bigLosses + obj.bigLosses;
        }
      }
      assert teamTable[..|teamTable|] == teamTable;
      var row := StatsAbs(
        rank := 0,
        team := individual,
        gamesPlayed := gamesPlayed,
        points := points,
        goalDifference := goalDifference,
        wins := wins,
        losses := losses,
        draws := draws,
        goalsScored := goalsScored,
        goalsAllowed := goalsAllowed,
        cleanSheets := cleanSheets,
        cleanSheetsAgainst := cleanSheetsAgainst,
        bigWins := bigWins,
        bigLosses := bigLosses);
      table := table + [row];
    }
    assert Names(table) == individuals;
    RowsHaveGames(records, teamTable, table);
  }
}
