/**
 * The latest form of a team or an individual: the results of their most
 * recent games, newest first, as a string over W, D and L, and the points per
 * game over those games. The history is oldest first; the scan runs over a
 * reversed copy and stops once n games have been taken.
 *
 * A match involves an entity on its home side or, when not there, on its
 * away side; the result is read from that side only. An individual on both
 * sides of one match is therefore scored once, from the home side.
 */
module Form {
  import opened Model
  import opened Strings
  import opened Sorting
  import opened Directory
  import opened Aggregate
  import opened Normalize

  /** Whose form is taken: a team by its full name, or an individual by a segment of a team name. */
  datatype Entity = Team(name: string) | Individual(name: string)

  /** e plays on the side named side. */
  predicate On(e: Entity, side: string)
  {
    match e
    case Team(name) => name == side
    case Individual(name) => name in Segments(side)
  }

  predicate Involved(m: Match, e: Entity)
  {
    On(e, m.homeTeam) || On(e, m.awayTeam)
  }

  /** The result of m for e, read from the home side when e is there and from the away side otherwise. */
  function Letter(m: Match, e: Entity): (c: char)
    requires Involved(m, e)
    ensures c == 'W' || c == 'D' || c == 'L'
  {
    var home := On(e, m.homeTeam);
    var own := if home then m.homeGoals else m.awayGoals;
    var other := if home then m.awayGoals else m.homeGoals;
    if own > other then 'W' else if own == other then 'D' else 'L'
  }

  /** The letters of the matches of ms that involve e, in the order of ms. */
  function Letters(ms: seq<Match>, e: Entity): string
  {
    if ms == [] then []
    else
      var m := ms[|ms| - 1];
      Letters(ms[..|ms| - 1], e) + (if Involved(m, e) then [Letter(m, e)] else [])
  }

  function Reversed<T>(s: seq<T>): (r: seq<T>)
    ensures |r| == |s|
  {
    seq(|s|, k requires 0 <= k < |s| => s[|s| - 1 - k])
  }

  /** The number of times c occurs in s. */
  function Count(s: string, c: char): nat
  {
    if s == [] then 0 else Count(s[..|s| - 1], c) + (if s[|s| - 1] == c then 1 else 0)
  }

  /** The form of e over at most n games: the letters of the latest n matches involving e, newest first. */
  function Window(records: seq<Match>, e: Entity, n: nat): string
  {
    var all := Letters(Reversed(records), e);
    all[..Min(n, |all|)]
  }

  /** Points per game of a form string: three per W and one per D. */
  function FormPpg(form: string): real
    requires |form| > 0
  {
    ((3 * Count(form, 'W') + Count(form, 'D')) as real) / (|form| as real)
  }

  // ---------------------------------------------------------------------
  // Sequence facts
  // ---------------------------------------------------------------------

  lemma LettersStep(ms: seq<Match>, i: nat, e: Entity)
    requires i < |ms|
    ensures Letters(ms[..i + 1], e)
            == Letters(ms[..i], e) + (if Involved(ms[i], e) then [Letter(ms[i], e)] else [])
  {
    assert ms[..i + 1][..i] == ms[..i];
  }

  lemma {:induction false} LettersAppend(a: seq<Match>, b: seq<Match>, e: Entity)
    ensures Letters(a + b, e) == Letters(a, e) + Letters(b, e)
    decreases |b|
  {
    if b == [] {
      assert a + b == a;
    } else {
      var init := b[..|b| - 1];
      assert (a + b)[..|a + b| - 1] == a + init;
      assert (a + b)[|a + b| - 1] == b[|b| - 1];
      LettersAppend(a, init, e);
    }
  }

  lemma ReversedAppend<T>(a: seq<T>, b: seq<T>)
    ensures Reversed(a + b) == Reversed(b) + Reversed(a)
  {
  }

  /** One match contributes its letter for e, or nothing when it does not involve e. */
  lemma LettersOfOne(m: Match, e: Entity)
    ensures Letters([m], e) == if Involved(m, e) then [Letter(m, e)] else []
  {
    assert [m][..0] == [];
  }

  /** The letters of the reversed history are the letters of the history, reversed. */
  lemma {:induction false} LettersReversed(ms: seq<Match>, e: Entity)
    ensures Letters(Reversed(ms), e) == Reversed(Letters(ms, e))
    decreases |ms|
  {
    if ms != [] {
      var init := ms[..|ms| - 1];
      var m := ms[|ms| - 1];
      var tail := Letters([m], e);
      LettersOfOne(m, e);
      assert ms == init + [m];
      calc {
        Letters(Reversed(ms), e);
      == { ReversedAppend(init, [m]); assert Reversed([m]) == [m]; }
        Letters([m] + Reversed(init), e);
      == { LettersAppend([m], Reversed(init), e); LettersReversed(init, e); }
        tail + Reversed(Letters(init, e));
      == { ReversedAppend(Letters(init, e), tail); assert Reversed(tail) == tail; }
        Reversed(Letters(init, e) + tail);
      == { LettersAppend(init, [m], e); }
        Reversed(Letters(ms, e));
      }
    }
  }

  lemma {:induction false} CountAppend(a: string, b: string, c: char)
    ensures Count(a + b, c) == Count(a, c) + Count(b, c)
    decreases |b|
  {
    if b == [] {
      assert a + b == a;
    } else {
      var init := b[..|b| - 1];
      assert (a + b)[..|a + b| - 1] == a + init;
      assert (a + b)[|a + b| - 1] == b[|b| - 1];
      CountAppend(a, init, c);
    }
  }

  lemma {:induction false} CountReversed(s: string, c: char)
    ensures Count(Reversed(s), c) == Count(s, c)
    decreases |s|
  {
    if s != [] {
      var init := s[..|s| - 1];
      var x := s[|s| - 1];
      assert s == init + [x];
      ReversedAppend(init, [x]);
      assert Reversed([x]) == [x];
      assert [x][..0] == [];
      assert Count([x], c) == (if x == c then 1 else 0);
      CountAppend([x], Reversed(init), c);
      CountReversed(init, c);
    }
  }

  // ---------------------------------------------------------------------
  // The form of a team against its absolute statistics
  // ---------------------------------------------------------------------

  /** The letter one match gives a team, against what the scans credit it with. */
  lemma LetterCredits(m: Match, team: string)
    ensures |Letters([m], Team(team))| == Credit(m, team, Played)
    ensures Count(Letters([m], Team(team)), 'D') == Credit(m, team, Drawn)
    ensures m.homeTeam != m.awayTeam ==> Count(Letters([m], Team(team)), 'W') == Credit(m, team, Won)
    ensures m.homeTeam != m.awayTeam ==> Count(Letters([m], Team(team)), 'L') == Credit(m, team, Lost)
  {
    assert [m][..0] == [];
    if Involved(m, Team(team)) {
      var c := Letter(m, Team(team));
      assert Letters([m], Team(team)) == [c];
      assert [c][..0] == [];
    }
  }

  lemma LettersSnoc(records: seq<Match>, team: string)
    requires records != []
    ensures var init, m := records[..|records| - 1], records[|records| - 1];
            Letters(records, Team(team)) == Letters(init, Team(team)) + Letters([m], Team(team))
  {
    var init, m := records[..|records| - 1], records[|records| - 1];
    assert records == init + [m];
    LettersAppend(init, [m], Team(team));
  }

  /** A team's letters over its whole history: one per game it played and one D per draw. */
  lemma {:induction false} TeamLettersMatchTotals(records: seq<Match>, team: string)
    ensures |Letters(records, Team(team))| == Total(records, team, Played)
    ensures Count(Letters(records, Team(team)), 'D') == Total(records, team, Drawn)
  {
    if records != [] {
      var init, m := records[..|records| - 1], records[|records| - 1];
      TeamLettersMatchTotals(init, team);
      LettersSnoc(records, team);
      LetterCredits(m, team);
      CountAppend(Letters(init, Team(team)), Letters([m], Team(team)), 'D');
    }
  }

  /** Without self-play a team's letters also hold one W per win and one L per loss. */
  lemma {:induction false} TeamLettersMatchResults(records: seq<Match>, team: string)
    requires NoSelfPlay(records)
    ensures Count(Letters(records, Team(team)), 'W') == Total(records, team, Won)
    ensures Count(Letters(records, Team(team)), 'L') == Total(records, team, Lost)
  {
    if records != [] {
      var init, m := records[..|records| - 1], records[|records| - 1];
      assert forall x :: x in init ==> x in records;
      assert m in records;
      TeamLettersMatchResults(init, team);
      LettersSnoc(records, team);
      LetterCredits(m, team);
      CountAppend(Letters(init, Team(team)), Letters([m], Team(team)), 'W');
      CountAppend(Letters(init, Team(team)), Letters([m], Team(team)), 'L');
    }
  }

  /**
   * When the window is at least as long as a team's history, the form holds
   * one letter per game played, as many D as draws, and without self-play
   * as many W as wins and L as losses.
   */
  lemma WholeHistoryForm(records: seq<Match>, team: string, n: nat)
    requires n >= Total(records, team, Played)
    ensures |Window(records, Team(team), n)| == Total(records, team, Played)
    ensures Count(Window(records, Team(team), n), 'D') == Total(records, team, Drawn)
    ensures NoSelfPlay(records) ==> Count(Window(records, Team(team), n), 'W') == Total(records, team, Won)
    ensures NoSelfPlay(records) ==> Count(Window(records, Team(team), n), 'L') == Total(records, team, Lost)
  {
    var all := Letters(Reversed(records), Team(team));
    LettersReversed(records, Team(team));
    TeamLettersMatchTotals(records, team);
    if NoSelfPlay(records) {
      TeamLettersMatchResults(records, team);
    }
    CountReversed(Letters(records, Team(team)), 'D');
    CountReversed(Letters(records, Team(team)), 'W');
    CountReversed(Letters(records, Team(team)), 'L');
    assert all[..|all|] == all;
  }

  /** The window holds min(n, games involving e) letters. */
  lemma WindowLength(records: seq<Match>, e: Entity, n: nat)
    ensures |Window(records, e, n)| == Min(n, |Letters(records, e)|)
  {
    LettersReversed(records, e);
  }

  /** The form starts with the result of the latest match that involves e. */
  lemma WindowStartsWithLatest(records: seq<Match>, e: Entity, n: nat, j: nat)
    requires n >= 1 && j < |records| && Involved(records[j], e)
    requires forall k :: j < k < |records| ==> !Involved(records[k], e)
    ensures |Window(records, e, n)| >= 1 && Window(records, e, n)[0] == Letter(records[j], e)
  {
    var after := records[j + 1..];
    assert records == records[..j + 1] + after;
    assert forall k :: 0 <= k < |after| ==> after[k] == records[j + 1 + k];
    NoLettersAfter(after, e);
    LettersAppend(records[..j + 1], after, e);
    LettersStep(records, j, e);
    var all := Letters(records, e);
    assert all == Letters(records[..j], e) + [Letter(records[j], e)];
    LettersReversed(records, e);
    assert Reversed(all)[0] == all[|all| - 1];
  }

  lemma {:induction false} NoLettersAfter(ms: seq<Match>, e: Entity)
    requires forall k :: 0 <= k < |ms| ==> !Involved(ms[k], e)
    ensures Letters(ms, e) == []
  {
    if ms != [] {
      NoLettersAfter(ms[..|ms| - 1], e);
    }
  }

  // ---------------------------------------------------------------------
  // The scans
  // ---------------------------------------------------------------------

  /** A copy of the history, newest first. */
  method ReverseRecordsOrder(records: seq<Match>) returns (rev: seq<Match>)
    ensures rev == Reversed(records)
  {
    rev := [];
    var i := |records| - 1;
    while i >= 0
      invariant -1 <= i < |records|
      invariant |rev| == |records| - 1 - i
      invariant forall k :: 0 <= k < |rev| ==> rev[k] == records[|records| - 1 - k]
    {
      rev := rev + [records[i]];
      i := i - 1;
    }
  }

  /** Whether e plays on the side named side. */
  method OnSide(e: Entity, side: string) returns (b: bool)
    ensures b <==> On(e, side)
  {
    match e
    case Team(name) =>
      b := name == side;
    case Individual(name) =>
      b := IndividualInTeam(name, side);
  }

  lemma PrefixOfLetters(rev: seq<Match>, i: nat, e: Entity)
    requires i <= |rev|
    ensures |Letters(rev[..i], e)| <= |Letters(rev, e)|
    ensures Letters(rev, e)[..|Letters(rev[..i], e)|] == Letters(rev[..i], e)
  {
    assert rev == rev[..i] + rev[i..];
    LettersAppend(rev[..i], rev[i..], e);
  }

  /**
   * The results of the latest n games involving e, newest first: one letter
   * per game, W, D or L.
   */
  method RepresentLatestForm(records: seq<Match>, e: Entity, n: nat) returns (form: string)
    requires n >= 1
    ensures form == Window(records, e, n)
    ensures forall k :: 0 <= k < |form| ==> form[k] in "WDL"
  {
    var rev := ReverseRecordsOrder(records);
    form := "";
    var numGamesConsidered := 0;
    var i := 0;
    while i < |rev|
      invariant 0 <= i <= |rev|
      invariant form == Letters(rev[..i], e)
      invariant numGamesConsidered == |form| < n
    {
      var m := rev[i];
      var home := OnSide(e, m.homeTeam);
      LettersStep(rev, i, e);
      if home {
        if m.homeGoals > m.awayGoals {
          form := form + "W";
        } else if m.homeGoals == m.awayGoals {
          form := form + "D";
        } else if m.homeGoals < m.awayGoals {
          form := form + "L";
        }
        numGamesConsidered := numGamesConsidered + 1;
      } else {
        var away := OnSide(e, m.awayTeam);
        if away {
          if m.awayGoals > m.homeGoals {
            form := form + "W";
          } else if m.awayGoals == m.homeGoals {
            form := form + "D";
          } else if m.awayGoals < m.homeGoals {
            form := form + "L";
          }
          numGamesConsidered := numGamesConsidered + 1;
        }
      }
      i := i + 1;
      if numGamesConsidered == n {
        PrefixOfLetters(rev, i, e);
        break;
      }
    }
    if i == |rev| && numGamesConsidered < n {
      assert rev[..i] == rev;
    }
    LettersAlphabet(rev[..i], e);
  }

  /** Every letter of a form is W, D or L. */
  lemma {:induction false} LettersAlphabet(ms: seq<Match>, e: Entity)
    ensures forall k :: 0 <= k < |Letters(ms, e)| ==> Letters(ms, e)[k] in "WDL"
  {
    if ms != [] {
      LettersAlphabet(ms[..|ms| - 1], e);
    }
  }

  /** A history in which a match involves e has at least one letter for e. */
  lemma InvolvedHasLetters(records: seq<Match>, e: Entity, j: nat)
    requires j < |records| && Involved(records[j], e)
    ensures |Letters(records, e)| >= 1
  {
    assert records == records[..j + 1] + records[j + 1..];
    LettersAppend(records[..j + 1], records[j + 1..], e);
    LettersStep(records, j, e);
  }

  /** A team of the history has a form of at least one game. */
  lemma AppearsHasLetters(records: seq<Match>, team: string)
    requires Appears(records, team)
    ensures |Letters(records, Team(team))| >= 1
  {
    var m :| m in records && (m.homeTeam == team || m.awayTeam == team);
    var j :| 0 <= j < |records| && records[j] == m;
    InvolvedHasLetters(records, Team(team), j);
  }

  /** An individual of the history has a form of at least one game. */
  lemma MemberHasLetters(records: seq<Match>, individual: string)
    requires exists t :: Appears(records, t) && individual in Segments(t)
    ensures |Letters(records, Individual(individual))| >= 1
  {
    var t :| Appears(records, t) && individual in Segments(t);
    var m :| m in records && (m.homeTeam == t || m.awayTeam == t);
    var j :| 0 <= j < |records| && records[j] == m;
    InvolvedHasLetters(records, Individual(individual), j);
  }

  /** The form of a team covers min(n, games it played) games. */
  lemma TeamWindowLength(records: seq<Match>, team: string, n: nat)
    ensures |Window(records, Team(team), n)| == Min(n, Total(records, team, Played))
  {
    WindowLength(records, Team(team), n);
    TeamLettersMatchTotals(records, team);
  }

  lemma {:induction false} CountBound(s: string)
    ensures Count(s, 'W') + Count(s, 'D') <= |s|
  {
    if s != [] {
      CountBound(s[..|s| - 1]);
    }
  }

  /** Points per game over a form lie between 0 and 3, before and after rounding. */
  lemma FormPpgBounds(form: string)
    requires |form| > 0
    ensures 0.0 <= FormPpg(form) <= 3.0
    ensures 0.0 <= Round(FormPpg(form), 4) <= 3.0
  {
    CountBound(form);
    var pts := (3 * Count(form, 'W') + Count(form, 'D')) as real;
    RatioInRange(pts, |form| as real, 3.0);
    RoundWithin(FormPpg(form), 0, 3, 4);
  }

  lemma CountStep(s: string, c: char, x: char)
    ensures Count(s + [x], c) == Count(s, c) + (if x == c then 1 else 0)
  {
    assert (s + [x])[..|s|] == s;
  }

  /** Reading one more match changes the tally only when the match involves e, by its letter. */
  lemma TallyAdvance(rev: seq<Match>, i: nat, e: Entity)
    requires i < |rev|
    ensures var before, after := Letters(rev[..i], e), Letters(rev[..i + 1], e);
      if Involved(rev[i], e) then
        |after| == |before| + 1
        && Count(after, 'W') == Count(before, 'W') + (if Letter(rev[i], e) == 'W' then 1 else 0)
        && Count(after, 'D') == Count(before, 'D') + (if Letter(rev[i], e) == 'D' then 1 else 0)
      else after == before
  {
    LettersStep(rev, i, e);
    var before := Letters(rev[..i], e);
    if Involved(rev[i], e) {
      CountStep(before, 'W', Letter(rev[i], e));
      CountStep(before, 'D', Letter(rev[i], e));
    } else {
      assert before + [] == before;
    }
  }

  /**
   * Wins, draws and games over the latest n games involving e in a history
   * given newest first: the games are the letters of the form, the wins its
   * W and the draws its D.
   */
  method TallyLatest(rev: seq<Match>, e: Entity, n: nat) returns (wins: nat, draws: nat, gamesPlayed: nat)
    requires n >= 1
    ensures var form := Letters(rev, e)[..Min(n, |Letters(rev, e)|)];
      gamesPlayed == |form| && wins == Count(form, 'W') && draws == Count(form, 'D')
  {
    wins, draws, gamesPlayed := 0, 0, 0;
    var i := 0;
    while i < |rev|
      invariant 0 <= i <= |rev|
      invariant gamesPlayed == |Letters(rev[..i], e)| < n
      invariant wins == Count(Letters(rev[..i], e), 'W')
      invariant draws == Count(Letters(rev[..i], e), 'D')
    {
      var m := rev[i];
      var home := OnSide(e, m.homeTeam);
      TallyAdvance(rev, i, e);
      if home {
        assert Letter(m, e) == if m.homeGoals > m.awayGoals then 'W' else if m.homeGoals == m.awayGoals then 'D' else 'L';
        if m.homeGoals > m.awayGoals {
          wins := wins + 1;
        } else if m.homeGoals == m.awayGoals {
          draws := draws + 1;
        }
        gamesPlayed := gamesPlayed + 1;
      } else {
        var away := OnSide(e, m.awayTeam);
        if away {
          assert Letter(m, e) == if m.awayGoals > m.homeGoals then 'W' else if m.awayGoals == m.homeGoals then 'D' else 'L';
          if m.awayGoals > m.homeGoals {
            wins := wins + 1;
          } else if m.homeGoals == m.awayGoals {
            draws := draws + 1;
          }
          gamesPlayed := gamesPlayed + 1;
        }
      }
      i := i + 1;
      if gamesPlayed == n {
        PrefixOfLetters(rev, i, e);
        break;
      }
    }
    if i == |rev| && gamesPlayed < n {
      assert rev[..i] == rev;
      assert Letters(rev, e)[..|Letters(rev, e)|] == Letters(rev, e);
    }
  }

  /** The latest-form row of e: its form, the games it covers and the points per game over them. */
  method LatestFormRow(records: seq<Match>, rev: seq<Match>, e: Entity, n: nat) returns (row: LatestForm)
    requires n >= 1 && rev == Reversed(records) && |Letters(records, e)| >= 1
    ensures row.rank == 0 && row.team == e.name
    ensures row.form == Window(records, e, n)
    ensures row.numGamesConsidered == |row.form| >= 1
    ensures row.latestPpg == Round(FormPpg(row.form), 4)
  {
    var wins, draws, gamesPlayed := TallyLatest(rev, e, n);
    var form := RepresentLatestForm(records, e, n);
    WindowLength(records, e, n);
    var latestPpg := ((3 * wins + draws) as real) / (gamesPlayed as real);
    row := LatestForm(
      rank := 0,
      team := e.name,
      form := form,
      latestPpg := Round(latestPpg, 4),
      numGamesConsidered := gamesPlayed);
  }

  /**
   * The latest form of every team of the history, in name order. Each row
   * holds the team's latest n results newest first, the number of games
   * they cover (at least one) and the points per game over them rounded to
   * four places.
   */
  method GetLatestForm(records: seq<Match>, n: nat) returns (rows: seq<LatestForm>)
    requires n >= 1
    ensures SortedBy(FormNames(rows), LexLe) && Distinct(FormNames(rows))
    ensures forall t :: t in FormNames(rows) <==> Appears(records, t)
    ensures forall k :: 0 <= k < |rows| ==> FormRowOf(rows[k], records, Team(rows[k].team), n)
  {
    var rev := ReverseRecordsOrder(records);
    var teams := UniqueTeamNames(records);
    rows := [];
    for i := 0 to |teams|
      invariant |rows| == i
      invariant forall k :: 0 <= k < i ==> rows[k].team == teams[k]
      invariant forall k :: 0 <= k < i ==> FormRowOf(rows[k], records, Team(rows[k].team), n)
    {
      AppearsHasLetters(records, teams[i]);
      var row := LatestFormRow(records, rev, Team(teams[i]), n);
      rows := rows + [row];
    }
    assert FormNames(rows) == teams;
  }

  /** The latest form of every individual of the history, in name order, as GetLatestForm. */
  method GetLatestFormSolo(records: seq<Match>, n: nat) returns (rows: seq<LatestForm>)
    requires n >= 1
    ensures SortedBy(FormNames(rows), LexLe) && Distinct(FormNames(rows))
    ensures forall w :: w in FormNames(rows) <==> exists t :: Appears(records, t) && w in Segments(t)
    ensures forall k :: 0 <= k < |rows| ==> FormRowOf(rows[k], records, Individual(rows[k].team), n)
  {
    var rev := ReverseRecordsOrder(records);
    var individuals := UniqueIndividualNames(records);
    rows := [];
    for i := 0 to |individuals|
      invariant |rows| == i
      invariant forall k :: 0 <= k < i ==> rows[k].team == individuals[k]
      invariant forall k :: 0 <= k < i ==> FormRowOf(rows[k], records, Individual(rows[k].team), n)
    {
      assert individuals[i] in individuals;
      MemberHasLetters(records, individuals[i]);
      var row := LatestFormRow(records, rev, Individual(individuals[i]), n);
      rows := rows + [row];
    }
    assert FormNames(rows) == individuals;
  }

  function FormNames(rows: seq<LatestForm>): (names: seq<string>)
    ensures |names| == |rows| && forall k :: 0 <= k < |rows| ==> names[k] == rows[k].team
  {
    seq(|rows|, k requires 0 <= k < |rows| => rows[k].team)
  }

  /**
   * row is the latest-form row of e over n games: unranked, named after e,
   * holding the form window, the number of games it covers (at least one)
   * and the rounded points per game over them.
   */
  predicate FormRowOf(row: LatestForm, records: seq<Match>, e: Entity, n: nat)
  {
    && row.rank == 0 && row.team == e.name
    && row.form == Window(records, e, n)
    && row.numGamesConsidered == |row.form| >= 1
    && row.latestPpg == Round(FormPpg(row.form), 4)
  }
}
