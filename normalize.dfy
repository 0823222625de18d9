/**
 * Per-game rates and percentages, rounded half away from zero to a fixed
 * number of decimal places. The source computes in float64; the model
 * computes in exact reals (see README).
 */
module Normalize {
  import opened Model

  function TenPower(p: nat): (r: nat)
    ensures r >= 1
  {
    if p == 0 then 1 else 10 * TenPower(p - 1)
  }

  /** 10 to the power p, the scale of the p-th decimal place. */
  function Pow10(p: nat): (r: real)
    ensures r >= 1.0
  {
    TenPower(p) as real
  }

  /**
   * The nearest integer, halves rounded away from zero: x plus 0.5 with the
   * sign of x, truncated toward zero.
   */
  function Integerify(x: real): (n: int)
    ensures x >= 0.0 ==> x - 0.5 < n as real <= x + 0.5
    ensures x < 0.0 ==> x - 0.5 <= n as real < x + 0.5
  {
    if x >= 0.0 then (x + 0.5).Floor else -((0.5 - x).Floor)
  }
  /** x moved p decimal places to the left of the point. */
  function Scaled(x: real, p: nat): real
  {
    x * Pow10(p)
  }
  /** n moved back p decimal places to the right of the point. */
  function Unscaled(n: int, p: nat): real
  {
    (n as real) / Pow10(p)
  }
  /**
   * x rounded to p decimal places: scaled up, rounded to an integer, scaled
   * back. The result is within half a unit of the p-th place of x.
   */
  function Round(x: real, p: nat): (r: real)
    ensures -0.5 / Pow10(p) <= r - x <= 0.5 / Pow10(p)
  {
    ScaleBack(Integerify(Scaled(x, p)) as real, Scaled(x, p), x, Pow10(p));
    Unscaled(Integerify(Scaled(x, p)), p)
  }
  /** Integerify lands within half a unit of its argument, and on it when it is whole. */
  lemma IntegerifyNearest(x: real)
    ensures -0.5 <= (Integerify(x) as real) - x <= 0.5
    ensures x == (x.Floor as real) ==> Integerify(x) == x.Floor
  {
  }
  lemma IntegerifyOdd(x: real)
    ensures Integerify(-x) == -Integerify(x)
  {
  }
  lemma IntegerifyMonotone(x: real, y: real)
    requires x <= y
    ensures Integerify(x) <= Integerify(y)
  {
    if x < 0.0 <= y {
      assert (0.5 - x).Floor >= 0;
    }
  }
  lemma ScaleBack(i: real, y: real, x: real, P: real)
    requires P >= 1.0 && y == x * P && -0.5 <= i - y <= 0.5
    ensures -0.5 / P <= i / P - x <= 0.5 / P
  {
    assert i / P - x == (i - y) / P;
  }
  lemma ScaledMonotone(x: real, y: real, p: nat)
    requires x <= y
    ensures Scaled(x, p) <= Scaled(y, p)
  {
    var d := Pow10(p);
    assert y * d - x * d == (y - x) * d;
  }
  lemma UnscaledMonotone(i: int, j: int, p: nat)
    requires i <= j
    ensures Unscaled(i, p) <= Unscaled(j, p)
  {
    var d := Pow10(p);
    assert (j as real) / d - (i as real) / d == ((j - i) as real) / d;
  }
  /** Rounding never reverses the order of two values. */
  lemma RoundMonotone(x: real, y: real, p: nat)
    requires x <= y
    ensures Round(x, p) <= Round(y, p)
  {
    ScaledMonotone(x, y, p);
    IntegerifyMonotone(Scaled(x, p), Scaled(y, p));
    UnscaledMonotone(Integerify(Scaled(x, p)), Integerify(Scaled(y, p)), p);
  }
  lemma ScaleUnscale(n: int, p: nat)
    ensures Scaled(Unscaled(n, p), p) == n as real
  {
  }
  /** A value that already has at most p decimal places is kept as it is. */
  lemma RoundWhole(n: int, p: nat)
    ensures Round(Unscaled(n, p), p) == Unscaled(n, p)
  {
    ScaleUnscale(n, p);
    assert (n as real).Floor == n;
    IntegerifyNearest(n as real);
  }
  /** Rounding twice to the same places is rounding once. */
  lemma RoundIdempotent(x: real, p: nat)
    ensures Round(Round(x, p), p) == Round(x, p)
  {
    RoundWhole(Integerify(Scaled(x, p)), p);
  }
  lemma ScaledOdd(x: real, p: nat)
    ensures Scaled(-x, p) == -Scaled(x, p)
  {
  }
  lemma UnscaledOdd(n: int, p: nat)
    ensures Unscaled(-n, p) == -Unscaled(n, p)
  {
  }
  /** Rounding is symmetric about zero. */
  lemma RoundOdd(x: real, p: nat)
    ensures Round(-x, p) == -Round(x, p)
  {
    ScaledOdd(x, p);
    IntegerifyOdd(Scaled(x, p));
    UnscaledOdd(Integerify(Scaled(x, p)), p);
  }

  /**
   * Halves are rounded away from zero: the point halfway between two
   * neighbouring values of p places goes to the one farther from zero.
   */
  lemma RoundHalfAway(n: int, p: nat)
    ensures n >= 0 ==> Round(Unscaled(n, p) + 0.5 / Pow10(p), p) == Unscaled(n + 1, p)
    ensures n <= 0 ==> Round(Unscaled(n, p) - 0.5 / Pow10(p), p) == Unscaled(n - 1, p)
  {
    var d := Pow10(p);
    ShiftedScale(n, 0.5, p);
    ShiftedScale(n, -0.5, p);
    assert Unscaled(n, p) - 0.5 / d == Unscaled(n, p) + (-0.5) / d;
    var up := Integerify(n as real + 0.5);
    var down := Integerify(n as real - 0.5);
    assert n >= 0 ==> up == n + 1;
    assert n <= 0 ==> down == n - 1;
  }

  lemma ShiftedScale(n: int, h: real, p: nat)
    ensures Scaled(Unscaled(n, p) + h / Pow10(p), p) == n as real + h
  {
    var d := Pow10(p);
    assert (n as real) / d + h / d == ((n as real) + h) / d;
  }

  /** A count out of gp games as a percentage: between 0 and 100 when 0 <= count <= gp. */
  lemma PercentBounds(count: int, gp: int)
    requires gp > 0
    ensures 0 <= count <= gp ==> 0.0 <= Round((count as real) * 100.0 / (gp as real), 2) <= 100.0
  {
    if 0 <= count <= gp {
      PercentInRange(count, gp);
    }
  }

  lemma RatioInRange(a: real, b: real, bound: real)
    requires b > 0.0 && 0.0 <= a <= bound * b
    ensures 0.0 <= a / b <= bound
  {
    assert a / b * b == a;
  }

  lemma PercentInRange(count: int, gp: int)
    requires gp > 0 && 0 <= count <= gp
    ensures 0.0 <= Round((count as real) * 100.0 / (gp as real), 2) <= 100.0
  {
    RatioInRange((count as real) * 100.0, gp as real, 100.0);
    RoundWithin((count as real) * 100.0 / (gp as real), 0, 100, 2);
  }

  /** A whole number is kept as it is, whatever the number of places. */
  lemma RoundInteger(n: int, p: nat)
    ensures Round(n as real, p) == n as real
  {
    var t := TenPower(p);
    assert Scaled(n as real, p) == (n * t) as real;
    IntegerifyNearest((n * t) as real);
    assert ((n * t) as real).Floor == n * t;
    assert Integerify(Scaled(n as real, p)) == n * t;
    assert ((n * t) as real) / (t as real) == n as real;
  }

  /** A value between two whole numbers stays between them once rounded. */
  lemma RoundWithin(x: real, lo: int, hi: int, p: nat)
    requires lo as real <= x <= hi as real
    ensures lo as real <= Round(x, p) <= hi as real
  {
    RoundMonotone(lo as real, x, p);
    RoundMonotone(x, hi as real, p);
    RoundInteger(lo, p);
    RoundInteger(hi, p);
  }

  function Percent(count: int, gp: int): real
    requires gp > 0
  {
    Round((count as real) * 100.0 / (gp as real), 2)
  }

  function PerGame(total: int, gp: int, p: nat): real
    requires gp > 0
  {
    Round((total as real) / (gp as real), p)
  }

  /**
   * The per-game row of s: points per game to four places, goal rates to
   * three, percentages to two. The rank is left at 0. Percentages of counts
   * that lie between 0 and the games played lie between 0 and 100, and the
   * points per game lie within half a unit of the fourth place of the exact
   * quotient.
   */
  function NormalizeRow(s: StatsAbs): (r: StatsNorm)
    requires s.gamesPlayed > 0
    ensures r.rank == 0 && r.team == s.team && r.gamesPlayed == s.gamesPlayed
    ensures 0 <= s.wins <= s.gamesPlayed ==> 0.0 <= r.winPct <= 100.0
    ensures 0 <= s.losses <= s.gamesPlayed ==> 0.0 <= r.lossPct <= 100.0
    ensures 0 <= s.draws <= s.gamesPlayed ==> 0.0 <= r.drawPct <= 100.0
    ensures 0 <= s.cleanSheets <= s.gamesPlayed ==> 0.0 <= r.csPct <= 100.0
    ensures 0 <= s.cleanSheetsAgainst <= s.gamesPlayed ==> 0.0 <= r.csaPct <= 100.0
    ensures 0 <= s.bigWins <= s.gamesPlayed ==> 0.0 <= r.bigWinPct <= 100.0
    ensures 0 <= s.bigLosses <= s.gamesPlayed ==> 0.0 <= r.bigLossPct <= 100.0
    ensures var exact := (s.points as real) / (s.gamesPlayed as real);
            -0.00005 <= r.ppg - exact <= 0.00005
  {
    var gp := s.gamesPlayed;
    PercentBounds(s.wins, gp);
    PercentBounds(s.losses, gp);
    PercentBounds(s.draws, gp);
    PercentBounds(s.cleanSheets, gp);
    PercentBounds(s.cleanSheetsAgainst, gp);
    PercentBounds(s.bigWins, gp);
    PercentBounds(s.bigLosses, gp);
    assert TenPower(4) == 10000;
    StatsNorm(
      rank := 0,
      team := s.team,
      gamesPlayed := gp,
      ppg := PerGame(s.points, gp, 4),
      gdpg := PerGame(s.goalDifference, gp, 3),
      winPct := Percent(s.wins, gp),
      lossPct := Percent(s.losses, gp),
      drawPct := Percent(s.draws, gp),
      gspg := PerGame(s.goalsScored, gp, 3),
      gapg := PerGame(s.goalsAllowed, gp, 3),
      csPct := Percent(s.cleanSheets, gp),
      csaPct := Percent(s.cleanSheetsAgainst, gp),
      bigWinPct := Percent(s.bigWins, gp),
      bigLossPct := Percent(s.bigLosses, gp))
  }

  /** Two rows whose exact points per game are ordered keep that order after rounding. */
  lemma NormalizeKeepsPpgOrder(a: StatsAbs, b: StatsAbs)
    requires a.gamesPlayed > 0 && b.gamesPlayed > 0
    requires (a.points as real) / (a.gamesPlayed as real) <= (b.points as real) / (b.gamesPlayed as real)
    ensures NormalizeRow(a).ppg <= NormalizeRow(b).ppg
  {
    RoundMonotone((a.points as real) / (a.gamesPlayed as real), (b.points as real) / (b.gamesPlayed as real), 4);
  }

  /** The per-game table: one row per row of the absolute table, in the same order. */
  method NormalizedStats(table: seq<StatsAbs>) returns (norm: seq<StatsNorm>)
    requires forall k :: 0 <= k < |table| ==> table[k].gamesPlayed > 0
    ensures |norm| == |table|
    ensures forall k :: 0 <= k < |table| ==> norm[k] == NormalizeRow(table[k])
  {
    norm := [];
    for i := 0 to |table|
      invariant |norm| == i
      invariant forall k :: 0 <= k < i ==> norm[k] == NormalizeRow(table[k])
    {
      norm := norm + [NormalizeRow(table[i])];
    }
  }
}
