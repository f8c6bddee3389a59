/**
 * `Score` (score.py): the per-statistic mean and summed squares of a
 * population (`_normal`), and the z-scores of one player against them
 * (`__call__`). The square root that turns summed squares into standard
 * deviations, and the tanh and rounding applied to the z-scores, are
 * floating point and stay outside the model: `ZScores` takes the
 * deviations as given.
 */
module Scoring {
  import opened Outcomes
  import opened Statistics

  /** The summed squared deviations of `xs` from `m`, added left to right. */
  function Spread(xs: seq<real>, m: real): (s: real)
    ensures s >= 0.0
  {
    if xs == [] then 0.0
    else
      var d := xs[|xs| - 1] - m;
      assert d * d >= 0.0;
      Spread(xs[..|xs| - 1], m) + d * d
  }

  /** The summed squares of each of the `n` columns about its mean. */
  function SquaresAbout(rows: seq<seq<real>>, mean: seq<real>, n: nat): (s: seq<real>)
    requires |mean| == n
    ensures |s| == n
  {
    seq(n, i requires 0 <= i < n => Spread(Column(rows, i), mean[i]))
  }

  /**
   * `_normal(stats, n)`: the means of the `n` columns and their summed
   * squares, or what it raises — `IndexError` for a row longer than `n`,
   * `ZeroDivisionError` for an empty population with columns to average.
   */
  function NormalOf(stats: seq<seq<real>>, n: nat): Result<(seq<real>, seq<real>)>
  {
    if !Fits(stats, n) then Err(IndexError)
    else if stats == [] && n > 0 then Err(ZeroDivisionError)
    else
      var mean := Means(stats, n);
      Ok((mean, SquaresAbout(stats, mean, n)))
  }

  /** One more value adds its squared deviation to the spread. */
  lemma {:induction false} SpreadSnoc(xs: seq<real>, ys: seq<real>, m: real)
    requires |ys| <= 1
    ensures Spread(xs + ys, m) == Spread(xs, m) + (if ys == [] then 0.0 else (ys[0] - m) * (ys[0] - m))
  {
    if ys != [] {
      assert (xs + ys)[..|xs|] == xs;
    } else {
      assert xs + ys == xs;
    }
  }

  /** `_normal`: two passes of nested loops, the first summing each column, the second its squared deviations. */
  method Normal(stats: seq<seq<real>>, n: nat) returns (r: Result<(seq<real>, seq<real>)>)
    ensures r == NormalOf(stats, n)
  {
    var totals := ColumnSums(stats, n);
    if totals.Err? {
      return Err(totals.error);
    }
    if stats == [] && n > 0 {
      return Err(ZeroDivisionError);
    }
    var sums := totals.value;
    var mean := seq(n, i requires 0 <= i < n => sums[i] / |stats| as real);
    assert mean == Means(stats, n);
    var squares := SquareSums(stats, mean, n);
    r := Ok((mean, squares));
  }

  /** `_normal`'s second pass: `squares[i] += (row[i] - mean[i]) ** 2` for every index of every row. */
  method SquareSums(stats: seq<seq<real>>, mean: seq<real>, n: nat) returns (squares: seq<real>)
    requires Fits(stats, n) && |mean| == n
    ensures squares == SquaresAbout(stats, mean, n)
  {
    squares := seq(n, _ => 0.0);
    var p := 0;
    while p < |stats|
      invariant p <= |stats|
      invariant squares == SquaresAbout(stats[..p], mean, n)
    {
      var row := stats[p];
      squares := AddSquares(squares, row, mean);
      forall k | 0 <= k < n
        ensures squares[k] == Spread(Column(stats[..p + 1], k), mean[k])
      {
        ColumnSnoc(stats, p, k);
        SpreadSnoc(Column(stats[..p], k), if k < |row| then [row[k]] else [], mean[k]);
      }
      p := p + 1;
    }
    assert stats[..p] == stats;
  }

  /** The inner loop of the second pass: one row's squared deviations added to the accumulators. */
  method AddSquares(squares: seq<real>, row: seq<real>, mean: seq<real>) returns (next: seq<real>)
    requires |row| <= |squares| == |mean|
    ensures |next| == |squares|
    ensures forall k :: 0 <= k < |squares| ==>
      next[k] == squares[k] + (if k < |row| then (row[k] - mean[k]) * (row[k] - mean[k]) else 0.0)
  {
    next := squares;
    var i := 0;
    while i < |row|
      invariant i <= |row| && |next| == |squares|
      invariant forall k :: 0 <= k < |squares| ==>
        next[k] == squares[k] + (if k < i then (row[k] - mean[k]) * (row[k] - mean[k]) else 0.0)
    {
      next := next[i := next[i] + (row[i] - mean[i]) * (row[i] - mean[i])];
      i := i + 1;
    }
  }

  /**
   * `Score(all_stats)`: `_normal` over as many columns as the first player
   * has. An empty population fails on `all_stats[0]`; a non-empty one never
   * divides by zero, and fails only on a player with more statistics than
   * the first.
   */
  function Population(allStats: seq<seq<real>>): (r: Result<(seq<real>, seq<real>)>)
    ensures allStats == [] ==> r == Err(IndexError)
    ensures allStats != [] ==> (r.Ok? <==> Fits(allStats, |allStats[0]|)) && r != Err(ZeroDivisionError)
    ensures r.Ok? ==> |r.value.0| == |r.value.1| == |allStats[0]|
  {
    if allStats == [] then Err(IndexError) else NormalOf(allStats, |allStats[0]|)
  }

  /** The `i`-th mean and summed squares `_normal` computes, column by column. */
  lemma {:induction false} NormalAt(stats: seq<seq<real>>, n: nat, i: nat)
    requires NormalOf(stats, n).Ok? && i < n
    ensures stats != []
    ensures NormalOf(stats, n).value.0[i] == ColumnMean(stats, i)
    ensures NormalOf(stats, n).value.1[i] == Spread(Column(stats, i), ColumnMean(stats, i))
  {
  }

  /** A column whose every player has the value `c` has mean `c` and summed squares 0. */
  lemma {:induction false} ConstantColumn(stats: seq<seq<real>>, n: nat, i: nat, c: real)
    requires Fits(stats, n) && stats != [] && i < n
    requires forall j :: 0 <= j < |stats| ==> i < |stats[j]| && stats[j][i] == c
    ensures NormalOf(stats, n).Ok?
    ensures NormalOf(stats, n).value.0[i] == c && NormalOf(stats, n).value.1[i] == 0.0
  {
    NormalAt(stats, n, i);
    ConstantMean(stats, i, c);
    ColumnWithin(stats, i, c, c);
    SpreadConstant(Column(stats, i), c);
  }

  /** The deviations of a list of `c`s from `c` sum to 0. */
  lemma {:induction false} SpreadConstant(xs: seq<real>, c: real)
    requires forall x :: x in xs ==> c <= x <= c
    ensures Spread(xs, c) == 0.0
  {
    if xs != [] {
      var init := xs[..|xs| - 1];
      assert forall x :: x in init ==> x in xs;
      SpreadConstant(init, c);
      assert xs[|xs| - 1] in xs;
    }
  }

  /**
   * Where every player has an `i`-th statistic, its mean lies within any
   * bounds of the column — in particular between the column's minimum and
   * maximum.
   */
  lemma {:induction false} MeanWithinColumn(stats: seq<seq<real>>, n: nat, i: nat, lo: real, hi: real)
    requires NormalOf(stats, n).Ok? && i < n
    requires forall j :: 0 <= j < |stats| ==> i < |stats[j]| && lo <= stats[j][i] <= hi
    ensures lo <= NormalOf(stats, n).value.0[i] <= hi
  {
    NormalAt(stats, n, i);
    MeanBetween(stats, i, lo, hi);
  }

  /** The summed squares are never negative. */
  lemma {:induction false} SquaresNonNegative(stats: seq<seq<real>>, n: nat, i: nat)
    requires NormalOf(stats, n).Ok? && i < n
    ensures NormalOf(stats, n).value.1[i] >= 0.0
  {
  }

  /** The population `[[1, 2], [3, 4], [5, 6]]` has means `[3, 4]` and summed squares `[8, 8]`. */
  lemma {:induction false} NormalExample(stats: seq<seq<real>>)
    requires stats == [[1.0, 2.0], [3.0, 4.0], [5.0, 6.0]]
    ensures NormalOf(stats, 2) == Ok(([3.0, 4.0], [8.0, 8.0]))
  {
    assert Fits(stats, 2);
    ExampleColumns(stats);
    ExampleColumn(Column(stats, 0), 3.0);
    ExampleColumn(Column(stats, 1), 4.0);
    NormalAt(stats, 2, 0);
    NormalAt(stats, 2, 1);
    var r := NormalOf(stats, 2);
    assert r.value.0 == [3.0, 4.0];
    assert r.value.1 == [8.0, 8.0];
  }

  /** The columns of `[[1, 2], [3, 4], [5, 6]]`. */
  lemma {:induction false} ExampleColumns(stats: seq<seq<real>>)
    requires stats == [[1.0, 2.0], [3.0, 4.0], [5.0, 6.0]]
    ensures Column(stats, 0) == [1.0, 3.0, 5.0] && Column(stats, 1) == [2.0, 4.0, 6.0]
  {
    var s2, s1, s0 := stats[..2], stats[..1], stats[..0];
    assert s2[..1] == s1 && s1[..0] == s0 && s0 == [];
    assert Column(s1, 0) == [1.0] && Column(s1, 1) == [2.0];
    assert Column(s2, 0) == [1.0, 3.0] && Column(s2, 1) == [2.0, 4.0];
  }

  /** A column `[m - 2, m, m + 2]` sums to `3m` and spreads `8` about `m`. */
  lemma {:induction false} ExampleColumn(xs: seq<real>, m: real)
    requires xs == [m - 2.0, m, m + 2.0]
    ensures Sum(xs) == 3.0 * m && Sum(xs) / 3.0 == m && Spread(xs, m) == 8.0
  {
    var a, b, c := xs[..2], xs[..1], xs[..0];
    assert a[..1] == b && b[..0] == c && c == [];
    assert Sum(b) == Sum(c) + (m - 2.0) == m - 2.0;
    assert Sum(a) == Sum(b) + m;
    assert Sum(xs) == Sum(a) + (m + 2.0);
    assert Spread(b, m) == Spread(c, m) + (-2.0) * (-2.0) == 4.0;
    assert Spread(a, m) == Spread(b, m) + 0.0 * 0.0;
    assert Spread(xs, m) == Spread(a, m) + 2.0 * 2.0;
  }

  /**
   * `__call__`'s z-scores: `(x - mean[i]) / (std[i] + e)` for the `i`-th
   * statistic `x`, in order; the first index past `mean` or `std` raises
   * `IndexError`, a zero denominator `ZeroDivisionError`.
   */
  function ZScores(stats: seq<real>, mean: seq<real>, std: seq<real>, e: real): Result<seq<real>>
  {
    if stats == [] then Ok([])
    else
      var i := |stats| - 1;
      match ZScores(stats[..i], mean, std, e)
      case Err(err) => Err(err)
      case Ok(zs) =>
        if i >= |mean| || i >= |std| then Err(IndexError)
        else if std[i] + e == 0.0 then Err(ZeroDivisionError)
        else Ok(zs + [(stats[i] - mean[i]) / (std[i] + e)])
  }

  /**
   * The z-scores exist exactly when every statistic has a mean and a
   * deviation and no denominator is zero.
   */
  lemma {:induction false} ZScoresDefined(stats: seq<real>, mean: seq<real>, std: seq<real>, e: real)
    ensures ZScores(stats, mean, std, e).Ok? <==>
      |stats| <= |mean| && |stats| <= |std| && forall i :: 0 <= i < |stats| ==> std[i] + e != 0.0
  {
    if stats != [] {
      ZScoresDefined(stats[..|stats| - 1], mean, std, e);
    }
  }

  /** There is one z-score per statistic, in order, the `i`-th built from `mean[i]` and `std[i]`. */
  lemma {:induction false} ZScoresAt(stats: seq<real>, mean: seq<real>, std: seq<real>, e: real)
    requires ZScores(stats, mean, std, e).Ok?
    ensures var zs := ZScores(stats, mean, std, e).value;
      && |zs| == |stats| && |stats| <= |mean| && |stats| <= |std|
      && forall i :: 0 <= i < |stats| ==> std[i] + e != 0.0 && zs[i] == (stats[i] - mean[i]) / (std[i] + e)
  {
    if stats != [] {
      var init := stats[..|stats| - 1];
      ZScoresAt(init, mean, std, e);
      assert forall i :: 0 <= i < |init| ==> stats[i] == init[i];
    }
  }

  /** Each z-score gives back its statistic as `mean[i] + z * (std[i] + e)`. */
  lemma {:induction false} ZScoresRestore(stats: seq<real>, mean: seq<real>, std: seq<real>, e: real)
    requires ZScores(stats, mean, std, e).Ok?
    ensures var zs := ZScores(stats, mean, std, e).value;
      |zs| == |stats| && forall i :: 0 <= i < |stats| ==> stats[i] == mean[i] + zs[i] * (std[i] + e)
  {
    ZScoresAt(stats, mean, std, e);
    var zs := ZScores(stats, mean, std, e).value;
    forall i | 0 <= i < |stats|
      ensures stats[i] == mean[i] + zs[i] * (std[i] + e)
    {
      Restore(stats[i], mean[i], std[i] + e);
    }
  }

  /** Dividing a deviation by a non-zero `d` and scaling back gives back the value. */
  lemma {:induction false} Restore(x: real, m: real, d: real)
    requires d != 0.0
    ensures x == m + (x - m) / d * d
  {
  }

  /** For a population's own means and deviations, a player with every statistic scores one z-score per statistic. */
  lemma {:induction false} ScoresOfPopulation(allStats: seq<seq<real>>, std: seq<real>, player: seq<real>, e: real)
    requires Population(allStats).Ok? && |std| == |allStats[0]| && |player| <= |allStats[0]|
    requires forall i :: 0 <= i < |std| ==> std[i] >= 0.0
    requires e > 0.0
    ensures ZScores(player, Population(allStats).value.0, std, e).Ok?
    ensures |ZScores(player, Population(allStats).value.0, std, e).value| == |player|
  {
    ZScoresDefined(player, Population(allStats).value.0, std, e);
    ZScoresAt(player, Population(allStats).value.0, std, e);
  }
}
