/**
 * Sums, extremes and columns of numeric rows, as the scoring and chart
 * helpers accumulate them. A row is one player's statistics in order;
 * exact reals stand in for Python floats.
 */
module Statistics {
  import opened Outcomes

  /** `sum(xs)`, added left to right. */
  function Sum(xs: seq<real>): real
  {
    if xs == [] then 0.0 else Sum(xs[..|xs| - 1]) + xs[|xs| - 1]
  }

  /** `min(xs)` of a non-empty list. */
  function Min(xs: seq<real>): (m: real)
    requires xs != []
    ensures m in xs && forall x :: x in xs ==> m <= x
  {
    if |xs| == 1 then xs[0]
    else
      var init, last := xs[..|xs| - 1], xs[|xs| - 1];
      assert forall x :: x in xs ==> x in init || x == last;
      var m := Min(init);
      if last < m then last else m
  }

  /** `max(xs)` of a non-empty list. */
  function Max(xs: seq<real>): (m: real)
    requires xs != []
    ensures m in xs && forall x :: x in xs ==> x <= m
  {
    if |xs| == 1 then xs[0]
    else
      var init, last := xs[..|xs| - 1], xs[|xs| - 1];
      assert forall x :: x in xs ==> x in init || x == last;
      var m := Max(init);
      if last > m then last else m
  }

  /** Every value of `xs` lies in `[lo, hi]`, so their sum lies in `[|xs| * lo, |xs| * hi]`. */
  lemma {:induction false} SumBounds(xs: seq<real>, lo: real, hi: real)
    requires forall x :: x in xs ==> lo <= x <= hi
    ensures |xs| as real * lo <= Sum(xs) <= |xs| as real * hi
  {
    if xs != [] {
      var init, last := xs[..|xs| - 1], xs[|xs| - 1];
      assert forall x :: x in init ==> x in xs;
      SumBounds(init, lo, hi);
      assert last in xs;
      var n := |init| as real;
      assert |xs| as real * lo == n * lo + lo && |xs| as real * hi == n * hi + hi;
    }
  }

  /** A quotient by a positive count keeps the bounds its numerator has on multiples of the count. */
  lemma {:induction false} DivideBounds(s: real, n: real, lo: real, hi: real)
    requires n > 0.0 && n * lo <= s <= n * hi
    ensures lo <= s / n <= hi
  {
    var q := s / n;
    assert q * n == s;
    assert n * (q - lo) >= 0.0 && n * (hi - q) >= 0.0;
  }

  /** The mean of a non-empty list lies between its minimum and its maximum. */
  lemma {:induction false} MeanWithin(xs: seq<real>)
    requires xs != []
    ensures Min(xs) <= Sum(xs) / |xs| as real <= Max(xs)
  {
    MeanWithinBounds(xs, Min(xs), Max(xs));
  }

  /** A list of `c`s sums to `|xs| * c`. */
  lemma {:induction false} SumConstant(xs: seq<real>, c: real)
    requires forall x :: x in xs ==> x == c
    ensures Sum(xs) == |xs| as real * c
  {
    if xs != [] {
      var init := xs[..|xs| - 1];
      assert forall x :: x in init ==> x in xs;
      SumConstant(init, c);
      assert xs[|xs| - 1] in xs;
      assert |xs| as real * c == |init| as real * c + c;
    }
  }

  /** The `i`-th values of the rows that have one, in row order. */
  function Column(rows: seq<seq<real>>, i: nat): (col: seq<real>)
    ensures |col| <= |rows|
  {
    if rows == [] then []
    else
      var last := rows[|rows| - 1];
      Column(rows[..|rows| - 1], i) + (if i < |last| then [last[i]] else [])
  }

  /** Where every row has an `i`-th value, the column holds exactly those values. */
  lemma {:induction false} FullColumn(rows: seq<seq<real>>, i: nat)
    requires forall j :: 0 <= j < |rows| ==> i < |rows[j]|
    ensures |Column(rows, i)| == |rows|
    ensures forall j :: 0 <= j < |rows| ==> Column(rows, i)[j] == rows[j][i]
  {
    if rows != [] {
      FullColumn(rows[..|rows| - 1], i);
    }
  }

  /** The column of a non-empty population whose rows all have an `i`-th value is not empty. */
  lemma ColumnNonEmpty(rows: seq<seq<real>>, i: nat)
    requires rows != [] && forall j :: 0 <= j < |rows| ==> i < |rows[j]|
    ensures Column(rows, i) != []
  {
    FullColumn(rows, i);
  }

  /** Taking one more row adds its `i`-th value, if it has one, to the end of the column. */
  lemma ColumnSnoc(rows: seq<seq<real>>, p: nat, i: nat)
    requires p < |rows|
    ensures Column(rows[..p + 1], i) == Column(rows[..p], i) + (if i < |rows[p]| then [rows[p][i]] else [])
  {
    assert rows[..p + 1][..p] == rows[..p];
  }

  /** Adding one value to the end of a list adds it to the sum. */
  lemma SumSnoc(xs: seq<real>, ys: seq<real>)
    requires |ys| <= 1
    ensures Sum(xs + ys) == Sum(xs) + (if ys == [] then 0.0 else ys[0])
  {
    if ys != [] {
      assert (xs + ys)[..|xs|] == xs;
    } else {
      assert xs + ys == xs;
    }
  }

  /** Every row has at most `n` values: the accumulators of length `n` can take every row. */
  predicate Fits(rows: seq<seq<real>>, n: nat)
  {
    forall j :: 0 <= j < |rows| ==> |rows[j]| <= n
  }

  /** The per-column totals of `n` accumulators. */
  function Totals(rows: seq<seq<real>>, n: nat): (t: seq<real>)
    ensures |t| == n
  {
    seq(n, i requires 0 <= i => Sum(Column(rows, i)))
  }

  /** The mean of the `i`-th column: its total over the number of rows, present or not. */
  function ColumnMean(rows: seq<seq<real>>, i: nat): real
    requires rows != []
  {
    Sum(Column(rows, i)) / |rows| as real
  }

  /** The per-column means of `n` columns. */
  function Means(rows: seq<seq<real>>, n: nat): (m: seq<real>)
    requires rows != [] || n == 0
    ensures |m| == n
  {
    seq(n, i requires 0 <= i < n => ColumnMean(rows, i))
  }

  /** A column whose every row has the value `c` has mean `c`. */
  lemma {:induction false} ConstantMean(rows: seq<seq<real>>, i: nat, c: real)
    requires rows != [] && forall j :: 0 <= j < |rows| ==> i < |rows[j]| && rows[j][i] == c
    ensures ColumnMean(rows, i) == c
  {
    ColumnWithin(rows, i, c, c);
    MeanOfConstant(Column(rows, i), c);
  }

  /** Where every row has an `i`-th value, the column's mean lies within any bounds of its values. */
  lemma {:induction false} MeanBetween(rows: seq<seq<real>>, i: nat, lo: real, hi: real)
    requires rows != [] && forall j :: 0 <= j < |rows| ==> i < |rows[j]| && lo <= rows[j][i] <= hi
    ensures lo <= ColumnMean(rows, i) <= hi
  {
    ColumnWithin(rows, i, lo, hi);
    MeanWithinBounds(Column(rows, i), lo, hi);
  }

  /** Where every row has an `i`-th value in `[lo, hi]`, the column has one value per row, all in `[lo, hi]`. */
  lemma {:induction false} ColumnWithin(rows: seq<seq<real>>, i: nat, lo: real, hi: real)
    requires forall j :: 0 <= j < |rows| ==> i < |rows[j]| && lo <= rows[j][i] <= hi
    ensures |Column(rows, i)| == |rows|
    ensures forall x :: x in Column(rows, i) ==> lo <= x <= hi
  {
    FullColumn(rows, i);
  }

  /** The mean of a non-empty list of `c`s is `c`. */
  lemma {:induction false} MeanOfConstant(xs: seq<real>, c: real)
    requires xs != [] && forall x :: x in xs ==> c <= x <= c
    ensures Sum(xs) / |xs| as real == c
  {
    SumConstant(xs, c);
    Cancel(|xs| as real, c);
  }

  /** The mean of a non-empty list lies within any bounds of its values. */
  lemma {:induction false} MeanWithinBounds(xs: seq<real>, lo: real, hi: real)
    requires xs != [] && forall x :: x in xs ==> lo <= x <= hi
    ensures lo <= Sum(xs) / |xs| as real <= hi
  {
    SumBounds(xs, lo, hi);
    DivideBounds(Sum(xs), |xs| as real, lo, hi);
  }

  /** `count * c / count == c` for a positive count. */
  lemma {:induction false} Cancel(count: real, c: real)
    requires count > 0.0
    ensures count * c / count == c
  {
  }

  /**
   * `totals = [0] * n`, then `totals[i] += row[i]` for every index of every
   * row; a row longer than `n` indexes past the accumulators.
   */
  method ColumnSums(rows: seq<seq<real>>, n: nat) returns (r: Result<seq<real>>)
    ensures r == if Fits(rows, n) then Ok(Totals(rows, n)) else Err(IndexError)
  {
    var sums := seq(n, _ => 0.0);
    var p := 0;
    while p < |rows|
      invariant p <= |rows|
      invariant Fits(rows[..p], n)
      invariant sums == Totals(rows[..p], n)
    {
      var row := rows[p];
      var i := 0;
      while i < |row|
        invariant i <= |row| && i <= n && |sums| == n
        invariant forall k :: 0 <= k < n ==> sums[k] == Sum(Column(rows[..p], k)) + (if k < i then row[k] else 0.0)
      {
        if i >= n {
          assert !Fits(rows, n) by {
            assert |rows[p]| > n;
          }
          return Err(IndexError);
        }
        sums := sums[i := sums[i] + row[i]];
        i := i + 1;
      }
      forall k | 0 <= k < n
        ensures sums[k] == Sum(Column(rows[..p + 1], k))
      {
        ColumnSnoc(rows, p, k);
        SumSnoc(Column(rows[..p], k), if k < |row| then [row[k]] else []);
      }
      assert Fits(rows[..p + 1], n) by {
        assert forall j :: 0 <= j < p ==> rows[..p + 1][j] == rows[..p][j];
      }
      p := p + 1;
    }
    assert rows[..p] == rows;
    r := Ok(sums);
  }
}
