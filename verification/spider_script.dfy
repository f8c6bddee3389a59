/**
 * The chart helpers of the command-line spider script: per-statistic
 * ranges (with the `possLost` entry reversed), per-statistic averages, and
 * the category filter over a division's records. A row is one player's
 * stats dict; its values are read in key order.
 */
module SpiderScript {
  import opened Outcomes
  import opened Dicts
  import opened Records
  import opened Statistics

  /** A range bound: a number, or the `float('inf')` a minimum starts from. */
  datatype Bound = Finite(x: real) | PosInf

  /** `[ranges[i][0], ranges[i][1]]`. */
  datatype Range = Range(first: Bound, second: Bound)

  /** `x < b`. */
  predicate Below(x: real, b: Bound) {
    b.PosInf? || x < b.x
  }

  /** The running minimum after the values `xs`, starting from infinity. */
  function Lowest(xs: seq<real>): Bound
  {
    if xs == [] then PosInf
    else
      var b := Lowest(xs[..|xs| - 1]);
      var x := xs[|xs| - 1];
      if Below(x, b) then Finite(x) else b
  }

  /** The running maximum after the values `xs`, starting from `0`. */
  function Highest(xs: seq<real>): real
  {
    if xs == [] then 0.0
    else
      var h := Highest(xs[..|xs| - 1]);
      var x := xs[|xs| - 1];
      if x > h then x else h
  }

  /** The running minimum of a non-empty list is its minimum. */
  lemma {:induction false} LowestIsMin(xs: seq<real>)
    requires xs != []
    ensures Lowest(xs) == Finite(Min(xs))
  {
    var init := xs[..|xs| - 1];
    if init != [] {
      LowestIsMin(init);
    } else {
      assert Lowest(init) == PosInf;
    }
  }

  /** The running maximum is the larger of `0` and the maximum. */
  lemma {:induction false} HighestIsMax(xs: seq<real>)
    ensures Highest(xs) == if xs != [] && Max(xs) > 0.0 then Max(xs) else 0.0
  {
    if xs != [] {
      var init := xs[..|xs| - 1];
      HighestIsMax(init);
    }
  }

  /** One value taken into a range: a smaller minimum, a larger maximum. */
  function Widen(r: Range, x: real): Range
    requires r.second.Finite?
  {
    Range(if Below(x, r.first) then Finite(x) else r.first,
          if x > r.second.x then Finite(x) else r.second)
  }

  /** The range of the `i`-th column after every row. */
  function RangeOf(rows: seq<seq<real>>, i: nat): Range
  {
    Range(Lowest(Column(rows, i)), Finite(Highest(Column(rows, i))))
  }

  /** Taking one more row widens the range of each column it has a value in. */
  lemma RangeSnoc(rows: seq<seq<real>>, p: nat, i: nat)
    requires p < |rows|
    ensures RangeOf(rows[..p + 1], i) ==
      if i < |rows[p]| then Widen(RangeOf(rows[..p], i), rows[p][i]) else RangeOf(rows[..p], i)
  {
    ColumnSnoc(rows, p, i);
    var col := Column(rows[..p], i);
    if i < |rows[p]| {
      assert (col + [rows[p][i]])[..|col|] == col;
    } else {
      assert col + [] == col;
    }
  }

  /** The ranges of `n` columns. */
  ghost function Ranges(rows: seq<seq<real>>, n: nat): (rs: seq<Range>)
    ensures |rs| == n
  {
    seq(n, i requires 0 <= i => RangeOf(rows, i))
  }

  /** The position a Python list index `i` names in a list of length `n`, if any. */
  function PyIndex(i: int, n: nat): (p: Option<nat>)
    ensures p.Some? ==> p.value < n && (p.value == i || p.value == i + n)
    ensures p.Some? <==> -(n as int) <= i < n
  {
    if 0 <= i < n then Some(i)
    else if -(n as int) <= i < 0 then Some(i + n)
    else None
  }

  /** `get_ranges(all_stats, possLost_i)` on the value rows. */
  ghost function RangesResult(rows: seq<seq<real>>, possLost: Option<int>): Result<seq<Range>>
  {
    if rows == [] then Err(IndexError)
    else
      var n := |rows[0]|;
      if !Fits(rows, n) then Err(IndexError)
      else
        var rs := Ranges(rows, n);
        match possLost
        case None => Ok(rs)
        case Some(i) =>
          match PyIndex(i, n)
          case None => Err(IndexError)
          case Some(p) => Ok(rs[p := Range(rs[p].second, rs[p].first)])
  }

  /** The index whose bounds `get_ranges` swaps, if any. */
  function Swapped(possLost: Option<int>, n: nat): Option<nat>
  {
    if possLost.None? then None else PyIndex(possLost.value, n)
  }

  /**
   * Entry `i` of a successful `get_ranges` is `[min, max(0, max)]` of column
   * `i` (never an infinite minimum, as the first row has every column), and
   * the reverse for the `possLost` entry alone.
   */
  lemma RangeAt(rows: seq<seq<real>>, possLost: Option<int>, i: nat)
    requires RangesResult(rows, possLost).Ok?
    requires rows != [] && i < |rows[0]|
    ensures Column(rows, i) != []
    ensures
      var col := Column(rows, i);
      var lo := Finite(Min(col));
      var hi := Finite(if Max(col) > 0.0 then Max(col) else 0.0);
      RangesResult(rows, possLost).value[i] ==
        if Swapped(possLost, |rows[0]|) == Some(i) then Range(hi, lo) else Range(lo, hi)
  {
    FirstRowColumn(rows, i);
    var col := Column(rows, i);
    LowestIsMin(col);
    HighestIsMax(col);
    var n := |rows[0]|;
    var rs := Ranges(rows, n);
    assert rs[i] == RangeOf(rows, i);
    if possLost.Some? {
      var p := PyIndex(possLost.value, n);
      assert RangesResult(rows, possLost).value == rs[p.value := Range(rs[p.value].second, rs[p.value].first)];
    }
  }

  /** Every column of the first row's width has a value from the first row. */
  lemma FirstRowColumn(rows: seq<seq<real>>, i: nat)
    requires rows != [] && i < |rows[0]|
    ensures Column(rows, i) != []
  {
    assert Column([rows[0]], i) == [rows[0][i]] by {
      assert [rows[0]][..0] == [];
    }
    assert rows[..1] == [rows[0]];
    ColumnPrefix(rows, 1, i);
  }

  /** The column of a population's first rows is a prefix of its column. */
  lemma {:induction false} ColumnPrefix(rows: seq<seq<real>>, p: nat, i: nat)
    requires p <= |rows|
    ensures |Column(rows[..p], i)| <= |Column(rows, i)|
    ensures Column(rows[..p], i) == Column(rows, i)[..|Column(rows[..p], i)|]
    decreases |rows| - p
  {
    if p < |rows| {
      ColumnPrefix(rows, p + 1, i);
      ColumnSnoc(rows, p, i);
    } else {
      assert rows[..p] == rows;
    }
  }

  /** The values of each stats dict, in key order. */
  function ValueRows(all: seq<Dict<real>>): (rows: seq<seq<real>>)
    requires forall j :: 0 <= j < |all| ==> all[j].Valid()
    ensures |rows| == |all|
  {
    seq(|all|, j requires 0 <= j < |all| => all[j].Values())
  }

  /**
   * `ranges = [[inf, 0] ...]`, then every value of every row lowers the
   * minimum or raises the maximum of its column; a row longer than the first
   * indexes past the list.
   */
  method RangeTable(rows: seq<seq<real>>, n: nat) returns (r: Result<seq<Range>>)
    ensures r == if Fits(rows, n) then Ok(Ranges(rows, n)) else Err(IndexError)
  {
    var ranges := seq(n, _ => Range(PosInf, Finite(0.0)));
    var p := 0;
    while p < |rows|
      invariant p <= |rows|
      invariant Fits(rows[..p], n)
      invariant ranges == Ranges(rows[..p], n)
    {
      var row := rows[p];
      var i := 0;
      while i < |row|
        invariant i <= |row| && i <= n && |ranges| == n
        invariant forall k :: 0 <= k < n ==>
          ranges[k] == if k < i then Widen(RangeOf(rows[..p], k), row[k]) else RangeOf(rows[..p], k)
      {
        if i >= n {
          assert !Fits(rows, n) by {
            assert |rows[p]| > n;
          }
          return Err(IndexError);
        }
        ranges := ranges[i := Widen(ranges[i], row[i])];
        i := i + 1;
      }
      forall k | 0 <= k < n
        ensures ranges[k] == RangeOf(rows[..p + 1], k)
      {
        RangeSnoc(rows, p, k);
      }
      assert Fits(rows[..p + 1], n) by {
        assert forall j :: 0 <= j < p ==> rows[..p + 1][j] == rows[..p][j];
      }
      p := p + 1;
    }
    assert rows[..p] == rows;
    r := Ok(ranges);
  }

  /** `get_ranges(all_stats, possLost_i)`: the ranges, then the `possLost` entry's bounds swapped. */
  method GetRanges(allStats: seq<Dict<real>>, possLost: Option<int>) returns (r: Result<seq<Range>>)
    requires forall j :: 0 <= j < |allStats| ==> allStats[j].Valid()
    ensures r == RangesResult(ValueRows(allStats), possLost)
  {
    if allStats == [] {
      return Err(IndexError);
    }
    var rows := ValueRows(allStats);
    var table := RangeTable(rows, |rows[0]|);
    if table.Err? {
      return table;
    }
    var ranges := table.value;
    if possLost.Some? {
      var p := PyIndex(possLost.value, |ranges|);
      if p.None? {
        return Err(IndexError);
      }
      ranges := ranges[p.value := Range(ranges[p.value].second, ranges[p.value].first)];
    }
    r := Ok(ranges);
  }

  /** `average_stats(all_stats)` on the value rows. */
  ghost function AveragesResult(rows: seq<seq<real>>): Result<seq<real>>
  {
    if rows == [] || !Fits(rows, |rows[0]|) then Err(IndexError)
    else Ok(Means(rows, |rows[0]|))
  }

  /** `average_stats(all_stats)`: the column totals, each over the number of rows. */
  method AverageStats(allStats: seq<Dict<real>>) returns (r: Result<seq<real>>)
    requires forall j :: 0 <= j < |allStats| ==> allStats[j].Valid()
    ensures r == AveragesResult(ValueRows(allStats))
  {
    if allStats == [] {
      return Err(IndexError);
    }
    var rows := ValueRows(allStats);
    var n := |rows[0]|;
    var sums := ColumnSums(rows, n);
    if sums.Err? {
      return Err(sums.error);
    }
    var count := |allStats| as real;
    var means := seq(n, i requires 0 <= i < n => sums.value[i] / count);
    assert forall i :: 0 <= i < n ==> means[i] == ColumnMean(rows, i);
    assert means == Means(rows, n);
    r := Ok(means);
  }

  /**
   * Where every player has the same number of stats, both helpers succeed,
   * and each average lies within the unswapped range of its statistic.
   */
  lemma AverageWithinRange(rows: seq<seq<real>>, i: nat)
    requires rows != [] && i < |rows[0]|
    requires forall j :: 0 <= j < |rows| ==> |rows[j]| == |rows[0]|
    ensures RangesResult(rows, None).Ok? && AveragesResult(rows).Ok?
    ensures
      var range := RangesResult(rows, None).value[i];
      && range.first.Finite? && range.second.Finite?
      && range.first.x <= AveragesResult(rows).value[i] <= range.second.x
  {
    assert Fits(rows, |rows[0]|);
    RangeAt(rows, None, i);
    var col := Column(rows, i);
    assert AveragesResult(rows).value[i] == ColumnMean(rows, i);
    FullColumn(rows, i);
    MeanWithin(col);
  }

  /** `stats = {}` filled with the items of `record['stats']` whose key is in `category`. */
  ghost function StatsResult<V>(players: Players<V>, category: set<string>): Result<seq<Dict<V>>>
    requires PlayersValid(players)
  {
    if !AllHave(players, "stats") then Err(KeyError)
    else Ok(seq(|players.keys|, j requires 0 <= j < |players.keys| => TableOf(players, j, "stats").Restrict(category)))
  }

  /**
   * `get_stats(players_from_division, category)`: one dict per record, in
   * record order, holding the record's stats whose key is in `category`.
   */
  method GetStats<V>(players: Players<V>, category: set<string>) returns (r: Result<seq<Dict<V>>>)
    requires PlayersValid(players)
    ensures r == StatsResult(players, category)
  {
    var all := [];
    var j := 0;
    while j < |players.keys| && "stats" in RecordAt(players, j).entries
      invariant j <= |players.keys|
      invariant forall m :: 0 <= m < j ==> "stats" in RecordAt(players, m).entries
      invariant |all| == j
      invariant forall m :: 0 <= m < j ==> all[m] == TableOf(players, m, "stats").Restrict(category)
    {
      var stats := Filter(TableOf(players, j, "stats"), category);
      all := all + [stats];
      j := j + 1;
    }
    if j < |players.keys| {
      assert !AllHave(players, "stats");
      return Err(KeyError);
    }
    assert AllHave(players, "stats");
    assert all == StatsResult(players, category).value;
    r := Ok(all);
  }
}
