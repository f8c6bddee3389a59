/**
 * The chart helpers of the package's spider module: the division's stats
 * gathered per statistic, the range and the average of each statistic, and
 * the argument checks and defaults of `create_spider`.
 */
module SpiderCharts {
  import opened Outcomes
  import opened Dicts
  import opened Records
  import opened Statistics
  import opened Numerals

  /** `stats[k]` of a `defaultdict(list)`: the list, or `[]` when the key was never touched. */
  function Get<V>(d: Dict<seq<V>>, k: string): seq<V>
  {
    if k in d.entries then d.entries[k] else []
  }

  /** The first `i` items of one player's stats appended to the lists of the keys in `cats`. */
  function AddTable<V>(acc: Dict<seq<V>>, t: Dict<V>, cats: set<string>, i: nat): (r: Dict<seq<V>>)
    requires acc.Valid() && t.Valid() && i <= |t.keys|
    ensures r.Valid()
  {
    if i == 0 then acc
    else
      var a := AddTable(acc, t, cats, i - 1);
      var k := t.keys[i - 1];
      if k in cats then a.Put(k, Get(a, k) + [t.entries[k]]) else a
  }

  /** The lists after the `Stats` of the first `n` players. */
  ghost function Gathered<V>(players: Players<V>, cats: set<string>, n: nat): (r: Dict<seq<V>>)
    requires PlayersValid(players) && n <= |players.keys| && FirstHave(players, "Stats", n)
    ensures r.Valid()
  {
    if n == 0 then Empty()
    else
      var t := TableOf(players, n - 1, "Stats");
      AddTable(Gathered(players, cats, n - 1), t, cats, |t.keys|)
  }

  /** The `k` values of the first `n` players whose `Stats` has a `k`, in player order. */
  ghost function Collected<V>(players: Players<V>, k: string, n: nat): seq<V>
    requires PlayersValid(players) && n <= |players.keys| && FirstHave(players, "Stats", n)
  {
    if n == 0 then []
    else
      var t := TableOf(players, n - 1, "Stats");
      Collected(players, k, n - 1) + (if k in t.entries then [t.entries[k]] else [])
  }

  /** `_get_stats(data, filter_cats)`: a `KeyError` unless every player has `Stats`. */
  ghost function StatsResult<V>(players: Players<V>, cats: set<string>): Result<Dict<seq<V>>>
    requires PlayersValid(players)
  {
    if !AllHave(players, "Stats") then Err(KeyError)
    else Ok(Gathered(players, cats, |players.keys|))
  }

  /**
   * Appending one player's stats adds that player's value to the list of a
   * key in `cats` it has, and touches no other list; a key appears once it
   * has a value.
   */
  lemma {:induction false} AddTableGet<V>(acc: Dict<seq<V>>, t: Dict<V>, cats: set<string>, i: nat, k: string)
    requires acc.Valid() && t.Valid() && i <= |t.keys|
    ensures Get(AddTable(acc, t, cats, i), k) ==
      Get(acc, k) + (if k in cats && k in t.keys[..i] then [t.entries[k]] else [])
    ensures k in AddTable(acc, t, cats, i).entries <==> k in acc.entries || (k in cats && k in t.keys[..i])
  {
    if i > 0 {
      AddTableGet(acc, t, cats, i - 1, k);
      var last := t.keys[i - 1];
      assert t.keys[..i] == t.keys[..i - 1] + [last];
      if k == last {
        assert k !in t.keys[..i - 1];
      }
    }
  }

  /**
   * After the first `n` players, a key's list holds the value of every one of
   * them whose stats have it, in player order, exactly when the key is in
   * `cats`; no other key is present.
   */
  lemma {:induction false} GatheredGet<V>(players: Players<V>, cats: set<string>, n: nat, k: string)
    requires PlayersValid(players) && n <= |players.keys| && FirstHave(players, "Stats", n)
    ensures Get(Gathered(players, cats, n), k) == if k in cats then Collected(players, k, n) else []
    ensures k in Gathered(players, cats, n).entries <==> k in cats && Collected(players, k, n) != []
  {
    if n > 0 {
      GatheredGet(players, cats, n - 1, k);
      var t := TableOf(players, n - 1, "Stats");
      AddTableGet(Gathered(players, cats, n - 1), t, cats, |t.keys|, k);
      assert t.keys[..|t.keys|] == t.keys;
      assert k in t.keys <==> k in t.entries;
    }
  }

  /** `_get_stats`: only keys in `filter_cats`, each with its values in player order. */
  lemma StatsMeaning<V>(players: Players<V>, cats: set<string>, k: string)
    requires PlayersValid(players) && StatsResult(players, cats).Ok?
    ensures k in StatsResult(players, cats).value.entries ==> k in cats
    ensures k in cats ==> Get(StatsResult(players, cats).value, k) == Collected(players, k, |players.keys|)
    ensures k in StatsResult(players, cats).value.entries ==> StatsResult(players, cats).value.entries[k] != []
  {
    GatheredGet(players, cats, |players.keys|, k);
  }

  /** One player's stats appended to the lists, as the inner loop does it. */
  method AppendStats<V>(acc: Dict<seq<V>>, t: Dict<V>, cats: set<string>) returns (r: Dict<seq<V>>)
    requires acc.Valid() && t.Valid()
    ensures r == AddTable(acc, t, cats, |t.keys|)
  {
    r := acc;
    var i := 0;
    while i < |t.keys|
      invariant i <= |t.keys| && r == AddTable(acc, t, cats, i)
    {
      var key := t.keys[i];
      if key in cats {
        var list := if key in r.entries then r.entries[key] else [];
        r := r.Put(key, list + [t.entries[key]]);
      }
      i := i + 1;
    }
  }

  /** `_get_stats(data, filter_cats)`: every player's `Stats` appended in turn. */
  method GetStats<V>(players: Players<V>, cats: set<string>) returns (r: Result<Dict<seq<V>>>)
    requires PlayersValid(players)
    ensures r == StatsResult(players, cats)
  {
    var stats := Empty();
    var j := 0;
    while j < |players.keys|
      invariant j <= |players.keys| && FirstHave(players, "Stats", j)
      invariant stats == Gathered(players, cats, j)
    {
      var record := RecordAt(players, j);
      if "Stats" !in record.entries {
        assert !AllHave(players, "Stats");
        return Err(KeyError);
      }
      stats := AppendStats(stats, TableOf(players, j, "Stats"), cats);
      j := j + 1;
    }
    r := Ok(stats);
  }

  /** Every list of the dict is non-empty: `min`, `max` and the average are defined on each. */
  ghost predicate AllNonEmpty(all: Dict<seq<real>>) {
    forall k :: k in all.entries ==> all.entries[k] != []
  }

  /** `(min, max)` of a statistic, or `(max, min)` for `possLost`, where lower is better. */
  function RangeFor(stat: string, xs: seq<real>): (real, real)
    requires xs != []
  {
    if stat != "possLost" then (Min(xs), Max(xs)) else (Max(xs), Min(xs))
  }

  /** `_get_ranges(all_stats)`: one range per statistic in key order; `min([])` is a `ValueError`. */
  function GetRanges(all: Dict<seq<real>>): (r: Result<seq<(real, real)>>)
    requires all.Valid()
    ensures r.Ok? <==> AllNonEmpty(all)
    ensures r.Err? ==> r.error == ValueError
    ensures r.Ok? ==> |r.value| == |all.keys|
    ensures r.Ok? ==> forall i :: 0 <= i < |all.keys| ==> r.value[i] == RangeFor(all.keys[i], all.entries[all.keys[i]])
  {
    RangesOfFirst(all, |all.keys|)
  }

  /** The ranges of the first `n` statistics. */
  function RangesOfFirst(all: Dict<seq<real>>, n: nat): (r: Result<seq<(real, real)>>)
    requires all.Valid() && n <= |all.keys|
    ensures r.Ok? <==> forall i :: 0 <= i < n ==> all.entries[all.keys[i]] != []
    ensures r.Err? ==> r.error == ValueError
    ensures r.Ok? ==> |r.value| == n
    ensures r.Ok? ==> forall i :: 0 <= i < n ==> r.value[i] == RangeFor(all.keys[i], all.entries[all.keys[i]])
  {
    if n == 0 then Ok([])
    else
      var before :- RangesOfFirst(all, n - 1);
      var stat := all.keys[n - 1];
      assert stat in all.keys;
      var xs := all.entries[stat];
      if xs == [] then Err(ValueError) else Ok(before + [RangeFor(stat, xs)])
  }

  /** Every range is ordered low to high, except the `possLost` range, high to low. */
  lemma RangesOrdered(all: Dict<seq<real>>, i: nat)
    requires all.Valid() && GetRanges(all).Ok? && i < |all.keys|
    ensures all.keys[i] != "possLost" ==> GetRanges(all).value[i].0 <= GetRanges(all).value[i].1
    ensures all.keys[i] == "possLost" ==> GetRanges(all).value[i].0 >= GetRanges(all).value[i].1
  {
    var xs := all.entries[all.keys[i]];
    assert xs[0] in xs;
  }

  /** `_average_stats(all_stats)`: `sum / len` per statistic in key order; `[]` divides by zero. */
  function AverageStats(all: Dict<seq<real>>): (r: Result<seq<real>>)
    requires all.Valid()
    ensures r.Ok? <==> AllNonEmpty(all)
    ensures r.Err? ==> r.error == ZeroDivisionError
    ensures r.Ok? ==> |r.value| == |all.keys|
    ensures r.Ok? ==> forall i :: 0 <= i < |all.keys| ==>
      var xs := all.entries[all.keys[i]];
      r.value[i] == Sum(xs) / |xs| as real
  {
    AveragesOfFirst(all, |all.keys|)
  }

  /** The averages of the first `n` statistics. */
  function AveragesOfFirst(all: Dict<seq<real>>, n: nat): (r: Result<seq<real>>)
    requires all.Valid() && n <= |all.keys|
    ensures r.Ok? <==> forall i :: 0 <= i < n ==> all.entries[all.keys[i]] != []
    ensures r.Err? ==> r.error == ZeroDivisionError
    ensures r.Ok? ==> |r.value| == n
    ensures r.Ok? ==> forall i :: 0 <= i < n ==>
      var xs := all.entries[all.keys[i]];
      r.value[i] == Sum(xs) / |xs| as real
  {
    if n == 0 then Ok([])
    else
      var before :- AveragesOfFirst(all, n - 1);
      var stat := all.keys[n - 1];
      assert stat in all.keys;
      var xs := all.entries[stat];
      if xs == [] then Err(ZeroDivisionError) else Ok(before + [Sum(xs) / |xs| as real])
  }

  /** Each average lies within its statistic's range, whichever way round the range is. */
  lemma AverageWithinRange(all: Dict<seq<real>>, i: nat)
    requires all.Valid() && AllNonEmpty(all) && i < |all.keys|
    ensures GetRanges(all).Ok? && AverageStats(all).Ok?
    ensures
      var (a, b) := GetRanges(all).value[i];
      var avg := AverageStats(all).value[i];
      (a <= avg <= b) || (b <= avg <= a)
  {
    MeanWithin(all.entries[all.keys[i]]);
  }

  /** The lists `_get_stats` gathers are never empty, so both chart helpers succeed on them. */
  lemma GatheredStatsChart(players: Players<real>, cats: set<string>)
    requires PlayersValid(players) && StatsResult(players, cats).Ok?
    ensures GetRanges(StatsResult(players, cats).value).Ok?
    ensures AverageStats(StatsResult(players, cats).value).Ok?
  {
    var all := StatsResult(players, cats).value;
    forall k | k in all.entries
      ensures all.entries[k] != []
    {
      StatsMeaning(players, cats, k);
    }
  }

  /** A `season` argument: `str` or a season number. */
  datatype Season = SeasonText(s: string) | SeasonNumber(n: int)

  /** A `comparison_division` or `comparison_position` argument: one name or several. */
  datatype Choice = One(name: string) | Many(names: seq<string>)

  /** The player query and the comparison query `create_spider` builds from its arguments. */
  datatype Filters = Filters(
    season: string,
    position: Option<string>,
    division: Option<string>,
    comparisonSeason: Season,
    comparisonPosition: Option<Choice>,
    comparisonDivision: Choice)

  /** `str(season)` unless it already is a string. */
  function SeasonString(season: Season): (s: string)
    ensures season.SeasonText? ==> s == season.s
    ensures season.SeasonNumber? ==> ParseInt(s) == Ok(season.n)
  {
    match season
    case SeasonText(s) => s
    case SeasonNumber(n) => ParseIntToString(n); IntToString(n)
  }

  /** The argument checks and defaults at the head of `create_spider`. */
  function CreateSpiderFilters(season: Season, position: Option<string>, division: Option<string>,
                               comparisonSeason: Option<int>, comparisonPosition: Option<Choice>,
                               comparisonDivision: Option<Choice>): (r: Result<Filters>)
    ensures r.Err? <==> division.None? && comparisonDivision.None?
    ensures r.Err? ==> r.error == ValueError
    ensures r.Ok? ==>
      && r.value.season == SeasonString(season)
      && r.value.position == position && r.value.division == division
      && r.value.comparisonDivision == (if comparisonDivision.Some? then comparisonDivision.value else One(division.value))
      && r.value.comparisonPosition == (if comparisonPosition.Some? then comparisonPosition else if position.Some? then Some(One(position.value)) else None)
      && r.value.comparisonSeason == (if comparisonSeason.Some? then SeasonNumber(comparisonSeason.value) else SeasonText(SeasonString(season)))
  {
    if division.None? && comparisonDivision.None? then Err(ValueError)
    else
      var s := SeasonString(season);
      Ok(Filters(
        s, position, division,
        if comparisonSeason.Some? then SeasonNumber(comparisonSeason.value) else SeasonText(s),
        if comparisonPosition.Some? then comparisonPosition else if position.Some? then Some(One(position.value)) else None,
        if comparisonDivision.Some? then comparisonDivision.value else One(division.value)))
  }

  /** With no comparison arguments, the comparison query is the player's own. */
  lemma ComparisonDefaultsToPlayer(season: Season, position: Option<string>, division: string)
    ensures
      var r := CreateSpiderFilters(season, position, Some(division), None, None, None);
      && r.Ok?
      && r.value.comparisonSeason == SeasonText(r.value.season)
      && r.value.comparisonDivision == One(division)
      && (r.value.comparisonPosition.Some? <==> position.Some?)
      && (position.Some? ==> r.value.comparisonPosition == Some(One(position.value)))
  {
  }
}
