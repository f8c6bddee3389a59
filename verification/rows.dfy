/**
 * One player line of the export turned into cleaned groups
 * (`Preprocess._clean` and the loop of `Preprocess.from_rtf_file`): the
 * line's cells are cut into six category groups, each group that is given
 * and not empty is cleaned, and the first cleaning error stops the line.
 */
module PlayerRows {
  import opened Outcomes
  import opened Dicts
  import opened Export
  import opened Cleaning

  /** The keyword arguments of `_clean`, in the order they are declared. */
  datatype Category = Player | PlayerInfo | Stats | Attributes | Contract | Ca

  /** The declaration order, which is also the order of `_clean`'s result. */
  const Declared: seq<Category> := [Player, PlayerInfo, Stats, Attributes, Contract, Ca]

  /** The order `_clean` cleans the groups in. */
  const CleaningOrder: seq<Category> := [Player, PlayerInfo, Stats, Contract, Attributes, Ca]

  /** The keyword naming a category. */
  function Name(c: Category): string
  {
    match c
    case Player => "Player"
    case PlayerInfo => "PlayerInfo"
    case Stats => "Stats"
    case Attributes => "Attributes"
    case Contract => "Contract"
    case Ca => "Ca"
  }

  /** Raw groups as `_clean` receives them: a category left out is not in the map. */
  type RawGroups = map<Category, Dict<string>>

  ghost predicate GroupsValid(groups: RawGroups)
  {
    forall c :: c in groups ==> groups[c].Valid()
  }

  /** The cleaning of a category's group (`clean_player_table`, `clean_playerInfo_table`, ...). */
  function CleanedAs(c: Category, g: Dict<string>, season: Value, draw: nat): Result<Dict<Value>>
    requires g.Valid()
  {
    match c
    case Player => Ok(Lift(g).Put("season", season))
    case PlayerInfo => InfoCleaned(g)
    case Stats => StatsCleaned(g)
    case Attributes => AttributesCleaned(g)
    case Contract => ContractCleaned(g, draw)
    case Ca => CaCleaned(g)
  }

  /** `if G: clean_G_table()`: an empty group is false and is kept as it came. */
  function CleanedGroup(c: Category, g: Dict<string>, season: Value, draw: nat): Result<Dict<Value>>
    requires g.Valid()
  {
    if g.keys == [] then Ok(Lift(g)) else CleanedAs(c, g, season, draw)
  }

  /** The given category `c` cleans. */
  predicate CleansOk(c: Category, groups: RawGroups, season: Value, draw: nat)
    requires GroupsValid(groups)
  {
    c in groups ==> CleanedGroup(c, groups[c], season, draw).Ok?
  }

  /** What cleaning makes of each given group. */
  function GroupOutcomes(groups: RawGroups, season: Value, draw: nat): (o: map<Category, Result<Dict<Value>>>)
    requires GroupsValid(groups)
    ensures o.Keys == groups.Keys
    ensures forall c :: c in groups ==> o[c] == CleanedGroup(c, groups[c], season, draw)
  {
    map c | c in groups :: CleanedGroup(c, groups[c], season, draw)
  }

  /** The category `c` has no outcome or a successful one. */
  predicate OutcomeOk(o: map<Category, Result<Dict<Value>>>, c: Category)
  {
    c in o ==> o[c].Ok?
  }

  /**
   * The error of the first category of `order` whose outcome is an error,
   * if there is one.
   */
  function FirstFailure(order: seq<Category>, o: map<Category, Result<Dict<Value>>>): (f: Option<Error>)
    ensures f.None? <==> forall i :: 0 <= i < |order| ==> OutcomeOk(o, order[i])
    ensures f.Some? ==> exists i :: (
      && 0 <= i < |order| && order[i] in o && o[order[i]] == Err(f.value)
      && forall j :: 0 <= j < i ==> OutcomeOk(o, order[j]))
  {
    if order == [] then None
    else if order[0] in o && o[order[0]].Err? then Some(o[order[0]].error)
    else
      var f := FirstFailure(order[1..], o);
      assert forall i :: 1 <= i < |order| ==> order[i] == order[1..][i - 1];
      if f.Some? then
        var i :| 0 <= i < |order[1..]| && order[1..][i] in o && o[order[1..][i]] == Err(f.value)
          && forall j :: 0 <= j < i ==> OutcomeOk(o, order[1..][j]);
        assert forall j :: 0 <= j < i + 1 ==> OutcomeOk(o, order[j]) by {
          forall j | 0 <= j < i + 1
            ensures OutcomeOk(o, order[j])
          {
            if j > 0 {
              assert order[j] == order[1..][j - 1];
            }
          }
        }
        f
      else f
  }

  /** No two categories share a keyword. */
  lemma NamesDistinct(c: Category)
    ensures forall d :: Name(d) == Name(c) ==> d == c
  {
  }

  /** The names of the categories of `cats` that are `given`, in the order of `cats`. */
  function NamesOf(cats: seq<Category>, given: set<Category>): (ns: seq<string>)
    ensures forall k :: k in ns <==> exists c :: c in cats && c in given && Name(c) == k
  {
    if cats == [] then []
    else
      var init := NamesOf(cats[..|cats| - 1], given);
      assert forall c :: c in cats <==> c in cats[..|cats| - 1] || c == cats[|cats| - 1];
      init + if cats[|cats| - 1] in given then [Name(cats[|cats| - 1])] else []
  }

  /**
   * `{arg: val for arg, val in locals().items() if isinstance(val, dict)}`:
   * the groups of the given categories, in the order of `cats`.
   */
  function Collect(cats: seq<Category>, m: map<Category, Dict<Value>>): (d: Dict<Dict<Value>>)
    requires NoDuplicates(cats)
    ensures d.Valid() && d.keys == NamesOf(cats, m.Keys)
    ensures forall c :: c in cats && c in m ==> Name(c) in d.entries && d.entries[Name(c)] == m[c]
  {
    if cats == [] then Empty()
    else
      var last := cats[|cats| - 1];
      var init := Collect(cats[..|cats| - 1], m);
      assert Name(last) !in init.entries by {
        assert last !in cats[..|cats| - 1];
        NamesDistinct(last);
      }
      assert forall c :: c in cats ==> c in cats[..|cats| - 1] || c == last;
      if last in m then init.Put(Name(last), m[last]) else init
  }

  /**
   * `_clean(**groups)`: the groups cleaned in cleaning order, failing with
   * the first error; the result holds the given groups in declaration order.
   */
  function Cleaned(season: Value, groups: RawGroups, draw: nat): (r: Result<Dict<Dict<Value>>>)
    requires GroupsValid(groups)
  {
    var outcomes := GroupOutcomes(groups, season, draw);
    var failure := FirstFailure(CleaningOrder, outcomes);
    if failure.Some? then Err(failure.value)
    else
      assert forall c :: c in outcomes ==> outcomes[c].Ok? by {
        forall c | c in outcomes
          ensures outcomes[c].Ok?
        {
          assert OutcomeOk(outcomes, CleaningOrder[CleaningIndex(c)]);
        }
      }
      Ok(Collect(Declared, map c | c in outcomes :: outcomes[c].value))
  }

  function CleaningIndex(c: Category): (i: nat)
    ensures i < |CleaningOrder| && CleaningOrder[i] == c
  {
    match c
    case Player => 0
    case PlayerInfo => 1
    case Stats => 2
    case Contract => 3
    case Attributes => 4
    case Ca => 5
  }

  /** A category's outcome is fine exactly when its group is absent, empty or cleans. */
  lemma OutcomeMeaning(season: Value, groups: RawGroups, draw: nat)
    requires GroupsValid(groups)
    ensures forall c :: OutcomeOk(GroupOutcomes(groups, season, draw), c) <==> CleansOk(c, groups, season, draw)
    ensures forall c :: CleansOk(c, groups, season, draw) <==>
      (c in groups && groups[c].keys != [] ==> CleanedAs(c, groups[c], season, draw).Ok?)
  {
  }

  /** `_clean` succeeds exactly when every given, non-empty group cleans. */
  lemma CleanedOk(season: Value, groups: RawGroups, draw: nat)
    requires GroupsValid(groups)
    ensures Cleaned(season, groups, draw).Ok? <==>
      forall c :: c in groups && groups[c].keys != [] ==> CleanedAs(c, groups[c], season, draw).Ok?
  {
    OutcomeMeaning(season, groups, draw);
    var outcomes := GroupOutcomes(groups, season, draw);
    if FirstFailure(CleaningOrder, outcomes).None? {
      forall c | c in groups
        ensures CleansOk(c, groups, season, draw)
      {
        assert OutcomeOk(outcomes, CleaningOrder[CleaningIndex(c)]);
      }
    }
  }

  /**
   * A failing `_clean` fails with the error of the first given, non-empty
   * group in cleaning order that does not clean.
   */
  lemma CleanedFailure(season: Value, groups: RawGroups, draw: nat)
    requires GroupsValid(groups)
    ensures var r := Cleaned(season, groups, draw);
      r.Err? ==> exists i :: (
        && 0 <= i < |CleaningOrder| && CleaningOrder[i] in groups
        && groups[CleaningOrder[i]].keys != []
        && CleanedAs(CleaningOrder[i], groups[CleaningOrder[i]], season, draw) == Err(r.error)
        && forall j :: 0 <= j < i ==> CleansOk(CleaningOrder[j], groups, season, draw))
  {
    OutcomeMeaning(season, groups, draw);
  }

  /**
   * A successful `_clean` holds every given group under its keyword, in
   * declaration order, cleaned (the player group stamped with the season)
   * or, when empty, as it came.
   */
  lemma CleanedContents(season: Value, groups: RawGroups, draw: nat)
    requires GroupsValid(groups)
    ensures var r := Cleaned(season, groups, draw);
      r.Ok? ==>
        && (forall c :: c in groups && groups[c].keys != [] ==> CleanedAs(c, groups[c], season, draw).Ok?)
        && r.value.Valid()
        && r.value.keys == NamesOf(Declared, groups.Keys)
        && forall c :: c in groups ==> (
          && Name(c) in r.value.entries
          && r.value.entries[Name(c)] == if groups[c].keys == [] then Lift(groups[c]) else CleanedAs(c, groups[c], season, draw).value)
  {
    CleanedOk(season, groups, draw);
    var outcomes := GroupOutcomes(groups, season, draw);
    if FirstFailure(CleaningOrder, outcomes).None? {
      forall c | c in groups
        ensures outcomes[c].Ok?
      {
        assert OutcomeOk(outcomes, CleaningOrder[CleaningIndex(c)]);
      }
      var m := map c | c in outcomes :: outcomes[c].value;
      assert m.Keys == groups.Keys;
      forall c | c in groups
        ensures c in Declared
      {
        assert Declared[DeclaredIndex(c)] == c;
      }
    }
  }

  function DeclaredIndex(c: Category): (i: nat)
    ensures i < |Declared| && Declared[i] == c
  {
    match c
    case Player => 0
    case PlayerInfo => 1
    case Stats => 2
    case Attributes => 3
    case Contract => 4
    case Ca => 5
  }

  /** The column range `from_rtf_file` cuts a category's group from. */
  function RangeOf(ranges: Ranges, c: Category): Range
  {
    match c
    case Player => ranges.player
    case PlayerInfo => ranges.info
    case Stats => ranges.stats
    case Attributes => ranges.attributes
    case Contract => ranges.contract
    case Ca => ranges.ca
  }

  /**
   * The six groups of a player line, every category over its own range:
   * `_format_tables(headers, line, range)` with the header aliases `aliases`.
   */
  function RowGroups(aliases: map<string, string>, headers: seq<string>, line: string, ranges: Ranges): (g: RawGroups)
    ensures GroupsValid(g)
    ensures forall c :: c in g && g[c] == FormatTable(aliases, headers, RowCells(line), RangeOf(ranges, c))
  {
    var cells := RowCells(line);
    assert forall c :: c in Declared by {
      forall c
        ensures c in Declared
      {
        assert Declared[DeclaredIndex(c)] == c;
      }
    }
    map c | c in Declared :: FormatTable(aliases, headers, cells, RangeOf(ranges, c))
  }

  /** The cleaning of the `i`-th player row of a pass, from its line. */
  type LineCleaner = (string, nat) -> Result<Dict<Dict<Value>>>

  /**
   * The cleaning `from_rtf_file` applies: the line cut into its six groups
   * with the header aliases `aliases` and cleaned by `_clean`, the `i`-th
   * player row drawing `draws(i)` for its asking price.
   */
  function CleanLine(season: Value, aliases: map<string, string>, headers: seq<string>, ranges: Ranges, draws: nat -> nat): LineCleaner
  {
    (line: string, i: nat) => Cleaned(season, RowGroups(aliases, headers, line, ranges), draws(i))
  }

  /**
   * The pass of `from_rtf_file` over the body lines: every player line is
   * cleaned by `clean`. The rows yielded, and the error that ends the pass
   * early, if any.
   */
  function ReadRows(clean: LineCleaner, body: seq<string>): (r: (seq<Dict<Dict<Value>>>, Option<Error>))
    decreases |body|
  {
    if body == [] then ([], None)
    else ReadStep(clean, ReadRows(clean, body[..|body| - 1]), body[|body| - 1])
  }

  /** One iteration of the pass: the next line inspected and, if it is a player line, cleaned. */
  function ReadStep(clean: LineCleaner, sofar: (seq<Dict<Dict<Value>>>, Option<Error>), line: string): (seq<Dict<Dict<Value>>>, Option<Error>)
  {
    var (rows, failure) := sofar;
    if failure.Some? then sofar
    else
      match IsDataLine(line)
      case Err(e) => (rows, Some(e))
      case Ok(keep) =>
        if !keep then (rows, None)
        else
          match clean(line, |rows|)
          case Err(e) => (rows, Some(e))
          case Ok(groups) => (rows + [groups], None)
  }

  /** Once the pass has stopped, later lines change nothing. */
  lemma {:induction false} ReadRowsStopped(clean: LineCleaner, body: seq<string>, i: nat)
    requires i <= |body| && ReadRows(clean, body[..i]).1.Some?
    ensures ReadRows(clean, body) == ReadRows(clean, body[..i])
    decreases |body|
  {
    if i < |body| {
      assert body[..|body| - 1][..i] == body[..i];
      ReadRowsStopped(clean, body[..|body| - 1], i);
    } else {
      assert body[..i] == body;
    }
  }

  /**
   * How the pass relates to the lines `SelectLines` keeps: row `j` is the
   * cleaning of kept line `j`; a pass that runs to the end has cleaned
   * every kept line and met no line too short to inspect; a pass that stops
   * early either failed on the kept line right after its last row, with
   * that line's cleaning error, or cleaned every kept line and then met a
   * line too short to inspect, with its `IndexError`.
   */
  ghost predicate RowsOfLines(clean: LineCleaner, rows: seq<Dict<Dict<Value>>>, failure: Option<Error>, lines: seq<string>, stop: Option<Error>)
  {
    && |rows| <= |lines|
    && (forall j :: 0 <= j < |rows| ==> clean(lines[j], j) == Ok(rows[j]))
    && (failure.None? ==> |rows| == |lines| && stop.None?)
    && (failure.Some? && stop.None? ==> |rows| < |lines| && clean(lines[|rows|], |rows|) == Err(failure.value))
    && (failure.Some? && stop.Some? ==>
          || (|rows| < |lines| && clean(lines[|rows|], |rows|) == Err(failure.value))
          || (|rows| == |lines| && failure == stop))
  }

  /** The pass over `body` relates to `SelectLines(body)` as `RowsOfLines` says. */
  lemma {:induction false} ReadRowsSelected(clean: LineCleaner, body: seq<string>)
    ensures var (rows, failure) := ReadRows(clean, body);
      var (lines, stop) := SelectLines(body);
      RowsOfLines(clean, rows, failure, lines, stop)
    decreases |body|
  {
    if body != [] {
      var init, line := body[..|body| - 1], body[|body| - 1];
      ReadRowsSelected(clean, init);
      var (rows, failure) := ReadRows(clean, init);
      var (lines, stop) := SelectLines(init);
      RowsOfLinesStep(clean, rows, failure, lines, stop, line);
    }
  }

  /** `RowsOfLines` survives one more line, passed to both the pass and `SelectLines`. */
  lemma RowsOfLinesStep(clean: LineCleaner, rows: seq<Dict<Dict<Value>>>, failure: Option<Error>, lines: seq<string>, stop: Option<Error>, line: string)
    requires RowsOfLines(clean, rows, failure, lines, stop)
    ensures var (rows', failure') := ReadStep(clean, (rows, failure), line);
      var (lines', stop') := SelectStep((lines, stop), line);
      RowsOfLines(clean, rows', failure', lines', stop')
  {
    if IsDataLine(line) == Ok(true) && stop.None? {
      var lines' := lines + [line];
      assert SelectStep((lines, stop), line) == (lines', None);
      assert forall j :: 0 <= j < |lines| ==> lines'[j] == lines[j];
      if failure.None? {
        assert lines'[|rows|] == line;
        var cleaned := clean(line, |rows|);
        if cleaned.Ok? {
          var rows' := rows + [cleaned.value];
          assert ReadStep(clean, (rows, failure), line) == (rows', None);
          assert forall j :: 0 <= j < |rows| ==> rows'[j] == rows[j];
        }
      }
    }
  }

  /**
   * The pass runs to the end exactly when no line is too short to inspect and
   * every kept line cleans; it then yields one row per kept line.
   */
  lemma ReadRowsComplete(clean: LineCleaner, body: seq<string>)
    ensures var (rows, failure) := ReadRows(clean, body);
      var (lines, stop) := SelectLines(body);
      && (failure.None? <==> stop.None? && forall j :: 0 <= j < |lines| ==> clean(lines[j], j).Ok?)
      && (failure.None? ==> |rows| == |lines|)
  {
    ReadRowsSelected(clean, body);
  }
}
