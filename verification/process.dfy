/**
 * `Process` (process_data.py), the older pipeline: every player line of the
 * export gets the next id of a counter starting at 0, and its six groups
 * are cleaned, tagged with that id and stored under it, a group with a
 * position list once per position.
 */
module ProcessData {
  import opened Outcomes
  import opened Dicts
  import opened PositionNotation
  import opened Export
  import opened Cleaning

  /** `table_names` of `add_data`, in the order the groups are passed. */
  const TableNames: seq<string> := ["Player", "playerInfo", "stats", "attributes", "contract", "ca"]

  /** The tables `_clean` tags with the line's id under `_playerID`. */
  const PlayerTagged: set<string> := {"ca", "contract", "playerInfo", "nat_team", "stats", "attributes"}

  /** The key `_clean` writes the line's id under: `_id` for the player group, `_playerID` for the others it knows. */
  function TagKey(name: string): Option<string>
  {
    if name == "Player" then Some("_id")
    else if name in PlayerTagged then Some("_playerID")
    else None
  }

  /** The branch of `_clean` for table `name`, before the id tag. */
  function CleanedBranch(g: Dict<string>, name: string, draw: nat): (r: Result<Dict<Value>>)
    requires g.Valid()
    ensures r.Ok? ==> r.value.Valid()
  {
    if name == "ca" then CaCleaned(g)
    else if name == "contract" then ContractCleaned(g, draw)
    else if name == "playerInfo" then InfoCleaned(g)
    else if name == "nat_team" then NatTeamCleaned(g)
    else if name == "stats" then StatsCleaned(g)
    else if name == "attributes" then AttributesCleaned(g)
    else Ok(Lift(g))
  }

  /** `_clean(group, group_name, id)`: the table's branch, then the id tag. */
  function ProcessCleaned(g: Dict<string>, name: string, id: int, draw: nat): (r: Result<Dict<Value>>)
    requires g.Valid()
    ensures r.Ok? ==> r.value.Valid()
  {
    var cleaned :- CleanedBranch(g, name, draw);
    match TagKey(name)
    case None => Ok(cleaned)
    case Some(key) => Ok(Tagged(cleaned, key, id))
  }

  /**
   * The player group gets `_id = id`, the six other tables `_clean` knows
   * get `_playerID = id`, each after its branch's cleaning; a table it does
   * not know is kept as it came.
   */
  lemma ProcessCleanedTags(g: Dict<string>, name: string, id: int, draw: nat)
    requires g.Valid()
    ensures ProcessCleaned(g, name, id, draw).Ok? <==> CleanedBranch(g, name, draw).Ok?
    ensures name == "Player" ==> ProcessCleaned(g, name, id, draw) == Ok(Tagged(Lift(g), "_id", id))
    ensures name in PlayerTagged && CleanedBranch(g, name, draw).Ok? ==>
      var r := ProcessCleaned(g, name, id, draw).value;
      && r.entries["_playerID"] == Int(id)
      && forall k :: k in CleanedBranch(g, name, draw).value.entries && k != "_playerID" ==>
           k in r.entries && r.entries[k] == CleanedBranch(g, name, draw).value.entries[k]
    ensures name != "Player" && name !in PlayerTagged ==> ProcessCleaned(g, name, id, draw) == Ok(Lift(g))
  {
  }

  /** Python truthiness of a stored value. */
  predicate Truthy(v: Value)
  {
    match v
    case Text(s) => s != ""
    case Int(i) => i != 0
    case Float(f) => f != 0.0
    case IntList(xs) => xs != []
    case TextList(ts) => ts != []
    case NoneValue => false
  }

  /**
   * What `add_data` stores for a cleaned group: the copies of
   * `_breakout_positions` when its `position` is truthy, else the group
   * itself.
   */
  function Entries(cleaned: Dict<Value>): (r: Result<seq<Dict<Value>>>)
    requires cleaned.Valid()
  {
    if "position" in cleaned.entries && Truthy(cleaned.entries["position"]) then BrokenOut(cleaned)
    else Ok([cleaned])
  }

  /**
   * A group without a truthy position is stored once, as it is; a group
   * with a non-empty position list is stored once per position, in order,
   * each copy holding one of them and the group's other cells; a truthy
   * position that is a number is a TypeError.
   */
  lemma EntriesMeaning(cleaned: Dict<Value>)
    requires cleaned.Valid()
    ensures !("position" in cleaned.entries && Truthy(cleaned.entries["position"])) ==> Entries(cleaned) == Ok([cleaned])
    ensures "position" in cleaned.entries && Truthy(cleaned.entries["position"]) ==>
      var p := cleaned.entries["position"];
      && (Entries(cleaned).Ok? <==> !p.Int? && !p.Float?)
      && (Entries(cleaned).Ok? ==>
           var copies := Entries(cleaned).value;
           && 0 < |copies| == |Elements(p).value|
           && forall i :: 0 <= i < |copies| ==>
                && copies[i].keys == cleaned.keys
                && copies[i].entries == cleaned.entries["position" := Elements(p).value[i]])
  {
  }

  /** `self.data`: per id, per table name, the groups stored. */
  type Store = map<int, map<string, seq<Dict<Value>>>>

  /** `self.data[id][name].extend(items)` on the nested defaultdict. */
  function Appended(data: Store, id: int, name: string, items: seq<Dict<Value>>): Store
  {
    var tables := if id in data then data[id] else map[];
    var stored := if name in tables then tables[name] else [];
    data[id := tables[name := stored + items]]
  }

  /**
   * Extending creates the id and the table when they are missing, adds the
   * items after what the table held, and leaves every other id and every
   * other table of the id as it was.
   */
  lemma AppendedMeaning(data: Store, id: int, name: string, items: seq<Dict<Value>>)
    ensures var d := Appended(data, id, name, items);
      && d.Keys == data.Keys + {id}
      && (forall i :: i in data && i != id ==> d[i] == data[i])
      && d[id].Keys == (if id in data then data[id].Keys else {}) + {name}
      && d[id][name] == (if id in data && name in data[id] then data[id][name] else []) + items
      && forall n :: id in data && n in data[id] && n != name ==> d[id][n] == data[id][n]
  {
  }

  /** What one group of `add_data` comes to: the entries to store, or the error it raises. */
  type StepResult = Result<seq<Dict<Value>>>

  /** The results of the pairs of `zip(groups, table_names)`, one per pair. */
  type Steps = s: seq<StepResult> | |s| <= 6

  /** The results of the six groups of a player line. */
  type LineResults = s: seq<StepResult> | |s| == 6 witness seq(6, _ => Ok([]))

  /** One group of `add_data`: cleaned by `_clean`, then broken out if it has positions. */
  function StepOf(g: Dict<string>, name: string, id: int, draw: nat): StepResult
    requires g.Valid()
  {
    var cleaned :- ProcessCleaned(g, name, id, draw);
    Entries(cleaned)
  }

  /** The pairs of `zip(groups, table_names)`: as many as the shorter of the two. */
  function Zipped(groups: seq<Dict<string>>): (n: nat)
    ensures n <= |groups| && n <= |TableNames|
  {
    if |groups| < |TableNames| then |groups| else |TableNames|
  }

  /** The results of the first `n` pairs of `zip(groups, table_names)`, in order. */
  function StepResults(groups: seq<Dict<string>>, id: int, draw: nat, n: nat): (s: Steps)
    requires n <= Zipped(groups) && forall i :: 0 <= i < |groups| ==> groups[i].Valid()
    ensures |s| == n
  {
    seq(n, i requires 0 <= i < n => StepOf(groups[i], TableNames[i], id, draw))
  }

  /**
   * `add_data` over the first `n` pairs, whose results are `steps`: each
   * pair's entries appended under its table name and `id`, stopping at the
   * first error.
   */
  function AddedAll(data: Store, id: int, steps: Steps, n: nat): (Store, Option<Error>)
    requires n <= |steps|
  {
    if n == 0 then (data, None)
    else
      var (sofar, failure) := AddedAll(data, id, steps, n - 1);
      if failure.Some? then (sofar, failure)
      else
        match steps[n - 1]
        case Err(e) => (sofar, Some(e))
        case Ok(items) => (Appended(sofar, id, TableNames[n - 1], items), None)
  }

  /** `add_data` touches no id other than its own. */
  lemma {:induction false} AddedAllOthers(data: Store, id: int, steps: Steps, n: nat)
    requires n <= |steps|
    ensures var (d, _) := AddedAll(data, id, steps, n);
      && d.Keys <= data.Keys + {id}
      && forall i :: i in data && i != id ==> i in d && d[i] == data[i]
  {
    if n > 0 {
      AddedAllOthers(data, id, steps, n - 1);
      var (d, failure) := AddedAll(data, id, steps, n - 1);
      if failure.None? && steps[n - 1].Ok? {
        AppendedMeaning(d, id, TableNames[n - 1], steps[n - 1].value);
      }
    }
  }

  /** The first of the first `n` results that is an error, or `n` when none is. */
  function FirstFailing(steps: Steps, n: nat): (k: nat)
    requires n <= |steps|
    ensures k <= n
    ensures forall j :: 0 <= j < k ==> steps[j].Ok?
    ensures k < n ==> steps[k].Err?
  {
    if n == 0 then 0
    else if FirstFailing(steps, n - 1) < n - 1 then FirstFailing(steps, n - 1)
    else if steps[n - 1].Err? then n - 1
    else n
  }

  /** `add_data` fails exactly when a pair does, with the error of the first pair that does. */
  lemma {:induction false} AddedAllFailure(data: Store, id: int, steps: Steps, n: nat)
    requires n <= |steps|
    ensures var k := FirstFailing(steps, n);
      AddedAll(data, id, steps, n).1 == if k < n then Some(steps[k].error) else None
  {
    if n > 0 {
      AddedAllFailure(data, id, steps, n - 1);
    }
  }

  /**
   * `add_data` under a fresh id that succeeds holds, under that id,
   * exactly the tables of the pairs, each with what its group stores.
   */
  lemma {:induction false} AddedAllFresh(data: Store, id: int, steps: Steps, n: nat)
    requires n <= |steps| && id !in data
    ensures var (d, failure) := AddedAll(data, id, steps, n);
      failure.None? && n > 0 ==>
        && id in d
        && d[id].Keys == (set i | 0 <= i < n :: TableNames[i])
        && forall i :: 0 <= i < n ==> steps[i].Ok? && d[id][TableNames[i]] == steps[i].value
  {
    AddedAllFailure(data, id, steps, n);
    if n > 0 {
      AddedAllFresh(data, id, steps, n - 1);
      var (d, failure) := AddedAll(data, id, steps, n - 1);
      var name := TableNames[n - 1];
      TableNamesDistinct();
      if failure.None? && steps[n - 1].Ok? {
        var d' := AddedAll(data, id, steps, n).0;
        assert d' == Appended(d, id, name, steps[n - 1].value);
        AppendedMeaning(d, id, name, steps[n - 1].value);
        if n - 1 == 0 {
          assert id !in d;
        } else {
          assert name !in d[id];
        }
        PrefixElementsStep(TableNames, n);
        forall i | 0 <= i < n
          ensures d'[id][TableNames[i]] == steps[i].value
        {
          if i < n - 1 {
            assert TableNames[i] != name;
          }
        }
      }
    }
  }

  /** No two pairs of `zip(groups, table_names)` share a table name. */
  lemma TableNamesDistinct()
    ensures NoDuplicates(TableNames)
  {
  }

  /** The first `n` elements of `xs` as a set, one at a time. */
  lemma PrefixElementsStep<T>(xs: seq<T>, n: nat)
    requires 0 < n <= |xs|
    ensures (set i | 0 <= i < n :: xs[i]) == (set i | 0 <= i < n - 1 :: xs[i]) + {xs[n - 1]}
  {
  }

  /** The column range of the `i`-th group `__call__` passes to `add_data`. */
  function TableRange(ranges: Ranges, i: nat): Range
  {
    if i == 0 then ranges.player
    else if i == 1 then ranges.info
    else if i == 2 then ranges.stats
    else if i == 3 then ranges.attributes
    else if i == 4 then ranges.contract
    else ranges.ca
  }

  /** The six groups `__call__` cuts a player line into, in `add_data`'s order. */
  function LineGroups(headers: seq<string>, line: string, ranges: Ranges): (gs: seq<Dict<string>>)
    ensures |gs| == |TableNames| && forall i :: 0 <= i < |gs| ==> gs[i].Valid()
  {
    var cells := RowCells(line);
    seq(|TableNames|, i requires 0 <= i < |TableNames| => FormatTable(ProcessAliases, headers, cells, TableRange(ranges, i)))
  }

  /** The results of the groups of a line under an id. */
  type LineCleaner = (string, nat) -> LineResults

  /** `__call__`'s cleaning of a line: its six groups added under `id`, drawing `draws(id)` for the asking price. */
  function CleanLine(headers: seq<string>, ranges: Ranges, draws: nat -> nat): LineCleaner
  {
    (line: string, id: nat) =>
      var groups := LineGroups(headers, line, ranges);
      StepResults(groups, id, draws(id), Zipped(groups))
  }

  /** The state of a pass: the store, the next id, and the error that stopped the pass, if any. */
  type PassState = (Store, nat, Option<Error>)

  /**
   * One line of the pass of `__call__`: a player line takes the next id
   * (`next(self.id)`, taken before `add_data` runs) and is added under it;
   * a line too short to inspect stops the pass.
   */
  function PassStep(state: PassState, clean: LineCleaner, line: string): PassState
  {
    var (data, next, failure) := state;
    if failure.Some? then state
    else
      match IsDataLine(line)
      case Err(e) => (data, next, Some(e))
      case Ok(keep) =>
        if !keep then state
        else
          var steps := clean(line, next);
          var (stored, f) := AddedAll(data, next, steps, |steps|);
          (stored, next + 1, f)
  }

  /** The pass of `__call__` over the body lines, from `state`. */
  function Pass(state: PassState, clean: LineCleaner, body: seq<string>): PassState
    decreases |body|
  {
    if body == [] then state
    else PassStep(Pass(state, clean, body[..|body| - 1]), clean, body[|body| - 1])
  }

  /** Every id in the store was handed out before `next`. */
  ghost predicate IdsBelow(data: Store, next: nat)
  {
    forall i :: i in data ==> 0 <= i < next
  }

  /**
   * A pass from a store whose ids are all below the counter hands out one
   * id per player line it reaches, counting up, and stores only under
   * those: every earlier id keeps its groups. A pass that runs to the end
   * has taken one id per player line, and the new ids in the store are
   * exactly the ids it took.
   */
  lemma {:induction false} PassIds(state: PassState, clean: LineCleaner, body: seq<string>)
    requires state.2.None? && IdsBelow(state.0, state.1)
    ensures var (data, next, failure) := Pass(state, clean, body);
      && state.1 <= next
      && IdsBelow(data, next)
      && (forall i :: i in state.0 ==> i in data && data[i] == state.0[i])
      && (failure.None? ==>
           && SelectLines(body).1.None?
           && next == state.1 + |SelectLines(body).0|
           && forall i :: state.1 <= i < next <==> i in data && i !in state.0)
    decreases |body|
  {
    if body != [] {
      var init, line := body[..|body| - 1], body[|body| - 1];
      PassIds(state, clean, init);
      var (data, next, failure) := Pass(state, clean, init);
      if failure.None? && IsDataLine(line) == Ok(true) {
        var steps := clean(line, next);
        AddedAllOthers(data, next, steps, |steps|);
        AddedAllFresh(data, next, steps, |steps|);
      }
    }
  }

  /** `Process()`, and its `__call__` over the lines of an export. */
  class Process {
    /** `self.data`: per id, per table name, the groups stored. */
    var data: Store
    /** The id `next(self.id)` hands out next. */
    var nextId: nat

    /** `Process()`: no data, ids counting from 0. */
    constructor ()
      ensures data == map[] && nextId == 0
    {
      data := map[];
      nextId := 0;
    }

    /** `add_data(*groups, id=id)`: each group cleaned and stored under `id`, stopping at the first error. */
    method AddData(groups: seq<Dict<string>>, id: int, draw: nat) returns (failure: Option<Error>)
      requires forall i :: 0 <= i < |groups| ==> groups[i].Valid()
      modifies this
      ensures (data, failure) == AddedAll(old(data), id, StepResults(groups, id, draw, Zipped(groups)), Zipped(groups))
      ensures nextId == old(nextId)
    {
      ghost var start := data;
      var n := Zipped(groups);
      ghost var steps := StepResults(groups, id, draw, n);
      var i := 0;
      while i < n
        invariant i <= n
        invariant AddedAll(start, id, steps, i) == (data, None)
        invariant nextId == old(nextId)
      {
        failure := AddGroup(groups, i, id, draw, start, steps);
        if failure.Some? {
          return;
        }
        i := i + 1;
      }
      failure := None;
    }

    /** The `i`-th group of `add_data`'s loop: cleaned, then appended under its table name, or the error it raises. */
    method AddGroup(groups: seq<Dict<string>>, i: nat, id: int, draw: nat, ghost start: Store, ghost steps: Steps)
      returns (failure: Option<Error>)
      requires forall i :: 0 <= i < |groups| ==> groups[i].Valid()
      requires i < Zipped(groups) && steps == StepResults(groups, id, draw, Zipped(groups))
      requires AddedAll(start, id, steps, i) == (data, None)
      modifies this
      ensures failure.None? ==> AddedAll(start, id, steps, i + 1) == (data, None)
      ensures failure.Some? ==> AddedAll(start, id, steps, |steps|) == (data, failure)
      ensures nextId == old(nextId)
    {
      var step := CleanGroup(groups[i], TableNames[i], id, draw);
      assert step == steps[i];
      if step.Err? {
        AddedFails(start, id, steps, i, |steps|);
        return Some(step.error);
      }
      data := Appended(data, id, TableNames[i], step.value);
      failure := None;
    }

    /** One group of `add_data`'s loop: `_clean`, then `_breakout_positions` if it has positions. */
    method CleanGroup(g: Dict<string>, name: string, id: int, draw: nat) returns (step: StepResult)
      requires g.Valid()
      ensures step == StepOf(g, name, id, draw)
    {
      var cleaned := ProcessCleaned(g, name, id, draw);
      if cleaned.Err? {
        return Err(cleaned.error);
      }
      step := Entries(cleaned.value);
    }

    /**
     * `__call__` over the lines of an export: the header cells from the
     * ninth line, then every player line of the body added under the next
     * id, the `id`-th drawing `draws(id)` for its asking price.
     */
    method Call(lines: seq<string>, ranges: Ranges, draws: nat -> nat) returns (failure: Option<Error>)
      modifies this
      ensures (data, nextId, failure) == Pass((old(data), old(nextId), None), CleanLine(HeaderCells(HeaderLine(lines)), ranges, draws), BodyLines(lines))
    {
      var headers := HeaderCells(HeaderLine(lines));
      failure := AddLines(BodyLines(lines), headers, ranges, draws, CleanLine(headers, ranges, draws));
    }

    /** The loop of `__call__` over the body lines, with `clean` standing for its cleaning of a line. */
    method AddLines(body: seq<string>, headers: seq<string>, ranges: Ranges, draws: nat -> nat, ghost clean: LineCleaner)
      returns (failure: Option<Error>)
      modifies this
      requires forall line: string, id: nat {:trigger LineGroups(headers, line, ranges), draws(id)} ::
        var groups := LineGroups(headers, line, ranges);
        clean(line, id) == StepResults(groups, id, draws(id), Zipped(groups))
      ensures (data, nextId, failure) == Pass((old(data), old(nextId), None), clean, body)
    {
      ghost var start: PassState := (data, nextId, None);
      var i := 0;
      while i < |body|
        invariant i <= |body|
        invariant Pass(start, clean, body[..i]) == (data, nextId, None)
      {
        failure := AddLine(body, i, headers, ranges, draws, start, clean);
        if failure.Some? {
          return;
        }
        i := i + 1;
      }
      assert body[..i] == body;
      failure := None;
    }

    /** One body line of `__call__`'s loop; an error ends the whole pass. */
    method AddLine(body: seq<string>, i: nat, headers: seq<string>, ranges: Ranges, draws: nat -> nat,
                   ghost start: PassState, ghost clean: LineCleaner)
      returns (failure: Option<Error>)
      modifies this
      requires i < |body| && Pass(start, clean, body[..i]) == (data, nextId, None)
      requires forall line: string, id: nat {:trigger LineGroups(headers, line, ranges), draws(id)} ::
        var groups := LineGroups(headers, line, ranges);
        clean(line, id) == StepResults(groups, id, draws(id), Zipped(groups))
      ensures failure.None? ==> Pass(start, clean, body[..i + 1]) == (data, nextId, None)
      ensures failure.Some? ==> Pass(start, clean, body) == (data, nextId, failure)
    {
      var line := body[i];
      var kept := IsDataLine(line);
      if kept.Err? {
        PassLineStops(start, clean, body, i, data, nextId);
        return Some(kept.error);
      }
      if !kept.value {
        PassLineSkips(start, clean, body, i, data, nextId);
        return None;
      }
      failure := AddPlayer(body, i, headers, ranges, draws, start, clean);
    }

    /** A player line of `__call__`'s loop: its groups added under the next id. */
    method AddPlayer(body: seq<string>, i: nat, headers: seq<string>, ranges: Ranges, draws: nat -> nat,
                     ghost start: PassState, ghost clean: LineCleaner)
      returns (failure: Option<Error>)
      modifies this
      requires i < |body| && Pass(start, clean, body[..i]) == (data, nextId, None) && IsDataLine(body[i]) == Ok(true)
      requires forall line: string, id: nat {:trigger LineGroups(headers, line, ranges), draws(id)} ::
        var groups := LineGroups(headers, line, ranges);
        clean(line, id) == StepResults(groups, id, draws(id), Zipped(groups))
      ensures failure.None? ==> Pass(start, clean, body[..i + 1]) == (data, nextId, None)
      ensures failure.Some? ==> Pass(start, clean, body) == (data, nextId, failure)
    {
      var id := nextId;
      var groups := LineGroups(headers, body[i], ranges);
      ghost var stored := data;
      nextId := nextId + 1;
      failure := AddData(groups, id, draws(id));
      ghost var steps := clean(body[i], id);
      assert steps == StepResults(groups, id, draws(id), Zipped(groups));
      assert Zipped(groups) == |steps|;
      PassLineAdds(start, clean, body, i, stored, id);
      if failure.Some? {
        PassStopped(start, clean, body, i + 1);
      }
    }
  }

  /** A player line met while the pass runs takes the next id and is added under it. */
  lemma PassLineAdds(start: PassState, clean: LineCleaner, body: seq<string>, i: nat, data: Store, next: nat)
    requires i < |body| && Pass(start, clean, body[..i]) == (data, next, None) && IsDataLine(body[i]) == Ok(true)
    ensures var steps := clean(body[i], next);
      var added := AddedAll(data, next, steps, |steps|);
      Pass(start, clean, body[..i + 1]) == (added.0, next + 1, added.1)
  {
    assert body[..i + 1][..i] == body[..i];
  }

  /** Any other line that can be inspected is passed over. */
  lemma PassLineSkips(start: PassState, clean: LineCleaner, body: seq<string>, i: nat, data: Store, next: nat)
    requires i < |body| && Pass(start, clean, body[..i]) == (data, next, None) && IsDataLine(body[i]) == Ok(false)
    ensures Pass(start, clean, body[..i + 1]) == (data, next, None)
  {
    assert body[..i + 1][..i] == body[..i];
  }

  /** A line too short to inspect stops the pass with its error, whatever follows. */
  lemma PassLineStops(start: PassState, clean: LineCleaner, body: seq<string>, i: nat, data: Store, next: nat)
    requires i < |body| && Pass(start, clean, body[..i]) == (data, next, None) && IsDataLine(body[i]).Err?
    ensures Pass(start, clean, body) == (data, next, Some(IsDataLine(body[i]).error))
  {
    assert body[..i + 1][..i] == body[..i];
    PassStopped(start, clean, body, i + 1);
  }

  /** A pair that fails after the earlier ones stored ends `add_data` with its error. */
  lemma AddedFails(data: Store, id: int, steps: Steps, i: nat, n: nat)
    requires i < n <= |steps| && AddedAll(data, id, steps, i).1.None? && steps[i].Err?
    ensures AddedAll(data, id, steps, n) == (AddedAll(data, id, steps, i).0, Some(steps[i].error))
  {
    AddedStopped(data, id, steps, i + 1, n);
  }

  /** Once `add_data` has failed, later pairs change nothing. */
  lemma {:induction false} AddedStopped(data: Store, id: int, steps: Steps, i: nat, n: nat)
    requires i <= n <= |steps| && AddedAll(data, id, steps, i).1.Some?
    ensures AddedAll(data, id, steps, n) == AddedAll(data, id, steps, i)
    decreases n
  {
    if i < n {
      AddedStopped(data, id, steps, i, n - 1);
    }
  }

  /** Once the pass has stopped, later lines change nothing. */
  lemma {:induction false} PassStopped(state: PassState, clean: LineCleaner, body: seq<string>, i: nat)
    requires i <= |body| && Pass(state, clean, body[..i]).2.Some?
    ensures Pass(state, clean, body) == Pass(state, clean, body[..i])
    decreases |body|
  {
    if i < |body| {
      assert body[..|body| - 1][..i] == body[..i];
      PassStopped(state, clean, body[..|body| - 1], i);
    } else {
      assert body[..i] == body;
    }
  }
}
