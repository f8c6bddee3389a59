/**
 * `Preprocess` (preprocess_data.py): reads the player export line by line
 * into cleaned groups, then, per player, encodes the profile group against
 * run-scoped lookup tables and fans it out into one group per position.
 */
module Preprocessing {
  import opened Outcomes
  import opened Strings
  import opened Dicts
  import opened PositionNotation
  import opened Export
  import opened Fields
  import opened Cleaning
  import opened Interning
  import opened Encoding
  import opened PlayerRows

  /** A group of the call's result: kept as it came, or fanned out into copies. */
  datatype Group = Single(table: Dict<Value>) | Copies(tables: seq<Dict<Value>>)

  /** The groups of a call, each kept as it came. */
  function AsGroups(tables: Dict<Dict<Value>>): (d: Dict<Group>)
    requires tables.Valid()
    ensures d.Valid() && d.keys == tables.keys
    ensures forall n :: n in tables.entries <==> n in d.entries
    ensures forall n :: n in tables.entries ==> d.entries[n] == Single(tables.entries[n])
  {
    OrderedMap(tables.keys, map n | n in tables.entries :: Single(tables.entries[n]))
  }

  /** Each of the three tables holds its values under the ids `offset, offset + 1, ...`. */
  ghost predicate AllDense(ids: Snapshot, next: Tables<int>, offsets: Tables<int>, order: Tables<seq<Value>>)
  {
    && Dense(ids.division, next.division, offsets.division, order.division)
    && Dense(ids.club, next.club, offsets.club, order.club)
    && Dense(ids.nationality, next.nationality, offsets.nationality, order.nationality)
  }

  lemma DenseOf(ids: Snapshot, next: Tables<int>, offsets: Tables<int>, order: Tables<seq<Value>>, name: string)
    requires AllDense(ids, next, offsets, order)
    ensures Dense(ids.Get(name), next.Get(name), offsets.Get(name), order.Get(name))
  {
  }

  /**
   * The run's interning state is consistent: the tables are dense, and the
   * player's record holds, per table, the value interned last.
   */
  ghost predicate Consistent(ids: Snapshot, next: Tables<int>, offsets: Tables<int>, order: Tables<seq<Value>>,
                             ofPlayer: map<string, NewEntry>)
  {
    && AllDense(ids, next, offsets, order)
    && ofPlayer.Keys <= LookupNames
    && (forall name :: name in ofPlayer ==> Latest(ofPlayer[name], ids.Get(name), next.Get(name)))
  }

  /** Interning a new value in one table, and recording it for the player, keeps the state consistent. */
  lemma InternConsistent(ids: Snapshot, next: Tables<int>, offsets: Tables<int>, order: Tables<seq<Value>>,
                         ofPlayer: map<string, NewEntry>, name: string, v: Value)
    requires Consistent(ids, next, offsets, order, ofPlayer) && name in LookupNames && v !in ids.Get(name)
    ensures Consistent(With(ids, name, v, next.Get(name)), next.Set(name, next.Get(name) + 1), offsets,
                       order.Set(name, order.Get(name) + [v]), ofPlayer[name := NewEntry(v, next.Get(name))])
  {
    InternAll(ids, next, offsets, order, name, v);
    RecordInterned(ids, next, ofPlayer, name, v);
  }

  lemma InternAll(ids: Snapshot, next: Tables<int>, offsets: Tables<int>, order: Tables<seq<Value>>, name: string, v: Value)
    requires AllDense(ids, next, offsets, order) && v !in ids.Get(name)
    ensures AllDense(With(ids, name, v, next.Get(name)), next.Set(name, next.Get(name) + 1), offsets, order.Set(name, order.Get(name) + [v]))
  {
    var id := next.Get(name);
    if name == "Division" {
      InternDense(ids.division, id, offsets.division, order.division, v);
    } else if name == "Club" {
      InternDense(ids.club, id, offsets.club, order.club, v);
    } else {
      InternDense(ids.nationality, id, offsets.nationality, order.nationality, v);
    }
  }

  lemma RecordInterned(ids: Snapshot, next: Tables<int>, ofPlayer: map<string, NewEntry>, name: string, v: Value)
    requires ofPlayer.Keys <= LookupNames && name in LookupNames
    requires forall n :: n in ofPlayer ==> Latest(ofPlayer[n], ids.Get(n), next.Get(n))
    ensures var ids', next' := With(ids, name, v, next.Get(name)), next.Set(name, next.Get(name) + 1);
      var of' := ofPlayer[name := NewEntry(v, next.Get(name))];
      forall n :: n in of' ==> Latest(of'[n], ids'.Get(n), next'.Get(n))
  {
    var ids', next' := With(ids, name, v, next.Get(name)), next.Set(name, next.Get(name) + 1);
    var of' := ofPlayer[name := NewEntry(v, next.Get(name))];
    forall n | n in of'
      ensures Latest(of'[n], ids'.Get(n), next'.Get(n))
    {
      if n != name {
        assert ids'.Get(n) == ids.Get(n) && next'.Get(n) == next.Get(n);
      }
    }
  }

  /** The groups of a call, the profile group replaced by its fanned-out copies. */
  function Regrouped(tables: Dict<Dict<Value>>, copies: seq<Dict<Value>>): (d: Dict<Group>)
    requires tables.Valid() && "PlayerInfo" in tables.entries
    ensures d.Valid() && d.keys == tables.keys
    ensures "PlayerInfo" in d.entries && d.entries["PlayerInfo"] == Copies(copies)
    ensures forall n :: n in tables.entries && n != "PlayerInfo" ==> n in d.entries && d.entries[n] == Single(tables.entries[n])
  {
    AsGroups(tables).Put("PlayerInfo", Copies(copies))
  }

  /**
   * The groups and record a call returns after the profile group `info` was
   * encoded and fanned out while the tables went from `was` to `now`: the
   * record follows the tables, the tables gained exactly the profile's
   * lookup values, the profile group is replaced by its copies and every
   * other group is kept as it came.
   */
  ghost predicate ProfileCalled(tables: Dict<Dict<Value>>, groups: Dict<Group>, record: map<string, NewEntry>,
                                was: Snapshot, now: Snapshot, before: map<string, NewEntry>)
    requires tables.Valid() && "PlayerInfo" in tables.entries && tables.entries["PlayerInfo"].Valid()
  {
    var info := tables.entries["PlayerInfo"];
    && Follows(record, now, before, was)
    && GainedFrom(was, now, info.keys, info.entries)
    && groups.Valid() && groups.keys == tables.keys
    && "PlayerInfo" in groups.entries && groups.entries["PlayerInfo"].Copies?
    && FannedOut(info, groups.entries["PlayerInfo"].tables, now)
    && forall n :: n in tables.entries && n != "PlayerInfo" ==> n in groups.entries && groups.entries[n] == Single(tables.entries[n])
  }

  lemma Regrouping(tables: Dict<Dict<Value>>, copies: seq<Dict<Value>>, record: map<string, NewEntry>,
                   was: Snapshot, now: Snapshot, before: map<string, NewEntry>)
    requires tables.Valid() && "PlayerInfo" in tables.entries && tables.entries["PlayerInfo"].Valid()
    requires Follows(record, now, before, was)
    requires GainedFrom(was, now, tables.entries["PlayerInfo"].keys, tables.entries["PlayerInfo"].entries)
    requires FannedOut(tables.entries["PlayerInfo"], copies, now)
    ensures ProfileCalled(tables, Regrouped(tables, copies), record, was, now, before)
  {
  }

  /** Starting a fresh record for the next player keeps the state consistent. */
  lemma RecordReset(ids: Snapshot, next: Tables<int>, offsets: Tables<int>, order: Tables<seq<Value>>, ofPlayer: map<string, NewEntry>)
    requires Consistent(ids, next, offsets, order, ofPlayer)
    ensures Consistent(ids, next, offsets, order, map[])
  {
  }

  class Preprocess {
    /** The season every player group is stamped with. */
    const season: Value
    /** The constructor's `division_id`, `club_id` and `nat_id`: where each table's ids start. */
    const offsets: Tables<int>
    /** `lookup_tables`: per table, the id of every value interned so far. */
    var ids: Snapshot
    /** The id generators `_Division_id`, `_Club_id`, `_Nat_id`: the id each table hands out next. */
    var next: Tables<int>
    /** Per table, its values in the order they were first interned. */
    ghost var order: Tables<seq<Value>>
    /** `_lookup_tables_of_player`: per table, the last value interned for the current player. */
    var ofPlayer: map<string, NewEntry>

    ghost predicate Valid()
      reads this
    {
      Consistent(ids, next, offsets, order, ofPlayer)
    }

    /** `Preprocess(season, division_id, club_id, nat_id)`: empty tables counting from the given offsets. */
    constructor (season: Value, divisionId: int, clubId: int, natId: int)
      ensures Valid()
      ensures this.season == season && ofPlayer == map[]
      ensures offsets == Tables(divisionId, clubId, natId) && next == offsets
      ensures ids == Tables(map[], map[], map[])
    {
      this.season := season;
      offsets := Tables(divisionId, clubId, natId);
      next := Tables(divisionId, clubId, natId);
      ids := Tables(map[], map[], map[]);
      order := Tables([], [], []);
      ofPlayer := map[];
    }

    /**
     * The ids of table `name` are `offset, offset + 1, ..., next - 1`, one
     * per interned value: none repeats, and none is skipped.
     */
    lemma TableIds(name: string)
      requires Valid() && name in LookupNames
      ensures offsets.Get(name) <= next.Get(name)
      ensures forall n :: n in ids.Get(name).Values <==> offsets.Get(name) <= n < next.Get(name)
      ensures forall a, b :: a in ids.Get(name) && b in ids.Get(name) && a != b ==> ids.Get(name)[a] != ids.Get(name)[b]
    {
      DenseOf(ids, next, offsets, order, name);
      var t, o := ids.Get(name), order.Get(name);
      IdsInRange(t, next.Get(name), offsets.Get(name), o);
      IdsDistinct(t, next.Get(name), offsets.Get(name), o);
      forall n
        ensures n in t.Values <==> offsets.Get(name) <= n < next.Get(name)
      {
        if offsets.Get(name) <= n < next.Get(name) {
          IdsDense(t, next.Get(name), offsets.Get(name), o, n);
        }
      }
    }

    /**
     * `add_column_id(v, name)`: None for a name without a table; otherwise
     * the id of `v` in that table. A new value takes the table's next id,
     * advances the counter and is recorded for the current player; a known
     * value changes nothing.
     */
    method AddColumnId(v: Value, name: string) returns (r: Result<Option<int>>)
      requires Valid()
      modifies this
      ensures Valid()
      ensures name !in LookupNames ==> r == Ok(None) && unchanged(this)
      ensures name in LookupNames && !Hashable(v) ==> r == Err(TypeError) && unchanged(this)
      ensures name in LookupNames && Hashable(v) && v in old(ids.Get(name)) ==>
        r == Ok(Some(old(ids.Get(name))[v])) && unchanged(this)
      ensures name in LookupNames && Hashable(v) && v !in old(ids.Get(name)) ==>
        && r == Ok(Some(old(next.Get(name))))
        && ids == With(old(ids), name, v, old(next.Get(name)))
        && next == old(next).Set(name, old(next.Get(name)) + 1)
        && ofPlayer == old(ofPlayer)[name := NewEntry(v, old(next.Get(name)))]
    {
      if name !in LookupNames {
        return Ok(None);
      }
      if !Hashable(v) {
        return Err(TypeError);
      }
      var table := ids.Get(name);
      if v in table {
        return Ok(Some(table[v]));
      }
      var id := Intern(v, name);
      r := Ok(Some(id));
    }

    /** A value new to table `name` takes the table's next id, advances the counter and is recorded for the player. */
    method Intern(v: Value, name: string) returns (id: int)
      requires Valid() && name in LookupNames && v !in ids.Get(name)
      modifies this
      ensures Valid()
      ensures id == old(next.Get(name))
      ensures ids == With(old(ids), name, v, id)
      ensures next == old(next).Set(name, id + 1)
      ensures ofPlayer == old(ofPlayer)[name := NewEntry(v, id)]
    {
      id := next.Get(name);
      InternConsistent(ids, next, offsets, order, ofPlayer, name, v);
      ids := With(ids, name, v, id);
      next := next.Set(name, id + 1);
      order := order.Set(name, order.Get(name) + [v]);
      ofPlayer := ofPlayer[name := NewEntry(v, id)];
    }

    /**
     * One column of `_encode_lookup_tables`: position codes to ids, feet and
     * eligibility to their codes, a lookup column to its interned id; any
     * other column keeps its value.
     */
    method EncodeColumn(k: string, v: Value) returns (r: Result<Value>)
      requires Valid()
      modifies this
      ensures Valid()
      ensures Grown(old(ids), ids)
      ensures Follows(ofPlayer, ids, old(ofPlayer), old(ids))
      ensures GainedFrom(old(ids), ids, [k], map[k := v])
      ensures r.Ok? <==> EncodeFailure(k, v).None?
      ensures r.Err? ==> r.error == EncodeFailure(k, v).value
      ensures r.Ok? ==> Encodes(k, v, r.value, ids)
    {
      if FixedColumn(k) {
        KeptTables(k, v, ids, ofPlayer);
        return FixedEncoding(k, v);
      }
      r := EncodeLookup(k, v);
    }

    /** A column with no fixed code: interned when its capitalised name has a table, else kept. */
    method EncodeLookup(k: string, v: Value) returns (r: Result<Value>)
      requires Valid() && !FixedColumn(k)
      modifies this
      ensures Valid()
      ensures Grown(old(ids), ids)
      ensures Follows(ofPlayer, ids, old(ofPlayer), old(ids))
      ensures GainedFrom(old(ids), ids, [k], map[k := v])
      ensures r.Ok? <==> EncodeFailure(k, v).None?
      ensures r.Err? ==> r.error == EncodeFailure(k, v).value
      ensures r.Ok? ==> Encodes(k, v, r.value, ids)
    {
      var name := Capitalize(k);
      ghost var was, before := ids, ofPlayer;
      if name in LookupNames && Hashable(v) && v !in ids.Get(name) {
        var id := AddColumnId(v, name);
        PutTables(k, v, was, id.value.value, before);
        r := Ok(Int(id.value.value));
      } else {
        var id := AddColumnId(v, name);
        KeptTables(k, v, was, before);
        LookupEncodes(k, v, was);
        if id.Err? {
          return Err(id.error);
        }
        r := if id.value.Some? then Ok(Int(id.value.value)) else Ok(v);
      }
    }

    /**
     * `_encode_lookup_tables(info)`: every column encoded in column order.
     * The first column that cannot be encoded raises; values interned for
     * the columns before it stay interned.
     */
    method EncodeLookupTables(info: Dict<Value>) returns (r: Result<Dict<Value>>)
      requires Valid() && info.Valid()
      modifies this
      ensures Valid()
      ensures Progressed(old(ids), ids, old(ofPlayer), ofPlayer) && EncodedAs(info, r, old(ids), ids)
    {
      ghost var start, startOf := ids, ofPlayer;
      EncodedNothing(info);
      var out := info;
      var i := 0;
      while i < |info.keys|
        invariant 0 <= i <= |info.keys|
        invariant EncodedPrefix(info, out, i, start, startOf)
      {
        var encoded, failure := EncodeNext(info, out, i, start, startOf);
        if failure.Some? {
          return Err(failure.value);
        }
        out, i := encoded, i + 1;
      }
      EncodedEverything(info, out, start, startOf);
      r := Ok(out);
    }

    /** The first `i` columns of `info` are encoded into `out`, the tables having grown from `start` by their values. */
    ghost predicate EncodedPrefix(info: Dict<Value>, out: Dict<Value>, i: nat, start: Snapshot, startOf: map<string, NewEntry>)
      reads this
      requires info.Valid()
    {
      && i <= |info.keys|
      && Valid()
      && out.Valid() && out.keys == info.keys
      && Progressed(start, ids, startOf, ofPlayer)
      && GainedFrom(start, ids, info.keys[..i], info.entries)
      && EncodedUpTo(info, out, i, ids)
    }

    lemma EncodedNothing(info: Dict<Value>)
      requires Valid() && info.Valid()
      ensures EncodedPrefix(info, info, 0, ids, ofPlayer)
    {
      assert info.keys[..0] == [];
    }

    lemma EncodedEverything(info: Dict<Value>, out: Dict<Value>, start: Snapshot, startOf: map<string, NewEntry>)
      requires info.Valid() && EncodedPrefix(info, out, |info.keys|, start, startOf)
      ensures Valid() && Progressed(start, ids, startOf, ofPlayer) && EncodedAs(info, Ok(out), start, ids)
    {
      assert info.keys[..|info.keys|] == info.keys;
      EncodedAll(info, out, start, ids);
    }

    lemma PrefixHolds(info: Dict<Value>, encoded: Dict<Value>, i: nat, start: Snapshot, startOf: map<string, NewEntry>)
      requires info.Valid() && i < |info.keys| && Valid()
      requires encoded.Valid() && encoded.keys == info.keys
      requires Progressed(start, ids, startOf, ofPlayer)
      requires GainedFrom(start, ids, info.keys[..i + 1], info.entries)
      requires EncodedUpTo(info, encoded, i + 1, ids)
      ensures EncodedPrefix(info, encoded, i + 1, start, startOf)
    {
    }

    /** One turn of the encoding loop: column `i` encoded, or the error it raises. */
    method EncodeNext(info: Dict<Value>, out: Dict<Value>, i: nat, ghost start: Snapshot, ghost startOf: map<string, NewEntry>)
      returns (encoded: Dict<Value>, failure: Option<Error>)
      requires info.Valid() && i < |info.keys| && EncodedPrefix(info, out, i, start, startOf)
      modifies this
      ensures failure.None? ==> EncodedPrefix(info, encoded, i + 1, start, startOf)
      ensures failure.Some? ==>
        && Valid() && Progressed(start, ids, startOf, ofPlayer)
        && EncodedAs(info, Err(failure.value), start, ids)
    {
      var k := info.keys[i];
      ghost var was, before := ids, ofPlayer;
      var e := EncodeColumn(k, info.entries[k]);
      ghost var now, after := ids, ofPlayer;
      FollowsTrans(startOf, start, before, was, after, now);
      GainedStep(start, was, now, info.keys, info.entries, i);
      if e.Err? {
        FailureAt(info, out, i, was, e.error, start, now);
        return out, Some(e.error);
      }
      EncodedStep(info, out, i, was, now, e.value);
      encoded, failure := out.Put(k, e.value), None;
      PrefixHolds(info, encoded, i, start, startOf);
    }

    /**
     * `__call__(**tables)`: the profile group, when there is one, is encoded
     * and fanned out into one group per position; the call hands back the
     * groups and the record of values first interned for this player, and
     * starts a fresh record. An error leaves the record in place.
     */
    method Call(tables: Dict<Dict<Value>>) returns (r: Result<(Dict<Group>, map<string, NewEntry>)>)
      requires Valid() && tables.Valid()
      requires forall n :: n in tables.entries ==> tables.entries[n].Valid()
      modifies this
      ensures Valid()
      ensures "PlayerInfo" !in tables.entries ==>
        r == Ok((AsGroups(tables), old(ofPlayer))) && ids == old(ids) && ofPlayer == map[]
      ensures "PlayerInfo" in tables.entries ==>
        var info := tables.entries["PlayerInfo"];
        && Grown(old(ids), ids)
        && (r.Ok? <==> Encodable(info) && "position" in info.entries)
        && (r.Err? ==> Follows(ofPlayer, ids, old(ofPlayer), old(ids)))
        && (r.Ok? ==> ofPlayer == map[] && ProfileCalled(tables, r.value.0, r.value.1, old(ids), ids, old(ofPlayer)))
      ensures r.Ok? ==> forall n :: n in r.value.1 ==> n in LookupNames && Latest(r.value.1[n], ids.Get(n), next.Get(n))
      ensures "PlayerInfo" in tables.entries && r.Err? ==>
        ProfileFailure(tables.entries["PlayerInfo"], r.error, old(ids), ids)
    {
      RecordReset(ids, next, offsets, order, ofPlayer);
      if "PlayerInfo" !in tables.entries {
        r := Ok((AsGroups(tables), ofPlayer));
        ofPlayer := map[];
        return;
      }
      ghost var was, before := ids, ofPlayer;
      var copies := EncodeProfile(tables.entries["PlayerInfo"]);
      assert Grown(was, ids);
      if copies.Err? {
        return Err(copies.error);
      }
      Regrouping(tables, copies.value, ofPlayer, was, ids, before);
      r := Ok((Regrouped(tables, copies.value), ofPlayer));
      ofPlayer := map[];
      RecordReset(ids, next, offsets, order, r.value.1);
    }

    /**
     * `from_rtf_file` over the lines of an export: the header cells come
     * from the ninth line, and each later line that is a player line is cut
     * into its groups and cleaned, the `i`-th player row drawing `draws(i)`
     * for its asking price. The rows yielded before the pass ends, and the
     * error that ends it early, if any.
     */
    method FromRtfLines(lines: seq<string>, ranges: Ranges, draws: nat -> nat)
      returns (rows: seq<Dict<Dict<Value>>>, failure: Option<Error>)
      ensures (rows, failure) == ReadRows(CleanLine(season, PreprocessAliases, HeaderCells(HeaderLine(lines)), ranges, draws), BodyLines(lines))
    {
      var headers := HeaderCells(HeaderLine(lines));
      var body := BodyLines(lines);
      var clean := CleanLine(season, PreprocessAliases, headers, ranges, draws);
      rows, failure := [], None;
      var i := 0;
      while i < |body|
        invariant i <= |body|
        invariant ReadRows(clean, body[..i]) == (rows, None)
      {
        var line := body[i];
        assert body[..i + 1][..i] == body[..i];
        var kept := IsDataLine(line);
        if kept.Err? {
          failure := Some(kept.error);
          ReadRowsStopped(clean, body, i + 1);
          return;
        }
        if kept.value {
          var cleaned := clean(line, |rows|);
          if cleaned.Err? {
            failure := Some(cleaned.error);
            ReadRowsStopped(clean, body, i + 1);
            return;
          }
          rows := rows + [cleaned.value];
        }
        i := i + 1;
      }
      assert body[..i] == body;
    }

    /** The profile group encoded (`_encode_lookup_tables`), then fanned out (`_breakout_positions`). */
    method EncodeProfile(info: Dict<Value>) returns (r: Result<seq<Dict<Value>>>)
      requires Valid() && info.Valid()
      modifies this
      ensures Valid()
      ensures Progressed(old(ids), ids, old(ofPlayer), ofPlayer)
      ensures r.Ok? <==> Encodable(info) && "position" in info.entries
      ensures r.Ok? ==> GainedFrom(old(ids), ids, info.keys, info.entries) && FannedOut(info, r.value, ids)
      ensures r.Err? ==> ProfileFailure(info, r.error, old(ids), ids)
    {
      var encoded := EncodeLookupTables(info);
      if encoded.Err? {
        return Err(encoded.error);
      }
      var copies := BreakoutPositions(encoded.value);
      if copies.Err? {
        PositionEncoded(info, encoded.value, ids);
        return Err(copies.error);
      }
      FanOut(info, encoded.value, copies.value, ids);
      r := Ok(copies.value);
    }
  }
}
