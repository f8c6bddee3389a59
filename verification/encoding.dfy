/**
 * The fixed codes of `Preprocess`: position codes to their enumeration
 * index, preferred-foot ratings and eligibility to small ints, and what it
 * means for one profile column to be encoded against the run's lookup
 * tables (`_encode_lookup_tables` in preprocess_data.py).
 */
module Encoding {
  import opened Outcomes
  import opened Strings
  import opened Dicts
  import opened PositionNotation

  /** The position codes in enumeration order: a code's id is its index. */
  const PositionCodes: seq<string> :=
    ["GK", "DC", "DR", "DL", "WBR", "DM", "WBL", "MR", "MC", "ML", "AMR", "AMC", "AML", "STC"]

  /** Preferred-foot ratings, "-" for none. */
  const Foot: map<string, int> := map[
    "-" := 0, "Very Weak" := 1, "Weak" := 2, "Reasonable" := 3,
    "Fairly Strong" := 4, "Strong" := 5, "Very Strong" := 6]

  /** National-team eligibility. */
  const Eligible: map<string, int> := map["No" := 0, "Yes" := 1]

  /** The lookup tables, by the capitalised name of the column they encode. */
  const LookupNames: set<string> := {"Division", "Club", "Nat"}

  lemma PositionCodesDistinct()
    ensures NoDuplicates(PositionCodes)
  {
  }

  /** The index of `c` in `codes`, or -1. */
  function CodeIndex(codes: seq<string>, c: string): (i: int)
    ensures i == -1 <==> c !in codes
    ensures i != -1 ==> 0 <= i < |codes| && codes[i] == c
    ensures forall j :: 0 <= j < i ==> codes[j] != c
  {
    if codes == [] then -1
    else if codes[|codes| - 1] == c && c !in codes[..|codes| - 1] then |codes| - 1
    else
      var i := CodeIndex(codes[..|codes| - 1], c);
      assert c in codes[..|codes| - 1] ==> c in codes;
      i
  }

  /** `self.Position[pos]` for one element of a position list. */
  function PositionId(e: Value): (r: Result<int>)
    ensures r.Ok? <==> e.Text? && e.s in PositionCodes
    ensures r.Ok? ==> 0 <= r.value < |PositionCodes| && PositionCodes[r.value] == e.s
    ensures r.Err? ==> r.error == KeyError
  {
    if e.Text? && e.s in PositionCodes then Ok(CodeIndex(PositionCodes, e.s)) else Err(KeyError)
  }

  /** `[self.Position[pos] for pos in positions]` over a list's elements. */
  function PositionIdsOf(es: seq<Value>): (r: Result<seq<int>>)
    ensures r.Ok? <==> forall i :: 0 <= i < |es| ==> PositionId(es[i]).Ok?
    ensures r.Ok? ==> |r.value| == |es| && forall i :: 0 <= i < |es| ==> r.value[i] == PositionId(es[i]).value
    ensures r.Err? ==> r.error == KeyError
  {
    if es == [] then Ok([])
    else
      var init :- PositionIdsOf(es[..|es| - 1]);
      var last :- PositionId(es[|es| - 1]);
      Ok(init + [last])
  }

  /** `add_position_id(v)`: iterating a value that is not a sequence is a TypeError, an unknown code a KeyError. */
  function PositionIds(v: Value): Result<seq<int>>
  {
    var es :- Elements(v);
    PositionIdsOf(es)
  }

  /** Decoding the ids of a position list gives back its codes. */
  lemma PositionIdsDecode(codes: seq<string>)
    requires forall i :: 0 <= i < |codes| ==> codes[i] in PositionCodes
    ensures PositionIds(TextList(codes)).Ok?
    ensures var ids := PositionIds(TextList(codes)).value;
      |ids| == |codes| && forall i :: 0 <= i < |ids| ==> 0 <= ids[i] < |PositionCodes| && PositionCodes[ids[i]] == codes[i]
  {
    var es := Elements(TextList(codes)).value;
    assert forall i :: 0 <= i < |es| ==> es[i] == Text(codes[i]);
  }

  /** A plain string is iterated character by character, and no code is one character long: only "" encodes. */
  lemma PositionIdsOfText(s: string)
    ensures PositionIds(Text(s)) == if s == [] then Ok([]) else Err(KeyError)
  {
    var es := Elements(Text(s)).value;
    if s != [] {
      assert es[0] == Text([s[0]]);
      assert PositionId(es[0]).Err?;
    }
  }

  /** `table[v]` for a table with string keys: a list is unhashable (TypeError), any other non-key a KeyError. */
  function Code(table: map<string, int>, v: Value): (r: Result<int>)
    ensures r.Ok? <==> v.Text? && v.s in table
    ensures r.Ok? ==> r.value == table[v.s]
    ensures r.Err? ==> r.error == if v.IntList? || v.TextList? then TypeError else KeyError
  {
    match v
    case Text(s) => if s in table then Ok(table[s]) else Err(KeyError)
    case IntList(_) => Err(TypeError)
    case TextList(_) => Err(TypeError)
    case _ => Err(KeyError)
  }

  /** A value Python can use as a dict key. */
  predicate Hashable(v: Value) {
    !v.IntList? && !v.TextList?
  }

  /** One thing per lookup table. */
  datatype Tables<T> = Tables(division: T, club: T, nationality: T) {
    /** The table `name` (one of `LookupNames`). */
    function Get(name: string): T {
      if name == "Division" then division else if name == "Club" then club else nationality
    }

    function Set(name: string, x: T): Tables<T> {
      if name == "Division" then Tables(x, club, nationality)
      else if name == "Club" then Tables(division, x, nationality)
      else Tables(division, club, x)
    }
  }

  /** The ids of the three lookup tables at one moment. */
  type Snapshot = Tables<map<Value, int>>

  /** The snapshot with `v` interned as `id` in table `name`. */
  function With(s: Snapshot, name: string, v: Value, id: int): Snapshot {
    s.Set(name, s.Get(name)[v := id])
  }

  /** Every id of `a` is kept, unchanged, in `b`. */
  predicate Extends(a: map<Value, int>, b: map<Value, int>) {
    forall v :: v in a ==> v in b && b[v] == a[v]
  }

  predicate Grown(a: Snapshot, b: Snapshot) {
    Extends(a.division, b.division) && Extends(a.club, b.club) && Extends(a.nationality, b.nationality)
  }

  /** What keeps column `k` holding `v` from being encoded, if anything. */
  function EncodeFailure(k: string, v: Value): Option<Error>
  {
    if k == "position" then
      (var ids := PositionIds(v); if ids.Err? then Some(ids.error) else None)
    else if k == "rightfoot" || k == "leftfoot" then
      (var c := Code(Foot, v); if c.Err? then Some(c.error) else None)
    else if k == "eligible" then
      (var c := Code(Eligible, v); if c.Err? then Some(c.error) else None)
    else if Capitalize(k) in LookupNames && !Hashable(v) then Some(TypeError)
    else None
  }

  /** `e` is the encoding of column `k` holding `v`, given the lookup tables' ids. */
  predicate Encodes(k: string, v: Value, e: Value, ids: Snapshot)
  {
    if k == "position" then PositionIds(v).Ok? && e == IntList(PositionIds(v).value)
    else if k == "rightfoot" || k == "leftfoot" then Code(Foot, v).Ok? && e == Int(Code(Foot, v).value)
    else if k == "eligible" then Code(Eligible, v).Ok? && e == Int(Code(Eligible, v).value)
    else if Capitalize(k) in LookupNames then v in ids.Get(Capitalize(k)) && e == Int(ids.Get(Capitalize(k))[v])
    else e == v
  }

  /** A column handled by its own fixed code rather than a lookup table. */
  predicate FixedColumn(k: string) {
    k == "position" || k == "rightfoot" || k == "leftfoot" || k == "eligible"
  }

  /** What encoding column `k` holding `v` adds to the table `name`. */
  function Gain(k: string, v: Value, name: string): set<Value>
  {
    if !FixedColumn(k) && Capitalize(k) == name && Hashable(v) then {v} else {}
  }

  /** Everything the columns `keys` add to a table that column `k` holding `v` adds `gain(k, v)` to. */
  function Interned(keys: seq<string>, entries: map<string, Value>, gain: (string, Value) -> set<Value>): set<Value>
    requires forall k :: k in keys ==> k in entries
  {
    if keys == [] then {}
    else Interned(keys[..|keys| - 1], entries, gain) + gain(keys[|keys| - 1], entries[keys[|keys| - 1]])
  }

  /** A table gains exactly what some column gives it. */
  lemma {:induction false} InternedMeaning(keys: seq<string>, entries: map<string, Value>, gain: (string, Value) -> set<Value>, v: Value)
    requires forall k :: k in keys ==> k in entries
    ensures v in Interned(keys, entries, gain) <==> exists j :: 0 <= j < |keys| && v in gain(keys[j], entries[keys[j]])
  {
    if keys != [] {
      var init := keys[..|keys| - 1];
      InternedMeaning(init, entries, gain, v);
      if v in Interned(init, entries, gain) {
        var j :| 0 <= j < |init| && v in gain(init[j], entries[init[j]]);
        assert keys[j] == init[j];
      }
      if exists j :: 0 <= j < |keys| && v in gain(keys[j], entries[keys[j]]) {
        var j :| 0 <= j < |keys| && v in gain(keys[j], entries[keys[j]]);
        if j < |init| {
          assert init[j] == keys[j];
        }
      }
    }
  }

  lemma InternedOne(k: string, v: Value, gain: (string, Value) -> set<Value>)
    ensures Interned([k], map[k := v], gain) == gain(k, v)
  {
    assert [k][..0] == [];
  }

  /** A fixed column's code: position ids, or the foot or eligibility code. */
  function FixedEncoding(k: string, v: Value): (r: Result<Value>)
    requires FixedColumn(k)
    ensures r.Ok? <==> EncodeFailure(k, v).None?
    ensures r.Err? ==> r.error == EncodeFailure(k, v).value
    ensures r.Ok? ==> forall ids :: Encodes(k, v, r.value, ids)
  {
    if k == "position" then
      var ids :- PositionIds(v);
      Ok(IntList(ids))
    else
      var code :- Code(if k == "eligible" then Eligible else Foot, v);
      Ok(Int(code))
  }

  /** What the columns add to each table. */
  function GainOf(name: string): (string, Value) -> set<Value>
  {
    (k, v) => Gain(k, v, name)
  }

  /** From `was` to `now`, each table gained exactly what the columns `keys` add to it. */
  predicate GainedFrom(was: Snapshot, now: Snapshot, keys: seq<string>, entries: map<string, Value>)
    requires forall k :: k in keys ==> k in entries
  {
    && now.division.Keys == was.division.Keys + Interned(keys, entries, GainOf("Division"))
    && now.club.Keys == was.club.Keys + Interned(keys, entries, GainOf("Club"))
    && now.nationality.Keys == was.nationality.Keys + Interned(keys, entries, GainOf("Nat"))
  }

  /** An encoding stays valid as the tables grow: an interned value keeps its id. */
  lemma EncodesGrown(k: string, v: Value, e: Value, a: Snapshot, b: Snapshot)
    requires Encodes(k, v, e, a) && Grown(a, b)
    ensures Encodes(k, v, e, b)
  {
  }

  /**
   * A column goes to the table `cap` exactly when its lower-cased name is
   * `cap` lower-cased: `capitalize()` ignores the case of the column name.
   */
  lemma {:induction false} CapitalizedAs(k: string, cap: string)
    requires |cap| > 0 && IsUpper(cap[0]) && Lower(cap[1..]) == cap[1..]
    ensures Capitalize(k) == cap <==> Lower(k) == Lower(cap)
  {
    if |k| == |cap| {
      var c := Capitalize(k);
      forall i | 1 <= i < |k|
        ensures c[i] == LowerChar(k[i]) && LowerChar(cap[i]) == cap[i]
      {
        assert c[i] == Lower(k[1..])[i - 1];
        assert Lower(cap[1..])[i - 1] == LowerChar(cap[i]);
      }
      assert c[0] == UpperChar(k[0]);
      if c == cap {
        assert forall i :: 0 <= i < |k| ==> Lower(k)[i] == Lower(cap)[i];
      }
      if Lower(k) == Lower(cap) {
        assert LowerChar(k[0]) == Lower(k)[0] == Lower(cap)[0];
        assert forall i :: 1 <= i < |k| ==> LowerChar(k[i]) == Lower(cap)[i];
        assert forall i :: 0 <= i < |k| ==> c[i] == cap[i];
      }
    }
  }

  /** The interned columns are "division", "club" and "nat", in any letter case. */
  lemma LookupColumns(k: string)
    ensures Capitalize(k) == "Division" <==> Lower(k) == "division"
    ensures Capitalize(k) == "Club" <==> Lower(k) == "club"
    ensures Capitalize(k) == "Nat" <==> Lower(k) == "nat"
  {
    LowerOfName("Division", "division");
    LowerOfName("Club", "club");
    LowerOfName("Nat", "nat");
    CapitalizedAs(k, "Division");
    CapitalizedAs(k, "Club");
    CapitalizedAs(k, "Nat");
  }

  lemma LowerOfName(cap: string, low: string)
    requires |cap| == |low| > 0 && IsUpper(cap[0]) && low[0] as int == cap[0] as int + 32
    requires forall i :: 1 <= i < |cap| ==> 'a' <= cap[i] <= 'z' && low[i] == cap[i]
    ensures Lower(cap[1..]) == cap[1..] && Lower(cap) == low
  {
  }

  /** Growth over the first `i` columns followed by growth from column `i` is growth over the first `i + 1`. */
  lemma GainedStep(s0: Snapshot, s1: Snapshot, s2: Snapshot, keys: seq<string>, entries: map<string, Value>, i: nat)
    requires i < |keys| && forall k :: k in keys ==> k in entries
    requires GainedFrom(s0, s1, keys[..i], entries)
    requires GainedFrom(s1, s2, [keys[i]], map[keys[i] := entries[keys[i]]])
    ensures GainedFrom(s0, s2, keys[..i + 1], entries)
  {
    var k := keys[i];
    assert keys[..i + 1][..i] == keys[..i];
    InternedOne(k, entries[k], GainOf("Division"));
    InternedOne(k, entries[k], GainOf("Club"));
    InternedOne(k, entries[k], GainOf("Nat"));
  }

  /** A value interned for the first time while encoding the current player, with its id. */
  datatype NewEntry = NewEntry(value: Value, id: int)

  /** The recorded entry of `name` is the value interned last in table `ids`, `next` being its next id. */
  predicate Latest(e: NewEntry, ids: map<Value, int>, next: int) {
    e.value in ids && ids[e.value] == e.id && e.id == next - 1
  }

  /**
   * Which tables the record `now` has an entry for, against the ids `was` of
   * an earlier moment: every table that gained a value has one, and every
   * other table keeps `before`'s entry, or its lack of one. What an entry
   * holds is `Latest`'s concern.
   */
  predicate Follows(now: map<string, NewEntry>, nowIds: Snapshot, before: map<string, NewEntry>, was: Snapshot)
  {
    && FollowsFor("Division", now, nowIds, before, was)
    && FollowsFor("Club", now, nowIds, before, was)
    && FollowsFor("Nat", now, nowIds, before, was)
  }

  predicate FollowsFor(name: string, now: map<string, NewEntry>, nowIds: Snapshot, before: map<string, NewEntry>, was: Snapshot)
  {
    if nowIds.Get(name).Keys == was.Get(name).Keys then
      (name in now <==> name in before) && (name in now ==> now[name] == before[name])
    else name in now
  }

  /** From `was` to `now` the tables only grew, and the player's record followed them. */
  predicate Progressed(was: Snapshot, now: Snapshot, ofWas: map<string, NewEntry>, ofNow: map<string, NewEntry>) {
    Grown(was, now) && Follows(ofNow, now, ofWas, was)
  }

  /** Two successive stretches of encoding compose into one. */
  lemma FollowsTrans(m0: map<string, NewEntry>, s0: Snapshot, m1: map<string, NewEntry>, s1: Snapshot, m2: map<string, NewEntry>, s2: Snapshot)
    requires Grown(s0, s1) && Grown(s1, s2)
    requires Follows(m1, s1, m0, s0) && Follows(m2, s2, m1, s1)
    ensures Follows(m2, s2, m0, s0)
  {
    assert s0.division.Keys <= s1.division.Keys <= s2.division.Keys;
    assert s0.club.Keys <= s1.club.Keys <= s2.club.Keys;
    assert s0.nationality.Keys <= s1.nationality.Keys <= s2.nationality.Keys;
  }

  /** Interning a new value grows its table by that value alone and records it for the player. */
  lemma PutTables(k: string, v: Value, was: Snapshot, id: int, before: map<string, NewEntry>)
    requires !FixedColumn(k) && Capitalize(k) in LookupNames && Hashable(v) && v !in was.Get(Capitalize(k))
    ensures Grown(was, With(was, Capitalize(k), v, id))
    ensures Follows(before[Capitalize(k) := NewEntry(v, id)], With(was, Capitalize(k), v, id), before, was)
    ensures GainedFrom(was, With(was, Capitalize(k), v, id), [k], map[k := v])
    ensures EncodeFailure(k, v).None? && Encodes(k, v, Int(id), With(was, Capitalize(k), v, id))
  {
    var name := Capitalize(k);
    PutNamed(name, v, was, id, before);
    InternedOne(k, v, GainOf("Division"));
    InternedOne(k, v, GainOf("Club"));
    InternedOne(k, v, GainOf("Nat"));
    assert Gain(k, v, name) == {v};
  }

  lemma PutNamed(name: string, v: Value, was: Snapshot, id: int, before: map<string, NewEntry>)
    requires name in LookupNames && v !in was.Get(name)
    ensures Grown(was, With(was, name, v, id))
    ensures Follows(before[name := NewEntry(v, id)], With(was, name, v, id), before, was)
    ensures With(was, name, v, id).Get(name) == was.Get(name)[v := id]
  {
    var now := With(was, name, v, id);
    if name == "Division" {
      assert now == Tables(was.division[v := id], was.club, was.nationality);
    } else if name == "Club" {
      assert now == Tables(was.division, was.club[v := id], was.nationality);
    } else {
      assert now == Tables(was.division, was.club, was.nationality[v := id]);
    }
    assert now.Get(name).Keys != was.Get(name).Keys by {
      assert v in now.Get(name);
    }
  }

  /** A column that interns nothing new leaves the tables and the player's record as they were. */
  lemma KeptTables(k: string, v: Value, was: Snapshot, before: map<string, NewEntry>)
    requires !FixedColumn(k) && Capitalize(k) in LookupNames && Hashable(v) ==> v in was.Get(Capitalize(k))
    ensures Grown(was, was) && Follows(before, was, before, was)
    ensures GainedFrom(was, was, [k], map[k := v])
  {
    InternedOne(k, v, GainOf("Division"));
    InternedOne(k, v, GainOf("Club"));
    InternedOne(k, v, GainOf("Nat"));
  }

  /** A column without a fixed code fails only as an unhashable lookup value, and is otherwise its id or itself. */
  lemma LookupEncodes(k: string, v: Value, ids: Snapshot)
    requires !FixedColumn(k)
    ensures EncodeFailure(k, v) == if Capitalize(k) in LookupNames && !Hashable(v) then Some(TypeError) else None
    ensures Capitalize(k) in LookupNames && v in ids.Get(Capitalize(k)) ==> Encodes(k, v, Int(ids.Get(Capitalize(k))[v]), ids)
    ensures Capitalize(k) !in LookupNames ==> Encodes(k, v, v, ids)
  {
  }

  /** Column `i` is the first of the group that cannot be encoded. */
  predicate FirstFailure(info: Dict<Value>, i: int)
    requires info.Valid()
  {
    && 0 <= i < |info.keys|
    && EncodeFailure(info.keys[i], info.entries[info.keys[i]]).Some?
    && forall j :: 0 <= j < i ==> EncodeFailure(info.keys[j], info.entries[info.keys[j]]).None?
  }

  /** The first `i` columns of `info` encode, and `out` holds their encodings under `ids`. */
  predicate EncodedUpTo(info: Dict<Value>, out: Dict<Value>, i: nat, ids: Snapshot)
    requires info.Valid() && out.Valid() && out.keys == info.keys && i <= |info.keys|
  {
    forall j :: 0 <= j < i ==>
      EncodeFailure(info.keys[j], info.entries[info.keys[j]]).None?
      && Encodes(info.keys[j], info.entries[info.keys[j]], out.entries[info.keys[j]], ids)
  }

  lemma EncodedStep(info: Dict<Value>, out: Dict<Value>, i: nat, was: Snapshot, now: Snapshot, e: Value)
    requires info.Valid() && out.Valid() && out.keys == info.keys && i < |info.keys|
    requires EncodedUpTo(info, out, i, was) && Grown(was, now)
    requires EncodeFailure(info.keys[i], info.entries[info.keys[i]]).None?
    requires Encodes(info.keys[i], info.entries[info.keys[i]], e, now)
    ensures EncodedUpTo(info, out.Put(info.keys[i], e), i + 1, now)
  {
    var next := out.Put(info.keys[i], e);
    forall j | 0 <= j <= i
      ensures EncodeFailure(info.keys[j], info.entries[info.keys[j]]).None?
      ensures Encodes(info.keys[j], info.entries[info.keys[j]], next.entries[info.keys[j]], now)
    {
      var k := info.keys[j];
      if j < i {
        assert k != info.keys[i];
        assert next.entries[k] == out.entries[k];
        EncodesGrown(k, info.entries[k], out.entries[k], was, now);
      } else {
        assert next.entries[k] == e;
      }
    }
  }

  /**
   * The outcome of encoding `info` while the tables go from `was` to `now`:
   * it fails exactly when some column cannot be encoded, with the first such
   * column's error, the tables having gained exactly the values of the lookup
   * columns before it; on success every column holds its encoding and the
   * tables gained exactly the values of the lookup columns.
   */
  ghost predicate EncodedAs(info: Dict<Value>, r: Result<Dict<Value>>, was: Snapshot, now: Snapshot)
    requires info.Valid()
  {
    && (r.Ok? <==> forall i :: 0 <= i < |info.keys| ==> EncodeFailure(info.keys[i], info.entries[info.keys[i]]).None?)
    && (r.Err? ==> exists i :: FirstFailure(info, i) && r.error == EncodeFailure(info.keys[i], info.entries[info.keys[i]]).value
                                && GainedFrom(was, now, info.keys[..i], info.entries))
    && (r.Ok? ==>
      && r.value.Valid() && r.value.keys == info.keys
      && GainedFrom(was, now, info.keys, info.entries)
      && forall k :: k in info.entries ==> k in r.value.entries && Encodes(k, info.entries[k], r.value.entries[k], now))
  }

  lemma FailureAt(info: Dict<Value>, out: Dict<Value>, i: nat, ids: Snapshot, e: Error, was: Snapshot, now: Snapshot)
    requires info.Valid() && out.Valid() && out.keys == info.keys && i < |info.keys|
    requires EncodedUpTo(info, out, i, ids)
    requires EncodeFailure(info.keys[i], info.entries[info.keys[i]]) == Some(e)
    requires GainedFrom(was, now, info.keys[..i + 1], info.entries)
    ensures EncodedAs(info, Err(e), was, now)
  {
    assert FirstFailure(info, i);
    NoGainAt(info.keys, info.entries, i, "Division");
    NoGainAt(info.keys, info.entries, i, "Club");
    NoGainAt(info.keys, info.entries, i, "Nat");
    assert GainedFrom(was, now, info.keys[..i], info.entries);
  }

  /** A column that cannot be encoded adds nothing to any table. */
  lemma NoGainAt(keys: seq<string>, entries: map<string, Value>, i: nat, name: string)
    requires i < |keys| && forall k :: k in keys ==> k in entries
    requires EncodeFailure(keys[i], entries[keys[i]]).Some?
    ensures Interned(keys[..i + 1], entries, GainOf(name)) == Interned(keys[..i], entries, GainOf(name))
  {
    assert keys[..i + 1][..i] == keys[..i];
    assert GainOf(name)(keys[i], entries[keys[i]]) == {};
  }

  lemma EncodedAll(info: Dict<Value>, out: Dict<Value>, was: Snapshot, now: Snapshot)
    requires info.Valid() && out.Valid() && out.keys == info.keys
    requires EncodedUpTo(info, out, |info.keys|, now)
    requires GainedFrom(was, now, info.keys, info.entries)
    ensures EncodedAs(info, Ok(out), was, now)
  {
    forall k | k in info.entries
      ensures k in out.entries && Encodes(k, info.entries[k], out.entries[k], now)
    {
      var j :| 0 <= j < |info.keys| && info.keys[j] == k;
    }
  }

  /** Every column of the group can be encoded. */
  predicate Encodable(info: Dict<Value>)
    requires info.Valid()
  {
    forall i :: 0 <= i < |info.keys| ==> EncodeFailure(info.keys[i], info.entries[info.keys[i]]).None?
  }

  /**
   * The error `e` ends encoding and breaking out the profile group `info`
   * while the tables go from `was` to `now`: either the first column that
   * cannot be encoded raises, the tables having gained the values of the
   * columns before it, or every column encodes, the tables gain all of
   * them, and the breakout raises `KeyError` for the missing `position`.
   */
  ghost predicate ProfileFailure(info: Dict<Value>, e: Error, was: Snapshot, now: Snapshot)
    requires info.Valid()
  {
    if Encodable(info) then
      && "position" !in info.entries && e == KeyError
      && GainedFrom(was, now, info.keys, info.entries)
    else
      exists i :: FirstFailure(info, i) && e == EncodeFailure(info.keys[i], info.entries[info.keys[i]]).value
                  && GainedFrom(was, now, info.keys[..i], info.entries)
  }

  /**
   * `copies` are the profile group `info` encoded under `ids` and fanned
   * out: one copy per position, in order, each holding that position's id.
   */
  ghost predicate FannedOut(info: Dict<Value>, copies: seq<Dict<Value>>, ids: Snapshot)
    requires info.Valid()
  {
    && "position" in info.entries && PositionIds(info.entries["position"]).Ok?
    && var positions := PositionIds(info.entries["position"]).value;
    && |copies| == |positions|
    && forall i :: 0 <= i < |copies| ==>
      && copies[i].Valid() && copies[i].keys == info.keys
      && copies[i].entries["position"] == Int(positions[i])
      && forall k :: k in info.entries && k != "position" ==>
        k in copies[i].entries && Encodes(k, info.entries[k], copies[i].entries[k], ids)
  }

  /** An encoded group keeps its keys; its position, when it has one, is a list of ids. */
  lemma PositionEncoded(info: Dict<Value>, encoded: Dict<Value>, ids: Snapshot)
    requires info.Valid() && encoded.Valid() && encoded.keys == info.keys
    requires forall k :: k in info.entries ==> k in encoded.entries && Encodes(k, info.entries[k], encoded.entries[k], ids)
    ensures "position" in encoded.entries <==> "position" in info.entries
    ensures "position" in info.entries ==> Elements(encoded.entries["position"]).Ok?
  {
  }

  lemma FanOut(info: Dict<Value>, encoded: Dict<Value>, copies: seq<Dict<Value>>, ids: Snapshot)
    requires info.Valid() && encoded.Valid() && encoded.keys == info.keys
    requires forall k :: k in info.entries ==> k in encoded.entries && Encodes(k, info.entries[k], encoded.entries[k], ids)
    requires "position" in encoded.entries && Elements(encoded.entries["position"]).Ok?
    requires var elements := Elements(encoded.entries["position"]).value;
      && |copies| == |elements|
      && forall i :: 0 <= i < |copies| ==>
        && copies[i].Valid()
        && copies[i].keys == encoded.keys
        && copies[i].entries == encoded.entries["position" := elements[i]]
    ensures FannedOut(info, copies, ids)
  {
    assert "position" in info.entries;
    var positions := PositionIds(info.entries["position"]).value;
    assert encoded.entries["position"] == IntList(positions);
  }
}
