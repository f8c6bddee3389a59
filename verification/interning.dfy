/**
 * Run-scoped interning of division, club and nationality names
 * (`Preprocess._encode_lookup_tables.add_column_id`): every value seen for
 * the first time gets the next id of its table, counting up from the
 * table's offset; a value seen before gets its stored id back.
 */
module Interning {
  import opened Strings
  import opened Dicts

  /**
   * A lookup table holding the values `order`, in the order they were first
   * seen: the i-th of them has id `offset + i`, and `next` is the id the next
   * new value gets.
   */
  ghost predicate Dense(ids: map<Value, int>, next: int, offset: int, order: seq<Value>)
  {
    && next == offset + |order|
    && NoDuplicates(order)
    && (forall v :: v in ids <==> v in order)
    && (forall i :: 0 <= i < |order| ==> ids[order[i]] == offset + i)
  }

  /** Interning a new value with the next id keeps the table dense. */
  lemma InternDense(ids: map<Value, int>, next: int, offset: int, order: seq<Value>, v: Value)
    requires Dense(ids, next, offset, order) && v !in ids
    ensures Dense(ids[v := next], next + 1, offset, order + [v])
  {
    var order' := order + [v];
    forall i | 0 <= i < |order|
      ensures order'[i] == order[i] && order[i] != v
    {
    }
  }

  /** Every id of a table lies in `[offset, next)`. */
  lemma IdsInRange(ids: map<Value, int>, next: int, offset: int, order: seq<Value>)
    requires Dense(ids, next, offset, order)
    ensures forall v :: v in ids ==> offset <= ids[v] < next
  {
    forall v | v in ids
      ensures offset <= ids[v] < next
    {
      var i :| 0 <= i < |order| && order[i] == v;
    }
  }

  /** Distinct values never share an id. */
  lemma IdsDistinct(ids: map<Value, int>, next: int, offset: int, order: seq<Value>)
    requires Dense(ids, next, offset, order)
    ensures forall a, b :: a in ids && b in ids && a != b ==> ids[a] != ids[b]
  {
    forall a, b | a in ids && b in ids && a != b
      ensures ids[a] != ids[b]
    {
      var i :| 0 <= i < |order| && order[i] == a;
      var j :| 0 <= j < |order| && order[j] == b;
    }
  }

  /** Every id of `[offset, next)` is in use: the ids are exactly `offset, offset + 1, ...`. */
  lemma IdsDense(ids: map<Value, int>, next: int, offset: int, order: seq<Value>, n: int)
    requires Dense(ids, next, offset, order) && offset <= n < next
    ensures exists v :: v in ids && ids[v] == n
  {
    var v := order[n - offset];
    assert ids[v] == n;
  }

  /**
   * The table as the source keeps it: one dict holding each value's id, and
   * also, under the lower-cased table name and under `'id'`, the last new
   * value and its id. Returns the new dict, the next id and the looked-up entry.
   */
  function AddColumnIdAsWritten(table: map<Value, Value>, next: int, v: Value, name: string): (r: (map<Value, Value>, int, Value))
    ensures v in table ==> r == (table, next, table[v])
    ensures v !in table ==> r.1 == next + 1 && Text("id") in r.0 && r.0[Text("id")] == Int(next)
  {
    if v in table then (table, next, table[v])
    else
      var updated := table[v := Int(next)][Text(Lower(name)) := v][Text("id") := Int(next)];
      (updated, next + 1, updated[v])
  }

  /**
   * Because values and bookkeeping share one dict, a club named "club"
   * comes back as its own name instead of an id, and once anything is
   * interned a value named "id" is taken for a known one: it is given the
   * previous value's id and never interned.
   */
  lemma AsWrittenMixesNamesAndIds()
    ensures AddColumnIdAsWritten(map[], 0, Text("club"), "Club").2 == Text("club")
    ensures var (t, n, _) := AddColumnIdAsWritten(map[], 0, Text("Ajax"), "Club");
      AddColumnIdAsWritten(t, n, Text("id"), "Club") == (t, 1, Int(0))
  {
    assert Lower("Club") == "club";
    assert Text("club") != Text("id");
    assert Text("Ajax") != Text("club") && Text("Ajax") != Text("id");
  }
}
