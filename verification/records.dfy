/**
 * The nested dicts the database layer hands to the chart and processing
 * helpers: player UID, then table name, then column, then value.
 */
module Records {
  import opened Dicts

  /** One player's tables: table name to columns. */
  type Record<V> = Dict<Dict<V>>

  /** The players a query returned, by UID, in the order it returned them. */
  type Players<V> = OrderedMap<int, Record<V>>

  ghost predicate RecordValid<V>(r: Record<V>) {
    r.Valid() && forall t :: t in r.entries ==> r.entries[t].Valid()
  }

  ghost predicate PlayersValid<V>(d: Players<V>) {
    d.Valid() && forall u :: u in d.entries ==> RecordValid(d.entries[u])
  }

  /** The record of the `j`-th player in iteration order. */
  function RecordAt<V>(d: Players<V>, j: nat): (r: Record<V>)
    requires PlayersValid(d) && j < |d.keys|
    ensures d.keys[j] in d.entries && r == d.entries[d.keys[j]] && RecordValid(r)
  {
    var u := d.keys[j];
    assert u in d.keys;
    assert RecordValid(d.entries[u]);
    d.entries[u]
  }

  /** Each of the first `n` players has a table named `t`. */
  ghost predicate FirstHave<V>(d: Players<V>, t: string, n: nat)
    requires PlayersValid(d) && n <= |d.keys|
  {
    forall j :: 0 <= j < n ==> t in RecordAt(d, j).entries
  }

  /** Every player has a table named `t`. */
  ghost predicate AllHave<V>(d: Players<V>, t: string)
    requires PlayersValid(d)
  {
    FirstHave(d, t, |d.keys|)
  }

  /** The `t` table of the `j`-th player in iteration order. */
  function TableOf<V>(d: Players<V>, j: nat, t: string): (table: Dict<V>)
    requires PlayersValid(d) && j < |d.keys| && t in RecordAt(d, j).entries
    ensures table.Valid()
  {
    RecordAt(d, j).entries[t]
  }

  /** One more player with a `t` table extends the prefix that has one. */
  lemma FirstHaveStep<V>(d: Players<V>, t: string, n: nat)
    requires PlayersValid(d) && n < |d.keys| && FirstHave(d, t, n) && t in RecordAt(d, n).entries
    ensures FirstHave(d, t, n + 1)
  {
  }

  /** A player without a `t` table means not every player has one. */
  lemma MissingTable<V>(d: Players<V>, t: string, n: nat)
    requires PlayersValid(d) && n < |d.keys| && t !in RecordAt(d, n).entries
    ensures !AllHave(d, t)
  {
  }
}
