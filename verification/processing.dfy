/**
 * The category step of the analysis front end: each record's `stats` and
 * `attributes` narrowed to the requested categories, the stats rows, and
 * the header of the first record, with `mins` shown as `90s`.
 */
module Processing {
  import opened Outcomes
  import opened Dicts
  import opened Records

  /** A record with its `stats` narrowed to `statCat` and its `attributes` to `attrCat`. */
  function Narrowed<V>(r: Record<V>, statCat: set<string>, attrCat: set<string>): (n: Record<V>)
    requires RecordValid(r) && "stats" in r.entries && "attributes" in r.entries
    ensures RecordValid(n) && n.keys == r.keys
    ensures forall t :: t in n.entries <==> t in r.entries
    ensures forall t :: t in r.entries && t != "stats" && t != "attributes" ==> n.entries[t] == r.entries[t]
    ensures
      var (before, after) := (r.entries["stats"], n.entries["stats"]);
      && after.entries.Keys == before.entries.Keys * statCat
      && after.keys == KeepIn(before.keys, statCat)
      && forall k :: k in after.entries ==> after.entries[k] == before.entries[k]
    ensures
      var (before, after) := (r.entries["attributes"], n.entries["attributes"]);
      && after.entries.Keys == before.entries.Keys * attrCat
      && after.keys == KeepIn(before.keys, attrCat)
      && forall k :: k in after.entries ==> after.entries[k] == before.entries[k]
  {
    var withStats := r.Put("stats", r.entries["stats"].Restrict(statCat));
    withStats.Put("attributes", r.entries["attributes"].Restrict(attrCat))
  }

  /** `out` is `data` with every record narrowed, the UIDs and their order unchanged. */
  ghost predicate IsCategoryData<V>(out: Players<V>, data: Players<V>, statCat: set<string>, attrCat: set<string>)
    requires PlayersValid(data) && AllHave(data, "stats") && AllHave(data, "attributes")
  {
    && PlayersValid(out)
    && out.keys == data.keys
    && forall j :: 0 <= j < |data.keys| ==> RecordAt(out, j) == Narrowed(RecordAt(data, j), statCat, attrCat)
  }

  /**
   * `_get_category_data(data, stat_cat, attr_cat)`: every record's `stats`
   * and `attributes` rebuilt from the items whose key is in the category;
   * a record without either table is a `KeyError`.
   */
  method GetCategoryData<V>(data: Players<V>, statCat: set<string>, attrCat: set<string>) returns (r: Result<Players<V>>)
    requires PlayersValid(data)
    ensures r.Ok? <==> AllHave(data, "stats") && AllHave(data, "attributes")
    ensures r.Err? ==> r.error == KeyError
    ensures r.Ok? ==> IsCategoryData(r.value, data, statCat, attrCat)
  {
    var out := data;
    var j := 0;
    while j < |data.keys|
      invariant j <= |data.keys| && NarrowedUpTo(out, data, statCat, attrCat, j)
    {
      var uid := data.keys[j];
      var record := RecordAt(data, j);
      var updated := NarrowRecord(record, statCat, attrCat);
      if updated.Err? {
        if "stats" !in record.entries {
          MissingTable(data, "stats", j);
        } else {
          MissingTable(data, "attributes", j);
        }
        return Err(KeyError);
      }
      NarrowedStep(out, data, statCat, attrCat, j, updated.value);
      out := out.Put(uid, updated.value);
      j := j + 1;
    }
    return Ok(out);
  }

  /** The first `n` records of `out` are those of `data` narrowed; the rest are as in `data`. */
  ghost predicate NarrowedUpTo<V>(out: Players<V>, data: Players<V>, statCat: set<string>, attrCat: set<string>, n: nat)
    requires PlayersValid(data) && n <= |data.keys|
  {
    && FirstHave(data, "stats", n) && FirstHave(data, "attributes", n)
    && PlayersValid(out) && out.keys == data.keys
    && (forall m :: 0 <= m < n ==> RecordAt(out, m) == Narrowed(RecordAt(data, m), statCat, attrCat))
    && (forall m :: n <= m < |data.keys| ==> RecordAt(out, m) == RecordAt(data, m))
  }

  /** The loop body for one record: its `stats`, then its `attributes`, rebuilt from the kept items. */
  method NarrowRecord<V>(record: Record<V>, statCat: set<string>, attrCat: set<string>) returns (r: Result<Record<V>>)
    requires RecordValid(record)
    ensures r.Ok? <==> "stats" in record.entries && "attributes" in record.entries
    ensures r.Ok? ==> r.value == Narrowed(record, statCat, attrCat)
  {
    if "stats" !in record.entries {
      return Err(KeyError);
    }
    var stats := Filter(record.entries["stats"], statCat);
    var updated := record.Put("stats", stats);
    if "attributes" !in record.entries {
      return Err(KeyError);
    }
    var attributes := Filter(record.entries["attributes"], attrCat);
    updated := updated.Put("attributes", attributes);
    return Ok(updated);
  }

  /** Narrowing the `j`-th record in place extends the narrowed prefix by one. */
  lemma NarrowedStep<V>(out: Players<V>, data: Players<V>, statCat: set<string>, attrCat: set<string>, j: nat, updated: Record<V>)
    requires PlayersValid(data) && j < |data.keys| && NarrowedUpTo(out, data, statCat, attrCat, j)
    requires "stats" in RecordAt(data, j).entries && "attributes" in RecordAt(data, j).entries
    requires updated == Narrowed(RecordAt(data, j), statCat, attrCat)
    ensures NarrowedUpTo(out.Put(data.keys[j], updated), data, statCat, attrCat, j + 1)
  {
    FirstHaveStep(data, "stats", j);
    FirstHaveStep(data, "attributes", j);
    var next := out.Put(data.keys[j], updated);
    assert data.keys[j] in out.keys;
    assert PlayersValid(next);
    assert RecordAt(next, j) == updated;
    forall m | 0 <= m < |data.keys| && m != j
      ensures RecordAt(next, m) == RecordAt(out, m)
    {
      assert data.keys[m] != data.keys[j];
    }
  }

  /** `_get_all_stats(data)`: the values of every record's `stats`, one list per record, in order. */
  method GetAllStats<V>(data: Players<V>) returns (r: Result<seq<seq<V>>>)
    requires PlayersValid(data)
    ensures r.Ok? <==> AllHave(data, "stats")
    ensures r.Err? ==> r.error == KeyError
    ensures r.Ok? ==> |r.value| == |data.keys|
    ensures r.Ok? ==> forall j :: 0 <= j < |data.keys| ==> r.value[j] == TableOf(data, j, "stats").Values()
  {
    var all := [];
    var j := 0;
    while j < |data.keys|
      invariant j <= |data.keys| && FirstHave(data, "stats", j) && |all| == j
      invariant forall m :: 0 <= m < j ==> all[m] == TableOf(data, m, "stats").Values()
    {
      var record := RecordAt(data, j);
      if "stats" !in record.entries {
        assert !AllHave(data, "stats");
        return Err(KeyError);
      }
      all := all + [TableOf(data, j, "stats").Values()];
      j := j + 1;
    }
    return Ok(all);
  }

  /** The keys of a record's first `n` tables, table after table. */
  function TableKeys<V>(rec: Record<V>, n: nat): seq<string>
    requires RecordValid(rec) && n <= |rec.keys|
  {
    if n == 0 then []
    else
      var t := rec.keys[n - 1];
      assert t in rec.keys;
      TableKeys(rec, n - 1) + rec.entries[t].keys
  }

  /** The header of a record: the keys of all its tables. */
  function HeaderOf<V>(rec: Record<V>): seq<string>
    requires RecordValid(rec)
  {
    TableKeys(rec, |rec.keys|)
  }

  /** A name is in the header of the first `n` tables exactly when one of them has it as a key. */
  lemma {:induction false} TableKeysMeaning<V>(rec: Record<V>, n: nat, k: string)
    requires RecordValid(rec) && n <= |rec.keys|
    ensures k in TableKeys(rec, n) <==> exists j :: 0 <= j < n && k in rec.entries[rec.keys[j]].keys
  {
    if n > 0 {
      TableKeysMeaning(rec, n - 1, k);
      var t := rec.keys[n - 1];
      if k in rec.entries[t].keys {
        assert 0 <= n - 1 < n && k in rec.entries[rec.keys[n - 1]].keys;
      }
    }
  }

  /** `header.extend(list(table.keys()))` for every table of one record. */
  method RecordHeader<V>(rec: Record<V>) returns (header: seq<string>)
    requires RecordValid(rec)
    ensures header == HeaderOf(rec)
  {
    header := [];
    var i := 0;
    while i < |rec.keys|
      invariant i <= |rec.keys| && header == TableKeys(rec, i)
    {
      var t := rec.keys[i];
      assert t in rec.keys;
      header := header + rec.entries[t].keys;
      i := i + 1;
    }
  }

  /**
   * `_get_header(data)` as written: the `return` sits inside the loop over
   * the records, so the header is that of the first record, and with no
   * records the function falls off its end and returns `None`.
   */
  method GetHeaderAsWritten<V>(data: Players<V>) returns (header: Option<seq<string>>)
    requires PlayersValid(data)
    ensures data.keys == [] <==> header.None?
    ensures header.Some? ==> header.value == HeaderOf(RecordAt(data, 0))
  {
    if |data.keys| == 0 {
      return None;
    }
    var h := RecordHeader(RecordAt(data, 0));
    return Some(h);
  }

  /** `_get_header(data)` as intended: the first record's header, or `[]` with no records. */
  method GetHeader<V>(data: Players<V>) returns (header: seq<string>)
    requires PlayersValid(data)
    ensures data.keys == [] ==> header == []
    ensures data.keys != [] ==> header == HeaderOf(RecordAt(data, 0))
  {
    if |data.keys| == 0 {
      return [];
    }
    header := RecordHeader(RecordAt(data, 0));
  }

  /** `[h if h != 'mins' else '90s' for h in header]`. */
  function Renamed(header: seq<string>): (r: seq<string>)
    ensures |r| == |header| && "mins" !in r
    ensures forall i :: 0 <= i < |header| && header[i] != "mins" ==> r[i] == header[i]
    ensures forall i :: 0 <= i < |header| && header[i] == "mins" ==> r[i] == "90s"
  {
    seq(|header|, i requires 0 <= i < |header| => if header[i] != "mins" then header[i] else "90s")
  }

  /** What `__call__` returns: the narrowed records, their stats rows and the header. */
  datatype Processed<V> = Processed(data: Players<V>, allStats: seq<seq<V>>, header: seq<string>)

  /**
   * `__call__` after the query, with the header step as intended: the
   * narrowed records, the stats row of each, and the renamed header.
   */
  method Call<V>(data: Players<V>, statCat: set<string>, attrCat: set<string>) returns (r: Result<Processed<V>>)
    requires PlayersValid(data)
    ensures r.Ok? <==> AllHave(data, "stats") && AllHave(data, "attributes")
    ensures r.Err? ==> r.error == KeyError
    ensures r.Ok? ==> IsCategoryData(r.value.data, data, statCat, attrCat)
    ensures r.Ok? ==> |r.value.allStats| == |data.keys|
    ensures r.Ok? ==> forall j :: 0 <= j < |data.keys| ==>
      && AllHave(r.value.data, "stats")
      && r.value.allStats[j] == TableOf(r.value.data, j, "stats").Values()
    ensures r.Ok? ==> r.value.header == if data.keys == [] then [] else Renamed(HeaderOf(RecordAt(r.value.data, 0)))
  {
    var narrowed := GetCategoryData(data, statCat, attrCat);
    if narrowed.Err? {
      return Err(narrowed.error);
    }
    var out := narrowed.value;
    NarrowedKeepTables(out, data, statCat, attrCat);
    var allStats := GetAllStats(out);
    var header := GetHeader(out);
    return Ok(Processed(out, allStats.value, Renamed(header)));
  }

  /** `__call__` as written: with no records, renaming iterates over `None`, a `TypeError`. */
  method CallAsWritten<V>(data: Players<V>, statCat: set<string>, attrCat: set<string>) returns (r: Result<Processed<V>>)
    requires PlayersValid(data)
    ensures data.keys == [] ==> r == Err(TypeError)
    ensures data.keys != [] ==> (r.Ok? <==> AllHave(data, "stats") && AllHave(data, "attributes"))
  {
    var narrowed := GetCategoryData(data, statCat, attrCat);
    if narrowed.Err? {
      return Err(narrowed.error);
    }
    var out := narrowed.value;
    NarrowedKeepTables(out, data, statCat, attrCat);
    var allStats := GetAllStats(out);
    var header := GetHeaderAsWritten(out);
    if header.None? {
      return Err(TypeError);
    }
    return Ok(Processed(out, allStats.value, Renamed(header.value)));
  }

  /** Narrowing keeps every record's tables, so every narrowed record still has `stats`. */
  lemma NarrowedKeepTables<V>(out: Players<V>, data: Players<V>, statCat: set<string>, attrCat: set<string>)
    requires PlayersValid(data) && AllHave(data, "stats") && AllHave(data, "attributes")
    requires IsCategoryData(out, data, statCat, attrCat)
    ensures AllHave(out, "stats") && AllHave(out, "attributes")
  {
    forall j | 0 <= j < |out.keys|
      ensures "stats" in RecordAt(out, j).entries && "attributes" in RecordAt(out, j).entries
    {
      assert RecordAt(out, j) == Narrowed(RecordAt(data, j), statCat, attrCat);
    }
  }
}
