/**
 * Per-category cleaning of one player's raw groups: `Preprocess._clean`
 * and `Process._clean`. A raw group maps column keys to stripped cell
 * text; cleaning turns the documented columns into numbers, decodes the
 * position notation, renames and removes columns, and (in `Process`) tags
 * the group with the line's id. Reading a missing column is a KeyError, a
 * cell that does not parse a ValueError.
 */
module Cleaning {
  import opened Outcomes
  import opened Numerals
  import opened Dicts
  import opened PositionNotation
  import opened Fields

  /** `group[k]` on a raw group. */
  function Field(g: Dict<string>, k: string): (r: Result<string>)
    ensures r.Ok? <==> k in g.entries
    ensures r.Ok? ==> r.value == g.entries[k]
  {
    if k in g.entries then Ok(g.entries[k]) else Err(KeyError)
  }

  /** Column `k` is present and its cell reads under `parse`. */
  predicate ReadsAs<T>(g: Dict<string>, k: string, parse: string -> Result<T>) {
    k in g.entries && parse(g.entries[k]).Ok?
  }

  /** The release clause: 0 for "-", else the amount with its unit. */
  function ReleaseFee(s: string): Result<Value>
  {
    if s == "-" then Ok(Int(0))
    else
      var amount :- FormatHighValues(s);
      Ok(Float(amount))
  }

  /** The published value: the asking price with its unit, then randomised. */
  function AskingPrice(s: string, draw: nat): Result<int>
  {
    var price :- FormatHighValues(s);
    Obfuscate(price, draw)
  }

  /** `clean_playerInfo_table` / the `playerInfo` branch: age, decoded positions, minutes. */
  function InfoCleaned(g: Dict<string>): (r: Result<Dict<Value>>)
    requires g.Valid()
    ensures r.Ok? <==>
      && ReadsAs(g, "age", ParseInt)
      && ReadsAs(g, "position", Positions)
      && ReadsAs(g, "mins", Minutes)
    ensures r.Ok? ==>
      && r.value.Valid()
      && r.value.keys == g.keys
      && r.value.entries["age"] == Int(ParseInt(g.entries["age"]).value)
      && r.value.entries["position"] == TextList(Positions(g.entries["position"]).value)
      && r.value.entries["mins"] == Int(Minutes(g.entries["mins"]).value)
      && forall k :: k in g.entries && k !in {"age", "position", "mins"} ==>
           r.value.entries[k] == Text(g.entries[k])
  {
    var age :- Field(g, "age");
    var years :- ParseInt(age);
    var position :- Field(g, "position");
    var codes :- Positions(position);
    var mins :- Field(g, "mins");
    var minutes :- Minutes(mins);
    Ok(Lift(g).Put("age", Int(years)).Put("position", TextList(codes)).Put("mins", Int(minutes)))
  }

  /** The keys of a contract group after cleaning: `value` added, `ap` removed. */
  function ContractKeys(keys: seq<string>): seq<string>
  {
    Without(if "value" in keys then keys else keys + ["value"], "ap")
  }

  /**
   * `clean_contract_table` / the `contract` branch: years of the dates,
   * extension, wage, the randomised value in place of `ap`, release fee.
   */
  function ContractCleaned(g: Dict<string>, draw: nat): (r: Result<Dict<Value>>)
    requires g.Valid()
    ensures r.Ok? ==> r.value.Valid() && r.value.keys == ContractKeys(g.keys) && "ap" !in r.value.entries
  {
    var begins :- Field(g, "beginDate");
    var beginYear :- DateYear(begins);
    var expires :- Field(g, "expiryDate");
    var expiryYear :- DateYear(expires);
    var extension :- Field(g, "extension");
    var extensionYears :- Extension(extension);
    var wage :- Field(g, "wage");
    var weekly :- Wage(wage);
    var ap :- Field(g, "ap");
    var value :- AskingPrice(ap, draw);
    var fee :- Field(g, "releaseClauseFee");
    var releaseFee :- ReleaseFee(fee);
    Ok(ContractWith(g, beginYear, expiryYear, extensionYears, weekly, value, releaseFee))
  }

  /** Contract cleaning fails exactly when a column is missing or one of its cells does not read. */
  lemma ContractCleanedOk(g: Dict<string>, draw: nat)
    requires g.Valid()
    ensures ContractCleaned(g, draw).Ok? <==>
      && ReadsAs(g, "beginDate", DateYear)
      && ReadsAs(g, "expiryDate", DateYear)
      && ReadsAs(g, "extension", Extension)
      && ReadsAs(g, "wage", Wage)
      && "ap" in g.entries && AskingPrice(g.entries["ap"], draw).Ok?
      && ReadsAs(g, "releaseClauseFee", ReleaseFee)
  {
  }

  /** A cleaned contract holds each column's reading, the randomised asking price as `value`, and the other cells as they were. */
  lemma ContractCleanedFields(g: Dict<string>, draw: nat)
    requires g.Valid() && ContractCleaned(g, draw).Ok?
    ensures var d := ContractCleaned(g, draw).value;
      && d.entries["beginDate"] == Int(DateYear(g.entries["beginDate"]).value)
      && d.entries["expiryDate"] == Int(DateYear(g.entries["expiryDate"]).value)
      && d.entries["extension"] == Int(Extension(g.entries["extension"]).value)
      && d.entries["wage"] == Int(Wage(g.entries["wage"]).value)
      && d.entries["value"] == Int(AskingPrice(g.entries["ap"], draw).value)
      && d.entries["releaseClauseFee"] == ReleaseFee(g.entries["releaseClauseFee"]).value
      && forall k :: k in g.entries && k !in ContractColumns ==> d.entries[k] == Text(g.entries[k])
  {
    ContractEntriesHold(g.entries, DateYear(g.entries["beginDate"]).value, DateYear(g.entries["expiryDate"]).value,
      Extension(g.entries["extension"]).value, Wage(g.entries["wage"]).value,
      AskingPrice(g.entries["ap"], draw).value, ReleaseFee(g.entries["releaseClauseFee"]).value);
  }

  /** The columns contract cleaning writes or removes. */
  const ContractColumns: set<string> := {"beginDate", "expiryDate", "extension", "wage", "value", "releaseClauseFee", "ap"}

  /** The cells of a contract group once every cell is read: the numbers over their columns, `value` added, `ap` dropped. */
  function ContractEntries(g: map<string, string>, beginYear: int, expiryYear: int, extensionYears: int,
                           weekly: int, value: int, releaseFee: Value): map<string, Value>
  {
    map k | k in g.Keys + {"value"} && k != "ap" ::
      if k == "beginDate" then Int(beginYear)
      else if k == "expiryDate" then Int(expiryYear)
      else if k == "extension" then Int(extensionYears)
      else if k == "wage" then Int(weekly)
      else if k == "value" then Int(value)
      else if k == "releaseClauseFee" then releaseFee
      else Text(g[k])
  }

  /** The contract group once every cell is read. */
  function ContractWith(g: Dict<string>, beginYear: int, expiryYear: int, extensionYears: int,
                        weekly: int, value: int, releaseFee: Value): (d: Dict<Value>)
    requires g.Valid()
    ensures d.Valid()
    ensures d.keys == ContractKeys(g.keys)
    ensures "ap" !in d.entries
  {
    var keys := ContractKeys(g.keys);
    var entries := ContractEntries(g.entries, beginYear, expiryYear, extensionYears, weekly, value, releaseFee);
    assert NoDuplicates(if "value" in g.keys then g.keys else g.keys + ["value"]);
    OrderedMap(keys, entries)
  }

  lemma ContractEntriesHold(g: map<string, string>, beginYear: int, expiryYear: int, extensionYears: int,
                            weekly: int, value: int, releaseFee: Value)
    requires "beginDate" in g && "expiryDate" in g && "extension" in g && "wage" in g && "releaseClauseFee" in g
    ensures var e := ContractEntries(g, beginYear, expiryYear, extensionYears, weekly, value, releaseFee);
      && e["beginDate"] == Int(beginYear) && e["expiryDate"] == Int(expiryYear)
      && e["extension"] == Int(extensionYears) && e["wage"] == Int(weekly)
      && e["value"] == Int(value) && e["releaseClauseFee"] == releaseFee
      && forall k :: k in g && k !in ContractColumns ==> e[k] == Text(g[k])
  {
  }

  /** `clean_attributes_table` / the `attributes` branch: `nat` renamed to `natF`, kept last. */
  function AttributesCleaned(g: Dict<string>): (r: Result<Dict<Value>>)
    requires g.Valid()
    ensures r.Ok? <==> "nat" in g.entries
    ensures r.Ok? ==>
      && r.value.Valid()
      && r.value.keys == Without(if "natF" in g.entries then g.keys else g.keys + ["natF"], "nat")
  {
    var nationality :- Field(g, "nat");
    var d := Lift(g).Put("natF", Text(nationality));
    Ok(d.Remove("nat"))
  }

  /** The renamed attributes group holds the nationality under `natF` and every other column unchanged. */
  lemma AttributesCleanedEntries(g: Dict<string>)
    requires g.Valid() && "nat" in g.entries
    ensures AttributesCleaned(g).Ok?
    ensures AttributesCleaned(g).value.entries["natF"] == Text(g.entries["nat"])
    ensures forall k :: k in g.entries && k != "nat" && k != "natF" ==>
      AttributesCleaned(g).value.entries[k] == Text(g.entries[k])
  {
    var lifted := Lift(g).entries;
    var renamed := lifted["natF" := Text(g.entries["nat"])];
    var e := AttributesCleaned(g).value.entries;
    assert e == renamed - {"nat"};
    assert |"natF"| != |"nat"|;
    forall k | k in g.entries && k != "nat" && k != "natF"
      ensures e[k] == Text(g.entries[k])
    {
      assert e[k] == renamed[k] == lifted[k];
    }
  }

  /** `clean_ca_table` / the `ca` branch: the current ability as an int. */
  function CaCleaned(g: Dict<string>): (r: Result<Dict<Value>>)
    requires g.Valid()
    ensures r.Ok? <==> ReadsAs(g, "ca", ParseInt)
    ensures r.Ok? ==>
      && r.value.Valid()
      && r.value.keys == g.keys
      && r.value.entries["ca"] == Int(ParseInt(g.entries["ca"]).value)
      && forall k :: k in g.entries && k != "ca" ==> r.value.entries[k] == Text(g.entries[k])
  {
    var ca :- Field(g, "ca");
    var ability :- ParseInt(ca);
    Ok(Lift(g).Put("ca", Int(ability)))
  }

  /** The `nat_team` branch: team, caps and youth apps as ints, blanks read as 0. */
  function NatTeamCleaned(g: Dict<string>): (r: Result<Dict<Value>>)
    requires g.Valid()
    ensures r.Ok? <==>
      && "team" in g.entries && CountOr(g.entries["team"], "").Ok?
      && "caps" in g.entries && CountOr(g.entries["caps"], "-").Ok?
      && "yth apps" in g.entries && CountOr(g.entries["yth apps"], "-").Ok?
    ensures r.Ok? ==>
      && r.value.Valid()
      && r.value.keys == g.keys
      && r.value.entries["team"] == Int(CountOr(g.entries["team"], "").value)
      && r.value.entries["caps"] == Int(CountOr(g.entries["caps"], "-").value)
      && r.value.entries["yth apps"] == Int(CountOr(g.entries["yth apps"], "-").value)
      && forall k :: k in g.entries && k !in {"team", "caps", "yth apps"} ==>
           r.value.entries[k] == Text(g.entries[k])
  {
    var team :- Field(g, "team");
    var teamId :- CountOr(team, "");
    var caps :- Field(g, "caps");
    var capCount :- CountOr(caps, "-");
    var apps :- Field(g, "yth apps");
    var appCount :- CountOr(apps, "-");
    Ok(Lift(g).Put("team", Int(teamId)).Put("caps", Int(capCount)).Put("yth apps", Int(appCount)))
  }

  /**
   * The entries `m` once the columns from the `i`-th on, in column order,
   * are replaced by what `read` makes of them; the first cell that does
   * not read stops the loop with its error.
   */
  function ReadFrom(g: Dict<string>, i: nat, m: map<string, Value>, read: string -> Result<real>): (r: Result<map<string, Value>>)
    requires g.Valid() && i <= |g.keys| && m.Keys == g.entries.Keys
    ensures r.Ok? ==> r.value.Keys == g.entries.Keys
    decreases |g.keys| - i
  {
    if i == |g.keys| then Ok(m)
    else
      var x :- read(g.entries[g.keys[i]]);
      ReadFrom(g, i + 1, m[g.keys[i] := Float(x)], read)
  }

  /** `clean_stats_table` / the `stats` branch: every column read as a float, "-" as 0.0. */
  function StatsCleaned(g: Dict<string>): (r: Result<Dict<Value>>)
    requires g.Valid()
    ensures r.Ok? ==> r.value.Valid() && r.value.keys == g.keys
  {
    var m :- ReadFrom(g, 0, Lift(g).entries, StatValue);
    Ok(OrderedMap(g.keys, m))
  }

  /** Reading from column `i` on fails exactly when one of those cells does not read. */
  lemma {:induction false} ReadFromOk(g: Dict<string>, i: nat, m: map<string, Value>, read: string -> Result<real>)
    requires g.Valid() && i <= |g.keys| && m.Keys == g.entries.Keys
    ensures ReadFrom(g, i, m, read).Ok? <==> forall j :: i <= j < |g.keys| ==> read(g.entries[g.keys[j]]).Ok?
    decreases |g.keys| - i
  {
    if i < |g.keys| && read(g.entries[g.keys[i]]).Ok? {
      ReadFromOk(g, i + 1, m[g.keys[i] := Float(read(g.entries[g.keys[i]]).value)], read);
    }
  }

  /** After reading from column `i` on, those columns hold what was read and the earlier ones what `m` had. */
  lemma {:induction false} ReadFromAt(g: Dict<string>, i: nat, m: map<string, Value>, read: string -> Result<real>, j: nat)
    requires g.Valid() && i <= |g.keys| && m.Keys == g.entries.Keys && j < |g.keys|
    requires ReadFrom(g, i, m, read).Ok?
    ensures i <= j ==>
      read(g.entries[g.keys[j]]).Ok? &&
      ReadFrom(g, i, m, read).value[g.keys[j]] == Float(read(g.entries[g.keys[j]]).value)
    ensures j < i ==> ReadFrom(g, i, m, read).value[g.keys[j]] == m[g.keys[j]]
    decreases |g.keys| - i
  {
    if i < |g.keys| {
      var key := g.keys[i];
      var m' := m[key := Float(read(g.entries[key]).value)];
      ReadFromAt(g, i + 1, m', read, j);
      if j < i {
        assert g.keys[j] != key;
      }
    }
  }

  /** Stats cleaning reads every column as a float ("-" as 0.0) and fails exactly on a cell that is not one. */
  lemma StatsCleanedMeaning(g: Dict<string>)
    requires g.Valid()
    ensures StatsCleaned(g).Ok? <==> forall k :: k in g.entries ==> StatValue(g.entries[k]).Ok?
    ensures StatsCleaned(g).Ok? ==>
      && StatsCleaned(g).value.keys == g.keys
      && forall k :: k in g.entries ==> StatsCleaned(g).value.entries[k] == Float(StatValue(g.entries[k]).value)
  {
    var m := Lift(g).entries;
    ReadFromOk(g, 0, m, StatValue);
    forall k | k in g.entries
      ensures exists i :: 0 <= i < |g.keys| && g.keys[i] == k
      ensures StatsCleaned(g).Ok? ==> StatsCleaned(g).value.entries[k] == Float(StatValue(g.entries[k]).value)
    {
      assert k in g.keys;
      var i :| 0 <= i < |g.keys| && g.keys[i] == k;
      if StatsCleaned(g).Ok? {
        ReadFromAt(g, 0, m, StatValue, i);
      }
    }
  }

  /** The stats loop: each column in turn overwritten with its float. */
  method CleanStats(g: Dict<string>) returns (r: Result<Dict<Value>>)
    requires g.Valid()
    ensures r == StatsCleaned(g)
  {
    var m := ReadColumns(g, StatValue);
    if m.Err? {
      return Err(m.error);
    }
    return Ok(OrderedMap(g.keys, m.value));
  }

  /** Each column in turn overwritten with what `read` makes of it; the first cell that does not read stops the loop. */
  method ReadColumns(g: Dict<string>, read: string -> Result<real>) returns (r: Result<map<string, Value>>)
    requires g.Valid()
    ensures r == ReadFrom(g, 0, Lift(g).entries, read)
  {
    var d := Lift(g);
    var i := 0;
    while i < |g.keys|
      invariant i <= |g.keys| && d.Valid() && d.keys == g.keys && d.entries.Keys == g.entries.Keys
      invariant ReadFrom(g, i, d.entries, read) == ReadFrom(g, 0, Lift(g).entries, read)
    {
      var key := g.keys[i];
      var x := read(g.entries[key]);
      if x.Err? {
        return Err(x.error);
      }
      d := d.Put(key, Float(x.value));
      i := i + 1;
    }
    return Ok(d.entries);
  }

  /** `group[key] = id` for a key naming the line. */
  function Tagged(d: Dict<Value>, key: string, id: int): (r: Dict<Value>)
    requires d.Valid()
    ensures r.Valid() && r.entries == d.entries[key := Int(id)]
    ensures r.keys == if key in d.entries then d.keys else d.keys + [key]
  {
    d.Put(key, Int(id))
  }
}
