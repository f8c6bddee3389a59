/**
 * The compact position notation of the export ("M/AM (LC)", "D (RLC)", "GK"),
 * its decoding into single position codes, and the fan-out of one profile
 * group into one group per position. Both pipeline generations
 * (preprocess_data.py and process_data.py) use these definitions: their
 * `_split_positions` and `_breakout_positions` are the same code.
 */
module PositionNotation {
  import opened Outcomes
  import opened Strings
  import opened Dicts

  /** The first index at or after `k` holding `c`, or -1. */
  function IndexOf(s: string, c: char, k: nat): (i: int)
    requires k <= |s|
    decreases |s| - k
    ensures i == -1 || (k <= i < |s| && s[i] == c)
    ensures forall j :: k <= j < |s| && (i < 0 || j < i) ==> s[j] != c
  {
    if k == |s| then -1 else if s[k] == c then k else IndexOf(s, c, k + 1)
  }

  /** The first index at or after `k` holding an upper-case letter, or -1. */
  function FirstUpper(s: string, k: nat): (i: int)
    requires k <= |s|
    decreases |s| - k
    ensures i == -1 || (k <= i < |s| && IsUpper(s[i]))
    ensures forall j :: k <= j < |s| && (i < 0 || j < i) ==> !IsUpper(s[j])
  {
    if k == |s| then -1 else if IsUpper(s[k]) then k else FirstUpper(s, k + 1)
  }

  /**
   * The side letters of one position, `list(''.join(re.findall(r'\((.*?)\)', s)))`:
   * the characters between each '(' and the next ')', in order. A '(' whose
   * group would span a newline does not match there, as `.` excludes '\n'.
   */
  function Sides(s: string): seq<char>
    decreases |s|
  {
    var open := IndexOf(s, '(', 0);
    if open < 0 then []
    else
      var close := IndexOf(s, ')', open + 1);
      if close < 0 then []
      else if '\n' in s[open + 1..close] then Sides(s[open + 1..])
      else s[open + 1..close] + Sides(s[close + 1..])
  }

  /** A position code: one or two upper-case letters. */
  predicate IsCode(c: string) {
    1 <= |c| <= 2 && forall i :: 0 <= i < |c| ==> IsUpper(c[i])
  }

  /** The code starting at `i`, matched by the greedy `[A-Z]{1,2}`. */
  function CodeAt(s: string, i: nat): (c: string)
    requires i < |s| && IsUpper(s[i])
    ensures IsCode(c) && i + |c| <= |s| && c == s[i..i + |c|]
  {
    if i + 1 < |s| && IsUpper(s[i + 1]) then s[i..i + 2] else s[i..i + 1]
  }

  /** The codes matched by `(/([A-Z]){1,2})*` from index `j` on. */
  function MoreCodes(s: string, j: nat): (cs: seq<string>)
    requires j <= |s|
    decreases |s| - j
    ensures forall c :: c in cs ==> IsCode(c)
  {
    if j + 1 < |s| && s[j] == '/' && IsUpper(s[j + 1]) then
      var c := CodeAt(s, j + 1);
      [c] + MoreCodes(s, j + 1 + |c|)
    else []
  }

  /**
   * `re.search(r'[A-Z]{1,2}(/([A-Z]){1,2})*', s).group(0).split('/')`: the
   * slash-separated codes of the leftmost match. With no upper-case letter
   * there is no match, and `.group` on None raises AttributeError.
   */
  function CodesOf(s: string): (r: Result<seq<string>>)
    ensures r.Ok? <==> exists i :: 0 <= i < |s| && IsUpper(s[i])
    ensures r.Ok? ==> |r.value| >= 1 && forall c :: c in r.value ==> IsCode(c)
  {
    var i := FirstUpper(s, 0);
    if i < 0 then Err(AttributeError)
    else
      var c := CodeAt(s, i);
      Ok([c] + MoreCodes(s, i + |c|))
  }

  /** The positions one code stands for: the code with each side letter, or the code alone. */
  function Row(code: string, sides: seq<char>): (r: seq<string>)
    ensures |r| == if sides == [] then 1 else |sides|
  {
    if sides == [] then [code] else seq(|sides|, j requires 0 <= j < |sides| => code + [sides[j]])
  }

  /** Every code with every side letter, code-major. */
  function Combine(codes: seq<string>, sides: seq<char>): seq<string>
  {
    if codes == [] then [] else Combine(codes[..|codes| - 1], sides) + Row(codes[|codes| - 1], sides)
  }

  /** The positions of one comma-separated part. */
  function PartPositions(part: string): Result<seq<string>>
  {
    var codes :- CodesOf(part);
    Ok(Combine(codes, Sides(part)))
  }

  /** The positions of each part, concatenated; the first part without a code fails. */
  function PartsPositions(parts: seq<string>): Result<seq<string>>
  {
    if parts == [] then Ok([])
    else
      var before :- PartsPositions(parts[..|parts| - 1]);
      var last :- PartPositions(parts[|parts| - 1]);
      Ok(before + last)
  }

  /** The decoded positions of a position string: `_split_positions(s)`. */
  function Positions(s: string): Result<seq<string>>
  {
    PartsPositions(Split(s, ", "))
  }

  /** The number of positions a code list and a side list stand for. */
  function Count(codes: seq<string>, sides: seq<char>): nat
  {
    |codes| * (if sides == [] then 1 else |sides|)
  }

  /** The decoded list has one entry per code per side letter (per code when there are none). */
  lemma {:induction false} CombineLength(codes: seq<string>, sides: seq<char>)
    ensures |Combine(codes, sides)| == Count(codes, sides)
  {
    if codes != [] {
      var n := |codes|;
      CombineLength(codes[..n - 1], sides);
      var w := if sides == [] then 1 else |sides|;
      assert Count(codes, sides) == (n - 1) * w + w;
    }
  }

  lemma MulMonotone(a: nat, b: nat, w: nat)
    requires a <= b
    ensures a * w <= b * w
  {
  }

  /** Entry `i * |sides| + j` of the decoded list is code `i` followed by side letter `j`. */
  lemma {:induction false} CombineAt(codes: seq<string>, sides: seq<char>, i: nat, j: nat)
    requires i < |codes| && j < |sides|
    ensures i * |sides| + j < |Combine(codes, sides)|
    ensures Combine(codes, sides)[i * |sides| + j] == codes[i] + [sides[j]]
  {
    var n, w := |codes|, |sides|;
    var init := codes[..n - 1];
    var before := Combine(init, sides);
    var row := Row(codes[n - 1], sides);
    assert Combine(codes, sides) == before + row;
    CombineLength(init, sides);
    assert |before| == (n - 1) * w;
    if i < n - 1 {
      CombineAt(init, sides, i, j);
      assert init[i] == codes[i];
      MulMonotone(i + 1, n - 1, w);
      assert (i + 1) * w == i * w + w;
    } else {
      assert i * w + j == |before| + j;
      assert row[j] == codes[i] + [sides[j]];
    }
  }

  /** With no side letters each code stands alone: the decoded list is the code list. */
  lemma {:induction false} CombineWithoutSides(codes: seq<string>)
    ensures Combine(codes, []) == codes
  {
    if codes != [] {
      CombineWithoutSides(codes[..|codes| - 1]);
      assert codes == codes[..|codes| - 1] + [codes[|codes| - 1]];
    }
  }

  /** The number of positions each part stands for, summed over the parts. */
  function PartsCount(parts: seq<string>): nat
  {
    if parts == [] then 0
    else
      var last := parts[|parts| - 1];
      var here := match CodesOf(last) case Ok(codes) => Count(codes, Sides(last)) case Err(_) => 0;
      PartsCount(parts[..|parts| - 1]) + here
  }

  /** The decoded list has, summed over the parts, #codes * max(1, #sides) entries. */
  lemma {:induction false} PartsPositionsLength(parts: seq<string>)
    requires PartsPositions(parts).Ok?
    ensures |PartsPositions(parts).value| == PartsCount(parts)
  {
    if parts != [] {
      var last := parts[|parts| - 1];
      PartsPositionsLength(parts[..|parts| - 1]);
      CombineLength(CodesOf(last).value, Sides(last));
    }
  }

  /** Once a prefix of the parts fails, the whole decoding fails with the same error. */
  lemma {:induction false} PrefixFailure(parts: seq<string>, m: nat)
    requires m <= |parts| && PartsPositions(parts[..m]).Err?
    ensures PartsPositions(parts) == Err(PartsPositions(parts[..m]).error)
    decreases |parts| - m
  {
    if m == |parts| {
      assert parts[..m] == parts;
    } else {
      var init := parts[..|parts| - 1];
      assert init[..m] == parts[..m];
      if m < |init| {
        PrefixFailure(init, m);
      }
      assert PartsPositions(init) == Err(PartsPositions(parts[..m]).error);
    }
  }

  lemma CombineStep(codes: seq<string>, k: nat, sides: seq<char>)
    requires k < |codes|
    ensures Combine(codes[..k + 1], sides) == Combine(codes[..k], sides) + Row(codes[k], sides)
  {
    assert codes[..k + 1][..k] == codes[..k];
  }

  lemma PartsStep(parts: seq<string>, p: nat, done: seq<string>, codes: seq<string>)
    requires p < |parts| && PartsPositions(parts[..p]) == Ok(done)
    requires CodesOf(parts[p]) == Ok(codes)
    ensures PartsPositions(parts[..p + 1]) == Ok(done + Combine(codes, Sides(parts[p])))
  {
    assert parts[..p + 1][..p] == parts[..p];
  }

  /** The inner loops of `_split_positions`: every code with every side letter, code-major. */
  method CombineCodes(codes: seq<string>, sides: seq<char>) returns (combined: seq<string>)
    ensures combined == Combine(codes, sides)
  {
    combined := [];
    var k := 0;
    while k < |codes|
      invariant 0 <= k <= |codes|
      invariant combined == Combine(codes[..k], sides)
    {
      var row := Row(codes[k], sides);
      if sides != [] {
        var j := 0;
        while j < |sides|
          invariant 0 <= j <= |sides|
          invariant combined == Combine(codes[..k], sides) + row[..j]
        {
          assert row[..j + 1] == row[..j] + [codes[k] + [sides[j]]];
          combined := combined + [codes[k] + [sides[j]]];
          j := j + 1;
        }
        assert row[..j] == row;
      } else {
        combined := combined + [codes[k]];
      }
      CombineStep(codes, k, sides);
      k := k + 1;
    }
    assert codes[..|codes|] == codes;
  }

  /** `_split_positions`: split on ", ", then decode each part in turn. */
  method SplitPositions(s: string) returns (r: Result<seq<string>>)
    ensures r == Positions(s)
  {
    var parts := Split(s, ", ");
    var processed: seq<string> := [];
    var p := 0;
    while p < |parts|
      invariant 0 <= p <= |parts|
      invariant PartsPositions(parts[..p]) == Ok(processed)
    {
      var part := parts[p];
      var sides := Sides(part);
      var found := CodesOf(part);
      if found.Err? {
        assert parts[..p + 1][..p] == parts[..p];
        PrefixFailure(parts, p + 1);
        return Err(found.error);
      }
      var combined := CombineCodes(found.value, sides);
      PartsStep(parts, p, processed, found.value);
      processed := processed + combined;
      p := p + 1;
    }
    assert parts[..|parts|] == parts;
    r := Ok(processed);
  }

  /** Python's view of a position value as a sequence: `len(v)` and `v[i]`. */
  function Elements(v: Value): (r: Result<seq<Value>>)
    ensures v.IntList? ==> r == Ok(seq(|v.ints|, i requires 0 <= i < |v.ints| => Int(v.ints[i])))
    ensures v.TextList? ==> r == Ok(seq(|v.texts|, i requires 0 <= i < |v.texts| => Text(v.texts[i])))
    ensures v.Int? || v.Float? || v.NoneValue? ==> r == Err(TypeError)
  {
    match v
    case IntList(xs) => Ok(seq(|xs|, i requires 0 <= i < |xs| => Int(xs[i])))
    case TextList(ts) => Ok(seq(|ts|, i requires 0 <= i < |ts| => Text(ts[i])))
    case Text(s) => Ok(seq(|s|, i requires 0 <= i < |s| => Text([s[i]])))
    case _ => Err(TypeError)
  }

  /**
   * `_breakout_positions`: one copy of the group per entry of its `position`
   * list, in order, each with `position` set to that one entry.
   */
  function BrokenOut(table: Dict<Value>): (r: Result<seq<Dict<Value>>>)
    requires table.Valid()
    ensures "position" !in table.entries ==> r == Err(KeyError)
    ensures "position" in table.entries ==> (r.Ok? <==> Elements(table.entries["position"]).Ok?)
    ensures r.Ok? ==> var elements := Elements(table.entries["position"]).value;
      && |r.value| == |elements|
      && forall i :: 0 <= i < |r.value| ==>
        && r.value[i].Valid()
        && r.value[i].keys == table.keys
        && r.value[i].entries == table.entries["position" := elements[i]]
  {
    if "position" !in table.entries then Err(KeyError)
    else
      var elements :- Elements(table.entries["position"]);
      Ok(seq(|elements|, i requires 0 <= i < |elements| => table.Put("position", elements[i])))
  }

  /** The loop of `_breakout_positions`, appending one copy per entry. */
  method BreakoutPositions(table: Dict<Value>) returns (r: Result<seq<Dict<Value>>>)
    requires table.Valid()
    ensures r == BrokenOut(table)
  {
    if "position" !in table.entries {
      return Err(KeyError);
    }
    var found := Elements(table.entries["position"]);
    if found.Err? {
      return Err(found.error);
    }
    var elements := found.value;
    var groups: seq<Dict<Value>> := [];
    var i := 0;
    while i < |elements|
      invariant 0 <= i <= |elements|
      invariant |groups| == i
      invariant forall t :: 0 <= t < i ==> groups[t] == table.Put("position", elements[t])
    {
      var group := table.Put("position", elements[i]);
      groups := groups + [group];
      i := i + 1;
    }
    assert groups == BrokenOut(table).value;
    r := Ok(groups);
  }

  /** A string without a comma is a single part. */
  lemma SinglePart(s: string)
    requires ',' !in s
    ensures Split(s, ", ") == [s]
  {
    forall j | 0 <= j && j + 2 <= |s|
      ensures !OccursAt(s, ", ", j)
    {
      assert s[j..j + 2][0] == s[j];
    }
  }

  /** The decoding of a single part. */
  lemma SinglePartPositions(s: string)
    requires ',' !in s
    ensures Positions(s) == PartPositions(s)
  {
    SinglePart(s);
    assert [s][..0] == [];
    assert PartsPositions([]) == Ok([]);
    match PartPositions(s)
    case Ok(ps) =>
      assert [] + ps == ps;
    case Err(e) =>
  }

  lemma MidfieldParts()
    ensures CodesOf("M/AM (LC)") == Ok(["M", "AM"]) && Sides("M/AM (LC)") == "LC"
  {
    var s := "M/AM (LC)";
    assert FirstUpper(s, 0) == 0;
    var m := CodeAt(s, 0);
    assert m == "M";
    var am := CodeAt(s, 2);
    assert am == "AM";
    assert MoreCodes(s, 2 + |am|) == [];
    assert MoreCodes(s, 0 + |m|) == [am] + MoreCodes(s, 2 + |am|);
    assert [m] + MoreCodes(s, 0 + |m|) == ["M", "AM"];
    assert IndexOf(s, '(', 0) == 5;
    assert IndexOf(s, ')', 6) == 8;
    assert s[6..8] == "LC";
    assert Sides(s[9..]) == [];
    assert Sides(s) == s[6..8] + Sides(s[9..]);
  }

  lemma MidfieldCombined()
    ensures Combine(["M", "AM"], "LC") == ["ML", "MC", "AML", "AMC"]
  {
    var m, am := Row("M", "LC"), Row("AM", "LC");
    assert |m| == 2 && m[0] == "ML" && m[1] == "MC";
    assert |am| == 2 && am[0] == "AML" && am[1] == "AMC";
    assert ["M"][..0] == [];
    assert Combine(["M"], "LC") == Combine([], "LC") + m;
    assert ["M", "AM"][..1] == ["M"];
    assert Combine(["M", "AM"], "LC") == Combine(["M"], "LC") + am;
  }

  /** "M/AM (LC)" stands for ML, MC, AML and AMC. */
  lemma ExampleMidfield(s: string)
    requires s == "M/AM (LC)"
    ensures Positions(s) == Ok(["ML", "MC", "AML", "AMC"])
  {
    SinglePartPositions(s);
    MidfieldParts();
    MidfieldCombined();
  }

  lemma DefenceParts()
    ensures CodesOf("D (RLC)") == Ok(["D"]) && Sides("D (RLC)") == "RLC"
  {
    var s := "D (RLC)";
    assert FirstUpper(s, 0) == 0;
    var c := CodeAt(s, 0);
    assert c == "D";
    assert MoreCodes(s, 0 + |c|) == [];
    assert [c] + MoreCodes(s, 0 + |c|) == ["D"];
    assert IndexOf(s, '(', 0) == 2;
    assert IndexOf(s, ')', 3) == 6;
    assert s[3..6] == "RLC";
    assert Sides(s[7..]) == [];
    assert Sides(s) == s[3..6] + Sides(s[7..]);
  }

  lemma DefenceCombined()
    ensures Combine(["D"], "RLC") == ["DR", "DL", "DC"]
  {
    var d := Row("D", "RLC");
    assert |d| == 3 && d[0] == "DR" && d[1] == "DL" && d[2] == "DC";
    assert ["D"][..0] == [];
    assert Combine(["D"], "RLC") == Combine([], "RLC") + d;
  }

  /** "D (RLC)" stands for DR, DL and DC. */
  lemma ExampleDefence(s: string)
    requires s == "D (RLC)"
    ensures Positions(s) == Ok(["DR", "DL", "DC"])
  {
    SinglePartPositions(s);
    DefenceParts();
    DefenceCombined();
  }

  /** "GK" has no side letters and stands for itself. */
  lemma ExampleGoalkeeper()
    ensures Positions("GK") == Ok(["GK"])
  {
    var s := "GK";
    SinglePartPositions(s);
    assert CodesOf(s) == Ok(["GK"]) by {
      assert FirstUpper(s, 0) == 0;
      var c := CodeAt(s, 0);
      assert c == "GK";
      assert MoreCodes(s, 0 + |c|) == [];
      assert [c] + MoreCodes(s, 0 + |c|) == ["GK"];
      assert CodesOf(s) == Ok([c] + MoreCodes(s, 0 + |c|));
    }
    assert Sides(s) == [] by {
      assert IndexOf(s, '(', 0) == -1;
    }
    assert Combine(["GK"], []) == ["GK"] by {
      assert ["GK"][..0] == [];
      assert Combine(["GK"], []) == Combine([], []) + Row("GK", []);
    }
    assert PartPositions(s) == Ok(Combine(["GK"], []));
  }
}
