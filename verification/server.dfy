/**
 * `Interact._collapse_list`: the rows of a one-to-many table, one ORM object
 * per row, collapsed into one dict. Every field takes the value of the last
 * object, and the positions of all objects are joined into one string.
 * An object is modelled by its attributes; `getattr` of a missing one is an
 * `AttributeError`.
 */
module Server {
  import opened Outcomes
  import opened Strings
  import opened Dicts

  /** Each of the objects has every one of the fields as an attribute. */
  predicate HasFields(objs: seq<Dict<Value>>, fields: seq<string>) {
    forall j, k :: 0 <= j < |objs| && 0 <= k < |fields| ==> fields[k] in objs[j].entries
  }

  /** `data[field] = getattr(o, field)` for the first `i` fields. */
  function Assign(d: Dict<Value>, o: Dict<Value>, fields: seq<string>, i: nat): (r: Dict<Value>)
    requires d.Valid() && i <= |fields| && forall k :: 0 <= k < i ==> fields[k] in o.entries
    ensures r.Valid()
  {
    if i == 0 then d
    else Assign(d, o, fields, i - 1).Put(fields[i - 1], o.entries[fields[i - 1]])
  }

  /** The dict after the first `p` objects. */
  function Assigned(objs: seq<Dict<Value>>, fields: seq<string>, p: nat): (r: Dict<Value>)
    requires p <= |objs| && HasFields(objs[..p], fields)
    ensures r.Valid()
  {
    if p == 0 then Empty()
    else
      assert HasFields(objs[..p - 1], fields) by {
        assert forall j :: 0 <= j < p - 1 ==> objs[..p - 1][j] == objs[..p][j];
      }
      assert forall k :: 0 <= k < |fields| ==> fields[k] in objs[..p][p - 1].entries;
      Assign(Assigned(objs, fields, p - 1), objs[p - 1], fields, |fields|)
  }

  /** `positions.append(val)` for each of the first `i` fields that is `position`. */
  function PositionsOf(o: Dict<Value>, fields: seq<string>, i: nat): seq<Value>
    requires i <= |fields| && forall k :: 0 <= k < i ==> fields[k] in o.entries
  {
    if i == 0 then []
    else PositionsOf(o, fields, i - 1) + (if fields[i - 1] == "position" then [o.entries["position"]] else [])
  }

  /** The positions collected from the first `p` objects. */
  function Collected(objs: seq<Dict<Value>>, fields: seq<string>, p: nat): seq<Value>
    requires p <= |objs| && HasFields(objs[..p], fields)
  {
    if p == 0 then []
    else
      assert HasFields(objs[..p - 1], fields) by {
        assert forall j :: 0 <= j < p - 1 ==> objs[..p - 1][j] == objs[..p][j];
      }
      assert forall k :: 0 <= k < |fields| ==> fields[k] in objs[..p][p - 1].entries;
      Collected(objs, fields, p - 1) + PositionsOf(objs[p - 1], fields, |fields|)
  }

  predicate AllText(vs: seq<Value>) {
    forall i :: 0 <= i < |vs| ==> vs[i].Text?
  }

  function Texts(vs: seq<Value>): (ts: seq<string>)
    requires AllText(vs)
    ensures |ts| == |vs| && forall i :: 0 <= i < |vs| ==> ts[i] == vs[i].s
  {
    seq(|vs|, i requires 0 <= i < |vs| => vs[i].s)
  }

  /** `_collapse_list(obj, table_fields)`. */
  ghost function CollapseResult(objs: seq<Dict<Value>>, fields: seq<string>): Result<Dict<Value>>
  {
    if !HasFields(objs, fields) then Err(AttributeError)
    else
      assert objs[..|objs|] == objs;
      var data := Assigned(objs, fields, |objs|);
      var positions := Collected(objs, fields, |objs|);
      if positions == [] then Ok(data)
      else if !AllText(positions) then Err(TypeError)
      else Ok(data.Put("position", Text(Join(Texts(positions), ", "))))
  }

  /** One object's attributes copied into the dict, and its positions collected. */
  method CopyFields(data: Dict<Value>, o: Dict<Value>, fields: seq<string>, positions: seq<Value>)
    returns (r: Result<(Dict<Value>, seq<Value>)>)
    requires data.Valid()
    ensures r == if forall k :: 0 <= k < |fields| ==> fields[k] in o.entries
      then Ok((Assign(data, o, fields, |fields|), positions + PositionsOf(o, fields, |fields|)))
      else Err(AttributeError)
  {
    var d, ps := data, positions;
    var i := 0;
    while i < |fields| && fields[i] in o.entries
      invariant i <= |fields| && Copied(data, o, fields, positions, i, d, ps)
    {
      d, ps := CopiedStep(data, o, fields, positions, i, d, ps);
      i := i + 1;
    }
    if i < |fields| {
      return Err(AttributeError);
    }
    return Ok((d, ps));
  }

  /** The state after the first `i` fields of one object. */
  predicate Copied(data: Dict<Value>, o: Dict<Value>, fields: seq<string>, positions: seq<Value>, i: nat,
                   d: Dict<Value>, ps: seq<Value>)
    requires data.Valid() && i <= |fields|
  {
    && (forall k :: 0 <= k < i ==> fields[k] in o.entries)
    && d == Assign(data, o, fields, i)
    && ps == positions + PositionsOf(o, fields, i)
  }

  /** `data[field] = val`, then `positions.append(val)` for a `position` field. */
  method CopiedStep(data: Dict<Value>, o: Dict<Value>, fields: seq<string>, positions: seq<Value>, i: nat,
                    d: Dict<Value>, ps: seq<Value>) returns (d': Dict<Value>, ps': seq<Value>)
    requires data.Valid() && i < |fields| && Copied(data, o, fields, positions, i, d, ps)
    requires fields[i] in o.entries
    ensures Copied(data, o, fields, positions, i + 1, d', ps')
  {
    var field := fields[i];
    var val := o.entries[field];
    d' := d.Put(field, val);
    ps' := if field == "position" then ps + [val] else ps;
  }

  /** The loop over the objects, then the join of the positions if there are any. */
  method CollapseList(objs: seq<Dict<Value>>, fields: seq<string>) returns (r: Result<Dict<Value>>)
    ensures r == CollapseResult(objs, fields)
    ensures objs == [] ==> r == Ok(Empty())
  {
    var data := Empty();
    var positions := [];
    var p := 0;
    while p < |objs|
      invariant p <= |objs| && HasFields(objs[..p], fields)
      invariant data == Assigned(objs, fields, p) && positions == Collected(objs, fields, p)
    {
      var step := CopyFields(data, objs[p], fields, positions);
      if step.Err? {
        assert !HasFields(objs, fields) by {
          var k :| 0 <= k < |fields| && fields[k] !in objs[p].entries;
        }
        return Err(AttributeError);
      }
      HasFieldsSnoc(objs, fields, p);
      data, positions := step.value.0, step.value.1;
      p := p + 1;
    }
    assert objs[..p] == objs;
    if positions != [] {
      if !AllText(positions) {
        return Err(TypeError);
      }
      data := data.Put("position", Text(Join(Texts(positions), ", ")));
    }
    return Ok(data);
  }

  /** The objects up to `p` have the fields when those before it and `objs[p]` have them. */
  lemma HasFieldsSnoc(objs: seq<Dict<Value>>, fields: seq<string>, p: nat)
    requires p < |objs| && HasFields(objs[..p], fields)
    requires forall k :: 0 <= k < |fields| ==> fields[k] in objs[p].entries
    ensures HasFields(objs[..p + 1], fields)
    ensures objs[..p + 1][p] == objs[p] && objs[..p + 1][..p] == objs[..p]
  {
    assert forall j :: 0 <= j < p ==> objs[..p + 1][j] == objs[..p][j];
  }

  /** The entries `m` after `m[field] = getattr(o, field)` for the first `i` fields. */
  function AssignedEntries(m: map<string, Value>, o: Dict<Value>, fields: seq<string>, i: nat): map<string, Value>
    requires i <= |fields| && forall k :: 0 <= k < i ==> fields[k] in o.entries
  {
    if i == 0 then m
    else AssignedEntries(m, o, fields, i - 1)[fields[i - 1] := o.entries[fields[i - 1]]]
  }

  /** Assigning the fields changes a dict's entries as it changes a bare map. */
  lemma {:induction false} AssignEntries(d: Dict<Value>, o: Dict<Value>, fields: seq<string>, i: nat)
    requires d.Valid() && i <= |fields| && forall k :: 0 <= k < i ==> fields[k] in o.entries
    ensures Assign(d, o, fields, i).entries == AssignedEntries(d.entries, o, fields, i)
  {
    if i > 0 {
      AssignEntries(d, o, fields, i - 1);
      var f := fields[i - 1];
      var before := Assign(d, o, fields, i - 1);
      assert Assign(d, o, fields, i) == before.Put(f, o.entries[f]);
      assert before.Put(f, o.entries[f]).entries == before.entries[f := o.entries[f]];
    }
  }

  /** After the first `i` fields, each of them holds the object's value; other keys are untouched. */
  lemma {:induction false} AssignedEntriesMeaning(m: map<string, Value>, o: Dict<Value>, fields: seq<string>, i: nat, key: string)
    requires i <= |fields| && forall k :: 0 <= k < i ==> fields[k] in o.entries
    ensures key in AssignedEntries(m, o, fields, i) <==> key in m || key in fields[..i]
    ensures key in fields[..i] ==> AssignedEntries(m, o, fields, i)[key] == o.entries[key]
    ensures key !in fields[..i] && key in m ==> AssignedEntries(m, o, fields, i)[key] == m[key]
  {
    if i > 0 {
      AssignedEntriesMeaning(m, o, fields, i - 1, key);
      assert fields[..i] == fields[..i - 1] + [fields[i - 1]];
    }
  }

  /** After one object, each of the fields holds that object's value; other keys are untouched. */
  lemma AssignMeaning(d: Dict<Value>, o: Dict<Value>, fields: seq<string>, i: nat, key: string)
    requires d.Valid() && i <= |fields| && forall k :: 0 <= k < i ==> fields[k] in o.entries
    ensures key in Assign(d, o, fields, i).entries <==> key in d.entries || key in fields[..i]
    ensures key in fields[..i] ==> Assign(d, o, fields, i).entries[key] == o.entries[key]
    ensures key !in fields[..i] && key in d.entries ==> Assign(d, o, fields, i).entries[key] == d.entries[key]
  {
    AssignEntries(d, o, fields, i);
    AssignedEntriesMeaning(d.entries, o, fields, i, key);
  }

  /**
   * After a non-empty list of objects, the dict has exactly the fields as
   * keys, each holding the last object's value.
   */
  lemma {:induction false} AssignedMeaning(objs: seq<Dict<Value>>, fields: seq<string>, p: nat, key: string)
    requires 0 < p <= |objs| && HasFields(objs[..p], fields)
    ensures key in Assigned(objs, fields, p).entries <==> key in fields
    ensures key in fields ==> Assigned(objs, fields, p).entries[key] == objs[p - 1].entries[key]
  {
    assert HasFields(objs[..p - 1], fields) by {
      assert forall j :: 0 <= j < p - 1 ==> objs[..p - 1][j] == objs[..p][j];
    }
    assert forall k :: 0 <= k < |fields| ==> fields[k] in objs[..p][p - 1].entries;
    assert fields[..|fields|] == fields;
    var before := Assigned(objs, fields, p - 1);
    AssignMeaning(before, objs[p - 1], fields, |fields|, key);
    if p > 1 {
      AssignedMeaning(objs, fields, p - 1, key);
    }
  }

  /** With `position` once among the fields, the positions are those of every object, in order. */
  lemma {:induction false} CollectedPositions(objs: seq<Dict<Value>>, fields: seq<string>, p: nat)
    requires p <= |objs| && HasFields(objs[..p], fields)
    requires "position" in fields && NoDuplicates(fields)
    ensures |Collected(objs, fields, p)| == p
    ensures forall j :: 0 <= j < p ==> Collected(objs, fields, p)[j] == objs[j].entries["position"]
  {
    if p > 0 {
      assert HasFields(objs[..p - 1], fields) by {
        assert forall j :: 0 <= j < p - 1 ==> objs[..p - 1][j] == objs[..p][j];
      }
      assert forall k :: 0 <= k < |fields| ==> fields[k] in objs[..p][p - 1].entries;
      CollectedPositions(objs, fields, p - 1);
      PositionsOnce(objs[p - 1], fields, |fields|);
    }
  }

  /** One object contributes its position once per `position` field: once, for distinct fields. */
  lemma {:induction false} PositionsOnce(o: Dict<Value>, fields: seq<string>, i: nat)
    requires i <= |fields| && forall k :: 0 <= k < i ==> fields[k] in o.entries
    requires NoDuplicates(fields)
    ensures PositionsOf(o, fields, i) == if "position" in fields[..i] then [o.entries["position"]] else []
  {
    if i > 0 {
      PositionsOnce(o, fields, i - 1);
      assert fields[..i] == fields[..i - 1] + [fields[i - 1]];
      if fields[i - 1] == "position" {
        assert "position" !in fields[..i - 1];
      }
    }
  }

  /** Without a `position` field, nothing is collected. */
  lemma {:induction false} NoPositions(objs: seq<Dict<Value>>, fields: seq<string>, p: nat)
    requires p <= |objs| && HasFields(objs[..p], fields) && "position" !in fields
    ensures Collected(objs, fields, p) == []
  {
    if p > 0 {
      assert HasFields(objs[..p - 1], fields) by {
        assert forall j :: 0 <= j < p - 1 ==> objs[..p - 1][j] == objs[..p][j];
      }
      assert forall k :: 0 <= k < |fields| ==> fields[k] in objs[..p][p - 1].entries;
      NoPositions(objs, fields, p - 1);
      NoPositionOf(objs[p - 1], fields, |fields|);
    }
  }

  lemma {:induction false} NoPositionOf(o: Dict<Value>, fields: seq<string>, i: nat)
    requires i <= |fields| && forall k :: 0 <= k < i ==> fields[k] in o.entries
    requires "position" !in fields
    ensures PositionsOf(o, fields, i) == []
  {
    if i > 0 {
      NoPositionOf(o, fields, i - 1);
      assert fields[i - 1] in fields;
    }
  }

  /**
   * A successful collapse of a non-empty list of objects with distinct fields
   * has exactly the fields as keys; every field other than `position` holds
   * the last object's value, and `position` holds every object's position,
   * joined with `", "` in object order.
   */
  lemma CollapseMeaning(objs: seq<Dict<Value>>, fields: seq<string>, key: string)
    requires objs != [] && NoDuplicates(fields) && CollapseResult(objs, fields).Ok?
    ensures key in CollapseResult(objs, fields).value.entries <==> key in fields
    ensures key in fields && key != "position" ==>
      CollapseResult(objs, fields).value.entries[key] == objs[|objs| - 1].entries[key]
    ensures key == "position" && key in fields ==>
      && AllText(seq(|objs|, j requires 0 <= j < |objs| => objs[j].entries["position"]))
      && CollapseResult(objs, fields).value.entries[key] ==
         Text(Join(Texts(seq(|objs|, j requires 0 <= j < |objs| => objs[j].entries["position"])), ", "))
  {
    assert objs[..|objs|] == objs;
    var n := |objs|;
    AssignedMeaning(objs, fields, n, key);
    if "position" in fields {
      CollectedPositions(objs, fields, n);
      var all := seq(n, j requires 0 <= j < n => objs[j].entries["position"]);
      assert Collected(objs, fields, n) == all;
    } else {
      NoPositions(objs, fields, n);
    }
  }

  /** The collapse fails exactly on a missing attribute, or a position that is not a string. */
  lemma CollapseErrors(objs: seq<Dict<Value>>, fields: seq<string>)
    requires NoDuplicates(fields)
    ensures CollapseResult(objs, fields) == Err(AttributeError) <==> !HasFields(objs, fields)
    ensures CollapseResult(objs, fields) == Err(TypeError) <==>
      && HasFields(objs, fields) && "position" in fields
      && exists j :: 0 <= j < |objs| && !objs[j].entries["position"].Text?
  {
    assert objs[..|objs|] == objs;
    if HasFields(objs, fields) {
      var n := |objs|;
      if "position" in fields {
        CollectedPositions(objs, fields, n);
        var c := Collected(objs, fields, n);
        if exists j :: 0 <= j < n && !objs[j].entries["position"].Text? {
          var j :| 0 <= j < n && !objs[j].entries["position"].Text?;
          assert !c[j].Text?;
        }
      } else {
        NoPositions(objs, fields, n);
      }
    }
  }
}
