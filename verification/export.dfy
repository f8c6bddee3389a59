/**
 * The `|`-delimited player export: which lines hold players, how a line is
 * cut into cells, and how a range of cells becomes a group keyed by corrected
 * column names (`_format_tables` in preprocess_data.py, `group_values` in
 * process_data.py).
 */
module Export {
  import opened Outcomes
  import opened Strings
  import opened Dicts

  /** The column-name corrections of preprocess_data.py, keyed by the lower-cased header. */
  const PreprocessAliases: map<string, string> := map[
    "aer a/90" := "aerA", "hdrs w/90" := "hdrsW", "blk/90" := "blk", "clr/90" := "clr",
    "tck/90" := "tckC", "pres a/90" := "presA", "pres c/90" := "presC",
    "int/90" := "interceptions", "sprints/90" := "sprints", "poss lost/90" := "possLost",
    "poss won/90" := "possWon", "drb/90" := "drb", "op-crs a/90" := "opCrsA",
    "op-crs c/90" := "opCrsC", "ps a/90" := "psA", "ps c/90" := "psC",
    "pr passes/90" := "prPasses", "op-kp/90" := "opKp", "ch c/90" := "chC", "xa/90" := "xa",
    "shot/90" := "shot", "sht/90" := "sht", "np-xg/90" := "npXg", "dec" := "decisions",
    "1v1" := "oneVsOne", "l th" := "lth", "right foot" := "rightfoot",
    "left foot" := "leftfoot", "begins" := "beginDate", "expires" := "expiryDate",
    "opt ext by club" := "extension", "min fee rls" := "releaseClauseFee", "str" := "strength"]

  /**
   * The column-name corrections of process_data.py: the same table, plus
   * `uid`, and with camel-case feet.
   */
  const ProcessAliases: map<string, string> :=
    PreprocessAliases["uid" := "UID"]["right foot" := "rightFoot"]["left foot" := "leftFoot"]

  /** The group key of a header: `aliases.get(h.lower(), h.lower())`. */
  function HeaderKey(aliases: map<string, string>, h: string): string
  {
    var l := Lower(h);
    if l in aliases then aliases[l] else l
  }

  function HeaderKeys(aliases: map<string, string>, hs: seq<string>): (ks: seq<string>)
    ensures |ks| == |hs|
  {
    seq(|hs|, i requires 0 <= i < |hs| => HeaderKey(aliases, hs[i]))
  }

  /** No later entry of `keys` repeats entry `i`. */
  predicate LastOccurrence(keys: seq<string>, i: int)
  {
    0 <= i < |keys| && forall j :: i < j < |keys| ==> keys[j] != keys[i]
  }

  /** Every cell stripped of surrounding whitespace. */
  function StripAll(cs: seq<string>): (r: seq<string>)
    ensures |r| == |cs|
  {
    seq(|cs|, i requires 0 <= i < |cs| => Strip(cs[i]))
  }

  /**
   * `dict(zip(keys, cs))`: one entry per distinct key; the keys keep the
   * order of their first occurrence.
   */
  function Pairs(keys: seq<string>, cs: seq<string>): (d: Dict<string>)
    requires |keys| == |cs|
    ensures d.Valid()
    ensures |d.keys| <= |keys|
    ensures forall k :: k in d.entries <==> k in keys
    decreases |keys|
  {
    if keys == [] then Empty()
    else
      var n := |keys|;
      assert keys == keys[..n - 1] + [keys[n - 1]];
      Pairs(keys[..n - 1], cs[..n - 1]).Put(keys[n - 1], cs[n - 1])
  }

  /** The last pair sets its key's cell over what the earlier pairs made. */
  lemma PairsSnoc(keys: seq<string>, cs: seq<string>)
    requires |keys| == |cs| > 0
    ensures var n := |keys|;
      Pairs(keys, cs).entries == Pairs(keys[..n - 1], cs[..n - 1]).entries[keys[n - 1] := cs[n - 1]]
  {
  }

  /** Each key holds the cell of its last occurrence. */
  lemma {:induction false} PairsLastWins(keys: seq<string>, cs: seq<string>, i: nat)
    requires |keys| == |cs| && LastOccurrence(keys, i)
    ensures Pairs(keys, cs).entries[keys[i]] == cs[i]
    decreases |keys|
  {
    var n := |keys|;
    PairsSnoc(keys, cs);
    if i < n - 1 {
      assert LastOccurrence(keys[..n - 1], i);
      PairsLastWins(keys[..n - 1], cs[..n - 1], i);
      assert keys[n - 1] != keys[i];
    }
  }

  /** With distinct keys, the group has one entry per key, in order. */
  lemma {:induction false} PairsInOrder(keys: seq<string>, cs: seq<string>)
    requires |keys| == |cs| && NoDuplicates(keys)
    ensures Pairs(keys, cs).keys == keys
    decreases |keys|
  {
    if keys != [] {
      var n := |keys|;
      var init, last := keys[..n - 1], keys[n - 1];
      assert NoDuplicates(init) by {
        forall a, b | 0 <= a < b < |init|
          ensures init[a] != init[b]
        {
          assert init[a] == keys[a] && init[b] == keys[b];
        }
      }
      assert last !in init by {
        forall a | 0 <= a < |init|
          ensures init[a] != last
        {
          assert init[a] == keys[a];
        }
      }
      PairsInOrder(init, cs[..n - 1]);
      var before := Pairs(init, cs[..n - 1]);
      assert last !in before.entries;
      assert Pairs(keys, cs) == before.Put(last, cs[n - 1]);
      assert init + [last] == keys;
    }
  }

  /** An inclusive column range `(start, end)` of the export. */
  type Range = (int, int)

  /** Python's `xs[start:end + 1]`. */
  function Window<T>(xs: seq<T>, range: Range): seq<T>
  {
    Slice(xs, range.0, range.1 + 1)
  }

  /**
   * `_format_tables(headers, line, range)` / `group_values(headers, line, range)`:
   * the headers and cells of columns start..end, paired by position.
   */
  function FormatTable(aliases: map<string, string>, headers: seq<string>, cells: seq<string>, range: Range): (d: Dict<string>)
    ensures d.Valid()
    ensures 0 <= range.0 && 0 <= range.1 + 1 ==> |d.keys| <= if range.1 + 1 - range.0 < 0 then 0 else range.1 + 1 - range.0
  {
    var hs, cs := Window(headers, range), Window(cells, range);
    var n := if |hs| < |cs| then |hs| else |cs|;
    Pairs(HeaderKeys(aliases, hs[..n]), StripAll(cs[..n]))
  }

  /** Within a range that fits both rows, the group pairs exactly that range's headers and cells. */
  lemma FormatTableInRange(aliases: map<string, string>, headers: seq<string>, cells: seq<string>, range: Range)
    requires 0 <= range.0 <= range.1 < |headers| && range.1 < |cells|
    ensures FormatTable(aliases, headers, cells, range)
      == Pairs(HeaderKeys(aliases, headers[range.0..range.1 + 1]), StripAll(cells[range.0..range.1 + 1]))
  {
    var hs, cs := Window(headers, range), Window(cells, range);
    var n := if |hs| < |cs| then |hs| else |cs|;
    assert hs[..n] == headers[range.0..range.1 + 1];
    assert cs[..n] == cells[range.0..range.1 + 1];
  }

  /** The preprocess_data.py key of "Aer A/90" is "aerA", whose own key is "aera": aliasing is not idempotent. */
  lemma AliasNotIdempotent()
    ensures HeaderKey(PreprocessAliases, "Aer A/90") == "aerA"
    ensures HeaderKey(PreprocessAliases, "aerA") == "aera"
  {
    AerRenamed();
    AerKept();
  }

  /** The header "Aer A/90" is renamed to "aerA". */
  lemma AerRenamed()
    ensures HeaderKey(PreprocessAliases, "Aer A/90") == "aerA"
  {
    var h := "Aer A/90";
    assert Lower(h) == "aer a/90" by {
      assert |Lower(h)| == 8;
      forall i | 0 <= i < 8
        ensures Lower(h)[i] == "aer a/90"[i]
      {
      }
    }
  }

  /** The renamed "aerA" is no alias and only lower-cased. */
  lemma AerKept()
    ensures HeaderKey(PreprocessAliases, "aerA") == "aera"
  {
    assert Lower("aerA") == "aera" by {
      assert |Lower("aerA")| == 4;
      forall i | 0 <= i < 4
        ensures Lower("aerA")[i] == "aera"[i]
      {
      }
    }
  }

  /** The player-line test: `line != '\n' and line[3] != '-'`; a shorter line raises IndexError. */
  function IsDataLine(line: string): Result<bool>
  {
    if line == "\n" then Ok(false)
    else if |line| < 4 then Err(IndexError)
    else Ok(line[3] != '-')
  }

  /**
   * The lines a pass over the export body processes, in order, and the
   * error that stops the pass at the first line too short to inspect.
   */
  function SelectLines(lines: seq<string>): (r: (seq<string>, Option<Error>))
    ensures forall l :: l in r.0 ==> l in lines && IsDataLine(l) == Ok(true)
    ensures r.1.None? <==> forall i :: 0 <= i < |lines| ==> IsDataLine(lines[i]).Ok?
    ensures r.1.None? ==> forall l :: l in lines && IsDataLine(l) == Ok(true) ==> l in r.0
    ensures r.1.Some? ==> r.1.value == IndexError
    ensures |r.0| <= |lines|
  {
    if lines == [] then ([], None)
    else
      var init, l := lines[..|lines| - 1], lines[|lines| - 1];
      var sofar := SelectLines(init);
      assert forall i :: 0 <= i < |init| ==> lines[i] == init[i];
      assert forall x :: x in lines <==> x in init || x == l;
      SelectStep(sofar, l)
  }

  /** One more line inspected: kept if it is a player line, stopping the pass if it is too short to inspect. */
  function SelectStep(sofar: (seq<string>, Option<Error>), l: string): (seq<string>, Option<Error>)
  {
    if sofar.1.Some? then sofar
    else
      match IsDataLine(l)
      case Err(e) => (sofar.0, Some(e))
      case Ok(keep) => (sofar.0 + (if keep then [l] else []), None)
  }

  /** The player lines of `lines`, front to back, each as often as it occurs. */
  function PlayerLines(lines: seq<string>): seq<string>
  {
    if lines == [] then []
    else (if IsDataLine(lines[0]) == Ok(true) then [lines[0]] else []) + PlayerLines(lines[1..])
  }

  /** The index of the first line too short to inspect, or `|lines|` when there is none. */
  function FirstShort(lines: seq<string>): (k: nat)
    ensures k <= |lines|
    ensures forall i :: 0 <= i < k ==> IsDataLine(lines[i]).Ok?
    ensures k < |lines| ==> IsDataLine(lines[k]).Err?
  {
    if lines == [] then 0
    else if IsDataLine(lines[0]).Err? then 0
    else 1 + FirstShort(lines[1..])
  }

  lemma {:induction false} PlayerLinesSnoc(xs: seq<string>, l: string)
    ensures PlayerLines(xs + [l]) == PlayerLines(xs) + (if IsDataLine(l) == Ok(true) then [l] else [])
  {
    if xs != [] {
      assert (xs + [l])[1..] == xs[1..] + [l];
      PlayerLinesSnoc(xs[1..], l);
    } else {
      assert [l][1..] == [];
    }
  }

  /**
   * The pass processes exactly the player lines before the first line too
   * short to inspect, in order and with repetitions; it stops with an error
   * exactly when there is such a line.
   */
  lemma {:induction false} SelectLinesMeaning(lines: seq<string>)
    ensures SelectLines(lines).0 == PlayerLines(lines[..FirstShort(lines)])
    ensures SelectLines(lines).1.None? <==> FirstShort(lines) == |lines|
  {
    if lines != [] {
      var init, l := lines[..|lines| - 1], lines[|lines| - 1];
      assert init + [l] == lines;
      SelectLinesMeaning(init);
      var k0 := FirstShort(init);
      var k := FirstShort(lines);
      assert forall i :: 0 <= i < |init| ==> lines[i] == init[i];
      if k0 < |init| {
        assert k == k0;
        assert lines[..k] == init[..k0];
      } else if IsDataLine(l).Err? {
        assert k == |init|;
        assert lines[..k] == init;
        assert init[..k0] == init;
      } else {
        assert k == |lines|;
        assert init[..k0] == init;
        assert lines[..k] == lines;
        PlayerLinesSnoc(init, l);
      }
    }
  }

  /** A body made only of player lines is processed line for line. */
  lemma {:induction false} PlayerLinesAllKept(lines: seq<string>)
    requires forall i :: 0 <= i < |lines| ==> |lines[i]| >= 4 && lines[i][3] != '-'
    ensures SelectLines(lines) == (lines, None)
  {
    if lines != [] {
      var init := lines[..|lines| - 1];
      assert lines[|lines| - 1] != "\n";
      PlayerLinesAllKept(init);
      assert init + [lines[|lines| - 1]] == lines;
    }
  }

  /** The header line: the ninth line, after the 8-line preamble (`readline()` gives "" past the end). */
  function HeaderLine(lines: seq<string>): string
  {
    if |lines| > 8 then lines[8] else ""
  }

  /** The lines after the header. */
  function BodyLines(lines: seq<string>): seq<string>
  {
    if |lines| > 9 then lines[9..] else []
  }

  /** The header cells: `[h.strip() for h in line.split('|')][1:-3]`. */
  function HeaderCells(line: string): seq<string>
  {
    Slice(StripAll(Split(line, "|")), 1, -3)
  }

  /** A player line's cells: `line.rstrip('\n').split('|')[1:-3]`. */
  function RowCells(line: string): seq<string>
  {
    Slice(Split(StripRightChar(line, '\n'), "|"), 1, -3)
  }

  /** Pieces that can be joined by '|' and split back. */
  predicate Unbarred(pieces: seq<string>)
  {
    forall i :: 0 <= i < |pieces| ==> '|' !in pieces[i]
  }

  /**
   * A player line is a leading piece, the cells, and three trailing pieces,
   * joined by '|' and ended by a newline; its cells are exactly those cells.
   */
  lemma RowCellsOfLine(lead: string, cells: seq<string>, trail: seq<string>)
    requires |trail| == 3 && Unbarred([lead] + cells + trail)
    requires trail[2] == [] || trail[2][|trail[2]| - 1] != '\n'
    ensures RowCells(Join([lead] + cells + trail, "|") + "\n") == cells
  {
    var pieces := [lead] + cells + trail;
    var n := |pieces|;
    var body := Join(pieces, "|");
    JoinSnoc(pieces[..n - 1], pieces[n - 1], "|");
    assert pieces[..n - 1] + [pieces[n - 1]] == pieces;
    assert body != [] && body[|body| - 1] != '\n';
    assert StripRightChar(body + "\n", '\n') == StripRightChar(body, '\n');
    SplitJoin(pieces, '|');
    assert pieces[1..n - 3] == cells;
  }

  /** Stripping commutes with taking a slice. */
  lemma StripAllSlice(cs: seq<string>, lo: nat, hi: nat)
    requires lo <= hi <= |cs|
    ensures StripAll(cs)[lo..hi] == StripAll(cs[lo..hi])
  {
    assert forall i :: 0 <= i < hi - lo ==> StripAll(cs)[lo..hi][i] == Strip(cs[lo + i]) == StripAll(cs[lo..hi])[i];
  }

  /** Splitting the joined pieces with a newline after them gives the pieces, the last one with the newline. */
  lemma SplitWithNewline(init: seq<string>, x: string)
    requires init != [] && Unbarred(init + [x])
    ensures Split(Join(init + [x], "|") + "\n", "|") == init + [x + "\n"]
  {
    var last := init + [x + "\n"];
    JoinSnoc(init, x, "|");
    JoinSnoc(init, x + "\n", "|");
    var head := Join(init, "|") + "|";
    assert Join(init + [x], "|") + "\n" == Join(last, "|") by {
      assert (head + x) + "\n" == head + (x + "\n");
    }
    forall i | 0 <= i < |last|
      ensures '|' !in last[i]
    {
      if i < |init| {
        assert last[i] == (init + [x])[i];
      } else {
        assert (init + [x])[i] == x && last[i] == x + "\n";
      }
    }
    SplitJoin(last, '|');
  }

  /** The header line built the same way gives the stripped header names. */
  lemma HeaderCellsOfLine(lead: string, names: seq<string>, trail: seq<string>)
    requires |trail| == 3 && Unbarred([lead] + names + trail)
    ensures HeaderCells(Join([lead] + names + trail, "|") + "\n") == StripAll(names)
  {
    var pieces := [lead] + names + trail;
    var n := |pieces|;
    var last := pieces[..n - 1] + [pieces[n - 1] + "\n"];
    assert pieces[..n - 1] + [pieces[n - 1]] == pieces;
    SplitWithNewline(pieces[..n - 1], pieces[n - 1]);
    assert last[1..n - 3] == names;
    StripAllSlice(last, 1, n - 3);
  }

  /** The cell ranges of the seven groups of a player line. */
  datatype Ranges = Ranges(
    stats: Range, attributes: Range, contract: Range, natTeam: Range,
    ca: Range, player: Range, info: Range)

  /** The default ranges of `from_rtf_file` and `Process.__call__`. */
  const DefaultRanges := Ranges((0, 22), (23, 69), (70, 75), (76, 78), (79, 79), (80, 81), (82, 91))
}
