# Football-Manager-scouting, modelled in Dafny

This project models the sequential core of Football-Manager-scouting in Dafny. That tool turns a
Football Manager player export (a `|`-delimited text grid) into cleaned, per-category groups
for a database, and then scores and charts players against a comparison population.

The model covers two parts.

- **The row-normalisation pipeline, in both of its generations.**
  - `Preprocess` (preprocess_data.py) is the current one. It keeps run-scoped lookup tables
    that intern division, club and nationality names under ids counting up from
    constructor offsets. Per player, it encodes the profile group against these tables and
    fans the group out into one copy per position.
  - `Process` (process_data.py) is the older one. It stores the cleaned groups of each
    player line under the next id of a counter that starts at 0.
  - Both generations share the same steps:
    - the player-line filter;
    - slicing a line into category groups by column ranges, with the header alias table;
    - per-category cleaning with its sentinels ("-", "N/A", "");
    - amounts with a K/M/B unit;
    - the randomised asking price;
    - decoding the compact position notation ("M/AM (LC)");
    - the fan-out into one group per position.
- **The statistics and aggregation helpers.**
  - score.py: the means and summed squares of `Score._normal`, and the per-statistic shape
    of its z-scores.
  - The two spider modules: the range, average and stats-gathering helpers, and the
    argument checks and defaults of `create_spider`.
  - processing.py: the category filtering, the stats rows and the header.
  - server.py: `Interact._collapse_list`, which folds a list of per-position rows back into
    one dict.

How the model is built:

- Python dicts become `Dicts.OrderedMap`: a key sequence in insertion order plus a map,
  because the order of a dict's keys is observable throughout the source (`values()`,
  `keys()`, the order of a group's columns).
- Python exceptions become `Outcomes.Error` values inside a `Result`.
- Python floats are exact `real`s.
- The random draw of the asking price is a `draw` parameter.
- The lines of an export file are a `seq<string>`.
- `Preprocess` and `Process` are classes whose methods update their tables, counters and
  store. Each method is proved against a specification function. The loops of the helpers
  are methods with invariants, proved equal to the functions the lemmas talk about.

Behaviour of the code worth noting:

- **Amounts without a unit.** An amount with no K, M or B uses multiplier 1 and cuts the
  numeral at `"\xa0k"` (`Fields.HighValueWithoutUnit`). A bare numeral loses its last
  character, because `find` returns -1 (`Fields.HighValueBareNumeral`).
- **Header aliasing is not idempotent.** The alias lookup lower-cases first, so the alias
  `aerA` is itself re-keyed to `aera` (`Export.AliasNotIdempotent`).
- **The asking-price range.** The randomised asking price is drawn from the half-open
  `[int(V/2), int(2V))` (`Fields.Obfuscate`).
- **The z-scores.** They are computed for as many statistics as the player has. A shorter
  vector is silently shorter, a longer one raises `IndexError`, and no aggregate is summed
  (`Scoring.ZScoresDefined`).
- **`_get_header` on empty data.** With no records it returns `None`. See "## Findings".
- **Malformed input.** No shape check guards the preamble or the header: a short file reads
  `""` lines. A line too short for the test `line[3]` raises `IndexError`, which ends the
  pass (`Export.SelectLinesMeaning`).

## Model

| member | source | states |
|---|---|---|
| Dicts.OrderedMap.Put | preprocess_data.py:128 | `d[k] = v`: the entry of `k` becomes `v`, every other entry stays; an existing key keeps its place and a new key goes last |
| Dicts.OrderedMap.Remove | preprocess_data.py:125 | `del d[k]` on a present key: exactly `k` leaves the entries and the key order, the rest keep their order |
| Dicts.OrderedMap.Restrict | processing.py:40-43 | the dict comprehension over `cats`: exactly the keys of `d` in `cats`, in their original order, with their values unchanged |
| Dicts.OrderedMap.Values | processing.py:56 | `list(d.values())`: one value per key, in key order |
| Dicts.Filter | spider.py:66-69 | the loop `out[k] = v` for each item whose key is in the category builds exactly `d.Restrict(cats)` |
| Strings.Lower | preprocess_data.py:197 | `str.lower()` restricted to ASCII: same length, each letter A-Z lowered and every other character kept |
| Strings.Strip | preprocess_data.py:63-64 | `strip()`: no longer than the string, and neither starts nor ends with whitespace |
| Strings.StripRightChar | preprocess_data.py:68 | `rstrip('\n')`: a prefix of the string, not ending in the character, and everything cut off is that character |
| Strings.Find | preprocess_data.py:305 | `find(sub)`: the first index where `sub` occurs, or -1 when it occurs nowhere |
| Strings.JoinSplit | preprocess_data.py:68 | joining the pieces of `split(sep)` with `sep` gives back the line |
| Strings.SplitJoin | preprocess_data.py:68 | splitting on a one-character separator that no piece contains gives back the pieces |
| Strings.Slice | preprocess_data.py:198-199 | Python slicing: never longer than the list, and the plain sub-sequence for bounds inside it |
| Numerals.Trunc | preprocess_data.py:313-314 | `int(x)` on a float truncates toward zero, for negative values too |
| Numerals.NatToString | src/football_manager_scouting/spider.py:219-220 | `str(n)`: non-empty decimal digits spelling `n`, with no leading zero |
| Numerals.ParseIntToString | src/football_manager_scouting/spider.py:219-220 | `int(str(n)) == n` for every int, negative ones included |
| Numerals.ParseFloatDigits | preprocess_data.py:305 | `float(d)` of a digit string is the number the digits spell |
| Fields.DigitsOf | preprocess_data.py:322 | `''.join(re.findall(r'\d+', s))`: only digits, and empty exactly when `s` has no digit |
| Fields.MakeInt | preprocess_data.py:320-322 | `_make_int` raises `ValueError` exactly when the text has no digit, and is never negative |
| Fields.MakeIntJoinsDigitGroups | preprocess_data.py:320-322 | digit groups around a separator without digits read as one number: "12,500" is 12500 |
| Fields.HighValueWithUnit | preprocess_data.py:284-305 | digits followed by K, M or B (with no unit of higher precedence later) are their value times 10^3, 10^6 or 10^9: "41M\xa0kr" is 41000000.0 |
| Fields.HighValueWithoutUnit | preprocess_data.py:293-305 | digits followed by `"\xa0k"` and no K/M/B are their own value, multiplier 1 |
| Fields.HighValueBareNumeral | preprocess_data.py:305 | a bare numeral has no `"\xa0k"`, `find` gives -1, and its last digit is cut off: "950" reads as 95.0 |
| Fields.RandRange | preprocess_data.py:313-314 | `random.randrange(lo, hi)` raises `ValueError` exactly for an empty range, else gives a value in `[lo, hi)` |
| Fields.Obfuscate | preprocess_data.py:308-317 | a price of 0 stays 0; any other price becomes a value in `[int(p/2), int(2p))`, or `ValueError` when that range is empty |
| Fields.ObfuscateBounds | process_data.py:207-208 | a price of at least 1 always gets a value, strictly between `p/2 - 1` and `2p` |
| Fields.ObfuscateCoversRange | preprocess_data.py:313-315 | every value of `[int(p/2), int(2p))` is the result of some draw |
| Fields.DateYearOfDate | preprocess_data.py:113-116 | a date ending in a four-digit year reads as that year, whatever precedes it |
| Fields.SentinelsAreZero | process_data.py:116-162 | every documented sentinel reads as zero: dates "-", extension "", wage "-"/"N/A", minutes "-", stat "-", national-team "" and "-" |
| PositionNotation.CodesOf | preprocess_data.py:218 | the regex match succeeds exactly when the part has an upper-case letter (else `.group` on None is an `AttributeError`), and gives at least one code of one or two letters |
| PositionNotation.Row | preprocess_data.py:221-226 | one code stands for one position per side letter, or for itself alone when there are none |
| PositionNotation.CombineLength | preprocess_data.py:220-226 | a part decodes to `#codes * max(1, #sides)` positions |
| PositionNotation.CombineAt | preprocess_data.py:221-224 | entry `i * #sides + j` is code `i` followed by side letter `j`: code-major, both orders kept |
| PositionNotation.CombineWithoutSides | preprocess_data.py:225-226 | without side letters the decoded list is the code list itself |
| PositionNotation.PartsPositionsLength | preprocess_data.py:213-228 | the whole string decodes to the sum over its ", "-parts of `#codes * max(1, #sides)` positions |
| PositionNotation.PrefixFailure | preprocess_data.py:216-218 | a part without any code aborts the whole decoding with its error |
| PositionNotation.CombineCodes | preprocess_data.py:220-226 | the nested loops with `append` build exactly the code-major cross product |
| PositionNotation.SplitPositions | preprocess_data.py:203-230 | the loop over the ", "-parts with `extend` computes exactly the decoded positions, or the error of the first bad part |
| PositionNotation.Elements | preprocess_data.py:238 | `len(v)` and `v[i]` of a stored value: a list's elements in order; a number or None is a `TypeError` |
| PositionNotation.BrokenOut | preprocess_data.py:233-243 | one copy per position, in order; copy `i` has `position` set to element `i`, and every other key and value of the input, in the input's key order; no `position` is a `KeyError` |
| PositionNotation.BreakoutPositions | process_data.py:210-216 | the loop of `table.copy()` and `append` builds exactly the copies `BrokenOut` describes |
| PositionNotation.ExampleMidfield | preprocess_data.py:207-211 | example: "M/AM (LC)" decodes to ML, MC, AML, AMC |
| PositionNotation.ExampleDefence | preprocess_data.py:213-228 | example: "D (RLC)" decodes to DR, DL, DC |
| PositionNotation.ExampleGoalkeeper | process_data.py:224 | example: "GK" has no side letters and decodes to itself |
| Export.Pairs | preprocess_data.py:197-199 | `dict(zip(keys, cells))`: at most one entry per pair, and its keys are exactly the paired keys |
| Export.PairsLastWins | preprocess_data.py:197-199 | a key that occurs twice holds the cell of its last occurrence |
| Export.PairsInOrder | preprocess_data.py:197-199 | with distinct keys, the group has exactly the keys, in header order |
| Export.FormatTable | preprocess_data.py:153-200 | a well-formed group of at most `end - start + 1` entries |
| Export.FormatTableInRange | process_data.py:82-84 | for a range inside both rows, the group pairs exactly the aliased headers and the stripped cells of columns start..end |
| Export.AliasNotIdempotent | preprocess_data.py:197 | aliasing lower-cases before the lookup, so "Aer A/90" becomes "aerA" but "aerA" itself becomes "aera" |
| Export.SelectLines | preprocess_data.py:66-67 | the lines a pass processes are player lines of the body, all of them when no line is too short; a line too short for `line[3]` stops the pass with `IndexError` |
| Export.SelectLinesMeaning | preprocess_data.py:66-67 | the pass processes exactly the player lines before the first line too short for `line[3]`, in order and with repetitions, and stops with an error exactly when such a line exists |
| Export.PlayerLinesAllKept | process_data.py:30-31 | a body made only of player lines is processed line for line |
| Export.RowCellsOfLine | preprocess_data.py:68 | a line built from a lead cell, the cells and three trailing cells gives back exactly those cells |
| Export.HeaderCellsOfLine | preprocess_data.py:63-64 | the header line built the same way gives exactly the stripped header names |
| Cleaning.Field | preprocess_data.py:93 | `group[k]` succeeds exactly when `k` is a column, with its cell; otherwise `KeyError` |
| Cleaning.InfoCleaned | preprocess_data.py:92-104 | the profile branch succeeds exactly when age reads as an int, the position decodes and the minutes read; then age, position and mins hold their readings and every other column is unchanged, in the same key order |
| Cleaning.ContractCleaned | preprocess_data.py:112-125 | a cleaned contract has `value` added last, `ap` removed and every other key in its place |
| Cleaning.ContractCleanedOk | preprocess_data.py:112-125 | contract cleaning fails exactly when one of its columns is missing or does not read |
| Cleaning.ContractCleanedFields | preprocess_data.py:113-123 | dates hold the year of their last four characters (0 for "-"), extension its int (0 for ""), wage its digits (0 for "-"/"N/A"), `value` the randomised asking price, the release fee its amount (0 for "-"); other columns are unchanged |
| Cleaning.ContractWith | process_data.py:128-130 | once every cell has read, the contract has `value` added and `ap` deleted |
| Cleaning.AttributesCleaned | preprocess_data.py:127-129 | succeeds exactly when `nat` is present; `nat` leaves the key order and `natF` is added last |
| Cleaning.AttributesCleanedEntries | process_data.py:166-169 | `natF` holds the former `nat` cell, every other column is unchanged |
| Cleaning.CaCleaned | preprocess_data.py:132-133 | succeeds exactly when `ca` reads as an int; `ca` holds it, every other column is unchanged |
| Cleaning.NatTeamCleaned | process_data.py:147-155 | succeeds exactly when team, caps and youth apps read (team "" and caps/apps "-" as 0); they hold their ints, every other column is unchanged |
| Cleaning.StatsCleanedMeaning | preprocess_data.py:107-109 | stats cleaning succeeds exactly when every cell is a float or "-"; then every column holds its float ("-" as 0.0), in the same key order |
| Cleaning.CleanStats | process_data.py:159-162 | the loop that overwrites each stat in turn computes exactly the stats cleaning |
| Cleaning.ReadColumns | preprocess_data.py:108-109 | each column in turn overwritten with its reading, the first cell that does not read stopping the loop |
| Cleaning.Tagged | process_data.py:108 | writing the line id under a key: that entry becomes the id, the others stay, and a new key goes last |
| PlayerRows.Collect | preprocess_data.py:149-150 | the `locals()` comprehension holds the given groups under their keywords, in declaration order |
| PlayerRows.OutcomeMeaning | preprocess_data.py:136-147 | a category is fine exactly when its group is absent, empty (`if G:` is false) or cleans |
| PlayerRows.CleanedOk | preprocess_data.py:83-150 | `_clean` succeeds exactly when every given, non-empty group cleans |
| PlayerRows.CleanedFailure | preprocess_data.py:136-147 | a failing `_clean` raises the error of the first given, non-empty group, in cleaning order, that does not clean |
| PlayerRows.CleanedContents | preprocess_data.py:83-150 | a successful `_clean` holds every given group under its keyword, in declaration order: the cleaned group (the player stamped with the season), or an empty group as it came |
| PlayerRows.RowGroups | preprocess_data.py:70-79 | every category's group is `_format_tables` of the line's cells over that category's range |
| PlayerRows.ReadRowsStopped | preprocess_data.py:66-81 | once a row raises, the lines after it change nothing |
| PlayerRows.ReadRowsSelected | preprocess_data.py:66-81 | row `j` yielded is the cleaning of the `j`-th player line; a pass that ends early either failed on the player line right after its last row, with that line's cleaning error, or cleaned every player line before the first line too short for `line[3]` and ends with that line's `IndexError` |
| PlayerRows.ReadRowsComplete | preprocess_data.py:66-81 | the pass runs to the end exactly when no line is too short and every player line cleans, and then yields one row per player line |
| Encoding.PositionCodesDistinct | preprocess_data.py:23 | the 14 position codes are distinct, so each has one id |
| Encoding.PositionId | preprocess_data.py:266 | `self.Position[pos]` succeeds exactly for a known code, with an id in 0..13 that names that code; otherwise `KeyError` |
| Encoding.PositionIdsOf | preprocess_data.py:266 | the comprehension succeeds exactly when every element is a known code, with one id per element, in order |
| Encoding.PositionIdsDecode | preprocess_data.py:263-266 | the ids of a list of known codes decode back to the codes |
| Encoding.PositionIdsOfText | preprocess_data.py:263-266 | a plain string is iterated character by character, so only "" encodes |
| Encoding.Code | preprocess_data.py:272 | a `Foot`/`Eligible` lookup succeeds exactly for a text key of the table; a list is unhashable (`TypeError`), anything else a `KeyError` |
| Encoding.FixedEncoding | preprocess_data.py:269-274 | a position, foot or eligibility column encodes exactly when its code lookup succeeds, and its code is valid whatever the lookup tables hold |
| Encoding.EncodesGrown | preprocess_data.py:251-261 | an encoding stays valid as the tables grow, because an interned value keeps its id |
| Encoding.CapitalizedAs | preprocess_data.py:276 | `k.capitalize()` names a table exactly when `k` lower-cased is the table name lower-cased |
| Encoding.LookupColumns | preprocess_data.py:276 | the interned columns are "division", "club" and "nat", in any letter case |
| Encoding.PutTables | preprocess_data.py:251-259 | a value new to its table grows that table by itself alone, under the next id, and is recorded for the player |
| Encoding.KeptTables | preprocess_data.py:261 | a column that interns nothing new leaves the tables and the player's record as they were |
| Encoding.LookupEncodes | preprocess_data.py:275-279 | a column without a fixed code fails only on an unhashable lookup value; it becomes its id in its table, or stays as it is when its name has no table |
| Encoding.PositionEncoded | preprocess_data.py:39-40 | an encoded profile keeps its keys, and its position, if any, is a list of ids the fan-out can iterate |
| Encoding.FanOut | preprocess_data.py:39-40 | breaking out the encoded profile gives one copy per position, each holding one position id and the encoded other columns |
| Interning.InternDense | preprocess_data.py:251-254 | giving a new value the next id keeps a table's ids `offset, offset + 1, ...` in first-occurrence order |
| Interning.IdsInRange | preprocess_data.py:31-33 | every id of a table lies in `[offset, next)` |
| Interning.IdsDistinct | preprocess_data.py:252-254 | distinct values never share an id |
| Interning.IdsDense | preprocess_data.py:31-33 | every id of `[offset, next)` is in use |
| Interning.AddColumnIdAsWritten | preprocess_data.py:249-261 | the single dict as the code keeps it: a value found in it (bookkeeping keys included) returns its entry unchanged; a new value advances the counter and leaves its id under `'id'` |
| Interning.AsWrittenMixesNamesAndIds | preprocess_data.py:251-256 | a club named "club" comes back as its name rather than an id; after one value is interned, a club named "id" is taken for known and gets the previous value's id |
| Preprocessing.AsGroups | preprocess_data.py:35-45 | a call without a profile group hands back every group as it came, in order |
| Preprocessing.InternConsistent | preprocess_data.py:251-259 | interning a new value and recording it for the player keeps every table dense and the record the last value per table |
| Preprocessing.Regrouped | preprocess_data.py:39-40 | the call's groups with the profile replaced by its copies and every other group unchanged, in order |
| Preprocessing.RecordReset | preprocess_data.py:42-43 | starting a fresh record for the next player keeps the run's interning state consistent |
| Preprocessing.Preprocess.constructor | preprocess_data.py:9-33 | empty tables whose counters start at `division_id`, `club_id` and `nat_id`, and an empty record |
| Preprocessing.Preprocess.TableIds | preprocess_data.py:31-33 | the ids of each table are exactly `offset, ..., next - 1`, one per interned value, none repeated |
| Preprocessing.Preprocess.AddColumnId | preprocess_data.py:246-261 | None for a name without a table; an unhashable value is a `TypeError`; a known value returns its id and changes nothing; a new value gets the table's next id, advances that counter alone and is recorded for the player |
| Preprocessing.Preprocess.Intern | preprocess_data.py:251-259 | a new value takes the next id, that table's counter advances by one, and the player's record for that table is the new value |
| Preprocessing.Preprocess.EncodeColumn | preprocess_data.py:268-279 | one column: it fails exactly when it cannot be encoded; its encoding is its position ids, foot or eligibility code or interned id; the tables only grow, by what this column adds |
| Preprocessing.Preprocess.EncodeLookup | preprocess_data.py:275-279 | a column without a fixed code is interned when its capitalised name has a table and kept otherwise; the tables grow by its value alone |
| Preprocessing.Preprocess.EncodeLookupTables | preprocess_data.py:245-281 | every column encoded in order; it fails exactly when a column cannot be encoded, with the first such error, and the tables then hold exactly the lookup values of the columns before it; on success the tables gained exactly the group's lookup values |
| Preprocessing.Preprocess.EncodeNext | preprocess_data.py:268-279 | one turn of the loop extends the encoded prefix by one column, or ends the call with that column's error |
| Preprocessing.Preprocess.Call | preprocess_data.py:35-45 | without a profile group nothing is interned and the groups come back as they were; with one, the call succeeds exactly when the profile encodes and has a position, the profile is replaced by its encoded copies, the record handed back has an entry for every table the profile added to, each holding the value that table interned last under its id `next - 1`, tables that gained nothing keep their earlier entries, and a fresh record is started; a failing call raises the first unencodable column's error with the tables grown by the columns before it, or `KeyError` for a missing position with the tables grown by every column |
| Preprocessing.Preprocess.FromRtfLines | preprocess_data.py:47-81 | the header from the ninth line, then every player line of the body cut into groups and cleaned, in order, stopping at the first error |
| Preprocessing.Preprocess.EncodeProfile | preprocess_data.py:39-40 | encoding then breakout succeeds exactly when every column encodes and there is a position, the copies carrying encoded ids; otherwise it raises the first unencodable column's error with the tables grown by the columns before it, or `KeyError` for a missing position with the tables grown by every column |
| ProcessData.ProcessCleanedTags | process_data.py:104-173 | a group is processed exactly when its table's cleaning succeeds; the player group gets `_id = id`, the tables tagged by player get `_playerID = id` on top of their cleaned entries, and a table `_clean` does not know is kept as it came |
| ProcessData.EntriesMeaning | process_data.py:96-102 | a group without a truthy position is stored once, as it is; one with a position list is stored once per position, in order; a numeric position is a `TypeError` |
| ProcessData.AppendedMeaning | process_data.py:99-102 | extending `data[id][name]` creates them when missing, adds the items after what was there, and leaves every other id and table as it was |
| ProcessData.Zipped | process_data.py:93 | `zip` pairs no more groups than there are groups or table names |
| ProcessData.AddedAllOthers | process_data.py:87-102 | `add_data` stores nothing under any id other than its own |
| ProcessData.AddedAllFailure | process_data.py:93-97 | `add_data` fails exactly when a pair does, with the error of the first pair that does |
| ProcessData.AddedAllFresh | process_data.py:93-102 | a successful `add_data` under a fresh id stores exactly the tables of the pairs, each with what its group comes to |
| ProcessData.AddedFails | process_data.py:93-94 | a pair that fails after the earlier ones were stored ends `add_data` with its error |
| ProcessData.LineGroups | process_data.py:34-39 | a player line is cut into one well-formed group per table name of `add_data`, in its order |
| ProcessData.PassIds | process_data.py:30-42 | the counter never goes back, every stored id lies below it and earlier ids keep their groups; a complete pass takes one id per player line and stores under exactly the ids it took |
| ProcessData.PassLineAdds | process_data.py:41-42 | a player line takes the next id and its groups are added under it |
| ProcessData.PassLineSkips | process_data.py:31 | a blank or divider line is passed over |
| ProcessData.PassLineStops | process_data.py:31 | a line too short to inspect ends the pass with `IndexError`, whatever follows |
| ProcessData.Process.constructor | process_data.py:9-15 | no data, and ids counting from 0 |
| ProcessData.Process.AddData | process_data.py:87-102 | the store after `add_data` is the specification `AddedAll` of the old store, with the first error; the id counter is untouched |
| ProcessData.Process.AddGroup | process_data.py:93-102 | one turn of the loop extends the stored prefix by one pair, or ends `add_data` with its error |
| ProcessData.Process.CleanGroup | process_data.py:94-97 | one group cleaned and, if it has positions, broken out |
| ProcessData.Process.Call | process_data.py:17-42 | the header from the ninth line, then the pass over the body: the new store, counter and error are exactly those of `Pass` |
| ProcessData.Process.AddLines | process_data.py:30-42 | the loop over the body lines computes exactly `Pass` |
| ProcessData.Process.AddLine | process_data.py:31 | one body line: passed over, ended with its error, or added as a player |
| ProcessData.Process.AddPlayer | process_data.py:32-42 | a player line takes the next id before its groups are added under it |
| Processing.Narrowed | processing.py:36-48 | a narrowed record keeps its tables; `stats` keeps exactly its keys in `stat_cat` and `attributes` exactly those in `attr_cat`, in order, with their values; other tables are unchanged |
| Processing.GetCategoryData | processing.py:34-50 | succeeds exactly when every record has both tables (else `KeyError`); then every record is narrowed and the UIDs and their order are unchanged |
| Processing.NarrowRecord | processing.py:37-48 | one record narrowed, or the error of a missing table |
| Processing.GetAllStats | processing.py:52-58 | one list per record, in record order, holding its stats values in key order; a record without stats is a `KeyError` |
| Processing.TableKeysMeaning | processing.py:63-64 | a name is in the header exactly when one of the record's tables has it as a key |
| Processing.RecordHeader | processing.py:63-64 | the loop extending the header with each table's keys computes the record's header |
| Processing.GetHeaderAsWritten | processing.py:60-65 | the header of the first record, or `None` with no records, because the `return` sits inside the loop |
| Processing.GetHeader | processing.py:60-65 | the header of the first record, or `[]` with no records |
| Processing.Renamed | processing.py:30-31 | the header with each "mins" shown as "90s" and every other name and the order unchanged |
| Processing.Call | processing.py:26-32 | the narrowed records, one stats row per record in order, and the renamed header of the first record; `KeyError` exactly when a record lacks a table |
| Processing.CallAsWritten | processing.py:26-32 | with no records the rename iterates over `None`, a `TypeError`; otherwise it succeeds exactly when every record has both tables |
| Processing.NarrowedKeepTables | processing.py:36-50 | narrowing keeps every record's tables, so the stats rows can be read afterwards |
| Statistics.Min | src/football_manager_scouting/spider.py:95-98 | `min(xs)` is an element of the list, below all others |
| Statistics.Max | src/football_manager_scouting/spider.py:95-98 | `max(xs)` is an element of the list, above all others |
| Statistics.MeanWithin | src/football_manager_scouting/spider.py:120 | the mean of a non-empty list lies between its minimum and maximum |
| Statistics.ConstantMean | score.py:40-41 | a column whose every row holds `c` has mean `c` |
| Statistics.MeanBetween | score.py:40-41 | where every row has the value, the column mean lies within any bounds of the column |
| Statistics.ColumnSums | score.py:35-38 | the nested accumulation computes the per-column totals, or `IndexError` for a row longer than the accumulators |
| Scoring.Spread | score.py:43-46 | summed squared deviations are never negative |
| Scoring.Normal | score.py:32-51 | the two nested-loop passes compute exactly the means and summed squares, or the error they raise |
| Scoring.SquareSums | score.py:43-46 | the second pass computes exactly the per-column summed squares about the means |
| Scoring.AddSquares | score.py:45-46 | one row adds its squared deviation to each accumulator it reaches and leaves the others |
| Scoring.Population | score.py:7-9 | `Score(all_stats)`: an empty population is an `IndexError`; a non-empty one never divides by zero and fails exactly when a player has more statistics than the first; the vectors have the first player's length |
| Scoring.NormalAt | score.py:35-46 | mean `i` is column `i`'s sum over the number of players, and squares `i` its summed squared deviations about that mean |
| Scoring.ConstantColumn | score.py:35-46 | a constant column has that constant as mean and summed squares 0 |
| Scoring.MeanWithinColumn | score.py:35-41 | a mean lies within any bounds of its column, in particular between its minimum and maximum |
| Scoring.SquaresNonNegative | score.py:43-46 | the summed squares are never negative |
| Scoring.NormalExample | score.py:35-46 | example: the population [[1,2],[3,4],[5,6]] has means [3,4] and summed squares [8,8] |
| Scoring.ZScoresDefined | score.py:22-23 | the z-scores exist exactly when every statistic has a mean and a deviation and no denominator is zero |
| Scoring.ZScoresAt | score.py:22-23 | one z-score per statistic, in order, the `i`-th built from `mean[i]` and `std[i]` |
| Scoring.ZScoresRestore | score.py:22-23 | each z-score gives back its statistic as `mean[i] + z * (std[i] + e)` |
| Scoring.ScoresOfPopulation | score.py:7-23 | against its own population's means, any non-negative deviations and `e > 0`, a player no longer than the first scores one z-score per statistic |
| Server.CopyFields | server.py:158-165 | one object's fields copied into the dict and its positions collected, or `AttributeError` for a missing field |
| Server.CopiedStep | server.py:160-165 | one field copied, and collected when it is `position` |
| Server.CollapseList | server.py:153-170 | the loops and the join compute exactly the collapse; an empty object list gives an empty dict |
| Server.AssignMeaning | server.py:158-162 | after one object each copied field holds that object's value and every other key is untouched |
| Server.AssignedMeaning | server.py:157-162 | after a non-empty list, the dict has exactly the fields as keys, each holding the last object's value |
| Server.CollectedPositions | server.py:164-165 | with `position` once among the fields, every object's position is collected, in object order |
| Server.PositionsOnce | server.py:164-165 | one object contributes its position once |
| Server.NoPositions | server.py:167 | without a `position` field nothing is collected and no join happens |
| Server.CollapseMeaning | server.py:153-170 | the result has exactly the fields as keys; every field but `position` holds the last object's value, and `position` the ", "-join of every object's position, in order |
| Server.CollapseErrors | server.py:160-168 | the collapse fails with `AttributeError` exactly on a missing field, and with `TypeError` exactly on a position that is not a string |
| SpiderCharts.AddTableGet | src/football_manager_scouting/spider.py:150-152 | one player's stats append its value to the list of each key in the filter it has, and touch no other list |
| SpiderCharts.GatheredGet | src/football_manager_scouting/spider.py:148-152 | after `n` players a key's list holds, in player order, the value of every one of them that has it, exactly when the key is in the filter |
| SpiderCharts.StatsMeaning | src/football_manager_scouting/spider.py:146-154 | `_get_stats` has only keys in `filter_cats`, each with its values in player order and none empty |
| SpiderCharts.AppendStats | src/football_manager_scouting/spider.py:150-152 | the inner loop computes exactly one player's appends |
| SpiderCharts.GetStats | src/football_manager_scouting/spider.py:146-154 | the nested loops compute exactly the gathered statistics that `StatsMeaning` describes |
| SpiderCharts.GetRanges | src/football_manager_scouting/spider.py:95-99 | one range per statistic in key order: `(min, max)`, or `(max, min)` for `possLost`; an empty list is a `ValueError` |
| SpiderCharts.RangesOrdered | src/football_manager_scouting/spider.py:95-99 | every range is low to high, except `possLost`, high to low |
| SpiderCharts.AverageStats | src/football_manager_scouting/spider.py:120 | one `sum / len` per statistic in key order; an empty list is a `ZeroDivisionError` |
| SpiderCharts.AverageWithinRange | src/football_manager_scouting/spider.py:95-120 | each average lies within its statistic's range, whichever way round the range is |
| SpiderCharts.GatheredStatsChart | src/football_manager_scouting/spider.py:259-278 | the gathered lists are never empty, so both the ranges and the averages succeed on them |
| SpiderCharts.SeasonString | src/football_manager_scouting/spider.py:219-220 | a text season is kept; a numeric one becomes text that parses back to it |
| SpiderCharts.CreateSpiderFilters | src/football_manager_scouting/spider.py:216-244 | `ValueError` exactly when both divisions are None; otherwise the season is text, and each missing comparison argument takes the player's division, position or season |
| SpiderCharts.ComparisonDefaultsToPlayer | src/football_manager_scouting/spider.py:242-244 | with no comparison arguments the comparison query is the player's own |
| SpiderScript.LowestIsMin | spider.py:35-40 | the running minimum from infinity over a non-empty list is its minimum |
| SpiderScript.HighestIsMax | spider.py:35-42 | the running maximum from 0 is the larger of 0 and the maximum |
| SpiderScript.RangeSnoc | spider.py:37-42 | one more row widens the range of each column it has a value in |
| SpiderScript.PyIndex | spider.py:44-45 | a Python index names a position exactly when it lies in `[-n, n)`, counting from the end when negative |
| SpiderScript.RangeAt | spider.py:34-47 | entry `i` is `[min, max(0, max)]` of column `i`, reversed for the `possLost_i` entry alone |
| SpiderScript.RangeTable | spider.py:35-42 | the nested loops compute exactly the running ranges, or `IndexError` for a row longer than the first |
| SpiderScript.GetRanges | spider.py:34-47 | `get_ranges` computes exactly the ranges with the `possLost_i` entry swapped |
| SpiderScript.AverageStats | spider.py:50-60 | `average_stats` computes exactly the column totals over the number of rows |
| SpiderScript.AverageWithinRange | spider.py:34-60 | when every player has the same number of stats, both helpers succeed and each average lies within the unswapped range of its statistic |
| SpiderScript.GetStats | spider.py:63-72 | one dict per record, in record order, holding exactly the record's stats whose key is in the category, values unchanged; a record without stats is a `KeyError` |

## Left out

- Reading the export file (`open`, `readline`, iteration): the lines are given as a `seq<string>`.
- `math.sqrt`, `math.tanh` and `round` in score.py: the deviations are a parameter of the z-scores, and the tanh scores and their rounding are not modelled.
- Python float rounding: floats are exact reals, so `float(val)`, sums and divisions are exact.
- `random.randrange`: the draw is a `draw` parameter, and `round` of an int is the int.
- The database layer: `Setup`, `Interact.select`, `Interact.insert`, `_add_records`, the ORM objects (modelled as dicts of attributes), `Request.fetch_all` and `Players`.
- `create_spider`: the `STATS[category]` lookup, `MultiplePlayersFoundError`, the database queries, the print for 15 players or fewer, and the chart drawing; only its argument checks, defaults and helpers are modelled.
- The radar chart (`_create_radar_chart`, `spider`) and the argparse `__main__` blocks, including the root script's call `get_ranges(...)` with one argument (spider.py:121), which raises `TypeError` before any range is computed.
- In-place mutation and aliasing: `_clean`, `_encode_lookup_tables` and `_get_category_data` change their dicts in place; the model returns the changed dicts instead, so sharing of those dicts between callers is not captured.
- `locals()` in `_clean`: modelled as the given groups in declaration order, the only dict-valued locals at that point.
- The header alias tables are a parameter of the slicing functions, with the constant tables of both files given in `Export`.
- The `'PlayerInfo'` update step: `tables['PlayerInfo'].update(encoded)` is the encoded group itself, since encoding returns the same dict.
- Preprocessing.Preprocess.Call: states of each entry of the record, returned on success or kept on failure, that it is its table's value interned last with that value's id; it does not name the profile column that interned it.
- Cleaning.ContractCleaned: states the key order; the column values are stated by `Cleaning.ContractCleanedFields`.
- Strings.Lower: lowers the ASCII letters A-Z only; `str.lower()` also lowers every other cased Unicode letter (such as "Å"), so a header with such letters would get a different group key. The same holds for `Strings.Capitalize`.
- Numerals.ParseFloat: accepts signed decimal numerals only; Python's `float()` also accepts exponents ("1e3"), "inf", "nan", digit underscores and non-ASCII decimal digits.
- Numerals.ParseInt: accepts signed ASCII digit strings only; Python's `int()` also accepts digit underscores ("1_000") and non-ASCII decimal digits.
- Fields.DigitsOf: matches the ASCII digits only; the pattern `\d` also matches non-ASCII decimal digits.
- Strings.Strip: states the length bound and the two ends, not that the result is the middle part of the string.
- Export.FormatTable: the entry bound is stated for ranges that start at 0 or later; negative Python slice bounds are modelled by `Strings.Slice` but not bounded there.

## Findings

| source | as written | input that shows it | evidently intended | confidence | as-written member | corrected member |
|---|---|---|---|---|---|---|
| processing.py:60-65 | `return header` sits inside the loop over the records, so with no records `_get_header` returns `None`, and `__call__` then iterates over `None` | `data` with no records: `__call__` raises `TypeError` | the header of the first record, and `[]` with no records | high, not executed | Processing.CallAsWritten | Processing.Call |
| preprocess_data.py:251-261 | the value ids and the bookkeeping entries (`'id'` and the lower-cased table name) share one dict | a club named "club" comes back as the name "club" instead of an id; after "Ajax" is interned, a club named "id" is taken for known and gets id 0 | separate bookkeeping, so every value gets its own id | medium, not executed | Interning.AsWrittenMixesNamesAndIds | Preprocessing.Preprocess.AddColumnId |
