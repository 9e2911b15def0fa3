# py-sofistik-utils, modelled in Dafny

The model covers two parts of py-sofistik-utils.

**The CDB record tables.** These read SOFiSTiK database keys into indexed tables:
- cable, truss and spring element data (key 160/0, 150/0 and 170/0);
- cable and truss loads (161/LC, 151/LC);
- cable, truss and spring results (162/LC, 152/LC and 170/LC);
- the node cache of deflected configurations.

Every table follows one recipe, modelled once in `CdbTable` and filled in per table by a `Config`:
1. Read the key record by record. The first call passes flag 0 and every later call flag 1, until the DLL answers 2 or more.
2. Turn each record into a row, or drop it, or raise.
3. Stage the rows of all requested load cases.
4. Sort the staged rows by `ELEM_ID` with a stable sort.
5. Stamp each row's `GROUP` from the group table's element ranges.
6. Index the table and append it to the rows already loaded.

Before a case is read, its old rows are cleared. The DLL is a value: the set of keys that exist, and for each key the sequence of replies.

**The `.dat` manipulator.** This edits SOFiSTiK input decks:
- system directives (`+SYS`, `-SYS`, `*SYS` lines);
- programs (a PROG line, a HEAD line, rows, END);
- chapters (an ordered registry of programs and directives);
- the manipulator itself, which splits a deck into chapters, programs and directives, switches them on and off, and serializes them back.

Objects that Python updates in place are Dafny classes with `modifies` clauses. These are `RecordTable`, `NodeCache`, `SystemDirective`, `SofistikProgram`, `SofistikChapter` and `DatManipulator`. The parsing of a deck is also stated on values (`DeckStructure.Structure`), and the building methods are proved against it.

Python exceptions are values of `Failures.Failure`. Operations that may raise return a `Result` or an `Outcome`.

Where the code and its docstrings disagree, the model follows the code:
- A load whose requested cases stage no rows raises KeyError, from the sort over an empty frame. By then the cases that were present have already been cleared.
- `get` on a multi-level index that is not unique falls back to the default, which is what pandas' `.at` does there.
- Calculating a node configuration twice for the same load case appends its rows a second time.

## Model

| member | source | states |
|---|---|---|
| Sorting.SortBy | src/py_sofistik_utils/cdb_reader/_internal/cable_load.py:201 | sorting the staged rows keeps exactly the same rows (same length, same multiset) |
| Sorting.SortBySorted | src/py_sofistik_utils/cdb_reader/_internal/cable_load.py:201 | the sorted rows are in ascending `ELEM_ID` order |
| Sorting.SortByStable | src/py_sofistik_utils/cdb_reader/_internal/cable_load.py:201 | rows with equal `ELEM_ID` keep their relative order, as a mergesort does |
| Sorting.StableSortUnique | src/py_sofistik_utils/cdb_reader/_internal/cable_load.py:201 | a stable sort has one possible result: two sorted sequences with the same rows per key are equal |
| CdbRows.IndexKey | src/py_sofistik_utils/cdb_reader/_internal/cable_load.py:213 | the index has one, two or three levels (ELEM_ID; LOAD_CASE; TYPE), and the first level is the element number |
| CdbRows.Matching | src/py_sofistik_utils/cdb_reader/_internal/cable_load.py:161-169 | the rows a lookup key selects are exactly the rows whose index equals the key |
| CdbRows.MatchingUnique | src/py_sofistik_utils/cdb_reader/_internal/cable_load.py:161-169 | on a unique index a key selects at most one row |
| CdbRows.Without | src/py_sofistik_utils/cdb_reader/_internal/cable_load.py:83-92 | dropping a load case keeps exactly the rows of the other cases |
| CdbRows.WithoutIsolates | src/py_sofistik_utils/cdb_reader/_internal/cable_load.py:83-92 | dropping one case leaves every other case's rows as they were, in order, and removes all of its own |
| CdbGroups.UncoveredKeepsGroup | src/py_sofistik_utils/cdb_reader/_internal/cable_load.py:204-210 | a row that no range covers keeps group 0 |
| CdbGroups.LastCoverWins | src/py_sofistik_utils/cdb_reader/_internal/cable_load.py:204-210 | a row covered by several ranges gets the group of the last one applied |
| CdbGroups.CoveredRowGetsItsGroup | src/py_sofistik_utils/cdb_reader/_internal/cable_load.py:204-210 | with disjoint ranges, a row inside `range(start, stop)` gets that range's group |
| CdbGroups.SearchLeft | src/py_sofistik_utils/cdb_reader/_internal/cable_load.py:208 | `searchsorted(side="left")`: every id before the position is smaller, every id from it on is at least the target |
| CdbGroups.SearchRight | src/py_sofistik_utils/cdb_reader/_internal/cable_load.py:209 | `searchsorted(side="right")`: every id before the position is at most the target, every id from it on is larger |
| CdbGroups.AssignGroups | src/py_sofistik_utils/cdb_reader/_internal/cable_load.py:201-210 | the sort and the slice-per-range loop give the stable sort of the staged rows, each stamped with its covering group; ranges with `stop == 0` are skipped |
| CdbGroups.AssignMemberGroups | src/py_sofistik_utils/cdb_reader/_internal/truss_load.py:153-158 | the older membership loop stamps every row of the table whose element lies in a range |
| CdbGroups.MemberGroupAgrees | src/py_sofistik_utils/cdb_reader/_internal/truss_load.py:153-158 | the membership loop and the slicing loop give the same group, except for a negative range whose `stop` is 0 |
| CdbGroups.SkippedRangeDiffers | src/py_sofistik_utils/cdb_reader/_internal/cable_load.py:204-206 | the exception is real: for the range (7, -5, 0), element -1 gets group 7 from the membership loop and keeps 0 in the slicing loop |
| CdbSource.RecordSource.Get | src/py_sofistik_utils/cdb_reader/_internal/cable_load.py:241-249 | flag 0 rewinds to the first record and flag 1 continues; each call is logged |
| CdbSource.Live | src/py_sofistik_utils/cdb_reader/_internal/cable_load.py:241-254 | the records a read consumes are the replies before the first status of 2 or more |
| CdbSource.KeepMap | src/py_sofistik_utils/cdb_reader/_internal/cable_results.py:123 | a filter that keeps everything turns each consumed record into its row, in order |
| CdbSource.InKeepMap | src/py_sofistik_utils/cdb_reader/_internal/cable_results.py:123 | a row is read if and only if some consumed record passes the filter and projects to it |
| CdbSource.CollectKeepMap | src/py_sofistik_utils/cdb_reader/_internal/cable_load.py:232-274 | a read whose projection filters and maps yields the kept records' rows, in order |
| CdbSource.CollectFails | src/py_sofistik_utils/cdb_reader/_internal/cable_load.py:256-261 | a read raises if and only if some consumed record's projection raises, and it raises that failure |
| CdbSource.CollectFromPrefix | src/py_sofistik_utils/cdb_reader/_internal/cable_load.py:241-272 | every row read comes from a record before the end marker |
| CdbSource.Fetch | src/py_sofistik_utils/cdb_reader/_internal/cable_load.py:232-274 | the read loop returns the rows, or the failure, of the projection over the consumed records, and makes exactly one flag-0 call and then flag-1 calls, one per reply read |
| CdbTable.Lookup | src/py_sofistik_utils/cdb_reader/_internal/cable_load.py:113-169 | `get`: a unique matching row with the column gives its value; a missing key or column, or a non-unique multi-level index, gives the default, or LookupError when no default is given |
| CdbTable.GetAfterClear | src/py_sofistik_utils/cdb_reader/_internal/cable_load.py:83-92 | after `clear(lc)` no entry of load case `lc` is found |
| CdbTable.ClearCaseIsolates | src/py_sofistik_utils/cdb_reader/_internal/cable_load.py:83-92 | `clear(lc)` removes all rows of a loaded `lc` and leaves every other case's rows and the other loaded cases |
| CdbTable.ClearCaseKeepsConsistent | src/py_sofistik_utils/cdb_reader/_internal/cable_load.py:83-92 | after a clear, every row still belongs to a loaded case |
| CdbTable.ClearCaseIdempotent | src/py_sofistik_utils/cdb_reader/_internal/cable_load.py:83-92 | clearing a case twice is clearing it once |
| CdbTable.Deduplicate | src/py_sofistik_utils/cdb_reader/_internal/cable_load.py:188 | `list(set(load_cases))`: the distinct cases, each once |
| CdbTable.RecordTable.Clear | src/py_sofistik_utils/cdb_reader/_internal/cable_load.py:83-92 | the new table is `ClearCase` of the old one |
| CdbTable.RecordTable.ClearAll | src/py_sofistik_utils/cdb_reader/_internal/cable_load.py:94-98 | no rows and no loaded cases |
| CdbTable.RecordTable.ClearRows | src/py_sofistik_utils/cdb_reader/_internals/cable_data.py:65-68 | an element-data table is emptied |
| CdbTable.RecordTable.Get | src/py_sofistik_utils/cdb_reader/_internal/cable_load.py:113-169 | the table's `get`: the default (or LookupError without one) for a missing key or column, and the cell of the unique matching row otherwise |
| CdbTable.RecordTable.Load | src/py_sofistik_utils/cdb_reader/_internal/cable_load.py:171-220 | the cases processed are the argument, deduplicated where the table does; the outcome and the new table are those of `LoadCases` |
| CdbTable.RecordTable.LoadAll | src/py_sofistik_utils/cdb_reader/_internals/cable_data.py:128-189 | an element-data load ends as `LoadData` says: nothing when the key is missing, otherwise exactly the fresh sorted and stamped rows |
| CdbLaws.Present | src/py_sofistik_utils/cdb_reader/_internal/cable_load.py:192-193 | the cases that are read are exactly the requested cases whose key exists |
| CdbLaws.Outside | src/py_sofistik_utils/cdb_reader/_internal/cable_load.py:83-92 | the rows of the cases not in a set |
| CdbLaws.StageFromRows | src/py_sofistik_utils/cdb_reader/_internal/cable_load.py:191-195 | the staging loop yields the concatenated reads of the present cases, or the first failure |
| CdbLaws.StageFromState | src/py_sofistik_utils/cdb_reader/_internal/cable_load.py:191-195 | the staging loop clears exactly the present cases |
| CdbLaws.StageFromConsistent | src/py_sofistik_utils/cdb_reader/_internal/cable_load.py:191-195 | staging keeps every row inside a loaded case |
| CdbLaws.ClearCasesRows | src/py_sofistik_utils/cdb_reader/_internal/cable_load.py:83-92 | clearing several cases keeps exactly the rows outside them |
| CdbLaws.StagedTagged | src/py_sofistik_utils/cdb_reader/_internal/cable_load.py:263-272 | every staged row carries a present load case and group 0 |
| CdbLaws.LoadCasesOutcome | src/py_sofistik_utils/cdb_reader/_internal/cable_load.py:191-220 | `load` raises the first read failure, or KeyError when nothing was staged, and otherwise appends the fresh rows and records every requested case |
| CdbLaws.LoadCasesDone | src/py_sofistik_utils/cdb_reader/_internal/cable_load.py:191-220 | a successful load leaves the old rows of the untouched cases, followed by the fresh rows of the present cases |
| CdbLaws.LoadKeepsConsistent | src/py_sofistik_utils/cdb_reader/_internal/cable_load.py:191-220 | `load` keeps every row inside a loaded case |
| CdbLaws.LoadRecordsCases | src/py_sofistik_utils/cdb_reader/_internal/cable_load.py:220 | after a successful load the loaded set grows by exactly the requested cases |
| CdbLaws.ReloadReplaces | src/py_sofistik_utils/cdb_reader/_internal/cable_load.py:191-220 | after a load, a present requested case holds exactly its fresh rows, and every other case is untouched |
| CdbLaws.LoadTwice | src/py_sofistik_utils/cdb_reader/_internal/cable_load.py:191-220 | loading the same cases again succeeds and leaves the table as it was |
| CdbLaws.ClearThenReload | src/py_sofistik_utils/cdb_reader/_internal/cable_load.py:83-220 | `clear(lc)` and then `load(lc)` restores the table that the first load produced |
| CdbLaws.MissingCasesRaise | src/py_sofistik_utils/cdb_reader/_internal/cable_load.py:191-201 | when no requested key exists, nothing is staged; the sort raises KeyError and the table is unchanged |
| CdbLaws.LoadDataTwice | src/py_sofistik_utils/cdb_reader/_internals/cable_data.py:128-189 | reloading element data succeeds and gives the same table |
| CableLoad.Project | src/py_sofistik_utils/cdb_reader/_internal/cable_load.py:256-272 | a record is decoded through `_LOAD_TYPE_MAP`; an unknown code raises RuntimeError |
| CableLoad.ReadLoads | src/py_sofistik_utils/cdb_reader/_internal/cable_load.py:232-274 | a read raises RuntimeError if and only if a consumed record has an unknown code, and otherwise yields one row per record, in order |
| CableLoad.ProjectSound | src/py_sofistik_utils/cdb_reader/_internal/cable_load.py:263-272 | rows carry the requested load case and group 0 |
| TrussLoad.LoadTypesExtendCable | src/py_sofistik_utils/cdb_reader/_internals/truss_load.py:19-33 | the truss map is the cable map plus code 60, so 60 and 61 both decode to DT |
| TrussLoad.Project | src/py_sofistik_utils/cdb_reader/_internals/truss_load.py:224-230 | a record is decoded through the truss map; an unknown code raises RuntimeError |
| TrussLoad.ReadLoads | src/py_sofistik_utils/cdb_reader/_internals/truss_load.py:200-243 | a read raises RuntimeError exactly on an unknown code, and otherwise yields one row per record |
| SpringResult.Project | src/py_sofistik_utils/cdb_reader/_internals/spring_result.py:232 | a record is kept if and only if `m_nr > 0` |
| SpringResult.ReadResults | src/py_sofistik_utils/cdb_reader/_internals/spring_result.py:208-247 | the rows read are exactly the consumed records with `m_nr > 0`, in order |
| TrussResults.Project | src/py_sofistik_utils/cdb_reader/_internal/truss_results.py:187 | a record is kept if and only if `m_nr != 0` |
| TrussResults.ReadResults | src/py_sofistik_utils/cdb_reader/_internal/truss_results.py:163-198 | the rows read are exactly the consumed records with `m_nr != 0`, in order |
| CableResults.Project | src/py_sofistik_utils/cdb_reader/_internal/cable_results.py:123 | a record is kept if and only if `m_nr > 0` |
| CableResults.ReadResults | src/py_sofistik_utils/cdb_reader/_internal/cable_results.py:99-138 | the rows read are exactly the consumed records with `m_nr > 0`, in order |
| CableResults.ListedTwiceStagedTwice | src/py_sofistik_utils/cdb_reader/_internal/cable_results.py:64-75 | without deduplication, a case listed twice is read and staged twice |
| CableData.Project | src/py_sofistik_utils/cdb_reader/_internals/cable_data.py:156-165 | N1, N2, L0 and PROPERTY come from the record's nodes, length and property |
| CableData.ReadElements | src/py_sofistik_utils/cdb_reader/_internal/cable_data.py:80-141 | a read never raises and yields one row per consumed record, in order |
| TrussData.Project | src/py_sofistik_utils/cdb_reader/_internal/truss_data.py:94-104 | GAP comes from the record |
| TrussData.ReadElements | src/py_sofistik_utils/cdb_reader/_internal/truss_data.py:66-128 | one row per consumed record, in order |
| SpringData.Project | src/py_sofistik_utils/cdb_reader/_internal/spring_data.py:98-160 | CP, CT and CM come from the axial, lateral and rotational stiffness |
| SpringData.ReadElements | src/py_sofistik_utils/cdb_reader/_internal/spring_data.py:98-160 | one row per consumed record, in order |
| TrussLoadLegacy.DecodeAgreesBut60 | src/py_sofistik_utils/cdb_reader/_internal/truss_load.py:190-218 | the older decoder accepts the same codes as the newer one and agrees on all of them except 60, which it calls "T" |
| TrussLoadLegacy.Project | src/py_sofistik_utils/cdb_reader/_internal/truss_load.py:190-218 | an unknown code raises RuntimeError |
| TrussLoadLegacy.Table.Load | src/py_sofistik_utils/cdb_reader/_internal/truss_load.py:124-158 | the older `load` ends as `LegacyLoad`: cases in order without deduplication, then the membership group loop |
| TrussLoadLegacy.ReadCasesAppends | src/py_sofistik_utils/cdb_reader/_internal/truss_load.py:137-148 | a successful read loop appends the reads of the present cases and records them |
| TrussLoadLegacy.ReadCasesConsistent | src/py_sofistik_utils/cdb_reader/_internal/truss_load.py:137-148 | every row stays inside a loaded case |
| TrussLoadLegacy.ReloadRaises | src/py_sofistik_utils/cdb_reader/_internal/truss_load.py:35-44 | loading a case that is already loaded raises KeyError and changes nothing |
| TrussLoadLegacy.SecondLoadRaises | src/py_sofistik_utils/cdb_reader/_internal/truss_load.py:137-138 | a second `load(lc)`, or `load([lc, lc])`, raises KeyError |
| TrussLoadLegacy.EmptyFirstReadLosesColumns | src/py_sofistik_utils/cdb_reader/_internal/truss_load.py:144-158 | if the first read of an empty table yields no rows, the group loop raises AttributeError |
| Node.DispOf | src/py_sofistik_utils/cdb_reader/_internals/node.py:49 | a node without a displacement gets 0 |
| Node.Deflected | src/py_sofistik_utils/cdb_reader/_internals/node.py:45-57 | one row per node: the load case, the id, and coordinates equal to the original plus the displacement |
| Node.OtherCases | src/py_sofistik_utils/cdb_reader/_internals/node.py:71 | the rows of the other load cases |
| Node.Configuration | src/py_sofistik_utils/cdb_reader/_internals/node.py:83-90 | LookupError if and only if the case is not calculated; otherwise the points of exactly that case's rows |
| Node.NodeCache.Calculate | src/py_sofistik_utils/cdb_reader/_internals/node.py:35-63 | the new cache is `Calculated` of the old one: the rows are appended and the case recorded |
| Node.NodeCache.Clear | src/py_sofistik_utils/cdb_reader/_internals/node.py:65-72 | the new cache is `Cleared` of the old one |
| Node.NodeCache.ClearAll | src/py_sofistik_utils/cdb_reader/_internals/node.py:74-81 | the new cache is `ClearedAll` of the old one |
| Node.NodeCache.Get | src/py_sofistik_utils/cdb_reader/_internals/node.py:83-90 | `get_deflected_configuration` is `Configuration` of the cache |
| Node.NodeCache.IsCalculated | src/py_sofistik_utils/cdb_reader/_internals/node.py:92-96 | true exactly when the configuration can be fetched |
| Node.CalculatedKeepsConsistent | src/py_sofistik_utils/cdb_reader/_internals/node.py:59-63 | every row still belongs to a calculated case |
| Node.ClearedKeepsConsistent | src/py_sofistik_utils/cdb_reader/_internals/node.py:65-72 | every row still belongs to a calculated case |
| Node.ConfigurationAfterCalculate | src/py_sofistik_utils/cdb_reader/_internals/node.py:35-90 | after calculating a new case, fetching it gives exactly the deflected points |
| Node.CalculateTwiceRepeats | src/py_sofistik_utils/cdb_reader/_internals/node.py:59-63 | calculating a case twice without clearing it returns every point twice |
| Node.ConfigurationAfterClear | src/py_sofistik_utils/cdb_reader/_internals/node.py:65-90 | after `clear(lc)`, fetching `lc` raises and every other case is unchanged |
| Node.ConfigurationAfterClearAll | src/py_sofistik_utils/cdb_reader/_internals/node.py:74-90 | on a consistent cache clearing everything leaves no rows and no calculated case, also on the early return, so every case raises LookupError afterwards |
| Node.ClearThenCalculate | src/py_sofistik_utils/cdb_reader/_internals/node.py:35-90 | clearing and then calculating gives exactly the deflected points |
| Directive.Detect | src/py_sofistik_utils/dat_manipulator/_internals/system_directive.py:38-60 | the status is the character before SYS: +, - or *; a missing character raises IndexError, any other character RuntimeError |
| Directive.SystemDirective.Init | src/py_sofistik_utils/dat_manipulator/_internals/system_directive.py:38-60 | the directive holds its text, and its status flags agree with it |
| Directive.SystemDirective.Create | src/py_sofistik_utils/dat_manipulator/_internals/system_directive.py:38-60 | the text is upper-cased and the status detected; it fails exactly when detection fails |
| Directive.SystemDirective.FromString | src/py_sofistik_utils/dat_manipulator/_internals/system_directive.py:127-137 | succeeds if and only if the line is a system directive starting with a status character; the stored text is upper-cased and right-stripped |
| Directive.FromStringCheckAgrees | src/py_sofistik_utils/dat_manipulator/_internals/system_directive.py:25-32 | the check `from_string` applies is `is_system_directive` |
| Directive.SystemDirectiveShape | src/py_sofistik_utils/dat_manipulator/_internals/system_directive.py:25-32 | a line is a system directive exactly when, after leading whitespace, it has at least four characters and characters 1 to 3 read `SYS` in any case |
| Directive.FromStringDetects | src/py_sofistik_utils/dat_manipulator/_internals/system_directive.py:127-137 | on a directive line, detection succeeds exactly when the first non-blank character is a status character |
| Directive.SystemDirective.LinkToProg | src/py_sofistik_utils/dat_manipulator/_internals/system_directive.py:98-104 | the status becomes linked; a linked directive is unchanged; otherwise exactly the status character becomes `*` |
| Directive.SystemDirective.TurnOff | src/py_sofistik_utils/dat_manipulator/_internals/system_directive.py:106-112 | the status becomes off; exactly the status character becomes `-` |
| Directive.SystemDirective.TurnOn | src/py_sofistik_utils/dat_manipulator/_internals/system_directive.py:114-120 | the status becomes on; exactly the status character becomes `+` |
| Directive.SystemDirective.Switch | src/py_sofistik_utils/dat_manipulator/_internals/system_directive.py:98-120 | moving to another status rewrites only the status character |
| Directive.SystemDirective.Equals | src/py_sofistik_utils/dat_manipulator/_internals/system_directive.py:62-68 | two directives are equal if and only if their serializations are equal |
| Directive.SystemDirective.Serialize | src/py_sofistik_utils/dat_manipulator/_internals/system_directive.py:122-125 | the text of a consistent directive is upper-case and carries its status character |
| Directive.Rewritten | src/py_sofistik_utils/dat_manipulator/_internals/system_directive.py:98-120 | the rewritten text has the same length and holds the new status character |
| Program.WithFlag | src/py_sofistik_utils/dat_manipulator/_internals/program.py:278-288 | only the first character of row 0 changes; an empty program or an empty first row raises IndexError |
| Program.WithFlagIdempotent | src/py_sofistik_utils/dat_manipulator/_internals/program.py:278-288 | turning on, or off, twice is doing it once |
| Program.Detected | src/py_sofistik_utils/dat_manipulator/_internals/program.py:290-313 | activity and type come from row 0's flag and second word; a bad flag or an unknown type raises, and an empty program keeps the given values |
| Program.CountRow | src/py_sofistik_utils/dat_manipulator/_internals/program.py:336-362 | the count is the number of rows equal to the upper-cased string, `multiset(rows)[Upper(search)]`, so it is 0 exactly when that row is absent; a non-string raises TypeError |
| Program.AddRowCounted | src/py_sofistik_utils/dat_manipulator/_internals/program.py:63-73 | adding a row increases its count by one |
| Program.SofistikProgram.Create | src/py_sofistik_utils/dat_manipulator/_internals/program.py:42-57 | the constructor stores the rows and the upper-cased name, and takes the flag and type detected from row 0; it raises exactly what detection raises |
| Program.SofistikProgram.CreateEmpty | src/py_sofistik_utils/dat_manipulator/_internals/program.py:316-334 | three rows (PROG line, HEAD line, END) with the requested flag and type; an unknown type raises RuntimeError |
| Program.SofistikProgram.AddRow | src/py_sofistik_utils/dat_manipulator/_internals/program.py:63-73 | a string is appended upper-cased; anything else raises TypeError |
| Program.SofistikProgram.GetRowIndex | src/py_sofistik_utils/dat_manipulator/_internals/program.py:148-165 | the first position holding the normalised row; ValueError if and only if it is absent |
| Program.SofistikProgram.AddRowAfter | src/py_sofistik_utils/dat_manipulator/_internals/program.py:75-89 | the new row is inserted right after the first match; ValueError and no change when there is none |
| Program.SofistikProgram.AddRowBefore | src/py_sofistik_utils/dat_manipulator/_internals/program.py:91-105 | the new row is inserted right before the first match; ValueError and no change when there is none |
| Program.SofistikProgram.Clear | src/py_sofistik_utils/dat_manipulator/_internals/program.py:107-112 | rows, name and type are emptied, and the activity is kept |
| Program.SofistikProgram.GetRowByIndex | src/py_sofistik_utils/dat_manipulator/_internals/program.py:129-146 | Python indexing: valid exactly for `-len <= i < len`, otherwise IndexError |
| Builtins.Count | src/py_sofistik_utils/dat_manipulator/_internals/program.py:362 | Python `list.count`: the number of elements equal to the value, `multiset(s)[x]`, at most the length and 0 exactly when the value is absent |
| Builtins.SetAt | src/py_sofistik_utils/dat_manipulator/_internals/program.py:177-180 | Python item assignment: valid exactly for `-len <= i < len`, and a negative index counts from the end, so -1 replaces the last row; IndexError otherwise |
| Program.SofistikProgram.ModifyRow | src/py_sofistik_utils/dat_manipulator/_internals/program.py:177-180 | for `-len <= i < len` row `i`, counted from the end when negative, becomes the upper-cased, right-stripped text and nothing else changes; any other index raises IndexError and changes nothing |
| Program.SofistikProgram.RemoveRowByIndex | src/py_sofistik_utils/dat_manipulator/_internals/program.py:182-199 | for `-len <= i < len` exactly row `i`, counted from the end when negative, is removed and the others keep their order; any other index raises IndexError and changes nothing |
| Program.SofistikProgram.RemoveRowByText | src/py_sofistik_utils/dat_manipulator/_internals/program.py:201-219 | the first occurrence is removed; ValueError and no change when there is none |
| Program.SofistikProgram.Replace | src/py_sofistik_utils/dat_manipulator/_internals/program.py:221-237 | the first matching row is overwritten; ValueError and no change when there is none |
| Program.SofistikProgram.ReplaceByIndex | src/py_sofistik_utils/dat_manipulator/_internals/program.py:239-253 | insert-then-delete: in range, exactly that row is overwritten; past the end, the row is appended and IndexError is raised |
| Program.InsertThenDeleteInRange | src/py_sofistik_utils/dat_manipulator/_internals/program.py:239-253 | for a non-negative index in range, inserting and then deleting the next row overwrites that row |
| Program.InsertThenDeletePastEnd | src/py_sofistik_utils/dat_manipulator/_internals/program.py:239-253 | past the end, the row is appended and the deletion raises |
| Program.ReplaceLastDropsFirst | src/py_sofistik_utils/dat_manipulator/_internals/program.py:252-253 | index -1 puts the new row before the last one and drops the first row |
| Program.SofistikProgram.SetName | src/py_sofistik_utils/dat_manipulator/_internals/program.py:260-264 | row 1 becomes the HEAD line and the name is updated; a program with fewer than two rows gets the line appended and raises IndexError |
| Program.SofistikProgram.SetType | src/py_sofistik_utils/dat_manipulator/_internals/program.py:266-276 | row 0 becomes the PROG line of the new type with the current flag; an unknown type raises RuntimeError, and an empty program raises IndexError after gaining the row |
| Program.SofistikProgram.TurnOff | src/py_sofistik_utils/dat_manipulator/_internals/program.py:278-282 | row 0's flag becomes `-` and the program is inactive; IndexError and no change on an empty program |
| Program.SofistikProgram.TurnOn | src/py_sofistik_utils/dat_manipulator/_internals/program.py:284-288 | row 0's flag becomes `+` and the program is active; IndexError and no change on an empty program |
| Program.ProgRowStored | src/py_sofistik_utils/dat_manipulator/_internals/program.py:266-276 | the PROG line `set_type` writes is stored unchanged |
| Program.SofistikProgram.Init | src/py_sofistik_utils/dat_manipulator/_internals/program.py:42-53 | the rows, flag and type are stored as given and the name upper-cased, before any detection |
| Program.SofistikProgram.Serialize | src/py_sofistik_utils/dat_manipulator/_internals/program.py:255-258 | the text is the rows, each followed by a newline, with the trailing whitespace and only that cut off |
| Chapter.LastIndexFrom | src/py_sofistik_utils/dat_manipulator/_internals/chapter.py:245-253 | the last listed position at or after the bound that names a program; RuntimeError when there is none |
| Chapter.PutKeepsConsistent | src/py_sofistik_utils/dat_manipulator/_internals/chapter.py:43-153 | registering a new upper-cased name keeps the order list equal to the two registries' keys |
| Chapter.DropKeepsConsistent | src/py_sofistik_utils/dat_manipulator/_internals/chapter.py:304-314 | dropping a program keeps the order list equal to the two registries' keys |
| Chapter.SofistikChapter.constructor | src/py_sofistik_utils/dat_manipulator/_internals/chapter.py:31-38 | an empty chapter with an upper-cased name |
| Chapter.SofistikChapter.GetProgram | src/py_sofistik_utils/dat_manipulator/_internals/chapter.py:265-273 | the program under the upper-cased name; RuntimeError if and only if there is none |
| Chapter.SofistikChapter.GetDirective | src/py_sofistik_utils/dat_manipulator/_internals/chapter.py:235-243 | the directive under the upper-cased text; RuntimeError if and only if there is none |
| Chapter.SofistikChapter.GetProgramIndex | src/py_sofistik_utils/dat_manipulator/_internals/chapter.py:275-282 | the first position of the program's name in the order; RuntimeError if and only if it is not a program |
| Chapter.LookupIgnoresCase | src/py_sofistik_utils/dat_manipulator/_internals/chapter.py:284-302 | lookups give the same answer for a name and its upper-cased form |
| Chapter.SofistikChapter.AddProgram | src/py_sofistik_utils/dat_manipulator/_internals/chapter.py:103-113 | a new program is registered and appended to the order; an existing name raises RuntimeError and changes nothing |
| Chapter.SofistikChapter.AddProgramAfter | src/py_sofistik_utils/dat_manipulator/_internals/chapter.py:115-133 | inserted right after the first occurrence of the target; ValueError for an unknown target, RuntimeError for an existing name |
| Chapter.SofistikChapter.AddProgramBefore | src/py_sofistik_utils/dat_manipulator/_internals/chapter.py:135-153 | inserted right before the target, with the same failures |
| Chapter.SofistikChapter.CreateNewProgram | src/py_sofistik_utils/dat_manipulator/_internals/chapter.py:200-207 | an empty program of the requested type is appended; an unknown type or an existing name raises RuntimeError and changes nothing |
| Chapter.SofistikChapter.CreateNewProgramAfter | src/py_sofistik_utils/dat_manipulator/_internals/chapter.py:209-220 | an unknown type raises first, then an unknown target (ValueError), then an existing name; otherwise the empty program is placed after the target |
| Chapter.SofistikChapter.CreateNewProgramBefore | src/py_sofistik_utils/dat_manipulator/_internals/chapter.py:222-233 | the same failures, with the program placed before the target |
| Chapter.SofistikChapter.AddDirective | src/py_sofistik_utils/dat_manipulator/_internals/chapter.py:43-53 | a new directive is registered under its text and appended; an existing text raises RuntimeError |
| Chapter.SofistikChapter.AddDirectiveAfter | src/py_sofistik_utils/dat_manipulator/_internals/chapter.py:55-77 | inserted after the target; ValueError for an unknown target, RuntimeError for an existing text |
| Chapter.SofistikChapter.AddDirectiveBefore | src/py_sofistik_utils/dat_manipulator/_internals/chapter.py:79-101 | inserted before the target, with the same failures |
| Chapter.SofistikChapter.RemoveProgram | src/py_sofistik_utils/dat_manipulator/_internals/chapter.py:304-314 | the program leaves the registry and its first occurrence leaves the order; RuntimeError and no change if it is unknown |
| Chapter.SofistikChapter.CopyProgramTo | src/py_sofistik_utils/dat_manipulator/_internals/chapter.py:155-198 | an unknown source or target raises RuntimeError and no program changes; no program but the target ever changes, and the source keeps its rows; a copy onto itself raises IndexError and leaves the program holding only its HEAD row, name and type emptied; a source of fewer than two rows raises IndexError, the target holding those rows plus its HEAD row; an unknown source type raises RuntimeError after the name is set; otherwise the target holds the retagged rows, its own name and the source's type and flag |
| Chapter.CopyInto | src/py_sofistik_utils/dat_manipulator/_internals/chapter.py:182-198 | clearing the target first is seen when source and target are one program: no rows are copied; otherwise the target is refilled with the source's upper-cased rows and then retagged, with the same three failure states |
| Chapter.Retag | src/py_sofistik_utils/dat_manipulator/_internals/chapter.py:192-198 | `set_name` raises IndexError on fewer than two rows after appending the HEAD row; an unknown type raises RuntimeError with row 1 already renamed; otherwise the rows are `Retagged` and the name, type and flag are the given ones |
| Chapter.Retagged | src/py_sofistik_utils/dat_manipulator/_internals/chapter.py:190-198 | the copied rows keep their length and every row from position 2 on; row 0 becomes the PROG line of the source's flag and type, and row 1 the target's HEAD line |
| Chapter.SofistikChapter.GetLastProgram | src/py_sofistik_utils/dat_manipulator/_internals/chapter.py:245-253 | the program at the last position from 2 on that names a program; RuntimeError otherwise |
| Chapter.LastProgramSkipsFirstTwo | src/py_sofistik_utils/dat_manipulator/_internals/chapter.py:249 | a chapter whose only item is a program has no "last program" |
| Chapter.LastProgramFound | src/py_sofistik_utils/dat_manipulator/_internals/chapter.py:245-253 | a scan down to position 0 finds a program whenever one is listed, and finds the last one |
| Chapter.SofistikChapter.Serialize | src/py_sofistik_utils/dat_manipulator/_internals/chapter.py:316-327 | serializing a consistent chapter never fails |
| Chapter.SofistikChapter.TurnOn | src/py_sofistik_utils/dat_manipulator/_internals/chapter.py:340-349 | the chapter becomes active, every program's flag becomes `+` and every directive turns on; IndexError if some program is empty |
| Chapter.SofistikChapter.TurnOff | src/py_sofistik_utils/dat_manipulator/_internals/chapter.py:329-338 | the chapter becomes inactive, every program's flag becomes `-` and every directive turns off; IndexError if some program is empty |
| DeckStructure.Pairs | src/py_sofistik_utils/dat_manipulator/manipulator.py:367-369 | consecutive indexes are paired; an odd count raises IndexError |
| DeckStructure.CountChapters | src/py_sofistik_utils/dat_manipulator/manipulator.py:351-369 | None without a chapter header; otherwise one span per header, running to the line before the next header, and the last to the end |
| DeckStructure.ChapterMarksSorted | src/py_sofistik_utils/dat_manipulator/manipulator.py:360-369 | sorting the header and boundary indexes and pairing them gives those spans |
| DeckStructure.CountDirectives | src/py_sofistik_utils/dat_manipulator/manipulator.py:372-383 | None without a directive; otherwise exactly one one-line span per directive line, ascending |
| DeckStructure.ScanRecords | src/py_sofistik_utils/dat_manipulator/manipulator.py:386-415 | the program scan records, in increasing order, every PROG line and each program's last END before the next PROG |
| DeckStructure.CountProgramsSpans | src/py_sofistik_utils/dat_manipulator/manipulator.py:385-415 | an odd number of recorded lines raises IndexError; otherwise the spans are ascending and disjoint, and their ends are exactly the recorded lines, so a span may end on a PROG line when two starts meet without an END |
| DeckStructure.GetOrderSorted | src/py_sofistik_utils/dat_manipulator/manipulator.py:418-433 | the order holds every span, is sorted by first line, and keeps ties in list order |
| DeckStructure.Prepared | src/py_sofistik_utils/dat_manipulator/manipulator.py:311 | each line is right-stripped and upper-cased |
| DeckStructure.FoldFailureStays | src/py_sofistik_utils/dat_manipulator/manipulator.py:320-348 | the build stops at the first item that raises |
| DeckStructure.StructureFailures | src/py_sofistik_utils/dat_manipulator/manipulator.py:308-348 | building a structure raises only IndexError or RuntimeError |
| DeckStructure.StructureShape | src/py_sofistik_utils/dat_manipulator/manipulator.py:317-318 | a built structure starts with a PROG line, and every top-level name is upper-case |
| Manipulator.DatManipulator.constructor | src/py_sofistik_utils/dat_manipulator/manipulator.py:34-44 | an empty deck at `path + name + ".dat"` |
| Manipulator.DatManipulator.GetChapter | src/py_sofistik_utils/dat_manipulator/manipulator.py:98-111 | the chapter under the upper-cased name; RuntimeError if and only if there is none |
| Manipulator.DatManipulator.GetDirective | src/py_sofistik_utils/dat_manipulator/manipulator.py:113-120 | the directive under the upper-cased text; RuntimeError if and only if there is none |
| Manipulator.DatManipulator.GetProgram | src/py_sofistik_utils/dat_manipulator/manipulator.py:138-150 | the top-level program; RuntimeError if and only if there is none |
| Manipulator.DatManipulator.GetProgramIndex | src/py_sofistik_utils/dat_manipulator/manipulator.py:152-159 | the first position of the name in the order; RuntimeError for an unknown program |
| Manipulator.DatManipulator.AddChapter | src/py_sofistik_utils/dat_manipulator/manipulator.py:49-59 | a new, empty, active chapter is registered and appended; an existing name raises RuntimeError |
| Manipulator.DatManipulator.AddDirective | src/py_sofistik_utils/dat_manipulator/manipulator.py:61-70 | the directive is registered and appended; an existing text raises RuntimeError |
| Manipulator.DatManipulator.AddProgram | src/py_sofistik_utils/dat_manipulator/manipulator.py:72-82 | the program is registered and appended; an existing name raises RuntimeError |
| Manipulator.DatManipulator.CreateNewProgram | src/py_sofistik_utils/dat_manipulator/manipulator.py:84-96 | an empty program of the requested type is appended; an unknown type or an existing name raises RuntimeError |
| Manipulator.DatManipulator.Switch | src/py_sofistik_utils/dat_manipulator/manipulator.py:284-306 | `turn_on`/`turn_off`: every chapter takes the state, every program of the file and its chapters has its flag rewritten, and every directive is switched; IndexError if some program is empty |
| Manipulator.SwitchAll | src/py_sofistik_utils/dat_manipulator/manipulator.py:284-306 | the chapter loop and the file-level loops together switch every program and directive once, even when several chapters hold the same object |
| Manipulator.DatManipulator.Initialize | src/py_sofistik_utils/dat_manipulator/manipulator.py:191-203 | the lines are stored right-stripped after the earlier ones, and the structure is built from all of them: the outcome and the new top-level order are those of `Structure`; on success every chapter of the structure is registered under its name with its flag, holding a program with the recorded rows under each recorded name and a directive for each recorded text, and each top-level program and directive is registered with its rows or text; the three dictionaries grow by exactly the names the structure records, and every other entry keeps its old value |
| Manipulator.DatManipulator.BuildStructure | src/py_sofistik_utils/dat_manipulator/manipulator.py:308-348 | building succeeds exactly when `Structure` does, raises its failure otherwise, appends its top-level names to the order, and on success registers every chapter, program and directive of the structure with its contents, as for `Initialize`; the dictionaries gain exactly the structure's names, and every entry the structure does not name is kept |
| Manipulator.DatManipulator.BuildItems | src/py_sofistik_utils/dat_manipulator/manipulator.py:320-348 | the item loop ends as the fold of the items does: same outcome and failure, same top-level order, and on success the registries hold every chapter, program and directive the fold records, with their contents; each dictionary's keys are the old keys plus the names the fold records, and every old entry the fold does not name is unchanged (`Grown`) |
| Manipulator.NewProgram | src/py_sofistik_utils/dat_manipulator/manipulator.py:330-333 | a program span gives a fresh program with the upper-case name the span's HEAD line yields and exactly the span's rows, or raises exactly what building it raises |
| Manipulator.NewDirective | src/py_sofistik_utils/dat_manipulator/manipulator.py:341-343 | a directive span gives a fresh, consistent, upper-case directive holding the span's line, or raises exactly what parsing it raises: IndexError for a span past the lines, RuntimeError for a line that is not a directive |
| Manipulator.DatManipulator.OpenChapter | src/py_sofistik_utils/dat_manipulator/manipulator.py:327-329 | the new chapter is registered under its name, becomes the open chapter, and the registries hold the structure with that chapter opened |
| Manipulator.DatManipulator.PlaceProgram | src/py_sofistik_utils/dat_manipulator/manipulator.py:335-339 | a program joins the open chapter, or else the top level under its name; it fails, with RuntimeError, exactly when the open chapter already has that name; on success the registries hold the structure with the program placed |
| Manipulator.DatManipulator.PlaceDirective | src/py_sofistik_utils/dat_manipulator/manipulator.py:344-348 | a directive joins the open chapter, or else the top level under its text; it fails, with RuntimeError, exactly when the open chapter already has that text; on success the registries hold the structure with the directive placed |
| Manipulator.ManipulatorLookupIgnoresCase | src/py_sofistik_utils/dat_manipulator/manipulator.py:138-189 | `has_chapter`, `has_directive`, `has_program` and `get_program` give the same answer for a name and its upper-cased form |
| Manipulator.DatManipulator.Rendered | src/py_sofistik_utils/dat_manipulator/manipulator.py:265-277 | the text of every listed name exists whenever the deck is consistent |
| Manipulator.DatManipulator.Serialize | src/py_sofistik_utils/dat_manipulator/manipulator.py:265-277 | the loop's text is `Rendered` of the order, and it never fails on a consistent deck |

## Left out

- The DLL itself (opening and closing the database, `sof_cdb_get` and `key_exist`) is left out: the database is an input value `Cdb` of existing keys and reply streams.
- The `_GroupData` table is left out: its cable, truss and spring ranges are an input `GroupData`.
- The reader facade (`reader.py`), `_internal/spring_results.py`, and the `cable.py`/`truss.py`/`spring.py` bundles are left out, because they only wire tables together.
- Echo levels and warnings (`set_echo_level`, the `echo_level > 0` messages) are left out, because they produce output only.
- `data(deep)` is left out: it returns a pandas copy. The model's tables are values.
- The older `_internal/truss_load.py` standalone `clear`, `clear_all` and `get` are left out. Only the KeyError its `clear` raises during a reload is modelled, inside `TrussLoadLegacy.ReadCases`.
- `get_element_connectivity` and `get_element_length` of `_internal/cable_data.py` are left out, because they raise NotImplementedError before doing anything.
- `has_axial_stiffness`, `has_lateral_stiffness` and `has_rotational_stiffness` of `_internal/spring_data.py` are left out, because they call getters the class does not define.
- CdbTable.RecordTable.Load: the order of `list(set(load_cases))` is not modelled. It is a ghost list of the distinct cases in some order, because Python does not fix it.
- CdbTable.Lookup: pandas scalar types and dtype promotion are not modelled. Values are `Int`, `Real` or `Text`.
- CdbTable.RecordTable.Load: the pandas index is not modelled as an object. The index is the key function `IndexKey` over the rows, and `set_index` only fixes the key arity.
- Node.NodeCache.Calculate: the "load the node data and results if not loaded" step is left out. The coordinates and displacements are inputs.
- Manipulator.DatManipulator.Initialize: reading the `.dat` file is left out. Its lines are an input. `load_external_text_file`, `save`, `save_as`, `save_original_as` and `__repr__` are file output and left out.
- `MutableString` is left out: a row is a `string`, replaced whole where Python mutates it in place.
- Chapter.SofistikChapter.Serialize: only states that a consistent chapter always serializes. The text layout is the body: a header, then each item followed by a blank line.
- Manipulator.DatManipulator.Rendered: only states that a consistent deck always renders. The per-item text is in `ItemText`.
- Simple field getters (`get_name`, `get_type`, `is_active`, `get_content`, `get_number_of_rows`, `get_list_of_content`, `get_original_content`, `get_echo_level`) are left out: they are reads of the modelled fields.
- Directive.Detect: only ASCII whitespace and ASCII upper-casing are modelled. Python's Unicode rules for `strip` and `upper` are not.
- Builtins.Upper: upper-cases the ASCII letters `a` to `z` only, because Python's Unicode case mapping (including characters that grow, such as `ß`) is not modelled.
- Builtins.LStrip: strips ASCII whitespace only, because Python's Unicode whitespace classes are not modelled.
- Builtins.RStrip: strips ASCII whitespace only, for the same reason.
- Builtins.Words: splits on ASCII whitespace only, as `str.split()` does on ASCII text.
- Node.Deflected: coordinates are real numbers, so float64 rounding is not modelled, and `rows[i].x - coords[i].x0 == ux` holds here but need not hold of floats. The `fillna(0.0)` of node.py:49 also turns a NaN displacement into 0, but reals have no NaN, so that case is absent. Displacements are a `map<int, Disp>`, so the error that pandas `Series.map` raises when a displacement ID appears twice is not modelled.
- CdbTable.RecordTable.Get: one `get` serves every table, including the cable results table, whose class in `_internal/cable_results.py` defines no `get`. On that table the model offers a lookup the Python class lacks.

## Findings

| source | as written | input that shows it | evidently intended | confidence | as-written member | corrected member |
|---|---|---|---|---|---|---|
| src/py_sofistik_utils/cdb_reader/_internal/truss_load.py:137-138 | `load` calls `clear` before reading a case. For a case already loaded, `clear` asks the table's plain RangeIndex for its LOAD_CASE level, which raises KeyError | `load(1)` twice, with key 151/1 present | a reload replaces the case's rows, as the newer truss loads table does | high, not executed | TrussLoadLegacy.SecondLoadRaises | CdbLaws.ReloadReplaces |
| src/py_sofistik_utils/dat_manipulator/_internals/chapter.py:249 | `range(len(order) - 1, 1, -1)` stops before position 1, so positions 0 and 1 are never looked at | a chapter holding one program raises "No programs found" | scan down to position 0 and return the last program | medium, not executed | Chapter.LastProgramSkipsFirstTwo | Chapter.LastProgramFound |
| src/py_sofistik_utils/dat_manipulator/_internals/program.py:252-253 | `insert(index)` followed by `del [index + 1]`; for `index == -1` the deletion hits position 0 | rows `[A, B, C]` and `replace_by_index(-1, "X")` give `[B, X, C]` | `[A, B, X]`: Python's `rows[-1] = X`, as `modify_row` does | medium, not executed | Program.ReplaceLastDropsFirst | Builtins.SetAt |
