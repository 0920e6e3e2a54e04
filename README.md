# ebu validation engine, modelled in Dafny

ebu checks road-network data that a local government uploads. The model covers the validation engine and the two places that assemble or judge its results:

- **Per-table validators.** The seven validators in `ebu/Scripts/all_table_validations/` each take a table (columns plus rows of cells) and return findings. A finding is a report row with a `Record_No` and a `Validation_Message`.
  - Link and BridgeInventory have dictionary-returning `validate_row` checkers.
  - Alignment, RoadCondition, TrafficVolume, RetainingWallCondition and CODE_AN_UnitCostsRIGID have table validators. Each has its own copy of the field type checker.
- **`runValidationScript`** (`main.py`).
  - It builds the Link report itself.
  - It puts a `NO_ERRORS` row in place of any empty validator result.
  - It writes a fixed BridgeInventory row.
  - It returns either the sixteen-table summary or the text of the first error raised.
- **`views.py`.**
  - The row and schema checks of the Link Excel upload (`validate_link_excel`).
  - The pass/fail arithmetic of `validate_db_file`.
  - The row filter of `get_validation_summary`.

Cells are values of `Values.Value`:

- `Null` is Python `None`.
- `NaN` is the pandas missing marker.
- `Str`, `Int`, `Bool` and `Float` hold the other values. `Float` holds an exact decimal, `Numbers.Dec`.

`float(...)`, `int(...)`, `str(...)`, `strip()`, truthiness and `==` are spelled out over these values. A Python dict is a sequence of key/message pairs kept in insertion order (`ErrorMaps`). A pandas frame is a column list plus a row sequence whose position is the frame's index (`Tables.Table`).

How each part is modelled:

- **Pure code** becomes functions: the type checkers, the dict-returning row checkers' rules, the verdicts and the report shapes.
- **Loops** become methods proved equal to those functions: the row loops, the continuity loop, the duplicate loops, the dict fills, the Link report builder, the upload's seen-set loop and the summary filter.
- **Lemmas** state what the source promises about the functions. For several rules there is an independent reference definition, and a lemma proves the two agree:
  - continuity breaks against consecutive numeric pairs;
  - duplicates against a count;
  - notes against the failing rows.

## Model

| member | source | states |
|---|---|---|
| Text.Strip | ebu/Scripts/all_table_validations/validate_link.py:31-32 | `str.strip()` has no white space at either end, and is "" exactly when the text is all white space |
| Text.StripSlice | ebu/Scripts/all_table_validations/validate_link.py:31-32 | `str.strip()` is a slice `s[i..j]` of its input whose margins `s[..i]` and `s[j..]` are all white space: only white space is cut, and only at the ends |
| Text.StripSpaced | ebu/Scripts/all_table_validations/validate_road_condition.py:99 | stripping a word that has no white space, padded by one blank on each side, gives the word back |
| Text.Lower | ebu/Scripts/all_table_validations/validate_road_condition.py:99 | `lower()` keeps the length and lowers every character |
| Text.Upper | ebu/views.py:283 | `upper()` keeps the length and raises every character |
| Text.NatText | ebu/views.py:294 | `str()` of a natural number is all digits |
| Text.IntText | ebu/views.py:294 | `str()` of an int is digits, after a '-' exactly when it is negative |
| Text.StrLessIrreflexive | ebu/Scripts/all_table_validations/validate_road_condition.py:177 | no string sorts before itself |
| Text.StrLessTransitive | ebu/Scripts/all_table_validations/validate_road_condition.py:177 | string order is transitive |
| Text.StrLessTotal | ebu/Scripts/all_table_validations/validate_road_condition.py:177 | any two different strings are ordered one way or the other |
| Text.LacksCharAvoids | ebu/views.py:586-588 | `str.contains(sub)` is false when the text lacks some character of `sub` |
| Numbers.ParseIntOfIntText | ebu/views.py:277-278 | `int(str(i)) == i` |
| Numbers.ParseFloatOfIntText | ebu/Scripts/all_table_validations/validate_link.py:50 | `float(str(i))` is `i` |
| Numbers.Normalize | ebu/Scripts/all_table_validations/validate_alignment.py:39-41 | dropping trailing fraction zeros keeps the value and leaves no zero at the end of a fraction |
| Numbers.FloatTextChars | ebu/Scripts/all_table_validations/validate_alignment.py:39-41 | `str()` of a float is made only of digits, a sign and a point |
| Numbers.Trunc | ebu/Scripts/all_table_validations/validate_alignment.py:40 | `int(x)` of a float rounds toward zero: it is within one of `x` on the side of zero |
| Numbers.RoundHalfEven | ebu/Scripts/all_table_validations/validate_alignment.py:154 | `{:.0f}` gives the nearest integer, ties going to the even one |
| Values.IsEmptyMeansBlank | ebu/Scripts/all_table_validations/validate_road_condition.py:52-61 | `_is_empty` holds exactly for None, NA, and a string of white space only |
| Values.PyEqEquivalence | ebu/Scripts/all_table_validations/validate_road_condition.py:157 | cell `==` is symmetric and transitive, and reflexive on everything but nan |
| Values.ToFloatOfIntText | ebu/Scripts/all_table_validations/validate_link.py:50 | `float()` of an int's text equals `float()` of the int |
| Values.ToIntOfIntText | ebu/views.py:278 | `int()` of an int's text gives the int |
| Values.SortLeTotalPreorder | ebu/Scripts/all_table_validations/validate_road_condition.py:177 | the sort key order (numbers, then strings, then NA) is total and transitive, and ties exactly on equal keys |
| Wrappers.SomesMeaning | ebu/Scripts/main.py:140-167 | keeping the report rows that exist keeps exactly the present ones |
| ErrorMaps.Get | ebu/Scripts/all_table_validations/validate_link.py:15-64 | a dict lookup finds a message exactly for a key the dict holds |
| ErrorMaps.Put | ebu/Scripts/all_table_validations/validate_link.py:19 | after `errors[k] = m`, the dict maps `k` to `m` |
| ErrorMaps.PutKeys | ebu/Scripts/all_table_validations/validate_bridge_inventory.py:55 | assigning an existing key keeps the key order; a new key goes at the end |
| ErrorMaps.PutOther | ebu/Scripts/all_table_validations/validate_bridge_inventory.py:55 | assigning one key leaves every other key's message as it was |
| ErrorMaps.PutKeepsUnique | ebu/Scripts/all_table_validations/validate_link.py:15-64 | assignment keeps keys unique |
| ErrorMaps.GetAt | ebu/Scripts/all_table_validations/validate_link.py:15-64 | each entry's key looks up that entry's message |
| ErrorMaps.PresentMeaning | ebu/Scripts/all_table_validations/validate_link.py:15-64 | a column is among the failing ones exactly when its check gave a message |
| ErrorMaps.PresentEmpty | ebu/Scripts/all_table_validations/validate_link.py:64 | no column fails exactly when every check passed |
| ErrorMaps.PresentAll | ebu/Scripts/all_table_validations/validate_link.py:15-64 | when every check fails, all the columns fail, in check order |
| ErrorMaps.FillRecords | ebu/Scripts/all_table_validations/validate_link.py:15-64 | after the first `j` checks on distinct columns, the dict holds exactly the failing ones, in order, each with its message |
| ErrorMaps.FillColumns | ebu/Scripts/all_table_validations/validate_link.py:15-64 | every key of the filled dict is one of the checked columns |
| LinkTable.MissingError | ebu/Scripts/all_table_validations/validate_link.py:24-25 | "missing" exactly when the cell is falsy, and nothing otherwise |
| LinkTable.ProvinceCodeError | ebu/Scripts/all_table_validations/validate_link.py:18-21 | "missing" iff falsy; "invalid format" iff truthy and its text neither all letters nor all digits; nothing in every other case |
| LinkTable.LinkNoError | ebu/Scripts/all_table_validations/validate_link.py:28-38 | the first failing Link_No test, each as an iff on the stripped texts: missing, then not digits, then length not 12, then no province prefix; nothing exactly when it is well formed |
| LinkTable.LengthError | ebu/Scripts/all_table_validations/validate_link.py:49-62 | "negative not allowed" iff it parses below zero; "invalid number" or "missing" iff `float()` fails, by truthiness; nothing iff it parses to nan or a value of at least 0 |
| LinkTable.LabelledFill | ebu/Scripts/all_table_validations/validate_link.py:14-64 | the seven checks run in order leave a dict with unique keys, exactly the failing columns, each with its own message |
| LinkTable.CheckProvinceCode | ebu/Scripts/all_table_validations/validate_link.py:17-21 | the Province_Code chain adds its message to the dict when it gives one, and leaves the dict alone otherwise |
| LinkTable.CheckPresent | ebu/Scripts/all_table_validations/validate_link.py:24-25 | `if not row[c]` adds "missing" under `c` exactly when the check fails |
| LinkTable.CheckLinkNo | ebu/Scripts/all_table_validations/validate_link.py:27-38 | the Link_No chain adds its one message to the dict |
| LinkTable.CheckLength | ebu/Scripts/all_table_validations/validate_link.py:49-62 | the `try: float()` block adds its one message to the dict |
| LinkTable.ValidateRow | ebu/Scripts/all_table_validations/validate_link.py:14-64 | `validate_row` returns a dict with unique keys and exactly the failing columns, in check order; each column's message is the one its rule gives |
| LinkTable.LabelledKeysRequired | ebu/Scripts/all_table_validations/validate_link.py:4-12 | every key of the dict is a required column |
| LinkTable.LabelledNone | ebu/Scripts/all_table_validations/validate_link.py:64 | the dict is empty exactly when all seven checks pass |
| LinkTable.RowValidIff | ebu/Scripts/all_table_validations/validate_link.py:14-64 | a row is valid exactly when every column rule passes |
| LinkTable.BlankProvinceAnyPrefix | ebu/Scripts/all_table_validations/validate_link.py:32-37 | with a blank Province_Code, every twelve-digit Link_No passes the prefix test |
| LinkTable.NoneProvinceNeverPrefix | ebu/Scripts/all_table_validations/validate_link.py:32-37 | a None Province_Code reads as "None", so every truthy Link_No fails |
| LinkTable.LengthExamples | ebu/Scripts/all_table_validations/validate_link.py:49-62 | 0 and nan pass, -1 is "negative not allowed", and "" and None are "missing" |
| LinkTable.BlankRowAllMissing | ebu/Scripts/all_table_validations/validate_link.py:14-64 | a row of seven blank cells fails in every column with "missing", in column order |
| LinkTable.BlankCellsMissing | ebu/Scripts/all_table_validations/validate_link.py:18-62 | each rule reports a blank cell as "missing" |
| BridgeInventory.YearError | ebu/Scripts/all_table_validations/validate_bridge_inventory.py:16-21 | out-of-range message iff it parses outside [1900, 2100], both bounds inclusive; "invalid number" or "missing" iff `float()` fails |
| BridgeInventory.LinkNoMessage | ebu/Scripts/all_table_validations/validate_bridge_inventory.py:33-55 | the existence message whenever the Link table lacks a non-blank Link_No, overriding the format message; the Link rule otherwise |
| BridgeInventory.LabelledFill | ebu/Scripts/all_table_validations/validate_bridge_inventory.py:12-57 | the five checks leave a dict with unique keys, exactly the failing columns, each with its own message |
| BridgeInventory.Overwrite | ebu/Scripts/all_table_validations/validate_bridge_inventory.py:55 | writing Link_No keeps the keys unique, adds the key at the end only when it was absent, sets its message only when there is one, and changes no other entry |
| BridgeInventory.CheckYear | ebu/Scripts/all_table_validations/validate_bridge_inventory.py:16-21 | the Year block adds its one message to the dict |
| BridgeInventory.CheckExists | ebu/Scripts/all_table_validations/validate_bridge_inventory.py:51-55 | the cross-table block writes the existence message exactly when the Link_No is missing from the Link table |
| BridgeInventory.ValidateRow | ebu/Scripts/all_table_validations/validate_bridge_inventory.py:12-57 | unique keys, exactly the failing columns, each with its rule's message, and the existence message winning for Link_No |
| BridgeInventory.YearBounds | ebu/Scripts/all_table_validations/validate_bridge_inventory.py:18-19 | an integer Year passes exactly when 1900 <= y <= 2100, and otherwise gets the range message |
| BridgeInventory.NoLinkTableNoOverwrite | ebu/Scripts/all_table_validations/validate_bridge_inventory.py:51 | without a Link table, or one without Link_No, the Link rule alone decides Link_No |
| BridgeInventory.EmptyLinkTableRejects | ebu/Scripts/all_table_validations/validate_bridge_inventory.py:51-55 | against an empty Link table, every non-blank Link_No gets the existence message |
| Tables.MissingColumns | ebu/Scripts/all_table_validations/validate_road_condition.py:123 | exactly the required columns that are absent |
| Tables.MissingColumnsReport | ebu/Scripts/all_table_validations/validate_road_condition.py:124-135 | one "N/A" row on the input's columns, every cell None, with "Required columns missing: " and the missing columns joined by ", " |
| Tables.EmptyDbReport | ebu/Scripts/all_table_validations/validate_retaining_wall_condition.py:109-118 | one "EMPTY_DB" row with no data columns and the "<table> table is completely empty - no data found" warning |
| Tables.CollectRequired | ebu/Scripts/all_table_validations/validate_road_condition.py:142-144 | the required-column loop yields the required messages |
| Tables.RequiredMessagesMeaning | ebu/Scripts/all_table_validations/validate_road_condition.py:142-144 | a message is there exactly as "<c> is required", for a required column that is present and empty in the row |
| Tables.CollectTypeErrors | ebu/Scripts/all_table_validations/validate_road_condition.py:147-151 | the field-definition loop yields the type messages |
| Tables.TypeMessagesMeaning | ebu/Scripts/all_table_validations/validate_road_condition.py:147-151 | a message is there exactly as "<field>: <msg>", for a present field whose check fails with that text |
| Tables.ScanRows | ebu/Scripts/all_table_validations/validate_road_condition.py:138-164 | the row loop appends exactly the row findings |
| Tables.RowFindingsSound | ebu/Scripts/all_table_validations/validate_road_condition.py:160-164 | every row finding carries Record_No idx+1, that row's cells and its messages joined by "; ", and that row has messages |
| Tables.RowFindingsOrdered | ebu/Scripts/all_table_validations/validate_road_condition.py:138-164 | row findings come in strictly increasing Record_No order |
| Tables.RowFindingsComplete | ebu/Scripts/all_table_validations/validate_road_condition.py:160-164 | every row with messages has its finding |
| Tables.LinkExistence | ebu/Scripts/all_table_validations/validate_road_condition.py:154-158 | one message exactly when a Link table with Link_No is given and the row's non-empty Link_No is not among its values |
| Tables.FirstKeysCover | ebu/Scripts/all_table_validations/validate_traffic_volume.py:161-162 | every non-NA Link_No equals one of the keys that `value_counts` lists |
| Tables.FirstKeysDistinct | ebu/Scripts/all_table_validations/validate_alignment.py:111 | no two distinct keys compare equal |
| Tables.FirstKeysDrawn | ebu/Scripts/all_table_validations/validate_alignment.py:111 | every key is the Link_No of some row |
| Sorting.SortBy | ebu/Scripts/all_table_validations/validate_road_condition.py:177 | sorting is a permutation |
| Sorting.SortByIsSorted | ebu/Scripts/all_table_validations/validate_road_condition.py:177 | under a total preorder, the stable insertion sort's result is sorted |
| Sorting.SortByStrict | ebu/Scripts/all_table_validations/validate_alignment.py:111 | when no two elements sort alike, each element of the sorted result sorts strictly before every later one |
| RoadCondition.NormalizeStr | ebu/Scripts/all_table_validations/validate_road_condition.py:46-49 | None gives ""; any other result has no white space at either end |
| RoadCondition.CheckType | ebu/Scripts/all_table_validations/validate_road_condition.py:64-104 | empty values and Short Text pass; a Number passes iff it parses and lies in its inclusive range, else "must be numeric" when it does not parse; a Yes/No passes iff it is an accepted literal or on/off, else the Yes/No message |
| RoadCondition.YearFromZero | ebu/Scripts/all_table_validations/validate_road_condition.py:19 | an integer Year passes iff y >= 0, and otherwise gets "Value must be between 0 and inf" |
| RoadCondition.UpperYesRejected | ebu/Scripts/all_table_validations/validate_road_condition.py:93-102 | "YES" is rejected |
| RoadCondition.PaddedWordRejected | ebu/Scripts/all_table_validations/validate_road_condition.py:93-102 | a padded word is rejected unless it is on/off: literal matches are exact |
| RoadCondition.PaddedYesRejected | ebu/Scripts/all_table_validations/validate_road_condition.py:93-102 | " yes " is rejected |
| RoadCondition.OnOffAccepted | ebu/Scripts/all_table_validations/validate_road_condition.py:98-101 | "on"/"off" in any case are accepted |
| RoadCondition.PaddedOnOffAccepted | ebu/Scripts/all_table_validations/validate_road_condition.py:98-101 | on/off are accepted after stripping |
| RoadCondition.NumericYesNo | ebu/Scripts/all_table_validations/validate_road_condition.py:94-96 | 1.0 and 0 are accepted, 2 is rejected |
| RoadCondition.ValidateRoadCondition | ebu/Scripts/all_table_validations/validate_road_condition.py:107-221 | a missing required column gives exactly the "N/A" report: every cell None and "Required columns missing: <list>"; otherwise only ordinal findings, on the input's columns |
| RoadCondition.Validate | ebu/Scripts/all_table_validations/validate_road_condition.py:107-221 | the validator's loops compute that report |
| RoadCondition.ValidateRoadConditionMeaning | ebu/Scripts/all_table_validations/validate_road_condition.py:138-221 | the row findings come first, then the continuity findings; every finding names an input row |
| Chainage.SameKeyEquivalence | ebu/Scripts/all_table_validations/validate_road_condition.py:170 | group-key equality, with NA equal to NA, is an equivalence |
| Chainage.SameGroupEquivalence | ebu/Scripts/all_table_validations/validate_road_condition.py:170 | group membership over (Province_Code, Kabupaten_Code, Year) is an equivalence |
| Chainage.Leaders | ebu/Scripts/all_table_validations/validate_road_condition.py:170-171 | groups are visited in increasing order of their first row |
| Chainage.LeadersComplete | ebu/Scripts/all_table_validations/validate_road_condition.py:170-171 | every row that opens a group is visited |
| Chainage.LeaderOf | ebu/Scripts/all_table_validations/validate_road_condition.py:170-171 | every row's group is opened at or before it |
| Chainage.EveryRowGrouped | ebu/Scripts/all_table_validations/validate_road_condition.py:170-171 | every row belongs to some visited group |
| Chainage.GroupsDisjoint | ebu/Scripts/all_table_validations/validate_road_condition.py:170-171 | no row belongs to two groups |
| Chainage.Filter | ebu/Scripts/all_table_validations/validate_road_condition.py:170-171 | a group's members are exactly the rows with its key, in row order |
| Chainage.Numeric | ebu/Scripts/all_table_validations/validate_road_condition.py:174-175 | `to_numeric(errors="coerce")` gives a number exactly when `float()` gives a finite one |
| Chainage.Local | ebu/Scripts/all_table_validations/validate_road_condition.py:173-175 | each member of the group yields one entry, in order |
| Chainage.EntryLeTotalPreorder | ebu/Scripts/all_table_validations/validate_road_condition.py:177 | ordering by (Link_No, __from) is total and transitive |
| Chainage.SortedGroupOrdered | ebu/Scripts/all_table_validations/validate_road_condition.py:177 | the sorted group is a permutation of the group and is ordered by (Link_No, __from) |
| Chainage.StartRowIsLeast | ebu/Scripts/all_table_validations/validate_road_condition.py:183 | the row checked for a zero start is a member of the group that sorts first |
| Chainage.StartFindings | ebu/Scripts/all_table_validations/validate_road_condition.py:182-188 | one finding exactly when the first sorted row's ChainageFrom is non-numeric or not 0 |
| Chainage.ScanGroup | ebu/Scripts/all_table_validations/validate_road_condition.py:191-214 | the continuity loop, carrying prev_to and prev_link_no, yields exactly the break findings |
| Chainage.ScanStep | ebu/Scripts/all_table_validations/validate_road_condition.py:193-214 | non-numeric rows are skipped without updating the carried values; a Link_No change or the first numeric row is never flagged; otherwise a row is flagged iff its from differs from the previous to |
| Chainage.CheckContinuity | ebu/Scripts/all_table_validations/validate_road_condition.py:168-216 | the group loop yields the continuity findings |
| Chainage.CheckGroups | ebu/Scripts/all_table_validations/validate_road_condition.py:171-216 | the findings of the visited groups, in visiting order |
| Chainage.NumericOnly | ebu/Scripts/all_table_validations/validate_road_condition.py:198-199 | only entries of the group with numeric from and to are kept, and no more than there were |
| Chainage.PairBreaks | ebu/Scripts/all_table_validations/validate_road_condition.py:201-211 | reference definition: at most one break per consecutive numeric pair |
| Chainage.PrevNumericIsLast | ebu/Scripts/all_table_validations/validate_road_condition.py:213-214 | the carried previous row is the last numeric row so far |
| Chainage.BreaksFollowNumericPairs | ebu/Scripts/all_table_validations/validate_road_condition.py:191-214 | the loop's findings equal the reference breaks over consecutive numeric rows |
| Chainage.NoPairBreaks | ebu/Scripts/all_table_validations/validate_road_condition.py:203-211 | consecutive numeric rows that chain, or change Link_No, give no break |
| Chainage.ChainedGroupPasses | ebu/Scripts/all_table_validations/validate_road_condition.py:191-214 | a group whose numeric rows chain has no continuity finding |
| Chainage.ContinuityFindingsNameRows | ebu/Scripts/all_table_validations/validate_road_condition.py:185-211 | every continuity finding carries Record_No idx+1 and the cells of an input row |
| Alignment.CheckType | ebu/Scripts/all_table_validations/validate_alignment.py:171-207 | only NA and "" count as blank and pass; Short Text passes iff the stripped text fits `max_length` and `valid_values`; a Number passes iff it parses and lies in its inclusive range, else "must be numeric" when it does not parse; Yes/No always passes |
| Alignment.BlanksAreNotNumbers | ebu/Scripts/all_table_validations/validate_alignment.py:175-198 | a white-space string in a Number field gives "Value must be numeric, got str" |
| Alignment.PaddedTextStripped | ebu/Scripts/all_table_validations/validate_alignment.py:184-192 | the length and value checks look at the stripped text |
| Alignment.LinkMessages | ebu/Scripts/all_table_validations/validate_alignment.py:228-231 | "Link_No not found in Link table" exactly when the stripped Link_No is non-empty and equals no Link.Link_No text |
| Alignment.GpsPart | ebu/Scripts/all_table_validations/validate_alignment.py:236-238 | an NA component reads as 0; any other component is `float()` of the cell |
| Alignment.GpsCheck | ebu/Scripts/all_table_validations/validate_alignment.py:235-243 | "Invalid GPS" iff some component fails to parse; "cannot all be zero" iff all three are zero |
| Alignment.GpsMessages | ebu/Scripts/all_table_validations/validate_alignment.py:234-254 | at most one GPS message per side, and none when one of its three columns is absent |
| Alignment.GpsMessagesMeaning | ebu/Scripts/all_table_validations/validate_alignment.py:234-254 | with the three columns present, a side is invalid iff a component fails to parse, and zero iff all three read as zero |
| Alignment.GpsInvalidIff | ebu/Scripts/all_table_validations/validate_alignment.py:235-243 | the invalid message exactly when some component fails to parse |
| Alignment.GpsZeroIff | ebu/Scripts/all_table_validations/validate_alignment.py:240-241 | the zero message exactly when the columns are present and all three read as zero |
| Alignment.MissingGpsIsZero | ebu/Scripts/all_table_validations/validate_alignment.py:236-241 | three NA North components give "cannot all be zero" |
| Alignment.BlankGpsIsInvalid | ebu/Scripts/all_table_validations/validate_alignment.py:247-254 | an East component of "" gives "Invalid GPS East coordinates" |
| Alignment.GroupKeys | ebu/Scripts/all_table_validations/validate_alignment.py:111 | `groupby("Link_No")` drops NA keys; coverage, distinctness and order are stated by GroupKeysMeaning |
| Alignment.GroupKeysMeaning | ebu/Scripts/all_table_validations/validate_alignment.py:111 | every key is a Link_No of the table, every present Link_No equals a key, and the keys come in strictly increasing sort order, so no two are equal |
| Alignment.GroupMax | ebu/Scripts/all_table_validations/validate_alignment.py:111 | the group max raises iff a string meets a number or a missing value (the object max fills missing values with -inf); it is nan iff all values are NA; otherwise it is a non-NA member bounding every value |
| Alignment.StringBesideNaRaises | ebu/Scripts/all_table_validations/validate_alignment.py:111 | a group of "a" and nan raises, while "a" alone is its own max |
| Alignment.PresentMax | ebu/Scripts/all_table_validations/validate_alignment.py:111 | the max of the present values raises iff numbers and strings mix; it is nan iff all values are NA; otherwise it is a non-NA member bounding every value |
| Alignment.GroupMaxes | ebu/Scripts/all_table_validations/validate_alignment.py:111 | every group's max, or a raise iff some group raises |
| Alignment.FirstMaxRow | ebu/Scripts/all_table_validations/validate_alignment.py:145-151 | the first row whose Link_No text matches and whose Chainage_RB equals the max; no earlier row qualifies |
| Alignment.FindingOnMaxRow | ebu/Scripts/all_table_validations/validate_alignment.py:145-163 | the finding is on that first row, with Record_No index+1 |
| Alignment.LinkMatch | ebu/Scripts/all_table_validations/validate_alignment.py:117-125 | a Link row is found exactly when one has the same Link_No text, and the row found is the first such row, as `iloc[0]` |
| Alignment.FirstLinkRow | ebu/Scripts/all_table_validations/validate_alignment.py:117-125 | a row is taken exactly when some Link row has that Link_No text, and the row taken is the first with it |
| Alignment.OfficialKm | ebu/Scripts/all_table_validations/validate_alignment.py:128-137 | an official length is compared exactly when it is a number above 1.5 km |
| Alignment.Compare | ebu/Scripts/all_table_validations/validate_alignment.py:113-139 | a comparison exists exactly when the key is non-empty, the link is found, the column exists, and the official length is a number above 1.5 and the max parses |
| Alignment.OfficialFindingMeaning | ebu/Scripts/all_table_validations/validate_alignment.py:113-164 | a finding exactly when the comparison exists, lies outside the tolerance, and a max row exists; it is on that row |
| Alignment.OfficialPerKey | ebu/Scripts/all_table_validations/validate_alignment.py:113 | one possible finding per group, in key order |
| Alignment.OfficialLengthFindings | ebu/Scripts/all_table_validations/validate_alignment.py:102-169 | no findings without both Link_No and Chainage_RB; completeness is stated by OfficialLengthComplete |
| Alignment.GroupReported | ebu/Scripts/all_table_validations/validate_alignment.py:113-169 | each group has a maximum, and its finding, when there is one, is among the official-length findings |
| Alignment.OfficialLengthComplete | ebu/Scripts/all_table_validations/validate_alignment.py:110-169 | every present Link_No falls in a group whose key equals it and whose maximum exists, and that group's finding, when there is one, is among the findings |
| Alignment.CheckOfficialLength | ebu/Scripts/all_table_validations/validate_alignment.py:102-169 | the loop over groups yields those findings |
| Alignment.ToleranceInclusive | ebu/Scripts/all_table_validations/validate_alignment.py:143-144 | a difference of exactly 1500 m passes, and 1501 m fails |
| Alignment.ShortLinksSkipped | ebu/Scripts/all_table_validations/validate_alignment.py:136-137 | links of at most 1.5 km are never flagged |
| Alignment.TextOfficialSkipped | ebu/Scripts/all_table_validations/validate_alignment.py:131-137 | a text official length is never flagged: the swallowed exception becomes a skip |
| Alignment.OfficialFindingsMeaning | ebu/Scripts/all_table_validations/validate_alignment.py:113-164 | the length findings are exactly the findings of the groups |
| Alignment.FlaggedRowHoldsMax | ebu/Scripts/all_table_validations/validate_alignment.py:145-151 | every length finding is on a row of its Link_No whose Chainage_RB is that group's maximum |
| Alignment.ValidateAlignment | ebu/Scripts/all_table_validations/validate_alignment.py:209-298 | the row findings, then the length findings, on the input's columns; a raise exactly when the group max raises |
| Alignment.Validate | ebu/Scripts/all_table_validations/validate_alignment.py:209-298 | the validator's loops compute that result |
| Alignment.NormalizeNumber | ebu/Scripts/all_table_validations/validate_alignment.py:30-44 | "" for blank cells; a non-empty text exactly when the value parses to a finite float |
| Alignment.FirstTwoDigits | ebu/Scripts/all_table_validations/validate_alignment.py:46-53 | a prefix of at most two characters of the normalised text, exactly two when there are that many |
| Alignment.TrailingZerosKept | ebu/Scripts/all_table_validations/validate_alignment.py:30-53 | 1200.75 normalises to "1200", so trailing zeros stay, and its first two digits are "12" |
| Alignment.DigitsFindingMeaning | ebu/Scripts/all_table_validations/validate_alignment.py:55-100 | the disabled prefix check flags exactly when the link is found, both first-two-digit prefixes are non-empty and differ, and a max row exists; the finding is on that row |
| Alignment.LengthConsistencyFindings | ebu/Scripts/all_table_validations/validate_alignment.py:55-100 | at most one finding per group, and none without both columns |
| TrafficVolume.CheckType | ebu/Scripts/all_table_validations/validate_traffic_volume.py:59-112 | empty values and Short Text pass; Year passes iff it parses and lies in [1900, current year], else "Enter a valid year"; other Numbers pass iff they parse and lie in their inclusive range, else "must be numeric, got <type>" or the range message; Yes/No passes iff accepted, else the message echoing the value |
| TrafficVolume.YearBounds | ebu/Scripts/all_table_validations/validate_traffic_volume.py:79-91 | an integer Year passes exactly when 1900 <= y <= the current year |
| TrafficVolume.QuantityBounds | ebu/Scripts/all_table_validations/validate_traffic_volume.py:93-97 | JourneyTime and the eleven AADT counts pass an integer exactly when it is at least 0, and otherwise give "Value must be between 0 and inf" |
| TrafficVolume.YesNoWords | ebu/Scripts/all_table_validations/validate_traffic_volume.py:100-110 | a word, padded or not, passes exactly when its lower case is yes/no/true/false/1/0 |
| TrafficVolume.Count | ebu/Scripts/all_table_validations/validate_traffic_volume.py:161 | `value_counts` counts at most the rows |
| TrafficVolume.Repeated | ebu/Scripts/all_table_validations/validate_traffic_volume.py:161-162 | exactly the keys counted more than once |
| TrafficVolume.CollectKey | ebu/Scripts/all_table_validations/validate_traffic_volume.py:165-170 | the loop over a duplicated key's rows yields its findings |
| TrafficVolume.FindDuplicates | ebu/Scripts/all_table_validations/validate_traffic_volume.py:159-170 | the duplicate loops yield the duplicate findings |
| TrafficVolume.KeyFindingsMeaning | ebu/Scripts/all_table_validations/validate_traffic_volume.py:165-170 | a key's findings are exactly its rows, each with Record_No idx+1 and the duplicate message |
| TrafficVolume.DuplicateFindingsForMeaning | ebu/Scripts/all_table_validations/validate_traffic_volume.py:163-170 | the findings are exactly the rows of the listed keys |
| TrafficVolume.DuplicatesExactly | ebu/Scripts/all_table_validations/validate_traffic_volume.py:159-170 | a row gets a duplicate finding exactly when its non-NA Link_No occurs more than once |
| TrafficVolume.FilledBlanksAreDuplicates | ebu/Scripts/all_table_validations/validate_traffic_volume.py:161-165 | two blank Link_No cells, as `fillna("")` leaves them, are both duplicates |
| TrafficVolume.ValidateTrafficVolume | ebu/Scripts/all_table_validations/validate_traffic_volume.py:115-204 | an empty frame gives exactly the EMPTY_DB report with its "TrafficVolume table is completely empty" warning; otherwise a missing required column gives exactly the "N/A" report: every cell None and "Required columns missing: <list>" |
| TrafficVolume.ValidateTrafficVolumeMeaning | ebu/Scripts/all_table_validations/validate_traffic_volume.py:159-204 | past the sentinels: the duplicate findings come first, one for every row whose Link_No repeats, then one row finding for every row with messages, on the input's columns |
| TrafficVolume.Validate | ebu/Scripts/all_table_validations/validate_traffic_volume.py:115-204 | the validator's loops compute that report |
| RetainingWallCondition.CheckType | ebu/Scripts/all_table_validations/validate_retaining_wall_condition.py:49-90 | empty values and Short Text pass; a Number passes iff it parses and lies in its inclusive range, else the range message or "must be numeric"; Yes/No uses the TrafficVolume acceptance and message |
| RetainingWallCondition.YearBounds | ebu/Scripts/all_table_validations/validate_retaining_wall_condition.py:18 | an integer Year passes iff 1900 <= y <= 2100, and otherwise gets "Value must be between 1900 and 2100" |
| RetainingWallCondition.FractionalYear | ebu/Scripts/all_table_validations/validate_retaining_wall_condition.py:65-75 | 2100.5 fails and 1950.5 passes: there is no integrality check |
| RetainingWallCondition.WallQuantityBounds | ebu/Scripts/all_table_validations/validate_retaining_wall_condition.py:23-25 | the three wall quantities pass exactly when they are at least 0 |
| RetainingWallCondition.ValidateRetainingWallCondition | ebu/Scripts/all_table_validations/validate_retaining_wall_condition.py:93-167 | an empty frame gives exactly the EMPTY_DB report with its warning, checked before the columns; then a missing column gives exactly the "N/A" report: every cell None and "Required columns missing: <list>"; otherwise every finding reports a row with messages, on the input's columns |
| RetainingWallCondition.ValidateRetainingWallConditionComplete | ebu/Scripts/all_table_validations/validate_retaining_wall_condition.py:136-167 | past the sentinels, every row with messages is reported with Record_No idx+1 and its messages joined by "; ", and findings come in row order |
| RetainingWallCondition.Validate | ebu/Scripts/all_table_validations/validate_retaining_wall_condition.py:93-167 | the validator's loops compute that report |
| UnitCostsRigid.CheckType | ebu/Scripts/all_table_validations/validate_code_an_unitCostsRIGID.py:42-71 | empty values and every non-Number pass; a Number passes iff it parses and lies in its inclusive range |
| UnitCostsRigid.CostBounds | ebu/Scripts/all_table_validations/validate_code_an_unitCostsRIGID.py:19-20 | PerUnitCost and RehUnitCost pass exactly when they parse to nan or a value of at least 0 |
| UnitCostsRigid.TypeMessagesAreCosts | ebu/Scripts/all_table_validations/validate_code_an_unitCostsRIGID.py:126-130 | only the two cost fields can give type messages |
| UnitCostsRigid.NonNumberFieldsPass | ebu/Scripts/all_table_validations/validate_code_an_unitCostsRIGID.py:52-56 | fields that are not Number fields never give a type message |
| UnitCostsRigid.EmptyRequiredOnlyRequired | ebu/Scripts/all_table_validations/validate_code_an_unitCostsRIGID.py:121-130 | an empty required cell gives "<c> is required" and no type message for that column |
| UnitCostsRigid.ValidateUnitCostsRigid | ebu/Scripts/all_table_validations/validate_code_an_unitCostsRIGID.py:74-141 | a missing column gives exactly the "N/A" report: every cell None and "Required columns missing: <list>"; otherwise every finding reports a row with messages, on the input's columns, with completeness and order in ValidateUnitCostsRigidComplete |
| UnitCostsRigid.ValidateUnitCostsRigidComplete | ebu/Scripts/all_table_validations/validate_code_an_unitCostsRIGID.py:132-139 | every row with messages has its idx+1 finding, and findings come in row order |
| UnitCostsRigid.Validate | ebu/Scripts/all_table_validations/validate_code_an_unitCostsRIGID.py:74-141 | the validator's loop computes that report |
| UnitCostsRigid.NoRowsNoFindings | ebu/Scripts/all_table_validations/validate_code_an_unitCostsRIGID.py:90-99 | zero rows give no findings, since there is no EMPTY_DB check |
| UnitCostsRigid.RowReportedIff | ebu/Scripts/all_table_validations/validate_code_an_unitCostsRIGID.py:117-136 | a row is reported exactly when a required cell is empty or a cost fails its check: there is no Link check |
| UnitCostsRigid.RequiredReportedIff | ebu/Scripts/all_table_validations/validate_code_an_unitCostsRIGID.py:121-123 | required messages exactly when a present required cell is empty |
| UnitCostsRigid.CostsReportedIff | ebu/Scripts/all_table_validations/validate_code_an_unitCostsRIGID.py:126-130 | type messages exactly when a present cost fails its check |
| Runner.BlankNa | ebu/Scripts/main.py:132 | `fillna("")` leaves no None or nan, and keeps every other value |
| Runner.FillNa | ebu/Scripts/main.py:132 | the filled table keeps its columns, its number of rows and each row's column names |
| Runner.RowsHaveRequired | ebu/Scripts/main.py:135-143 | past the missing-columns test, every row has all the required columns |
| Runner.DisplayShows | ebu/Scripts/main.py:150-158 | a report row has exactly the required columns, each showing its value or "missing" |
| Runner.DisplayRow | ebu/Scripts/main.py:150-158 | the column loop builds that row |
| Runner.MessageParts | ebu/Scripts/main.py:161-164 | at most one text per dict entry |
| Runner.MessagePartsAll | ebu/Scripts/main.py:161-164 | with all keys required, one "col: msg" text per entry, in order |
| Runner.CollectMessages | ebu/Scripts/main.py:161-164 | the `errors.items()` loop yields those texts |
| Runner.DictMessage | ebu/Scripts/main.py:160-166 | one text per key, in key order, each with that key's message |
| Runner.LinkMessage | ebu/Scripts/main.py:143-166 | a Link row's message parts name exactly its failing columns, in check order, each with its rule's message |
| Runner.LinkRowFinding | ebu/Scripts/main.py:143-167 | a report row exactly when `validate_row` found something, with Record_No idx+1 and the "; "-joined parts |
| Runner.LinkRows | ebu/Scripts/main.py:141-167 | one possible report row per Link row |
| Runner.LinkReportOf | ebu/Scripts/main.py:132-175 | raises exactly when a required column is absent; otherwise between 1 and rows+1 report rows |
| Runner.LinkReport | ebu/Scripts/main.py:132-175 | the Link block computes that outcome on the filled table |
| Runner.CollectLinkFindings | ebu/Scripts/main.py:140-167 | the `iterrows` loop keeps exactly the existing report rows |
| Runner.ReportLinkRow | ebu/Scripts/main.py:143-167 | one pass of the loop gives that row's report row |
| Runner.LinkFindingsSound | ebu/Scripts/main.py:140-167 | every report row stands for an invalid row: Record_No idx+1 and that row's message |
| Runner.LinkFindingsComplete | ebu/Scripts/main.py:140-167 | every invalid row has its report row |
| Runner.BlankShownMissing | ebu/Scripts/main.py:132-154 | a cell that was None or nan shows as "missing" |
| Runner.FilledShownAsIs | ebu/Scripts/main.py:152-156 | a required cell that is not blank, "nan" or "None" shows its own value |
| Runner.WithSentinel | ebu/Scripts/main.py:196-202 | an empty result becomes exactly one NO_ERRORS row; a non-empty one is unchanged |
| Runner.BridgeReport | ebu/Scripts/main.py:314-319 | BridgeInventory is always one NO_ERRORS row |
| Runner.StageReport | ebu/Scripts/main.py:188-202 | a missing column raises with its text; otherwise at least one row, namely the validator's own rows when it found any |
| Runner.BlockReport | ebu/Scripts/main.py:122-616 | each completed block has at least one report row |
| Runner.FirstRaised | ebu/Scripts/main.py:698-709 | no error exactly when every block completed; otherwise the error is that of some block |
| Runner.Summary | ebu/Scripts/main.py:674-696 | sixteen entries, each a table name with its report's length |
| Runner.Run | ebu/Scripts/main.py:122-709 | a completed run's summary names the sixteen tables, each with at least one row; the run aborts exactly when some block raises |
| Runner.TotalAtLeastCount | ebu/Scripts/main.py:674-696 | a summary whose entries are all at least 1 adds up to at least its length |
| Runner.CompletedTotalAtLeast16 | ebu/Scripts/main.py:674-696 | every completed run totals at least 16 |
| Runner.LinkColumnsMissingAborts | ebu/Scripts/main.py:135-137 | a Link table without a required column aborts the run with "Validation error: " and the missing-columns text |
| DbVerdict.ForceDownloadIgnoresCase | ebu/views.py:480 | "true" in any case forces the download, and an absent field does not |
| DbVerdict.Respond | ebu/views.py:497-539 | failure exactly for an aborted run; clean iff total <= 16 and not forced; a download iff not clean and the workbook exists, named "errors" iff total > 16; passed iff total == 16 |
| DbVerdict.TotalIsCountIff | ebu/views.py:500-501 | with every entry at least 1, the sum equals the count exactly when every entry is 1 |
| DbVerdict.PassedIffOneRowEach | ebu/views.py:500-501 | a completed run passes exactly when every table's report has one row |
| DbVerdict.NotForcedCleanIffOneRowEach | ebu/views.py:500-539 | unforced, the clean answer comes exactly when every report has one row, and then it says passed |
| DbVerdict.CleanIffOneRowEach | ebu/views.py:500-539 | the same for any sixteen-entry summary whose entries are all at least 1 |
| DbVerdict.ForcedDownloads | ebu/views.py:506-518 | a forced run with a workbook always downloads, named by whether the total exceeds 16 |
| DbVerdict.ErrorRows | ebu/views.py:585-590 | the counted rows are at most the rows |
| DbVerdict.ErrorRowsZeroIff | ebu/views.py:585-590 | no counted rows exactly when no row is counted |
| DbVerdict.OrdinalCounted | ebu/views.py:585-588 | a numbered row is counted |
| DbVerdict.NoErrorsNotCounted | ebu/views.py:586 | a NO_ERRORS row is not counted |
| DbVerdict.NotApplicableCounted | ebu/views.py:585-588 | an "N/A" row is counted |
| DbVerdict.EmptyDbCounted | ebu/views.py:585-588 | an EMPTY_DB row is counted: the filter does not know that tag |
| DbVerdict.SheetCounts | ebu/views.py:581-591 | at most one entry per sheet |
| DbVerdict.SheetCountsMeaning | ebu/views.py:581-592 | an entry (name, n) exactly for a non-empty sheet of that name with n counted rows |
| DbVerdict.ValidationSummary | ebu/views.py:571-594 | the loop over sheets yields those entries and their sum |
| DbVerdict.CountErrorRows | ebu/views.py:585-590 | the loop counts the counted rows |
| DbVerdict.PassedFixedMeaning | ebu/views.py:501 | the corrected rule passes exactly when no report holds a row that the summary filter counts as an error |
| DbVerdict.OneInvalidRowPasses | ebu/views.py:500-501 | a run whose Link report holds one invalid row still passes the rule as written, and fails the corrected rule |
| DbVerdict.RulesAgreeOnCleanRuns | ebu/views.py:500-501 | when every report is one NO_ERRORS row, both rules pass |
| Upload.Precheck | ebu/views.py:213-223 | passes exactly for a ".xlsx" name and a non-blank admcode; a wrong extension is refused first |
| Upload.XlsxIgnoresCase | ebu/views.py:213 | names differing only in case are judged alike |
| Upload.XlsxExamples | ebu/views.py:213 | ".XLSX" is accepted and ".xls" is not |
| Upload.Extra | ebu/views.py:239 | exactly the present columns that are not required |
| Upload.SchemaLines | ebu/views.py:241-246 | no lines exactly when nothing is missing or extra |
| Upload.SchemaError | ebu/views.py:238-251 | no error exactly when the column set equals the seven required columns; otherwise the invalid-schema text with its lines |
| Upload.SchemaIgnoresOrder | ebu/views.py:238-241 | two column lists with the same members get the same schema verdict |
| Upload.UniqueNonNa | ebu/views.py:257 | `dropna().unique()` has at most the input's length |
| Upload.UniqueNonNaMeaning | ebu/views.py:257 | its values are non-NA input values, pairwise different, and cover every non-NA value |
| Upload.UniqueNonNaEmpty | ebu/views.py:257 | it is empty exactly when every value is NA |
| Upload.AdmCodeErrors | ebu/views.py:257-263 | raises exactly when there is no code; the multiple-codes error for more than one; no error exactly for one code equal to the form's after stripping |
| Upload.BlankAdmCodesRaise | ebu/views.py:257-261 | an all-blank Adm_Code column makes `unique_admcodes[0]` raise |
| Upload.AdmCodeErrorsFixed | ebu/views.py:257-263 | the corrected block gives at most one error |
| Upload.AdmCodeFixedAgrees | ebu/views.py:257-263 | the corrected block agrees wherever the original answers, and gives the mismatch message for a column with no code when the form's code is non-blank |
| Upload.MissingValuesMeaning | ebu/views.py:272-274 | a column is listed as missing exactly when it is required and its cell is null |
| Upload.StatusOkText | ebu/views.py:283-284 | Status passes exactly when its stripped, upper-cased text is B, P or K |
| Upload.StatusIgnoresCase | ebu/views.py:283-284 | a padded status letter in either case passes, and a text that strips to more or fewer than one character fails |
| Upload.NumericErrors | ebu/views.py:287-291 | at most one message per length column |
| Upload.NumericErrorsMeaning | ebu/views.py:287-291 | "<col> must be numeric" exactly for a length column whose `float()` fails |
| Upload.CheckErrors | ebu/views.py:271-284 | at most one message per cell check |
| Upload.RunCheck | ebu/views.py:271-284 | one cell check adds its message when it fails |
| Upload.CheckCells | ebu/views.py:271-291 | the cell checks yield the row's cell errors in source order |
| Upload.CheckLengths | ebu/views.py:287-291 | the length loop yields the numeric errors |
| Upload.SeenMeaning | ebu/views.py:266-303 | a text is in the seen set exactly when an earlier row had it |
| Upload.DuplicateLinkNoExactly | ebu/views.py:294-298 | row k is a Link_No duplicate exactly when an earlier row has the same Link_No text |
| Upload.DuplicateLinkCodeExactly | ebu/views.py:269-303 | row k is a Link_Code duplicate exactly when an earlier row has the same Link_Code text |
| Upload.RowErrorMap | ebu/views.py:305-306 | at most one entry per row |
| Upload.RowErrorMapMeaning | ebu/views.py:305-306 | entries exactly for the rows with errors, each with its errors, in increasing row order |
| Upload.RowErrorMapEmpty | ebu/views.py:305-309 | the map is empty exactly when no row has errors |
| Upload.CheckRow | ebu/views.py:267-306 | one pass gives that row's errors and adds its Link_No and Link_Code to the seen sets |
| Upload.CheckRows | ebu/views.py:266-306 | the row loop yields the row error map |
| Upload.ExcelVerdict | ebu/views.py:207-355 | the precheck refusal comes first, then the schema refusal, then " Excel file contains no data" for zero rows, each with no row notes; past those it crashes exactly when the Adm_Code block raises |
| Upload.ValidateLinkExcel | ebu/views.py:207-355 | the view's steps compute that verdict |
| Upload.AcceptedExactly | ebu/views.py:213-355 | accepted exactly when the name, admcode, schema, non-empty frame, Adm_Code and every row pass; the count is the number of rows |
| Upload.LoopAcceptedExactly | ebu/views.py:309-355 | after the row loop, accepted exactly when there are no Adm_Code errors and no row errors |
| Upload.NotesExactly | ebu/views.py:319-338 | every failing row gets a note at spreadsheet row idx+2 with its errors joined by "; ", and every note is such a row's |

## Left out

- **Database access.** The pyodbc connection, the MDBTools subprocesses and their CSV and pipe parsing (`main.py:32-115`) are left out. Each table enters the model as the value the read produced.
- **Workbook writing and responses.**
  - The workbook writing and column sizing of `main.py:618-649` are left out.
  - So are the openpyxl highlighting of `views.py:310-334`, the session storage, the file responses and the temporary-file handling of `validate_db_file`.
  - Whether the report workbook exists is a parameter of `DbVerdict.Respond`.
- **Django views.** The token handling, ORM writes, map TXT upload and template download in `views.py` are outside this model.
- **The call from `validate_db_file` to `runValidationScript`.** `views.py:495` passes two arguments to a one-parameter function (`main.py:1`). The two sides are modelled separately, and the verdict takes a run's result as its input.
- **The fourteen other tables.**
  - `runValidationScript` validates fourteen more tables. Nine of them use validators whose source is not part of this model: road inventory, culvert condition, culvert inventory, retaining-wall inventory, and the unit-cost tables PER, PERUnpaved, REH, RM and Widening.
  - Each of the fourteen enters `Runner.Run` as a `Stage`: the table, its required columns, and the validator's outcome.
  - The model checks the missing-columns test and the NO_ERRORS substitution around each one.
- **The commented-out BridgeInventory block** (`main.py:269-312`). `BridgeInventory.ValidateRow` models `validate_row` itself, and the runner uses the fixed NO_ERRORS row.
- **Disabled rules.** The commented-out WKT rule of Alignment and the empty-table check of CODE_AN_UnitCostsRIGID are not active rules. The disabled first-two-digits check is modelled (`Alignment.LengthConsistencyFindings`) but never called.
- **Floating point.**
  - Numbers are exact decimals, so binary rounding is left out.
  - `str()` of a float is written in positional form; the exponent notation Python uses below 1e-4 and from 1e16 up is left out.
  - `float()` of strings accepts a sign, digits with at most one point, and "nan". "inf", exponents and underscores are left out.
- **pandas dtype coercion.** Cells keep the type the model gives them. The type names in messages are str, int, float, bool or NoneType.
- **Character classes.** `lower()`, `upper()`, `isalpha()` and `isdigit()` are modelled on ASCII letters and digits only. `strip()` uses Python's full white-space set.
- **The current year.** `datetime.now().year` in TrafficVolume is a parameter.
- **Hashing order.**
  - `value_counts()` is modelled as listing keys in first-appearance order, since its tie order is not specified.
  - `groupby(sort=False)` visits groups by first appearance.
  - `groupby("Link_No")` sorts keys with numbers before strings.
- **Message text.** Quoting inside f-strings is modelled by `Values.PyStr` and `Values.PyRepr` for the value kinds above.
- **`pd.read_excel` failures.** The "Invalid Excel file" answer of `views.py:225-228` is left out, since the model starts from the table a successful read produced.
- **Sheet reading failures.** The exception path of `get_validation_summary` (`views.py:595-597`) is left out, because reading the sheets is I/O.
- Upload.StatusOkText: states the rule for cells of the modelled value kinds. A Status of another Python type is not modelled.
- Runner.BlockReport: states only that a completed block has at least one row. What each block holds is stated by `Runner.StageReport`, `Runner.LinkReportOf` and `Runner.BridgeReport`.
- TrafficVolume.ValidateTrafficVolume: its own contract states the two sentinel reports in full. The content and order of the other findings are stated by `TrafficVolume.ValidateTrafficVolumeMeaning`.

## Findings

| source | as written | input that shows it | evidently intended | confidence | as-written member | corrected member |
|---|---|---|---|---|---|---|
| ebu/views.py:500-501 | `validation_passed = total_errors == 16`, where the total adds up report lengths, and a report's length counts its NO_ERRORS row | sixteen reports where the Link report holds one invalid row in place of its NO_ERRORS row, and every other report is one NO_ERRORS row: the total is 16 and the run "passes" | a run passes only when no report holds a row that the summary filter counts as an error | not executed | DbVerdict.OneInvalidRowPasses | DbVerdict.PassedFixedMeaning |
| ebu/views.py:257-261 | `unique_admcodes[0]` when the Adm_Code column has no non-null value | a workbook with the right columns and rows whose Adm_Code cells are all blank: `dropna().unique()` is empty, and indexing it raises IndexError outside any `try` | the workbook is refused with the Adm_Code mismatch message, as for any other code that differs from the form's | not executed | Upload.BlankAdmCodesRaise | Upload.AdmCodeFixedAgrees |
