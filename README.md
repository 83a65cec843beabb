# Shipment bundler, modelled in Dafny

The bundler reads daily shipment records of the form `<id> <start> <finish> <day>`, one per line. The day is one of `M T W R F`. It then groups the records into bundles, which are chains of records on consecutive days where each record finishes where the next one starts. The core is the class `Bundler` in `bundler.js`:

* **The two indexes it fills.**
  * `shipmentsByID` maps an id to a record.
  * `shipmentsByDay` maps a day to that day's records in input order.
* **`parseInputShipments` and `parseWords`.** They turn the file text into records.
* **`findLongestBundle`.** A depth-first search for the chain from one record that renders longest.
* **`findAllBundles`.** It visits the days in order and each day's list in order. For every record not yet bundled, it runs the search, appends the chain to its output string, and flags the records named by the tokens of that string.

The project models each part in its own module. Together they state what happens on every input whose ids and day codes avoid the gaps listed under "## Left out", including the inputs on which the source throws.

* `Days` (days.dfy): `DAYS`, `NEXT_DAY`, `daysAreConsecutive` and the day codes of the input.
* `ShipmentStore` (store.dfy):
  * The records and `isValidChild`.
  * The two indexes as a value `Store`. Records live once, in insertion order, in an arena. Both indexes hold arena positions, so a flag set through one index is seen through the other, as with the shared objects of the source.
  * The store after inserting records. A later record with the same id overwrites the id's entry, exactly as line 170 does.
* `Text` (text.dfy): `split`, `join`, `trim` and the blank-line filter.
* `Chains` (chains.dfy):
  * How the source renders a chain: `${bundle} ${id}` folded from `""`.
  * Its length is the quantity the search compares.
* `Search` (search.dfy):
  * `findLongestBundle` as a pure mutual recursion. It reads the store and the flags and changes neither.
  * Its loop over the next day's list is a fold.
  * A reference definition: every chain the search forms, in order, with the running best taken over them.
* `Driver` (driver.dfy):
  * `findAllBundles` as a function of the store and the flags.
  * The flags are set through the tokens of `longestBundle.trim(' ').split(' ')`, as the source does.
  * A token that names no record is the `TypeError` of line 110, here `None`.
* `Parse` (parse.dfy):
  * `parseWords` and the record each line becomes.
  * The first malformed line, meaning one with fewer than four words or a fourth word that is not a day code, makes the push at line 171 throw.
* `Bundling` (bundler.dfy): the class `Bundler`.
  * **Fields, updated in place:** the arena, `shipmentsById`, `shipmentsByDay` and the `bundled` flags.
  * **Methods, each proved against the functions above:** `parseInputShipments` (with its loop), the `findAllBundles` loops (the day loop, each day's list, and the token loop), and `bundle`.
  * The file read is replaced by a `contents` parameter.

Two theorems carry the main claims. Both hold under these assumptions:

* unique ids;
* ids that survive the token round trip (`IsToken`: no space, and no whitespace at either end);
* the properties the indexes have after parsing.

**The run never throws, and its bundles partition the records.** Every emitted bundle is a valid chain. Every record is in exactly one bundle. The output split at spaces, with empty pieces dropped, lists every id exactly once. This is what the test at bundler_tests.js:64-82 checks.

**Bundles come out in schedule order.** They are ordered by the day of the first record, and within a day by that record's position in the input.

Each search result is a valid chain of unflagged records from its start, and no such chain renders longer. Among the chains of maximal rendered length, it is the first one the depth-first search forms.

Two facts about the code shape the model:

* **What "longest" means.** The search compares the lengths of rendered strings (`bundle.length > longestBundle.length`, bundler.js:66), not the number of ids.
  * JavaScript's `length` counts UTF-16 code units, so a character outside the Basic Multilingual Plane counts twice (`Text.Utf16Len`).
  * `Chains.Len` counts the same way, and `Chains.LenIsRenderedLength` proves it equals the UTF-16 length of the rendered string.
* **Which children are searched.** Only records of the next day are children (`NEXT_DAY`, bundler.js:70-71), not records of any later day.

## Model

| member | source | states |
|---|---|---|
| Days.NextDay | bundler.js:3-8 | `NEXT_DAY[d]`, with `None` for Friday's missing entry; `Days.NextDayIsSuccessor` gives its meaning |
| Days.DaysAreConsecutive | bundler.js:51-53 | `NEXT_DAY[parentDay] === childDay`; `Days.ConsecutiveIffSuccessor` and `Days.ConsecutiveTable` give its meaning |
| Days.Ordinal | bundler.js:2 | each day's index in `DAYS` is below five and `DAYS` holds that day there |
| Days.NextDayIsSuccessor | bundler.js:3-8 | `NEXT_DAY` is defined exactly for the first four days and maps each to the next day of `DAYS` |
| Days.ConsecutiveIffSuccessor | bundler.js:51-53 | two days are consecutive iff the second's ordinal is one more than the first's; so never for equal days, for days in reverse or skipping one, or from Friday |
| Days.ConsecutiveTable | bundler_tests.js:100-130 | over all 25 pairs, exactly M→T, T→W, W→R and R→F are consecutive |
| Days.ParseDay | bundler.js:24-30 | a code that is read as a day is that day's code |
| Days.ParseDayCode | bundler.js:24-30 | every bucket key reads back as its own day |
| ShipmentStore.IsValidChild | bundler.js:130-132 | consecutive days and the parent finishing where the child starts; `ShipmentStore.ChildIsNextDay` and `ShipmentStore.ValidChildCases` give its meaning |
| ShipmentStore.ChildIsNextDay | bundler.js:130-132 | a valid child is exactly one day later, the parent is not on Friday, and a parent is never a valid child of its own child |
| ShipmentStore.ValidChildCases | bundler_tests.js:148-219 | the test's pair (Monday to Tuesday, Seattle to Seattle) is valid; a child two days later, one starting elsewhere, or one on the same day is not |
| ShipmentStore.IdIndex | bundler.js:170 | after inserting records, each id points to a record with that id, and no later record has that id (the last write wins) |
| ShipmentStore.DayIndices | bundler.js:171 | a day's list holds exactly the records of that day, each in range |
| ShipmentStore.DayIndicesAscending | bundler.js:171 | a day's list is strictly increasing: the records are in insertion order, since each push goes after every earlier one |
| ShipmentStore.BucketPosition | bundler.js:171 | every record sits at some position of its own day's list |
| ShipmentStore.IndexedProperties | bundler.js:155-173 | indexes built by insertion give every day a list of in-range records of that day, list every record, key every id, and keep lists in insertion order |
| ShipmentStore.KeyedUnique | bundler.js:98 | with unique ids, looking up a listed record's id gives back that same record |
| ShipmentStore.EmptyIndexed | bundler.js:24-31 | the constructor's empty lists and empty id map are the indexes of no records |
| ShipmentStore.Insert | bundler.js:170-171 | one insertion keeps a list for every day |
| ShipmentStore.IndexedInsert | bundler.js:170-171 | one insertion appends the record and keeps both indexes exact |
| ShipmentStore.InsertAll | bundler.js:158-172 | inserting a sequence of records keeps a list for every day |
| ShipmentStore.InsertAllIndexed | bundler.js:158-172 | inserting a sequence of records appends them all to the arena and keeps both indexes exact |
| ShipmentStore.UniqueIdIndex | bundler.js:170 | with unique ids, `shipmentsByID` is the inverse of the arena |
| ShipmentStore.InOneBucket | bundler.js:171 | a record is listed under a day iff it is on that day, and no list repeats a record |
| Text.Utf16Len | bundler.js:66 | JavaScript's `length`: one code unit per character below U+10000 and two for the rest; `Text.Utf16Append` and `Text.Utf16Bounds` give its meaning |
| Text.Utf16Append | bundler.js:66 | the UTF-16 length of a concatenation is the sum of the lengths |
| Text.Utf16Bounds | bundler.js:66 | the UTF-16 length lies between the number of characters and twice that, and equals it when every character is below U+10000 |
| Text.Utf16Pair | bundler.js:66 | one character outside the Basic Multilingual Plane has UTF-16 length 2, the same as two ASCII characters |
| Text.TrimStart | bundler.js:181 | leading whitespace is dropped and only whitespace: the result is a suffix that starts with a non-space |
| Text.TrimEnd | bundler.js:181 | trailing whitespace is dropped and only whitespace: the result is a prefix that ends with a non-space |
| Text.Trim | bundler.js:181 | the result is no longer and neither starts nor ends with whitespace |
| Text.TrimIsSlice | bundler.js:181 | the result is a slice with only whitespace before and after it |
| Text.TrimKeeps | bundler.js:181 | a string without whitespace at its ends is left unchanged |
| Text.Split | bundler.js:180 | there is at least one piece, and no piece holds the separator |
| Text.JoinSplit | bundler.js:180 | joining the pieces gives back the string |
| Text.SplitJoin | bundler.js:183 | splitting a join of separator-free pieces gives back the pieces |
| Text.NonEmpty | bundler.js:182 | the filter keeps no empty piece and adds none |
| Text.NonEmptyAppend | bundler.js:182 | filtering distributes over concatenation |
| Text.NonEmptyKeeps | bundler.js:182 | a list with no empty piece passes the filter unchanged |
| Chains.Render | bundler.js:64 | `${bundle} ${id}` folded from `""`; `Chains.RenderAppend`, `Chains.RenderIsJoin` and `Chains.TokensRoundTrip` give its meaning |
| Chains.Len | bundler.js:64-66 | `bundle.length` for a path; `Chains.LenIsRenderedLength` gives its meaning |
| Chains.RenderAppend | bundler.js:64 | rendering distributes over concatenation of id lists |
| Chains.RenderLength | bundler.js:64-66 | extending a chain adds one code unit for the space plus the id's UTF-16 length, and a rendering has at least one code unit per id |
| Chains.LenIsRenderedLength | bundler.js:66 | the length the model compares is the UTF-16 length, JavaScript's `length`, of the string the source builds |
| Chains.LenSnoc | bundler.js:64-66 | adding a record adds one for the space and the UTF-16 length of that record's id |
| Chains.RenderIsJoin | bundler.js:64 | a rendered chain is a space followed by its ids joined with spaces |
| Chains.TokensRoundTrip | bundler.js:107 | `trim` then `split(' ')` of a rendered chain gives back exactly its ids when they are tokens |
| Chains.ChainDays | bundler.js:131 | along a valid chain the day goes up by exactly one at each step |
| Chains.ChainShape | bundler.js:131 | a valid chain has at most one record per remaining weekday and repeats no record |
| Chains.ChainCons | bundler.js:80-81 | an unflagged record followed by a chain from one of its valid children is a chain |
| Chains.ChainTail | bundler.js:80-81 | what follows the first record of a chain is a chain from a valid child |
| Search.Longest | bundler.js:59-86 | the search returns a path of arena records |
| Search.Explore | bundler.js:77-83 | the loop over the next day's list returns a path of arena records |
| Search.FirstLongest | bundler.js:66-68 | the running best is a path of arena records |
| Search.FirstLongestAppend | bundler.js:78-83 | a running best over two lists is the running best over the second list, started from the first list's result |
| Search.FirstLongestIsMaximum | bundler.js:66-68 | the running best is at least as long as the start and as every candidate |
| Search.FirstLongestIsFirstMaximum | bundler.js:66-68 | the result is either the start, unbeaten, or the first candidate of greatest length, strictly longer than the start |
| Search.LongestIsFirstLongest | bundler.js:59-86 | the search equals the running best over the candidates it forms, in depth-first order |
| Search.ExploreIsFirstLongest | bundler.js:78-83 | the child loop equals the running best over the candidates formed below its children |
| Search.CandidatesSound | bundler.js:78-83 | every candidate is the incoming path followed by a valid, unflagged chain from the record |
| Search.ChildCandidatesSound | bundler.js:78-80 | every candidate below the list starts with a valid child of the parent |
| Search.CandidatesComplete | bundler.js:78-83 | every valid, unflagged chain from the record is among the candidates |
| Search.ChildCandidatesComplete | bundler.js:78-83 | a chain from a valid child at or after position `i` is among the candidates from `i` on |
| Search.LongestBestOrExtension | bundler.js:60-68 | an absent or bundled record returns the best unchanged; otherwise the result is the best, or the path extended by a valid unflagged chain from the record that renders strictly longer |
| Search.LongestIsMaximal | bundler.js:59-86 | no extension of the path by a valid unflagged chain renders longer than the result, and neither does the incoming best |
| Search.LongestFromStart | bundler.js:100 | `findLongestBundle(s, "", "")` on an unflagged record returns a valid unflagged chain from it, and no such chain renders longer |
| Search.LongestFromStartIsFirst | bundler.js:66 | among the candidates, the result is one with no strictly longer candidate formed before it (ties go to the earlier chain) |
| Search.Candidates | bundler.js:59-86 | every candidate of the reference order is a path of arena records |
| Driver.AllBundles | bundler.js:91-118 | `findAllBundles` on a store with every record unflagged; `Driver.EveryRecordBundledOnce`, `Driver.EveryIdUsedOnce`, `Driver.OutputUsesEveryIdOnce` and `Driver.BundlesInScheduleOrder` give its meaning |
| Driver.OutputText | bundler.js:101 | `allBundles` after the bundles so far; `Driver.OutputIsJoin` and `Driver.OutputTokens` give its meaning |
| Driver.MarkTokens | bundler.js:107-111 | flagging keeps one flag per record |
| Driver.MarkTokensFlags | bundler.js:108-111 | flagging succeeds iff every token is an id; then exactly the records the tokens name are newly flagged and no flag is cleared |
| Driver.MarkPath | bundler.js:108-111 | with unique ids, flagging through a path's ids flags exactly the path's records |
| Driver.EmitChain | bundler.js:99-111 | from an unflagged start the chain starts there, the token flagging succeeds, and it flags exactly that chain's records |
| Driver.DriveBucket | bundler.js:96-113 | a pass over one day's list keeps one flag per record and emits paths of arena records |
| Driver.DriveDays | bundler.js:93-114 | the days loop keeps one flag per record and emits paths of arena records |
| Driver.NoneBundled | bundler.js:166 | every record starts unflagged |
| Driver.DriveBucketPartition | bundler.js:96-113 | a day's list never throws, flags every record listed from `j` on, and emits valid chains of records that were unflagged, each once, flagging exactly those |
| Driver.DriveDaysPartition | bundler.js:93-114 | the days loop from day `i` never throws, flags every record of that day or later, and emits valid chains of unflagged records, each once, flagging exactly those |
| Driver.EveryRecordBundledOnce | bundler.js:91-118 | on a parsed store with unique token ids, the run completes, every record ends flagged, every bundle is a non-empty valid chain, and together the bundles hold each record exactly once |
| Driver.EveryIdUsedOnce | bundler_tests.js:64-82 | the bundles' ids, laid end to end, are as many as the records, include every id and repeat none |
| Driver.OutputUsesEveryIdOnce | bundler_tests.js:46-82 | the output split at spaces, empty pieces dropped, is as long as the input, includes every id and repeats none |
| Driver.OutputIsJoin | bundler.js:92-101 | `allBundles` is a join with spaces of an empty piece and, for each bundle, an empty piece followed by its ids |
| Driver.OutputTokens | bundler.js:101 | splitting the output at spaces and dropping empty pieces gives exactly the bundles' ids in order |
| Driver.DriveBucketHeads | bundler.js:96-100 | the bundles of a day's list start at records of that day listed from `j` on, in list order |
| Driver.DriveDaysHeads | bundler.js:93-100 | the bundles from day `i` on start on that day or later, in schedule order |
| Driver.BundlesInScheduleOrder | bundler.js:93-100 | bundles start by day, and within a day by input position |
| Driver.DayStep | bundler.js:93-96 | the run from day `i` is that day's pass over its list, then the run from day `i + 1` with the flags the pass leaves; a throwing pass ends the run |
| Driver.BucketEnds | bundler.js:96 | past the end of a day's list the pass emits nothing and changes no flag |
| Driver.BucketSkips | bundler.js:96-99 | at a position whose id names a flagged record, the pass from there is the pass from the next position |
| Driver.BucketEmits | bundler.js:99-111 | at an unflagged entry the pass emits its search result, then throws if a token of it names no record, and otherwise goes on from the next position with the new flags |
| Driver.MarkStep | bundler.js:108-110 | flagging the rest of the tokens after one more: it throws on an unknown token or flags that token's record |
| Driver.MarkAppend | bundler.js:108-111 | flagging through `a + c` is flagging through `a` and then, unless that throws, through `c` |
| Driver.MarkSnoc | bundler.js:108-110 | a token that names a record, after a prefix that flagged, flags that record on top of the prefix's flags |
| Parse.ParseWords | bundler.js:178-184 | `parseWords`; `Parse.ParseWordsLines`, `Parse.LineRoundTrip` and `Parse.ParseWordsFileText` give its meaning |
| Parse.ParseLines | bundler.js:158-172 | the records of the lines in order, or the first line that throws; `Parse.ParseLinesSpec` gives its meaning |
| Parse.TrimEach | bundler.js:181 | every line is trimmed, and no line is lost or added |
| Parse.SplitEach | bundler.js:183 | every line is split at single spaces, and no line is lost or added |
| Parse.ParseWordsLines | bundler.js:178-184 | every line of words has a first word, and it is not empty |
| Parse.ParseLine | bundler.js:159-171 | a line is a record iff it has at least four words and the fourth is a day code; then the fields are the first four words |
| Parse.ParseLinesSpec | bundler.js:158-172 | reading succeeds iff every line is a record, and then gives the lines' records in order; otherwise the error is the first line that is not a record |
| Parse.LineRoundTrip | bundler.js:178-184 | a written record's line survives trim and the blank filter, and splits back into its four fields |
| Parse.ParseWordsFileText | bundler.js:178-184 | `parseWords` of records written one per line gives back their fields |
| Parse.ParseFileText | bundler.js:155-184 | writing records one per line and reading them gives back the same records |
| Bundling.Bundler.constructor | bundler.js:21-32 | a new bundler has an empty list for every day, no ids and no records |
| Bundling.Bundler.ParseInputShipments | bundler.js:155-173 | on success the store is the old one with the records of the input inserted, unflagged; on a malformed line the lines before it are inserted and the line is reported |
| Bundling.Bundler.InsertLines | bundler.js:158-172 | the loop inserts each line's record until the first line that is not a record |
| Bundling.Bundler.AddShipment | bundler.js:170-171 | one record is inserted into both indexes, unflagged |
| Bundling.Bundler.FlagTokens | bundler.js:107-111 | the method fails exactly when the token flagging throws; on success the flags are those of the flagging, and on failure those of flagging the tokens before the first one that names no record |
| Bundling.Bundler.EmitFrom | bundler.js:99-111 | from an unflagged entry: the emitted chain is the search result from the record its id names, `allBundles` and the bundles are extended by it, and the method succeeds exactly when every token of the trimmed, split chain names a record; on success the flags are those of flagging those tokens, on failure those of flagging the tokens before the first unknown one, and a failure here means the pass over the list throws; otherwise the pass goes on from the next position with the new flags |
| Bundling.Bundler.Visit | bundler.js:97-112 | one position of a day's list: an entry whose id names a flagged record emits nothing, succeeds and changes no flag; an unflagged one emits exactly the search result from that record and succeeds exactly when every token of the trimmed, split chain names a record; on success the flags are those of flagging those tokens, on failure those of flagging the tokens before the first unknown one; the store is unchanged |
| Bundling.Bundler.BundleDay | bundler.js:94-113 | the day's bundles and the flags afterwards are exactly those of the driver's pass over that day's list, and the method fails exactly when that pass throws; the output so far is extended by the day's bundles |
| Bundling.Bundler.RunDay | bundler.js:93-113 | one pass of the loop over `DAYS`: the bundles so far grow by exactly the day's bundles, and the day's bundles and the flags afterwards are those of the driver's pass over that day's list, which throws exactly when this fails (`DayPass`); the bundles so far followed by what the remaining days emit are still what the whole run emits; the store is unchanged |
| Bundling.Bundler.StepDay | bundler.js:93-113 | one pass of the loop over `DAYS` as the loop needs it: a failure means the whole run throws; otherwise the bundles so far followed by what the remaining days emit are still what the whole run emits, and the output so far is that of the bundles so far; the store is unchanged |
| Bundling.Bundler.FindAllBundles | bundler.js:91-118 | the store is unchanged; the output text, the bundles and the flags are those of the driver from the current flags, and a throw gives no output |
| Bundling.RunFrom | bundler.js:39-43 | `bundle()` on given contents as a value; `Bundling.Bundler.Bundle` and `Bundling.FreshRun` give its meaning |
| Bundling.Bundler.Bundle | bundler.js:39-43 | a malformed line is reported with the lines before it inserted; otherwise the records are appended to the arena and inserted into both indexes, and the output and the flags are those of the driver over the larger store with the new records unflagged, or an unknown-token failure |
| Bundling.ParseLinesStops | bundler.js:171 | a line that is not a record after good lines is the reported error |
| Bundling.WordIsToken | bundler.js:107 | a single word survives the token round trip |
| Bundling.FreshRun | bundler.js:39-43 | a fresh bundler's run over readable contents is the driver over those records, all unflagged |
| Bundling.BundleFileText | bundler_tests.js:64-82 | a fresh bundler on a file of writable records with distinct ids reads every line, does not throw, and outputs each id exactly once |

## Left out

- `parseFile`, `fs.readFileSync` and the file name: the file text is the `contents` parameter of `Bundler.Bundle`.
- `printOutput`, `console.log` and `console.error` (bundler.js:103-105 and 143): they write output and change no state.
- The command-line block and the export (bundler.js:187-192).
- The `children: []` field (bundler.js:167): nothing reads it.
- The `inputFilename` and `printOutput` fields of the constructor.
- Exceptions are values here. A malformed line is `Failure.MalformedLine(k)`, and an unknown token is `Failure.UnknownToken` or `None`. Neither is a thrown `TypeError`.
- Text.Trim: the whitespace removed is ASCII space, tab, newline, carriage return, vertical tab and form feed. JavaScript's `trim` also removes Unicode spaces and line terminators. The model does not have that larger set.
- Objects used as dictionaries: JavaScript objects inherit keys from `Object.prototype`, so a token such as `toString` is found in `shipmentsByID` without any record. The model's `map` has only the keys that were written.
- Bundling.Bundler.ParseInputShipments: on a malformed line, the model leaves the store as it was before that line. The source has already written the line's id at bundler.js:170 when the push at 171 throws.
- Bundling.Bundler.InsertLines: on a malformed line, the store is stated as it was before that line. The id written at bundler.js:170 before the push at 171 throws is not modelled.
- Bundling.Bundler.Bundle: on a malformed line, the store is stated as it was before that line, without the id written at bundler.js:170 before the push at 171 throws.
- Bundling.Bundler.FindAllBundles: when a token names no record, the model returns `None` and states nothing about the flags. The source keeps the flags set before the throw.
- Bundling.Bundler.BundleDay: when a token names no record, the flags left behind are not stated; only the failure of the day's pass is.
- Bundling.Bundler.Bundle: on an unknown-token failure the flags left behind are not stated.
- Bundling.Bundler.RunDay: when a token names no record, the flags left behind are not stated; only the failure of the day's pass is (`DayPass`).
- Bundling.Bundler.StepDay: states only progress through `DriveDays`. It does not say which bundles and flags the day leaves; `RunDay` and `BundleDay` state that. The flags after a failure are not stated.
- Strings are sequences of Unicode scalar values. A JavaScript string holding a lone surrogate code unit has no counterpart in the model.
- Driver.EveryRecordBundledOnce, Driver.EveryIdUsedOnce, Driver.OutputUsesEveryIdOnce and Driver.BundlesInScheduleOrder assume unique ids and token-safe ids.
  - With duplicate ids the driver is still modelled, but no partition is claimed.
  - With an id that ends in whitespace other than a space (possible inside a line, e.g. `a\t b c M`), the re-split token differs from the id. The driver then reaches the unknown-token case, as the source does.
- Driver.OutputUsesEveryIdOnce: the test first does `trim('\n').split('\n')` (bundler_tests.js:47). The model splits the output at spaces directly. The output holds no newline, because ids come from lines split at newlines.
- The test's own re-parse of the input file (bundler_tests.js:26-41) is not modelled.
