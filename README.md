# Category hierarchy ingestion, modelled in Dafny

The system reads a CSV file. Its header names an `item_id` column and level columns
`level_1`, `level_2`, .... Every data row is a path of category segments plus an item id.
The rows are merged into one tree: categories are inner nodes and items are usually leaves
(see the paragraph on colliding rows below for when an item gains children).
This project models the parts that define that behaviour and proves properties of them:

- the tree and its insertion (`Node`, `NewNode`, `AddNode`);
- header resolution (`extractColIndexes`, `parseHeader`);
- reading a row into a path (`extractHierarchyLevels`);
- the per-row body of `parseRow`;
- `ParseFile`, read as a sequential fold over the rows.

Modules, one per file:

- `Wrappers` (wrappers.dfy): `Option`, and `First`. `First` picks the first failure of a
  sequence of checks. `First` specifies the "return at the first error" loops over a header's
  columns and over a row's levels; the row loop of the workers is specified by `Entries`.
- `Errors` (errors.dfy): the error kinds the parser raises, `Result`, and the user-error
  classification of the error package.
- `Strconv` (strconv.dfy): the decimal parse `strconv.Atoi` applies to a level suffix, and
  the `%d` formatting that builds the names `level_<i>`.
- `Domain` (node.dfy):
  - the tree as a value, `Node(item, children)`;
  - `Hierarchy`, a class holding the mutable root. Its `AddNode` method walks the path with
    a depth cursor (the Go variable `current`), creates each missing node and
    overwrites the item's slot with a fresh leaf;
  - `Insert`, the recursive specification that `AddNode` is proved against, with lemmas
    about it: the item is reached, nodes on the path are reused, nothing off the path
    changes, idempotence, and when two inserts commute.
- `Csv` (csv_parser.dfy):
  - the constants and `NewCsvParser`;
  - `ExtractColIndexes`, a loop with early returns, proved equal to the reference function
    `ResolveHeader`;
  - `ExtractHierarchyLevels`, a loop, proved equal to `HierarchyLevels`;
  - `ParseRow`, which updates a `Hierarchy`;
  - `ParseRows` (the worker loop run by one worker) and `ParseFile`, proved against `Parse`.
- `CsvProperties` (csv_properties.dfy): what the reference functions mean. It proves:
  - when a header is accepted;
  - which error a header gets;
  - the positions an accepted schema records;
  - the shape of a row's path;
  - when a file parses and what tree it builds;
  - the first-failing-row rule;
  - order independence for compatible rows.
- `CsvScenarios` (csv_scenarios.dfy):
  - the concrete cases of `internal/csv/csv_parser_test.go`, stated as lemmas;
  - the header quirks the code has: `level_0`, `level_-1` and `level_01`.

Where the code and its tests disagree, the model follows the code:

- An empty `item_id` cell is accepted. The file test at `internal/csv/csv_parser_test.go:57-65`
  expects a rejection. `CsvScenarios.FileTestEmptyItemId` proves the code's behaviour.
- The row `,,103,...` fails with MissingParentElement, because depth 3 is filled under an
  empty depth 2. Depth 1 may be empty: only depths above one check their parent. The test
  expects a message about a missing `level_1`. See `CsvScenarios.FileTestEmptyParent`.
- `internal/errors/errors.go` defines only UnknownColumn, MissingRequiredColumn and
  MissingParentElement. The parser also wraps ReoccurringColumn and MissingRequiredValue,
  and the extraction of levels raises an unwrapped "invalid index" error. All of these are
  kinds of one `Errors.Error` datatype. The model has no analogue of `ErrValidationError`,
  which the tests and the handler name.

Order independence of the worker pool holds only up to a condition. Two rows collide when
one row's full key path (its levels, then its item id) is a proper prefix of the other's,
e.g. an item `a` under the root and a row with path `a`. When the shorter row is inserted
last, the leaf it writes replaces the subtree the longer row built. In the other order the item
node keeps its item flag and gains the longer row's children. The idea that any schedule of the concurrent workers gives the same tree
then fails: `Domain.CollidingInsertsDoNotCommute` exhibits the two trees. For pairwise
compatible rows, every schedule gives the sequential tree (`CsvProperties.ParseOrderIndependent`).

## Model

| member | source | states |
|---|---|---|
| Domain.Hierarchy.constructor | internal/domain/node.go:11-15 | a new hierarchy's root is a non-item node with no children |
| Domain.Hierarchy.AddNode | internal/domain/node.go:21-42 | the path walk that creates missing nodes and stores a fresh leaf leaves the root equal to `Insert(old root, levels, itemId)` |
| Domain.SetChild | internal/domain/node.go:31-33 | the node at `path` becomes the old node with child `key` set to `c` |
| Domain.SetChildFrame | internal/domain/node.go:31-41 | storing a child at the end of an existing path leaves every path that neither lies along nor runs through `path + [key]` leading to the same subtree, or none, as before |
| Domain.LookupExtend | internal/domain/node.go:35 | following one more key is the child lookup at the node reached so far |
| Domain.CreatePreservesInsert | internal/domain/node.go:31-33 | creating a missing node on the path before inserting through it gives the same tree as the insert alone |
| Domain.SetLeafIsInsert | internal/domain/node.go:38-41 | once every path node exists, storing the leaf under the item id is the whole insert |
| Domain.InsertReachesLeaf | internal/domain/node.go:25-41 | after the insert, following `levels` then the item id reaches a leaf (an item with no children); with empty levels it sits directly under the receiver |
| Domain.InsertPathNode | internal/domain/node.go:25-40 | every node on the path exists afterwards; an existing node keeps its item flag and its other children and gains the next key; a created node is not an item |
| Domain.InsertFrame | internal/domain/node.go:26-41 | any path that neither lies along nor runs through `levels + [itemId]` leads to the same subtree, or none, as before |
| Domain.NewNodeLookup | internal/domain/node.go:11-15 | a new node reaches nothing by a non-empty path |
| Domain.InsertIdempotent | internal/domain/node.go:31-41 | inserting the same levels and item id twice gives the tree of inserting once |
| Domain.DisjointInsertsCommute | internal/domain/node.go:25-41 | inserts whose key paths start with different segments commute |
| Domain.InsertCommutes | internal/domain/node.go:25-41 | two inserts of compatible records (same key path, or paths that branch apart) commute |
| Domain.BuildTreeAppend | internal/domain/node.go:21-42 | inserting a concatenation of runs is inserting the first run, then the second |
| Domain.InsertCommutesWithBuild | internal/domain/node.go:21-42 | an insert compatible with every entry of a run may be moved after that run |
| Domain.MoveToEnd | internal/domain/node.go:21-42 | an entry compatible with those after it may be moved to the end of the run |
| Domain.BuildTreeOrderIndependent | internal/domain/node.go:20-23 | any permutation of a pairwise compatible run of inserts builds the same tree |
| Domain.CollidingInsertsDoNotCommute | internal/domain/node.go:41 | an item id that is another row's first segment makes the two insert orders build different trees, because the leaf overwrites that subtree |
| Domain.AddNodeScenario | internal/domain/node_test.go:9-95 | the three successive inserts of the domain test give the expected trees; the `1234` leaf survives the later inserts under `1` |
| Wrappers.First | internal/csv/csv_parser.go:99-122 | the first failure is absent exactly when every check passes, and is otherwise one of the checks' failures |
| Wrappers.FirstAt | internal/csv/csv_parser.go:99-122 | when check `k` fails and every earlier check passed, the first failure is check `k`'s |
| Wrappers.FirstIsLeast | internal/csv/csv_parser.go:166-191 | a first failure is the failure of some check `k` with every earlier check passed |
| Strconv.DigitValue | internal/csv/csv_parser.go:110 | a decimal digit's value is below ten |
| Strconv.DigitChar | internal/csv/csv_parser.go:171 | the digit character of a value below ten is a digit with that value |
| Strconv.Atoi | internal/csv/csv_parser.go:109-113 | a suffix parses exactly when it is an optional sign followed by one or more digits; the value is the digits' value, negated after `-` |
| Strconv.Itoa | internal/csv/csv_parser.go:171 | `%d` of a non-negative number is non-empty, all digits, without a leading zero |
| Strconv.DigitsValueItoa | internal/csv/csv_parser.go:171 | the digits `%d` writes have the formatted value |
| Strconv.AtoiItoa | internal/csv/csv_parser.go:108-171 | parsing the suffix of a formatted level name gives back its depth |
| Strconv.ItoaInjective | internal/csv/csv_parser.go:171 | different depths are formatted as different strings |
| Csv.NewCsvParser | internal/csv/csv_parser.go:28-35 | a concurrency below one becomes 10; any other value is kept |
| Csv.PositionsKeys | internal/csv/csv_parser.go:104-117 | the position map holds exactly the header's names |
| Csv.ExtractColIndexes | internal/csv/csv_parser.go:95-139 | the column loop with early returns, the required-column checks and the gap scan return what `ResolveHeader` states |
| Csv.ParseHeader | internal/csv/csv_parser.go:81-93 | an input with no record fails as unreadable; otherwise the first record is resolved as the header |
| Csv.ExtractHierarchyLevels | internal/csv/csv_parser.go:166-191 | the loop over depths 1..|schema|-1 returns what `HierarchyLevels` states |
| Csv.ParseRow | internal/csv/csv_parser.go:149-159 | a row that fails leaves the tree unchanged and returns its error (MissingRequiredValue for the item column); an accepted row inserts its path and item id |
| Csv.EntriesFailurePersists | internal/csv/csv_parser.go:141-164 | a failing row fails every longer run of rows that contains it, with the same error |
| Csv.ParseRows | internal/csv/csv_parser.go:141-164 | one worker draining the rows either inserts every entry in order and succeeds, or stops at the first failing row with its error, having inserted only the rows before it |
| Csv.ParseFile | internal/csv/csv_parser.go:37-79 | a header failure or any row failure returns no tree; otherwise the tree is every row inserted in file order into an empty root |
| CsvProperties.DepthsMember | internal/csv/csv_parser.go:114-118 | a depth has been seen exactly when some column parses as that level |
| CsvProperties.ColumnAccepted | internal/csv/csv_parser.go:100-121 | a column is accepted exactly when its name is recognised and no earlier column has the same role (item id, or the same level number) |
| CsvProperties.NoColumnError | internal/csv/csv_parser.go:99-122 | the column loop finishes exactly when every name is recognised and no two columns share a role |
| CsvProperties.ResolveHeaderSucceeds | internal/csv/csv_parser.go:95-139 | a header is accepted exactly when roles are distinct, `item_id` and `level_1` are present, and every level above one has its parent |
| CsvProperties.PositionsOfDistinct | internal/csv/csv_parser.go:104-117 | for distinct names, the map sends each name to its zero-based position and has one entry per column |
| CsvProperties.ResolveHeaderPositions | internal/csv/csv_parser.go:95-138 | an accepted header maps exactly its own names, each to its position, in any column order |
| CsvProperties.ColumnRejectedFirst | internal/csv/csv_parser.go:100-121 | the first rejected column decides the error, whatever follows it and before any required-column check |
| CsvProperties.ResolveHeaderFailure | internal/csv/csv_parser.go:99-136 | every header failure is the first rejected column's, or else missing `item_id`, then missing `level_1`, then a level gap, in that order |
| CsvProperties.LevelNameHasPrefix | internal/csv/csv_parser.go:108-171 | a level name carries the level prefix followed by the formatted depth, and is not `item_id` |
| CsvProperties.ClassifyLevelName | internal/csv/csv_parser.go:108-171 | the name the row reader looks up for depth `i` is read as level `i` by the header check |
| CsvProperties.FirstLevelIsLevelName | internal/csv/csv_parser.go:128-171 | the required `level_1` is the row reader's name for depth one |
| CsvProperties.CanonicalHeaderAccepted | internal/csv/csv_parser.go:95-170 | `item_id` with `level_1..level_k`, in any order, is accepted with k+1 entries, so rows are read for k levels |
| CsvProperties.CanonicalHeaderSize | internal/csv/csv_parser.go:95-139 | such a header has exactly k+1 columns |
| CsvProperties.LevelNamesSize | internal/csv/csv_parser.go:171 | the names of depths 1..k are k distinct strings |
| CsvProperties.HierarchyLevelsSucceeds | internal/csv/csv_parser.go:170-184 | a row's path is read exactly when every level name is in the schema and inside the row and no value follows an empty one |
| CsvProperties.NonEmptyHasNoEmpty | internal/csv/csv_parser.go:185-187 | the kept values contain no empty string |
| CsvProperties.NonEmptyOfNoGap | internal/csv/csv_parser.go:182-187 | without a value under an empty parent, the kept values are the values before the first empty one, and only empties follow |
| CsvProperties.HierarchyLevelsShape | internal/csv/csv_parser.go:166-191 | a read path contains no empty string, is the prefix of the depth-ordered values before the first empty one, and only empty values follow |
| CsvProperties.HierarchyLevelsFailure | internal/csv/csv_parser.go:170-184 | a failed read names the shallowest failing depth: its name missing (invalid index), its index past the row (MissingRequiredValue), or a value under an empty parent |
| CsvProperties.RowEntrySucceeds | internal/csv/csv_parser.go:149-159 | a row is accepted exactly when its path is read and its item column lies inside it; the entry is that path and that cell, even an empty one |
| CsvProperties.EntriesSucceed | internal/csv/csv_parser.go:141-164 | a run of rows succeeds exactly when every row does, yielding each row's entry in order |
| CsvProperties.EntriesFailure | internal/csv/csv_parser.go:141-164 | a failed run reports the error of its first failing row, all rows before it being accepted |
| CsvProperties.ParseSucceeds | internal/csv/csv_parser.go:37-79 | a file parses exactly when its header resolves and every data row is accepted; the tree is every entry inserted into an empty root in file order |
| CsvProperties.ParseFailure | internal/csv/csv_parser.go:68-164 | with an accepted header, a failed file reports the error of its first failing data row |
| CsvProperties.ParseHeaderOnly | internal/csv/csv_parser.go:51-78 | a header with no data rows gives an empty root |
| CsvProperties.ParseOrderIndependent | internal/csv/csv_parser.go:68-72 | any order in which the workers insert pairwise compatible accepted rows builds the sequential tree |
| CsvScenarios.SmallLevelNames | internal/csv/csv_parser.go:171 | depths 1, 2 and 3 are named `level_1`, `level_2`, `level_3` |
| CsvScenarios.CanonicalSchema | internal/csv/csv_parser.go:95-139 | a permutation of `item_id` and `level_1..level_k` resolves to the map of each name to its position |
| CsvScenarios.HeaderTestTwoLevels | internal/csv/csv_parser_test.go:92-100 | `level_1,level_2,item_id` resolves to positions 0, 1, 2 |
| CsvScenarios.HeaderTestThreeLevels | internal/csv/csv_parser_test.go:101-110 | `level_1,level_2,level_3,item_id` resolves to positions 0 to 3 |
| CsvScenarios.HeaderTestAnyOrder | internal/csv/csv_parser_test.go:111-120 | `level_2,level_3,item_id,level_1` resolves to the positions where the names stand |
| CsvScenarios.HeaderTestUnknownColumn | internal/csv/csv_parser_test.go:121-126 | an unprefixed unknown column fails as unknown, though the required columns are present |
| CsvScenarios.HeaderTestReoccurringLevel | internal/csv/csv_parser_test.go:127-132 | a repeated `level_1` fails as reoccurring under that name |
| CsvScenarios.HeaderTestMissingFirstLevel | internal/csv/csv_parser_test.go:133-138 | `level_2,item_id` fails with `level_1` missing |
| CsvScenarios.HeaderTestMissingItemId | internal/csv/csv_parser_test.go:139-144 | `level_1` alone fails with `item_id` missing |
| CsvScenarios.ClassifyQuirks | internal/csv/csv_parser.go:108-110 | the suffixes `0`, `-1`, `01` and `+2` parse as depths 0, -1, 1 and 2 |
| CsvScenarios.HeaderAcceptsLevelZero | internal/csv/csv_parser.go:132-136 | `level_0,level_1,item_id` is accepted, since the gap check skips depths up to one |
| CsvScenarios.HeaderAcceptsNegativeLevel | internal/csv/csv_parser.go:132-136 | `level_-1,level_1,item_id` is accepted |
| CsvScenarios.LowLevelHeader | internal/csv/csv_parser.go:132-136 | any level column of depth below one, followed by `level_1` and `item_id`, is accepted and the three names map to positions 0, 1 and 2 |
| CsvScenarios.HeaderLeadingZeroNotFirstLevel | internal/csv/csv_parser.go:114-128 | `level_01,item_id` fails with `level_1` missing: the map is keyed by the raw name |
| CsvScenarios.HeaderLeadingZeroReoccurs | internal/csv/csv_parser.go:114-115 | `level_01` after `level_1` fails as a repeat of depth one |
| CsvScenarios.TwoLevelSchemaFacts | internal/csv/csv_parser_test.go:173-177 | the schema of the two-level rows reads two levels, at positions 0 and 1, with the item at 2 |
| CsvScenarios.ThreeLevelSchemaFacts | internal/csv/csv_parser_test.go:206-211 | the schema of the three-level rows reads three levels, at positions 0 to 2, with the item at 3 |
| CsvScenarios.ShuffledSchemaFacts | internal/csv/csv_parser_test.go:183-188 | the shuffled schema reads three levels, at positions 1, 2 and 0 |
| CsvScenarios.LevelZeroRejectsEveryRow | internal/csv/csv_parser.go:170-175 | under the schema of `level_0,level_1,item_id` no row's path can be read, since `level_2` is looked up and absent |
| CsvScenarios.LevelZeroRowError | internal/csv/csv_parser.go:166-180 | under that schema every row fails with an error that is not a known user error |
| CsvScenarios.LevelZeroFileFails | internal/csv/csv_parser.go:37-175 | a file with that header and any data row fails |
| CsvScenarios.LevelZeroFileError | internal/errors/errors.go:9-19 | that failure is a short row or an invalid index, neither of which `Errors.IsKnownUserError` (only `UnknownColumn`, `MissingRequiredColumn` and `MissingParentElement`, as in `IsKnownUserError`) counts as a user error |
| CsvScenarios.LevelsTestInOrder | internal/csv/csv_parser_test.go:169-178 | a row in header order yields its two level values |
| CsvScenarios.LevelsTestShuffled | internal/csv/csv_parser_test.go:179-189 | levels are read by name in depth order, wherever the header put them |
| CsvScenarios.LevelsTestShortRow | internal/csv/csv_parser_test.go:190-201 | a one-cell row fails with a missing value for `level_1` |
| CsvScenarios.LevelsTestMissingParent | internal/csv/csv_parser_test.go:203-214 | `level_1,,level_3` fails with a missing parent |
| CsvScenarios.ParseRowTestShortRow | internal/csv/csv_parser_test.go:256-258 | the row `level_1` fails with a missing value for `level_2` |
| CsvScenarios.ParseRowTestFullRow | internal/csv/csv_parser_test.go:260 | the full row becomes the path `level_1, level_2` with item id `item_id` |
| CsvScenarios.ParseRowTestBuildsItem | internal/csv/csv_parser_test.go:260-271 | after that row, the item is a leaf under `level_1` then `level_2` |
| CsvScenarios.HeaderSchema | internal/csv/csv_parser_test.go:26 | the parsing test's header resolves to the three-level schema |
| CsvScenarios.NonEmptyKeepsAll | internal/csv/csv_parser.go:185-187 | values with no empty string are all kept |
| CsvScenarios.ThreeLevelRow | internal/csv/csv_parser.go:154-191 | a four-cell row under the three-level schema fails exactly when a level is filled under an empty one, and otherwise yields its non-empty levels and its last cell |
| CsvScenarios.ParseOfEntries | internal/csv/csv_parser.go:37-79 | a file whose rows all read gives the tree of their entries |
| CsvScenarios.ParseOfFailingRow | internal/csv/csv_parser.go:37-79 | a file fails with the error of its first failing row |
| CsvScenarios.AllEmptyLevelsRow | internal/csv/csv_parser.go:185-187 | a row with all levels empty yields the empty path, so its item lands under the root |
| CsvScenarios.FilledRow | internal/csv/csv_parser.go:154-191 | a four-cell row under the three-level schema with all three levels filled becomes exactly that path with its last cell as item, even when that cell is empty (as `1,12,103,12507622`, `1,2,103,12507622` and `1,2,3,` of the parsing test) |
| CsvScenarios.SecondValidRow | internal/csv/csv_parser_test.go:28 | `1,13,,32622917` drops its empty level |
| CsvScenarios.ValidFileTree | internal/csv/csv_parser_test.go:30-37 | the two entries build the expected tree |
| CsvScenarios.ValidFileScenario | internal/csv/csv_parser_test.go:24-38 | the valid file of the parsing test parses to the expected tree |
| CsvScenarios.EmptyParentRows | internal/csv/csv_parser_test.go:41-51 | `1,,103` and `,,103` both fail with a missing parent |
| CsvScenarios.FileTestEmptyParent | internal/csv/csv_parser_test.go:39-56 | both files with a value under an empty parent fail with MissingParentElement |
| CsvScenarios.EmptyItemIdTree | internal/csv/csv_parser_test.go:59-62 | the two rows build root → `1` → `2` → {`103` → `12507622`, `3` → the empty id}, both leaves |
| CsvScenarios.FileTestEmptyItemId | internal/csv/csv_parser_test.go:57-65 | the test's two-row file whose last row has an empty item id parses to that tree, contrary to the test's expectation |

## Left out

- Concurrency: the errgroup, the bounded channel, the producer and worker goroutines, and context cancellation (`internal/csv/csv_parser.go:46-76, 160-161`). `Csv.ParseRows` is one worker taking the rows in order. `CsvProperties.ParseOrderIndependent` covers other insert orders only for files that parse and whose rows are pairwise compatible.
- CsvProperties.ParseFailure: the first-failing-row rule (also `CsvProperties.EntriesFailure` and `CsvScenarios.ParseOfFailingRow`) holds for one worker only; with several workers the errgroup keeps whichever error a goroutine returns first (`internal/csv/csv_parser.go:74`), so a file with two failing rows may report either, and the rows inserted before the failure depend on the schedule.
- The mutex in `AddNode` (`internal/domain/node.go:6, 22-23`): under it each insert is atomic, which is how the model treats each insert.
- CSV framing and record reading: Go's `encoding/csv` is not part of this model. Rows arrive already split, as `seq<seq<string>>`. The reader's check that every record has the header's field count, and its read errors, are not modelled. The only read failure modelled is an input with no header record (`HeaderUnreadable`).
- Strconv.Atoi: does not model the 64-bit range error of `strconv.Atoi`; integers are unbounded, so an overlong suffix parses instead of failing.
- Error message text and `xerrors` wrapping: errors are kinds with the column they name. The handler returns the full message text to the client and the tests match on it; the model keeps only the error kind and the column it names.
- `ErrValidationError`, named by the tests and by `internal/server/csv_handler.go:56`, is not defined in `internal/errors/errors.go` and has no analogue.
- JSON tags on `Node` (`internal/domain/node.go:7-8`): serialisation.
- Aliasing of heap nodes: the tree is a value. `Hierarchy` holds it, and `AddNode` rebuilds the path instead of mutating shared heap nodes. A Go `nil` children map and an empty map are the same value here.
- Plumbing: the HTTP handler, its content-type and size limits, the server wiring, the configuration, and the stub parser and interfaces (`internal/server/`, `cmd/backend/main.go`, `internal/config/config.go`, `internal/parser/`).
