/**
 * The CSV ingestion path: resolving the header into a schema, reading each data row
 * into a category path and an item id, and inserting the rows into one tree.
 * Records arrive already split into fields; row 0 is the header.
 */
module Csv {
  import opened Wrappers
  import opened Errors
  import opened Strconv
  import opened Domain

  const ItemIdColumn: string := "item_id"
  const LevelPrefix: string := "level_"

  /** Go's `strings.HasPrefix`: `s` starts with `prefix`. */
  predicate HasPrefix(s: string, prefix: string)
  {
    |prefix| <= |s| && s[..|prefix|] == prefix
  }
  /** The name the header must contain, built as the literal prefix followed by `1`. */
  const FirstLevelColumn: string := LevelPrefix + "1"
  const DefaultConcurrency: int := 10

  /** The role name to header position mapping that every row is read with. */
  type Schema = map<string, nat>

  datatype CsvParser = CsvParser(concurrency: int)

  /** A worker count below one is replaced by the default of ten. */
  function NewCsvParser(concurrency: int): (p: CsvParser)
    ensures p.concurrency >= 1
    ensures concurrency >= 1 ==> p.concurrency == concurrency
    ensures concurrency < 1 ==> p.concurrency == DefaultConcurrency
  {
    if concurrency < 1 then CsvParser(DefaultConcurrency) else CsvParser(concurrency)
  }

  // ---- Header ----

  /** The name the row reader looks up for depth `i`: the prefix and `i` in decimal. */
  function LevelName(i: nat): string { LevelPrefix + Itoa(i) }

  /** What a header name means: the item id, a level of some depth, or nothing known. */
  datatype Column = ItemColumn | LevelColumn(depth: int) | Unrecognised

  function Classify(col: string): Column
  {
    if col == ItemIdColumn then ItemColumn
    else if HasPrefix(col, LevelPrefix) then
      match Atoi(col[|LevelPrefix|..])
      case Some(d) => LevelColumn(d)
      case None => Unrecognised
    else Unrecognised
  }

  /** The depths of the level columns among `columns`. */
  function Depths(columns: seq<string>): set<int>
    decreases |columns|
  {
    if |columns| == 0 then {}
    else
      var last := Classify(columns[|columns| - 1]);
      Depths(columns[..|columns| - 1]) + (if last.LevelColumn? then {last.depth} else {})
  }

  /** Each name mapped to its position; a later column with the same name wins. */
  function Positions(columns: seq<string>): Schema
    decreases |columns|
  {
    if |columns| == 0 then map[]
    else Positions(columns[..|columns| - 1])[columns[|columns| - 1] := |columns| - 1]
  }

  /** The rejection of column `j`, if any, given the columns before it. */
  function ColumnError(columns: seq<string>, j: nat): Option<Error>
    requires j < |columns|
  {
    match Classify(columns[j])
    case ItemColumn =>
      if ItemIdColumn in columns[..j] then Some(ReoccurringColumn(ItemIdColumn)) else None
    case LevelColumn(d) =>
      if d in Depths(columns[..j]) then Some(ReoccurringColumn(columns[j])) else None
    case Unrecognised => Some(UnknownColumn(columns[j]))
  }

  function ColumnErrors(columns: seq<string>): seq<Option<Error>>
  {
    seq(|columns|, j requires 0 <= j < |columns| => ColumnError(columns, j))
  }

  /** Some level deeper than one is present without the level above it. */
  predicate HasGap(depths: set<int>)
  {
    exists d :: d in depths && d > 1 && d - 1 !in depths
  }

  /**
   * Reference semantics of header resolution: the first rejected column in column
   * order; then a missing `item_id`; then a missing `level_1`; then a level gap.
   */
  function ResolveHeader(columns: seq<string>): Result<Schema>
  {
    match First(ColumnErrors(columns))
    case Some(e) => Failure(e)
    case None =>
      if ItemIdColumn !in columns then Failure(MissingRequiredColumn(ItemIdColumn))
      else if FirstLevelColumn !in columns then Failure(MissingRequiredColumn(FirstLevelColumn))
      else if HasGap(Depths(columns)) then Failure(MissingParentElement)
      else Success(Positions(columns))
  }

  lemma PositionsKeys(columns: seq<string>)
    ensures forall c :: c in Positions(columns) <==> c in columns
    decreases |columns|
  {
    if |columns| > 0 {
      var init := columns[..|columns| - 1];
      PositionsKeys(init);
      assert columns == init + [columns[|columns| - 1]];
    }
  }

  /** `extractColIndexes`: one pass over the columns with early returns, then the required-column checks. */
  method ExtractColIndexes(columns: seq<string>) returns (r: Result<Schema>)
    ensures r == ResolveHeader(columns)
  {
    var colIndexes: Schema := map[];
    var seenLevels: set<int> := {};
    var index := 0;
    while index < |columns|
      invariant 0 <= index <= |columns|
      invariant colIndexes == Positions(columns[..index])
      invariant seenLevels == Depths(columns[..index])
      invariant forall j :: 0 <= j < index ==> ColumnErrors(columns)[j].None?
    {
      var col := columns[index];
      assert columns[..index + 1] == columns[..index] + [col];
      assert columns[..index + 1][..index] == columns[..index];
      PositionsKeys(columns[..index]);
      ghost var errs := ColumnErrors(columns);
      assert errs[index] == ColumnError(columns, index);
      if col == ItemIdColumn {
        if ItemIdColumn in colIndexes {
          FirstAt(ColumnErrors(columns), index);
          return Failure(ReoccurringColumn(ItemIdColumn));
        }
        colIndexes := colIndexes[ItemIdColumn := index];
        index := index + 1;
        continue;
      }
      if HasPrefix(col, LevelPrefix) {
        var levelNum := Atoi(col[|LevelPrefix|..]);
        if levelNum.None? {
          FirstAt(ColumnErrors(columns), index);
          return Failure(UnknownColumn(col));
        }
        if levelNum.value in seenLevels {
          FirstAt(ColumnErrors(columns), index);
          return Failure(ReoccurringColumn(col));
        }
        colIndexes := colIndexes[col := index];
        seenLevels := seenLevels + {levelNum.value};
      } else {
        FirstAt(ColumnErrors(columns), index);
        return Failure(UnknownColumn(col));
      }
      index := index + 1;
    }
    assert columns[..index] == columns;
    PositionsKeys(columns);
    if ItemIdColumn !in colIndexes {
      return Failure(MissingRequiredColumn(ItemIdColumn));
    }
    if FirstLevelColumn !in colIndexes {
      return Failure(MissingRequiredColumn(FirstLevelColumn));
    }
    // The Go code ranges over the `seenLevels` map, in no fixed order; any order gives the same verdict.
    var unvisited := seenLevels;
    while unvisited != {}
      invariant unvisited <= seenLevels
      invariant forall d :: d in seenLevels && d !in unvisited ==> !(d > 1 && d - 1 !in seenLevels)
      decreases |unvisited|
    {
      assert (forall d :: d !in unvisited) ==> unvisited == {};
      var level :| level in unvisited;
      if level > 1 && level - 1 !in seenLevels {
        return Failure(MissingParentElement);
      }
      unvisited := unvisited - {level};
    }
    return Success(colIndexes);
  }

  /** `parseHeader`: the first record is the header; an input without one fails. */
  method ParseHeader(rows: seq<seq<string>>) returns (r: Result<Schema>)
    ensures |rows| == 0 ==> r == Failure(HeaderUnreadable)
    ensures |rows| > 0 ==> r == ResolveHeader(rows[0])
  {
    if |rows| == 0 {
      return Failure(HeaderUnreadable);
    }
    r := ExtractColIndexes(rows[0]);
  }

  // ---- Rows ----

  /** How many levels a row is read for: one less than the number of schema entries. */
  function LevelCount(schema: Schema): nat
  {
    if |schema| == 0 then 0 else |schema| - 1
  }

  /** The value of level `i` in `row`, or "" when it cannot be read. */
  function LevelValue(row: seq<string>, schema: Schema, i: nat): string
  {
    var name := LevelName(i);
    if name in schema && schema[name] < |row| then row[schema[name]] else ""
  }

  /** The failure, if any, of reading level `i` after levels `1..i-1` were read. */
  function LevelError(row: seq<string>, schema: Schema, i: nat): Option<Error>
    requires i >= 1
  {
    var name := LevelName(i);
    if name !in schema then Some(InvalidIndex(name))
    else if schema[name] >= |row| then Some(MissingRequiredValue(name))
    else if i != 1 && LevelValue(row, schema, i - 1) == "" && row[schema[name]] != "" then Some(MissingParentElement)
    else None
  }

  /** Entry `j` concerns depth `j + 1`. */
  function LevelErrors(row: seq<string>, schema: Schema): seq<Option<Error>>
  {
    seq(LevelCount(schema), j requires 0 <= j => LevelError(row, schema, j + 1))
  }

  function LevelValues(row: seq<string>, schema: Schema): seq<string>
  {
    seq(LevelCount(schema), j requires 0 <= j => LevelValue(row, schema, j + 1))
  }

  /** The non-empty strings of `s`, in order. */
  function NonEmpty(s: seq<string>): seq<string>
    decreases |s|
  {
    if |s| == 0 then []
    else NonEmpty(s[..|s| - 1]) + (if s[|s| - 1] == "" then [] else [s[|s| - 1]])
  }

  /** Reference semantics of reading a row's path: the first failing depth, else the non-empty values by depth. */
  function HierarchyLevels(row: seq<string>, schema: Schema): Result<seq<string>>
  {
    match First(LevelErrors(row, schema))
    case Some(e) => Failure(e)
    case None => Success(NonEmpty(LevelValues(row, schema)))
  }

  /** `extractHierarchyLevels`: reads `level_1`, `level_2`, ... by lookup, keeping the previous value as the parent. */
  method ExtractHierarchyLevels(row: seq<string>, schema: Schema) returns (r: Result<seq<string>>)
    ensures r == HierarchyLevels(row, schema)
  {
    var levels: seq<string> := [];
    var currentParent := "";
    var i := 1;
    while i <= |schema| - 1
      invariant 1 <= i <= LevelCount(schema) + 1
      invariant levels == NonEmpty(LevelValues(row, schema)[..i - 1])
      invariant i > 1 ==> currentParent == LevelValue(row, schema, i - 1)
      invariant forall j :: 0 <= j < i - 1 ==> LevelErrors(row, schema)[j].None?
    {
      var colName := LevelName(i);
      ghost var errs := LevelErrors(row, schema);
      assert i - 1 < |errs| && errs[i - 1] == LevelError(row, schema, i);
      if colName !in schema {
        FirstAt(LevelErrors(row, schema), i - 1);
        return Failure(InvalidIndex(colName));
      }
      var index := schema[colName];
      if index >= |row| {
        FirstAt(LevelErrors(row, schema), i - 1);
        return Failure(MissingRequiredValue(colName));
      }
      var currentLevel := row[index];
      if i != 1 && currentParent == "" && currentLevel != "" {
        FirstAt(LevelErrors(row, schema), i - 1);
        return Failure(MissingParentElement);
      }
      assert LevelValues(row, schema)[..i] == LevelValues(row, schema)[..i - 1] + [currentLevel];
      assert LevelValues(row, schema)[..i][..i - 1] == LevelValues(row, schema)[..i - 1];
      if currentLevel != "" {
        levels := levels + [currentLevel];
      }
      currentParent := currentLevel;
      i := i + 1;
    }
    assert LevelValues(row, schema)[..i - 1] == LevelValues(row, schema);
    return Success(levels);
  }

  /** Reference semantics of one row: its path, then its item id, which must be inside the row but may be empty. */
  function RowEntry(row: seq<string>, schema: Schema): Result<Entry>
  {
    match HierarchyLevels(row, schema)
    case Failure(e) => Failure(e)
    case Success(levels) =>
      if ItemIdColumn !in schema || schema[ItemIdColumn] >= |row| then Failure(MissingRequiredValue(ItemIdColumn))
      else Success(Entry(levels, row[schema[ItemIdColumn]]))
  }

  /** The body of `parseRow` for one received row: on failure the tree is left as it was. */
  method ParseRow(nodes: Hierarchy, row: seq<string>, schema: Schema) returns (err: Option<Error>)
    modifies nodes
    ensures RowEntry(row, schema).Failure? ==> err == Some(RowEntry(row, schema).error) && nodes.root == old(nodes.root)
    ensures RowEntry(row, schema).Success? ==> err == None && nodes.root == InsertEntry(old(nodes.root), RowEntry(row, schema).value)
  {
    var levels := ExtractHierarchyLevels(row, schema);
    if levels.Failure? {
      return Some(levels.error);
    }
    if ItemIdColumn !in schema || schema[ItemIdColumn] >= |row| {
      return Some(MissingRequiredValue(ItemIdColumn));
    }
    nodes.AddNode(levels.value, row[schema[ItemIdColumn]]);
    return None;
  }

  /** Reference semantics of a run of rows: every row's entry, or the first row failure. */
  function Entries(rows: seq<seq<string>>, schema: Schema): Result<seq<Entry>>
    decreases |rows|
  {
    if |rows| == 0 then Success([])
    else
      match Entries(rows[..|rows| - 1], schema)
      case Failure(e) => Failure(e)
      case Success(es) =>
        match RowEntry(rows[|rows| - 1], schema)
        case Failure(e) => Failure(e)
        case Success(en) => Success(es + [en])
  }

  /** A failing row fails every longer run of rows that contains it. */
  lemma {:induction false} EntriesFailurePersists(rows: seq<seq<string>>, schema: Schema, n: nat)
    requires n <= |rows| && Entries(rows[..n], schema).Failure?
    ensures Entries(rows, schema) == Entries(rows[..n], schema)
    decreases |rows| - n
  {
    if n < |rows| {
      assert rows[..n + 1][..n] == rows[..n];
      EntriesFailurePersists(rows, schema, n + 1);
    } else {
      assert rows[..n] == rows;
    }
  }

  /** One more row of a run whose rows so far all succeeded. */
  lemma EntriesExtend(rows: seq<seq<string>>, schema: Schema, n: nat)
    requires n < |rows| && Entries(rows[..n], schema).Success?
    ensures RowEntry(rows[n], schema).Failure? ==> Entries(rows[..n + 1], schema) == Failure(RowEntry(rows[n], schema).error)
    ensures RowEntry(rows[n], schema).Success? ==>
      Entries(rows[..n + 1], schema) == Success(Entries(rows[..n], schema).value + [RowEntry(rows[n], schema).value])
  {
    assert rows[..n + 1][..n] == rows[..n];
  }

  /** Building over one more entry inserts that entry last. */
  lemma BuildTreeSnoc(n: Node, es: seq<Entry>, e: Entry)
    ensures BuildTree(n, es + [e]) == InsertEntry(BuildTree(n, es), e)
  {
    assert (es + [e])[..|es|] == es;
  }

  /**
   * The worker loop of `parseRow` run by a single worker: rows are taken in order until
   * none are left (success) or one fails (that row's error, with the rows before it inserted).
   */
  method ParseRows(nodes: Hierarchy, rows: seq<seq<string>>, schema: Schema) returns (err: Option<Error>)
    modifies nodes
    ensures Entries(rows, schema).Success? ==>
      err == None && nodes.root == BuildTree(old(nodes.root), Entries(rows, schema).value)
    ensures Entries(rows, schema).Failure? ==> err == Some(Entries(rows, schema).error)
    ensures Entries(rows, schema).Failure? ==>
      (exists n :: 0 <= n < |rows| && Entries(rows[..n], schema).Success? && RowEntry(rows[n], schema).Failure? &&
         nodes.root == BuildTree(old(nodes.root), Entries(rows[..n], schema).value))
  {
    var n := 0;
    while n < |rows|
      invariant 0 <= n <= |rows|
      invariant Entries(rows[..n], schema).Success?
      invariant nodes.root == BuildTree(old(nodes.root), Entries(rows[..n], schema).value)
    {
      EntriesExtend(rows, schema, n);
      ghost var es := Entries(rows[..n], schema).value;
      err := ParseRow(nodes, rows[n], schema);
      if err.Some? {
        EntriesFailurePersists(rows, schema, n + 1);
        return;
      }
      BuildTreeSnoc(old(nodes.root), es, RowEntry(rows[n], schema).value);
      n := n + 1;
    }
    assert rows[..n] == rows;
    return None;
  }

  /** Reference semantics of a whole file: the header, then every data row inserted into an empty root. */
  function Parse(rows: seq<seq<string>>): Result<Node>
  {
    if |rows| == 0 then Failure(HeaderUnreadable)
    else
      match ResolveHeader(rows[0])
      case Failure(e) => Failure(e)
      case Success(schema) =>
        match Entries(rows[1..], schema)
        case Failure(e) => Failure(e)
        case Success(es) => Success(BuildTree(NewNode(), es))
  }

  /**
   * `ParseFile` with its producer and workers run one step at a time: the header is
   * resolved once, then every data row is processed in file order; any failure
   * returns no tree.
   */
  method ParseFile(rows: seq<seq<string>>) returns (r: Result<Node>)
    ensures r == Parse(rows)
  {
    var nodes := new Hierarchy();
    var colIndexes := ParseHeader(rows);
    if colIndexes.Failure? {
      return Failure(colIndexes.error);
    }
    var err := ParseRows(nodes, rows[1..], colIndexes.value);
    if err.Some? {
      return Failure(err.value);
    }
    return Success(nodes.root);
  }
}
