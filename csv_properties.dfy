/**
 * What the CSV ingestion path promises, stated over its reference semantics in
 * module Csv: when a header is accepted and what schema it yields, what path a
 * row is read into, and which tree a whole file builds.
 */
module CsvProperties {
  import opened Wrappers
  import opened Errors
  import opened Strconv
  import opened Domain
  import opened Csv

  // ---- Header ----

  lemma {:induction false} DepthsMember(columns: seq<string>, d: int)
    ensures d in Depths(columns) <==> exists i :: 0 <= i < |columns| && Classify(columns[i]) == LevelColumn(d)
    decreases |columns|
  {
    if |columns| > 0 {
      var init := columns[..|columns| - 1];
      DepthsMember(init, d);
      assert forall i :: 0 <= i < |init| ==> init[i] == columns[i];
    }
  }

  /** Column `j` is accepted exactly when its name is recognised and no earlier column has the same role. */
  lemma ColumnAccepted(columns: seq<string>, j: nat)
    requires j < |columns|
    ensures ColumnError(columns, j).None? <==>
      !Classify(columns[j]).Unrecognised? && forall i :: 0 <= i < j ==> Classify(columns[i]) != Classify(columns[j])
  {
    var prefix := columns[..j];
    assert forall i :: 0 <= i < j ==> prefix[i] == columns[i];
    match Classify(columns[j])
    case ItemColumn =>
      assert ItemIdColumn in prefix <==> exists i :: 0 <= i < j && Classify(columns[i]) == ItemColumn;
    case LevelColumn(d) =>
      DepthsMember(prefix, d);
    case Unrecognised =>
  }

  /** Every name is recognised and no two columns claim the same role. */
  predicate RolesDistinct(columns: seq<string>)
  {
    && (forall j :: 0 <= j < |columns| ==> !Classify(columns[j]).Unrecognised?)
    && (forall i, j :: 0 <= i < j < |columns| ==> Classify(columns[i]) != Classify(columns[j]))
  }

  /** The header invariants: distinct recognised roles, both required columns, and no gap above depth one. */
  predicate ValidHeader(columns: seq<string>)
  {
    && RolesDistinct(columns)
    && ItemIdColumn in columns
    && FirstLevelColumn in columns
    && forall d :: d in Depths(columns) && d > 1 ==> d - 1 in Depths(columns)
  }

  lemma NoColumnError(columns: seq<string>)
    ensures First(ColumnErrors(columns)).None? <==> RolesDistinct(columns)
  {
    forall j | 0 <= j < |columns| ensures ColumnErrors(columns)[j].None? <==> ColumnError(columns, j).None? {
    }
    forall j | 0 <= j < |columns| { ColumnAccepted(columns, j); }
  }

  /** A header is accepted exactly when it satisfies the header invariants. */
  lemma ResolveHeaderSucceeds(columns: seq<string>)
    ensures ResolveHeader(columns).Success? <==> ValidHeader(columns)
  {
    NoColumnError(columns);
  }

  lemma {:induction false} PositionsOfDistinct(columns: seq<string>)
    requires forall i, j :: 0 <= i < j < |columns| ==> columns[i] != columns[j]
    ensures |Positions(columns)| == |columns|
    ensures forall j :: 0 <= j < |columns| ==> columns[j] in Positions(columns) && Positions(columns)[columns[j]] == j
    decreases |columns|
  {
    if |columns| > 0 {
      var init := columns[..|columns| - 1];
      PositionsOfDistinct(init);
      PositionsKeys(init);
      assert columns[|columns| - 1] !in init;
    }
  }

  /**
   * An accepted header maps exactly its own names, each to its zero-based position,
   * whatever order the columns come in; there is one entry per column.
   */
  lemma ResolveHeaderPositions(columns: seq<string>)
    requires ResolveHeader(columns).Success?
    ensures var schema := ResolveHeader(columns).value;
      && (forall c :: c in schema <==> c in columns)
      && (forall j :: 0 <= j < |columns| ==> schema[columns[j]] == j)
      && |schema| == |columns|
  {
    ResolveHeaderSucceeds(columns);
    PositionsKeys(columns);
    assert forall i, j :: 0 <= i < j < |columns| ==> columns[i] != columns[j] by {
      forall i, j | 0 <= i < j < |columns| ensures columns[i] != columns[j] {
        assert Classify(columns[i]) != Classify(columns[j]);
      }
    }
    PositionsOfDistinct(columns);
  }

  /**
   * Column rejections come first, in column order: if column `k` is the first one
   * rejected, header resolution fails with that column's error, whatever follows it
   * and whether or not the required columns are present.
   */
  lemma ColumnRejectedFirst(columns: seq<string>, k: nat)
    requires k < |columns| && ColumnError(columns, k).Some?
    requires forall j :: 0 <= j < k ==> ColumnError(columns, j).None?
    ensures ResolveHeader(columns) == Failure(ColumnError(columns, k).value)
  {
    FirstAt(ColumnErrors(columns), k);
  }

  /** Any failure is the first rejected column's, or else the first failed required-column check. */
  lemma ResolveHeaderFailure(columns: seq<string>) returns (k: nat)
    requires ResolveHeader(columns).Failure?
    ensures var e := ResolveHeader(columns).error;
      || (k < |columns| && ColumnError(columns, k) == Some(e) &&
          forall j :: 0 <= j < k ==> ColumnError(columns, j).None?)
      || (First(ColumnErrors(columns)).None? && ItemIdColumn !in columns && e == MissingRequiredColumn(ItemIdColumn))
      || (First(ColumnErrors(columns)).None? && ItemIdColumn in columns && FirstLevelColumn !in columns &&
          e == MissingRequiredColumn(FirstLevelColumn))
      || (First(ColumnErrors(columns)).None? && ItemIdColumn in columns && FirstLevelColumn in columns &&
          HasGap(Depths(columns)) && e == MissingParentElement)
  {
    k := 0;
    var errs := ColumnErrors(columns);
    if First(errs).Some? {
      k := FirstIsLeast(errs);
      assert forall j :: 0 <= j < k ==> errs[j] == ColumnError(columns, j);
    }
  }

  lemma LevelNameHasPrefix(i: nat)
    ensures HasPrefix(LevelName(i), LevelPrefix) && LevelName(i)[|LevelPrefix|..] == Itoa(i)
    ensures LevelName(i) != ItemIdColumn
  {
    assert LevelName(i)[..|LevelPrefix|] == LevelPrefix;
    assert LevelName(i)[0] == 'l' && ItemIdColumn[0] == 'i';
  }

  /** The name built for depth `i` is read back as a level of depth `i`. */
  lemma ClassifyLevelName(i: nat)
    ensures Classify(LevelName(i)) == LevelColumn(i)
  {
    LevelNameHasPrefix(i);
    AtoiItoa(i);
  }

  lemma FirstLevelIsLevelName()
    ensures FirstLevelColumn == LevelName(1)
  {
    assert Itoa(1) == "1";
  }

  /** The columns `item_id`, `level_1`, ..., `level_k` in some order, each once. */
  predicate CanonicalHeader(columns: seq<string>, k: nat)
  {
    && k >= 1
    && (forall i, j :: 0 <= i < j < |columns| ==> columns[i] != columns[j])
    && (forall j :: 0 <= j < |columns| ==> columns[j] == ItemIdColumn || exists i :: 1 <= i <= k && columns[j] == LevelName(i))
    && ItemIdColumn in columns
    && forall i :: 1 <= i <= k ==> LevelName(i) in columns
  }

  /**
   * A header holding `item_id` and a contiguous run `level_1..level_k`, in any order,
   * is accepted and yields exactly k+1 role mappings, so rows are read for k levels.
   */
  lemma CanonicalHeaderAccepted(columns: seq<string>, k: nat)
    requires CanonicalHeader(columns, k)
    ensures ResolveHeader(columns).Success?
    ensures |ResolveHeader(columns).value| == k + 1
    ensures LevelCount(ResolveHeader(columns).value) == k
  {
    CanonicalRolesDistinct(columns, k);
    CanonicalNoGap(columns, k);
    FirstLevelIsLevelName();
    ResolveHeaderSucceeds(columns);
    ResolveHeaderPositions(columns);
    CanonicalHeaderSize(columns, k);
  }

  /** A column of a canonical header other than `item_id` is the level of some depth in 1..k. */
  lemma CanonicalDepth(columns: seq<string>, k: nat, j: nat) returns (i: nat)
    requires CanonicalHeader(columns, k) && j < |columns| && columns[j] != ItemIdColumn
    ensures 1 <= i <= k && columns[j] == LevelName(i) && Classify(columns[j]) == LevelColumn(i)
  {
    i :| 1 <= i <= k && columns[j] == LevelName(i);
    ClassifyLevelName(i);
  }

  lemma CanonicalRolesDistinct(columns: seq<string>, k: nat)
    requires CanonicalHeader(columns, k)
    ensures RolesDistinct(columns)
  {
    forall j | 0 <= j < |columns| ensures !Classify(columns[j]).Unrecognised? {
      if columns[j] != ItemIdColumn {
        var d := CanonicalDepth(columns, k, j);
      }
    }
    forall i, j | 0 <= i < j < |columns| ensures Classify(columns[i]) != Classify(columns[j]) {
      if columns[i] != ItemIdColumn && columns[j] != ItemIdColumn {
        var a := CanonicalDepth(columns, k, i);
        var b := CanonicalDepth(columns, k, j);
      } else if columns[i] != ItemIdColumn {
        var a := CanonicalDepth(columns, k, i);
      } else if columns[j] != ItemIdColumn {
        var b := CanonicalDepth(columns, k, j);
      }
    }
  }

  lemma CanonicalNoGap(columns: seq<string>, k: nat)
    requires CanonicalHeader(columns, k)
    ensures forall d :: d in Depths(columns) && d > 1 ==> d - 1 in Depths(columns)
  {
    forall d | d in Depths(columns) && d > 1 ensures d - 1 in Depths(columns) {
      DepthsMember(columns, d);
      var j :| 0 <= j < |columns| && Classify(columns[j]) == LevelColumn(d);
      assert columns[j] != ItemIdColumn;
      var i := CanonicalDepth(columns, k, j);
      assert LevelName(d - 1) in columns;
      var j' :| 0 <= j' < |columns| && columns[j'] == LevelName(d - 1);
      ClassifyLevelName(d - 1);
      DepthsMember(columns, d - 1);
    }
  }

  /** A canonical header has exactly k+1 columns. */
  lemma CanonicalHeaderSize(columns: seq<string>, k: nat)
    requires CanonicalHeader(columns, k)
    ensures |columns| == k + 1
  {
    CanonicalNames(columns, k);
    DistinctSize(columns);
    HeaderNamesSize(k);
  }

  /** The names a canonical header holds are `item_id` and the level names of depths 1..k. */
  lemma CanonicalNames(columns: seq<string>, k: nat)
    requires CanonicalHeader(columns, k)
    ensures (set j | 0 <= j < |columns| :: columns[j]) == {ItemIdColumn} + set i | 1 <= i <= k :: LevelName(i)
  {
    var names := {ItemIdColumn} + set i | 1 <= i <= k :: LevelName(i);
    var present := set j | 0 <= j < |columns| :: columns[j];
    forall c | c in names ensures c in present {
      var j :| 0 <= j < |columns| && columns[j] == c;
    }
  }

  /** `item_id` and the k level names are k+1 different strings. */
  lemma HeaderNamesSize(k: nat)
    ensures |{ItemIdColumn} + set i | 1 <= i <= k :: LevelName(i)| == k + 1
  {
    LevelNamesSize(k);
    forall i | 1 <= i <= k { LevelNameHasPrefix(i); }
    assert ItemIdColumn !in set i | 1 <= i <= k :: LevelName(i);
  }

  lemma {:induction false} DistinctSize(columns: seq<string>)
    requires forall i, j :: 0 <= i < j < |columns| ==> columns[i] != columns[j]
    ensures |set j | 0 <= j < |columns| :: columns[j]| == |columns|
    decreases |columns|
  {
    if |columns| > 0 {
      var init := columns[..|columns| - 1];
      DistinctSize(init);
      var s := set j | 0 <= j < |columns| :: columns[j];
      var s' := set j | 0 <= j < |init| :: init[j];
      assert s == s' + {columns[|columns| - 1]};
      assert columns[|columns| - 1] !in s';
    }
  }

  lemma {:induction false} LevelNamesSize(k: nat)
    ensures |set i | 1 <= i <= k :: LevelName(i)| == k
    decreases k
  {
    if k > 0 {
      LevelNamesSize(k - 1);
      var s := set i | 1 <= i <= k :: LevelName(i);
      var s' := set i | 1 <= i <= k - 1 :: LevelName(i);
      assert s == s' + {LevelName(k)};
      forall i | 1 <= i <= k - 1 ensures LevelName(i) != LevelName(k) {
        if LevelName(i) == LevelName(k) {
          assert Itoa(i) == LevelName(i)[|LevelPrefix|..] == LevelName(k)[|LevelPrefix|..] == Itoa(k);
          ItoaInjective(i, k);
        }
      }
    }
  }

  // ---- Rows ----

  /** Once a level is empty, every deeper level is empty too. */
  predicate NoGap(values: seq<string>)
  {
    forall j :: 0 < j < |values| ==> values[j - 1] == "" ==> values[j] == ""
  }

  /** Every level the reader looks up is in the schema and inside the row. */
  predicate RowReadable(row: seq<string>, schema: Schema)
  {
    forall i :: 1 <= i <= LevelCount(schema) ==> LevelName(i) in schema && schema[LevelName(i)] < |row|
  }

  /** A row's path is read exactly when every level can be read and no value follows an empty parent. */
  lemma HierarchyLevelsSucceeds(row: seq<string>, schema: Schema)
    ensures HierarchyLevels(row, schema).Success? <==> RowReadable(row, schema) && NoGap(LevelValues(row, schema))
  {
    var errs, vals := LevelErrors(row, schema), LevelValues(row, schema);
    if RowReadable(row, schema) && NoGap(vals) {
      forall j | 0 <= j < |errs| ensures errs[j].None? {
        assert errs[j] == LevelError(row, schema, j + 1);
        if j > 0 { assert vals[j - 1] == LevelValue(row, schema, j) && vals[j] == LevelValue(row, schema, j + 1); }
      }
    }
    if First(errs).None? {
      forall i | 1 <= i <= LevelCount(schema) ensures LevelName(i) in schema && schema[LevelName(i)] < |row| {
        assert errs[i - 1].None?;
      }
      forall j | 0 < j < |vals| && vals[j - 1] == "" ensures vals[j] == "" {
        assert errs[j] == LevelError(row, schema, j + 1);
      }
    }
  }

  lemma {:induction false} NonEmptyHasNoEmpty(s: seq<string>)
    ensures forall j :: 0 <= j < |NonEmpty(s)| ==> NonEmpty(s)[j] != ""
    decreases |s|
  {
    if |s| > 0 { NonEmptyHasNoEmpty(s[..|s| - 1]); }
  }

  /** Without gaps, dropping the empty values keeps exactly the values before the first empty one. */
  lemma {:induction false} NonEmptyOfNoGap(s: seq<string>)
    requires NoGap(s)
    ensures |NonEmpty(s)| <= |s| && NonEmpty(s) == s[..|NonEmpty(s)|]
    ensures forall j :: |NonEmpty(s)| <= j < |s| ==> s[j] == ""
    decreases |s|
  {
    if |s| > 0 {
      var init := s[..|s| - 1];
      assert NoGap(init) by {
        forall j | 0 < j < |init| && init[j - 1] == "" ensures init[j] == "" {
          assert init[j - 1] == s[j - 1] && init[j] == s[j];
        }
      }
      NonEmptyOfNoGap(init);
      if s[|s| - 1] != "" {
        assert |init| > 0 ==> s[|s| - 2] != "";
        assert |NonEmpty(init)| == |init|;
        assert NonEmpty(s) == s;
      } else {
        assert NonEmpty(s) == NonEmpty(init);
        assert s[..|NonEmpty(init)|] == init[..|NonEmpty(init)|];
      }
    }
  }

  /**
   * A path that is read holds the non-empty level values in depth order: no empty
   * segment, exactly the levels before the first empty one, and only empty values after.
   */
  lemma HierarchyLevelsShape(row: seq<string>, schema: Schema)
    requires HierarchyLevels(row, schema).Success?
    ensures var path, vals := HierarchyLevels(row, schema).value, LevelValues(row, schema);
      && (forall j :: 0 <= j < |path| ==> path[j] != "")
      && |path| <= |vals| && path == vals[..|path|]
      && (forall j :: |path| <= j < |vals| ==> vals[j] == "")
  {
    HierarchyLevelsSucceeds(row, schema);
    NonEmptyHasNoEmpty(LevelValues(row, schema));
    NonEmptyOfNoGap(LevelValues(row, schema));
  }

  /**
   * A failed read names the shallowest failing depth `i`: its column missing from the
   * schema, its index past the end of the row, or a value under an empty parent.
   */
  lemma HierarchyLevelsFailure(row: seq<string>, schema: Schema) returns (i: nat)
    requires HierarchyLevels(row, schema).Failure?
    ensures 1 <= i <= LevelCount(schema)
    ensures forall j :: 1 <= j < i ==> LevelError(row, schema, j).None?
    ensures var e, name := HierarchyLevels(row, schema).error, LevelName(i);
      && (name !in schema ==> e == InvalidIndex(name))
      && (name in schema && schema[name] >= |row| ==> e == MissingRequiredValue(name))
      && (name in schema && schema[name] < |row| ==>
            e == MissingParentElement && i > 1 && LevelValue(row, schema, i - 1) == "" && row[schema[name]] != "")
  {
    var errs := LevelErrors(row, schema);
    var k := FirstIsLeast(errs);
    i := k + 1;
    forall j | 1 <= j < i ensures LevelError(row, schema, j).None? { assert errs[j - 1].None?; }
  }

  /** A row is accepted when its path is read and its item column lies inside it; an empty item id is accepted. */
  lemma RowEntrySucceeds(row: seq<string>, schema: Schema)
    ensures RowEntry(row, schema).Success? <==>
      HierarchyLevels(row, schema).Success? && ItemIdColumn in schema && schema[ItemIdColumn] < |row|
    ensures RowEntry(row, schema).Success? ==>
      RowEntry(row, schema).value == Entry(HierarchyLevels(row, schema).value, row[schema[ItemIdColumn]])
  {
  }

  // ---- Files ----

  /** Every row's entry, when every row is accepted. */
  function RowEntries(rows: seq<seq<string>>, schema: Schema): seq<Entry>
    requires forall i :: 0 <= i < |rows| ==> RowEntry(rows[i], schema).Success?
  {
    seq(|rows|, i requires 0 <= i < |rows| => RowEntry(rows[i], schema).value)
  }

  /** A run of rows succeeds exactly when each row does, and then yields each row's entry in order. */
  lemma {:induction false} EntriesSucceed(rows: seq<seq<string>>, schema: Schema)
    ensures Entries(rows, schema).Success? <==> forall i :: 0 <= i < |rows| ==> RowEntry(rows[i], schema).Success?
    ensures Entries(rows, schema).Success? ==> Entries(rows, schema).value == RowEntries(rows, schema)
    decreases |rows|
  {
    if |rows| > 0 {
      var init := rows[..|rows| - 1];
      EntriesSucceed(init, schema);
      assert forall i :: 0 <= i < |init| ==> init[i] == rows[i];
    }
  }

  /** A failed run reports the error of its first failing row. */
  lemma {:induction false} EntriesFailure(rows: seq<seq<string>>, schema: Schema) returns (k: nat)
    requires Entries(rows, schema).Failure?
    ensures k < |rows| && RowEntry(rows[k], schema) == Failure(Entries(rows, schema).error)
    ensures forall i :: 0 <= i < k ==> RowEntry(rows[i], schema).Success?
    decreases |rows|
  {
    var init := rows[..|rows| - 1];
    assert forall i :: 0 <= i < |init| ==> init[i] == rows[i];
    if Entries(init, schema).Failure? {
      k := EntriesFailure(init, schema);
    } else {
      k := |rows| - 1;
      EntriesSucceed(init, schema);
    }
  }

  /**
   * A file is parsed exactly when it has a header that resolves and every data row is
   * accepted; the tree is then every row's entry inserted into an empty root in file order.
   */
  lemma ParseSucceeds(rows: seq<seq<string>>)
    ensures Parse(rows).Success? <==>
      |rows| > 0 && ResolveHeader(rows[0]).Success? &&
      forall i :: 1 <= i < |rows| ==> RowEntry(rows[i], ResolveHeader(rows[0]).value).Success?
    ensures Parse(rows).Success? ==>
      Parse(rows).value == BuildTree(NewNode(), RowEntries(rows[1..], ResolveHeader(rows[0]).value))
  {
    if |rows| > 0 && ResolveHeader(rows[0]).Success? {
      var data := rows[1..];
      EntriesSucceed(data, ResolveHeader(rows[0]).value);
      assert forall i :: 1 <= i < |rows| ==> rows[i] == data[i - 1];
    }
  }

  /** A failed file reports the header's failure, or else the failure of its first bad data row. */
  lemma ParseFailure(rows: seq<seq<string>>) returns (k: nat)
    requires |rows| > 0 && ResolveHeader(rows[0]).Success? && Parse(rows).Failure?
    ensures 1 <= k < |rows|
    ensures RowEntry(rows[k], ResolveHeader(rows[0]).value) == Failure(Parse(rows).error)
    ensures forall i :: 1 <= i < k ==> RowEntry(rows[i], ResolveHeader(rows[0]).value).Success?
  {
    var data, schema := rows[1..], ResolveHeader(rows[0]).value;
    assert Entries(data, schema).Failure? && Parse(rows).error == Entries(data, schema).error;
    var j := EntriesFailure(data, schema);
    k := j + 1;
    assert rows[k] == data[j];
    forall i | 1 <= i < k ensures RowEntry(rows[i], schema).Success? {
      assert rows[i] == data[i - 1];
    }
  }

  /** A header followed by no data rows gives an empty root. */
  lemma ParseHeaderOnly(header: seq<string>)
    requires ResolveHeader(header).Success?
    ensures Parse([header]) == Success(NewNode())
  {
    assert [header][1..] == [];
  }

  /**
   * Order independence of the worker pool: when the rows' key paths are pairwise
   * compatible, inserting the accepted rows in any order gives the tree that
   * sequential parsing gives.
   */
  lemma ParseOrderIndependent(rows: seq<seq<string>>, schedule: seq<Entry>)
    requires Parse(rows).Success?
    requires multiset(schedule) == multiset(Entries(rows[1..], ResolveHeader(rows[0]).value).value)
    requires PairwiseCompatible(Entries(rows[1..], ResolveHeader(rows[0]).value).value)
    ensures BuildTree(NewNode(), schedule) == Parse(rows).value
  {
    BuildTreeOrderIndependent(NewNode(), Entries(rows[1..], ResolveHeader(rows[0]).value).value, schedule);
  }
}
