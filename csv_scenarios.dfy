/**
 * Concrete headers, rows and files: the cases of the parser's tests, and the
 * header names whose treatment follows from the code rather than from the schema
 * the system describes.
 */
module CsvScenarios {
  import opened Wrappers
  import opened Errors
  import opened Strconv
  import opened Domain
  import opened Csv
  import opened CsvProperties

  lemma SmallLevelNames()
    ensures LevelName(1) == "level_1" && LevelName(2) == "level_2" && LevelName(3) == "level_3"
  {
    assert Itoa(1) == "1" && Itoa(2) == "2" && Itoa(3) == "3";
  }

  /** A permutation of `item_id`, `level_1..level_k` resolves to the map of each name to its position. */
  lemma CanonicalSchema(columns: seq<string>, k: nat, expected: Schema)
    requires CanonicalHeader(columns, k)
    requires forall c :: c in expected <==> c in columns
    requires forall j :: 0 <= j < |columns| ==> expected[columns[j]] == j
    ensures ResolveHeader(columns) == Success(expected)
  {
    CanonicalHeaderAccepted(columns, k);
    ResolveHeaderPositions(columns);
    SamePositions(columns, ResolveHeader(columns).value, expected);
  }

  /** Two maps that both send every column to its position, and hold nothing else, are equal. */
  lemma SamePositions(columns: seq<string>, a: Schema, b: Schema)
    requires forall c :: c in a <==> c in columns
    requires forall j :: 0 <= j < |columns| ==> a[columns[j]] == j
    requires forall c :: c in b <==> c in columns
    requires forall j :: 0 <= j < |columns| ==> b[columns[j]] == j
    ensures a == b
  {
    forall c | c in a ensures a[c] == b[c] {
      var j :| 0 <= j < |columns| && columns[j] == c;
    }
  }

  /** An accepted case of the header test: exactly `level_1`, `level_2` and `item_id`. */
  lemma HeaderTestTwoLevels()
    ensures ResolveHeader(["level_1", "level_2", "item_id"])
      == Success(map["level_1" := 0, "level_2" := 1, "item_id" := 2])
  {
    SmallLevelNames();
    var h: seq<string> := ["level_1", "level_2", "item_id"];
    assert h[0] == LevelName(1) && h[1] == LevelName(2);
    assert h[0][6] != h[1][6] && h[0][0] != h[2][0] && h[1][0] != h[2][0];
    forall i | 1 <= i <= 2 ensures LevelName(i) in h {
      if i == 1 { assert LevelName(i) == h[0]; } else { assert LevelName(i) == h[1]; }
    }
    assert CanonicalHeader(h, 2);
    var expected := map["level_1" := 0, "level_2" := 1, "item_id" := 2];
    assert expected.Keys == {h[0], h[1], h[2]};
    CanonicalSchema(h, 2, expected);
  }

  /** An accepted case of the header test: three levels in order. */
  lemma HeaderTestThreeLevels()
    ensures ResolveHeader(["level_1", "level_2", "level_3", "item_id"])
      == Success(map["level_1" := 0, "level_2" := 1, "level_3" := 2, "item_id" := 3])
  {
    SmallLevelNames();
    var h: seq<string> := ["level_1", "level_2", "level_3", "item_id"];
    assert h[0] == LevelName(1) && h[1] == LevelName(2) && h[2] == LevelName(3);
    assert h[0][6] != h[1][6] && h[0][6] != h[2][6] && h[1][6] != h[2][6];
    assert h[0][0] != h[3][0] && h[1][0] != h[3][0] && h[2][0] != h[3][0];
    forall i | 1 <= i <= 3 ensures LevelName(i) in h {
      assert LevelName(i) == h[i - 1];
    }
    assert CanonicalHeader(h, 3);
    var expected := map["level_1" := 0, "level_2" := 1, "level_3" := 2, "item_id" := 3];
    assert expected.Keys == {h[0], h[1], h[2], h[3]};
    CanonicalSchema(h, 3, expected);
  }

  /** An accepted case of the header test: the columns in another order. */
  lemma HeaderTestAnyOrder()
    ensures ResolveHeader(["level_2", "level_3", "item_id", "level_1"])
      == Success(map["level_1" := 3, "level_2" := 0, "level_3" := 1, "item_id" := 2])
  {
    SmallLevelNames();
    var g: seq<string> := ["level_2", "level_3", "item_id", "level_1"];
    assert g[3] == LevelName(1) && g[0] == LevelName(2) && g[1] == LevelName(3);
    assert g[0][6] != g[1][6] && g[0][6] != g[3][6] && g[1][6] != g[3][6];
    assert g[2][0] != g[0][0] && g[2][0] != g[1][0] && g[2][0] != g[3][0];
    forall i | 1 <= i <= 3 ensures LevelName(i) in g {
      if i == 1 { assert LevelName(i) == g[3]; } else { assert LevelName(i) == g[i - 2]; }
    }
    assert CanonicalHeader(g, 3);
    var expected := map["level_1" := 3, "level_2" := 0, "level_3" := 1, "item_id" := 2];
    assert expected.Keys == {g[0], g[1], g[2], g[3]};
    CanonicalSchema(g, 3, expected);
  }

  /** A column that is neither `item_id` nor prefixed is unknown, though all required columns are present. */
  lemma HeaderTestUnknownColumn()
    ensures ResolveHeader(["level_1", "level_2", "item_id", "other_unknown_column"])
      == Failure(UnknownColumn("other_unknown_column"))
  {
    SmallLevelNames();
    ClassifyLevelName(1);
    ClassifyLevelName(2);
    var h: seq<string> := ["level_1", "level_2", "item_id", "other_unknown_column"];
    assert h[0] == LevelName(1) && h[1] == LevelName(2);
    assert Classify(h[0]) == LevelColumn(1) && Classify(h[1]) == LevelColumn(2);
    assert h[..1] == [h[0]] && h[..2] == [h[0], h[1]];
    assert Depths(h[..1]) == {1} by { assert h[..1][..0] == []; }
    assert ColumnError(h, 1).None? by { assert h[..2][..1] == h[..1]; }
    assert ColumnError(h, 2).None? by { assert h[0][0] != h[2][0] && h[1][0] != h[2][0]; }
    assert Classify(h[3]) == Unrecognised by {
      assert h[3][..|LevelPrefix|][0] == h[3][0] != LevelPrefix[0];
    }
    ColumnRejectedFirst(h, 3);
  }

  /** A level name given twice is reported under that name. */
  lemma HeaderTestReoccurringLevel()
    ensures ResolveHeader(["level_1", "level_2", "level_1"]) == Failure(ReoccurringColumn("level_1"))
  {
    SmallLevelNames();
    ClassifyLevelName(1);
    ClassifyLevelName(2);
    var h: seq<string> := ["level_1", "level_2", "level_1"];
    assert h[0] == LevelName(1) && h[1] == LevelName(2) && h[2] == LevelName(1);
    assert h[..1] == [h[0]] && h[..2] == [h[0], h[1]];
    assert Depths(h[..1]) == {1} by { assert h[..1][..0] == []; }
    assert Depths(h[..2]) == {1, 2} by { assert h[..2][..1] == h[..1]; }
    ColumnRejectedFirst(h, 2);
  }

  /** Without `level_1` the header is refused, even when deeper levels are present. */
  lemma HeaderTestMissingFirstLevel()
    ensures ResolveHeader(["level_2", "item_id"]) == Failure(MissingRequiredColumn("level_1"))
  {
    SmallLevelNames();
    ClassifyLevelName(2);
    FirstLevelIsLevelName();
    var h: seq<string> := ["level_2", "item_id"];
    assert h[0] == LevelName(2);
    assert h[..1] == [h[0]];
    assert h[0][0] != h[1][0];
    assert First(ColumnErrors(h)).None? by {
      assert ColumnErrors(h) == [None, None];
    }
    assert h[0][6] != FirstLevelColumn[6] && h[1][0] != FirstLevelColumn[0];
  }

  /** Without `item_id` the header is refused. */
  lemma HeaderTestMissingItemId()
    ensures ResolveHeader(["level_1"]) == Failure(MissingRequiredColumn("item_id"))
  {
    SmallLevelNames();
    ClassifyLevelName(1);
    var h: seq<string> := ["level_1"];
    assert h[0] == LevelName(1);
    assert First(ColumnErrors(h)).None? by {
      assert ColumnErrors(h) == [None];
    }
    assert h[0][0] != ItemIdColumn[0];
  }

  /** How the level parse reads the suffixes `0`, `-1`, `01` and `+2`. */
  lemma ClassifyQuirks()
    ensures Classify("level_0") == LevelColumn(0)
    ensures Classify("level_-1") == LevelColumn(-1)
    ensures Classify("level_01") == LevelColumn(1)
    ensures Classify("level_+2") == LevelColumn(2)
  {
    assert DigitsValue("0") == 0 by { assert "0"[..0] == ""; }
    assert DigitsValue("1") == 1 by { assert "1"[..0] == ""; }
    assert DigitsValue("01") == 1 by { assert "01"[..1] == "0"; }
    assert Atoi("0") == Some(0);
    assert Atoi("-1") == Some(-1) by { assert "-1"[1..] == "1"; }
    assert Atoi("01") == Some(1);
    assert "level_0"[..|LevelPrefix|] == LevelPrefix && "level_0"[|LevelPrefix|..] == "0";
    assert "level_-1"[..|LevelPrefix|] == LevelPrefix && "level_-1"[|LevelPrefix|..] == "-1";
    assert "level_01"[..|LevelPrefix|] == LevelPrefix && "level_01"[|LevelPrefix|..] == "01";
    assert DigitsValue("2") == 2 by { assert "2"[..0] == ""; }
    assert Atoi("+2") == Some(2) by { assert "+2"[1..] == "2"; }
    assert "level_+2"[..|LevelPrefix|] == LevelPrefix && "level_+2"[|LevelPrefix|..] == "+2";
  }

  /** The gap check only looks at depths above one, so `level_0` passes it. */
  lemma HeaderAcceptsLevelZero()
    ensures ResolveHeader(["level_0", "level_1", "item_id"]) == Success(map["level_0" := 0, "level_1" := 1, "item_id" := 2])
  {
    assert Classify("level_0") == LevelColumn(0) by { ClassifyQuirks(); }
    LowLevelHeader("level_0", 0);
    assert FirstLevelColumn == "level_1" && ItemIdColumn == "item_id";
  }

  /** A negative depth passes the gap check too. */
  lemma HeaderAcceptsNegativeLevel()
    ensures ResolveHeader(["level_-1", "level_1", "item_id"]).Success?
  {
    assert Classify("level_-1") == LevelColumn(-1) by { ClassifyQuirks(); }
    LowLevelHeader("level_-1", -1);
    assert FirstLevelColumn == "level_1" && ItemIdColumn == "item_id";
  }

  /** A level column of depth below one, then `level_1` and `item_id`, is accepted. */
  lemma LowLevelHeader(x: string, d: int)
    requires Classify(x) == LevelColumn(d) && d < 1
    ensures ResolveHeader([x, FirstLevelColumn, ItemIdColumn]) == Success(map[x := 0, FirstLevelColumn := 1, ItemIdColumn := 2])
  {
    var h := [x, FirstLevelColumn, ItemIdColumn];
    LowLevelColumns(x, d);
    assert !HasGap(Depths(h));
    assert ItemIdColumn in h && FirstLevelColumn in h;
    assert h[..2] == [x, FirstLevelColumn] && h[..2][..1] == [x] && h[..2][..1][..0] == [];
    assert Positions(h[..1]) == map[x := 0];
    assert Positions(h[..2]) == map[x := 0, FirstLevelColumn := 1];
    assert Positions(h) == map[x := 0, FirstLevelColumn := 1, ItemIdColumn := 2];
  }

  /** Every column of such a header is accepted, and the depths seen are `d` and 1. */
  lemma LowLevelColumns(x: string, d: int)
    requires Classify(x) == LevelColumn(d) && d < 1
    ensures First(ColumnErrors([x, FirstLevelColumn, ItemIdColumn])).None?
    ensures Depths([x, FirstLevelColumn, ItemIdColumn]) == {d, 1}
    ensures x != FirstLevelColumn && x != ItemIdColumn && FirstLevelColumn != ItemIdColumn
  {
    var h := [x, FirstLevelColumn, ItemIdColumn];
    assert Classify(FirstLevelColumn) == LevelColumn(1) by {
      FirstLevelIsLevelName();
      ClassifyLevelName(1);
    }
    assert FirstLevelColumn[0] != ItemIdColumn[0];
    assert h[..2] == [x, FirstLevelColumn] && h[..1] == [x] && h[..1][..0] == [];
    assert Depths(h[..1]) == {d};
    assert Depths(h[..2]) == {d, 1};
    assert ColumnError(h, 0) == None && ColumnError(h, 1) == None && ColumnError(h, 2) == None;
    assert ColumnErrors(h) == [None, None, None];
  }

  /** `level_01` is depth one, but it is not the name `level_1` the required-column check looks for. */
  lemma HeaderLeadingZeroNotFirstLevel()
    ensures ResolveHeader(["level_01", "item_id"]) == Failure(MissingRequiredColumn("level_1"))
  {
    SmallLevelNames();
    ClassifyQuirks();
    FirstLevelIsLevelName();
    var h: seq<string> := ["level_01", "item_id"];
    assert h[..1] == [h[0]];
    assert h[0][0] != h[1][0];
    assert First(ColumnErrors(h)).None? by {
      assert ColumnErrors(h) == [None, None];
    }
    assert |h[0]| != |FirstLevelColumn| && h[1][0] != FirstLevelColumn[0];
  }

  /** `level_01` after `level_1` repeats depth one. */
  lemma HeaderLeadingZeroReoccurs()
    ensures ResolveHeader(["level_1", "level_01", "item_id"]) == Failure(ReoccurringColumn("level_01"))
  {
    SmallLevelNames();
    ClassifyLevelName(1);
    ClassifyQuirks();
    var h: seq<string> := ["level_1", "level_01", "item_id"];
    assert h[0] == LevelName(1);
    assert h[..1] == [h[0]];
    assert Depths(h[..1]) == {1} by { assert h[..1][..0] == []; }
    ColumnRejectedFirst(h, 1);
  }

  // ---- Rows ----

  /** The schema of `level_1,level_2,item_id`. */
  const TwoLevelSchema: Schema := map["level_1" := 0, "level_2" := 1, "item_id" := 2]

  /** The schema of `level_1,level_2,level_3,item_id`. */
  const ThreeLevelSchema: Schema := map["level_1" := 0, "level_2" := 1, "level_3" := 2, "item_id" := 3]

  /** The schema of `level_3,level_1,level_2,item_id`. */
  const ShuffledSchema: Schema := map["level_1" := 1, "level_2" := 2, "level_3" := 0, "item_id" := 3]

  /** The schema of `level_0,level_1,item_id`. */
  const LevelZeroSchema: Schema := map["level_0" := 0, "level_1" := 1, "item_id" := 2]

  lemma TwoLevelSchemaFacts()
    ensures LevelCount(TwoLevelSchema) == 2
    ensures LevelName(1) in TwoLevelSchema && TwoLevelSchema[LevelName(1)] == 0
    ensures LevelName(2) in TwoLevelSchema && TwoLevelSchema[LevelName(2)] == 1
    ensures ItemIdColumn in TwoLevelSchema && TwoLevelSchema[ItemIdColumn] == 2
  {
    SmallLevelNames();
    var m := TwoLevelSchema;
    assert "level_1"[6] != "level_2"[6] && "level_1"[0] != "item_id"[0] && "level_2"[0] != "item_id"[0];
    assert |m| == 3;
  }

  lemma ThreeLevelSchemaFacts()
    ensures LevelCount(ThreeLevelSchema) == 3
    ensures LevelName(1) in ThreeLevelSchema && ThreeLevelSchema[LevelName(1)] == 0
    ensures LevelName(2) in ThreeLevelSchema && ThreeLevelSchema[LevelName(2)] == 1
    ensures LevelName(3) in ThreeLevelSchema && ThreeLevelSchema[LevelName(3)] == 2
    ensures ItemIdColumn in ThreeLevelSchema && ThreeLevelSchema[ItemIdColumn] == 3
  {
    SmallLevelNames();
    var m := ThreeLevelSchema;
    assert "level_1"[6] != "level_2"[6] && "level_1"[6] != "level_3"[6] && "level_2"[6] != "level_3"[6];
    assert "level_1"[0] != "item_id"[0] && "level_2"[0] != "item_id"[0] && "level_3"[0] != "item_id"[0];
    assert |m| == 4;
  }

  lemma ShuffledSchemaFacts()
    ensures LevelCount(ShuffledSchema) == 3
    ensures LevelName(1) in ShuffledSchema && ShuffledSchema[LevelName(1)] == 1
    ensures LevelName(2) in ShuffledSchema && ShuffledSchema[LevelName(2)] == 2
    ensures LevelName(3) in ShuffledSchema && ShuffledSchema[LevelName(3)] == 0
  {
    SmallLevelNames();
    var m := ShuffledSchema;
    assert "level_1"[6] != "level_2"[6] && "level_1"[6] != "level_3"[6] && "level_2"[6] != "level_3"[6];
    assert "level_1"[0] != "item_id"[0] && "level_2"[0] != "item_id"[0] && "level_3"[0] != "item_id"[0];
    assert |m| == 4;
  }

  /**
   * A schema resolved from `level_0,level_1,item_id` has three entries, so every row is
   * read for depths 1 and 2, and `level_2` is not in it: no row of such a file can be read.
   */
  lemma LevelZeroRejectsEveryRow(row: seq<string>)
    ensures HierarchyLevels(row, LevelZeroSchema).Failure?
  {
    SmallLevelNames();
    var m := LevelZeroSchema;
    assert "level_0"[6] != "level_1"[6] && "level_0"[0] != "item_id"[0] && "level_1"[0] != "item_id"[0];
    assert |m| == 3;
    assert "level_2"[6] != "level_0"[6] && "level_2"[6] != "level_1"[6] && "level_2"[0] != "item_id"[0];
    assert LevelErrors(row, m)[1] == LevelError(row, m, 2) == Some(InvalidIndex(LevelName(2)));
  }

  /** A file with a `level_0` column and at least one data row fails. */
  lemma LevelZeroFileFails(rows: seq<seq<string>>)
    requires |rows| > 1 && rows[0] == ["level_0", "level_1", "item_id"]
    ensures Parse(rows).Failure?
  {
    HeaderAcceptsLevelZero();
    LevelZeroRejectsEveryRow(rows[1]);
    assert rows[1..][0] == rows[1];
    EntriesSucceed(rows[1..], LevelZeroSchema);
  }

  /**
   * The error of a file with a `level_0` column and a data row is a short row or an
   * invalid index, neither of which the error package counts as a user error.
   */
  lemma LevelZeroFileError(rows: seq<seq<string>>)
    requires |rows| > 1 && rows[0] == ["level_0", "level_1", "item_id"]
    ensures Parse(rows).Failure? && !IsKnownUserError(Parse(rows).error)
  {
    LevelZeroFileFails(rows);
    assert ResolveHeader(rows[0]) == Success(LevelZeroSchema) by { HeaderAcceptsLevelZero(); }
    var k := ParseFailure(rows);
    LevelZeroRowError(rows[k]);
  }

  /** Under the `level_0` header every row fails with a short row or an invalid index. */
  lemma LevelZeroRowError(row: seq<string>)
    ensures HierarchyLevels(row, LevelZeroSchema).Failure?
    ensures !IsKnownUserError(HierarchyLevels(row, LevelZeroSchema).error)
  {
    LevelZeroRejectsEveryRow(row);
    var m := LevelZeroSchema;
    assert LevelCount(m) == 2 && LevelName(1) in m && m[LevelName(1)] == 1 && LevelName(2) !in m by {
      SmallLevelNames();
      assert "level_0"[6] != "level_1"[6] && "level_0"[0] != "item_id"[0] && "level_1"[0] != "item_id"[0];
      assert |m| == 3;
      assert "level_2"[6] != "level_0"[6] && "level_2"[6] != "level_1"[6] && "level_2"[0] != "item_id"[0];
    }
    var i := HierarchyLevelsFailure(row, m);
    assert i == 1 || i == 2;
  }

  /** Row test: a row holding its levels in header order. */
  lemma LevelsTestInOrder()
    ensures HierarchyLevels(["level_1", "level_2", "item_id"], TwoLevelSchema) == Success(["level_1", "level_2"])
  {
    TwoLevelSchemaFacts();
    var row: seq<string> := ["level_1", "level_2", "item_id"];
    var vals: seq<string> := ["level_1", "level_2"];
    assert LevelErrors(row, TwoLevelSchema) == [None, None];
    assert LevelValues(row, TwoLevelSchema) == vals;
    NonEmptyKeepsAll(vals);
  }

  /** Row test: levels found by name wherever the header put them. */
  lemma LevelsTestShuffled()
    ensures HierarchyLevels(["level_3", "level_1", "level_2", "item_id"], ShuffledSchema)
      == Success(["level_1", "level_2", "level_3"])
  {
    var row: seq<string> := ["level_3", "level_1", "level_2", "item_id"];
    var vals: seq<string> := ["level_1", "level_2", "level_3"];
    var errs := ShuffledErrors(row);
    assert forall i :: 0 <= i < |errs| ==> errs[i].None?;
    assert [row[1], row[2], row[0]] == vals;
    NonEmptyKeepsAll(vals);
  }

  /** The depth checks of a four-cell row under the shuffled schema, which reads depths 1, 2, 3 from cells 1, 2, 0. */
  lemma ShuffledErrors(row: seq<string>) returns (errs: seq<Option<Error>>)
    requires |row| == 4
    ensures errs == LevelErrors(row, ShuffledSchema) && |errs| == 3
    ensures errs[0] == None
    ensures errs[1] == if row[1] == "" && row[2] != "" then Some(MissingParentElement) else None
    ensures errs[2] == if row[2] == "" && row[0] != "" then Some(MissingParentElement) else None
    ensures LevelValues(row, ShuffledSchema) == [row[1], row[2], row[0]]
  {
    ShuffledSchemaFacts();
    errs := LevelErrors(row, ShuffledSchema);
    assert LevelValue(row, ShuffledSchema, 1) == row[1];
    assert LevelValue(row, ShuffledSchema, 2) == row[2];
    assert LevelValue(row, ShuffledSchema, 3) == row[0];
  }

  /** Row test: a row shorter than the position of `level_1`. */
  lemma LevelsTestShortRow()
    ensures HierarchyLevels(["some random data"], ShuffledSchema) == Failure(MissingRequiredValue("level_1"))
  {
    ShuffledSchemaFacts();
    SmallLevelNames();
    var row: seq<string> := ["some random data"];
    assert LevelErrors(row, ShuffledSchema)[0] == Some(MissingRequiredValue(LevelName(1)));
    FirstAt(LevelErrors(row, ShuffledSchema), 0);
  }

  /** Row test: a value under an empty parent. */
  lemma LevelsTestMissingParent()
    ensures HierarchyLevels(["level_1", "", "level_3", "item_id"], ThreeLevelSchema) == Failure(MissingParentElement)
  {
    ThreeLevelSchemaFacts();
    var row: seq<string> := ["level_1", "", "level_3", "item_id"];
    var errs := LevelErrors(row, ThreeLevelSchema);
    assert errs[0].None? && errs[1].None? && errs[2] == Some(MissingParentElement);
    FirstAt(errs, 2);
  }

  /** Per-row test: a row too short for `level_2` fails with that name. */
  lemma ParseRowTestShortRow()
    ensures RowEntry(["level_1"], TwoLevelSchema) == Failure(MissingRequiredValue("level_2"))
  {
    TwoLevelSchemaFacts();
    SmallLevelNames();
    var row: seq<string> := ["level_1"];
    var errs := LevelErrors(row, TwoLevelSchema);
    assert errs[0].None? && errs[1] == Some(MissingRequiredValue(LevelName(2)));
    FirstAt(errs, 1);
  }

  /** Per-row test: a full row becomes its path and its item id. */
  lemma ParseRowTestFullRow()
    ensures RowEntry(["level_1", "level_2", "item_id"], TwoLevelSchema) == Success(Entry(["level_1", "level_2"], "item_id"))
  {
    LevelsTestInOrder();
    TwoLevelSchemaFacts();
  }

  /** Per-row test: after the full row, the item sits under `level_1` then `level_2`. */
  lemma ParseRowTestBuildsItem()
    ensures RowEntry(["level_1", "level_2", "item_id"], TwoLevelSchema).Success?
    ensures Lookup(InsertEntry(NewNode(), RowEntry(["level_1", "level_2", "item_id"], TwoLevelSchema).value),
                   ["level_1", "level_2", "item_id"]) == Some(Leaf())
  {
    ParseRowTestFullRow();
    InsertReachesLeaf(NewNode(), ["level_1", "level_2"], "item_id");
    assert ["level_1", "level_2"] + ["item_id"] == ["level_1", "level_2", "item_id"];
  }

  // ---- Files ----

  const Header: seq<string> := ["level_1", "level_2", "level_3", "item_id"]

  lemma HeaderSchema()
    ensures ResolveHeader(Header) == Success(ThreeLevelSchema)
  {
    HeaderTestThreeLevels();
  }

  lemma {:induction false} NonEmptyKeepsAll(s: seq<string>)
    requires forall i :: 0 <= i < |s| ==> s[i] != ""
    ensures NonEmpty(s) == s
    decreases |s|
  {
    if |s| > 0 {
      NonEmptyKeepsAll(s[..|s| - 1]);
      assert s[..|s| - 1] + [s[|s| - 1]] == s;
    }
  }

  /**
   * Any four-cell row read under the three-level schema: it fails exactly when a
   * level is filled under an empty one, and otherwise yields its non-empty levels
   * and its last cell as the item id.
   */
  lemma ThreeLevelRow(row: seq<string>)
    requires |row| == 4
    ensures RowEntry(row, ThreeLevelSchema) ==
      if (row[0] == "" && row[1] != "") || (row[1] == "" && row[2] != "") then Failure(MissingParentElement)
      else Success(Entry(NonEmpty(row[..3]), row[3]))
  {
    ThreeLevelLevels(row);
    assert ItemIdColumn in ThreeLevelSchema && ThreeLevelSchema[ItemIdColumn] == 3 by {
      ThreeLevelSchemaFacts();
    }
  }

  /** The path read from a four-cell row under the three-level schema. */
  lemma ThreeLevelLevels(row: seq<string>)
    requires |row| == 4
    ensures HierarchyLevels(row, ThreeLevelSchema) ==
      if (row[0] == "" && row[1] != "") || (row[1] == "" && row[2] != "") then Failure(MissingParentElement)
      else Success(NonEmpty(row[..3]))
  {
    var errs := ThreeLevelErrors(row);
    ThreeLevelFirst(row, errs);
  }

  /** The first failing depth check of a four-cell row under the three-level schema. */
  lemma ThreeLevelFirst(row: seq<string>, errs: seq<Option<Error>>)
    requires |row| == 4 && |errs| == 3 && errs[0] == None
    requires errs[1] == if row[0] == "" && row[1] != "" then Some(MissingParentElement) else None
    requires errs[2] == if row[1] == "" && row[2] != "" then Some(MissingParentElement) else None
    ensures First(errs) ==
      if (row[0] == "" && row[1] != "") || (row[1] == "" && row[2] != "") then Some(MissingParentElement) else None
  {
    if row[0] == "" && row[1] != "" {
      FirstAt(errs, 1);
    } else if row[1] == "" && row[2] != "" {
      FirstAt(errs, 2);
    } else {
      assert forall i :: 0 <= i < |errs| ==> errs[i].None?;
    }
  }

  /** The depth checks of a four-cell row under the three-level schema, one per depth. */
  lemma ThreeLevelErrors(row: seq<string>) returns (errs: seq<Option<Error>>)
    requires |row| == 4
    ensures errs == LevelErrors(row, ThreeLevelSchema) && |errs| == 3
    ensures errs[0] == None
    ensures errs[1] == if row[0] == "" && row[1] != "" then Some(MissingParentElement) else None
    ensures errs[2] == if row[1] == "" && row[2] != "" then Some(MissingParentElement) else None
    ensures LevelValues(row, ThreeLevelSchema) == row[..3]
  {
    ThreeLevelSchemaFacts();
    errs := LevelErrors(row, ThreeLevelSchema);
    assert LevelValue(row, ThreeLevelSchema, 1) == row[0];
    assert LevelValue(row, ThreeLevelSchema, 2) == row[1];
    assert LevelValue(row, ThreeLevelSchema, 3) == row[2];
  }

  /** The result of a file whose every data row reads. */
  lemma ParseOfEntries(rows: seq<seq<string>>, schema: Schema, es: seq<Entry>)
    requires |rows| == |es| + 1 && ResolveHeader(rows[0]) == Success(schema)
    requires forall i :: 0 <= i < |es| ==> RowEntry(rows[i + 1], schema) == Success(es[i])
    ensures Parse(rows) == Success(BuildTree(NewNode(), es))
  {
    var data := rows[1..];
    forall i | 0 <= i < |data| ensures RowEntry(data[i], schema) == Success(es[i]) {
      assert data[i] == rows[i + 1];
    }
    EntriesSucceed(data, schema);
    assert RowEntries(data, schema) == es;
  }

  /** A header and two data rows that read: the tree of the two entries, in file order. */
  lemma ParseOfTwoRows(h: seq<string>, r1: seq<string>, r2: seq<string>, schema: Schema, e1: Entry, e2: Entry)
    requires ResolveHeader(h) == Success(schema)
    requires RowEntry(r1, schema) == Success(e1) && RowEntry(r2, schema) == Success(e2)
    ensures Parse([h, r1, r2]) == Success(BuildTree(NewNode(), [e1, e2]))
  {
    ParseOfEntries([h, r1, r2], schema, [e1, e2]);
  }

  /** The result of a file whose data row `k` is the first that fails. */
  lemma ParseOfFailingRow(rows: seq<seq<string>>, schema: Schema, k: nat, e: Error)
    requires 1 <= k < |rows| && ResolveHeader(rows[0]) == Success(schema)
    requires forall i :: 1 <= i < k ==> RowEntry(rows[i], schema).Success?
    requires RowEntry(rows[k], schema) == Failure(e)
    ensures Parse(rows) == Failure(e)
  {
    var data := rows[1..];
    var j := k - 1;
    forall i | 0 <= i < j ensures RowEntry(data[..j][i], schema).Success? {
      assert data[..j][i] == rows[i + 1];
    }
    EntriesSucceed(data[..j], schema);
    assert data[j] == rows[k];
    EntriesExtend(data, schema, j);
    EntriesFailurePersists(data, schema, j + 1);
  }

  /** A row whose levels are all empty yields the empty path: its item lands under the root. */
  lemma AllEmptyLevelsRow(itemId: string)
    ensures RowEntry(["", "", "", itemId], ThreeLevelSchema) == Success(Entry([], itemId))
  {
    var row: seq<string> := ["", "", "", itemId];
    ThreeLevelRow(row);
    var vals := row[..3];
    assert vals[..2][..1][..0] == [];
    assert NonEmpty(vals[..2][..1]) == [];
    assert NonEmpty(vals[..2]) == [];
    assert NonEmpty(vals) == [];
  }
  /** A four-cell row whose three levels are all filled keeps them all, whatever its item cell holds, even nothing. */
  lemma FilledRow(a: string, b: string, c: string, id: string)
    requires a != "" && b != "" && c != ""
    ensures RowEntry([a, b, c, id], ThreeLevelSchema) == Success(Entry([a, b, c], id))
  {
    var r: seq<string> := [a, b, c, id];
    ThreeLevelRow(r);
    assert r[..3] == [a, b, c];
    NonEmptyKeepsAll([a, b, c]);
  }


  /** The second row of the parsing test's valid file: a trailing empty level is dropped. */
  lemma SecondValidRow()
    ensures RowEntry(["1", "13", "", "32622917"], ThreeLevelSchema) == Success(Entry(["1", "13"], "32622917"))
  {
    var r: seq<string> := ["1", "13", "", "32622917"];
    ThreeLevelRow(r);
    var vals := r[..3];
    assert vals[..2] == ["1", "13"];
    NonEmptyKeepsAll(vals[..2]);
    assert NonEmpty(vals) == NonEmpty(vals[..2]);
  }

  /** The tree the two entries of the parsing test's valid file build. */
  lemma ValidFileTree()
    ensures BuildTree(NewNode(), [Entry(["1", "12", "103"], "12507622"), Entry(["1", "13"], "32622917")])
      == Node(false, map["1" := Node(false, map[
           "12" := Node(false, map["103" := Node(false, map["12507622" := Leaf()])]),
           "13" := Node(false, map["32622917" := Leaf()])])])
  {
    var e1 := Entry(["1", "12", "103"], "12507622");
    var e2 := Entry(["1", "13"], "32622917");
    assert [e1, e2][..1] == [e1] && [e1][..0] == [];
    var p1 := e1.levels;
    assert p1[1..] == ["12", "103"] && p1[1..][1..] == ["103"] && p1[1..][1..][1..] == [];
    var n103 := Node(false, map["103" := Node(false, map["12507622" := Leaf()])]);
    var t1 := Node(false, map["1" := Node(false, map["12" := n103])]);
    assert BuildTree(NewNode(), [e1]) == t1;
    assert e2.levels[1..] == ["13"] && e2.levels[1..][1..] == [];
    assert "12" != "13" by { assert "12"[1] != "13"[1]; }
  }

  /** The file of the parsing test builds root → "1" → {"12" → "103" → "12507622", "13" → "32622917"}. */
  lemma ValidFileScenario()
    ensures Parse([Header, ["1", "12", "103", "12507622"], ["1", "13", "", "32622917"]])
      == Success(Node(false, map["1" := Node(false, map[
           "12" := Node(false, map["103" := Node(false, map["12507622" := Leaf()])]),
           "13" := Node(false, map["32622917" := Leaf()])])]))
  {
    HeaderSchema();
    FilledRow("1", "12", "103", "12507622");
    SecondValidRow();
    ValidFileTree();
    ParseOfTwoRows(Header, ["1", "12", "103", "12507622"], ["1", "13", "", "32622917"], ThreeLevelSchema,
                   Entry(["1", "12", "103"], "12507622"), Entry(["1", "13"], "32622917"));
  }

  /** A value under an empty parent, as in the `1,,103` and `,,103` rows of the parsing test. */
  lemma EmptyParentRows()
    ensures RowEntry(["1", "", "103", "12507622"], ThreeLevelSchema) == Failure(MissingParentElement)
    ensures RowEntry(["", "", "103", "12507622"], ThreeLevelSchema) == Failure(MissingParentElement)
  {
    ThreeLevelRow(["1", "", "103", "12507622"]);
    ThreeLevelRow(["", "", "103", "12507622"]);
  }

  /**
   * The rejected files of the parsing test. The code reports a value under an empty
   * parent for the `,,103` row as well, not a missing `level_1`.
   */
  lemma FileTestEmptyParent()
    ensures Parse([Header, ["1", "", "103", "12507622"], ["1", "", "", "32622917"]]) == Failure(MissingParentElement)
    ensures Parse([Header, ["", "", "103", "12507622"], ["1", "2", "3", "32622917"]]) == Failure(MissingParentElement)
  {
    HeaderSchema();
    EmptyParentRows();
    ParseOfFailingRow([Header, ["1", "", "103", "12507622"], ["1", "", "", "32622917"]], ThreeLevelSchema, 1, MissingParentElement);
    ParseOfFailingRow([Header, ["", "", "103", "12507622"], ["1", "2", "3", "32622917"]], ThreeLevelSchema, 1, MissingParentElement);
  }

  /** The empty item id becomes a leaf beside `103` under `1` then `2`. */
  lemma EmptyItemIdTree()
    ensures BuildTree(NewNode(), [Entry(["1", "2", "103"], "12507622"), Entry(["1", "2", "3"], "")])
      == Node(false, map["1" := Node(false, map["2" := Node(false, map[
           "103" := Node(false, map["12507622" := Leaf()]),
           "3" := Node(false, map["" := Leaf()])])])])
  {
    var e1 := Entry(["1", "2", "103"], "12507622");
    var e2 := Entry(["1", "2", "3"], "");
    assert [e1, e2][..1] == [e1] && [e1][..0] == [];
    assert e1.levels[1..] == ["2", "103"] && e1.levels[1..][1..] == ["103"] && e1.levels[1..][1..][1..] == [];
    var n2 := Node(false, map["103" := Node(false, map["12507622" := Leaf()])]);
    var t1 := Node(false, map["1" := Node(false, map["2" := n2])]);
    assert BuildTree(NewNode(), [e1]) == t1;
    assert e2.levels[1..] == ["2", "3"] && e2.levels[1..][1..] == ["3"] && e2.levels[1..][1..][1..] == [];
    assert "103" != "3";
    var m3 := Node(false, map["" := Leaf()]);
    assert Insert(n2, ["3"], "") == Node(false, n2.children["3" := m3]);
    assert n2.children["3" := m3] == map["103" := Node(false, map["12507622" := Leaf()]), "3" := m3];
    var n1 := t1.children["1"];
    assert Child(t1, "1") == n1 && Child(n1, "2") == n2 && Child(n2, "3") == NewNode();
    var m2 := Node(false, map["103" := Node(false, map["12507622" := Leaf()]), "3" := m3]);
    assert Insert(n1, ["2", "3"], "") == Node(false, map["2" := m2]);
    assert Insert(t1, e2.levels, "") == Node(false, map["1" := Node(false, map["2" := m2])]);
    assert BuildTree(NewNode(), [e1, e2]) == Insert(t1, e2.levels, "");
  }

  /** The parsing test's file whose last row has an empty `item_id` cell parses, with that empty id as a leaf. */
  lemma FileTestEmptyItemId()
    ensures Parse([Header, ["1", "2", "103", "12507622"], ["1", "2", "3", ""]])
      == Success(Node(false, map["1" := Node(false, map["2" := Node(false, map[
           "103" := Node(false, map["12507622" := Leaf()]),
           "3" := Node(false, map["" := Leaf()])])])]))
  {
    HeaderSchema();
    FilledRow("1", "2", "103", "12507622");
    FilledRow("1", "2", "3", "");
    EmptyItemIdTree();
    ParseOfTwoRows(Header, ["1", "2", "103", "12507622"], ["1", "2", "3", ""], ThreeLevelSchema,
                   Entry(["1", "2", "103"], "12507622"), Entry(["1", "2", "3"], ""));
  }
}
