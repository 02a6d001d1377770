/**
 * The per-batch part of an upsert in the current output collector
 * (SqlAsyncCollector.cs): which rows of a batch are sent (the last row
 * per primary key), the OPENJSON data query, the POCO properties that are
 * serialized and in which order, and the properties the table lacks.
 */
module MergeData {
  import opened Common
  import opened Upsert
  import BindingUtilities

  /** A POCO row: each property's value as ToString gives it, `None` for null. */
  type PocoRow = map<string, Option<string>>

  function KeyValue(row: PocoRow, field: string): Option<string>
  {
    if field in row then row[field] else None
  }

  /** The combined primary key: the texts of the non-null key values run together, with no separator. */
  function CombinedKey(row: PocoRow, fields: seq<string>): string
    decreases |fields|
  {
    if |fields| == 0 then ""
    else
      var value := KeyValue(row, fields[|fields| - 1]);
      CombinedKey(row, fields[..|fields| - 1]) + (if value.Some? then value.value else "")
  }

  /** The combined key's StringBuilder loop. */
  method CombinePrimaryKey(row: PocoRow, fields: seq<string>) returns (key: string)
    ensures key == CombinedKey(row, fields)
  {
    key := "";
    var i := 0;
    while i < |fields|
      invariant 0 <= i <= |fields|
      invariant key == CombinedKey(row, fields[..i])
    {
      assert fields[..i + 1][..i] == fields[..i];
      var value := KeyValue(row, fields[i]);
      if value.Some? {
        key := key + value.value;
      }
      i := i + 1;
    }
    assert fields[..i] == fields;
  }

  /** What the HashSet compares: the combined key under the table's comparer. */
  function UpsertKey(table: TableInformation, row: PocoRow): string
  {
    NameKey(table.caseSensitive, CombinedKey(row, table.primaryKeys))
  }

  function UpsertKeys(table: TableInformation, rows: seq<PocoRow>): (keys: seq<string>)
    ensures |keys| == |rows| && forall j :: 0 <= j < |rows| ==> keys[j] == UpsertKey(table, rows[j])
  {
    seq(|rows|, j requires 0 <= j < |rows| => UpsertKey(table, rows[j]))
  }

  // ---------------------------------------------------------------------
  // Keeping the last row per key

  /**
   * The positions from i on that the reversed scan keeps, in the order it
   * keeps them: a position is kept when no later position has its key.
   */
  function KeptFrom<K(==)>(keys: seq<K>, i: nat): (r: seq<nat>)
    requires i <= |keys|
    ensures forall a :: 0 <= a < |r| ==> i <= r[a] < |keys|
    decreases |keys| - i
  {
    if i == |keys| then []
    else KeptFrom(keys, i + 1) + (if keys[i] in keys[i + 1..] then [] else [i])
  }

  /** No position after p holds the key at p. */
  ghost predicate LastAt<K>(keys: seq<K>, p: nat)
    requires p < |keys|
  {
    forall m :: p < m < |keys| ==> keys[m] != keys[p]
  }

  /** The scan's membership test is the last-occurrence test. */
  lemma NotLaterIsLast<K>(keys: seq<K>, p: nat)
    requires p < |keys|
    ensures keys[p] !in keys[p + 1..] <==> LastAt(keys, p)
  {
    if !LastAt(keys, p) {
      var m :| p < m < |keys| && keys[m] == keys[p];
      assert keys[p + 1..][m - p - 1] == keys[m];
    }
  }

  /** A kept position is the last occurrence of its key. */
  lemma {:induction false} KeptAreLast<K>(keys: seq<K>, i: nat)
    requires i <= |keys|
    ensures forall a :: 0 <= a < |KeptFrom(keys, i)| ==> LastAt(keys, KeptFrom(keys, i)[a])
    decreases |keys| - i
  {
    if i < |keys| {
      KeptAreLast(keys, i + 1);
      var rest := KeptFrom(keys, i + 1);
      var r := KeptFrom(keys, i);
      assert r == rest + (if keys[i] in keys[i + 1..] then [] else [i]);
      NotLaterIsLast(keys, i);
      assert forall a :: 0 <= a < |rest| ==> r[a] == rest[a];
    }
  }

  /** The reversed scan keeps positions in decreasing order. */
  lemma {:induction false} KeptDescending<K>(keys: seq<K>, i: nat)
    requires i <= |keys|
    ensures forall a, b :: 0 <= a < b < |KeptFrom(keys, i)| ==> KeptFrom(keys, i)[a] > KeptFrom(keys, i)[b]
    decreases |keys| - i
  {
    if i < |keys| {
      KeptDescending(keys, i + 1);
      var rest := KeptFrom(keys, i + 1);
      var r := KeptFrom(keys, i);
      assert r == rest + (if keys[i] in keys[i + 1..] then [] else [i]);
    }
  }

  /** Some kept position among `kept` holds the key at m. */
  ghost predicate Covered<K>(keys: seq<K>, kept: seq<nat>, m: nat)
    requires m < |keys|
    requires forall a :: 0 <= a < |kept| ==> kept[a] < |keys|
  {
    exists a :: 0 <= a < |kept| && keys[kept[a]] == keys[m]
  }

  /** Every key from position i on has a kept position. */
  lemma {:induction false} KeptCover<K>(keys: seq<K>, i: nat)
    requires i <= |keys|
    ensures forall m :: i <= m < |keys| ==> Covered(keys, KeptFrom(keys, i), m)
    decreases |keys| - i
  {
    if i < |keys| {
      KeptCover(keys, i + 1);
      var rest := KeptFrom(keys, i + 1);
      var r := KeptFrom(keys, i);
      assert r == rest + (if keys[i] in keys[i + 1..] then [] else [i]);
      forall m | i <= m < |keys|
        ensures Covered(keys, r, m)
      {
        var n := m;
        if m == i && keys[i] in keys[i + 1..] {
          NotLaterIsLast(keys, i);
          n :| i < n < |keys| && keys[n] == keys[i];
        }
        if n > i {
          assert Covered(keys, rest, n);
          var a :| 0 <= a < |rest| && keys[rest[a]] == keys[n];
          assert r[a] == rest[a];
        } else {
          assert r[|rest|] == i;
        }
      }
    }
  }

  /** The kept positions hold pairwise different keys. */
  lemma KeptKeysDistinct<K>(keys: seq<K>, i: nat)
    requires i <= |keys|
    ensures forall a, b :: 0 <= a < b < |KeptFrom(keys, i)| ==> keys[KeptFrom(keys, i)[a]] != keys[KeptFrom(keys, i)[b]]
  {
    KeptAreLast(keys, i);
    KeptDescending(keys, i);
    var r := KeptFrom(keys, i);
    forall a, b | 0 <= a < b < |r|
      ensures keys[r[a]] != keys[r[b]]
    {
      assert LastAt(keys, r[b]) && r[b] < r[a];
    }
  }

  function Pick(rows: seq<PocoRow>, positions: seq<nat>): (r: seq<PocoRow>)
    requires forall a :: 0 <= a < |positions| ==> positions[a] < |rows|
    ensures |r| == |positions| && forall a :: 0 <= a < |r| ==> r[a] == rows[positions[a]]
  {
    seq(|positions|, a requires 0 <= a < |positions| => rows[positions[a]])
  }

  /** The scan starts from the last position, which no later key can shadow. */
  lemma {:induction false} KeptStartsWithLast<K>(keys: seq<K>, i: nat)
    requires i <= |keys|
    ensures i < |keys| ==> |KeptFrom(keys, i)| > 0 && KeptFrom(keys, i)[0] == |keys| - 1
    decreases |keys| - i
  {
    if i == |keys| {
    } else if i + 1 < |keys| {
      KeptStartsWithLast(keys, i + 1);
    } else {
      assert keys[i + 1..] == [];
    }
  }

  /**
   * The rows GenerateDataQueryForMerge sends, from its reversed scan: rows
   * of the batch, nothing for an empty batch, and otherwise first of all the
   * batch's last row.
   */
  function RowsToUpsert(table: TableInformation, rows: seq<PocoRow>): (r: seq<PocoRow>)
    ensures forall a :: 0 <= a < |r| ==> r[a] in rows
    ensures |rows| == 0 ==> r == []
    ensures |rows| > 0 ==> |r| > 0 && r[0] == rows[|rows| - 1]
  {
    var keys := UpsertKeys(table, rows);
    KeptStartsWithLast(keys, 0);
    Pick(rows, KeptFrom(keys, 0))
  }

  /** The rows sent have pairwise different keys under the table's comparer. */
  lemma UpsertKeysDistinct(table: TableInformation, rows: seq<PocoRow>)
    ensures var kept := RowsToUpsert(table, rows);
      forall a, b :: 0 <= a < b < |kept| ==> UpsertKey(table, kept[a]) != UpsertKey(table, kept[b])
  {
    var keys := UpsertKeys(table, rows);
    var r := KeptFrom(keys, 0);
    KeptKeysDistinct(keys, 0);
    assert forall a :: 0 <= a < |r| ==> UpsertKey(table, RowsToUpsert(table, rows)[a]) == keys[r[a]];
  }

  /** Every key of the batch is the key of a row sent. */
  lemma UpsertCoversEveryKey(table: TableInformation, rows: seq<PocoRow>)
    ensures var kept := RowsToUpsert(table, rows);
      forall j :: 0 <= j < |rows| ==> exists a :: 0 <= a < |kept| && UpsertKey(table, kept[a]) == UpsertKey(table, rows[j])
  {
    var keys := UpsertKeys(table, rows);
    var r := KeptFrom(keys, 0);
    var kept := RowsToUpsert(table, rows);
    KeptCover(keys, 0);
    forall j | 0 <= j < |rows|
      ensures exists a :: 0 <= a < |kept| && UpsertKey(table, kept[a]) == UpsertKey(table, rows[j])
    {
      assert Covered(keys, r, j);
      var a :| 0 <= a < |r| && keys[r[a]] == keys[j];
      assert UpsertKey(table, kept[a]) == keys[r[a]];
    }
  }

  /** Each row sent is the last row of the batch with its key, and the rows sent are in reverse batch order. */
  lemma UpsertKeepsLastRow(table: TableInformation, rows: seq<PocoRow>)
    ensures var kept := RowsToUpsert(table, rows);
      var positions := KeptFrom(UpsertKeys(table, rows), 0);
      (forall a :: 0 <= a < |kept| ==> kept[a] == rows[positions[a]]) &&
      (forall a, b :: 0 <= a < b < |kept| ==> positions[a] > positions[b]) &&
      (forall a, m :: 0 <= a < |kept| && positions[a] < m < |rows| ==>
         UpsertKey(table, rows[m]) != UpsertKey(table, kept[a]))
  {
    var keys := UpsertKeys(table, rows);
    var r := KeptFrom(keys, 0);
    KeptAreLast(keys, 0);
    KeptDescending(keys, 0);
    forall a, m | 0 <= a < |r| && r[a] < m < |rows|
      ensures UpsertKey(table, rows[m]) != UpsertKey(table, RowsToUpsert(table, rows)[a])
    {
      assert LastAt(keys, r[a]);
      assert keys[m] != keys[r[a]];
    }
  }

  // ---------------------------------------------------------------------
  // Combined keys without a separator

  const CollidingTable := TableInformation(["Id", "Code"], [], true, InsertQuery(""))
  const FirstRow: PocoRow := map["Id" := Some("1"), "Code" := Some("23")]
  const SecondRow: PocoRow := map["Id" := Some("12"), "Code" := Some("3")]

  /**
   * Two rows with different primary keys, (1, "23") and (12, "3"), both
   * combine to "123", so the batch loses its first row.
   */
  lemma CompositeKeysCollide()
    ensures UpsertKey(CollidingTable, FirstRow) == UpsertKey(CollidingTable, SecondRow)
    ensures RowsToUpsert(CollidingTable, [FirstRow, SecondRow]) == [SecondRow]
  {
    var keys := UpsertKeys(CollidingTable, [FirstRow, SecondRow]);
    var fields := CollidingTable.primaryKeys;
    assert fields[..1] == ["Id"] && ["Id"][..0] == [];
    assert CombinedKey(FirstRow, ["Id"]) == "1";
    assert CombinedKey(SecondRow, ["Id"]) == "12";
    assert CombinedKey(FirstRow, fields) == "123";
    assert CombinedKey(SecondRow, fields) == "123";
    assert keys == ["123", "123"];
    assert keys[1..] == ["123"];
    assert KeptFrom(keys, 2) == [];
    assert KeptFrom(keys, 1) == [1];
    assert KeptFrom(keys, 0) == [1];
  }

  /** A key value under the table's comparer; null stays null. */
  function ValueKey(caseSensitive: bool, value: Option<string>): Option<string>
  {
    if value.Some? then Some(NameKey(caseSensitive, value.value)) else None
  }

  /** The primary key compared value by value, as evidently intended. */
  function KeyTuple(table: TableInformation, row: PocoRow): (t: seq<Option<string>>)
    ensures |t| == |table.primaryKeys|
    ensures forall i :: 0 <= i < |t| ==> t[i] == ValueKey(table.caseSensitive, KeyValue(row, table.primaryKeys[i]))
  {
    seq(|table.primaryKeys|, i requires 0 <= i < |table.primaryKeys| =>
      ValueKey(table.caseSensitive, KeyValue(row, table.primaryKeys[i])))
  }

  function KeyTuples(table: TableInformation, rows: seq<PocoRow>): (keys: seq<seq<Option<string>>>)
    ensures |keys| == |rows| && forall j :: 0 <= j < |rows| ==> keys[j] == KeyTuple(table, rows[j])
  {
    seq(|rows|, j requires 0 <= j < |rows| => KeyTuple(table, rows[j]))
  }

  /**
   * The corrected scan: the last row per primary key, comparing key tuples;
   * like the scan as written, it sends rows of the batch, starting from its last.
   */
  function RowsToUpsertByKeyTuple(table: TableInformation, rows: seq<PocoRow>): (r: seq<PocoRow>)
    ensures forall a :: 0 <= a < |r| ==> r[a] in rows
    ensures |rows| == 0 ==> r == []
    ensures |rows| > 0 ==> |r| > 0 && r[0] == rows[|rows| - 1]
  {
    var keys := KeyTuples(table, rows);
    KeptStartsWithLast(keys, 0);
    Pick(rows, KeptFrom(keys, 0))
  }

  /** The combined key's case folding is the folding of its pieces. */
  lemma NameKeyAppend(caseSensitive: bool, a: string, b: string)
    ensures NameKey(caseSensitive, a + b) == NameKey(caseSensitive, a) + NameKey(caseSensitive, b)
  {
    if !caseSensitive {
      var l := ToLower(a + b);
      assert forall i :: 0 <= i < |a| ==> l[i] == ToLowerChar(a[i]);
      assert forall i :: |a| <= i < |l| ==> l[i] == ToLowerChar(b[i - |a|]);
    }
  }

  /** Rows whose key values agree under the comparer have the same combined key. */
  lemma {:induction false} SameValuesSameCombinedKey(caseSensitive: bool, r1: PocoRow, r2: PocoRow, fields: seq<string>)
    requires forall i :: 0 <= i < |fields| ==>
      ValueKey(caseSensitive, KeyValue(r1, fields[i])) == ValueKey(caseSensitive, KeyValue(r2, fields[i]))
    ensures NameKey(caseSensitive, CombinedKey(r1, fields)) == NameKey(caseSensitive, CombinedKey(r2, fields))
    decreases |fields|
  {
    if |fields| > 0 {
      var n := |fields| - 1;
      var init := fields[..n];
      assert forall i :: 0 <= i < |init| ==> init[i] == fields[i];
      SameValuesSameCombinedKey(caseSensitive, r1, r2, init);
      var v1 := KeyValue(r1, fields[n]);
      var v2 := KeyValue(r2, fields[n]);
      var t1 := if v1.Some? then v1.value else "";
      var t2 := if v2.Some? then v2.value else "";
      assert ValueKey(caseSensitive, v1) == ValueKey(caseSensitive, v2);
      assert NameKey(caseSensitive, t1) == NameKey(caseSensitive, t2);
      NameKeyAppend(caseSensitive, CombinedKey(r1, init), t1);
      NameKeyAppend(caseSensitive, CombinedKey(r2, init), t2);
    }
  }

  /** Comparing tuples never merges two rows that the combined key keeps apart. */
  lemma KeyTupleRefinesCombinedKey(table: TableInformation, r1: PocoRow, r2: PocoRow)
    ensures KeyTuple(table, r1) == KeyTuple(table, r2) ==> UpsertKey(table, r1) == UpsertKey(table, r2)
  {
    if KeyTuple(table, r1) == KeyTuple(table, r2) {
      SameValuesSameCombinedKey(table.caseSensitive, r1, r2, table.primaryKeys);
    }
  }

  /** When no two keys repeat, the scan keeps every position. */
  lemma {:induction false} DistinctKeysAllKept<K>(keys: seq<K>, i: nat)
    requires i <= |keys| && Distinct(keys)
    ensures |KeptFrom(keys, i)| == |keys| - i
    decreases |keys| - i
  {
    if i < |keys| {
      DistinctKeysAllKept(keys, i + 1);
      assert LastAt(keys, i);
      NotLaterIsLast(keys, i);
    }
  }

  /** With the corrected comparison, rows with different primary keys are all sent. */
  lemma DistinctTuplesAllSent(table: TableInformation, rows: seq<PocoRow>)
    requires forall a, b :: 0 <= a < b < |rows| ==> KeyTuple(table, rows[a]) != KeyTuple(table, rows[b])
    ensures |RowsToUpsertByKeyTuple(table, rows)| == |rows|
  {
    DistinctKeysAllKept(KeyTuples(table, rows), 0);
  }

  /** The corrected comparison also keeps one row per key: the last. */
  lemma ByKeyTupleKeepsLastRow(table: TableInformation, rows: seq<PocoRow>)
    ensures var kept := RowsToUpsertByKeyTuple(table, rows);
      (forall a, b :: 0 <= a < b < |kept| ==> KeyTuple(table, kept[a]) != KeyTuple(table, kept[b])) &&
      (forall j :: 0 <= j < |rows| ==> exists a :: 0 <= a < |kept| && KeyTuple(table, kept[a]) == KeyTuple(table, rows[j]))
  {
    var kept := RowsToUpsertByKeyTuple(table, rows);
    ByKeyTupleDistinct(table, rows);
    assert forall a, b :: 0 <= a < b < |kept| ==> KeyTuple(table, kept[a]) != KeyTuple(table, kept[b]);
    ByKeyTupleCovers(table, rows);
    assert forall j :: 0 <= j < |rows| ==> exists a :: 0 <= a < |kept| && KeyTuple(table, kept[a]) == KeyTuple(table, rows[j]);
  }

  /** The rows kept by key tuple have pairwise different tuples. */
  lemma ByKeyTupleDistinct(table: TableInformation, rows: seq<PocoRow>)
    ensures var kept := RowsToUpsertByKeyTuple(table, rows);
      forall a, b :: 0 <= a < b < |kept| ==> KeyTuple(table, kept[a]) != KeyTuple(table, kept[b])
  {
    var keys := KeyTuples(table, rows);
    var r := KeptFrom(keys, 0);
    var kept := RowsToUpsertByKeyTuple(table, rows);
    KeptKeysDistinct(keys, 0);
    assert forall a :: 0 <= a < |r| ==> KeyTuple(table, kept[a]) == keys[r[a]];
  }

  /** Every key tuple of the batch is the tuple of a row kept. */
  lemma ByKeyTupleCovers(table: TableInformation, rows: seq<PocoRow>)
    ensures var kept := RowsToUpsertByKeyTuple(table, rows);
      forall j :: 0 <= j < |rows| ==> exists a :: 0 <= a < |kept| && KeyTuple(table, kept[a]) == KeyTuple(table, rows[j])
  {
    var keys := KeyTuples(table, rows);
    var r := KeptFrom(keys, 0);
    var kept := RowsToUpsertByKeyTuple(table, rows);
    KeptCover(keys, 0);
    forall j | 0 <= j < |rows|
      ensures exists a :: 0 <= a < |kept| && KeyTuple(table, kept[a]) == KeyTuple(table, rows[j])
    {
      assert Covered(keys, r, j);
      var a :| 0 <= a < |r| && keys[r[a]] == keys[j];
      assert KeyTuple(table, kept[a]) == keys[r[a]];
    }
  }

  /** The two rows of CompositeKeysCollide are both sent under the corrected comparison. */
  lemma CompositeKeysKeptApart()
    ensures RowsToUpsertByKeyTuple(CollidingTable, [FirstRow, SecondRow]) == [SecondRow, FirstRow]
  {
    var t1 := KeyTuple(CollidingTable, FirstRow);
    var t2 := KeyTuple(CollidingTable, SecondRow);
    assert t1[0] == Some("1") && t2[0] == Some("12");
    var keys := KeyTuples(CollidingTable, [FirstRow, SecondRow]);
    assert keys == [t1, t2];
    assert keys[1..] == [t2] && keys[2..] == [];
    assert KeptFrom(keys, 1) == [1];
    assert KeptFrom(keys, 0) == [1, 0];
  }

  // ---------------------------------------------------------------------
  // The data query

  /** The table's columns that are POCO properties under the table's comparer, in column order. */
  function PocoColumns(caseSensitive: bool, columns: seq<Column>, properties: seq<string>): (r: seq<Column>)
    ensures |r| <= |columns|
    ensures forall c :: c in r <==> c in columns && Named(caseSensitive, properties, c.name)
    decreases |columns|
  {
    if |columns| == 0 then []
    else
      var rest := PocoColumns(caseSensitive, columns[1..], properties);
      assert forall c :: c in columns <==> c == columns[0] || c in columns[1..];
      (if Named(caseSensitive, properties, columns[0].name) then [columns[0]] else []) + rest
  }

  function ColumnDefinitions(columns: seq<Column>): (r: seq<string>)
    ensures |r| == |columns|
    ensures forall i :: 0 <= i < |r| ==>
      r[i] == BindingUtilities.AsBracketQuotedString(columns[i].name) + " " + columns[i].definition
  {
    seq(|columns|, i requires 0 <= i < |columns| =>
      BindingUtilities.AsBracketQuotedString(columns[i].name) + " " + columns[i].definition)
  }

  /**
   * The common table expression that reads the batch's JSON with the POCO's
   * columns and types: it declares every table column some property names,
   * as its bracket-quoted name and its definition.
   */
  function DataQuery(table: TableInformation, properties: seq<string>): (q: string)
    ensures forall c :: c in PocoColumns(table.caseSensitive, table.columns, properties) ==>
      Contains(q, BindingUtilities.AsBracketQuotedString(c.name) + " " + c.definition)
  {
    var before := "WITH " + CteName + " AS ( SELECT * FROM OPENJSON(" + RowDataParameter + ") WITH (";
    var columns := PocoColumns(table.caseSensitive, table.columns, properties);
    var definitions := ColumnDefinitions(columns);
    var q := before + Join(",", definitions) + ") )";
    JoinContainsParts(",", definitions);
    ContainsMiddle(before, Join(",", definitions), ") )");
    forall c | c in columns
      ensures Contains(q, BindingUtilities.AsBracketQuotedString(c.name) + " " + c.definition)
    {
      var i :| 0 <= i < |columns| && columns[i] == c;
      ContainsTransitive(q, Join(",", definitions), definitions[i]);
    }
    q
  }

  /** One step of the reversed scan: the set of keys seen so far decides whether position i is kept. */
  lemma ScanStep<K>(keys: seq<K>, i: nat, seen: set<K>)
    requires i < |keys| && seen == set j | i + 1 <= j < |keys| :: keys[j]
    ensures keys[i] in seen ==> KeptFrom(keys, i) == KeptFrom(keys, i + 1)
    ensures keys[i] !in seen ==> KeptFrom(keys, i) == KeptFrom(keys, i + 1) + [i]
    ensures (if keys[i] in seen then seen else seen + {keys[i]}) == set j | i <= j < |keys| :: keys[j]
  {
    if keys[i] in seen {
      var j :| i + 1 <= j < |keys| && keys[j] == keys[i];
      assert keys[i + 1..][j - i - 1] == keys[i];
    }
    if keys[i] in keys[i + 1..] {
      var t :| 0 <= t < |keys[i + 1..]| && keys[i + 1..][t] == keys[i];
      assert keys[i + 1 + t] == keys[i];
    }
  }

  /** Picking one more position adds that row at the end. */
  lemma PickSnoc(rows: seq<PocoRow>, positions: seq<nat>, p: nat)
    requires p < |rows| && forall a :: 0 <= a < |positions| ==> positions[a] < |rows|
    ensures Pick(rows, positions + [p]) == Pick(rows, positions) + [rows[p]]
  {
    var l, r := Pick(rows, positions + [p]), Pick(rows, positions) + [rows[p]];
    forall a | 0 <= a < |l|
      ensures l[a] == r[a]
    {
      if a < |positions| {
        assert (positions + [p])[a] == positions[a];
      }
    }
  }

  /**
   * GenerateDataQueryForMerge: the batch scanned from its last row to its
   * first, a row kept when the HashSet did not hold its key yet.
   */
  method GenerateDataQueryForMerge(table: TableInformation, properties: seq<string>, rows: seq<PocoRow>)
    returns (newDataQuery: string, rowsToUpsert: seq<PocoRow>)
    ensures rowsToUpsert == RowsToUpsert(table, rows)
    ensures newDataQuery == DataQuery(table, properties)
  {
    ghost var keys := UpsertKeys(table, rows);
    var seen: set<string> := {};
    rowsToUpsert := [];
    var i := |rows|;
    while i > 0
      invariant 0 <= i <= |rows|
      invariant seen == set j | i <= j < |rows| :: keys[j]
      invariant rowsToUpsert == Pick(rows, KeptFrom(keys, i))
    {
      i := i - 1;
      var combined := CombinePrimaryKey(rows[i], table.primaryKeys);
      var key := NameKey(table.caseSensitive, combined);
      assert key == keys[i];
      ScanStep(keys, i, seen);
      if key !in seen {
        PickSnoc(rows, KeptFrom(keys, i + 1), i);
        seen := seen + {key};
        rowsToUpsert := rowsToUpsert + [rows[i]];
      }
    }
    newDataQuery := DataQuery(table, properties);
  }

  // ---------------------------------------------------------------------
  // Serialized properties (DynamicPOCOContractResolver) and extra properties

  /** The first property the comparer equates with `name`. */
  function FindProperty(caseSensitive: bool, properties: seq<string>, name: string): (r: Option<string>)
    ensures r.Some? <==> Named(caseSensitive, properties, name)
    ensures r.Some? ==> r.value in properties && SameName(caseSensitive, r.value, name)
    decreases |properties|
  {
    if |properties| == 0 then None
    else if SameName(caseSensitive, properties[0], name) then Some(properties[0])
    else
      var r := FindProperty(caseSensitive, properties[1..], name);
      assert Named(caseSensitive, properties, name) ==> Named(caseSensitive, properties[1..], name) by {
        if Named(caseSensitive, properties, name) {
          var i :| 0 <= i < |properties| && SameName(caseSensitive, properties[i], name);
          assert properties[1..][i - 1] == properties[i];
        }
      }
      assert Named(caseSensitive, properties[1..], name) ==> Named(caseSensitive, properties, name) by {
        if Named(caseSensitive, properties[1..], name) {
          var i :| 0 <= i < |properties[1..]| && SameName(caseSensitive, properties[1..][i], name);
          assert properties[i + 1] == properties[1..][i];
        }
      }
      r
  }

  /** The resolver's loop over the table's columns: each column with a property contributes that property's name. */
  function ResolvedNames(caseSensitive: bool, columns: seq<Column>, properties: seq<string>): seq<string>
    decreases |columns|
  {
    if |columns| == 0 then []
    else
      var p := FindProperty(caseSensitive, properties, columns[0].name);
      (if p.Some? then [NameKey(caseSensitive, p.value)] else []) + ResolvedNames(caseSensitive, columns[1..], properties)
  }

  /**
   * CreateProperties: the POCO's properties keyed by the comparer (two
   * properties it equates are an ArgumentException), then one per table
   * column that has one, lower-cased unless the comparer is ordinal.
   */
  function CreateProperties(caseSensitive: bool, columns: seq<Column>, properties: seq<string>): (r: Result<seq<string>>)
    ensures r.Failure? <==>
      exists i, j :: 0 <= i < j < |properties| && NameKey(caseSensitive, properties[i]) == NameKey(caseSensitive, properties[j])
    ensures r.Failure? ==> r.error == Throw(ArgumentException)
    ensures r.Success? ==> r.value == ResolvedNames(caseSensitive, columns, properties)
  {
    var keys := seq(|properties|, i requires 0 <= i < |properties| => NameKey(caseSensitive, properties[i]));
    assert forall i :: 0 <= i < |properties| ==> keys[i] == NameKey(caseSensitive, properties[i]);
    if !Distinct(keys) then Failure(Throw(ArgumentException))
    else Success(ResolvedNames(caseSensitive, columns, properties))
  }

  /**
   * With the column names stored as the comparer keeps them, a contract
   * resolver that does not throw serializes exactly the data query's
   * column names, in its order.
   */
  lemma CreatedPropertiesMatchDataQuery(caseSensitive: bool, columns: seq<Column>, properties: seq<string>)
    requires forall i :: 0 <= i < |columns| ==> NameKey(caseSensitive, columns[i].name) == columns[i].name
    ensures var r := CreateProperties(caseSensitive, columns, properties);
      r.Success? ==> r.value == ColumnNames(PocoColumns(caseSensitive, columns, properties))
  {
    SerializedFollowColumns(caseSensitive, columns, properties);
  }

  /**
   * With the column names stored as the comparer keeps them, the
   * serialized property names are exactly the names of the data query's
   * columns, in the same order, so the JSON matches the OPENJSON schema.
   */
  lemma {:induction false} SerializedFollowColumns(caseSensitive: bool, columns: seq<Column>, properties: seq<string>)
    requires forall i :: 0 <= i < |columns| ==> NameKey(caseSensitive, columns[i].name) == columns[i].name
    ensures ResolvedNames(caseSensitive, columns, properties) == ColumnNames(PocoColumns(caseSensitive, columns, properties))
    decreases |columns|
  {
    if |columns| > 0 {
      var tail := columns[1..];
      assert forall i :: 0 <= i < |tail| ==> tail[i] == columns[i + 1];
      SerializedFollowColumns(caseSensitive, tail, properties);
      var named := Named(caseSensitive, properties, columns[0].name);
      var head: seq<Column> := if named then [columns[0]] else [];
      var rest := PocoColumns(caseSensitive, tail, properties);
      ResolvedHead(caseSensitive, columns, properties);
      assert PocoColumns(caseSensitive, columns, properties) == head + rest;
      ColumnNamesAppend(head, rest);
      assert ColumnNames(head) == if named then [columns[0].name] else [];
    }
  }

  /** The first column's serialized name, when it has a property, is the column's name. */
  lemma ResolvedHead(caseSensitive: bool, columns: seq<Column>, properties: seq<string>)
    requires |columns| > 0 && NameKey(caseSensitive, columns[0].name) == columns[0].name
    ensures ResolvedNames(caseSensitive, columns, properties) ==
      (if Named(caseSensitive, properties, columns[0].name) then [columns[0].name] else []) +
      ResolvedNames(caseSensitive, columns[1..], properties)
  {
    var p := FindProperty(caseSensitive, properties, columns[0].name);
    if p.Some? {
      NameKeyStable(caseSensitive, columns[0].name);
    }
  }

  lemma ColumnNamesAppend(a: seq<Column>, b: seq<Column>)
    ensures ColumnNames(a + b) == ColumnNames(a) + ColumnNames(b)
  {
  }

  /** GetExtraProperties: the POCO's properties that are not columns of the table under its comparer. */
  function ExtraProperties(caseSensitive: bool, columns: seq<Column>, properties: seq<string>): (r: seq<string>)
    ensures |r| <= |properties|
    ensures forall p :: p in r <==> p in properties && !Named(caseSensitive, ColumnNames(columns), p)
    decreases |properties|
  {
    if |properties| == 0 then []
    else
      var rest := ExtraProperties(caseSensitive, columns, properties[1..]);
      assert forall p :: p in properties <==> p == properties[0] || p in properties[1..];
      (if Named(caseSensitive, ColumnNames(columns), properties[0]) then [] else [properties[0]]) + rest
  }
}
