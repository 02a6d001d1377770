/**
 * How the current output collector (SqlAsyncCollector.cs) plans an upsert:
 * what it learns about the target table, which query it reuses for the
 * table, which rows of a batch it sends, and which POCO properties it
 * serializes.
 *
 * The database is abstract: the rows its metadata queries return (or the
 * exception they throw) are inputs. Reflection is abstract too: the names
 * of the POCO's members and of its properties are inputs, and a POCO row
 * is a map from property name to the text ToString gives for its value,
 * `None` for a null value.
 */
module Upsert {
  import opened Common
  import BindingUtilities
  import SqlObjects

  datatype PrimaryKey = PrimaryKey(name: string, isIdentity: bool)

  /** A column of the table and its type, e.g. ("cost", "int"). */
  datatype Column = Column(name: string, definition: string)

  /** What PrimaryKey.ToString gives: the class has no override, so it is the type's full name. */
  const PrimaryKeyTypeName := "Microsoft.Azure.WebJobs.Extensions.Sql.PrimaryKey"
  const CteName := "cte"
  const RowDataParameter := "@rowData"
  const CaseSensitiveMarker := "_CS_"

  // ---------------------------------------------------------------------
  // Case sensitivity

  /** GetCaseSensitivityFromCollation: the collation's name says "_CS_". */
  function GetCaseSensitivityFromCollation(collation: string): (caseSensitive: bool)
    ensures caseSensitive <==> exists k :: OccursAt(collation, CaseSensitiveMarker, k)
  {
    ContainsAt(collation, CaseSensitiveMarker);
    Contains(collation, CaseSensitiveMarker)
  }

  lemma CaseSensitiveCollation()
    ensures GetCaseSensitivityFromCollation("Latin1_General" + "_CS_" + "AS")
  {
    var s := "Latin1_General" + "_CS_" + "AS";
    assert OccursAt(s, CaseSensitiveMarker, 14);
    ContainsAt(s, CaseSensitiveMarker);
  }

  /** Without an upper-case S no collation name is case-sensitive. */
  lemma NoMarkerWithoutS(collation: string)
    requires 'S' !in collation
    ensures !GetCaseSensitivityFromCollation(collation)
  {
    ContainsAt(collation, CaseSensitiveMarker);
    forall k | 0 <= k && k + 4 <= |collation|
      ensures !OccursAt(collation, CaseSensitiveMarker, k)
    {
      assert collation[k + 2] in collation;
      assert collation[k..k + 4][2] == collation[k + 2];
    }
  }

  lemma CaseInsensitiveCollation()
    ensures !GetCaseSensitivityFromCollation("Latin1_General_CI_AI")
  {
    NoMarkerWithoutS("Latin1_General_CI_AI");
  }

  /**
   * The collation query's outcome: the last row read decides; a failed
   * query (only logged) or no row at all means case-insensitive. The
   * outcome is either all the rows or an exception: a query that throws
   * after some rows keeps, in the source, the verdict of the last row it
   * read, which this outcome does not express.
   */
  function CaseSensitivity(collations: Result<seq<string>>): (cs: bool)
    ensures cs ==> collations.Success? && |collations.value| > 0
    ensures collations.Success? && |collations.value| > 0 ==>
      (cs <==> GetCaseSensitivityFromCollation(collations.value[|collations.value| - 1]))
  {
    if collations.Failure? || |collations.value| == 0 then false
    else GetCaseSensitivityFromCollation(collations.value[|collations.value| - 1])
  }

  /**
   * How names are stored and compared: as read when the database is case
   * sensitive, lower-cased otherwise (the StringComparer is then
   * OrdinalIgnoreCase, which agrees with comparing lower-cased names).
   */
  function NameKey(caseSensitive: bool, name: string): string
  {
    if caseSensitive then name else ToLower(name)
  }

  /** The comparer's equality. */
  predicate SameName(caseSensitive: bool, a: string, b: string)
  {
    NameKey(caseSensitive, a) == NameKey(caseSensitive, b)
  }

  /** A stored name is its own key, so the comparer finds it under any spelling that the comparer equates. */
  lemma NameKeyStable(caseSensitive: bool, name: string)
    ensures NameKey(caseSensitive, NameKey(caseSensitive, name)) == NameKey(caseSensitive, name)
  {
    if !caseSensitive {
      ToLowerIdempotent(name);
    }
  }

  /** Some name of the list equals `name` under the comparer. */
  predicate Named(caseSensitive: bool, names: seq<string>, name: string)
  {
    exists i :: 0 <= i < |names| && SameName(caseSensitive, names[i], name)
  }

  function ColumnNames(columns: seq<Column>): (names: seq<string>)
    ensures |names| == |columns| && forall i :: 0 <= i < |columns| ==> names[i] == columns[i].name
  {
    seq(|columns|, i requires 0 <= i < |columns| => columns[i].name)
  }

  function KeyNames(keys: seq<PrimaryKey>): (names: seq<string>)
    ensures |names| == |keys| && forall i :: 0 <= i < |keys| ==> names[i] == keys[i].name
  {
    seq(|keys|, i requires 0 <= i < |keys| => keys[i].name)
  }

  // ---------------------------------------------------------------------
  // Columns and primary keys as read

  /** The column rows with their names stored as the comparer keeps them. */
  function StoredColumns(caseSensitive: bool, rows: seq<Column>): (r: seq<Column>)
    ensures |r| == |rows|
    ensures forall i :: 0 <= i < |rows| ==>
      r[i].name == NameKey(caseSensitive, rows[i].name) && r[i].definition == rows[i].definition
  {
    seq(|rows|, i requires 0 <= i < |rows| => Column(NameKey(caseSensitive, rows[i].name), rows[i].definition))
  }

  function StoredKeys(caseSensitive: bool, rows: seq<PrimaryKey>): (r: seq<PrimaryKey>)
    ensures |r| == |rows|
    ensures forall i :: 0 <= i < |rows| ==>
      r[i].name == NameKey(caseSensitive, rows[i].name) && r[i].isIdentity == rows[i].isIdentity
  {
    seq(|rows|, i requires 0 <= i < |rows| => PrimaryKey(NameKey(caseSensitive, rows[i].name), rows[i].isIdentity))
  }

  /** The POCO members that are primary keys (primaryKeyFields), in member order. */
  function KeyMembers(caseSensitive: bool, members: seq<string>, keys: seq<PrimaryKey>): (r: seq<string>)
    ensures |r| <= |members|
    ensures forall f :: f in r <==> f in members && Named(caseSensitive, KeyNames(keys), f)
    decreases |members|
  {
    if |members| == 0 then []
    else
      var rest := KeyMembers(caseSensitive, members[1..], keys);
      assert forall f :: f in members <==> f == members[0] || f in members[1..];
      (if Named(caseSensitive, KeyNames(keys), members[0]) then [members[0]] else []) + rest
  }

  /** The primary keys no member of `fields` matches (missingPrimaryKeysFromPOCO), in key order. */
  function MissingKeys(caseSensitive: bool, keys: seq<PrimaryKey>, fields: seq<string>): (r: seq<PrimaryKey>)
    ensures |r| <= |keys|
    ensures forall k :: k in r <==> k in keys && !Named(caseSensitive, fields, k.name)
    decreases |keys|
  {
    if |keys| == 0 then []
    else
      var rest := MissingKeys(caseSensitive, keys[1..], fields);
      assert forall k :: k in keys <==> k == keys[0] || k in keys[1..];
      (if Named(caseSensitive, fields, keys[0].name) then [] else [keys[0]]) + rest
  }

  /**
   * A key is missing from the key members exactly when no member of the
   * POCO at all has its name: filtering the members first loses nothing.
   */
  lemma MissingKeysHaveNoMember(caseSensitive: bool, members: seq<string>, keys: seq<PrimaryKey>)
    ensures forall k :: k in MissingKeys(caseSensitive, keys, KeyMembers(caseSensitive, members, keys)) <==>
      k in keys && !Named(caseSensitive, members, k.name)
  {
    var fields := KeyMembers(caseSensitive, members, keys);
    forall k | k in keys
      ensures Named(caseSensitive, fields, k.name) <==> Named(caseSensitive, members, k.name)
    {
      if Named(caseSensitive, members, k.name) {
        var i :| 0 <= i < |members| && SameName(caseSensitive, members[i], k.name);
        var j :| 0 <= j < |keys| && keys[j] == k;
        assert KeyNames(keys)[j] == k.name;
        assert Named(caseSensitive, KeyNames(keys), members[i]);
        assert members[i] in fields;
        var m :| 0 <= m < |fields| && fields[m] == members[i];
        assert SameName(caseSensitive, fields[m], k.name);
      }
      if Named(caseSensitive, fields, k.name) {
        var m :| 0 <= m < |fields| && SameName(caseSensitive, fields[m], k.name);
        assert fields[m] in members;
        var i :| 0 <= i < |members| && members[i] == fields[m];
        assert SameName(caseSensitive, members[i], k.name);
      }
    }
  }

  predicate HasIdentity(keys: seq<PrimaryKey>)
  {
    exists i :: 0 <= i < |keys| && keys[i].isIdentity
  }

  // ---------------------------------------------------------------------
  // The reusable query

  /** What follows the per-batch data query: a plain insert, or a MERGE given by its generated parts. */
  datatype Query =
    | InsertQuery(text: string)
    | MergeQuery(on: string, updateSet: string, insertColumns: string)

  /** GetInsertQuery, for the table's bracket-quoted full name. */
  function InsertText(bracketedFullName: string): (q: string)
    ensures StartsWith(q, "INSERT INTO ") && q[|"INSERT INTO "|..] == bracketedFullName + " SELECT * FROM " + CteName
  {
    var q := "INSERT INTO " + bracketedFullName + " SELECT * FROM " + CteName;
    assert q[|"INSERT INTO "|..] == bracketedFullName + " SELECT * FROM " + CteName;
    q
  }

  /** One primary key of the ON clause. */
  function KeyMatch(bracketedKey: string): string
  {
    "ExistingData." + bracketedKey + " = NewData." + bracketedKey
  }

  /** One column of the UPDATE SET list. */
  function Assignment(bracketedColumn: string): string
  {
    " ExistingData." + bracketedColumn + " = NewData." + bracketedColumn
  }

  function Bracketed(names: seq<string>): (r: seq<string>)
    ensures |r| == |names|
    ensures forall i :: 0 <= i < |names| ==> r[i] == BindingUtilities.AsBracketQuotedString(names[i])
  {
    seq(|names|, i requires 0 <= i < |names| => BindingUtilities.AsBracketQuotedString(names[i]))
  }

  function KeyMatches(bracketedKeys: seq<string>): (r: seq<string>)
    ensures |r| == |bracketedKeys| && forall i :: 0 <= i < |r| ==> r[i] == KeyMatch(bracketedKeys[i])
  {
    seq(|bracketedKeys|, i requires 0 <= i < |bracketedKeys| => KeyMatch(bracketedKeys[i]))
  }

  function Assignments(bracketedColumns: seq<string>): (r: seq<string>)
    ensures |r| == |bracketedColumns| && forall i :: 0 <= i < |r| ==> r[i] == Assignment(bracketedColumns[i])
  {
    seq(|bracketedColumns|, i requires 0 <= i < |bracketedColumns| => Assignment(bracketedColumns[i]))
  }

  /** The property is an identity primary key. */
  predicate IsIdentityKey(caseSensitive: bool, keys: seq<PrimaryKey>, property: string)
  {
    exists i :: 0 <= i < |keys| && keys[i].isIdentity && SameName(caseSensitive, keys[i].name, property)
  }

  /** The POCO properties that MERGE writes: all but the identity keys, in property order. */
  function WrittenProperties(caseSensitive: bool, keys: seq<PrimaryKey>, properties: seq<string>): (r: seq<string>)
    ensures |r| <= |properties|
    ensures forall p :: p in r <==> p in properties && !IsIdentityKey(caseSensitive, keys, p)
    decreases |properties|
  {
    if |properties| == 0 then []
    else
      var rest := WrittenProperties(caseSensitive, keys, properties[1..]);
      assert forall p :: p in properties <==> p == properties[0] || p in properties[1..];
      (if IsIdentityKey(caseSensitive, keys, properties[0]) then [] else [properties[0]]) + rest
  }

  /** GetMergeQuery's three generated parts. */
  function MergeParts(keys: seq<PrimaryKey>, properties: seq<string>, caseSensitive: bool): Query
  {
    var written := Bracketed(WrittenProperties(caseSensitive, keys, properties));
    MergeQuery(Join(" AND ", KeyMatches(Bracketed(KeyNames(keys)))), Join(",", Assignments(written)), Join(",", written))
  }

  // ---------------------------------------------------------------------
  // RetrieveTableInformationAsync

  datatype TableInformation = TableInformation(
    primaryKeys: seq<string>,
    columns: seq<Column>,
    caseSensitive: bool,
    query: Query)

  const WithoutThem := ". Cannot generate upsert command without them."
  const ColumnsFailurePrefix := "Encountered exception while retrieving column names and types for table "
  const KeysFailurePrefix := "Encountered exception while retrieving primary keys for table "
  const NoKeysPrefix := "Did not retrieve any primary keys for "

  function ColumnsFailureMessage(table: string): string
  {
    ColumnsFailurePrefix + table + WithoutThem
  }

  function KeysFailureMessage(table: string): string
  {
    KeysFailurePrefix + table + WithoutThem
  }

  function NoTableMessage(table: string): string
  {
    "Table " + table + " does not exist."
  }

  function NoKeysMessage(table: string): string
  {
    NoKeysPrefix + table + WithoutThem
  }

  /** Each missing key interpolated into the message: PrimaryKey.ToString, the type's name. */
  function KeyTexts(missing: seq<PrimaryKey>): (r: seq<string>)
    ensures |r| == |missing| && forall i :: 0 <= i < |r| ==> r[i] == PrimaryKeyTypeName
  {
    seq(|missing|, i requires 0 <= i < |missing| => PrimaryKeyTypeName)
  }

  const AllKeysPrefix := "All primary keys for SQL table "
  const NeedToBeFound := " need to be found in '"
  const MissingKeysList := ".' Missing primary keys: ["

  /**
   * The message for primary keys the POCO lacks: it names the table and the
   * POCO type, lists something for each missing key and closes the list.
   */
  function MissingKeysMessage(table: string, typeName: string, missing: seq<PrimaryKey>): (m: string)
    ensures Contains(m, table) && Contains(m, typeName)
    ensures |missing| > 0 ==> Contains(m, PrimaryKeyTypeName)
    ensures |m| > 0 && m[|m| - 1] == ']'
  {
    var list := Join(",", KeyTexts(missing));
    var before := AllKeysPrefix + table + NeedToBeFound + typeName + MissingKeysList;
    var m := before + list + "]";
    ContainsSecondAndFourth(AllKeysPrefix, table, NeedToBeFound, typeName, MissingKeysList + list + "]");
    assert m == AllKeysPrefix + table + NeedToBeFound + typeName + (MissingKeysList + list + "]");
    ListsKeyTypeName(before, missing);
    m
  }

  /** A text made of five pieces contains its second and its fourth. */
  lemma ContainsSecondAndFourth(first: string, second: string, third: string, fourth: string, fifth: string)
    ensures Contains(first + second + third + fourth + fifth, second)
    ensures Contains(first + second + third + fourth + fifth, fourth)
  {
    var whole := first + second + third + fourth + fifth;
    assert whole == first + second + (third + fourth + fifth);
    ContainsMiddle(first, second, third + fourth + fifth);
    assert whole == first + second + third + fourth + fifth;
    ContainsMiddle(first + second + third, fourth, fifth);
  }

  /** A non-empty list of missing keys puts the key type's name in the message. */
  lemma ListsKeyTypeName(before: string, missing: seq<PrimaryKey>)
    ensures |missing| > 0 ==> Contains(before + Join(",", KeyTexts(missing)) + "]", PrimaryKeyTypeName)
  {
    if |missing| > 0 {
      var list := Join(",", KeyTexts(missing));
      JoinContainsParts(",", KeyTexts(missing));
      assert KeyTexts(missing)[0] == PrimaryKeyTypeName;
      ContainsMiddle(before, list, "]");
      ContainsTransitive(before + list + "]", list, PrimaryKeyTypeName);
    }
  }

  /**
   * PrimaryKey does not override ToString, so the message shows the type
   * name once per missing key: two lists of missing keys of the same
   * length give the same message whatever the keys are called.
   */
  lemma MissingKeysMessageHidesNames(table: string, typeName: string, a: seq<PrimaryKey>, b: seq<PrimaryKey>)
    requires |a| == |b|
    ensures MissingKeysMessage(table, typeName, a) == MissingKeysMessage(table, typeName, b)
  {
    assert KeyTexts(a) == KeyTexts(b);
  }

  /** The message the code evidently means: the missing keys listed by name. */
  function NamedMissingKeysMessage(table: string, typeName: string, missing: seq<PrimaryKey>): (m: string)
    ensures forall i :: 0 <= i < |missing| ==> Contains(m, missing[i].name)
  {
    var before := AllKeysPrefix + table + NeedToBeFound + typeName + MissingKeysList;
    var names := Join(",", KeyNames(missing));
    JoinContainsParts(",", KeyNames(missing));
    ContainsMiddle(before, names, "]");
    forall i | 0 <= i < |missing|
      ensures Contains(before + names + "]", missing[i].name)
    {
      assert KeyNames(missing)[i] == missing[i].name;
      ContainsTransitive(before + names + "]", names, missing[i].name);
    }
    before + names + "]"
  }

  /**
   * RetrieveTableInformationAsync once the SqlObject is parsed: the three
   * metadata queries' outcomes, the POCO's member and property names and
   * its type name decide the table information or the exception.
   */
  function RetrieveTableInformation(table: SqlObjects.SqlObject, collations: Result<seq<string>>,
                                    columnRows: Result<seq<Column>>, keyRows: Result<seq<PrimaryKey>>,
                                    members: seq<string>, properties: seq<string>, typeName: string,
                                    bracketedFullName: string): (r: Result<TableInformation>)
    ensures r.Failure? ==> r.error.kind == InvalidOperationException
    ensures r.Success? ==>
      columnRows.Success? && keyRows.Success? && r.value.caseSensitive == CaseSensitivity(collations) &&
      r.value.columns == StoredColumns(CaseSensitivity(collations), columnRows.value) &&
      |r.value.columns| > 0 && Distinct(ColumnNames(r.value.columns))
  {
    ColumnInformation(SqlObjects.ToString(table), CaseSensitivity(collations), columnRows, keyRows,
                      members, properties, typeName, bracketedFullName)
  }

  /** The lookup for the table named `t` under the case sensitivity `cs`: the columns first, then the keys. */
  function ColumnInformation(t: string, cs: bool, columnRows: Result<seq<Column>>, keyRows: Result<seq<PrimaryKey>>,
                             members: seq<string>, properties: seq<string>, typeName: string,
                             bracketedFullName: string): (r: Result<TableInformation>)
    ensures r.Failure? ==> r.error.kind == InvalidOperationException
    ensures columnRows.Failure? ==> r.Failure? && r.error.inner == Some(columnRows.error)
    ensures r.Success? ==>
      columnRows.Success? && keyRows.Success? && r.value.caseSensitive == cs &&
      r.value.columns == StoredColumns(cs, columnRows.value) &&
      |r.value.columns| > 0 && Distinct(ColumnNames(r.value.columns))
  {
    if columnRows.Failure? then
      Failure(Exception(InvalidOperationException, ColumnsFailureMessage(t), Some(columnRows.error)))
    else
      var columns := StoredColumns(cs, columnRows.value);
      if !Distinct(ColumnNames(columns)) then
        Failure(Exception(InvalidOperationException, ColumnsFailureMessage(t), Some(Throw(ArgumentException))))
      else if |columns| == 0 then
        Failure(ThrowWith(InvalidOperationException, NoTableMessage(t)))
      else KeyInformation(t, cs, columns, keyRows, members, properties, typeName, bracketedFullName)
  }

  /** The rest of RetrieveTableInformationAsync once the columns are read: the primary keys and the query. */
  function KeyInformation(t: string, cs: bool, columns: seq<Column>, keyRows: Result<seq<PrimaryKey>>,
                          members: seq<string>, properties: seq<string>, typeName: string,
                          bracketedFullName: string): (r: Result<TableInformation>)
    ensures r.Failure? ==> r.error.kind == InvalidOperationException
    ensures keyRows.Failure? ==> r.Failure? && r.error.inner == Some(keyRows.error)
    ensures r.Success? ==> keyRows.Success?
    ensures r.Success? && keyRows.Success? ==>
      var keys := StoredKeys(cs, keyRows.value);
      var missing := MissingKeys(cs, keys, KeyMembers(cs, members, keys));
      |keys| > 0 && (HasIdentity(keys) || |missing| == 0) &&
      r.value == TableInformation(KeyMembers(cs, members, keys), columns, cs, r.value.query) &&
      (r.value.query.InsertQuery? <==> HasIdentity(keys) && |missing| > 0)
  {
    if keyRows.Failure? then
      Failure(Exception(InvalidOperationException, KeysFailureMessage(t), Some(keyRows.error)))
    else
      var keys := StoredKeys(cs, keyRows.value);
      if |keys| == 0 then
        Failure(ThrowWith(InvalidOperationException, NoKeysMessage(t)))
      else
        var fields := KeyMembers(cs, members, keys);
        var missing := MissingKeys(cs, keys, fields);
        var identity := HasIdentity(keys);
        if !identity && |missing| > 0 then
          Failure(ThrowWith(InvalidOperationException, MissingKeysMessage(t, typeName, missing)))
        else
          var query := if identity && |missing| > 0 then InsertQuery(InsertText(bracketedFullName))
                       else MergeParts(keys, properties, cs);
          Success(TableInformation(fields, columns, cs, query))
  }

  /** The failures of the metadata queries, and an empty answer, each give their own InvalidOperationException. */
  lemma TableInformationErrors(table: SqlObjects.SqlObject, collations: Result<seq<string>>,
                               columnRows: Result<seq<Column>>, keyRows: Result<seq<PrimaryKey>>,
                               members: seq<string>, properties: seq<string>, typeName: string, bracketedFullName: string)
    ensures var r := RetrieveTableInformation(table, collations, columnRows, keyRows, members, properties, typeName, bracketedFullName);
      var t := SqlObjects.ToString(table);
      var cs := CaseSensitivity(collations);
      (columnRows.Failure? ==>
         r == Failure(Exception(InvalidOperationException, ColumnsFailureMessage(t), Some(columnRows.error)))) &&
      (columnRows.Success? && !Distinct(ColumnNames(StoredColumns(cs, columnRows.value))) ==>
         r == Failure(Exception(InvalidOperationException, ColumnsFailureMessage(t), Some(Throw(ArgumentException))))) &&
      (columnRows == Success([]) ==> r == Failure(ThrowWith(InvalidOperationException, NoTableMessage(t)))) &&
      (columnRows.Success? && |columnRows.value| > 0 && Distinct(ColumnNames(StoredColumns(cs, columnRows.value))) ==>
         (keyRows.Failure? ==>
            r == Failure(Exception(InvalidOperationException, KeysFailureMessage(t), Some(keyRows.error)))) &&
         (keyRows == Success([]) ==> r == Failure(ThrowWith(InvalidOperationException, NoKeysMessage(t)))))
  {
  }

  /**
   * What a successful lookup holds: the stored columns, distinct; the POCO
   * members that are keys; an INSERT exactly when an identity key is
   * missing from the POCO, a MERGE otherwise.
   */
  lemma TableInformationOnSuccess(table: SqlObjects.SqlObject, collations: Result<seq<string>>,
                                  columnRows: Result<seq<Column>>, keyRows: Result<seq<PrimaryKey>>,
                                  members: seq<string>, properties: seq<string>, typeName: string, bracketedFullName: string)
    ensures var r := RetrieveTableInformation(table, collations, columnRows, keyRows, members, properties, typeName, bracketedFullName);
      r.Success? ==>
      var cs := CaseSensitivity(collations);
      var keys := StoredKeys(cs, keyRows.value);
      var missing := MissingKeys(cs, keys, KeyMembers(cs, members, keys));
      columnRows.Success? && |columnRows.value| > 0 && keyRows.Success? && |keyRows.value| > 0 &&
      r.value.caseSensitive == cs &&
      r.value.columns == StoredColumns(cs, columnRows.value) && Distinct(ColumnNames(r.value.columns)) &&
      r.value.primaryKeys == KeyMembers(cs, members, keys) &&
      (HasIdentity(keys) || |missing| == 0) &&
      (r.value.query.InsertQuery? <==> HasIdentity(keys) && |missing| > 0) &&
      (r.value.query.InsertQuery? ==> r.value.query == InsertQuery(InsertText(bracketedFullName))) &&
      (r.value.query.MergeQuery? ==> r.value.query == MergeParts(keys, properties, cs))
  {
  }

  /**
   * Without an identity key, every primary key must be a member of the
   * POCO; otherwise the exception names the missing keys, each by the
   * type name that PrimaryKey.ToString gives.
   */
  lemma KeysWithoutIdentityMustBeMembers(table: SqlObjects.SqlObject, collations: Result<seq<string>>,
                                         columnRows: Result<seq<Column>>, keyRows: Result<seq<PrimaryKey>>,
                                         members: seq<string>, properties: seq<string>, typeName: string,
                                         bracketedFullName: string)
    requires keyRows.Success? && |keyRows.value| > 0 && !HasIdentity(keyRows.value)
    requires columnRows.Success? && |columnRows.value| > 0
    requires Distinct(ColumnNames(StoredColumns(CaseSensitivity(collations), columnRows.value)))
    ensures var r := RetrieveTableInformation(table, collations, columnRows, keyRows, members, properties, typeName, bracketedFullName);
      var cs := CaseSensitivity(collations);
      var keys := StoredKeys(cs, keyRows.value);
      (r.Success? <==> forall k :: k in keys ==> Named(cs, members, k.name)) &&
      (r.Failure? ==> r.error == ThrowWith(InvalidOperationException,
         MissingKeysMessage(SqlObjects.ToString(table), typeName, MissingKeys(cs, keys, KeyMembers(cs, members, keys)))))
  {
    var cs := CaseSensitivity(collations);
    var keys := StoredKeys(cs, keyRows.value);
    assert !HasIdentity(keys) by {
      assert forall i :: 0 <= i < |keys| ==> keys[i].isIdentity == keyRows.value[i].isIdentity;
    }
    MissingKeysHaveNoMember(cs, members, keys);
    var missing := MissingKeys(cs, keys, KeyMembers(cs, members, keys));
    assert |missing| == 0 <==> forall k :: k in keys ==> Named(cs, members, k.name) by {
      if |missing| > 0 {
        assert missing[0] in missing;
      }
    }
  }

  // ---------------------------------------------------------------------
  // GetMergeQuery

  /** What the UPDATE SET builder holds after appending each assignment and a comma. */
  function Terminated(items: seq<string>): string
    decreases |items|
  {
    if |items| == 0 then "" else Terminated(items[..|items| - 1]) + items[|items| - 1] + ","
  }

  lemma {:induction false} TerminatedJoin(items: seq<string>)
    requires |items| > 0
    ensures Terminated(items) == Join(",", items) + ","
    decreases |items|
  {
    var n := |items|;
    if n > 1 {
      var init := items[..n - 1];
      TerminatedJoin(init);
      JoinAppend(",", init, [items[n - 1]]);
      assert init + [items[n - 1]] == items;
    }
  }

  /**
   * Trimming the trailing commas leaves exactly the comma-separated list,
   * since no item ends in a comma.
   */
  lemma TrimTerminated(items: seq<string>)
    requires forall i :: 0 <= i < |items| ==> |items[i]| > 0 && items[i][|items[i]| - 1] != ','
    ensures TrimEnd(Terminated(items), ',') == Join(",", items)
  {
    if |items| > 0 {
      TerminatedJoin(items);
      var j := Join(",", items);
      JoinLastChar(",", items);
      assert (j + ",")[..|j|] == j;
    }
  }

  /** The ON clause builder: the first key's match, then " AND " and each further key's. */
  method BuildOnClause(bracketedKeys: seq<string>) returns (on: string)
    requires |bracketedKeys| > 0
    ensures on == Join(" AND ", KeyMatches(bracketedKeys))
  {
    on := KeyMatch(bracketedKeys[0]);
    var i := 1;
    while i < |bracketedKeys|
      invariant 1 <= i <= |bracketedKeys|
      invariant on == Join(" AND ", KeyMatches(bracketedKeys[..i]))
    {
      JoinAppend(" AND ", KeyMatches(bracketedKeys[..i]), [KeyMatch(bracketedKeys[i])]);
      assert KeyMatches(bracketedKeys[..i + 1]) == KeyMatches(bracketedKeys[..i]) + [KeyMatch(bracketedKeys[i])];
      on := on + " AND " + KeyMatch(bracketedKeys[i]);
      i := i + 1;
    }
    assert bracketedKeys[..i] == bracketedKeys;
  }

  /** The UPDATE SET builder: each assignment followed by a comma, then the trailing commas trimmed. */
  method BuildUpdateSet(written: seq<string>) returns (updateSet: string)
    requires forall k :: 0 <= k < |written| ==> |written[k]| > 0 && written[k][|written[k]| - 1] != ','
    ensures updateSet == Join(",", Assignments(written))
  {
    var builder := "";
    var j := 0;
    while j < |written|
      invariant 0 <= j <= |written|
      invariant builder == Terminated(Assignments(written[..j]))
    {
      assert Assignments(written[..j + 1])[..j] == Assignments(written[..j]);
      builder := builder + Assignment(written[j]) + ",";
      j := j + 1;
    }
    assert written[..j] == written;
    var assignments := Assignments(written);
    forall k | 0 <= k < |assignments|
      ensures |assignments[k]| > 0 && assignments[k][|assignments[k]| - 1] != ','
    {
      var c := written[k];
      assert assignments[k] == (" ExistingData." + c + " = NewData.") + c;
      assert assignments[k][|assignments[k]| - 1] == c[|c| - 1];
    }
    TrimTerminated(assignments);
    updateSet := TrimEnd(builder, ',');
  }

  /** GetMergeQuery: the ON clause over every key, the assignments and the INSERT list over the written properties. */
  method GetMergeQuery(keys: seq<PrimaryKey>, properties: seq<string>, caseSensitive: bool) returns (q: Query)
    requires |keys| > 0
    ensures q == MergeParts(keys, properties, caseSensitive)
  {
    var on := BuildOnClause(Bracketed(KeyNames(keys)));
    var written := Bracketed(WrittenProperties(caseSensitive, keys, properties));
    var updateSet := BuildUpdateSet(written);
    q := MergeQuery(on, updateSet, Join(",", written));
  }

  /**
   * The ON clause compares every primary key of the table, and the
   * UPDATE SET and INSERT lists hold exactly the POCO properties that are
   * not identity keys.
   */
  lemma MergeMatchesKeysAndSkipsIdentity(keys: seq<PrimaryKey>, properties: seq<string>, caseSensitive: bool)
    ensures var q := MergeParts(keys, properties, caseSensitive);
      var bracketedKeys := Bracketed(KeyNames(keys));
      var written := WrittenProperties(caseSensitive, keys, properties);
      (forall i :: 0 <= i < |keys| ==> Contains(q.on, KeyMatch(bracketedKeys[i]))) &&
      (forall p :: p in written <==> p in properties && !IsIdentityKey(caseSensitive, keys, p)) &&
      (forall i :: 0 <= i < |written| ==>
         Contains(q.updateSet, Assignment(Bracketed(written)[i])) && Contains(q.insertColumns, Bracketed(written)[i]))
  {
    var bracketedKeys := Bracketed(KeyNames(keys));
    var written := Bracketed(WrittenProperties(caseSensitive, keys, properties));
    JoinContainsParts(" AND ", KeyMatches(bracketedKeys));
    JoinContainsParts(",", Assignments(written));
    JoinContainsParts(",", written);
  }
}
