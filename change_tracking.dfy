/**
 * Change-tracking bookkeeping shared by every revision of the SQL trigger:
 * decoding SYS_CHANGE_OPERATION, the dictionaries built from a change row
 * (primary keys only for a delete, the user-table columns otherwise), the
 * version the global state may advance to after a batch, the declared
 * types of primary-key columns, and the T-SQL fragments built from the key
 * and column names.
 *
 * A change row is what BuildDictionaryFromSqlRow produced: column name to
 * the value's text. A dictionary whose values may be null (TryGetValue of
 * an absent column) has Option values.
 */
module ChangeTracking {
  import opened Common

  type Row = map<string, string>
  type RowData = map<string, Option<string>>

  const OperationColumn := "SYS_CHANGE_OPERATION"
  const VersionColumn := "SYS_CHANGE_VERSION"

  // ---------------------------------------------------------------------
  // Change types

  datatype ChangeType = Inserted | Updated | Deleted

  /** The code SQL's change table stores for each kind of change. */
  function OperationCode(t: ChangeType): string
  {
    match t
    case Inserted => "I"
    case Updated => "U"
    case Deleted => "D"
  }

  /**
   * GetChangeType: a row without the operation column is an
   * ArgumentException, a code other than "I", "U" or "D" an
   * InvalidDataException; otherwise the change whose code it is.
   */
  function GetChangeType(row: Row): (r: Result<ChangeType>)
    ensures OperationColumn !in row ==> r == Failure(Throw(ArgumentException))
    ensures r.Success? <==> OperationColumn in row && row[OperationColumn] in {"I", "U", "D"}
    ensures r.Success? ==> OperationCode(r.value) == row[OperationColumn]
    ensures OperationColumn in row && r.Failure? ==> r == Failure(Throw(InvalidDataException))
  {
    if OperationColumn !in row then Failure(Throw(ArgumentException))
    else if row[OperationColumn] == "I" then Success(Inserted)
    else if row[OperationColumn] == "U" then Success(Updated)
    else if row[OperationColumn] == "D" then Success(Deleted)
    else Failure(Throw(InvalidDataException))
  }

  /** Every change type is read back from its own code. */
  lemma ChangeTypeRoundTrip(t: ChangeType, row: Row)
    requires OperationColumn in row && row[OperationColumn] == OperationCode(t)
    ensures GetChangeType(row) == Success(t)
  {
  }

  // ---------------------------------------------------------------------
  // Dictionaries built from a row

  /** row.TryGetValue(name, out value): null when the column is absent. */
  function Lookup(row: Row, name: string): Option<string>
  {
    if name in row then Some(row[name]) else None
  }

  /**
   * A Dictionary filled by Add(name, value from the row) for each name in
   * turn: exactly the names, each with the row's value; a name given twice
   * makes Add throw an ArgumentException.
   */
  function Project(names: seq<string>, row: Row): (r: Result<RowData>)
    ensures r.Success? <==> Distinct(names)
    ensures r.Failure? ==> r.error == Throw(ArgumentException)
    ensures r.Success? ==> r.value.Keys == set n | n in names
    ensures r.Success? ==> forall n :: n in names ==> r.value[n] == Lookup(row, n)
    decreases |names|
  {
    if |names| == 0 then Success(map[])
    else
      var init, last := names[..|names| - 1], names[|names| - 1];
      SplitLast(names);
      match Project(init, row)
      case Failure(e) => Failure(e)
      case Success(d) =>
        if last in d then Failure(Throw(ArgumentException))
        else Success(d[last := Lookup(row, last)])
  }

  /** A dictionary built from a prefix of the names either takes the next name or meets it again. */
  lemma ProjectStep(names: seq<string>, i: nat, row: Row, d: RowData)
    requires i < |names| && Project(names[..i], row) == Success(d)
    ensures names[i] in d ==> Project(names, row) == Failure(Throw(ArgumentException))
    ensures names[i] !in d ==> Project(names[..i + 1], row) == Success(d[names[i] := Lookup(row, names[i])])
  {
    var front := names[..i + 1];
    assert front[..i] == names[..i];
    if names[i] in d {
      var j :| 0 <= j < i && names[..i][j] == names[i];
      assert names[j] == names[i];
    }
  }

  /** The source builds such a dictionary in a foreach loop. */
  method BuildDictionary(names: seq<string>, row: Row) returns (r: Result<RowData>)
    ensures r == Project(names, row)
  {
    var dictionary: RowData := map[];
    var i := 0;
    while i < |names|
      invariant 0 <= i <= |names|
      invariant Project(names[..i], row) == Success(dictionary)
    {
      ProjectStep(names, i, row, dictionary);
      if names[i] in dictionary {
        return Failure(Throw(ArgumentException));
      }
      dictionary := dictionary[names[i] := Lookup(row, names[i])];
      i := i + 1;
    }
    assert names[..|names|] == names;
    r := Success(dictionary);
  }

  // ---------------------------------------------------------------------
  // Entries handed to the user's function

  /** SqlChangeTrackingEntry: the operation and the row data (before JSON conversion to the user's type). */
  datatype Entry = Entry(operation: ChangeType, data: RowData)

  /**
   * The entry for one change row: a deleted row carries only its
   * primary-key values, any other row the user-table columns.
   */
  function EntryFor(primaryKeys: seq<string>, columns: seq<string>, row: Row): (r: Result<Entry>)
    ensures GetChangeType(row).Failure? ==> r == Failure(GetChangeType(row).error)
    ensures r.Success? ==> GetChangeType(row) == Success(r.value.operation)
    ensures r.Success? && r.value.operation == Deleted ==>
      r.value.data.Keys == (set k | k in primaryKeys) && forall k :: k in primaryKeys ==> r.value.data[k] == Lookup(row, k)
    ensures r.Success? && r.value.operation != Deleted ==>
      r.value.data.Keys == (set c | c in columns) && forall c :: c in columns ==> r.value.data[c] == Lookup(row, c)
    ensures GetChangeType(row).Success? && Distinct(primaryKeys) && Distinct(columns) ==> r.Success?
  {
    var operation :- GetChangeType(row);
    var data :- Project(if operation == Deleted then primaryKeys else columns, row);
    Success(Entry(operation, data))
  }

  /** Each item's result in turn, stopping at the first failure. */
  function CollectAll<T, U>(f: T -> Result<U>, xs: seq<T>): (r: Result<seq<U>>)
    ensures r.Success? <==> forall i :: 0 <= i < |xs| ==> f(xs[i]).Success?
    ensures r.Success? ==> |r.value| == |xs| && forall i :: 0 <= i < |xs| ==> f(xs[i]) == Success(r.value[i])
    decreases |xs|
  {
    if |xs| == 0 then Success([])
    else
      var init, last := xs[..|xs| - 1], xs[|xs| - 1];
      assert forall i :: 0 <= i < |init| ==> init[i] == xs[i];
      match CollectAll(f, init)
      case Failure(e) => Failure(e)
      case Success(us) =>
        match f(last)
        case Failure(e) => Failure(e)
        case Success(u) => Success(us + [u])
  }

  /** GetSqlChangeTrackingEntries: one entry per row, in row order; the first failure is thrown. */
  function Entries(primaryKeys: seq<string>, columns: seq<string>, rows: seq<Row>): (r: Result<seq<Entry>>)
    ensures r.Success? <==> forall i :: 0 <= i < |rows| ==> EntryFor(primaryKeys, columns, rows[i]).Success?
    ensures r.Success? ==> |r.value| == |rows|
    ensures r.Success? ==> forall i :: 0 <= i < |rows| ==> EntryFor(primaryKeys, columns, rows[i]) == Success(r.value[i])
  {
    CollectAll(row => EntryFor(primaryKeys, columns, row), rows)
  }

  /** The entries a loop has built so far extend by the next row's entry. */
  lemma EntriesStep(primaryKeys: seq<string>, columns: seq<string>, rows: seq<Row>, i: nat, entries: seq<Entry>)
    requires i < |rows|
    requires Entries(primaryKeys, columns, rows[..i]) == Success(entries)
    ensures EntryFor(primaryKeys, columns, rows[i]).Failure? ==>
      Entries(primaryKeys, columns, rows[..i + 1]) == Failure(EntryFor(primaryKeys, columns, rows[i]).error)
    ensures EntryFor(primaryKeys, columns, rows[i]).Success? ==>
      Entries(primaryKeys, columns, rows[..i + 1]) == Success(entries + [EntryFor(primaryKeys, columns, rows[i]).value])
  {
    assert rows[..i + 1][..i] == rows[..i];
  }

  /** The first failing row decides: a failure on a prefix is the failure of the whole batch. */
  lemma {:induction false} EntriesPrefixFailure(primaryKeys: seq<string>, columns: seq<string>, rows: seq<Row>, k: nat)
    requires k <= |rows|
    requires Entries(primaryKeys, columns, rows[..k]).Failure?
    ensures Entries(primaryKeys, columns, rows) == Entries(primaryKeys, columns, rows[..k])
    decreases |rows| - k
  {
    if k < |rows| {
      var longer := rows[..k + 1];
      assert longer[..k] == rows[..k];
      assert longer[..|longer| - 1] == rows[..k];
      EntriesPrefixFailure(primaryKeys, columns, rows, k + 1);
    } else {
      assert rows[..k] == rows;
    }
  }

  /** The entry of a row, built step by step as the source does it. */
  method BuildEntry(primaryKeys: seq<string>, columns: seq<string>, row: Row) returns (r: Result<Entry>)
    ensures r == EntryFor(primaryKeys, columns, row)
  {
    var changeType := GetChangeType(row);
    if changeType.Failure? {
      return Failure(changeType.error);
    }
    var data;
    if changeType.value == Deleted {
      data := BuildDictionary(primaryKeys, row);
    } else {
      data := BuildDictionary(columns, row);
    }
    if data.Failure? {
      return Failure(data.error);
    }
    r := Success(Entry(changeType.value, data.value));
  }

  // ---------------------------------------------------------------------
  // Version numbers

  const MinLong := -0x8000_0000_0000_0000
  const MaxLong := 0x7FFF_FFFF_FFFF_FFFF

  predicate AllDigits(s: string)
  {
    forall i :: 0 <= i < |s| ==> '0' <= s[i] <= '9'
  }

  /**
   * long.Parse of a value read with TryGetValue: null is an
   * ArgumentNullException, anything but an optionally signed digit string a
   * FormatException, a value outside the 64-bit range an OverflowException.
   */
  function ParseLong(s: Option<string>): (r: Result<int>)
    ensures s.None? ==> r == Failure(Throw(ArgumentNullException))
    ensures r.Success? ==> MinLong <= r.value <= MaxLong
    ensures s.Some? && |s.value| == 0 ==> r == Failure(Throw(FormatException))
  {
    if s.None? then Failure(Throw(ArgumentNullException))
    else
      var t := s.value;
      var signed := |t| > 0 && (t[0] == '-' || t[0] == '+');
      var digits := if signed then t[1..] else t;
      if |digits| == 0 || !AllDigits(digits) then Failure(Throw(FormatException))
      else
        var n := if signed && t[0] == '-' then -ParseDigits(digits) else ParseDigits(digits);
        if n < MinLong || n > MaxLong then Failure(Throw(OverflowException)) else Success(n)
  }

  /** An optionally negated digit string within the 64-bit range parses to its value. */
  lemma ParseLongOfDigits(negative: bool, digits: string)
    requires |digits| > 0 && AllDigits(digits)
    requires MinLong <= (if negative then -ParseDigits(digits) else ParseDigits(digits)) <= MaxLong
    ensures ParseLong(Some((if negative then "-" else "") + digits)) ==
      Success(if negative then -ParseDigits(digits) else ParseDigits(digits))
  {
    DigitsNonNegative(digits);
    if negative {
      var t := "-" + digits;
      assert t[0] == '-' && t[1..] == digits;
    } else {
      assert "" + digits == digits;
      assert '0' <= digits[0] <= '9';
    }
  }

  /** A digit string reads as a value of at least zero. */
  lemma {:induction false} DigitsNonNegative(s: string)
    requires AllDigits(s)
    ensures ParseDigits(s) >= 0
    decreases |s|
  {
    if |s| > 0 {
      var front := s[..|s| - 1];
      assert AllDigits(front) by {
        forall i | 0 <= i < |front|
          ensures '0' <= front[i] <= '9'
        {
          assert front[i] == s[i];
        }
      }
      DigitsNonNegative(front);
    }
  }

  /** Every 64-bit value reads back from its decimal text. */
  lemma ParseLongFormatted(n: int)
    requires MinLong <= n <= MaxLong
    ensures ParseLong(Some(IntToString(n))) == Success(n)
  {
    var m: nat := if n < 0 then -n else n;
    var digits := NatToString(m);
    ParseNatToString(m);
    assert IntToString(n) == (if n < 0 then "-" else "") + digits;
    ParseLongOfDigits(n < 0, digits);
  }

  /** The parsed SYS_CHANGE_VERSION of every row, or the first parse error. */
  function Versions(rows: seq<Row>): (r: Result<seq<int>>)
    ensures r.Success? ==> |r.value| == |rows|
    ensures r.Success? ==> forall i :: 0 <= i < |rows| ==> ParseLong(Lookup(rows[i], VersionColumn)) == Success(r.value[i])
    ensures r.Success? <==> forall i :: 0 <= i < |rows| ==> ParseLong(Lookup(rows[i], VersionColumn)).Success?
  {
    CollectAll(row => ParseLong(Lookup(row, VersionColumn)), rows)
  }

  /** The versions a loop has collected so far extend by the next row's version. */
  lemma VersionsStep(rows: seq<Row>, i: nat, vs: seq<int>)
    requires i < |rows| && Versions(rows[..i]) == Success(vs)
    ensures var v := ParseLong(Lookup(rows[i], VersionColumn));
      (v.Failure? ==> Versions(rows[..i + 1]) == Failure(v.error)) &&
      (v.Success? ==> Versions(rows[..i + 1]) == Success(vs + [v.value]))
  {
    assert rows[..i + 1][..i] == rows[..i];
  }

  lemma {:induction false} VersionsPrefixFailure(rows: seq<Row>, k: nat)
    requires k <= |rows|
    requires Versions(rows[..k]).Failure?
    ensures Versions(rows) == Versions(rows[..k])
    decreases |rows| - k
  {
    if k < |rows| {
      var longer := rows[..k + 1];
      assert longer[..k] == rows[..k];
      assert longer[..|longer| - 1] == rows[..k];
      VersionsPrefixFailure(rows, k + 1);
    } else {
      assert rows[..k] == rows;
    }
  }

  function MaxOf(vs: seq<int>): (m: int)
    requires |vs| > 0
    ensures m in vs
    ensures forall v :: v in vs ==> v <= m
  {
    if |vs| == 1 then vs[0]
    else
      var rest := MaxOf(vs[1..]);
      assert vs == [vs[0]] + vs[1..];
      if vs[0] >= rest then vs[0] else rest
  }

  /** The versions strictly below a bound, in order. */
  function Below(vs: seq<int>, bound: int): (r: seq<int>)
    ensures forall v :: v in r <==> v in vs && v < bound
  {
    if |vs| == 0 then []
    else
      assert vs == [vs[0]] + vs[1..];
      (if vs[0] < bound then [vs[0]] else []) + Below(vs[1..], bound)
  }

  /**
   * The version the global state may advance to: the second largest
   * distinct version of the batch, or its only version. It is one of the
   * batch's versions, only the largest version lies above it, and it lies
   * below the largest when the batch has two distinct versions.
   */
  function NewVersion(vs: seq<int>): (r: int)
    requires |vs| > 0
    ensures r in vs
    ensures forall v :: v in vs && v > r ==> v == MaxOf(vs)
    ensures (exists v :: v in vs && v != r) ==> r < MaxOf(vs)
  {
    var top := MaxOf(vs);
    var lower := Below(vs, top);
    if |lower| == 0 then top else MaxOf(lower)
  }

  /**
   * CalculateNewVersionNumber over a batch: the rows' versions must parse,
   * and an empty set of versions makes ElementAt(0) throw.
   */
  function NewVersionNumber(rows: seq<Row>): (r: Result<int>)
    ensures Versions(rows).Failure? ==> r == Failure(Versions(rows).error)
    ensures |rows| == 0 ==> r == Failure(Throw(ArgumentOutOfRangeException))
    ensures r.Success? ==> Versions(rows).Success? && r.value == NewVersion(Versions(rows).value)
  {
    var vs :- Versions(rows);
    if |vs| == 0 then Failure(Throw(ArgumentOutOfRangeException)) else Success(NewVersion(vs))
  }

  /** Two distinct versions 7 and 9, seen several times: the batch advances to 7. */
  lemma NewVersionExamples()
    ensures NewVersion([9, 7, 9, 7]) == 7
    ensures NewVersion([4, 4, 4]) == 4
    ensures NewVersion([5, 3, 8]) == 5
  {
    TwoVersionsRepeated();
    OneVersionOnly();
    ThreeDistinctVersions();
  }

  /** Versions 9 and 7, each seen twice: the batch advances to 7. */
  lemma TwoVersionsRepeated()
    ensures NewVersion([9, 7, 9, 7]) == 7
  {
    assert MaxOf([9, 7, 9, 7]) == 9;
    assert 7 in [9, 7, 9, 7];
  }

  /** A single version, seen three times, is the one advanced to. */
  lemma OneVersionOnly()
    ensures NewVersion([4, 4, 4]) == 4
  {
    assert MaxOf([4, 4, 4]) == 4;
  }

  /** Versions 5, 3 and 8: the second largest, 5, is advanced to. */
  lemma ThreeDistinctVersions()
    ensures NewVersion([5, 3, 8]) == 5
  {
    var vs := [5, 3, 8];
    assert vs[1..] == [3, 8] && vs[1..][1..] == [8] && vs[1..][1..][1..] == [];
    assert MaxOf([8]) == 8;
    assert MaxOf([3, 8]) == 8;
    assert MaxOf(vs) == 8;
    assert Below([], 8) == [];
    assert Below([8], 8) == [];
    assert Below([3, 8], 8) == [3];
    assert Below(vs, 8) == [5, 3];
    assert [5, 3][1..] == [3];
    assert MaxOf([5, 3]) == 5;
  }

  // ---------------------------------------------------------------------
  // Primary-key column types

  /** One row of the primary-key query: c.name, t.name, c.max_length, c.precision, c.scale. */
  datatype KeyColumn = KeyColumn(name: string, typeName: string, maxLength: int, precision: nat, scale: nat)

  const VariableLengthTypes: seq<string> := ["varchar", "nvarchar", "nchar", "char", "binary", "varbinary"]
  const VariablePrecisionTypes: seq<string> := ["numeric", "decimal"]

  /** Membership in the variable-length list, ordinal or ordinal-ignoring-case. */
  predicate IsVariableLength(typeName: string, ignoreCase: bool)
  {
    if ignoreCase then exists t :: t in VariableLengthTypes && EqualsIgnoreCase(t, typeName)
    else typeName in VariableLengthTypes
  }

  /**
   * The declared type of a key column: a variable-length type gets its
   * length, or "max" for -1; numeric and decimal get precision and scale;
   * every other type name is kept as it is.
   */
  function KeyType(c: KeyColumn, lengthIgnoresCase: bool): (t: string)
    ensures StartsWith(t, c.typeName)
    ensures t == c.typeName <==> !IsVariableLength(c.typeName, lengthIgnoresCase) && c.typeName !in VariablePrecisionTypes
  {
    if IsVariableLength(c.typeName, lengthIgnoresCase) then
      c.typeName + (if c.maxLength == -1 then "(max)" else "(" + IntToString(c.maxLength) + ")")
    else if c.typeName in VariablePrecisionTypes then
      c.typeName + "(" + IntToString(c.precision) + "," + IntToString(c.scale) + ")"
    else c.typeName
  }

  /** The declared type starts with the type name; only a listed type gets a parenthesised suffix. */
  lemma KeyTypeShape(c: KeyColumn, lengthIgnoresCase: bool)
    ensures StartsWith(KeyType(c, lengthIgnoresCase), c.typeName)
    ensures !IsVariableLength(c.typeName, lengthIgnoresCase) && c.typeName !in VariablePrecisionTypes ==>
      KeyType(c, lengthIgnoresCase) == c.typeName
    ensures IsVariableLength(c.typeName, lengthIgnoresCase) && c.maxLength == -1 ==>
      KeyType(c, lengthIgnoresCase) == c.typeName + "(max)"
    ensures IsVariableLength(c.typeName, lengthIgnoresCase) || c.typeName in VariablePrecisionTypes ==>
      var t := KeyType(c, lengthIgnoresCase);
      |t| > |c.typeName| + 2 && t[|c.typeName|] == '(' && t[|t| - 1] == ')'
  {
  }

  /** The text between the parentheses of a declared type. */
  function Arguments(t: string, typeName: string): string
    requires |t| > |typeName| + 1
  {
    t[|typeName| + 1..|t| - 1]
  }

  /** A declared length (not -1) and a declared precision and scale read back from the type text. */
  lemma KeyTypeArgumentsReadBack(c: KeyColumn, lengthIgnoresCase: bool)
    ensures IsVariableLength(c.typeName, lengthIgnoresCase) && c.maxLength >= 0 ==>
      ParseDigits(Arguments(KeyType(c, lengthIgnoresCase), c.typeName)) == c.maxLength
    ensures !IsVariableLength(c.typeName, lengthIgnoresCase) && c.typeName in VariablePrecisionTypes ==>
      var args := Arguments(KeyType(c, lengthIgnoresCase), c.typeName);
      Split(args, ',') == [NatToString(c.precision), NatToString(c.scale)] &&
      ParseDigits(Split(args, ',')[0]) == c.precision && ParseDigits(Split(args, ',')[1]) == c.scale
  {
    var t := KeyType(c, lengthIgnoresCase);
    if IsVariableLength(c.typeName, lengthIgnoresCase) && c.maxLength >= 0 {
      var digits := NatToString(c.maxLength);
      assert t == c.typeName + "(" + digits + ")";
      assert Arguments(t, c.typeName) == digits;
      ParseNatToString(c.maxLength);
    } else if !IsVariableLength(c.typeName, lengthIgnoresCase) && c.typeName in VariablePrecisionTypes {
      var p := NatToString(c.precision);
      var s := NatToString(c.scale);
      assert t == c.typeName + "(" + p + "," + s + ")";
      assert Arguments(t, c.typeName) == p + "," + s;
      assert Join(",", [p, s]) == p + "," + s;
      assert ',' !in p && ',' !in s;
      SplitJoin([p, s], ',');
      ParseNatToString(c.precision);
      ParseNatToString(c.scale);
    }
  }

  /** Each key column's name with its declared type, in reader order. */
  function KeyTypes(columns: seq<KeyColumn>, lengthIgnoresCase: bool): (r: seq<(string, string)>)
    ensures |r| == |columns|
    ensures forall i :: 0 <= i < |columns| ==> r[i] == (columns[i].name, KeyType(columns[i], lengthIgnoresCase))
  {
    seq(|columns|, i requires 0 <= i < |columns| => (columns[i].name, KeyType(columns[i], lengthIgnoresCase)))
  }

  /** One more key column adds its formatted type at the end. */
  lemma KeyTypesSnoc(columns: seq<KeyColumn>, i: nat, lengthIgnoresCase: bool)
    requires i < |columns|
    ensures KeyTypes(columns[..i + 1], lengthIgnoresCase) ==
      KeyTypes(columns[..i], lengthIgnoresCase) + [(columns[i].name, KeyType(columns[i], lengthIgnoresCase))]
  {
    var a := KeyTypes(columns[..i + 1], lengthIgnoresCase);
    var b := KeyTypes(columns[..i], lengthIgnoresCase) + [(columns[i].name, KeyType(columns[i], lengthIgnoresCase))];
    forall j | 0 <= j < |a|
      ensures a[j] == b[j]
    {
      assert columns[..i + 1][j] == columns[j];
      if j < i {
        assert columns[..i][j] == columns[j];
      }
    }
  }

  /** The names of the key columns, in reader order. */
  function ColumnNames(columns: seq<KeyColumn>): (r: seq<string>)
    ensures |r| == |columns| && forall i :: 0 <= i < |columns| ==> r[i] == columns[i].name
  {
    seq(|columns|, i requires 0 <= i < |columns| => columns[i].name)
  }

  function Names(keys: seq<(string, string)>): (r: seq<string>)
    ensures |r| == |keys| && forall i :: 0 <= i < |keys| ==> r[i] == keys[i].0
  {
    seq(|keys|, i requires 0 <= i < |keys| => keys[i].0)
  }

  // ---------------------------------------------------------------------
  // T-SQL fragments built from key and column names

  /** "c.k1, c.k2, ...": the change table's key columns. */
  function KeySelectItems(keys: seq<string>): (r: seq<string>)
    ensures |r| == |keys| && forall i :: 0 <= i < |keys| ==> r[i] == "c." + keys[i]
  {
    Prefixed("c.", keys)
  }

  function PrimaryKeysSelectList(keys: seq<string>): string
  {
    Join(", ", KeySelectItems(keys))
  }

  /** "c.k1 = a.k1 AND c.k2 = a.k2 ...": the join of the change table with the table of the given alias. */
  function JoinCondition(keys: seq<string>, alias: string): string
  {
    Join(" AND ", seq(|keys|, i requires 0 <= i < |keys| => "c." + keys[i] + " = " + alias + "." + keys[i]))
  }

  /** The table's columns that are not primary keys, in table order. */
  function NonKeyColumns(columns: seq<string>, keys: seq<string>): (r: seq<string>)
    ensures forall c :: c in r <==> c in columns && c !in keys
    ensures |r| <= |columns|
    ensures (forall c :: c in columns ==> c in keys) <==> r == []
  {
    if |columns| == 0 then []
    else
      assert columns == [columns[0]] + columns[1..];
      (if columns[0] in keys then [] else [columns[0]]) + NonKeyColumns(columns[1..], keys)
  }

  function UserSelectItems(columns: seq<string>, keys: seq<string>): (r: seq<string>)
    ensures |r| == |NonKeyColumns(columns, keys)|
    ensures forall i :: 0 <= i < |r| ==> r[i] == "u." + NonKeyColumns(columns, keys)[i]
  {
    var cols := NonKeyColumns(columns, keys);
    seq(|cols|, i requires 0 <= i < |cols| => "u." + cols[i])
  }

  /** Each item followed by the separator. */
  function Terminated(items: seq<string>, sep: string): string
  {
    if |items| == 0 then "" else items[0] + sep + Terminated(items[1..], sep)
  }

  /** A non-empty join with a trailing separator is the list of items each followed by the separator. */
  lemma {:induction false} JoinThenSeparator(items: seq<string>, sep: string)
    requires |items| > 0
    ensures Join(sep, items) + sep == Terminated(items, sep)
    decreases |items|
  {
    if |items| > 1 {
      JoinThenSeparator(items[1..], sep);
    }
  }

  /**
   * The user-table columns of the change query: "u.c, " for every non-key
   * column, so the list is empty exactly when every column is a key.
   */
  function UserColumnsSelectList(columns: seq<string>, keys: seq<string>): (r: string)
    ensures r == Terminated(UserSelectItems(columns, keys), ", ")
    ensures r == "" <==> forall c :: c in columns ==> c in keys
  {
    var items := UserSelectItems(columns, keys);
    if |items| == 0 then ""
    else
      JoinThenSeparator(items, ", ");
      Join(", ", items) + ", "
  }

  /**
   * The start of the change query's select list in the revisions that
   * build the user-column list with its trailing separator: every item is
   * a column reference and none is empty.
   */
  function ChangeSelectPrefix(keys: seq<string>, columns: seq<string>): (r: string)
    requires |keys| > 0
    ensures r == Join(", ", KeySelectItems(keys) + UserSelectItems(columns, keys) + ["c.SYS_CHANGE_VERSION"])
  {
    var text := PrimaryKeysSelectList(keys) + ", " + UserColumnsSelectList(columns, keys) + "c.SYS_CHANGE_VERSION";
    SelectPrefixAsJoin(keys, columns);
    text
  }

  /** Joining two non-empty runs and an item is joining each run and putting the separator between. */
  lemma JoinThree(sep: string, a: seq<string>, b: seq<string>, v: string)
    requires |a| > 0 && |b| > 0
    ensures Join(sep, a + b + [v]) == Join(sep, a) + sep + Join(sep, b) + sep + v
  {
    JoinAppend(sep, b, [v]);
    JoinAppend(sep, a, b + [v]);
    assert a + b + [v] == a + (b + [v]);
  }

  lemma SelectPrefixAsJoin(keys: seq<string>, columns: seq<string>)
    requires |keys| > 0
    ensures PrimaryKeysSelectList(keys) + ", " + UserColumnsSelectList(columns, keys) + "c.SYS_CHANGE_VERSION" ==
            Join(", ", KeySelectItems(keys) + UserSelectItems(columns, keys) + ["c.SYS_CHANGE_VERSION"])
  {
    var ks, us, v := KeySelectItems(keys), UserSelectItems(columns, keys), "c.SYS_CHANGE_VERSION";
    assert PrimaryKeysSelectList(keys) == Join(", ", ks);
    if |us| == 0 {
      assert UserColumnsSelectList(columns, keys) == "";
      assert ks + us + [v] == ks + [v];
      JoinAppend(", ", ks, [v]);
    } else {
      assert UserColumnsSelectList(columns, keys) == Join(", ", us) + ", ";
      JoinThree(", ", ks, us, v);
    }
  }

  /** Every item of the select list is non-empty. */
  lemma SelectItemsNonEmpty(keys: seq<string>, columns: seq<string>)
    ensures forall item :: item in KeySelectItems(keys) + UserSelectItems(columns, keys) + ["c.SYS_CHANGE_VERSION"] ==> item != ""
  {
  }

  /** The lease where-check of the index-th row: "k = @k_index" for every key, joined by " AND ". */
  function WhereClauses(keys: seq<string>, index: nat): (r: seq<string>)
    ensures |r| == |keys| && forall i :: 0 <= i < |keys| ==> r[i] == keys[i] + " = @" + keys[i] + "_" + NatToString(index)
  {
    seq(|keys|, i requires 0 <= i < |keys| => keys[i] + " = @" + keys[i] + "_" + NatToString(index))
  }

  function WhereCheck(keys: seq<string>, index: nat): string
  {
    Join(" AND ", WhereClauses(keys, index))
  }

  /** The where-checks of a whole batch: one per row, the index-th for row index. */
  function WhereChecks(keys: seq<string>, count: nat): (r: seq<string>)
    ensures |r| == count && forall i :: 0 <= i < count ==> r[i] == WhereCheck(keys, i)
  {
    seq(count, i requires 0 <= i < count => WhereCheck(keys, i))
  }

  /** Each key's equality with its row-numbered parameter is part of that row's where-check. */
  lemma WhereCheckMentionsEveryKey(keys: seq<string>, index: nat)
    ensures forall i :: 0 <= i < |keys| ==>
      Contains(WhereCheck(keys, index), keys[i] + " = @" + keys[i] + "_" + NatToString(index))
  {
    JoinContainsParts(" AND ", WhereClauses(keys, index));
  }
}
