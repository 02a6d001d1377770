/**
 * SqlTriggerUtils of the current trigger: reading the primary-key columns
 * and the object id of the user table, naming the leases table (and the
 * one an earlier function id used), deciding which creation errors are
 * benign, and the checks before the global state row is inserted.
 *
 * Query results are parameters: a scalar read is `None` when the reader
 * had no row and `Some(None)` when the value was DBNull.
 */
module TriggerUtils {
  import opened Common
  import opened ChangeTracking
  import BindingUtilities

  const SchemaName := "az_func"
  const LeasesTableNamePrefix := "[az_func].[Leases_"
  const ObjectAlreadyExistsErrorNumber := 2714

  // ---------------------------------------------------------------------
  // GetPrimaryKeyColumns

  function NoPrimaryKeyMessage(userTableName: string): string
  {
    "Could not find primary key created in table: '" + userTableName + "'."
  }

  /**
   * GetPrimaryKeyColumns over the rows the key query read, in reader
   * order: each name with its formatted type (variable-length types
   * matched ignoring case); no row at all is an InvalidOperationException.
   */
  method GetPrimaryKeyColumns(columns: seq<KeyColumn>, userTableName: string) returns (r: Result<seq<(string, string)>>)
    ensures |columns| == 0 ==> r == Failure(ThrowWith(InvalidOperationException, NoPrimaryKeyMessage(userTableName)))
    ensures |columns| > 0 ==> r == Success(KeyTypes(columns, true))
  {
    var keys: seq<(string, string)> := [];
    var i := 0;
    while i < |columns|
      invariant 0 <= i <= |columns|
      invariant keys == KeyTypes(columns[..i], true)
    {
      KeyTypesSnoc(columns, i, true);
      keys := keys + [(columns[i].name, KeyType(columns[i], true))];
      i := i + 1;
    }
    assert columns[..i] == columns;
    if |keys| == 0 {
      return Failure(ThrowWith(InvalidOperationException, NoPrimaryKeyMessage(userTableName)));
    }
    r := Success(keys);
  }

  /** The length rule ignores case. */
  lemma UpperCaseLengthType()
    ensures KeyType(KeyColumn("Id", "VARCHAR", 20, 0, 0), true) == "VARCHAR(20)"
  {
    assert EqualsIgnoreCase("varchar", "VARCHAR") by {
      assert ToLower("VARCHAR") == "varchar";
      assert ToLower("varchar") == "varchar";
    }
    assert "varchar" in VariableLengthTypes;
    var c := KeyColumn("Id", "VARCHAR", 20, 0, 0);
    assert IsVariableLength(c.typeName, true);
    LengthTypeText(c, true);
    assert IntToString(20) == "20" by {
      assert NatToString(2) == "2" && NatToString(0) == "0";
    }
    VarcharTwentyText();
  }

  /** A variable-length type with a set length declares that length in parentheses. */
  lemma LengthTypeText(c: KeyColumn, lengthIgnoresCase: bool)
    requires IsVariableLength(c.typeName, lengthIgnoresCase) && c.maxLength != -1
    ensures KeyType(c, lengthIgnoresCase) == c.typeName + "(" + IntToString(c.maxLength) + ")"
  {
  }

  /** The literal text of a VARCHAR of length 20. */
  lemma VarcharTwentyText()
    ensures "VARCHAR" + "(" + "20" + ")" == "VARCHAR(20)"
  {
  }

  /** The precision rule does not: an upper-case DECIMAL keeps its bare name. */
  lemma UpperCasePrecisionType()
    ensures KeyType(KeyColumn("Id", "DECIMAL", 9, 18, 2), true) == "DECIMAL"
  {
    assert ToLower("DECIMAL") == "decimal";
    DecimalNotVariableLength("DECIMAL");
    assert "DECIMAL" !in VariablePrecisionTypes;
  }

  lemma LowerCasePrecisionType()
    ensures KeyType(KeyColumn("Id", "decimal", 9, 18, 2), true) == "decimal(18,2)"
  {
    assert ToLower("decimal") == "decimal";
    DecimalNotVariableLength("decimal");
    assert NatToString(18) == "18" by {
      assert NatToString(1) == "1" && NatToString(8) == "8";
    }
    assert NatToString(2) == "2";
  }

  /** Whatever its case, "decimal" is not a variable-length type. */
  lemma DecimalNotVariableLength(typeName: string)
    requires ToLower(typeName) == "decimal"
    ensures !IsVariableLength(typeName, true)
  {
    forall t | t in VariableLengthTypes
      ensures !EqualsIgnoreCase(t, typeName)
    {
      assert |t| != 7 || ToLower(t)[0] != 'd';
    }
  }

  // ---------------------------------------------------------------------
  // Scalar reads: the user table's id and its minimum valid version

  const UserTableIdEmptyPrefix := "Received empty response when querying the object ID for table: '"
  const UserTableIdAbsentPrefix := "Could not find table: '"
  const MinValidVersionEmptyPrefix := "Received empty response when querying the 'change tracking min valid version' for table: '"
  const MinValidVersionAbsentPrefix := "Could not find change tracking enabled for table: '"

  /** A single value read: an empty response and a DBNull value are both InvalidOperationExceptions, with their own messages. */
  function ScalarRead(read: Option<Option<int>>, emptyMessage: string, nullMessage: string): (r: Result<int>)
    ensures r.Success? <==> read.Some? && read.value.Some?
    ensures r.Success? ==> r.value == read.value.value
    ensures read.None? ==> r == Failure(ThrowWith(InvalidOperationException, emptyMessage))
    ensures read == Some(None) ==> r == Failure(ThrowWith(InvalidOperationException, nullMessage))
  {
    match read
    case None => Failure(ThrowWith(InvalidOperationException, emptyMessage))
    case Some(None) => Failure(ThrowWith(InvalidOperationException, nullMessage))
    case Some(Some(v)) => Success(v)
  }

  /** GetUserTableIdAsync for the table whose full name is given. */
  function GetUserTableId(read: Option<Option<int>>, fullName: string): (r: Result<int>)
    ensures r.Success? <==> read.Some? && read.value.Some?
    ensures r.Success? ==> r.value == read.value.value
    ensures r.Failure? ==> r.error.kind == InvalidOperationException && r.error.message != ""
  {
    ScalarRead(read, UserTableIdEmptyPrefix + fullName + "'.", UserTableIdAbsentPrefix + fullName + "'.")
  }

  /**
   * The first step of InsertGlobalStateTableRowAsync: the table's
   * minimum valid change-tracking version, without which no row is
   * inserted.
   */
  function MinValidVersion(read: Option<Option<int>>, fullName: string): (r: Result<int>)
    ensures r.Success? <==> read.Some? && read.value.Some?
    ensures r.Success? ==> r.value == read.value.value
    ensures r.Failure? ==> r.error.kind == InvalidOperationException && r.error.message != ""
  {
    ScalarRead(read, MinValidVersionEmptyPrefix + fullName + "'.", MinValidVersionAbsentPrefix + fullName + "'.")
  }

  // ---------------------------------------------------------------------
  // Leases table names

  /** A composite format string with one "{0}" hole: the text before and after it. */
  datatype NameFormat = NameFormat(before: string, after: string)

  function Format(f: NameFormat, argument: string): string
  {
    f.before + argument + f.after
  }

  function DefaultSuffix(userTableId: int): string
  {
    "_" + IntToString(userTableId) + "]"
  }

  /** LeasesTableNameFormat filled with "<function id>_<table id>". */
  function DefaultLeasesTableName(userFunctionId: string, userTableId: int): (r: string)
    ensures StartsWith(r, LeasesTableNamePrefix) && r[|r| - 1] == ']'
  {
    LeasesTableNamePrefix + userFunctionId + DefaultSuffix(userTableId)
  }

  /**
   * GetBracketedLeasesTableName: the default name when no user name is
   * given, else the user-defined format (a constant outside this model,
   * hence a parameter) filled with the bracket-quoted user name.
   */
  function GetBracketedLeasesTableName(userDefinedName: Option<string>, userFunctionId: string, userTableId: int,
                                       userDefinedFormat: NameFormat): (r: string)
    ensures (userDefinedName.None? || userDefinedName == Some("")) ==> r == DefaultLeasesTableName(userFunctionId, userTableId)
    ensures userDefinedName.Some? && userDefinedName.value != "" ==>
      r == Format(userDefinedFormat, BindingUtilities.AsBracketQuotedString(userDefinedName.value))
  {
    if userDefinedName.None? || userDefinedName.value == "" then DefaultLeasesTableName(userFunctionId, userTableId)
    else Format(userDefinedFormat, BindingUtilities.AsBracketQuotedString(userDefinedName.value))
  }

  /** Two ids without '_' are told apart by the text around the first '_'. */
  lemma SplitAtFirstUnderscore(a: string, b: string, c: string, d: string)
    requires '_' !in a && '_' !in c
    requires a + "_" + b == c + "_" + d
    ensures a == c && b == d
  {
    var s := a + "_" + b;
    UnderscoreAfterShorterId(a, b, c, d);
    UnderscoreAfterShorterId(c, d, a, b);
    assert a == s[..|a|] && c == s[..|c|];
    assert b == s[|a| + 1..] && d == s[|c| + 1..];
  }

  /** The '_' after a shorter id falls inside a longer id free of '_'. */
  lemma UnderscoreAfterShorterId(a: string, b: string, c: string, d: string)
    ensures '_' !in c && |a| < |c| ==> a + "_" + b != c + "_" + d
  {
    if '_' !in c && |a| < |c| {
      assert (a + "_" + b)[|a|] == '_';
      assert (c + "_" + d)[|a|] == c[|a|];
    }
  }

  /** A negative number is written with '-', a natural number with a digit first. */
  lemma SignedTextsDiffer(a: int, b: int)
    ensures a < 0 <= b ==> IntToString(a) != IntToString(b)
  {
    if a < 0 <= b {
      assert IntToString(a)[0] == '-';
      assert '0' <= IntToString(b)[0] <= '9';
    }
  }

  lemma NatToStringInjective(a: nat, b: nat)
    requires NatToString(a) == NatToString(b)
    ensures a == b
  {
    ParseNatToString(a);
    ParseNatToString(b);
  }

  lemma IntToStringInjective(a: int, b: int)
    ensures IntToString(a) == IntToString(b) ==> a == b
  {
    SignedTextsDiffer(a, b);
    SignedTextsDiffer(b, a);
    if IntToString(a) == IntToString(b) {
      if a < 0 && b < 0 {
        var x, y := NatToString(-a), NatToString(-b);
        assert ("-" + x)[1..] == x && ("-" + y)[1..] == y;
        NatToStringInjective(-a, -b);
      } else if a >= 0 && b >= 0 {
        NatToStringInjective(a, b);
      }
    }
  }

  /** Between the prefix and the closing bracket, a default leases table name holds "<function id>_<table id>". */
  lemma DefaultLeasesTableNameInner(f: string, t: int)
    ensures var n := DefaultLeasesTableName(f, t);
      n[|LeasesTableNamePrefix|..|n| - 1] == f + "_" + IntToString(t)
  {
    BetweenPrefixAndLast(LeasesTableNamePrefix, f, IntToString(t));
  }

  /** p + f + ("_" + x + "]") holds f + "_" + x between p and its last character. */
  lemma BetweenPrefixAndLast(p: string, f: string, x: string)
    ensures var n := p + f + ("_" + x + "]"); n[|p|..|n| - 1] == f + "_" + x
  {
    var n := p + f + ("_" + x + "]");
    var m := f + "_" + x;
    assert n == p + m + "]";
    assert forall i :: 0 <= i < |m| ==> n[|p| + i] == m[i];
  }

  /** Distinct (function id, table id) pairs get distinct default leases tables, as long as function ids have no '_'. */
  lemma DefaultLeasesTableNamesDistinct(f1: string, t1: int, f2: string, t2: int)
    requires '_' !in f1 && '_' !in f2
    ensures DefaultLeasesTableName(f1, t1) == DefaultLeasesTableName(f2, t2) ==> f1 == f2 && t1 == t2
  {
    if DefaultLeasesTableName(f1, t1) == DefaultLeasesTableName(f2, t2) {
      DefaultLeasesTableNameInner(f1, t1);
      DefaultLeasesTableNameInner(f2, t2);
      SplitAtFirstUnderscore(f1, IntToString(t1), f2, IntToString(t2));
      IntToStringInjective(t1, t2);
    }
  }

  /**
   * The leases table an earlier function id used: every occurrence of
   * the function id replaced by the old id, or "" (no migration) when
   * the name does not contain the function id. string.Replace with an
   * empty value to replace throws an ArgumentException.
   */
  function OldLeasesTableName(leasesTableName: string, userFunctionId: string, oldUserFunctionId: string): (r: Result<string>)
    ensures r.Failure? <==> userFunctionId == ""
    ensures r.Failure? ==> r.error == Throw(ArgumentException)
    ensures userFunctionId != "" && !Contains(leasesTableName, userFunctionId) ==> r == Success("")
    ensures userFunctionId != "" && Contains(leasesTableName, userFunctionId) ==>
      r == Success(Replace(leasesTableName, userFunctionId, oldUserFunctionId))
  {
    if !Contains(leasesTableName, userFunctionId) then Success("")
    else if userFunctionId == "" then Failure(Throw(ArgumentException))
    else Success(Replace(leasesTableName, userFunctionId, oldUserFunctionId))
  }

  /** Replace on a string in which `f` occurs exactly once, at the end of `p`. */
  lemma {:induction false} ReplaceSingleOccurrence(p: string, f: string, q: string, o: string)
    requires |f| > 0
    requires forall k :: 0 <= k < |p| ==> !OccursAt(p + f + q, f, k)
    requires !Contains(q, f)
    ensures Replace(p + f + q, f, o) == p + o + q
    decreases |p|
  {
    var s := p + f + q;
    if |p| == 0 {
      assert s == f + q && f <= s;
      assert s[|f|..] == q;
      ReplaceAbsent(q, f, o);
    } else {
      var t := p[1..] + f + q;
      NoOccurrenceAfterFirst(p, f, q);
      assert !(f <= s) by {
        assert !OccursAt(s, f, 0);
      }
      assert Replace(s, f, o) == [s[0]] + Replace(t, f, o);
      ReplaceSingleOccurrence(p[1..], f, q, o);
      assert [s[0]] + (p[1..] + o + q) == p + o + q;
    }
  }

  /** Dropping the first character keeps `f` absent from the positions before it. */
  lemma NoOccurrenceAfterFirst(p: string, f: string, q: string)
    requires |p| > 0
    requires forall k :: 0 <= k < |p| ==> !OccursAt(p + f + q, f, k)
    ensures (p + f + q)[1..] == p[1..] + f + q
    ensures forall k :: 0 <= k < |p[1..]| ==> !OccursAt(p[1..] + f + q, f, k)
  {
    var s := p + f + q;
    var t := p[1..] + f + q;
    assert s[1..] == t;
    forall k | 0 <= k < |p[1..]|
      ensures !OccursAt(t, f, k)
    {
      assert !OccursAt(s, f, k + 1);
      if k + |f| <= |t| {
        assert t[k..k + |f|] == s[k + 1..k + 1 + |f|];
      }
    }
  }

  /**
   * When the function id occurs in the default leases name only where it
   * was put, the old leases table is the default name of the old id.
   */
  lemma OldLeasesOfDefaultName(userFunctionId: string, oldUserFunctionId: string, userTableId: int)
    requires userFunctionId != ""
    requires forall k :: 0 <= k < |LeasesTableNamePrefix| ==>
      !OccursAt(DefaultLeasesTableName(userFunctionId, userTableId), userFunctionId, k)
    requires !Contains(DefaultSuffix(userTableId), userFunctionId)
    ensures OldLeasesTableName(DefaultLeasesTableName(userFunctionId, userTableId), userFunctionId, oldUserFunctionId) ==
            Success(DefaultLeasesTableName(oldUserFunctionId, userTableId))
  {
    var name := DefaultLeasesTableName(userFunctionId, userTableId);
    assert OccursAt(name, userFunctionId, |LeasesTableNamePrefix|) by {
      assert name[|LeasesTableNamePrefix|..|LeasesTableNamePrefix| + |userFunctionId|] == userFunctionId;
    }
    ContainsAt(name, userFunctionId);
    ReplaceSingleOccurrence(LeasesTableNamePrefix, userFunctionId, DefaultSuffix(userTableId), oldUserFunctionId);
  }

  // ---------------------------------------------------------------------
  // Creation errors

  predicate ObjectAlreadyExists(e: Exception)
  {
    e.kind.SqlException? && e.kind.number == ObjectAlreadyExistsErrorNumber
  }

  /**
   * What escapes CreateSchemaAsync, CreateGlobalStateTableAsync and
   * CreateLeasesTableAsync when their command threw `error`: a SQL error
   * 2714 (the object already exists, created by a racing instance) is
   * logged and swallowed, every other exception is rethrown.
   */
  function CreationOutcome(error: Option<Exception>): (r: Option<Exception>)
    ensures r.None? <==> error.None? || ObjectAlreadyExists(error.value)
    ensures r.Some? ==> r == error
  {
    if error.Some? && !ObjectAlreadyExists(error.value) then error else None
  }

  /** Only the error number matters, not the severity; any other SQL error, or a non-SQL exception, still escapes. */
  lemma CreationOutcomeExamples(severity: int, message: string)
    ensures CreationOutcome(Some(Exception(SqlException(2714, severity), message, None))).None?
    ensures CreationOutcome(Some(Exception(SqlException(2715, severity), message, None))).Some?
    ensures CreationOutcome(Some(Throw(InvalidOperationException))).Some?
  {
  }
}
