/**
 * The helpers of the earlier `SqlBinding` revision: building a connection
 * from configuration and turning a data-reader row into a dictionary,
 * with the column names read once into a caller-owned list.
 */
module LegacyBindingUtilities {
  import opened Common
  import BindingUtilities

  /**
   * BuildConnection: an empty setting name is an InvalidOperationException
   * here (the current revision throws ArgumentException), a missing
   * configuration an ArgumentNullException; the result is the connection
   * string looked up by name.
   */
  function BuildConnection(setting: Option<string>, configuration: Option<BindingUtilities.Configuration>): (r: Result<Option<string>>)
    ensures (setting.None? || setting == Some("")) ==> r == Failure(Throw(InvalidOperationException))
    ensures setting.Some? && setting.value != "" && configuration.None? ==> r == Failure(Throw(ArgumentNullException))
    ensures setting.Some? && setting.value != "" && configuration.Some? ==> r.Success?
    ensures r.Failure? ==> r.error.kind == InvalidOperationException || r.error.kind == ArgumentNullException
    ensures r.Success? ==>
      setting.Some? && configuration.Some? &&
      r.value == BindingUtilities.GetConnectionStringOrSetting(configuration.value, setting.value)
  {
    if setting.None? || setting.value == "" then Failure(Throw(InvalidOperationException))
    else if configuration.None? then Failure(Throw(ArgumentNullException))
    else Success(BindingUtilities.GetConnectionStringOrSetting(configuration.value, setting.value))
  }

  /** One reader column: its name and its value's ToString(). */
  datatype Field = Field(name: string, text: string)

  function FieldNames(row: seq<Field>): (names: seq<string>)
    ensures |names| == |row|
    ensures forall i :: 0 <= i < |row| ==> names[i] == row[i].name
  {
    seq(|row|, i requires 0 <= i < |row| => row[i].name)
  }

  /** reader[name]: the first column with that name, else IndexOutOfRangeException. */
  function Lookup(row: seq<Field>, name: string): (r: Result<string>)
    ensures r.Success? <==> exists i :: 0 <= i < |row| && row[i].name == name
    ensures r.Failure? ==> r.error == Throw(IndexOutOfRangeException)
  {
    if |row| == 0 then Failure(Throw(IndexOutOfRangeException))
    else if row[0].name == name then Success(row[0].text)
    else
      var rest := Lookup(row[1..], name);
      assert forall i :: 1 <= i < |row| ==> row[i] == row[1..][i - 1];
      rest
  }

  /**
   * The dictionary built for a row from a column list: each column in
   * turn is added with reader[column]; Dictionary.Add rejects a column
   * named twice.
   */
  function RowDictionary(row: seq<Field>, cols: seq<string>): Result<map<string, string>>
  {
    if |cols| == 0 then Success(map[])
    else
      var init := cols[..|cols| - 1];
      var last := cols[|cols| - 1];
      match RowDictionary(row, init)
      case Failure(e) => Failure(e)
      case Success(d) =>
        match Lookup(row, last)
        case Failure(e) => Failure(e)
        case Success(v) => if last in d then Failure(Throw(ArgumentException)) else Success(d[last := v])
  }

  /** The caller-owned list of column names (List<string> cols). */
  class ColumnList {
    var names: seq<string>

    constructor ()
      ensures names == []
    {
      names := [];
    }
  }

  /**
   * BuildDictionaryFromSqlRow: an empty column list is first filled with
   * the reader's column names, so later rows of the same reader reuse it;
   * a non-empty list is left as it is.
   */
  method BuildDictionaryFromSqlRow(row: seq<Field>, cols: ColumnList) returns (r: Result<map<string, string>>)
    modifies cols
    ensures cols.names == if old(cols.names) == [] then FieldNames(row) else old(cols.names)
    ensures r == RowDictionary(row, cols.names)
  {
    if |cols.names| == 0 {
      var i := 0;
      while i < |row|
        invariant 0 <= i <= |row|
        invariant cols.names == FieldNames(row[..i])
      {
        assert FieldNames(row[..i + 1]) == FieldNames(row[..i]) + [row[i].name];
        cols.names := cols.names + [row[i].name];
        i := i + 1;
      }
      assert row[..|row|] == row;
    }
    r := ReadRow(row, cols.names);
  }

  /** The dictionary loop: reader[column] added for each column in turn. */
  method ReadRow(row: seq<Field>, names: seq<string>) returns (r: Result<map<string, string>>)
    ensures r == RowDictionary(row, names)
  {
    var result: map<string, string> := map[];
    var j := 0;
    while j < |names|
      invariant 0 <= j <= |names|
      invariant RowDictionary(row, names[..j]) == Success(result)
    {
      assert names[..j + 1][..j] == names[..j];
      var v := Lookup(row, names[j]);
      if v.Failure? {
        RowDictionaryFailureSticks(row, names, j + 1);
        return Failure(v.error);
      }
      if names[j] in result {
        RowDictionaryFailureSticks(row, names, j + 1);
        return Failure(Throw(ArgumentException));
      }
      result := result[names[j] := v.value];
      j := j + 1;
    }
    assert names[..|names|] == names;
    r := Success(result);
  }

  /** Once a prefix of the columns fails, the whole list fails with the same exception. */
  lemma {:induction false} RowDictionaryFailureSticks(row: seq<Field>, cols: seq<string>, k: nat)
    requires k <= |cols|
    requires RowDictionary(row, cols[..k]).Failure?
    ensures RowDictionary(row, cols) == RowDictionary(row, cols[..k])
    decreases |cols| - k
  {
    if k < |cols| {
      assert cols[..k + 1][..k] == cols[..k];
      RowDictionaryFailureSticks(row, cols, k + 1);
    } else {
      assert cols[..k] == cols;
    }
  }

  /**
   * A successful dictionary has exactly the listed columns as keys, each
   * with the value of the first reader column of that name.
   */
  lemma {:induction false} RowDictionaryContents(row: seq<Field>, cols: seq<string>)
    requires RowDictionary(row, cols).Success?
    ensures var d := RowDictionary(row, cols).value;
      d.Keys == (set c | c in cols) &&
      (forall c :: c in d ==> Lookup(row, c) == Success(d[c]))
  {
    if |cols| > 0 {
      var init := cols[..|cols| - 1];
      RowDictionaryContents(row, init);
      assert cols == init + [cols[|cols| - 1]];
    }
  }

  /** The dictionary of a row built from the row's own column names never misses a column. */
  lemma OwnColumnsResolve(row: seq<Field>)
    ensures forall i :: 0 <= i < |row| ==> Lookup(row, FieldNames(row)[i]).Success?
  {
    forall i | 0 <= i < |row| ensures Lookup(row, FieldNames(row)[i]).Success? {
      assert row[i].name == FieldNames(row)[i];
    }
  }
}
