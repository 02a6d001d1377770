/**
 * SqlChangeTrackingConverter of the earlier trigger revision: turns the
 * change rows of a batch into the entries handed to the user's function.
 * Each entry's data comes from re-reading the user table; when no row is
 * read back (typically a deleted row), the primary-key-only dictionary of
 * the change row is used instead.
 *
 * The re-read is abstract: for each change row, what the query gave (its
 * exception, or the reader row it returned, if any) is a parameter; the
 * connection it runs on is built from the converter's configuration for
 * every row. The column list is shared by all rows
 * of one call, filled from the first row read.
 */
module ChangeTrackingConverter {
  import opened Common
  import opened ChangeTracking
  import BindingUtilities
  import LegacyBindingUtilities
  import TableWatchers

  const TableNameMessage := "User table name cannot be null or empty"

  /**
   * The constructor's checks in their order: an empty table is an
   * ArgumentException; a missing connection string setting or
   * configuration an ArgumentNullException. An empty setting name passes.
   */
  function ConstructorArguments(table: Option<string>, connectionStringSetting: Option<string>, hasConfiguration: bool)
    : (r: Option<Exception>)
    ensures r.None? <==> !TableWatchers.NullOrEmpty(table) && connectionStringSetting.Some? && hasConfiguration
    ensures TableWatchers.NullOrEmpty(table) ==> r == Some(ThrowWith(ArgumentException, TableNameMessage))
    ensures !TableWatchers.NullOrEmpty(table) && r.Some? ==> r == Some(Throw(ArgumentNullException))
  {
    if TableWatchers.NullOrEmpty(table) then Some(ThrowWith(ArgumentException, TableNameMessage))
    else if connectionStringSetting.None? then Some(Throw(ArgumentNullException))
    else if !hasConfiguration then Some(Throw(ArgumentNullException))
    else None
  }

  /**
   * This revision's GetChangeType: a missing operation column leaves the
   * code null, and calling Equals on it is a NullReferenceException.
   */
  function ChangeTypeOf(row: Row): (r: Result<ChangeType>)
    ensures r.Success? <==> OperationColumn in row && row[OperationColumn] in {"I", "U", "D"}
    ensures r.Success? ==> OperationCode(r.value) == row[OperationColumn]
    ensures OperationColumn !in row ==> r == Failure(Throw(NullReferenceException))
    ensures OperationColumn in row && r.Failure? ==> r == Failure(Throw(InvalidDataException))
  {
    var code := Lookup(row, OperationColumn);
    if code.None? then Failure(Throw(NullReferenceException))
    else if code.value == "I" then Success(Inserted)
    else if code.value == "U" then Success(Updated)
    else if code.value == "D" then Success(Deleted)
    else Failure(Throw(InvalidDataException))
  }

  /** With the operation column present, this decoder and the shared one agree; only the missing column's exception differs. */
  lemma ChangeTypeAgreesWhenPresent(row: Row)
    ensures OperationColumn in row ==> ChangeTypeOf(row) == GetChangeType(row)
    ensures OperationColumn !in row ==> ChangeTypeOf(row).error.kind == NullReferenceException &&
                                         GetChangeType(row).error.kind == ArgumentException
  {
  }

  /** BuildDefaultDictionary: exactly the primary keys, each with the change row's value (null when absent). */
  function DefaultDictionary(row: Row, primaryKeys: seq<string>): (d: RowData)
    requires Distinct(primaryKeys)
    ensures d.Keys == set k | k in primaryKeys
    ensures forall k :: k in primaryKeys ==> d[k] == Lookup(row, k)
  {
    Project(primaryKeys, row).value
  }

  /** A dictionary read from the user table, every value present. */
  function Present(m: map<string, string>): (d: RowData)
    ensures d.Keys == m.Keys && forall k :: k in m ==> d[k] == Some(m[k])
  {
    map k | k in m :: Some(m[k])
  }

  /**
   * One change row's read-back: the exception OpenAsync, ExecuteReaderAsync
   * or ReadAsync threw, or else the user-table row read, if any.
   */
  type Fetch = Result<Option<seq<LegacyBindingUtilities.Field>>>

  /**
   * GetRowData's dictionary for one change row, and the shared column list
   * after it. The connection is built first, then the query runs; either's
   * exception ends the row.
   */
  function RowPayload(row: Row, primaryKeys: seq<string>, connection: Result<Option<string>>, read: Fetch, cols: seq<string>)
    : (Result<RowData>, seq<string>)
    requires Distinct(primaryKeys)
  {
    if connection.Failure? then (Failure(connection.error), cols)
    else if read.Failure? then (Failure(read.error), cols)
    else if read.value.None? then (Success(DefaultDictionary(row, primaryKeys)), cols)
    else
      var columns := if cols == [] then LegacyBindingUtilities.FieldNames(read.value.value) else cols;
      match LegacyBindingUtilities.RowDictionary(read.value.value, columns)
      case Failure(e) => (Failure(e), columns)
      case Success(m) => (Success(Present(m)), columns)
  }

  /**
   * The entries for the change rows from the column list `cols` on, with
   * `connection` what BuildConnection gives for every row: one entry per
   * row, in row order, each with the row's change type; a row with no
   * user-table row read back carries its primary-key-only dictionary. The
   * first exception is thrown and ends the list, so a connection that
   * cannot be built fails every non-empty batch, after the first row's
   * change type.
   */
  function EntriesFrom(primaryKeys: seq<string>, connection: Result<Option<string>>, rows: seq<Row>, fetched: seq<Fetch>,
                       cols: seq<string>): (r: Result<seq<Entry>>)
    requires Distinct(primaryKeys) && |fetched| == |rows|
    ensures r.Success? ==> |r.value| == |rows| && (|rows| == 0 || connection.Success?)
    ensures r.Success? ==> forall i :: 0 <= i < |rows| ==>
      ChangeTypeOf(rows[i]) == Success(r.value[i].operation) && fetched[i].Success?
    ensures r.Success? ==> forall i :: 0 <= i < |rows| && fetched[i] == Success(None) ==>
      r.value[i].data == DefaultDictionary(rows[i], primaryKeys)
    ensures |rows| > 0 && connection.Failure? ==>
      r == Failure(if ChangeTypeOf(rows[0]).Failure? then ChangeTypeOf(rows[0]).error else connection.error)
    ensures (forall i :: 0 <= i < |rows| ==> fetched[i] == Success(None)) ==>
      (r.Success? <==> (|rows| == 0 || connection.Success?) && forall i :: 0 <= i < |rows| ==> ChangeTypeOf(rows[i]).Success?)
    decreases |rows|
  {
    if |rows| == 0 then Success([])
    else
      match ChangeTypeOf(rows[0])
      case Failure(e) => Failure(e)
      case Success(op) =>
        var (data, columns) := RowPayload(rows[0], primaryKeys, connection, fetched[0], cols);
        match data
        case Failure(e) => Failure(e)
        case Success(d) =>
          var rest := EntriesFrom(primaryKeys, connection, rows[1..], fetched[1..], columns);
          assert forall i :: 1 <= i < |rows| ==> rows[1..][i - 1] == rows[i] && fetched[1..][i - 1] == fetched[i];
          match rest
          case Failure(e) =>
            assert (forall j :: 0 <= j < |fetched[1..]| ==> fetched[1..][j] == Success(None)) ==>
              exists j :: 0 <= j < |rows[1..]| && ChangeTypeOf(rows[1..][j]).Failure?;
            Failure(e)
          case Success(es) => Success([Entry(op, d)] + es)
  }

  /** A list of entries already built, followed by the remaining result. */
  function Prepend(entries: seq<Entry>, r: Result<seq<Entry>>): Result<seq<Entry>>
  {
    if r.Success? then Success(entries + r.value) else r
  }

  /** One step of EntriesFrom at row i, from the column list `cols`. */
  lemma EntriesFromStep(primaryKeys: seq<string>, connection: Result<Option<string>>, rows: seq<Row>, fetched: seq<Fetch>,
                        i: nat, cols: seq<string>, entries: seq<Entry>)
    requires Distinct(primaryKeys) && |fetched| == |rows| && i < |rows|
    ensures var r := Prepend(entries, EntriesFrom(primaryKeys, connection, rows[i..], fetched[i..], cols));
      var payload := RowPayload(rows[i], primaryKeys, connection, fetched[i], cols);
      (ChangeTypeOf(rows[i]).Failure? ==> r == Failure(ChangeTypeOf(rows[i]).error)) &&
      (ChangeTypeOf(rows[i]).Success? && payload.0.Failure? ==> r == Failure(payload.0.error)) &&
      (ChangeTypeOf(rows[i]).Success? && payload.0.Success? ==>
        r == Prepend(entries + [Entry(ChangeTypeOf(rows[i]).value, payload.0.value)],
                     EntriesFrom(primaryKeys, connection, rows[i + 1..], fetched[i + 1..], payload.1)))
  {
    assert rows[i..][0] == rows[i] && fetched[i..][0] == fetched[i];
    assert rows[i..][1..] == rows[i + 1..] && fetched[i..][1..] == fetched[i + 1..];
    var payload := RowPayload(rows[i], primaryKeys, connection, fetched[i], cols);
    if ChangeTypeOf(rows[i]).Success? && payload.0.Success? {
      var rest := EntriesFrom(primaryKeys, connection, rows[i + 1..], fetched[i + 1..], payload.1);
      var e := Entry(ChangeTypeOf(rows[i]).value, payload.0.value);
      if rest.Success? {
        assert entries + ([e] + rest.value) == (entries + [e]) + rest.value;
      }
    }
  }

  /** The converter once its argument checks passed (ProcessTableName is not part of this model). */
  class SqlChangeTrackingConverter {
    const table: string
    const connectionStringSetting: string
    const configuration: BindingUtilities.Configuration

    constructor (table: string, connectionStringSetting: string, configuration: BindingUtilities.Configuration)
      requires ConstructorArguments(Some(table), Some(connectionStringSetting), true).None?
      ensures this.table == table && this.connectionStringSetting == connectionStringSetting
      ensures this.configuration == configuration
    {
      this.table := table;
      this.connectionStringSetting := connectionStringSetting;
      this.configuration := configuration;
    }

    /** The connection every row builds: an InvalidOperationException exactly when the setting name is empty. */
    function Connection(): (r: Result<Option<string>>)
      ensures r.Failure? <==> connectionStringSetting == ""
      ensures r.Failure? ==> r.error == Throw(InvalidOperationException)
      ensures r.Success? ==> r.value == BindingUtilities.GetConnectionStringOrSetting(configuration, connectionStringSetting)
    {
      LegacyBindingUtilities.BuildConnection(Some(connectionStringSetting), Some(configuration))
    }

    /**
     * GetRowData: the primary-key-only dictionary, replaced by the
     * user-table row when the query read one back; building the
     * connection and running the query come first, and their exceptions
     * propagate.
     */
    method GetRowData(row: Row, primaryKeys: seq<string>, fetch: Fetch, cols: LegacyBindingUtilities.ColumnList)
      returns (data: Result<RowData>)
      requires Distinct(primaryKeys)
      modifies cols
      ensures (data, cols.names) == RowPayload(row, primaryKeys, Connection(), fetch, old(cols.names))
      ensures connectionStringSetting == "" ==> data == Failure(Throw(InvalidOperationException)) && cols.names == old(cols.names)
    {
      data := Success(DefaultDictionary(row, primaryKeys));
      var connection := LegacyBindingUtilities.BuildConnection(Some(connectionStringSetting), Some(configuration));
      if connection.Failure? {
        return Failure(connection.error);
      }
      if fetch.Failure? {
        return Failure(fetch.error);
      }
      if fetch.value.Some? {
        var read := LegacyBindingUtilities.BuildDictionaryFromSqlRow(fetch.value.value, cols);
        if read.Failure? {
          return Failure(read.error);
        }
        data := Success(Present(read.value));
      }
    }

    /**
     * BuildSqlChangeTrackingEntries: for each change row, its change type
     * and then its data, with a column list that starts empty.
     */
    method BuildSqlChangeTrackingEntries(rows: seq<Row>, primaryKeys: seq<string>, fetched: seq<Fetch>)
      returns (r: Result<seq<Entry>>)
      requires Distinct(primaryKeys) && |fetched| == |rows|
      ensures r == EntriesFrom(primaryKeys, Connection(), rows, fetched, [])
    {
      var cols := new LegacyBindingUtilities.ColumnList();
      var entries: seq<Entry> := [];
      var i := 0;
      assert rows[0..] == rows && fetched[0..] == fetched;
      ghost var all := EntriesFrom(primaryKeys, Connection(), rows, fetched, []);
      assert all.Success? ==> [] + all.value == all.value;
      while i < |rows|
        invariant 0 <= i <= |rows|
        invariant all == Prepend(entries, EntriesFrom(primaryKeys, Connection(), rows[i..], fetched[i..], cols.names))
      {
        ghost var names := cols.names;
        EntriesFromStep(primaryKeys, Connection(), rows, fetched, i, names, entries);
        var operation := ChangeTypeOf(rows[i]);
        if operation.Failure? {
          return Failure(operation.error);
        }
        var data := GetRowData(rows[i], primaryKeys, fetched[i], cols);
        if data.Failure? {
          return Failure(data.error);
        }
        entries := entries + [Entry(operation.value, data.value)];
        i := i + 1;
      }
      assert rows[i..] == [] && fetched[i..] == [];
      assert entries + [] == entries;
      r := Success(entries);
    }
  }

  /**
   * The constructor lets an empty setting name through, and then the
   * first row's connection throws: a single inserted row with nothing
   * read back fails with InvalidOperationException.
   */
  lemma EmptySettingFailsFirstRow(configuration: BindingUtilities.Configuration)
    ensures ConstructorArguments(Some("t"), Some(""), true).None?
    ensures EntriesFrom([], LegacyBindingUtilities.BuildConnection(Some(""), Some(configuration)),
                        [map[OperationColumn := "I"]], [Success(None)], []) == Failure(Throw(InvalidOperationException))
  {
    var row: Row := map[OperationColumn := "I"];
    assert ChangeTypeOf(row) == Success(Inserted);
  }
}
