/**
 * SqlTableWatchers, an earlier revision of the change trigger: the
 * performance monitor's scale recommendation, and the parts of its
 * SqlTableChangeMonitor that differ from the current monitor (the schema
 * read at start, the lazily cached query fragments, clearing and
 * releasing the batch). The change-type decoding, the entry building and
 * the version rule are the ones in ChangeTracking.
 */
module TableWatchers {
  import opened Common
  import opened ChangeTracking
  import ChangeMonitors

  const TableNameMessage := "User table name cannot be null or empty"
  const ConnectionStringMessage := "SQL connection string cannot be null or empty"
  const GlobalStateTable := "[az_func].[Global_State_Table]"
  const WorkerTablePrefix := "[az_func].[Worker_Table_"
  const PollingIntervalInSeconds := 10

  /** string.IsNullOrEmpty. */
  predicate NullOrEmpty(s: Option<string>)
  {
    s.None? || s.value == ""
  }

  /**
   * The argument checks of the watcher constructors, in their order: the
   * table name, then the connection string, then the required services
   * (executor, logger), a missing one of which is an ArgumentNullException.
   */
  function ConstructorArguments(table: Option<string>, connectionString: Option<string>, missingService: bool): (r: Option<Exception>)
    ensures r.None? <==> !NullOrEmpty(table) && !NullOrEmpty(connectionString) && !missingService
    ensures NullOrEmpty(table) ==> r == Some(ThrowWith(ArgumentException, TableNameMessage))
    ensures !NullOrEmpty(table) && NullOrEmpty(connectionString) ==> r == Some(ThrowWith(ArgumentException, ConnectionStringMessage))
    ensures r.Some? && r.value.kind == ArgumentNullException <==> !NullOrEmpty(table) && !NullOrEmpty(connectionString) && missingService
  {
    if NullOrEmpty(table) then Some(ThrowWith(ArgumentException, TableNameMessage))
    else if NullOrEmpty(connectionString) then Some(ThrowWith(ArgumentException, ConnectionStringMessage))
    else if missingService then Some(Throw(ArgumentNullException))
    else None
  }

  // ---------------------------------------------------------------------
  // SqlPerformanceMonitor

  /** ScaleRecommendation.ScaleAction; NoAction is the enum's None. */
  datatype ScaleAction = NoAction | AddWorker | RemoveWorker

  datatype ScaleRecommendation = ScaleRecommendation(action: ScaleAction, keepWorkersAlive: bool, reason: string)

  /** SqlHeartbeat: the unprocessed change count with the recommendation made from it. */
  datatype Heartbeat = Heartbeat(unprocessedChanges: int, recommendation: ScaleRecommendation)

  const FirstWorkerReason := "First worker"
  const PendingReasonPrefix := "Number of unprocessed changes is "
  const NoChangesReason := "No unprocessed changes for user table"

  /** The SqlPerformanceMonitor constructor: only a logger is a required service. */
  function PerformanceMonitorArguments(table: Option<string>, connectionString: Option<string>, hasLogger: bool): (r: Option<Exception>)
    ensures r.None? <==> !NullOrEmpty(table) && !NullOrEmpty(connectionString) && hasLogger
    ensures r.Some? && r.value.kind == ArgumentNullException <==> !NullOrEmpty(table) && !NullOrEmpty(connectionString) && !hasLogger
  {
    ConstructorArguments(table, connectionString, !hasLogger)
  }

  /** GetUnprocessedChanges: the count the query read, or -1 when it read no row. */
  function UnprocessedChanges(read: Option<int>): int
  {
    if read.Some? then read.value else -1
  }

  function FailedCountMessage(userTable: string): string
  {
    "Failed to get the number of unprocessed changes for user table " + userTable
  }

  /**
   * MakeScaleRecommendation: pending changes always add a worker and keep
   * the workers alive; no pending change removes a worker if there is one
   * and lets the workers go; a negative count (the query's failure
   * sentinel) is an exception.
   */
  function MakeScaleRecommendation(userTable: string, workerCount: int, unprocessedChanges: int): (r: Result<Heartbeat>)
    ensures r.Success? <==> unprocessedChanges >= 0
    ensures unprocessedChanges < 0 ==> r == Failure(ThrowWith(GeneralException, FailedCountMessage(userTable)))
    ensures r.Success? ==> r.value.unprocessedChanges == unprocessedChanges
    ensures r.Success? ==> (r.value.recommendation.keepWorkersAlive <==> unprocessedChanges > 0)
    ensures r.Success? ==> (r.value.recommendation.action == AddWorker <==> unprocessedChanges > 0)
    ensures r.Success? ==> (r.value.recommendation.action == RemoveWorker <==> unprocessedChanges == 0 && workerCount > 0)
    ensures r.Success? ==> (r.value.recommendation.action == NoAction <==> unprocessedChanges == 0 && workerCount <= 0)
    ensures unprocessedChanges > 0 && workerCount == 0 ==> r.value.recommendation.reason == FirstWorkerReason
    ensures unprocessedChanges > 0 && workerCount != 0 ==>
      r.value.recommendation.reason == PendingReasonPrefix + IntToString(unprocessedChanges)
    ensures unprocessedChanges == 0 ==> r.value.recommendation.reason == NoChangesReason
  {
    if unprocessedChanges > 0 then
      if workerCount == 0 then Success(Heartbeat(unprocessedChanges, ScaleRecommendation(AddWorker, true, FirstWorkerReason)))
      else
        Success(Heartbeat(unprocessedChanges,
          ScaleRecommendation(AddWorker, true, PendingReasonPrefix + IntToString(unprocessedChanges))))
    else if unprocessedChanges == 0 then
      Success(Heartbeat(unprocessedChanges,
        ScaleRecommendation(if workerCount > 0 then RemoveWorker else NoAction, false, NoChangesReason)))
    else Failure(ThrowWith(GeneralException, FailedCountMessage(userTable)))
  }

  /**
   * A recommendation is made exactly when the count query read a
   * non-negative count; a query that read no row always ends in the
   * exception.
   */
  lemma RecommendationOfQuery(userTable: string, workerCount: int, read: Option<int>)
    ensures MakeScaleRecommendation(userTable, workerCount, UnprocessedChanges(read)).Success? <==>
      read.Some? && read.value >= 0
    ensures read.None? ==>
      MakeScaleRecommendation(userTable, workerCount, UnprocessedChanges(read)) ==
      Failure(ThrowWith(GeneralException, FailedCountMessage(userTable)))
  {
  }

  /** The reason given for a pending batch reads back as the count it reports. */
  lemma PendingReasonReadsBack(userTable: string, workerCount: int, unprocessedChanges: int)
    requires 0 < unprocessedChanges <= MaxLong && workerCount != 0
    ensures var reason := MakeScaleRecommendation(userTable, workerCount, unprocessedChanges).value.recommendation.reason;
      StartsWith(reason, PendingReasonPrefix) &&
      ParseLong(Some(reason[|PendingReasonPrefix|..])) == Success(unprocessedChanges)
  {
    var reason := PendingReasonPrefix + IntToString(unprocessedChanges);
    assert reason[|PendingReasonPrefix|..] == IntToString(unprocessedChanges);
    assert reason[..|PendingReasonPrefix|] == PendingReasonPrefix;
    ParseLongFormatted(unprocessedChanges);
  }

  // ---------------------------------------------------------------------
  // Worker table and schema

  /** The worker table of a user table, named after its OBJECT_ID. */
  function WorkerTableName(userTableId: int): (name: string)
    ensures StartsWith(name, WorkerTablePrefix) && name[|name| - 1] == ']'
  {
    var name := WorkerTablePrefix + IntToString(userTableId) + "]";
    assert name[..|WorkerTablePrefix|] == WorkerTablePrefix;
    name
  }

  /** The OBJECT_ID reads back from the worker table's name. */
  lemma WorkerTableNameReadsBack(userTableId: int)
    requires MinLong <= userTableId <= MaxLong
    ensures var name := WorkerTableName(userTableId);
      |name| >= |WorkerTablePrefix| + 1 &&
      ParseLong(Some(name[|WorkerTablePrefix|..|name| - 1])) == Success(userTableId)
  {
    var name := WorkerTableName(userTableId);
    assert name[|WorkerTablePrefix|..|name| - 1] == IntToString(userTableId);
    ParseLongFormatted(userTableId);
  }

  /**
   * The OBJECT_ID query of GetUserTableSchemaAsync: `None` when it read no
   * row, `Some(None)` when OBJECT_ID returned NULL; both are an
   * InvalidOperationException.
   */
  function UserTableId(read: Option<Option<int>>): (r: Result<int>)
    ensures r.Success? <==> read.Some? && read.value.Some?
    ensures r.Success? ==> r.value == read.value.value
    ensures r.Failure? ==> r.error.kind == InvalidOperationException
  {
    match read
    case None => Failure(Throw(InvalidOperationException))
    case Some(None) => Failure(Throw(InvalidOperationException))
    case Some(Some(id)) => Success(id)
  }

  /**
   * How far Dictionary.Add gets through a list of keys: the length of the
   * longest prefix without a repeated name. The whole list when its names
   * are distinct; otherwise the index of the first name already seen.
   */
  function FirstRepeat(names: seq<string>): (n: nat)
    ensures n <= |names| && Distinct(names[..n])
    ensures n < |names| ==> names[n] in names[..n]
    ensures n == |names| <==> Distinct(names)
    decreases |names|
  {
    if |names| == 0 then 0
    else
      var init := names[..|names| - 1];
      var m := FirstRepeat(init);
      if m < |init| then
        assert names[..m] == init[..m] && names[m] == init[m];
        assert !Distinct(names) by {
          var j :| 0 <= j < m && init[..m][j] == init[m];
          assert names[j] == names[m];
        }
        m
      else
        assert init[..m] == init;
        if names[|names| - 1] in init then
          assert names[..|names| - 1] == init;
          var j :| 0 <= j < |init| && init[j] == names[|names| - 1];
          assert names[j] == names[|names| - 1];
          |init|
        else
          assert names[..|names|] == names;
          |names|
  }

  /** A prefix without repeats has no name that already occurs before it. */
  lemma NoEarlierRepeat(names: seq<string>, a: nat, b: nat)
    ensures a < b <= |names| && Distinct(names[..b]) ==> names[a] !in names[..a]
  {
    if a < b <= |names| && Distinct(names[..b]) {
      forall j | 0 <= j < a ensures names[..a][j] != names[a] {
        assert names[..a][j] == names[..b][j] && names[a] == names[..b][a];
      }
    }
  }

  /** The prefix FirstRepeat measures is the only one with its two properties. */
  lemma FirstRepeatUnique(names: seq<string>, n: nat)
    requires n <= |names| && Distinct(names[..n])
    requires n < |names| ==> names[n] in names[..n]
    ensures n == FirstRepeat(names)
  {
    var m := FirstRepeat(names);
    NoEarlierRepeat(names, n, m);
    NoEarlierRepeat(names, m, n);
  }

  // ---------------------------------------------------------------------
  // The cached query fragments

  /** The four fragments BuildCheckForChangesCommand keeps in _queryStrings. */
  datatype CheckFragments = CheckFragments(
    primaryKeysSelectList: string,
    userTableColumnsSelectList: string,
    leftOuterJoinWorkerTable: string,
    leftOuterJoinUserTable: string)

  /** The fragments this revision computes on first use; the column list ends in ", " unless it is empty. */
  function FreshCheckFragments(keys: seq<string>, columns: seq<string>): (f: CheckFragments)
    ensures f.userTableColumnsSelectList == "" <==> forall c :: c in columns ==> c in keys
    ensures f.primaryKeysSelectList == Join(", ", KeySelectItems(keys))
  {
    CheckFragments(PrimaryKeysSelectList(keys), UserColumnsSelectList(columns, keys),
                   JoinCondition(keys, "w"), JoinCondition(keys, "u"))
  }

  /** The select list of the change query up to the change version, as this revision assembles it. */
  function ChangeQuerySelectPrefix(f: CheckFragments): string
  {
    f.primaryKeysSelectList + ", " + f.userTableColumnsSelectList + "c.SYS_CHANGE_VERSION"
  }

  /** Assembled from fresh fragments, it is the comma-separated list of non-empty select items, also when every column is a key. */
  lemma FreshSelectPrefixWellFormed(keys: seq<string>, columns: seq<string>)
    requires |keys| > 0
    ensures ChangeQuerySelectPrefix(FreshCheckFragments(keys, columns)) == ChangeSelectPrefix(keys, columns)
    ensures forall item :: item in KeySelectItems(keys) + UserSelectItems(columns, keys) + ["c.SYS_CHANGE_VERSION"] ==> item != ""
  {
    SelectPrefixAsJoin(keys, columns);
    SelectItemsNonEmpty(keys, columns);
  }

  // ---------------------------------------------------------------------
  // Creating the tables

  /** Two names spliced between three fixed texts; both names occur in the result. */
  function Spliced(opening: string, first: string, middle: string, second: string, closing: string): (m: string)
    ensures Contains(m, first) && Contains(m, second)
  {
    ContainsMiddle(opening, first, middle + second + closing);
    ContainsMiddle(opening + first + middle, second, closing);
    assert opening + first + (middle + second + closing) == opening + first + middle + second + closing;
    opening + first + middle + second + closing
  }

  const ChangeTrackingOffOpening := "Failed to start processing changes to table "
  const ChangeTrackingOffMiddle := ", potentially because change tracking was not enabled for the table or database "

  /** The message CreateWorkerTablesAsync throws when the global state row cannot be inserted. */
  function ChangeTrackingOffMessage(userTable: string, database: string): (m: string)
    ensures Contains(m, userTable) && Contains(m, database)
  {
    Spliced(ChangeTrackingOffOpening, userTable, ChangeTrackingOffMiddle, database, ".")
  }

  /**
   * What the three commands of CreateWorkerTablesAsync that follow the
   * schema read threw, if anything: creating the global state table,
   * inserting this table's row into it, creating the worker table; and the
   * connection's database name.
   */
  datatype TableCreation = TableCreation(createGlobalStateTable: Option<Exception>, insertGlobalStateRow: Option<Exception>,
                                         createWorkerTable: Option<Exception>, database: string)

  /**
   * The commands run in order and the first exception ends the method. The
   * insert fails when CHANGE_TRACKING_MIN_VALID_VERSION is NULL, that is
   * when change tracking is off, and its exception, whatever it was, is
   * replaced by an InvalidOperationException naming the table and the
   * database; the other two propagate as they are.
   */
  function CreationError(userTable: string, c: TableCreation): (e: Option<Exception>)
    ensures e.None? <==> c.createGlobalStateTable.None? && c.insertGlobalStateRow.None? && c.createWorkerTable.None?
    ensures c.createGlobalStateTable.Some? ==> e == c.createGlobalStateTable
    ensures c.createGlobalStateTable.None? && c.insertGlobalStateRow.Some? ==>
      e.Some? && e.value.kind == InvalidOperationException && e.value.inner.None? &&
      Contains(e.value.message, userTable) && Contains(e.value.message, c.database)
    ensures c.createGlobalStateTable.None? && c.insertGlobalStateRow.None? ==> e == c.createWorkerTable
  {
    if c.createGlobalStateTable.Some? then c.createGlobalStateTable
    else if c.insertGlobalStateRow.Some? then
      var m := ChangeTrackingOffMessage(userTable, c.database);
      assert Contains(m, userTable) && Contains(m, c.database);
      Some(Exception(InvalidOperationException, m, None))
    else c.createWorkerTable
  }

  // ---------------------------------------------------------------------
  // SqlTableChangeMonitor of this revision

  class TableChangeMonitor {
    const userTable: string
    var primaryKeys: seq<(string, string)>
    var userTableColumns: seq<string>
    var workerTable: Option<string>
    var rows: seq<Row>
    var whereChecks: seq<string>
    var state: ChangeMonitors.State
    var leaseRenewalCount: int
    /** _queryStrings: empty until the first change query, then the four fragments. */
    var queryStrings: Option<CheckFragments>

    /** Checking for changes holds no batch, no where-check and a zero renewal count. */
    ghost predicate Valid()
      reads this
    {
      state == ChangeMonitors.CheckingForChanges ==> rows == [] && whereChecks == [] && leaseRenewalCount == 0
    }

    /** The constructor once its argument checks passed; the schema is read by Start. */
    constructor (table: string, connectionString: string)
      requires ConstructorArguments(Some(table), Some(connectionString), false).None?
      ensures Valid()
      ensures userTable == table && primaryKeys == [] && userTableColumns == [] && workerTable.None?
      ensures rows == [] && whereChecks == [] && state == ChangeMonitors.CheckingForChanges && leaseRenewalCount == 0
      ensures queryStrings.None?
    {
      userTable := table;
      primaryKeys := [];
      userTableColumns := [];
      workerTable := None;
      rows := [];
      whereChecks := [];
      state := ChangeMonitors.CheckingForChanges;
      leaseRenewalCount := 0;
      queryStrings := None;
    }

    /**
     * DeterminePrimaryKeyTypes: each key column with its formatted type is
     * added to the (cleared) dictionary; a repeated name makes Add throw
     * and leaves the keys added before it. This revision accepts a table
     * without keys.
     */
    method DeterminePrimaryKeyTypes(columns: seq<KeyColumn>) returns (error: Option<Exception>)
      modifies this
      ensures primaryKeys == KeyTypes(columns[..FirstRepeat(ColumnNames(columns))], false)
      ensures error.None? <==> Distinct(ColumnNames(columns))
      ensures error.Some? ==> error.value == Throw(ArgumentException)
      ensures userTableColumns == old(userTableColumns) && rows == old(rows) && whereChecks == old(whereChecks)
      ensures state == old(state) && leaseRenewalCount == old(leaseRenewalCount) && queryStrings == old(queryStrings)
      ensures workerTable == old(workerTable)
    {
      var names := ColumnNames(columns);
      primaryKeys := [];
      var i := 0;
      while i < |columns|
        invariant 0 <= i <= |columns|
        invariant primaryKeys == KeyTypes(columns[..i], false)
        invariant Names(primaryKeys) == names[..i]
        invariant Distinct(names[..i])
        invariant userTableColumns == old(userTableColumns) && rows == old(rows) && whereChecks == old(whereChecks)
        invariant state == old(state) && leaseRenewalCount == old(leaseRenewalCount) && queryStrings == old(queryStrings)
        invariant workerTable == old(workerTable)
      {
        if names[i] in Names(primaryKeys) {
          FirstRepeatUnique(names, i);
          return Some(Throw(ArgumentException));
        }
        assert names[..i + 1] == names[..i] + [names[i]];
        DistinctSnoc(names[..i], names[i]);
        assert columns[..i + 1] == columns[..i] + [columns[i]];
        KeyTypesSnoc(columns, i, false);
        primaryKeys := primaryKeys + [(columns[i].name, KeyType(columns[i], false))];
        i := i + 1;
      }
      assert names[..|columns|] == names;
      FirstRepeatUnique(names, |columns|);
      error := None;
    }

    /**
     * StartAsync (CreateWorkerTablesAsync): the keys, then the column names
     * in table order, then the table's OBJECT_ID, which names the worker
     * table; then the three creation commands. The field is set only once
     * all of it returned.
     */
    method Start(keyColumns: seq<KeyColumn>, columns: seq<string>, objectId: Option<Option<int>>, creation: TableCreation)
      returns (error: Option<Exception>)
      modifies this
      ensures primaryKeys == KeyTypes(keyColumns[..FirstRepeat(ColumnNames(keyColumns))], false)
      ensures !Distinct(ColumnNames(keyColumns)) ==>
        error == Some(Throw(ArgumentException)) && userTableColumns == old(userTableColumns)
      ensures Distinct(ColumnNames(keyColumns)) ==> userTableColumns == columns
      ensures Distinct(ColumnNames(keyColumns)) && UserTableId(objectId).Failure? ==> error == Some(UserTableId(objectId).error)
      ensures Distinct(ColumnNames(keyColumns)) && UserTableId(objectId).Success? ==> error == CreationError(userTable, creation)
      ensures error.None? <==>
        Distinct(ColumnNames(keyColumns)) && UserTableId(objectId).Success? && CreationError(userTable, creation).None?
      ensures error.None? ==> workerTable == Some(WorkerTableName(UserTableId(objectId).value))
      ensures error.Some? ==> workerTable == old(workerTable)
      ensures rows == old(rows) && whereChecks == old(whereChecks) && state == old(state)
      ensures leaseRenewalCount == old(leaseRenewalCount) && queryStrings == old(queryStrings)
    {
      error := DeterminePrimaryKeyTypes(keyColumns);
      if error.Some? {
        return;
      }
      userTableColumns := columns;
      var id := UserTableId(objectId);
      if id.Failure? {
        return Some(id.error);
      }
      var name := WorkerTableName(id.value);
      error := CreationError(userTable, creation);
      if error.Some? {
        return;
      }
      workerTable := Some(name);
    }

    /**
     * BuildCheckForChangesCommand's cache: the fragments are computed from
     * the schema on first use and read back unchanged afterwards.
     */
    method BuildCheckForChangesCommand() returns (fragments: CheckFragments)
      modifies this
      ensures old(queryStrings).None? ==> fragments == FreshCheckFragments(Names(primaryKeys), userTableColumns)
      ensures old(queryStrings).Some? ==> fragments == old(queryStrings).value
      ensures queryStrings == Some(fragments)
      ensures primaryKeys == old(primaryKeys) && userTableColumns == old(userTableColumns) && workerTable == old(workerTable)
      ensures rows == old(rows) && whereChecks == old(whereChecks) && state == old(state)
      ensures leaseRenewalCount == old(leaseRenewalCount)
    {
      if queryStrings.None? {
        queryStrings := Some(FreshCheckFragments(Names(primaryKeys), userTableColumns));
      }
      fragments := queryStrings.value;
    }

    /** ClearRows: back to checking for changes with no batch and a zero count. */
    method ClearRows()
      modifies this
      ensures Valid()
      ensures leaseRenewalCount == 0 && rows == [] && whereChecks == [] && state == ChangeMonitors.CheckingForChanges
      ensures primaryKeys == old(primaryKeys) && userTableColumns == old(userTableColumns)
      ensures workerTable == old(workerTable) && queryStrings == old(queryStrings)
    {
      leaseRenewalCount := 0;
      rows := [];
      whereChecks := [];
      state := ChangeMonitors.CheckingForChanges;
    }

    /**
     * ReleaseLeasesAsync: the new version is computed before the try, so a
     * failure there propagates with the batch still held; otherwise the
     * release and the version update run, and whatever their outcome the
     * finally block clears the batch.
     */
    method ReleaseLeases() returns (newVersion: Result<int>)
      requires Valid()
      modifies this
      ensures Valid()
      ensures newVersion == NewVersionNumber(old(rows))
      ensures newVersion.Success? ==>
        rows == [] && whereChecks == [] && state == ChangeMonitors.CheckingForChanges && leaseRenewalCount == 0
      ensures newVersion.Failure? ==>
        rows == old(rows) && whereChecks == old(whereChecks) && state == old(state) && leaseRenewalCount == old(leaseRenewalCount)
      ensures primaryKeys == old(primaryKeys) && userTableColumns == old(userTableColumns)
      ensures workerTable == old(workerTable) && queryStrings == old(queryStrings)
    {
      newVersion := NewVersionNumber(rows);
      if newVersion.Failure? {
        return;
      }
      ClearRows();
    }
  }

  /** The schema of a table whose only column is its int key "Id". */
  lemma SingleKeySchema()
    ensures FirstRepeat(["Id"]) == 1 && ColumnNames([KeyColumn("Id", "int", 4, 10, 0)]) == ["Id"]
    ensures Names(KeyTypes([KeyColumn("Id", "int", 4, 10, 0)], false)) == ["Id"]
    ensures FreshCheckFragments(["Id"], ["Id"]).userTableColumnsSelectList == ""
    ensures FreshCheckFragments(["Id"], ["Id"]).primaryKeysSelectList == "c.Id"
  {
    FirstRepeatUnique(["Id"], 1);
    var items := KeySelectItems(["Id"]);
    assert |items| == 1 && items[0] == "c." + "Id";
    assert "c." + "Id" == "c.Id";
    assert items == ["c.Id"];
    assert KeyType(KeyColumn("Id", "int", 4, 10, 0), false) == "int";
  }

  /**
   * The cache is filled from the schema the first command sees: two change
   * queries read the same fragments, and a table whose columns are all keys
   * selects no user column.
   */
  method CachedFragmentsExample() returns (first: CheckFragments, second: CheckFragments)
    ensures first == second
    ensures first.userTableColumnsSelectList == ""
    ensures first.primaryKeysSelectList == "c.Id"
  {
    var monitor := new TableChangeMonitor("dbo.Items", "Server=db");
    SingleKeySchema();
    var keyColumns := [KeyColumn("Id", "int", 4, 10, 0)];
    assert keyColumns[..1] == keyColumns;
    var error := monitor.Start(keyColumns, ["Id"], Some(Some(901)), TableCreation(None, None, None, "Sales"));
    first := monitor.BuildCheckForChangesCommand();
    second := monitor.BuildCheckForChangesCommand();
  }

  /**
   * A table with a key and an OBJECT_ID on a database without change
   * tracking: the global state row cannot be inserted, Start throws an
   * InvalidOperationException naming the table, and no worker table is set.
   */
  method ChangeTrackingOffFailsStart() returns (error: Option<Exception>, workerTable: Option<string>)
    ensures error.Some? && error.value.kind == InvalidOperationException && Contains(error.value.message, "dbo.Items")
    ensures workerTable.None?
  {
    var monitor := new TableChangeMonitor("dbo.Items", "Server=db");
    var keyColumns := [KeyColumn("Id", "int", 4, 10, 0)];
    assert ColumnNames(keyColumns) == ["Id"];
    error := monitor.Start(keyColumns, ["Id"], Some(Some(5)), TableCreation(None, Some(Throw(GeneralException)), None, "Sales"));
    workerTable := monitor.workerTable;
  }
}
