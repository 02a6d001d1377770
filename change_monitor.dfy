/**
 * SqlTableChangeMonitor: the in-memory side of the trigger's polling loop.
 * A batch of change rows is held together with one lease where-check per
 * row; the monitor is either checking for changes (no batch) or
 * processing one (a leased, non-empty batch); the lease-renewal loop
 * counts its ticks while a batch is processed and cancels the user's
 * function on the fifth.
 *
 * The database is abstract: what a query returned or which exception it
 * threw is a parameter of the step that runs it. The two loops of the
 * source run on separate threads under one semaphore; here each of their
 * steps is one method call, so any interleaving of calls is a schedule
 * the semaphore allows.
 */
module ChangeMonitors {
  import opened Common
  import opened ChangeTracking

  const Schema := "az_func"
  const BatchSize := 10
  const MaxDequeueCount := 5
  const MaxLeaseRenewalCount := 5
  const LeaseIntervalInSeconds := 30
  const PollingIntervalInSeconds := 5

  datatype State = CheckingForChanges | ProcessingChanges

  /**
   * DeterminePrimaryKeyTypesAsync: every key column of the reader with its
   * declared type (type names matched ordinally); a repeated name makes the
   * dictionary's Add throw, and no key at all is an
   * InvalidOperationException.
   */
  method DeterminePrimaryKeyTypes(columns: seq<KeyColumn>) returns (r: Result<seq<(string, string)>>)
    ensures r.Success? <==> |columns| > 0 && Distinct(ColumnNames(columns))
    ensures r.Success? ==> r.value == KeyTypes(columns, false) && Distinct(Names(r.value))
    ensures |columns| == 0 ==> r == Failure(Throw(InvalidOperationException))
    ensures |columns| > 0 && !Distinct(ColumnNames(columns)) ==> r == Failure(Throw(ArgumentException))
  {
    var keys: seq<(string, string)> := [];
    var i := 0;
    while i < |columns|
      invariant 0 <= i <= |columns|
      invariant keys == KeyTypes(columns[..i], false)
      invariant Distinct(ColumnNames(columns[..i]))
    {
      assert columns[..i + 1] == columns[..i] + [columns[i]];
      if exists j :: 0 <= j < i && keys[j].0 == columns[i].name {
        var j :| 0 <= j < i && keys[j].0 == columns[i].name;
        assert ColumnNames(columns)[j] == ColumnNames(columns)[i];
        return Failure(Throw(ArgumentException));
      }
      KeyTypesSnoc(columns, i, false);
      keys := keys + [(columns[i].name, KeyType(columns[i], false))];
      i := i + 1;
    }
    assert columns[..|columns|] == columns;
    if |keys| == 0 {
      return Failure(Throw(InvalidOperationException));
    }
    assert Names(keys) == ColumnNames(columns);
    r := Success(keys);
  }

  class ChangeMonitor {
    /** The user table's primary keys (name, declared type) and columns, as GetUserTableSchemaAsync read them. */
    const primaryKeys: seq<(string, string)>
    const userTableColumns: seq<string>
    /** The fragments InitializeQueryStrings caches for the change query. */
    const primaryKeysSelectList: string
    const userTableColumnsSelectList: string
    const leftOuterJoinUserTable: string
    const leftOuterJoinWorkerTable: string

    var rows: seq<Row>
    var whereChecks: seq<string>
    var state: State
    var leaseRenewalCount: int

    /**
     * Checking for changes holds no batch and a zero renewal count;
     * processing holds a non-empty batch with the where-check of row i at
     * position i.
     */
    ghost predicate Valid()
      reads this
    {
      |primaryKeys| > 0 && Distinct(Names(primaryKeys)) &&
      (state == CheckingForChanges ==> rows == [] && whereChecks == [] && leaseRenewalCount == 0) &&
      (state == ProcessingChanges ==>
         |rows| > 0 && whereChecks == WhereChecks(Names(primaryKeys), |rows|) && leaseRenewalCount >= 0)
    }

    /** The monitor once the table schema is known; InitializeQueryStrings fills the fragments. */
    constructor (primaryKeys: seq<(string, string)>, userTableColumns: seq<string>)
      requires |primaryKeys| > 0 && Distinct(Names(primaryKeys))
      ensures Valid()
      ensures this.primaryKeys == primaryKeys && this.userTableColumns == userTableColumns
      ensures rows == [] && whereChecks == [] && state == CheckingForChanges && leaseRenewalCount == 0
      ensures primaryKeysSelectList == PrimaryKeysSelectList(Names(primaryKeys))
      ensures userTableColumnsSelectList == UserColumnsSelectList(userTableColumns, Names(primaryKeys))
      ensures leftOuterJoinUserTable == JoinCondition(Names(primaryKeys), "u")
      ensures leftOuterJoinWorkerTable == JoinCondition(Names(primaryKeys), "w")
    {
      this.primaryKeys := primaryKeys;
      this.userTableColumns := userTableColumns;
      var keys := Names(primaryKeys);
      primaryKeysSelectList := PrimaryKeysSelectList(keys);
      leftOuterJoinWorkerTable := JoinCondition(keys, "w");
      leftOuterJoinUserTable := JoinCondition(keys, "u");
      userTableColumnsSelectList := UserColumnsSelectList(userTableColumns, keys);
      rows := [];
      whereChecks := [];
      state := CheckingForChanges;
      leaseRenewalCount := 0;
    }

    /** BuildAcquireLeasesCommand's bookkeeping: the where-check of every row, appended in row order. */
    method BuildAcquireLeasesCommand()
      modifies this
      ensures whereChecks == old(whereChecks) + WhereChecks(Names(primaryKeys), |rows|)
      ensures rows == old(rows) && state == old(state) && leaseRenewalCount == old(leaseRenewalCount)
    {
      var keys := Names(primaryKeys);
      var index := 0;
      while index < |rows|
        invariant 0 <= index <= |rows|
        invariant whereChecks == old(whereChecks) + WhereChecks(keys, index)
        invariant rows == old(rows) && state == old(state) && leaseRenewalCount == old(leaseRenewalCount)
      {
        assert WhereChecks(keys, index + 1) == WhereChecks(keys, index) + [WhereCheck(keys, index)];
        whereChecks := whereChecks + [WhereCheck(keys, index)];
        index := index + 1;
      }
    }

    /**
     * CheckForChangesAsync and the state switch after it. `fetched` is what
     * the change query read, or the exception of the version update or the
     * read; `leaseError` is the exception of acquiring the leases or of the
     * commit, if any. Any exception clears the batch and its where-checks;
     * a non-empty leased batch moves the monitor to processing.
     */
    method CheckForChanges(fetched: Result<seq<Row>>, leaseError: Option<Exception>)
      requires Valid() && state == CheckingForChanges
      modifies this
      ensures Valid()
      ensures fetched.Failure? || (|fetched.value| > 0 && leaseError.Some?) ==>
        rows == [] && whereChecks == [] && state == CheckingForChanges
      ensures fetched.Success? && |fetched.value| == 0 ==> rows == [] && whereChecks == [] && state == CheckingForChanges
      ensures fetched.Success? && |fetched.value| > 0 && leaseError.None? ==>
        rows == fetched.value && whereChecks == WhereChecks(Names(primaryKeys), |fetched.value|) &&
        state == ProcessingChanges
      ensures leaseRenewalCount == 0
    {
      if fetched.Failure? {
        rows := [];
        whereChecks := [];
        return;
      }
      rows := rows + fetched.value;
      if |rows| != 0 {
        BuildAcquireLeasesCommand();
        if leaseError.Some? {
          rows := [];
          whereChecks := [];
          return;
        }
      }
      if |rows| > 0 {
        state := ProcessingChanges;
      }
    }

    /**
     * One pass of the lease-renewal loop: while processing, the count goes
     * up whether or not the renewal succeeded, and the executor is
     * cancelled on the tick where it reaches MaxLeaseRenewalCount unless the
     * loop's own token is cancelled.
     */
    method RenewLeasesTick(tokenCancelled: bool) returns (cancelExecutor: bool)
      requires Valid()
      modifies this
      ensures Valid()
      ensures old(state) == ProcessingChanges ==>
        leaseRenewalCount == old(leaseRenewalCount) + 1 &&
        cancelExecutor == (leaseRenewalCount == MaxLeaseRenewalCount && !tokenCancelled)
      ensures old(state) == CheckingForChanges ==> leaseRenewalCount == old(leaseRenewalCount) && !cancelExecutor
      ensures rows == old(rows) && whereChecks == old(whereChecks) && state == old(state)
    {
      cancelExecutor := false;
      if state == ProcessingChanges {
        leaseRenewalCount := leaseRenewalCount + 1;
        if leaseRenewalCount == MaxLeaseRenewalCount && !tokenCancelled {
          cancelExecutor := true;
        }
      }
    }

    /** ClearRows: back to checking for changes with no batch and a zero count. */
    method ClearRows()
      requires Valid()
      modifies this
      ensures Valid()
      ensures leaseRenewalCount == 0 && rows == [] && whereChecks == [] && state == CheckingForChanges
    {
      leaseRenewalCount := 0;
      rows := [];
      whereChecks := [];
      state := CheckingForChanges;
    }

    /** GetSqlChangeTrackingEntries: the entry of every row of the batch, in order. */
    method GetSqlChangeTrackingEntries() returns (r: Result<seq<Entry>>)
      ensures r == Entries(Names(primaryKeys), userTableColumns, rows)
    {
      var keys := Names(primaryKeys);
      var entries: seq<Entry> := [];
      var i := 0;
      while i < |rows|
        invariant 0 <= i <= |rows|
        invariant Entries(keys, userTableColumns, rows[..i]) == Success(entries)
      {
        EntriesStep(keys, userTableColumns, rows, i, entries);
        var entry := BuildEntry(keys, userTableColumns, rows[i]);
        if entry.Failure? {
          EntriesPrefixFailure(keys, userTableColumns, rows, i + 1);
          return Failure(entry.error);
        }
        entries := entries + [entry.value];
        i := i + 1;
      }
      assert rows[..|rows|] == rows;
      r := Success(entries);
    }

    /** CalculateNewVersionNumber: the batch's versions are collected, then the second largest distinct one is taken. */
    method CalculateNewVersionNumber() returns (r: Result<int>)
      ensures r == NewVersionNumber(rows)
    {
      var batch := rows;
      var versions: seq<int> := [];
      var i := 0;
      while i < |batch|
        invariant 0 <= i <= |batch|
        invariant Versions(batch[..i]) == Success(versions)
      {
        VersionsStep(batch, i, versions);
        var version := ParseLong(Lookup(batch[i], VersionColumn));
        if version.Failure? {
          VersionsPrefixFailure(batch, i + 1);
          return Failure(version.error);
        }
        versions := versions + [version.value];
        i := i + 1;
      }
      assert batch[..|batch|] == batch;
      if |versions| == 0 {
        return Failure(Throw(ArgumentOutOfRangeException));
      }
      r := Success(NewVersion(versions));
    }

    /**
     * The entries step of a polling round: a failure to build them clears
     * the batch; otherwise the monitor stays in processing while the user's
     * function runs.
     */
    method PrepareEntries() returns (entries: Result<seq<Entry>>)
      requires Valid() && state == ProcessingChanges
      modifies this
      ensures Valid()
      ensures entries == Entries(Names(primaryKeys), userTableColumns, old(rows))
      ensures entries.Failure? ==> rows == [] && whereChecks == [] && state == CheckingForChanges && leaseRenewalCount == 0
      ensures entries.Success? ==>
        rows == old(rows) && whereChecks == old(whereChecks) && state == old(state) && leaseRenewalCount == old(leaseRenewalCount)
    {
      entries := GetSqlChangeTrackingEntries();
      if entries.Failure? {
        ClearRows();
      }
    }

    /**
     * ReleaseLeasesAsync: the new version is computed before the try, so a
     * failure there propagates and leaves the batch in place; otherwise the
     * release and the global-state update run (their outcome does not
     * matter) and ClearRows always follows.
     */
    method ReleaseLeases() returns (newVersion: Result<int>)
      requires Valid() && state == ProcessingChanges
      modifies this
      ensures Valid()
      ensures newVersion == NewVersionNumber(old(rows))
      ensures newVersion.Success? ==> rows == [] && whereChecks == [] && state == CheckingForChanges && leaseRenewalCount == 0
      ensures newVersion.Failure? ==>
        rows == old(rows) && whereChecks == old(whereChecks) && state == old(state) && leaseRenewalCount == old(leaseRenewalCount)
    {
      newVersion := CalculateNewVersionNumber();
      if newVersion.Failure? {
        return;
      }
      ClearRows();
    }

    /**
     * The end of a polling round: after a successful execution the leases
     * are released, after a failed one the batch is cleared.
     */
    method FinishExecution(functionSucceeded: bool) returns (newVersion: Option<Result<int>>)
      requires Valid() && state == ProcessingChanges
      modifies this
      ensures Valid()
      ensures functionSucceeded ==> newVersion == Some(NewVersionNumber(old(rows)))
      ensures !functionSucceeded ==> newVersion == None
      ensures !functionSucceeded || newVersion.value.Success? ==>
        rows == [] && whereChecks == [] && state == CheckingForChanges && leaseRenewalCount == 0
    {
      if functionSucceeded {
        var v := ReleaseLeases();
        newVersion := Some(v);
      } else {
        ClearRows();
        newVersion := None;
      }
    }
  }

  /**
   * A batch whose function never returns: the renewal loop ticks six times
   * meanwhile; only the fifth tick cancels the executor.
   */
  method StuckExecutionCancelledOnFifthTick(row: Row) returns (cancellations: seq<bool>)
    ensures cancellations == [false, false, false, false, true, false]
  {
    var monitor := new ChangeMonitor([("Id", "int")], ["Id", "Name"]);
    monitor.CheckForChanges(Success([row]), None);
    cancellations := [];
    var tick := 0;
    while tick < 6
      invariant 0 <= tick <= 6
      invariant monitor.Valid() && monitor.state == ProcessingChanges && monitor.leaseRenewalCount == tick
      invariant cancellations == [false, false, false, false, true, false][..tick]
    {
      var cancel := monitor.RenewLeasesTick(false);
      cancellations := cancellations + [cancel];
      tick := tick + 1;
    }
  }

  function InsertedExample(): Row
  {
    map[OperationColumn := "I", VersionColumn := "7", "Id" := "1", "Name" := "a"]
  }

  function DeletedExample(): Row
  {
    map[OperationColumn := "D", VersionColumn := "3", "Id" := "2"]
  }

  /** Both example changes make an entry. */
  lemma ExampleEntries()
    ensures Entries(["Id"], ["Id", "Name"], [InsertedExample(), DeletedExample()]).Success?
  {
    assert EntryFor(["Id"], ["Id", "Name"], InsertedExample()).Success?;
    assert EntryFor(["Id"], ["Id", "Name"], DeletedExample()).Success?;
  }

  /** The version column of each example change reads back as a long. */
  lemma ExampleVersionTexts()
    ensures ParseLong(Lookup(InsertedExample(), VersionColumn)) == Success(7)
    ensures ParseLong(Lookup(DeletedExample(), VersionColumn)) == Success(3)
  {
    assert ParseDigits("7") == 7 && ParseDigits("3") == 3;
  }

  /** The global state advances to the smaller of the two versions. */
  lemma ExampleVersion()
    ensures NewVersionNumber([InsertedExample(), DeletedExample()]) == Success(3)
  {
    var batch := [InsertedExample(), DeletedExample()];
    ExampleVersionTexts();
    var first := [InsertedExample()];
    assert first[..|first| - 1] == [];
    assert Versions(first[..|first| - 1]) == Success([]);
    assert Versions(first) == Success([] + [7]);
    assert [] + [7] == [7];
    assert batch[..|batch| - 1] == first;
    assert Versions(batch) == Success([7] + [3]);
    assert [7] + [3] == [7, 3];
    assert Versions(batch) == Success([7, 3]);
    assert MaxOf([7, 3]) == 7;
    assert 3 in [7, 3];
  }

  /**
   * A full polling round over an insert at version 7 and a delete at
   * version 3: both are leased, the function succeeds, the global state
   * advances to 3 and the monitor goes back to checking for changes.
   */
  method PollingRoundExample() returns (newVersion: Option<Result<int>>, entryCount: nat, idle: bool)
    ensures newVersion == Some(Success(3)) && entryCount == 2 && idle
  {
    var monitor := new ChangeMonitor([("Id", "int")], ["Id", "Name"]);
    assert Names([("Id", "int")]) == ["Id"];
    ExampleEntries();
    ExampleVersion();
    monitor.CheckForChanges(Success([InsertedExample(), DeletedExample()]), None);
    var entries := monitor.PrepareEntries();
    entryCount := |entries.value|;
    newVersion := monitor.FinishExecution(true);
    idle := monitor.state == CheckingForChanges && monitor.rows == [];
  }
}
