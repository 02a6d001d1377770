/**
 * The output collector of the current binding (SqlAsyncCollector.cs):
 * non-null items are buffered; a flush upserts the whole buffer in one
 * transaction, batch by batch, and clears the buffer only when the upsert
 * returned. An upsert first needs the table's information, then refuses a
 * POCO with properties the table lacks, then sends one command per batch of
 * at most 1000 rows and commits; a failure rolls the transaction back.
 *
 * The database is abstract: the table information (or the exception its
 * retrieval threw), the batch whose command throws, and what the commit
 * and the rollback throw are parameters.
 */
module SqlAsyncCollectors {
  import opened Common
  import opened Collectors
  import opened Upsert
  import opened MergeData

  /** The constructor's checks, in order: configuration, attribute, logger factory. */
  function ConstructorArguments(hasConfiguration: bool, hasAttribute: bool, hasLoggerFactory: bool): (r: Option<Exception>)
    ensures r.None? <==> hasConfiguration && hasAttribute && hasLoggerFactory
    ensures r.Some? ==> r.value.kind == ArgumentNullException
  {
    if !hasConfiguration then Some(Throw(ArgumentNullException))
    else if !hasAttribute then Some(Throw(ArgumentNullException))
    else if !hasLoggerFactory then Some(Throw(ArgumentNullException))
    else None
  }

  /** The rows upserted per command. */
  const BatchSize := 1000

  /** rows.Batch(size): consecutive runs of `size` rows, the last one possibly shorter. */
  function Batches<T>(rows: seq<T>, size: nat): (b: seq<seq<T>>)
    requires size > 0
    ensures forall i :: 0 <= i < |b| ==> 0 < |b[i]| <= size
    ensures forall i :: 0 <= i < |b| - 1 ==> |b[i]| == size
    decreases |rows|
  {
    if |rows| == 0 then []
    else if |rows| <= size then [rows]
    else [rows[..size]] + Batches(rows[size..], size)
  }

  /** The batches, one after the other, are the rows. */
  lemma {:induction false} BatchesPartition<T>(rows: seq<T>, size: nat)
    requires size > 0
    ensures Flatten(Batches(rows, size)) == rows
    decreases |rows|
  {
    if |rows| > size {
      BatchesPartition(rows[size..], size);
      var b := Batches(rows, size);
      assert b[1..] == Batches(rows[size..], size);
      assert rows[..size] + rows[size..] == rows;
    } else if |rows| > 0 {
      assert [rows][1..] == [];
    }
  }

  /** The message naming the POCO's properties the table does not have. */
  function ExtraPropertiesMessage(typeName: string, fullTableName: string, extras: seq<string>): (m: string)
    ensures forall i :: 0 <= i < |extras| ==> Contains(m, extras[i])
    ensures StartsWith(m, "The following properties in ")
  {
    var before := "The following properties in " + typeName + " do not exist in the table " + fullTableName + ": ";
    var names := Join(", ", extras);
    JoinContainsParts(", ", extras);
    ContainsMiddle(before, names, ".");
    forall i | 0 <= i < |extras|
      ensures Contains(before + names + ".", extras[i])
    {
      ContainsTransitive(before + names + ".", names, extras[i]);
    }
    before + names + "."
  }

  /** One command of the transaction: the batch's data query, the table's query, and the rows serialized into @rowData. */
  datatype Command = Command(dataQuery: string, query: Query, rowData: seq<PocoRow>)

  /** The command GenerateDataQueryForMerge prepares for one batch. */
  function BatchCommand(table: TableInformation, properties: seq<string>, batch: seq<PocoRow>): Command
  {
    Command(DataQuery(table, properties), table.query, RowsToUpsert(table, batch))
  }

  function BatchCommands(table: TableInformation, properties: seq<string>, batches: seq<seq<PocoRow>>): (r: seq<Command>)
    ensures |r| == |batches|
    ensures forall i :: 0 <= i < |r| ==> r[i] == BatchCommand(table, properties, batches[i])
  {
    seq(|batches|, i requires 0 <= i < |batches| => BatchCommand(table, properties, batches[i]))
  }

  const UpsertRollbackMessage := "Encountered exception during upsert and rollback."

  /**
   * The catch block: with no failure in the try block nothing is thrown;
   * otherwise the rollback runs, and the failure is rethrown unless the
   * rollback failed too, which throws an AggregateException instead.
   */
  function TransactionOutcome(failure: Option<Exception>, rollbackError: Option<Exception>): (r: Option<Exception>)
    ensures failure.None? ==> r.None?
    ensures failure.Some? && rollbackError.None? ==> r == failure
    ensures failure.Some? && rollbackError.Some? ==>
      r.Some? && r.value.kind == AggregateException && r.value.message == UpsertRollbackMessage &&
      r.value.inner == failure
  {
    if failure.None? then None
    else if rollbackError.None? then failure
    else Some(Exception(AggregateException, UpsertRollbackMessage, failure))
  }

  /**
   * What the database does with the transaction: the command of batch
   * `failingBatch` (if any) throws `executeError`, and the commit and the
   * rollback throw what their parameters say.
   */
  datatype Database = Database(failingBatch: Option<nat>, executeError: Exception,
                               commitError: Option<Exception>, rollbackError: Option<Exception>)

  /** The batches whose commands run: all of them, or those up to the failing one. */
  function ExecutedCount(db: Database, batchCount: nat): (n: nat)
    ensures n <= batchCount
    ensures db.failingBatch.Some? && db.failingBatch.value < batchCount ==> n == db.failingBatch.value + 1
    ensures (db.failingBatch.None? || db.failingBatch.value >= batchCount) ==> n == batchCount
  {
    if db.failingBatch.Some? && db.failingBatch.value < batchCount then db.failingBatch.value + 1 else batchCount
  }

  /** The exception raised inside the transaction's try block, if any. */
  function TryFailure(db: Database, batchCount: nat): (e: Option<Exception>)
    ensures e.None? <==> (db.failingBatch.None? || db.failingBatch.value >= batchCount) && db.commitError.None?
  {
    if db.failingBatch.Some? && db.failingBatch.value < batchCount then Some(db.executeError)
    else db.commitError
  }

  /**
   * UpsertRowsAsync once the connection is open: the table information (or
   * the exception retrieving it threw), the check for extra properties, then
   * one command per batch inside the transaction. `sent` is every command
   * executed, `committed` whether the transaction committed.
   */
  method UpsertRows(tableInfo: Result<TableInformation>, properties: seq<string>, typeName: string,
                    fullTableName: string, rows: seq<PocoRow>, db: Database)
    returns (sent: seq<Command>, committed: bool, thrown: Option<Exception>)
    ensures committed <==> thrown.None?
    ensures tableInfo.Failure? ==> sent == [] && thrown == Some(tableInfo.error)
    ensures tableInfo.Success? ==>
      var table := tableInfo.value;
      var extras := ExtraProperties(table.caseSensitive, table.columns, properties);
      var batches := Batches(rows, BatchSize);
      (|extras| > 0 ==>
         sent == [] &&
         thrown == Some(ThrowWith(InvalidOperationException, ExtraPropertiesMessage(typeName, fullTableName, extras)))) &&
      (|extras| == 0 ==>
         sent == BatchCommands(table, properties, batches[..ExecutedCount(db, |batches|)]) &&
         thrown == TransactionOutcome(TryFailure(db, |batches|), db.rollbackError))
  {
    sent := [];
    committed := false;
    if tableInfo.Failure? {
      return sent, committed, Some(tableInfo.error);
    }
    var table := tableInfo.value;
    var extras := ExtraProperties(table.caseSensitive, table.columns, properties);
    if |extras| > 0 {
      return sent, committed, Some(ThrowWith(InvalidOperationException, ExtraPropertiesMessage(typeName, fullTableName, extras)));
    }
    var batches := Batches(rows, BatchSize);
    var failure;
    sent, failure := ExecuteBatches(table, properties, batches, db);
    if failure.None? {
      failure := db.commitError;
    }
    thrown := TransactionOutcome(failure, db.rollbackError);
    committed := thrown.None?;
  }

  /** The try block's loop: one command per batch, stopping at the batch whose command throws. */
  method ExecuteBatches(table: TableInformation, properties: seq<string>, batches: seq<seq<PocoRow>>, db: Database)
    returns (sent: seq<Command>, failure: Option<Exception>)
    ensures sent == BatchCommands(table, properties, batches[..ExecutedCount(db, |batches|)])
    ensures failure.Some? <==> db.failingBatch.Some? && db.failingBatch.value < |batches|
    ensures failure.Some? ==> failure == Some(db.executeError)
  {
    sent := [];
    failure := None;
    var i := 0;
    while i < |batches| && failure.None?
      invariant 0 <= i <= |batches|
      invariant failure.None? ==> i <= ExecutedCount(db, |batches|)
      invariant failure.Some? ==> i == ExecutedCount(db, |batches|) && failure == Some(db.executeError)
      invariant failure.Some? <==> db.failingBatch.Some? && db.failingBatch.value < i
      invariant sent == BatchCommands(table, properties, batches[..i])
    {
      var newDataQuery, rowsToUpsert := GenerateDataQueryForMerge(table, properties, batches[i]);
      BatchCommandsSnoc(table, properties, batches, i);
      sent := sent + [Command(newDataQuery, table.query, rowsToUpsert)];
      if db.failingBatch == Some(i) {
        failure := Some(db.executeError);
      }
      i := i + 1;
    }
  }

  /** One more batch adds its command at the end. */
  lemma BatchCommandsSnoc(table: TableInformation, properties: seq<string>, batches: seq<seq<PocoRow>>, i: nat)
    requires i < |batches|
    ensures BatchCommands(table, properties, batches[..i + 1]) ==
      BatchCommands(table, properties, batches[..i]) + [BatchCommand(table, properties, batches[i])]
  {
    assert batches[..i + 1] == batches[..i] + [batches[i]];
    var l := BatchCommands(table, properties, batches[..i + 1]);
    var r := BatchCommands(table, properties, batches[..i]) + [BatchCommand(table, properties, batches[i])];
    forall k | 0 <= k < |l|
      ensures l[k] == r[k]
    {
      if k < i {
        assert batches[..i + 1][k] == batches[..i][k];
      }
    }
  }

  /**
   * With the table readable, the POCO's properties all columns and the
   * database accepting every command, the commands carry every key of the
   * buffer: each buffered row's key is sent, by that batch's command.
   */
  lemma CommittedUpsertCoversEveryRow(table: TableInformation, properties: seq<string>, rows: seq<PocoRow>, b: nat, j: nat)
    requires b < |Batches(rows, BatchSize)| && j < |Batches(rows, BatchSize)[b]|
    ensures var batch := Batches(rows, BatchSize)[b];
      var command := BatchCommands(table, properties, Batches(rows, BatchSize))[b];
      exists a :: 0 <= a < |command.rowData| && UpsertKey(table, command.rowData[a]) == UpsertKey(table, batch[j])
  {
    var batch := Batches(rows, BatchSize)[b];
    var kept := BatchCommands(table, properties, Batches(rows, BatchSize))[b].rowData;
    UpsertCoversEveryKey(table, batch);
    assert kept == RowsToUpsert(table, batch);
    assert exists a :: 0 <= a < |kept| && UpsertKey(table, kept[a]) == UpsertKey(table, batch[j]);
  }

  class SqlAsyncCollector {
    /** The buffered rows. */
    var rows: seq<PocoRow>
    /** The buffers of the upserts that committed, in order. */
    var committed: seq<seq<PocoRow>>
    /** The commands of the committed upserts, in order. */
    var commands: seq<Command>
    /** Every item added so far that was not null. */
    ghost var added: seq<PocoRow>

    /** A committed upsert or the buffer holds every item added. */
    ghost predicate Valid()
      reads this
    {
      Flatten(committed) + rows == added
    }

    /** The collector once ConstructorArguments found every argument present. */
    constructor ()
      ensures Valid() && rows == [] && committed == [] && commands == [] && added == []
    {
      rows := [];
      committed := [];
      commands := [];
      added := [];
    }

    /** AddAsync: a null item is ignored, any other is appended. */
    method AddAsync(item: Option<PocoRow>)
      requires Valid()
      modifies this
      ensures Valid()
      ensures rows == old(rows) + NonNull([item]) && added == old(added) + NonNull([item])
      ensures committed == old(committed) && commands == old(commands)
    {
      if item.Some? {
        rows := rows + [item.value];
        added := added + [item.value];
      }
    }

    /**
     * FlushAsync: nothing when the buffer is empty; otherwise the buffer is
     * upserted, and cleared only when the upsert returned. A thrown
     * exception leaves the buffer for the next flush.
     */
    method FlushAsync(tableInfo: Result<TableInformation>, properties: seq<string>, typeName: string,
                      fullTableName: string, db: Database)
      returns (thrown: Option<Exception>)
      requires Valid()
      modifies this
      ensures Valid() && added == old(added)
      ensures old(rows) == [] ==> thrown.None? && rows == [] && committed == old(committed) && commands == old(commands)
      ensures old(rows) != [] && thrown.None? ==>
        rows == [] && committed == old(committed) + [old(rows)] &&
        tableInfo.Success? &&
        commands == old(commands) + BatchCommands(tableInfo.value, properties, Batches(old(rows), BatchSize))
      ensures old(rows) != [] && thrown.Some? ==>
        rows == old(rows) && committed == old(committed) && commands == old(commands)
    {
      thrown := None;
      if |rows| == 0 {
        return;
      }
      var sent, ok;
      sent, ok, thrown := UpsertRows(tableInfo, properties, typeName, fullTableName, rows, db);
      if ok {
        ExecutedAll(db, |Batches(rows, BatchSize)|);
        assert Batches(rows, BatchSize)[..|Batches(rows, BatchSize)|] == Batches(rows, BatchSize);
        FlattenSnoc(committed, rows);
        committed := committed + [rows];
        commands := commands + sent;
        rows := [];
      }
    }
  }

  /** A transaction that committed ran every batch's command. */
  lemma ExecutedAll(db: Database, batchCount: nat)
    requires TransactionOutcome(TryFailure(db, batchCount), db.rollbackError).None?
    ensures ExecutedCount(db, batchCount) == batchCount
  {
  }
}
