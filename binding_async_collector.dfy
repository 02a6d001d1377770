/**
 * The output collector of SqlAsyncCollector.cs under SqlBinding: non-null
 * items are buffered, and a flush hands the serialized buffer to an
 * `async void` insert and clears the buffer at once. The insert runs after
 * FlushAsync has returned; its failure never reaches the caller. It is
 * rethrown on the thread pool instead, unhandled, which by default ends
 * the host process; that is not modelled.
 *
 * The database is abstract: how the insert ends is a parameter, and what
 * each insert wrote (the whole batch, or the rows the adapter committed
 * before it failed) is recorded in `inserted`.
 */
module BindingAsyncCollector {
  import opened Common
  import opened Collectors

  /** The constructor's checks: a null connection or attribute is an ArgumentNullException. */
  function ConstructorArguments(hasConnection: bool, hasAttribute: bool): (r: Option<Exception>)
    ensures r.None? <==> hasConnection && hasAttribute
    ensures r.Some? ==> r.value.kind == ArgumentNullException
  {
    if !hasConnection then Some(Throw(ArgumentNullException))
    else if !hasAttribute then Some(Throw(ArgumentNullException))
    else None
  }

  /** The adapter's SELECT, with the table name in brackets. */
  function AdapterSelect(table: string): (q: string)
    ensures OccursAt(q, "[" + table + "]", |"SELECT * FROM "|) && q[|"SELECT * FROM "| + |table| + 2..] == ";"
  {
    var q := "SELECT * FROM [" + table + "];";
    assert q[|"SELECT * FROM "|..|"SELECT * FROM "| + |table| + 2] == "[" + table + "]";
    q
  }

  class SqlAsyncCollector<T> {
    /** The attribute's CommandText: the table the rows go to. */
    const table: string
    var rows: seq<T>
    /** What each insert wrote to the table, in order. */
    var inserted: seq<seq<T>>
    /** Every batch handed to an insert, whether or not the insert succeeded. */
    ghost var started: seq<seq<T>>
    /** Every item added so far that was not null. */
    ghost var added: seq<T>

    /**
     * Every added item was handed to an insert or is still buffered, and
     * each insert wrote a prefix of the batch it was handed. Nothing says
     * the table got the rest.
     */
    ghost predicate Valid()
      reads this
    {
      Flatten(started) + rows == added &&
      |inserted| == |started| && forall i :: 0 <= i < |started| ==> inserted[i] <= started[i]
    }

    /** The collector once ConstructorArguments found both arguments present. */
    constructor (table: string)
      ensures Valid() && this.table == table && rows == [] && inserted == [] && started == [] && added == []
    {
      this.table := table;
      rows := [];
      inserted := [];
      started := [];
      added := [];
    }

    /** AddAsync: a null item is ignored, any other is appended. */
    method AddAsync(item: Option<T>)
      requires Valid()
      modifies this
      ensures Valid()
      ensures rows == old(rows) + NonNull([item]) && added == old(added) + NonNull([item])
      ensures inserted == old(inserted) && started == old(started)
    {
      if item.Some? {
        rows := rows + [item.value];
        added := added + [item.value];
      }
    }

    /**
     * FlushAsync: nothing when the buffer is empty; otherwise the insert is
     * started and the buffer cleared, and the call completes normally
     * however the insert ends: the table gets the whole batch when it
     * completes, and only the rows committed before the failure otherwise.
     */
    method FlushAsync(outcome: UpdateOutcome)
      requires Valid()
      modifies this
      ensures Valid() && added == old(added) && rows == []
      ensures old(rows) == [] ==> inserted == old(inserted) && started == old(started)
      ensures old(rows) != [] ==> started == old(started) + [old(rows)]
      ensures old(rows) != [] ==> inserted == old(inserted) + [Written(old(rows), outcome)]
    {
      if |rows| == 0 {
        return;
      }
      var batch := rows;
      rows := [];
      FlattenSnoc(started, batch);
      started := started + [batch];
      inserted := inserted + [Written(batch, outcome)];
    }
  }

  /**
   * One item added and flushed while the insert fails before writing any
   * row: FlushAsync completes with nothing buffered and nothing written, so
   * the caller cannot tell that the item never reached the table.
   */
  method FailedInsertGoesUnreported() returns (buffered: seq<int>, inserted: seq<seq<int>>)
    ensures buffered == [] && inserted == [[]]
  {
    var collector := new SqlAsyncCollector<int>("Products");
    collector.AddAsync(Some(1));
    collector.FlushAsync(FailedAfter(0, Throw(GeneralException)));
    buffered := collector.rows;
    inserted := collector.inserted;
  }
}
