/**
 * The output collector of SqlCollectors.cs under SqlBinding: non-null
 * items are buffered, and a flush inserts the whole buffer through a data
 * adapter, then clears it. A failure of the insert is rethrown as an
 * InvalidOperationException and keeps the buffer.
 *
 * The adapter commits row by row, so a failed insert may already have
 * written the first rows of the buffer; the buffer is kept whole, and a
 * later flush writes those rows again. The database is abstract: how the
 * insert ends is a parameter, and what each insert wrote is recorded in
 * `inserted`.
 */
module BindingCollectors {
  import opened Common
  import opened Collectors

  const InsertFailurePrefix := "Exception encountered when attempting to execute" + "the SQL transaction: "

  /** The constructor's checks: a null connection or attribute is an ArgumentNullException. */
  function ConstructorArguments(hasConnection: bool, hasAttribute: bool): (r: Option<Exception>)
    ensures r.None? <==> hasConnection && hasAttribute
    ensures r.Some? ==> r.value.kind == ArgumentNullException
  {
    if !hasConnection || !hasAttribute then Some(Throw(ArgumentNullException)) else None
  }

  /** The adapter's SELECT, with the table name as given. */
  function AdapterSelect(table: string): (q: string)
    ensures OccursAt(q, table, |"SELECT * FROM "|) && q[|"SELECT * FROM "| + |table|..] == ";"
  {
    var q := "SELECT * FROM " + table + ";";
    assert q[|"SELECT * FROM "|..|"SELECT * FROM "| + |table|] == table;
    q
  }

  /**
   * InsertRows' catch: whatever the insert threw becomes an
   * InvalidOperationException whose message is the fixed prefix followed by
   * the original message (the prefix runs "execute" and "the" together).
   */
  function WrapInsertFailure(e: Exception): (w: Exception)
    ensures w.kind == InvalidOperationException && w.inner.None?
    ensures StartsWith(w.message, InsertFailurePrefix) && w.message[|InsertFailurePrefix|..] == e.message
  {
    var w := ThrowWith(InvalidOperationException, InsertFailurePrefix + e.message);
    assert w.message[|InsertFailurePrefix|..] == e.message;
    w
  }

  class SqlAsyncCollector<T> {
    /** The attribute's Command: the table the rows go to. */
    const table: string
    var rows: seq<T>
    /** What each insert wrote to the table, in order: a whole buffer, or the rows committed before a failure. */
    var inserted: seq<seq<T>>
    /** The buffers whose flush completed, in order. */
    ghost var flushed: seq<seq<T>>
    /** Every item added so far that was not null. */
    ghost var added: seq<T>

    /**
     * No item is lost: what was flushed, then what is buffered, is what was
     * added; and every flushed buffer reached the table whole.
     */
    ghost predicate Valid()
      reads this
    {
      Flatten(flushed) + rows == added &&
      forall i :: 0 <= i < |flushed| ==> flushed[i] in inserted
    }

    /** The collector once ConstructorArguments found both arguments present. */
    constructor (table: string)
      ensures Valid() && this.table == table && rows == [] && inserted == [] && flushed == [] && added == []
    {
      this.table := table;
      rows := [];
      inserted := [];
      flushed := [];
      added := [];
    }

    /** AddAsync: a null item is ignored, any other is appended. */
    method AddAsync(item: Option<T>)
      requires Valid()
      modifies this
      ensures Valid()
      ensures rows == old(rows) + NonNull([item]) && added == old(added) + NonNull([item])
      ensures inserted == old(inserted) && flushed == old(flushed)
    {
      if item.Some? {
        rows := rows + [item.value];
        added := added + [item.value];
      }
    }

    /**
     * FlushAsync: nothing when the buffer is empty; otherwise the buffer is
     * handed to the adapter, which writes its rows up to a failure, if any.
     * A completed insert clears the buffer; a failed one is rethrown
     * wrapped and keeps the whole buffer, rows already written included.
     */
    method FlushAsync(outcome: UpdateOutcome) returns (thrown: Option<Exception>)
      requires Valid()
      modifies this
      ensures Valid() && added == old(added)
      ensures old(rows) == [] ==> rows == [] && inserted == old(inserted) && flushed == old(flushed) && thrown.None?
      ensures old(rows) != [] ==> inserted == old(inserted) + [Written(old(rows), outcome)]
      ensures old(rows) != [] && outcome.Completed? ==>
        rows == [] && flushed == old(flushed) + [old(rows)] && thrown.None?
      ensures old(rows) != [] && outcome.FailedAfter? ==>
        rows == old(rows) && flushed == old(flushed) && thrown == Some(WrapInsertFailure(outcome.error))
    {
      thrown := None;
      if |rows| == 0 {
        return;
      }
      inserted := inserted + [Written(rows, outcome)];
      if outcome.FailedAfter? {
        return Some(WrapInsertFailure(outcome.error));
      }
      FlattenSnoc(flushed, rows);
      flushed := flushed + [rows];
      rows := [];
    }
  }

  /**
   * A flush of two items that fails after the first row was committed,
   * then a flush that completes: the first item is written twice.
   */
  method RetryWritesAcceptedRowsAgain() returns (buffered: seq<int>, inserted: seq<seq<int>>)
    ensures buffered == [] && inserted == [[1], [1, 2]]
  {
    var collector := new SqlAsyncCollector<int>("Products");
    collector.AddAsync(Some(1));
    collector.AddAsync(Some(2));
    assert collector.rows == [1, 2] && collector.rows[..1] == [1];
    var _ := collector.FlushAsync(FailedAfter(1, Throw(GeneralException)));
    var _ := collector.FlushAsync(Completed);
    buffered := collector.rows;
    inserted := collector.inserted;
  }
}
