/**
 * The collectors of the first extension (SQLCollectors.cs): the
 * asynchronous collector buffers every item, null included, and a flush
 * inserts the buffer and then clears it; the synchronous collector inserts
 * each item at once, as a one-element array. Nothing catches a failed
 * insert: its exception propagates and the buffer is kept, although the
 * adapter, committing row by row, may already have written its first rows.
 *
 * The database is abstract: how the insert ends is a parameter, and what
 * each insert wrote is recorded in `inserted`.
 */
module ExtensionCollectors {
  import opened Common
  import opened Collectors

  class SQLAsyncCollector<T> {
    /** The attribute's SQLQuery: the table the rows go to. */
    const table: string
    var rows: seq<Option<T>>
    /** What each insert wrote to the table, in order: a whole buffer, or the rows committed before a failure. */
    var inserted: seq<seq<Option<T>>>
    /** The buffers whose flush completed, in order. */
    ghost var flushed: seq<seq<Option<T>>>
    /** Every item added so far, null or not. */
    ghost var added: seq<Option<T>>

    /**
     * No item is lost: what was flushed, then what is buffered, is what was
     * added; and every flushed buffer reached the table whole.
     */
    ghost predicate Valid()
      reads this
    {
      Flatten(flushed) + rows == added &&
      forall i :: 0 <= i < |flushed| ==> flushed[i] in inserted
    }

    constructor (table: string)
      ensures Valid() && this.table == table && rows == [] && inserted == [] && flushed == [] && added == []
    {
      this.table := table;
      rows := [];
      inserted := [];
      flushed := [];
      added := [];
    }

    /** AddAsync: every item is appended, a null one too. */
    method AddAsync(item: Option<T>)
      requires Valid()
      modifies this
      ensures Valid()
      ensures rows == old(rows) + [item] && added == old(added) + [item]
      ensures inserted == old(inserted) && flushed == old(flushed)
    {
      rows := rows + [item];
      added := added + [item];
    }

    /**
     * FlushAsync: nothing when empty; otherwise insert, and clear only if
     * the insert returned. A failed insert's exception propagates, with
     * the rows it committed already in the table and still buffered.
     */
    method FlushAsync(outcome: UpdateOutcome) returns (thrown: Option<Exception>)
      requires Valid()
      modifies this
      ensures Valid() && added == old(added)
      ensures old(rows) == [] ==> rows == [] && inserted == old(inserted) && flushed == old(flushed) && thrown.None?
      ensures old(rows) != [] ==> inserted == old(inserted) + [Written(old(rows), outcome)]
      ensures old(rows) != [] && outcome.Completed? ==>
        rows == [] && flushed == old(flushed) + [old(rows)] && thrown.None?
      ensures old(rows) != [] && outcome.FailedAfter? ==>
        rows == old(rows) && flushed == old(flushed) && thrown == Some(outcome.error)
    {
      thrown := None;
      if |rows| == 0 {
        return;
      }
      inserted := inserted + [Written(rows, outcome)];
      if outcome.FailedAfter? {
        return Some(outcome.error);
      }
      FlattenSnoc(flushed, rows);
      flushed := flushed + [rows];
      rows := [];
    }
  }

  class SQLCollector<T> {
    const table: string
    var inserted: seq<seq<Option<T>>>

    constructor (table: string)
      ensures this.table == table && inserted == []
    {
      this.table := table;
      inserted := [];
    }

    /**
     * Add: no buffer; the item is inserted at once as an array of one
     * element, and a failure's exception propagates (the item may have been
     * committed already when the failure came later, as in closing).
     */
    method Add(item: Option<T>, outcome: UpdateOutcome) returns (thrown: Option<Exception>)
      modifies this
      ensures thrown == (if outcome.FailedAfter? then Some(outcome.error) else None)
      ensures inserted == old(inserted) + [Written([item], outcome)]
      ensures outcome.Completed? ==> inserted == old(inserted) + [[item]]
      ensures outcome.FailedAfter? && outcome.accepted == 0 ==> inserted == old(inserted) + [[]]
    {
      thrown := if outcome.FailedAfter? then Some(outcome.error) else None;
      inserted := inserted + [Written([item], outcome)];
    }
  }

  /**
   * Flushing what the asynchronous collector buffered inserts every added
   * item in order, so it inserts more items than the later revisions,
   * which drop nulls, exactly when a null was added.
   */
  lemma FlushKeepsNulls<T>(items: seq<Option<T>>)
    ensures Flatten([items]) == items
    ensures |NonNull(items)| < |items| <==> None in items
  {
    assert [items][1..] == [];
    assert Flatten([items]) == items;
    NonNullFixes(items);
  }
}
