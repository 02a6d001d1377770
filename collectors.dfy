/**
 * What every output collector of the binding shares: a buffer of added
 * items, and the batches it has handed to the database so far. An item
 * is `Option<T>`, `None` standing for a C# null.
 */
module Collectors {
  import opened Common

  /** The items that are not null, in their order. */
  function NonNull<T>(items: seq<Option<T>>): (r: seq<T>)
    ensures |r| <= |items|
    decreases |items|
  {
    if |items| == 0 then []
    else (if items[0].Some? then [items[0].value] else []) + NonNull(items[1..])
  }

  /** An item is kept exactly when it was added as a non-null item. */
  lemma {:induction false} NonNullMembers<T>(items: seq<Option<T>>)
    ensures forall x :: x in NonNull(items) <==> Some(x) in items
    decreases |items|
  {
    if |items| > 0 {
      NonNullMembers(items[1..]);
      assert forall x :: Some(x) in items <==> items[0] == Some(x) || Some(x) in items[1..];
    }
  }

  /** Filtering nulls shortens a list exactly when it holds a null. */
  lemma {:induction false} NonNullFixes<T>(items: seq<Option<T>>)
    ensures |NonNull(items)| == |items| <==> None !in items
    decreases |items|
  {
    if |items| > 0 {
      NonNullFixes(items[1..]);
      assert None in items <==> items[0] == None || None in items[1..];
    }
  }

  /** Filtering nulls from two runs of items is filtering each. */
  lemma {:induction false} NonNullAppend<T>(a: seq<Option<T>>, b: seq<Option<T>>)
    ensures NonNull(a + b) == NonNull(a) + NonNull(b)
    decreases |a|
  {
    if |a| > 0 {
      assert (a + b)[1..] == a[1..] + b;
      NonNullAppend(a[1..], b);
    } else {
      assert a + b == b;
    }
  }

  /**
   * How a DataAdapter.Update over a batch ended. The adapter gives each
   * row its own transaction, so an exception can come after the first
   * `accepted` rows were committed (none when the connection could not
   * even be opened).
   */
  datatype UpdateOutcome = Completed | FailedAfter(accepted: nat, error: Exception)

  /**
   * The rows of a batch that reach the table: all of them when the update
   * completes, otherwise the ones committed before it threw.
   */
  function Written<T>(batch: seq<T>, outcome: UpdateOutcome): (w: seq<T>)
    ensures w <= batch
    ensures outcome.Completed? ==> w == batch
    ensures outcome.FailedAfter? ==> |w| == (if outcome.accepted < |batch| then outcome.accepted else |batch|)
  {
    match outcome
    case Completed => batch
    case FailedAfter(accepted, _) => if accepted < |batch| then batch[..accepted] else batch
  }

  /** The batches one after the other. */
  function Flatten<T>(batches: seq<seq<T>>): (r: seq<T>)
    decreases |batches|
  {
    if |batches| == 0 then [] else batches[0] + Flatten(batches[1..])
  }

  /** One more batch adds its rows at the end. */
  lemma {:induction false} FlattenSnoc<T>(batches: seq<seq<T>>, b: seq<T>)
    ensures Flatten(batches + [b]) == Flatten(batches) + b
    decreases |batches|
  {
    if |batches| == 0 {
      assert batches + [b] == [b];
      assert [b][1..] == [];
    } else {
      assert (batches + [b])[1..] == batches[1..] + [b];
      FlattenSnoc(batches[1..], b);
    }
  }
}
