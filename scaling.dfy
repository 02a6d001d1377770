/**
 * Scaling decisions of the current trigger: the incremental scale
 * monitor's vote over the latest five metric samples, the target-based
 * scaler's worker count, and where the per-worker change limit comes from.
 * Timestamps are whole seconds.
 */
module Scaling {
  import Common
  import SqlObjects

  /** ScaleVote of the host's scale controller. */
  datatype ScaleVote = None | ScaleOut | ScaleIn

  /** SqlTriggerMetrics: a count of unprocessed changes and when it was taken. */
  datatype Sample = Sample(unprocessedChangeCount: int, timestamp: int)

  const MinSamplesForScaling := 5
  const TwoTo31 := 0x8000_0000
  const TwoTo32 := 0x1_0000_0000

  /** The value of a C# `int` expression whose exact result is x (unchecked wrap-around). */
  function Wrap32(x: int): (r: int)
    ensures -TwoTo31 <= r < TwoTo31
    ensures -TwoTo31 <= x < TwoTo31 ==> r == x
    ensures (r - x) % TwoTo32 == 0
  {
    (x + TwoTo31) % TwoTo32 - TwoTo31
  }

  /** The combined limit for n workers, computed in 32-bit `int` arithmetic. */
  function Limit(workers: int, maxChangesPerWorker: int): (limit: int)
    ensures -TwoTo31 <= limit < TwoTo31
    ensures -TwoTo31 <= workers * maxChangesPerWorker < TwoTo31 ==> limit == workers * maxChangesPerWorker
    ensures (limit - workers * maxChangesPerWorker) % TwoTo32 == 0
  {
    Wrap32(workers * maxChangesPerWorker)
  }

  /** TakeLast(5). */
  function Window(metrics: seq<Sample>): (w: seq<Sample>)
    requires |metrics| >= MinSamplesForScaling
    ensures |w| == MinSamplesForScaling
  {
    metrics[|metrics| - MinSamplesForScaling..]
  }

  /** Every sample has more unprocessed changes than the one before. */
  predicate Increasing(w: seq<Sample>)
  {
    forall i :: 0 <= i < |w| - 1 ==> w[i].unprocessedChangeCount < w[i + 1].unprocessedChangeCount
  }

  /** Every sample after the first is zero or fewer than the one before. */
  predicate Decreasing(w: seq<Sample>)
  {
    forall i :: 0 <= i < |w| - 1 ==>
      w[i + 1].unprocessedChangeCount == 0 || w[i].unprocessedChangeCount > w[i + 1].unprocessedChangeCount
  }

  /** Enumerable.First(m => m.Timestamp > t): the first such index, if any (none is an InvalidOperationException). */
  function FirstAfter(w: seq<Sample>, t: int): (k: Common.Option<nat>)
    ensures k.Some? ==> k.value < |w| && w[k.value].timestamp > t &&
                        forall j :: 0 <= j < k.value ==> w[j].timestamp <= t
    ensures k.None? ==> forall j :: 0 <= j < |w| ==> w[j].timestamp <= t
  {
    if |w| == 0 then Common.None
    else if w[0].timestamp > t then Common.Some(0)
    else match FirstAfter(w[1..], t)
      case None => Common.None
      case Some(k) => Common.Some(k + 1)
  }

  /** The vote for a window when the latest count is within the limit and no increase scales out. */
  function DecreasingVote(w: seq<Sample>, workerCount: int, maxChangesPerWorker: int): ScaleVote
    requires |w| == MinSamplesForScaling
  {
    if Decreasing(w) && w[4].unprocessedChangeCount <= Limit(workerCount - 1, maxChangesPerWorker) then ScaleIn
    else None
  }

  /**
   * GetScaleStatusCore as a function of its inputs: too few samples vote
   * None; a latest count above the limit votes ScaleOut; a strictly
   * increasing window votes ScaleOut when its 30-second extrapolation
   * 2 * last - reference exceeds the limit; a decreasing window votes
   * ScaleIn when one worker fewer still covers the latest count; anything
   * else votes None.
   */
  function Vote(workerCount: int, maxChangesPerWorker: int, metrics: Common.Option<seq<Sample>>): (r: Common.Result<ScaleVote>)
    ensures (metrics.None? || |metrics.value| < MinSamplesForScaling) ==> r == Common.Success(None)
    ensures r == Common.Success(ScaleIn) ==>
      metrics.Some? && |metrics.value| >= MinSamplesForScaling &&
      Decreasing(Window(metrics.value)) &&
      Window(metrics.value)[4].unprocessedChangeCount <= Limit(workerCount - 1, maxChangesPerWorker)
    ensures r == Common.Success(ScaleOut) ==>
      metrics.Some? && |metrics.value| >= MinSamplesForScaling &&
      (Window(metrics.value)[4].unprocessedChangeCount > Limit(workerCount, maxChangesPerWorker) ||
       Increasing(Window(metrics.value)))
  {
    if metrics.None? || |metrics.value| < MinSamplesForScaling then Common.Success(None)
    else
      var w := Window(metrics.value);
      var last := w[4].unprocessedChangeCount;
      var limit := Limit(workerCount, maxChangesPerWorker);
      if last > limit then Common.Success(ScaleOut)
      else if Increasing(w) then
        match FirstAfter(w, w[4].timestamp - 30)
        case None => Common.Failure(Common.Throw(Common.InvalidOperationException))
        case Some(k) =>
          if 2 * last - w[k].unprocessedChangeCount > limit then Common.Success(ScaleOut)
          else Common.Success(DecreasingVote(w, workerCount, maxChangesPerWorker))
      else Common.Success(DecreasingVote(w, workerCount, maxChangesPerWorker))
  }

  /** A window stays increasing with one more sample exactly when that sample exceeds the last one. */
  lemma IncreasingSnoc(p: seq<Sample>, x: Sample)
    requires |p| > 0
    ensures Increasing(p + [x]) <==>
      Increasing(p) && p[|p| - 1].unprocessedChangeCount < x.unprocessedChangeCount
  {
    var q := p + [x];
    assert q[|p|] == x && q[|p| - 1] == p[|p| - 1];
    if Increasing(p) && p[|p| - 1].unprocessedChangeCount < x.unprocessedChangeCount {
      forall i | 0 <= i < |q| - 1
        ensures q[i].unprocessedChangeCount < q[i + 1].unprocessedChangeCount
      {
        if i < |p| - 1 {
          assert q[i] == p[i] && q[i + 1] == p[i + 1];
        }
      }
    }
    if Increasing(q) {
      forall i | 0 <= i < |p| - 1
        ensures p[i].unprocessedChangeCount < p[i + 1].unprocessedChangeCount
      {
        assert q[i] == p[i] && q[i + 1] == p[i + 1];
      }
    }
  }

  /** A window stays decreasing with one more sample exactly when that sample is zero or below the last one. */
  lemma DecreasingSnoc(p: seq<Sample>, x: Sample)
    requires |p| > 0
    ensures Decreasing(p + [x]) <==>
      Decreasing(p) &&
      (x.unprocessedChangeCount == 0 || p[|p| - 1].unprocessedChangeCount > x.unprocessedChangeCount)
  {
    var q := p + [x];
    assert q[|p|] == x && q[|p| - 1] == p[|p| - 1];
    if Decreasing(p) && (x.unprocessedChangeCount == 0 || p[|p| - 1].unprocessedChangeCount > x.unprocessedChangeCount) {
      forall i | 0 <= i < |q| - 1
        ensures q[i + 1].unprocessedChangeCount == 0 || q[i].unprocessedChangeCount > q[i + 1].unprocessedChangeCount
      {
        if i < |p| - 1 {
          assert q[i] == p[i] && q[i + 1] == p[i + 1];
        }
      }
    }
    if Decreasing(q) {
      forall i | 0 <= i < |p| - 1
        ensures p[i + 1].unprocessedChangeCount == 0 || p[i].unprocessedChangeCount > p[i + 1].unprocessedChangeCount
      {
        assert q[i] == p[i] && q[i + 1] == p[i + 1];
      }
    }
  }

  /** The pass over the window that sets the isIncreasing and isDecreasing flags. */
  method ScanWindow(w: seq<Sample>) returns (isIncreasing: bool, isDecreasing: bool)
    requires |w| > 0
    ensures isIncreasing <==> Increasing(w)
    ensures isDecreasing <==> Decreasing(w)
  {
    isIncreasing := true;
    isDecreasing := true;
    var index := 0;
    while index < |w| - 1
      invariant 0 <= index <= |w| - 1
      invariant isIncreasing <==> Increasing(w[..index + 1])
      invariant isDecreasing <==> Decreasing(w[..index + 1])
    {
      var seen := w[..index + 1];
      assert seen + [w[index + 1]] == w[..index + 2];
      assert seen[|seen| - 1] == w[index];
      IncreasingSnoc(seen, w[index + 1]);
      DecreasingSnoc(seen, w[index + 1]);
      isIncreasing := isIncreasing && w[index].unprocessedChangeCount < w[index + 1].unprocessedChangeCount;
      isDecreasing := isDecreasing &&
        (w[index + 1].unprocessedChangeCount == 0 || w[index].unprocessedChangeCount > w[index + 1].unprocessedChangeCount);
      index := index + 1;
    }
    assert w[..|w|] == w;
  }

  /**
   * GetScaleStatusCore as the source runs it: one pass over the window
   * updates the isIncreasing and isDecreasing flags.
   */
  method GetScaleStatusCore(workerCount: int, maxChangesPerWorker: int, metrics: Common.Option<seq<Sample>>)
    returns (r: Common.Result<ScaleVote>)
    ensures r == Vote(workerCount, maxChangesPerWorker, metrics)
  {
    if metrics.None? || |metrics.value| < MinSamplesForScaling {
      return Common.Success(None);
    }
    var w := Window(metrics.value);
    var last := w[4].unprocessedChangeCount;
    if last > Limit(workerCount, maxChangesPerWorker) {
      return Common.Success(ScaleOut);
    }
    var isIncreasing, isDecreasing := ScanWindow(w);
    if isIncreasing {
      var reference := FirstAfter(w, w[4].timestamp - 30);
      if reference.None? {
        return Common.Failure(Common.Throw(Common.InvalidOperationException));
      }
      var expected := 2 * w[4].unprocessedChangeCount - w[reference.value].unprocessedChangeCount;
      if expected > Limit(workerCount, maxChangesPerWorker) {
        return Common.Success(ScaleOut);
      }
    }
    if isDecreasing && last <= Limit(workerCount - 1, maxChangesPerWorker) {
      return Common.Success(ScaleIn);
    }
    r := Common.Success(None);
  }

  /**
   * GetScaleStatusWithTelemetry: the vote is None unless the core returns
   * one; an exception in the core is logged and swallowed.
   */
  method GetScaleStatus(workerCount: int, maxChangesPerWorker: int, metrics: Common.Option<seq<Sample>>)
    returns (vote: ScaleVote)
    ensures var core := Vote(workerCount, maxChangesPerWorker, metrics);
      vote == (if core.Success? then core.value else None)
  {
    vote := None;
    var status := GetScaleStatusCore(workerCount, maxChangesPerWorker, metrics);
    if status.Success? {
      vote := status.value;
    }
  }

  /** The latest sample is always later than itself minus 30 seconds, so First never throws. */
  lemma {:induction false} ReferenceExists(w: seq<Sample>, t: int, i: int)
    requires 0 <= i < |w| && w[i].timestamp > t
    ensures FirstAfter(w, t).Some?
  {
    if w[0].timestamp <= t {
      ReferenceExists(w[1..], t, i - 1);
    }
  }

  /** The core decision never throws on whole-second samples. */
  lemma CoreNeverFails(workerCount: int, maxChangesPerWorker: int, metrics: Common.Option<seq<Sample>>)
    ensures Vote(workerCount, maxChangesPerWorker, metrics).Success?
  {
    if metrics.Some? && |metrics.value| >= MinSamplesForScaling {
      var w := Window(metrics.value);
      ReferenceExists(w, w[4].timestamp - 30, 4);
    }
  }

  /**
   * The reference sample of an increasing window: the first one taken
   * less than 30 seconds before the latest.
   */
  function Reference(w: seq<Sample>): (k: nat)
    requires |w| == MinSamplesForScaling
    ensures k < |w| && w[k].timestamp > w[4].timestamp - 30
    ensures forall j :: 0 <= j < k ==> w[j].timestamp <= w[4].timestamp - 30
  {
    ReferenceExists(w, w[4].timestamp - 30, 4);
    FirstAfter(w, w[4].timestamp - 30).value
  }

  /** A window of three or more samples is never both increasing and decreasing. */
  lemma NeverBothDirections(w: seq<Sample>)
    requires |w| >= 3
    ensures !(Increasing(w) && Decreasing(w))
  {
    if Increasing(w) {
      var a, b, c := w[0].unprocessedChangeCount, w[1].unprocessedChangeCount, w[2].unprocessedChangeCount;
      assert a < b < c;
      // The second step is no decrease, or else the first one is not.
      assert !(c == 0 || b > c) || !(b == 0 || a > b);
    }
  }

  /**
   * The three rules of the vote, for every window of at least five
   * samples: ScaleOut exactly when the latest count is above the limit or
   * an increasing window's extrapolation is; ScaleIn exactly when the
   * latest count is within the limit and a decreasing window fits one
   * worker fewer; None in every other case.
   */
  lemma VoteRules(workerCount: int, maxChangesPerWorker: int, metrics: seq<Sample>)
    requires |metrics| >= MinSamplesForScaling
    ensures var w := Window(metrics);
      var last := w[4].unprocessedChangeCount;
      var limit := Limit(workerCount, maxChangesPerWorker);
      var extrapolated := Increasing(w) && 2 * last - w[Reference(w)].unprocessedChangeCount > limit;
      var shrinks := Decreasing(w) && last <= Limit(workerCount - 1, maxChangesPerWorker);
      var r := Vote(workerCount, maxChangesPerWorker, Common.Some(metrics));
      (r == Common.Success(ScaleOut) <==> last > limit || extrapolated) &&
      (r == Common.Success(ScaleIn) <==> last <= limit && shrinks) &&
      (r == Common.Success(None) <==> last <= limit && !extrapolated && !shrinks)
  {
    var w := Window(metrics);
    NeverBothDirections(w);
    assert FirstAfter(w, w[4].timestamp - 30) == Common.Some(Reference(w));
  }

  /** Only the last five samples matter: earlier ones never change the vote. */
  lemma OnlyLastFiveMatter(workerCount: int, maxChangesPerWorker: int, earlier: seq<Sample>, metrics: seq<Sample>)
    requires |metrics| >= MinSamplesForScaling
    ensures Vote(workerCount, maxChangesPerWorker, Common.Some(earlier + metrics)) ==
            Vote(workerCount, maxChangesPerWorker, Common.Some(metrics))
  {
    assert Window(earlier + metrics) == Window(metrics);
  }

  /** With no workers, any positive latest count scales out. */
  lemma NoWorkersScaleOut(maxChangesPerWorker: int, metrics: seq<Sample>)
    requires |metrics| >= MinSamplesForScaling
    requires metrics[|metrics| - 1].unprocessedChangeCount > 0
    ensures Vote(0, maxChangesPerWorker, Common.Some(metrics)) == Common.Success(ScaleOut)
  {
    assert Window(metrics)[4] == metrics[|metrics| - 1];
  }

  /**
   * The limit is computed in 32-bit arithmetic: 3 workers of 1,000,000,000
   * changes give a negative limit, so even an empty table scales out.
   */
  lemma LimitWrapsAround()
    ensures Limit(3, 1000000000) == 3000000000 - TwoTo32
    ensures Vote(3, 1000000000, Common.Some(Samples([0, 0, 0, 0, 0]))) == Common.Success(ScaleOut)
  {
    var w := Samples([0, 0, 0, 0, 0]);
    assert Window(w) == w;
    assert w[4].unprocessedChangeCount == 0;
  }

  /** Samples taken 10 seconds apart from time 0, as the unit tests build them. */
  function Samples(counts: seq<int>): (s: seq<Sample>)
    ensures |s| == |counts|
    ensures forall i :: 0 <= i < |s| ==> s[i] == Sample(counts[i], 10 * i)
  {
    seq(|counts|, i requires 0 <= i < |counts| => Sample(counts[i], 10 * i))
  }

  /** The unit-test vectors for increasing windows: the reference is the third sample. */
  lemma IncreasingExamples()
    ensures Vote(1, 1000, Common.Some(Samples([0, 1, 500, 501, 751]))) == Common.Success(ScaleOut)
    ensures Vote(1, 1000, Common.Some(Samples([0, 1, 500, 501, 750]))) == Common.Success(None)
  {
    RisingPastLimitScalesOut();
    RisingToLimitKeeps();
  }

  /** Rising to 751: 2 * 751 - 500 exceeds the limit of 1000. */
  lemma RisingPastLimitScalesOut()
    ensures Vote(1, 1000, Common.Some(Samples([0, 1, 500, 501, 751]))) == Common.Success(ScaleOut)
  {
    var a := Samples([0, 1, 500, 501, 751]);
    assert Window(a) == a;
    assert Increasing(a);
    assert FirstAfter(a[2..], 10) == Common.Some(0);
    assert a[1..][1..] == a[2..];
    assert FirstAfter(a, 10) == Common.Some(2);
  }

  /** Rising to 750: 2 * 750 - 500 is exactly the limit, which does not scale out. */
  lemma RisingToLimitKeeps()
    ensures Vote(1, 1000, Common.Some(Samples([0, 1, 500, 501, 750]))) == Common.Success(None)
  {
    var b := Samples([0, 1, 500, 501, 750]);
    assert Window(b) == b;
    assert Increasing(b);
    assert FirstAfter(b[2..], 10) == Common.Some(0);
    assert b[1..][1..] == b[2..];
    assert FirstAfter(b, 10) == Common.Some(2);
    assert !Decreasing(b) by {
      assert !(b[1].unprocessedChangeCount == 0 || b[0].unprocessedChangeCount > b[1].unprocessedChangeCount);
    }
    assert DecreasingVote(b, 1, 1000) == None;
  }

  /** Unit-test vector: a window decreasing to zero with one worker scales in. */
  lemma DecreasingToZeroScalesIn()
    ensures Vote(1, 1000, Common.Some(Samples([5, 4, 3, 2, 0]))) == Common.Success(ScaleIn)
  {
    var a := Samples([5, 4, 3, 2, 0]);
    assert a == [Sample(5, 0), Sample(4, 10), Sample(3, 20), Sample(2, 30), Sample(0, 40)];
    assert Window(a) == a;
    OneWorkerLimits();
    assert !Increasing(a) by { assert !(a[0].unprocessedChangeCount < a[1].unprocessedChangeCount); }
    assert Decreasing(a);
    assert a[4].unprocessedChangeCount == 0;
    VoteRules(1, 1000, a);
  }

  /** With 1000 changes per worker, one worker covers 1000 changes and none covers 0. */
  lemma OneWorkerLimits()
    ensures Limit(1, 1000) == 1000 && Limit(0, 1000) == 0
  {
    assert 1 * 1000 == 1000 && 0 * 1000 == 0;
  }

  /** Unit-test vector: a decreasing window still above the reduced limit keeps the workers. */
  lemma DecreasingAboveLimitKeeps()
    ensures Vote(1, 1000, Common.Some(Samples([5, 4, 3, 2, 1]))) == Common.Success(None)
  {
    var b := Samples([5, 4, 3, 2, 1]);
    assert Window(b) == b;
    assert !Increasing(b) by { assert !(b[0].unprocessedChangeCount < b[1].unprocessedChangeCount); }
  }

  /** Unit-test vector: of seven samples only the last five count, and they decrease. */
  lemma ExcessSamplesIgnored()
    ensures Vote(2, 1000, Common.Some(Samples([0, 0, 4, 3, 2, 1, 0]))) == Common.Success(ScaleIn)
  {
    var c := Samples([0, 0, 4, 3, 2, 1, 0]);
    var w := c[2..];
    assert Window(c) == w;
    assert w == [Sample(4, 20), Sample(3, 30), Sample(2, 40), Sample(1, 50), Sample(0, 60)];
    assert !Increasing(w) by { assert !(w[0].unprocessedChangeCount < w[1].unprocessedChangeCount); }
    assert Decreasing(w);
  }

  /** Unit-test vector: a window that is neither increasing nor decreasing votes None. */
  lemma FlatThenRisingKeeps()
    ensures Vote(1, 1000, Common.Some(Samples([0, 0, 1, 2, 3]))) == Common.Success(None)
  {
    var d := Samples([0, 0, 1, 2, 3]);
    assert Window(d) == d;
    assert !Increasing(d) by { assert !(d[0].unprocessedChangeCount < d[1].unprocessedChangeCount); }
    assert !Decreasing(d) by {
      assert !(d[2].unprocessedChangeCount == 0 || d[1].unprocessedChangeCount > d[2].unprocessedChangeCount);
    }
  }

  /** ScaleMonitorDescriptor.Id: "<function id>-SqlTrigger-<table FullName>", case kept. */
  function DescriptorId(userFunctionId: string, userTable: SqlObjects.SqlObject): (id: string)
    ensures id == userFunctionId + "-SqlTrigger-" + userTable.fullName
    ensures |id| == |userFunctionId| + 12 + |userTable.fullName|
  {
    userFunctionId + "-SqlTrigger-" + userTable.fullName
  }

  /** For a table named without a schema, the descriptor ends with the table name itself. */
  lemma DescriptorOfUnqualifiedTable(userFunctionId: string, table: string)
    ensures var o := SqlObjects.FromParsed(SqlObjects.ParsedName([], Common.None, table));
      o.Success? && DescriptorId(userFunctionId, o.value) == userFunctionId + "-SqlTrigger-" + table
  {
    var o := SqlObjects.FromParsed(SqlObjects.ParsedName([], Common.None, table));
    assert o.value.schema == SqlObjects.SchemaNameFunction;
  }

  // ---------------------------------------------------------------------
  // Target-based scaling

  /** The concurrency of GetScaleResultAsync: the host's instance concurrency, else the per-worker limit. */
  function Concurrency(instanceConcurrency: Common.Option<int>, maxChangesPerWorker: int): (c: int)
    ensures instanceConcurrency.Some? ==> c == instanceConcurrency.value
    ensures instanceConcurrency.None? ==> c == maxChangesPerWorker
  {
    if instanceConcurrency.Some? then instanceConcurrency.value else maxChangesPerWorker
  }

  /**
   * GetScaleResultInternal: concurrency below 1 is an
   * ArgumentOutOfRangeException; the target is the ceiling of the decimal
   * quotient, and a ceiling outside `int` makes the cast throw
   * OverflowException.
   */
  function TargetWorkerCount(concurrency: int, unprocessedChangeCount: int): (r: Common.Result<int>)
    ensures concurrency < 1 ==> r == Common.Failure(Common.Throw(Common.ArgumentOutOfRangeException))
    ensures concurrency >= 1 && r.Failure? ==> r == Common.Failure(Common.Throw(Common.OverflowException))
    ensures concurrency >= 1 ==>
      (r.Success? <==> (-TwoTo31 - 1) * concurrency < unprocessedChangeCount <= (TwoTo31 - 1) * concurrency)
    ensures r.Success? ==>
      concurrency >= 1 && -TwoTo31 <= r.value < TwoTo31 &&
      r.value * concurrency >= unprocessedChangeCount &&
      (r.value - 1) * concurrency < unprocessedChangeCount
  {
    if concurrency < 1 then Common.Failure(Common.Throw(Common.ArgumentOutOfRangeException))
    else
      var target := -((-unprocessedChangeCount) / concurrency);
      CeilingInRange(concurrency, unprocessedChangeCount, target);
      if target < -TwoTo31 || target >= TwoTo31 then Common.Failure(Common.Throw(Common.OverflowException))
      else Common.Success(target)
  }

  /** The ceiling lies in the 32-bit range exactly when the count lies between the range's bounds times the concurrency. */
  lemma CeilingInRange(concurrency: int, n: int, target: int)
    requires concurrency >= 1 && target == -((-n) / concurrency)
    ensures target * concurrency >= n && (target - 1) * concurrency < n
    ensures (-TwoTo31 <= target < TwoTo31) <==> (-TwoTo31 - 1) * concurrency < n <= (TwoTo31 - 1) * concurrency
  {
    var q := (-n) / concurrency;
    var r := (-n) % concurrency;
    assert -n == q * concurrency + r && 0 <= r < concurrency;
    assert target * concurrency == n + r;
    assert (target - 1) * concurrency == n + r - concurrency;
    MulMonotone(target, TwoTo31 - 1, concurrency);
    MulMonotone(TwoTo31, target, concurrency);
    MulMonotone(-TwoTo31, target, concurrency);
    MulMonotone(target, -TwoTo31 - 1, concurrency);
  }

  /** Multiplying by a positive number keeps the order. */
  lemma MulMonotone(a: int, b: int, c: int)
    requires c >= 1
    ensures a <= b ==> a * c <= b * c
  {
    if a <= b {
      assert b * c - a * c == (b - a) * c;
      assert (b - a) * c >= 0;
    }
  }

  /** No changes need no workers, and for counts that fit a worker count the ceiling exists. */
  lemma TargetBounds(concurrency: int, unprocessedChangeCount: int)
    requires concurrency >= 1 && 0 <= unprocessedChangeCount < TwoTo31
    ensures TargetWorkerCount(concurrency, unprocessedChangeCount).Success?
    ensures unprocessedChangeCount == 0 ==> TargetWorkerCount(concurrency, unprocessedChangeCount) == Common.Success(0)
    ensures unprocessedChangeCount > 0 ==> TargetWorkerCount(concurrency, unprocessedChangeCount).value >= 1
  {
    var q := (-unprocessedChangeCount) / concurrency;
    assert q * concurrency <= -unprocessedChangeCount;
    assert -unprocessedChangeCount < (q + 1) * concurrency;
  }

  /** The unit-test vectors. */
  lemma TargetExamples()
    ensures TargetWorkerCount(1000, 6000) == Common.Success(6)
    ensures TargetWorkerCount(1000, 4500) == Common.Success(5)
    ensures TargetWorkerCount(100, 1080) == Common.Success(11)
    ensures TargetWorkerCount(1000, 100) == Common.Success(1)
  {
  }

  /**
   * The per-worker limit the scaler provider passes on: the app setting
   * when non-zero, else the options value when non-zero, else the default
   * 1000.
   */
  function ProviderMaxChangesPerWorker(appSetting: int, optionsValue: int): (m: int)
    ensures m != 0
    ensures appSetting != 0 ==> m == appSetting
    ensures appSetting == 0 && optionsValue != 0 ==> m == optionsValue
    ensures appSetting == 0 && optionsValue == 0 ==> m == 1000
  {
    if appSetting != 0 then appSetting else if optionsValue != 0 then optionsValue else 1000
  }
}
