/**
 * SqlTriggerListener of the current trigger: a three-state lifecycle
 * around the table change monitor. The monitor is abstract; the listener
 * counts how often it starts and stops it, and whether a start threw is a
 * parameter.
 */
module TriggerListener {
  import opened Common

  datatype State = NotInitialized | Running | Stopped

  /** A call made on the listener; `Start(fails)` records whether the monitor's start throws. */
  datatype Call = Start(fails: bool) | Stop | Cancel

  /**
   * The state after one call: StartAsync acts only in NotInitialized and
   * reaches Running only if the monitor started; StopAsync (and Cancel,
   * which waits on it) acts only in Running.
   */
  function Next(s: State, call: Call): (t: State)
    ensures s == Stopped ==> t == Stopped
    ensures t == Running <==> (s == Running && call.Start?) || (s == NotInitialized && call == Start(false))
    ensures call.Start? && s != NotInitialized ==> t == s
    ensures !call.Start? && s != Running ==> t == s
    ensures !call.Start? && s == Running ==> t == Stopped
  {
    match call
    case Start(fails) => if s == NotInitialized && !fails then Running else s
    case Stop => if s == Running then Stopped else s
    case Cancel => if s == Running then Stopped else s
  }

  function Run(s: State, calls: seq<Call>): State
    decreases |calls|
  {
    if |calls| == 0 then s else Run(Next(s, calls[0]), calls[1..])
  }

  /** How often the calls stop the monitor. */
  function MonitorStops(s: State, calls: seq<Call>): nat
    decreases |calls|
  {
    if |calls| == 0 then 0
    else (if s == Running && !calls[0].Start? then 1 else 0) + MonitorStops(Next(s, calls[0]), calls[1..])
  }

  /** How often the calls start the monitor successfully. */
  function MonitorStarts(s: State, calls: seq<Call>): nat
    decreases |calls|
  {
    if |calls| == 0 then 0
    else (if s == NotInitialized && calls[0] == Start(false) then 1 else 0) + MonitorStarts(Next(s, calls[0]), calls[1..])
  }

  /** Stopped is terminal: no sequence of calls leaves it, and none reaches the monitor again. */
  lemma {:induction false} StoppedIsTerminal(calls: seq<Call>)
    ensures Run(Stopped, calls) == Stopped
    ensures MonitorStops(Stopped, calls) == 0 && MonitorStarts(Stopped, calls) == 0
    decreases |calls|
  {
    if |calls| > 0 {
      StoppedIsTerminal(calls[1..]);
    }
  }

  /** From Running no further start happens, and the monitor is stopped at most once. */
  lemma {:induction false} RunningStopsOnce(calls: seq<Call>)
    ensures MonitorStops(Running, calls) <= 1 && MonitorStarts(Running, calls) == 0
    decreases |calls|
  {
    if |calls| > 0 {
      if calls[0].Start? {
        RunningStopsOnce(calls[1..]);
      } else {
        StoppedIsTerminal(calls[1..]);
      }
    }
  }

  /** Over the listener's whole life the monitor is started at most once and stopped at most once, and never stopped unless started. */
  lemma {:induction false} MonitorStartedAndStoppedAtMostOnce(calls: seq<Call>)
    ensures MonitorStarts(NotInitialized, calls) <= 1
    ensures MonitorStops(NotInitialized, calls) <= MonitorStarts(NotInitialized, calls)
    decreases |calls|
  {
    if |calls| > 0 {
      if calls[0] == Start(false) {
        RunningStopsOnce(calls[1..]);
      } else {
        MonitorStartedAndStoppedAtMostOnce(calls[1..]);
      }
    }
  }

  /** A failed start leaves the listener where it was, so a later start can still succeed. */
  lemma FailedStartRetried()
    ensures Run(NotInitialized, [Start(true), Start(false)]) == Running
    ensures MonitorStarts(NotInitialized, [Start(true), Start(false)]) == 1
  {
    assert [Start(true), Start(false)][1..] == [Start(false)];
  }

  class SqlTriggerListener {
    var state: State
    /** The monitor's StartAsync and Stop calls made so far. */
    var startCalls: nat
    var stopCalls: nat

    constructor ()
      ensures state == NotInitialized && startCalls == 0 && stopCalls == 0
    {
      state := NotInitialized;
      startCalls := 0;
      stopCalls := 0;
    }

    /** StartAsync; `monitorError` is what the monitor's start throws, which propagates. */
    method StartAsync(monitorError: Option<Exception>) returns (thrown: Option<Exception>)
      modifies this
      ensures state == Next(old(state), Start(monitorError.Some?))
      ensures startCalls == old(startCalls) + (if old(state) == NotInitialized then 1 else 0)
      ensures stopCalls == old(stopCalls)
      ensures thrown == (if old(state) == NotInitialized then monitorError else None)
    {
      thrown := None;
      if state == NotInitialized {
        startCalls := startCalls + 1;
        if monitorError.Some? {
          return monitorError;
        }
        state := Running;
      }
    }

    method StopAsync()
      modifies this
      ensures state == Next(old(state), Call.Stop)
      ensures stopCalls == old(stopCalls) + (if old(state) == Running then 1 else 0)
      ensures startCalls == old(startCalls)
    {
      if state == Running {
        stopCalls := stopCalls + 1;
        state := Stopped;
      }
    }

    /** Cancel waits on StopAsync. */
    method Cancel()
      modifies this
      ensures state == Next(old(state), Call.Cancel)
      ensures stopCalls == old(stopCalls) + (if old(state) == Running then 1 else 0)
      ensures startCalls == old(startCalls)
    {
      StopAsync();
    }
  }
}
