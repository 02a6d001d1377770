/**
 * SqlTriggerListener of the earlier trigger revision: a registration
 * status moved by compare-and-exchange. StartAsync is split at its await:
 * `BeginStart` is the compare-exchange and its checks, `FinishStart` what
 * follows the watcher's start, so that another start or a stop can come
 * in between, as it can while the start is awaited.
 */
module LegacyTriggerListener {
  import opened Common

  datatype Status = NotRegistered | Registering | Registered

  const AlreadyStartingMessage := "The listener is already starting."
  const AlreadyStartedMessage := "The listener has already started."

  /**
   * The compare-exchange of StartAsync: NotRegistered becomes
   * Registering; a listener already starting or started is left alone and
   * the call throws an InvalidOperationException.
   */
  function Begin(s: Status): (r: (Status, Option<Exception>))
    ensures r.1.None? <==> s == NotRegistered
    ensures r.1.None? ==> r.0 == Registering
    ensures r.1.Some? ==> r.0 == s && r.1.value.kind == InvalidOperationException
    ensures s == Registering ==> r.1 == Some(ThrowWith(InvalidOperationException, AlreadyStartingMessage))
    ensures s == Registered ==> r.1 == Some(ThrowWith(InvalidOperationException, AlreadyStartedMessage))
  {
    match s
    case NotRegistered => (Registering, None)
    case Registering => (s, Some(ThrowWith(InvalidOperationException, AlreadyStartingMessage)))
    case Registered => (s, Some(ThrowWith(InvalidOperationException, AlreadyStartedMessage)))
  }

  /**
   * After the watcher's start: on success the status moves from
   * Registering to Registered only if it is still Registering; on
   * failure it is reset to NotRegistered.
   */
  function Finish(s: Status, watcherFailed: bool): (t: Status)
    ensures watcherFailed ==> t == NotRegistered
    ensures !watcherFailed ==> (t == Registered <==> s == Registering || s == Registered)
    ensures !watcherFailed && s != Registering ==> t == s
  {
    if watcherFailed then NotRegistered
    else if s == Registering then Registered
    else s
  }

  /** StopAsync: NotRegistered once the watcher stopped, whatever the status was; a failed watcher stop changes nothing. */
  function Stop(s: Status, watcherFailed: bool): (t: Status)
    ensures !watcherFailed ==> t == NotRegistered
    ensures watcherFailed ==> t == s
  {
    if watcherFailed then s else NotRegistered
  }

  /** StartAsync run to its end without anything in between. */
  function StartUninterrupted(s: Status, watcherFailed: bool): Status
  {
    var (begun, thrown) := Begin(s);
    if thrown.Some? then begun else Finish(begun, watcherFailed)
  }

  /** From NotRegistered a start ends Registered, or NotRegistered again if the watcher failed. */
  lemma StartFromNotRegistered(watcherFailed: bool)
    ensures StartUninterrupted(NotRegistered, watcherFailed) == if watcherFailed then NotRegistered else Registered
  {
  }

  /** A second start while the first is awaited throws "already starting" and leaves the first to finish. */
  lemma SecondStartWhileStarting(watcherFailed: bool)
    ensures var (first, _) := Begin(NotRegistered);
      var (second, thrown) := Begin(first);
      thrown == Some(ThrowWith(InvalidOperationException, AlreadyStartingMessage)) &&
      Finish(second, watcherFailed) == if watcherFailed then NotRegistered else Registered
  {
  }

  /** After a successful stop the listener can be started again, whatever its status was. */
  lemma RestartAfterStop(s: Status)
    ensures StartUninterrupted(Stop(s, false), false) == Registered
  {
  }

  /** A stop that comes while a start is awaited wins: the start's compare-exchange then finds NotRegistered and leaves it. */
  lemma StopDuringStartWins()
    ensures Finish(Stop(Begin(NotRegistered).0, false), false) == NotRegistered
  {
  }

  class SqlTriggerListener {
    var status: Status
    /** The watcher's start and stop calls made so far. */
    var watcherStarts: nat
    var watcherStops: nat

    constructor ()
      ensures status == NotRegistered && watcherStarts == 0 && watcherStops == 0
    {
      status := NotRegistered;
      watcherStarts := 0;
      watcherStops := 0;
    }

    /** StartAsync up to its await: the compare-exchange and the two checks; the watcher is started only if they pass. */
    method BeginStart() returns (thrown: Option<Exception>)
      modifies this
      ensures (status, thrown) == Begin(old(status))
      ensures watcherStarts == old(watcherStarts) + (if thrown.None? then 1 else 0)
      ensures watcherStops == old(watcherStops)
    {
      var previous := status;
      if previous == NotRegistered {
        status := Registering;
      }
      if previous == Registering {
        return Some(ThrowWith(InvalidOperationException, AlreadyStartingMessage));
      } else if previous == Registered {
        return Some(ThrowWith(InvalidOperationException, AlreadyStartedMessage));
      }
      watcherStarts := watcherStarts + 1;
      thrown := None;
    }

    /** StartAsync after its await; `watcherError` is what the watcher's start threw, which is rethrown. */
    method FinishStart(watcherError: Option<Exception>) returns (thrown: Option<Exception>)
      modifies this
      ensures status == Finish(old(status), watcherError.Some?)
      ensures thrown == watcherError
      ensures watcherStarts == old(watcherStarts) && watcherStops == old(watcherStops)
    {
      if watcherError.Some? {
        status := NotRegistered;
        return watcherError;
      }
      if status == Registering {
        status := Registered;
      }
      thrown := None;
    }

    /** StopAsync; Cancel waits on it. */
    method StopAsync(watcherError: Option<Exception>) returns (thrown: Option<Exception>)
      modifies this
      ensures status == Stop(old(status), watcherError.Some?)
      ensures thrown == watcherError
      ensures watcherStops == old(watcherStops) + 1 && watcherStarts == old(watcherStarts)
    {
      watcherStops := watcherStops + 1;
      if watcherError.Some? {
        return watcherError;
      }
      status := NotRegistered;
      thrown := None;
    }
  }
}
