/** The error counter: every handled error bumps the count of its type name, is written to the
    logger when there is one, and is reported back as recoverable unless its type name marks it
    as critical. */
module ErrorHandler {
  import opened PyStr

  // ---------------------------------------------------------------- the critical rule

  const CriticalPatterns: seq<string> := ["PermissionError", "DatabaseError", "OutOfMemoryError", "SystemError"]

  /** `_is_critical_error`: the type name contains one of the critical patterns; the message is
      not consulted. */
  predicate IsCritical(errorType: string, errorMsg: string) {
    exists k :: 0 <= k < |CriticalPatterns| && Contains(errorType, CriticalPatterns[k])
  }

  /** A pattern found in `t` is found in any text around `t`. */
  lemma ContainsWithin(a: string, t: string, b: string, p: string)
    requires Contains(t, p)
    ensures Contains(a + t + b, p)
  {
    var k := IndexOf(t, p).value;
    var s := a + t + b;
    assert s[|a| + k..|a| + k + |p|] == t[k..k + |p|];
    assert OccursAt(s, p, |a| + k);
  }

  /** A type name that embeds a critical one is critical too, whatever its message
      (`PgDatabaseError`, `MySystemErrorWrapper`). */
  lemma CriticalWithin(a: string, errorType: string, b: string, msg: string, msg': string)
    requires IsCritical(errorType, msg)
    ensures IsCritical(a + errorType + b, msg')
  {
    var k :| 0 <= k < |CriticalPatterns| && Contains(errorType, CriticalPatterns[k]);
    ContainsWithin(a, errorType, b, CriticalPatterns[k]);
  }

  /** Each pattern is critical by itself. */
  lemma PatternsCritical(msg: string)
    ensures forall k :: 0 <= k < |CriticalPatterns| ==> IsCritical(CriticalPatterns[k], msg)
  {
    forall k | 0 <= k < |CriticalPatterns| ensures IsCritical(CriticalPatterns[k], msg) {
      var p := CriticalPatterns[k];
      assert OccursAt(p, p, 0);
    }
  }

  /** A type name shorter than every pattern is never critical. */
  lemma ShortNotCritical(errorType: string, msg: string)
    requires |errorType| < 11
    ensures !IsCritical(errorType, msg)
  {
    forall k | 0 <= k < |CriticalPatterns| ensures !Contains(errorType, CriticalPatterns[k]) {
      assert |CriticalPatterns[k]| >= 11;
    }
  }

  /** Common recoverable types are not critical. */
  lemma RecoverableExamples(msg: string)
    ensures !IsCritical("ValueError", msg) && !IsCritical("KeyError", msg) && !IsCritical("OSError", msg)
  {
    ShortNotCritical("ValueError", msg);
    ShortNotCritical("KeyError", msg);
    ShortNotCritical("OSError", msg);
  }

  // ---------------------------------------------------------------- handling one error

  /** What the logger receives. */
  datatype LogEntry = Error(errorType: string, errorMsg: string) | Critical(errorType: string)

  /** Where the handler itself fails, if it does: `InMessage` when `str(error)` raises, before
      anything is counted; `InLogger` when the logger raises on the error entry. */
  datatype Failure = NoFailure | InMessage | InLogger

  /** `error_counts.get(t, 0)`. */
  function CountOf(counts: map<string, nat>, t: string): nat {
    if t in counts then counts[t] else 0
  }

  /** The result of `handle_error`, the counts and the log after it. */
  function HandleSpec(counts: map<string, nat>, hasLogger: bool, log: seq<LogEntry>,
                      errorType: string, errorMsg: string, failure: Failure): (bool, map<string, nat>, seq<LogEntry>)
  {
    if failure == InMessage then (false, counts, log)
    else
      var counts' := counts[errorType := CountOf(counts, errorType) + 1];
      if !hasLogger then (!IsCritical(errorType, errorMsg), counts', log)
      else if failure == InLogger then (false, counts', log)
      else
        var log' := log + [Error(errorType, errorMsg)];
        if IsCritical(errorType, errorMsg) then (false, counts', log' + [Critical(errorType)])
        else (true, counts', log')
  }

  /** Once past reading the message, the count of the error's type goes up by exactly one and no
      other count changes. */
  lemma CountsOne(counts: map<string, nat>, hasLogger: bool, log: seq<LogEntry>,
                  errorType: string, errorMsg: string, failure: Failure)
    requires failure != InMessage
    ensures var counts' := HandleSpec(counts, hasLogger, log, errorType, errorMsg, failure).1;
      CountOf(counts', errorType) == CountOf(counts, errorType) + 1
      && counts'.Keys == counts.Keys + {errorType}
      && forall t :: t != errorType ==> CountOf(counts', t) == CountOf(counts, t)
  {
  }

  /** When nothing fails, the error is recoverable exactly when its type is not critical, with a
      logger or without. */
  lemma HandledUnlessCritical(counts: map<string, nat>, hasLogger: bool, log: seq<LogEntry>,
                              errorType: string, errorMsg: string)
    ensures HandleSpec(counts, hasLogger, log, errorType, errorMsg, NoFailure).0 <==> !IsCritical(errorType, errorMsg)
  {
  }

  /** A failure inside the handler makes it report the error as not handled. */
  lemma FailureNotHandled(counts: map<string, nat>, hasLogger: bool, log: seq<LogEntry>,
                          errorType: string, errorMsg: string, failure: Failure)
    requires failure == InMessage || (failure == InLogger && hasLogger)
    ensures !HandleSpec(counts, hasLogger, log, errorType, errorMsg, failure).0
  {
  }

  /** With a logger, a handled error leaves one entry, and a critical one a second entry naming
      its type; without a logger nothing is logged. */
  lemma LogEntries(counts: map<string, nat>, hasLogger: bool, log: seq<LogEntry>,
                   errorType: string, errorMsg: string)
    ensures var log' := HandleSpec(counts, hasLogger, log, errorType, errorMsg, NoFailure).2;
      (!hasLogger ==> log' == log)
      && (hasLogger && !IsCritical(errorType, errorMsg) ==> log' == log + [Error(errorType, errorMsg)])
      && (hasLogger && IsCritical(errorType, errorMsg) ==> log' == log + [Error(errorType, errorMsg), Critical(errorType)])
  {
  }

  /** Counting over a series of errors of types `ts`, none failing: each type's count is the
      number of its occurrences. */
  function CountAll(counts: map<string, nat>, ts: seq<string>): map<string, nat>
  {
    if ts == [] then counts
    else
      var before := CountAll(counts, ts[..|ts| - 1]);
      before[ts[|ts| - 1] := CountOf(before, ts[|ts| - 1]) + 1]
  }

  /** How often `t` occurs in `ts`. */
  function Occurrences(ts: seq<string>, t: string): nat {
    if ts == [] then 0 else Occurrences(ts[..|ts| - 1], t) + (if ts[|ts| - 1] == t then 1 else 0)
  }

  /** After handling the errors `ts`, each type is counted as often as it
      occurred. */
  lemma {:induction false} CountAllOccurrences(counts: map<string, nat>, ts: seq<string>)
    ensures forall t :: CountOf(CountAll(counts, ts), t) == CountOf(counts, t) + Occurrences(ts, t)
    decreases |ts|
  {
    if ts != [] {
      CountAllOccurrences(counts, ts[..|ts| - 1]);
    }
  }

  /** Handling one more error without a failure counts as `CountAll` does for one more type, so
      `CountAll` is what a series of `handle_error` calls does to the counts. */
  lemma HandleCountsAll(counts: map<string, nat>, ts: seq<string>, hasLogger: bool, log: seq<LogEntry>,
                        errorType: string, errorMsg: string)
    ensures HandleSpec(CountAll(counts, ts), hasLogger, log, errorType, errorMsg, NoFailure).1
      == CountAll(counts, ts + [errorType])
  {
    assert (ts + [errorType])[..|ts|] == ts;
  }

  // ---------------------------------------------------------------- the handler object

  class ErrorHandler {
    var hasLogger: bool
    var errorCounts: map<string, nat>
    /** The entries the logger received, oldest first. */
    var log: seq<LogEntry>

    constructor()
      ensures !hasLogger && errorCounts == map[] && log == []
    {
      hasLogger := false;
      errorCounts := map[];
      log := [];
    }

    /** `set_logger`; `present` is whether the logger given is truthy. */
    method SetLogger(present: bool)
      modifies this
      ensures hasLogger == present && errorCounts == old(errorCounts) && log == old(log)
    {
      hasLogger := present;
    }

    /** `handle_error`, for an error of type `errorType` with message `errorMsg`. */
    method HandleError(errorType: string, errorMsg: string, failure: Failure) returns (handled: bool)
      modifies this
      ensures hasLogger == old(hasLogger)
      ensures (handled, errorCounts, log) == HandleSpec(old(errorCounts), hasLogger, old(log), errorType, errorMsg, failure)
    {
      if failure == InMessage {
        return false;
      }
      errorCounts := errorCounts[errorType := CountOf(errorCounts, errorType) + 1];
      if hasLogger {
        if failure == InLogger {
          return false;
        }
        log := log + [Error(errorType, errorMsg)];
      }
      if IsCritical(errorType, errorMsg) {
        if hasLogger {
          log := log + [Critical(errorType)];
        }
        return false;
      }
      handled := true;
    }
  }
}
