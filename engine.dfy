/**
 * The exchange engine (`WriteRead` and `WriteReadWoTracing`) as functions on the
 * connection state: one attempt of the do-while body, and the retry loop around it.
 */
module Engine {
  import opened Wrappers
  import Text
  import opened Transport
  import opened Session

  /** The loop runs while both error counters are below this. */
  const ErrorBudget: nat := 3

  const GiveUpEntry: string := "There were three consecutive io error. I close the connection."

  /** Message of the exception thrown when an attempt finds the port closed. */
  function ClosedMessage(name: string): string
  {
    "The " + name + " Serial Port is closed. Please open it."
  }

  /** Message of the `TimeoutException` that wraps a failed read. */
  function LastRequest(request: string): string
  {
    "Last Request: " + request
  }

  /** How a call of the exchange ended. */
  datatype Exit =
    | Answered     // a response line was read and returned
    | FoundClosed  // an attempt found the port closed and threw
    | NoPort       // `_sp` was null: the closed-port message itself threw
    | GaveUp       // a counter reached the budget: the connection was closed

  /** The outcome of one pass of the loop body. */
  datatype Step =
    | Stop(after: ConnState, result: Result<string, Failure>, exit: Exit)
    | Retry(after: ConnState, failure: Failure, readSide: bool)

  /** How many entries one failed attempt adds to the trace list. */
  function FailedAttemptEntries(s: ConnState, traced: bool, readSide: bool): nat
  {
    if traced then 2 * Gate(s) else if readSide then 0 else Gate(s)
  }

  /**
   * The entries a failed attempt appends when tracing is on: the request when traced,
   * then "Tx ERROR" with the write's reason for a failed write (traced or not), or
   * "Rx ERROR" with the read's reason for a failed read (traced only).
   */
  function FailureEntries(s: ConnState, request: string, traced: bool, a: Attempt): seq<string>
  {
    var sent := if traced then [Stamp(s.now, "Tx: " + request)] else [];
    if !Logging(s) then []
    else if a.WriteFault? then sent + [Stamp(s.now, "Tx ERROR Serial Port is:" + a.reason)]
    else if a.ReadFault? && traced then sent + [Stamp(s.now, "Rx ERROR Serial Port is:" + a.reason)]
    else []
  }

  /**
   * One pass of the do-while body: the closed-port check, then the write and the
   * read, traced when `traced` is set ("Tx ERROR" entries are written either way).
   * A failed write or read is a `Retry` that raised `ErrorHappened` once; a closed
   * port or a response is a `Stop`.
   */
  function AttemptOnce(s: ConnState, request: string, traced: bool): Step
  {
    if s.sp.None? then Stop(s, Err(NullReference), NoPort)
    else
      var p := Poll(s.sp.value);
      if !p.isOpen then
        var msg := ClosedMessage(p.name);
        Stop(ChangedStep(TraceStep(s.(sp := Some(p)), msg)), Err(PortClosed(msg)), FoundClosed)
      else
        var s1 := if traced then TraceStep(s, "Tx: " + request) else s;
        var a := NextAttempt(p);
        var s2 := s1.(sp := Some(AfterAttempt(p, request)));
        if a.WriteFault? then
          Retry(ErrorStep(TraceStep(s2, "Tx ERROR Serial Port is:" + a.reason)), IoFault(a.reason), false)
        else if a.ReadFault? then
          var s3 := if traced then TraceStep(s2, "Rx ERROR Serial Port is:" + a.reason) else s2;
          Retry(ErrorStep(s3), Timeout(LastRequest(request), a.reason), true)
        else
          var response := Text.Trim(a.line, Text.ResponseJunk);
          Stop(if traced then TraceStep(s2, "Rx: " + response) else s2, Ok(response), Answered)
  }

  /** What every attempt keeps: the log directory, the clock, the earlier trace entries and the port's name. */
  lemma AttemptFrame(s: ConnState, request: string, traced: bool)
    ensures var st := AttemptOnce(s, request, traced);
      st.after.logDirectory == s.logDirectory && st.after.now == s.now &&
      s.traceList <= st.after.traceList &&
      (st.Stop? ==> st.exit != GaveUp) &&
      (st.Stop? && st.exit == NoPort <==> s.sp.None?) &&
      (st.Stop? && st.exit == NoPort ==> st.after == s && st.result == Err(NullReference)) &&
      (s.sp.Some? ==> st.after.sp.Some? && st.after.sp.value.name == s.sp.value.name)
  {
    AttemptKeeps(s, request, traced);
    AttemptExits(s, request, traced);
  }

  lemma AttemptKeeps(s: ConnState, request: string, traced: bool)
    ensures var st := AttemptOnce(s, request, traced);
      st.after.logDirectory == s.logDirectory && st.after.now == s.now &&
      s.traceList <= st.after.traceList
  {
  }

  lemma AttemptExits(s: ConnState, request: string, traced: bool)
    ensures var st := AttemptOnce(s, request, traced);
      (st.Stop? ==> st.exit != GaveUp) &&
      (st.Stop? && st.exit == NoPort <==> s.sp.None?) &&
      (st.Stop? && st.exit == NoPort ==> st.after == s && st.result == Err(NullReference)) &&
      (s.sp.Some? ==> st.after.sp.Some? && st.after.sp.value.name == s.sp.value.name)
  {
  }

  /**
   * A failed attempt: the port stays open, `ErrorHappened` is raised once, the line
   * counts as written only when the write succeeded, the captured exception says
   * which side failed, and the trace grows by `FailedAttemptEntries`.
   */
  lemma AttemptRetry(s: ConnState, request: string, traced: bool)
    requires AttemptOnce(s, request, traced).Retry?
    ensures var st := AttemptOnce(s, request, traced);
      s.sp.Some? && st.after.sp.Some? &&
      st.after.sp.value.isOpen &&
      st.after.errorHappened == s.errorHappened + 1 &&
      st.after.connectionChanged == s.connectionChanged &&
      st.after.sp.value.sent == s.sp.value.sent + (if st.readSide then [request] else []) &&
      (st.readSide ==> st.failure.Timeout? && st.failure.message == LastRequest(request)) &&
      (!st.readSide ==> st.failure.IoFault?) &&
      |st.after.traceList| == |s.traceList| + FailedAttemptEntries(s, traced, st.readSide) &&
      st.after.traceLines == s.traceLines + FailedAttemptEntries(s, traced, st.readSide)
  {
  }

  /**
   * An answered attempt: nothing raised, the line was written once, the response is
   * the line read with NUL, CR and LF trimmed from both ends, and the trace grows by
   * two entries when traced.
   */
  lemma AttemptAnswered(s: ConnState, request: string, traced: bool)
    requires AttemptOnce(s, request, traced).Stop? && AttemptOnce(s, request, traced).exit == Answered
    ensures var st := AttemptOnce(s, request, traced);
      s.sp.Some? && st.after.sp.Some? &&
      st.after.sp.value.isOpen &&
      st.after.errorHappened == s.errorHappened &&
      st.after.connectionChanged == s.connectionChanged &&
      st.after.sp.value.sent == s.sp.value.sent + [request] &&
      NextAttempt(s.sp.value).Reply? &&
      st.result == Ok(Text.Trim(NextAttempt(s.sp.value).line, Text.ResponseJunk)) &&
      |st.after.traceList| == |s.traceList| + (if traced then 2 * Gate(s) else 0) &&
      st.after.traceLines == s.traceLines + (if traced then 2 * Gate(s) else 0)
  {
    var p := Poll(s.sp.value);
    var a := NextAttempt(p);
    assert p.isOpen && a.Reply?;
    var response := Text.Trim(a.line, Text.ResponseJunk);
    var s1 := if traced then TraceStep(s, "Tx: " + request) else s;
    var s2 := s1.(sp := Some(AfterAttempt(p, request)));
    assert AttemptOnce(s, request, traced) ==
      Stop(if traced then TraceStep(s2, "Rx: " + response) else s2, Ok(response), Answered);
  }

  /** The entries a failed attempt appends: exactly `FailureEntries` of the attempt it used up. */
  lemma RetryEntries(s: ConnState, request: string, traced: bool)
    requires AttemptOnce(s, request, traced).Retry?
    ensures s.sp.Some? &&
      AttemptOnce(s, request, traced).after.traceList ==
        s.traceList + FailureEntries(s, request, traced, NextAttempt(s.sp.value))
  {
  }

  /** The entries an answered attempt appends: when traced and tracing is on, the request and then the reply. */
  lemma AnsweredEntries(s: ConnState, request: string, traced: bool)
    requires AttemptOnce(s, request, traced).Stop? && AttemptOnce(s, request, traced).exit == Answered
    ensures var st := AttemptOnce(s, request, traced);
      st.result.Ok? &&
      st.after.traceList == s.traceList +
        (if traced && Logging(s) then [Stamp(s.now, "Tx: " + request), Stamp(s.now, "Rx: " + st.result.value)] else [])
  {
  }

  /**
   * An attempt that finds the port closed: no write, one closed-port entry (when
   * tracing), `ConnectionChanged` raised once, and the `ApplicationException` thrown.
   */
  lemma AttemptClosed(s: ConnState, request: string, traced: bool)
    requires AttemptOnce(s, request, traced).Stop? && AttemptOnce(s, request, traced).exit == FoundClosed
    ensures var st := AttemptOnce(s, request, traced);
      s.sp.Some? && st.after.sp.Some? &&
      !st.after.sp.value.isOpen &&
      st.after.errorHappened == s.errorHappened &&
      st.after.connectionChanged == s.connectionChanged + 1 &&
      st.after.sp.value.sent == s.sp.value.sent &&
      st.result == Err(PortClosed(ClosedMessage(s.sp.value.name))) &&
      st.after.traceList == s.traceList + (if Logging(s) then [Stamp(s.now, ClosedMessage(s.sp.value.name))] else []) &&
      st.after.traceLines == s.traceLines + Gate(s)
  {
  }

  /** The result of an exchange, with the final values of the two local counters. */
  datatype Run = Run(after: ConnState, result: Result<string, Failure>, rx: nat, tx: nat, exit: Exit)

  /**
   * The do-while loop from counters `rx` and `tx` with `last` the last captured
   * exception: it goes on while both counters are below the budget; once one is
   * not, it traces the give-up entry, calls `Close()` and throws `last`.
   */
  function Exchange(s: ConnState, request: string, traced: bool, rx: nat, tx: nat, last: Failure): Run
    decreases 2 * ErrorBudget - rx - tx
  {
    if rx >= ErrorBudget || tx >= ErrorBudget then
      var c := CloseStep(TraceStep(s, GiveUpEntry));
      Run(c.after, Err(if c.result.Err? then c.result.error else last), rx, tx, GaveUp)
    else
      match AttemptOnce(s, request, traced)
      case Stop(after, result, exit) => Run(after, result, rx, tx, exit)
      case Retry(after, failure, readSide) =>
        if readSide then Exchange(after, request, traced, rx + 1, tx, failure)
        else Exchange(after, request, traced, rx, tx + 1, failure)
  }

  /**
   * One call: both counters start at 0 and the captured exception at null, so that
   * `throw exception` would throw a `NullReferenceException`.
   */
  function WriteReadRun(s: ConnState, request: string, traced: bool): Run
  {
    Exchange(s, request, traced, 0, 0, NullReference)
  }
}

module EngineLemmas {
  import opened Wrappers
  import Text
  import opened Transport
  import opened Session
  import opened Engine

  /** `n` copies of `x`. */
  function Repeat(x: string, n: nat): seq<string>
  {
    seq(n, _ => x)
  }

  /**
   * The captured exception agrees with a counter that has reached the budget: three
   * read failures leave a `TimeoutException` about this request, three write
   * failures the write's own exception.
   */
  predicate LastMatches(last: Failure, rx: nat, tx: nat, request: string)
  {
    (rx == ErrorBudget ==> last.Timeout? && last.message == LastRequest(request)) &&
    (tx == ErrorBudget ==> last.IoFault?)
  }

  /** Counter values the loop can be at: neither above the budget, not both at it. */
  predicate Reachable(rx: nat, tx: nat)
  {
    rx <= ErrorBudget && tx <= ErrorBudget && (rx < ErrorBudget || tx < ErrorBudget)
  }

  /** Giving up from any state with a port: the give-up entry (gated), the close entry (not gated, not counted), the port closed and `ConnectionChanged` raised. */
  lemma GiveUpStep(s: ConnState)
    requires s.sp.Some?
    ensures var c := CloseStep(TraceStep(s, GiveUpEntry));
      c.result.Ok? && c.after.sp == Some(s.sp.value.(isOpen := false)) &&
      c.after.errorHappened == s.errorHappened &&
      c.after.connectionChanged == s.connectionChanged + 1 &&
      c.after.traceList == s.traceList + (if Logging(s) then [Stamp(s.now, GiveUpEntry)] else []) + [Stamp(s.now, CloseEntry)] &&
      c.after.traceLines == s.traceLines + Gate(s)
  {
  }

  /** A retry continues the loop with the matching counter bumped and the new exception captured. */
  lemma ExchangeRetry(s: ConnState, request: string, traced: bool, rx: nat, tx: nat, last: Failure)
    requires rx < ErrorBudget && tx < ErrorBudget && AttemptOnce(s, request, traced).Retry?
    ensures var st := AttemptOnce(s, request, traced);
      Exchange(s, request, traced, rx, tx, last) ==
        if st.readSide then Exchange(st.after, request, traced, rx + 1, tx, st.failure)
        else Exchange(st.after, request, traced, rx, tx + 1, st.failure)
  {
  }

  /** Once a counter has reached the budget the loop is over: the give-up entry is traced and the port closed. */
  lemma ExchangeGiveUp(s: ConnState, request: string, traced: bool, rx: nat, tx: nat, last: Failure)
    requires rx >= ErrorBudget || tx >= ErrorBudget
    ensures var c := CloseStep(TraceStep(s, GiveUpEntry));
      Exchange(s, request, traced, rx, tx, last) ==
        Run(c.after, Err(if c.result.Err? then c.result.error else last), rx, tx, GaveUp)
  {
  }

  /** A stopping attempt ends the loop with its own state, result and exit. */
  lemma ExchangeStop(s: ConnState, request: string, traced: bool, rx: nat, tx: nat, last: Failure)
    requires rx < ErrorBudget && tx < ErrorBudget && AttemptOnce(s, request, traced).Stop?
    ensures var st := AttemptOnce(s, request, traced);
      Exchange(s, request, traced, rx, tx, last) == Run(st.after, st.result, rx, tx, st.exit)
  {
  }

  /** An exchange keeps the log directory and the clock. */
  lemma {:induction false} ExchangeFrame(s: ConnState, request: string, traced: bool,
                                         rx: nat, tx: nat, last: Failure)
    ensures FrameKept(s, Exchange(s, request, traced, rx, tx, last))
    decreases 2 * ErrorBudget - rx - tx
  {
    if rx < ErrorBudget && tx < ErrorBudget && AttemptOnce(s, request, traced).Retry? {
      var st := AttemptOnce(s, request, traced);
      var rx', tx' := if st.readSide then rx + 1 else rx, if st.readSide then tx else tx + 1;
      ExchangeFrame(st.after, request, traced, rx', tx', st.failure);
      FrameRetry(s, request, traced, rx, tx, last);
    } else if rx < ErrorBudget && tx < ErrorBudget {
      AttemptKeeps(s, request, traced);
      ExchangeStop(s, request, traced, rx, tx, last);
    }
  }

  predicate FrameKept(s: ConnState, r: Run)
  {
    r.after.logDirectory == s.logDirectory && r.after.now == s.now
  }

  /** The inductive step of `ExchangeFrame`. */
  lemma FrameRetry(s: ConnState, request: string, traced: bool, rx: nat, tx: nat, last: Failure)
    requires rx < ErrorBudget && tx < ErrorBudget
    requires AttemptOnce(s, request, traced).Retry?
    requires var st := AttemptOnce(s, request, traced);
      var rx', tx' := if st.readSide then rx + 1 else rx, if st.readSide then tx else tx + 1;
      FrameKept(st.after, Exchange(st.after, request, traced, rx', tx', st.failure))
    ensures FrameKept(s, Exchange(s, request, traced, rx, tx, last))
  {
    AttemptKeeps(s, request, traced);
    ExchangeRetry(s, request, traced, rx, tx, last);
  }


  /**
   * How run `r`, started from `s` with counters `rx` and `tx`, ended: the counters
   * only grew and stayed reachable; it gave up exactly when one reached the budget;
   * an answer is an `Ok` whose text has no NUL, CR or LF left to trim, a closed port
   * throws the closed-port exception, and giving up throws the last captured
   * exception, which says which side failed.
   */
  predicate EndsWell(s: ConnState, r: Run, request: string, rx: int, tx: int)
    requires s.sp.Some?
  {
    rx <= r.rx && tx <= r.tx && Reachable(r.rx, r.tx) &&
    (r.exit == GaveUp <==> r.rx == ErrorBudget || r.tx == ErrorBudget) &&
    r.exit != NoPort &&
    (r.exit == Answered ==> r.result.Ok? && Text.Trim(r.result.value, Text.ResponseJunk) == r.result.value) &&
    (r.exit == FoundClosed ==> r.result == Err(PortClosed(ClosedMessage(s.sp.value.name)))) &&
    (r.exit == GaveUp ==> r.result.Err? && LastMatches(r.result.error, r.rx, r.tx, request))
  }

  /** The inductive step of `ExchangeEnds`. */
  lemma EndsRetry(s: ConnState, request: string, traced: bool, rx: nat, tx: nat, last: Failure)
    requires s.sp.Some? && rx < ErrorBudget && tx < ErrorBudget
    requires AttemptOnce(s, request, traced).Retry?
    requires var st := AttemptOnce(s, request, traced);
      var rx', tx' := if st.readSide then rx + 1 else rx, if st.readSide then tx else tx + 1;
      st.after.sp.Some? && st.after.sp.value.name == s.sp.value.name &&
      EndsWell(st.after, Exchange(st.after, request, traced, rx', tx', st.failure), request, rx', tx')
    ensures EndsWell(s, Exchange(s, request, traced, rx, tx, last), request, rx, tx)
  {
    ExchangeRetry(s, request, traced, rx, tx, last);
  }

  /** The base cases of `ExchangeEnds`. */
  lemma EndsStop(s: ConnState, request: string, traced: bool, rx: nat, tx: nat, last: Failure)
    requires s.sp.Some? && Reachable(rx, tx) && LastMatches(last, rx, tx, request)
    requires rx < ErrorBudget && tx < ErrorBudget ==> AttemptOnce(s, request, traced).Stop?
    ensures EndsWell(s, Exchange(s, request, traced, rx, tx, last), request, rx, tx)
  {
    if rx < ErrorBudget && tx < ErrorBudget {
      var st := AttemptOnce(s, request, traced);
      AttemptFrame(s, request, traced);
      ExchangeStop(s, request, traced, rx, tx, last);
      if st.exit == FoundClosed {
        AttemptClosed(s, request, traced);
      } else {
        AttemptAnswered(s, request, traced);
        Text.TrimIdempotent(NextAttempt(s.sp.value).line, Text.ResponseJunk);
      }
    } else {
      GiveUpStep(s);
    }
  }

  /**
   * How one call ends, from any reachable counter values: as `EndsWell` says, so in
   * particular the loop stops with an answer, a closed port, or exactly one counter
   * at the budget.
   */
  lemma {:induction false} ExchangeEnds(s: ConnState, request: string, traced: bool,
                                        rx: nat, tx: nat, last: Failure)
    requires s.sp.Some? && Reachable(rx, tx) && LastMatches(last, rx, tx, request)
    ensures EndsWell(s, Exchange(s, request, traced, rx, tx, last), request, rx, tx)
    decreases 2 * ErrorBudget - rx - tx
  {
    if rx < ErrorBudget && tx < ErrorBudget && AttemptOnce(s, request, traced).Retry? {
      var st := AttemptOnce(s, request, traced);
      AttemptFrame(s, request, traced);
      AttemptRetry(s, request, traced);
      var rx', tx' := if st.readSide then rx + 1 else rx, if st.readSide then tx else tx + 1;
      ExchangeEnds(st.after, request, traced, rx', tx', st.failure);
      EndsRetry(s, request, traced, rx, tx, last);
    } else {
      EndsStop(s, request, traced, rx, tx, last);
    }
  }

  /**
   * The events of run `r` started from `s`: `ErrorHappened` raised once per failed
   * attempt, `ConnectionChanged` once unless the call was answered.
   */
  predicate EventsCounted(s: ConnState, r: Run, rx: int, tx: int)
  {
    r.after.errorHappened == s.errorHappened + (r.rx - rx) + (r.tx - tx) &&
    r.after.connectionChanged == s.connectionChanged + (if r.exit == Answered then 0 else 1)
  }

  /** The inductive step of `ExchangeEvents`. */
  lemma EventsRetry(s: ConnState, request: string, traced: bool, rx: nat, tx: nat, last: Failure)
    requires s.sp.Some? && rx < ErrorBudget && tx < ErrorBudget
    requires AttemptOnce(s, request, traced).Retry?
    requires var st := AttemptOnce(s, request, traced);
      var rx', tx' := if st.readSide then rx + 1 else rx, if st.readSide then tx else tx + 1;
      EventsCounted(st.after, Exchange(st.after, request, traced, rx', tx', st.failure), rx', tx')
    ensures EventsCounted(s, Exchange(s, request, traced, rx, tx, last), rx, tx)
  {
    AttemptRetry(s, request, traced);
    ExchangeRetry(s, request, traced, rx, tx, last);
  }

  /** The base cases of `ExchangeEvents`. */
  lemma EventsStop(s: ConnState, request: string, traced: bool, rx: nat, tx: nat, last: Failure)
    requires s.sp.Some? && Reachable(rx, tx)
    requires rx < ErrorBudget && tx < ErrorBudget ==> AttemptOnce(s, request, traced).Stop?
    ensures EventsCounted(s, Exchange(s, request, traced, rx, tx, last), rx, tx)
  {
    if rx < ErrorBudget && tx < ErrorBudget {
      var st := AttemptOnce(s, request, traced);
      AttemptFrame(s, request, traced);
      ExchangeStop(s, request, traced, rx, tx, last);
      if st.exit == FoundClosed {
        AttemptClosed(s, request, traced);
      } else {
        AttemptAnswered(s, request, traced);
      }
    } else {
      GiveUpStep(s);
    }
  }

  /**
   * The events of one call: `ErrorHappened` is raised once per failed attempt, and
   * `ConnectionChanged` once unless the call was answered (by the closed-port check or
   * by `Close()` on giving up).
   */
  lemma {:induction false} ExchangeEvents(s: ConnState, request: string, traced: bool,
                                          rx: nat, tx: nat, last: Failure)
    requires s.sp.Some? && Reachable(rx, tx)
    ensures EventsCounted(s, Exchange(s, request, traced, rx, tx, last), rx, tx)
    decreases 2 * ErrorBudget - rx - tx
  {
    if rx < ErrorBudget && tx < ErrorBudget && AttemptOnce(s, request, traced).Retry? {
      var st := AttemptOnce(s, request, traced);
      AttemptFrame(s, request, traced);
      AttemptRetry(s, request, traced);
      var rx', tx' := if st.readSide then rx + 1 else rx, if st.readSide then tx else tx + 1;
      ExchangeEvents(st.after, request, traced, rx', tx', st.failure);
      EventsRetry(s, request, traced, rx, tx, last);
    } else {
      EventsStop(s, request, traced, rx, tx, last);
    }
  }

  /**
   * The port after run `r` started from `s` with read counter `rx`: same name, open
   * exactly when answered, and the request written once per failed read and once more
   * for the answer.
   */
  predicate PortAfter(s: ConnState, r: Run, request: string, rx: int)
    requires s.sp.Some?
  {
    rx <= r.rx &&
    r.after.sp.Some? && r.after.sp.value.name == s.sp.value.name &&
    (r.after.sp.value.isOpen <==> r.exit == Answered) &&
    r.after.sp.value.sent ==
      s.sp.value.sent + Repeat(request, (r.rx - rx) + (if r.exit == Answered then 1 else 0))
  }

  /** The inductive step of `ExchangePort`: a failed attempt followed by the rest of the loop. */
  lemma PortRetry(s: ConnState, request: string, traced: bool, rx: nat, tx: nat, last: Failure)
    requires s.sp.Some? && rx < ErrorBudget && tx < ErrorBudget
    requires AttemptOnce(s, request, traced).Retry?
    requires var st := AttemptOnce(s, request, traced);
      st.after.sp.Some? &&
      if st.readSide then PortAfter(st.after, Exchange(st.after, request, traced, rx + 1, tx, st.failure), request, rx + 1)
      else PortAfter(st.after, Exchange(st.after, request, traced, rx, tx + 1, st.failure), request, rx)
    ensures PortAfter(s, Exchange(s, request, traced, rx, tx, last), request, rx)
  {
    var st := AttemptOnce(s, request, traced);
    AttemptRetry(s, request, traced);
    ExchangeRetry(s, request, traced, rx, tx, last);
    if st.readSide {
      var r := Exchange(st.after, request, traced, rx + 1, tx, st.failure);
      var k := (r.rx - (rx + 1)) + (if r.exit == Answered then 1 else 0);
      assert [request] + Repeat(request, k) == Repeat(request, k + 1);
    }
  }

  /**
   * The port after one call: same name, open exactly when the call was answered, and
   * the request written once per attempt whose write succeeded — once per failed
   * read, once more for the answer — and nothing else.
   */
  lemma {:induction false} ExchangePort(s: ConnState, request: string, traced: bool,
                                        rx: nat, tx: nat, last: Failure)
    requires s.sp.Some? && Reachable(rx, tx) && LastMatches(last, rx, tx, request)
    ensures PortAfter(s, Exchange(s, request, traced, rx, tx, last), request, rx)
    decreases 2 * ErrorBudget - rx - tx
  {
    if rx < ErrorBudget && tx < ErrorBudget {
      var st := AttemptOnce(s, request, traced);
      AttemptFrame(s, request, traced);
      if st.Retry? {
        AttemptRetry(s, request, traced);
        ExchangeRetry(s, request, traced, rx, tx, last);
        var rx', tx' := if st.readSide then rx + 1 else rx, if st.readSide then tx else tx + 1;
        ExchangePort(st.after, request, traced, rx', tx', st.failure);
        PortRetry(s, request, traced, rx, tx, last);
      } else {
        ExchangeStop(s, request, traced, rx, tx, last);
        if st.exit == FoundClosed {
          AttemptClosed(s, request, traced);
          assert PortAfter(s, Run(st.after, st.result, rx, tx, st.exit), request, rx);
        } else {
          AttemptAnswered(s, request, traced);
          assert Repeat(request, 1) == [request];
          assert PortAfter(s, Run(st.after, st.result, rx, tx, st.exit), request, rx);
        }
      }
    } else {
      GiveUpStep(s);
      assert Repeat(request, 0) == [];
      assert PortAfter(s, Exchange(s, request, traced, rx, tx, last), request, rx);
    }
  }

  /** An attempt of the script that makes the loop try again: a failed write or a failed read. */
  predicate Fails(a: Attempt)
  {
    a.WriteFault? || a.ReadFault?
  }

  /** The exception the loop captures for a failed attempt: the write's own, or a `TimeoutException` about the request wrapping the read's. */
  function CapturedFailure(a: Attempt, request: string): Failure
    requires Fails(a)
  {
    if a.WriteFault? then IoFault(a.reason) else Timeout(LastRequest(request), a.reason)
  }

  /**
   * A failed attempt used up the first attempt of the script of a port that was open
   * and stays open, and captured that attempt's exception.
   */
  lemma AttemptConsumes(s: ConnState, request: string, traced: bool)
    requires AttemptOnce(s, request, traced).Retry?
    ensures var st := AttemptOnce(s, request, traced);
      s.sp.Some? && st.after.sp.Some? && s.sp.value.isOpen && st.after.sp.value.isOpen &&
      st.after.sp.value.link == Rest(s.sp.value.link) &&
      Fails(NextAttempt(s.sp.value)) &&
      st.failure == CapturedFailure(NextAttempt(s.sp.value), request)
  {
  }

  /**
   * Run `r`, started from `s` with counters `rx` and `tx` and captured exception
   * `last`, followed the port's script: its `k` failed attempts were the first `k` of
   * the script, an answer is the next attempt's line trimmed, a port found closed
   * was dropped at that attempt, and giving up throws the exception of attempt `k-1`
   * (or `last` when no attempt was made).
   */
  predicate FollowsScript(s: ConnState, r: Run, request: string, rx: int, tx: int, last: Failure)
    requires s.sp.Some?
  {
    var link := s.sp.value.link;
    var k := (r.rx - rx) + (r.tx - tx);
    0 <= k &&
    (forall i :: 0 <= i < k ==> Fails(Scripted(link, i))) &&
    (r.exit == Answered ==>
      Scripted(link, k).Reply? && r.result == Ok(Text.Trim(Scripted(link, k).line, Text.ResponseJunk))) &&
    (r.exit == FoundClosed && s.sp.value.isOpen ==> Scripted(link, k) == Lost) &&
    (r.exit == GaveUp ==>
      r.result == Err(if k == 0 then last else CapturedFailure(Scripted(link, k - 1), request)))
  }

  /**
   * A run that follows the script left after one failed attempt follows the whole
   * script, one attempt further along.
   */
  lemma FollowsShift(s: ConnState, after: ConnState, r: Run, request: string,
                     rx: int, tx: int, rx': int, tx': int, last: Failure, failure: Failure)
    requires s.sp.Some? && after.sp.Some? && s.sp.value.isOpen && after.sp.value.isOpen
    requires after.sp.value.link == Rest(s.sp.value.link)
    requires Fails(NextAttempt(s.sp.value)) && failure == CapturedFailure(NextAttempt(s.sp.value), request)
    requires rx' + tx' == rx + tx + 1
    requires FollowsScript(after, r, request, rx', tx', failure)
    ensures FollowsScript(s, r, request, rx, tx, last)
  {
    var p := s.sp.value;
    var link := p.link;
    var link' := after.sp.value.link;
    var k' := (r.rx - rx') + (r.tx - tx');
    ScriptShifts(p, 0);
    ScriptShifts(p, k');
    forall i | 0 <= i < k' + 1
      ensures Fails(Scripted(link, i))
    {
      if i > 0 {
        ScriptShifts(p, i - 1);
        assert Fails(Scripted(link', i - 1));
      }
    }
    if r.exit == GaveUp && k' > 0 {
      ScriptShifts(p, k' - 1);
    }
  }

  /** The inductive step of `ExchangeScript`. */
  lemma ScriptRetry(s: ConnState, request: string, traced: bool, rx: nat, tx: nat, last: Failure)
    requires s.sp.Some? && rx < ErrorBudget && tx < ErrorBudget
    requires AttemptOnce(s, request, traced).Retry?
    requires var st := AttemptOnce(s, request, traced);
      var rx', tx' := if st.readSide then rx + 1 else rx, if st.readSide then tx else tx + 1;
      st.after.sp.Some? &&
      FollowsScript(st.after, Exchange(st.after, request, traced, rx', tx', st.failure), request, rx', tx', st.failure)
    ensures FollowsScript(s, Exchange(s, request, traced, rx, tx, last), request, rx, tx, last)
  {
    var st := AttemptOnce(s, request, traced);
    var rx', tx' := if st.readSide then rx + 1 else rx, if st.readSide then tx else tx + 1;
    var r := Exchange(st.after, request, traced, rx', tx', st.failure);
    AttemptConsumes(s, request, traced);
    ExchangeRetry(s, request, traced, rx, tx, last);
    FollowsShift(s, st.after, r, request, rx, tx, rx', tx', last, st.failure);
  }

  /** The base cases of `ExchangeScript`: an attempt that stops the loop, and giving up. */
  lemma ScriptStop(s: ConnState, request: string, traced: bool, rx: nat, tx: nat, last: Failure)
    requires s.sp.Some? && Reachable(rx, tx)
    requires rx < ErrorBudget && tx < ErrorBudget ==> AttemptOnce(s, request, traced).Stop?
    ensures FollowsScript(s, Exchange(s, request, traced, rx, tx, last), request, rx, tx, last)
  {
    if rx < ErrorBudget && tx < ErrorBudget {
      AttemptFrame(s, request, traced);
      if AttemptOnce(s, request, traced).exit == Answered {
        ScriptAnswered(s, request, traced, rx, tx, last);
      } else {
        ScriptClosed(s, request, traced, rx, tx, last);
      }
    } else {
      GiveUpStep(s);
    }
  }

  lemma ScriptAnswered(s: ConnState, request: string, traced: bool, rx: nat, tx: nat, last: Failure)
    requires s.sp.Some? && rx < ErrorBudget && tx < ErrorBudget
    requires AttemptOnce(s, request, traced).Stop? && AttemptOnce(s, request, traced).exit == Answered
    ensures FollowsScript(s, Exchange(s, request, traced, rx, tx, last), request, rx, tx, last)
  {
    AttemptAnswered(s, request, traced);
    ExchangeStop(s, request, traced, rx, tx, last);
    ScriptShifts(s.sp.value, 0);
  }

  lemma ScriptClosed(s: ConnState, request: string, traced: bool, rx: nat, tx: nat, last: Failure)
    requires s.sp.Some? && rx < ErrorBudget && tx < ErrorBudget
    requires AttemptOnce(s, request, traced).Stop? && AttemptOnce(s, request, traced).exit == FoundClosed
    ensures FollowsScript(s, Exchange(s, request, traced, rx, tx, last), request, rx, tx, last)
  {
    ExchangeStop(s, request, traced, rx, tx, last);
    ScriptShifts(s.sp.value, 0);
  }

  /**
   * Every call follows the port's script (`FollowsScript`): the failed attempts are
   * the first ones of the script, an answer is the trimmed line of the attempt after
   * them, and giving up rethrows exactly the exception of the last failed attempt.
   */
  lemma {:induction false} ExchangeScript(s: ConnState, request: string, traced: bool,
                                          rx: nat, tx: nat, last: Failure)
    requires s.sp.Some? && Reachable(rx, tx)
    ensures FollowsScript(s, Exchange(s, request, traced, rx, tx, last), request, rx, tx, last)
    decreases 2 * ErrorBudget - rx - tx
  {
    if rx < ErrorBudget && tx < ErrorBudget && AttemptOnce(s, request, traced).Retry? {
      var st := AttemptOnce(s, request, traced);
      AttemptConsumes(s, request, traced);
      var rx', tx' := if st.readSide then rx + 1 else rx, if st.readSide then tx else tx + 1;
      ExchangeScript(st.after, request, traced, rx', tx', st.failure);
      ScriptRetry(s, request, traced, rx, tx, last);
    } else {
      ScriptStop(s, request, traced, rx, tx, last);
    }
  }

  /** How many entries a call adds to the trace list, given its failures and its exit. */
  function TraceAdded(logging: bool, traced: bool, rxFails: int, txFails: int, exit: Exit): int
  {
    var answered := if exit == Answered then 1 else 0;
    var perAttempt := if traced then 2 * (rxFails + txFails + answered) else txFails;
    var terminal := if exit == FoundClosed || exit == GaveUp then 1 else 0;
    (if logging then perAttempt + terminal else 0) + (if exit == GaveUp then 1 else 0)
  }

  /** One more failed attempt adds that attempt's entries. */
  lemma TraceAddedRetry(s: ConnState, traced: bool, readSide: bool, rxFails: int, txFails: int, exit: Exit)
    ensures TraceAdded(Logging(s), traced, rxFails + (if readSide then 1 else 0),
                       txFails + (if readSide then 0 else 1), exit) ==
            FailedAttemptEntries(s, traced, readSide) + TraceAdded(Logging(s), traced, rxFails, txFails, exit)
  {
  }

  /** The trace after run `r` started from `s` with counters `rx` and `tx` is `TraceAdded` entries longer. */
  predicate TraceGrows(s: ConnState, r: Run, traced: bool, rx: int, tx: int)
  {
    var added := TraceAdded(Logging(s), traced, r.rx - rx, r.tx - tx, r.exit);
    s.traceList <= r.after.traceList &&
    |r.after.traceList| == |s.traceList| + added &&
    r.after.traceLines == s.traceLines + added - (if r.exit == GaveUp then 1 else 0)
  }

  /** The inductive step of `ExchangeTrace`: a failed attempt followed by the rest of the loop. */
  lemma TraceRetry(s: ConnState, request: string, traced: bool, rx: nat, tx: nat, last: Failure)
    requires s.sp.Some? && rx < ErrorBudget && tx < ErrorBudget
    requires AttemptOnce(s, request, traced).Retry?
    requires var st := AttemptOnce(s, request, traced);
      var rx', tx' := if st.readSide then rx + 1 else rx, if st.readSide then tx else tx + 1;
      TraceGrows(st.after, Exchange(st.after, request, traced, rx', tx', st.failure), traced, rx', tx')
    ensures TraceGrows(s, Exchange(s, request, traced, rx, tx, last), traced, rx, tx)
  {
    var st := AttemptOnce(s, request, traced);
    AttemptFrame(s, request, traced);
    AttemptRetry(s, request, traced);
    ExchangeRetry(s, request, traced, rx, tx, last);
    var rx', tx' := if st.readSide then rx + 1 else rx, if st.readSide then tx else tx + 1;
    var r := Exchange(st.after, request, traced, rx', tx', st.failure);
    TraceAddedRetry(s, traced, st.readSide, r.rx - rx', r.tx - tx', r.exit);
  }

  /** The base cases of `ExchangeTrace`: an attempt that stops the loop, and giving up. */
  lemma TraceStop(s: ConnState, request: string, traced: bool, rx: nat, tx: nat, last: Failure)
    requires s.sp.Some? && Reachable(rx, tx)
    requires rx < ErrorBudget && tx < ErrorBudget ==> AttemptOnce(s, request, traced).Stop?
    ensures TraceGrows(s, Exchange(s, request, traced, rx, tx, last), traced, rx, tx)
  {
    if rx < ErrorBudget && tx < ErrorBudget {
      var st := AttemptOnce(s, request, traced);
      AttemptFrame(s, request, traced);
      ExchangeStop(s, request, traced, rx, tx, last);
      if st.exit == FoundClosed {
        AttemptClosed(s, request, traced);
      } else {
        AttemptAnswered(s, request, traced);
      }
    } else {
      GiveUpStep(s);
    }
  }

  /**
   * What one call does to the trace: earlier entries are kept (the list is only
   * appended to), and the number of new entries is exactly `TraceAdded` — two per
   * attempt when traced (request and response or error), only the write errors when
   * silent, one for a closed port or the give-up message, all of them only when
   * tracing is on, plus the close entry on giving up, which is never gated and
   * never counted in `TraceLines`.
   */
  lemma {:induction false} ExchangeTrace(s: ConnState, request: string, traced: bool,
                                         rx: nat, tx: nat, last: Failure)
    requires s.sp.Some? && Reachable(rx, tx) && LastMatches(last, rx, tx, request)
    ensures TraceGrows(s, Exchange(s, request, traced, rx, tx, last), traced, rx, tx)
    decreases 2 * ErrorBudget - rx - tx
  {
    if rx < ErrorBudget && tx < ErrorBudget && AttemptOnce(s, request, traced).Retry? {
      var st := AttemptOnce(s, request, traced);
      AttemptFrame(s, request, traced);
      AttemptRetry(s, request, traced);
      var rx', tx' := if st.readSide then rx + 1 else rx, if st.readSide then tx else tx + 1;
      ExchangeTrace(st.after, request, traced, rx', tx', st.failure);
      TraceRetry(s, request, traced, rx, tx, last);
    } else {
      TraceStop(s, request, traced, rx, tx, last);
    }
  }

  /**
   * The entries run `r`, started from `s`, ends the trace with: a call that gave up
   * ends with the close entry, right after the give-up entry when tracing is on; a
   * port found closed ends with the closed-port entry; a traced answer ends with the
   * request and the trimmed reply.
   */
  predicate TraceEnds(s: ConnState, r: Run, request: string, traced: bool)
    requires s.sp.Some?
  {
    var t := r.after.traceList;
    (r.exit == GaveUp ==>
      |t| >= 1 && t[|t| - 1] == Stamp(s.now, CloseEntry) &&
      (Logging(s) ==> |t| >= 2 && t[|t| - 2] == Stamp(s.now, GiveUpEntry))) &&
    (r.exit == FoundClosed && Logging(s) ==>
      |t| >= 1 && t[|t| - 1] == Stamp(s.now, ClosedMessage(s.sp.value.name))) &&
    (r.exit == Answered && traced && Logging(s) ==>
      r.result.Ok? && |t| >= 2 &&
      t[|t| - 2] == Stamp(s.now, "Tx: " + request) && t[|t| - 1] == Stamp(s.now, "Rx: " + r.result.value))
  }

  /** `TraceEnds` depends on the starting state only through its clock, its log directory and its port's name. */
  lemma TraceEndsShift(s: ConnState, after: ConnState, r: Run, request: string, traced: bool)
    requires s.sp.Some? && after.sp.Some? && after.sp.value.name == s.sp.value.name
    requires after.now == s.now && after.logDirectory == s.logDirectory
    requires TraceEnds(after, r, request, traced)
    ensures TraceEnds(s, r, request, traced)
  {
  }

  /** The base cases of `ExchangeEnding`: an attempt that stops the loop, and giving up. */
  lemma EndingStop(s: ConnState, request: string, traced: bool, rx: nat, tx: nat, last: Failure)
    requires s.sp.Some? && Reachable(rx, tx)
    requires rx < ErrorBudget && tx < ErrorBudget ==> AttemptOnce(s, request, traced).Stop?
    ensures TraceEnds(s, Exchange(s, request, traced, rx, tx, last), request, traced)
  {
    if rx < ErrorBudget && tx < ErrorBudget {
      AttemptFrame(s, request, traced);
      if AttemptOnce(s, request, traced).exit == FoundClosed {
        EndingClosed(s, request, traced, rx, tx, last);
      } else {
        EndingAnswered(s, request, traced, rx, tx, last);
      }
    } else {
      GiveUpStep(s);
    }
  }

  lemma EndingClosed(s: ConnState, request: string, traced: bool, rx: nat, tx: nat, last: Failure)
    requires s.sp.Some? && rx < ErrorBudget && tx < ErrorBudget
    requires AttemptOnce(s, request, traced).Stop? && AttemptOnce(s, request, traced).exit == FoundClosed
    ensures TraceEnds(s, Exchange(s, request, traced, rx, tx, last), request, traced)
  {
    AttemptClosed(s, request, traced);
    ExchangeStop(s, request, traced, rx, tx, last);
  }

  lemma EndingAnswered(s: ConnState, request: string, traced: bool, rx: nat, tx: nat, last: Failure)
    requires s.sp.Some? && rx < ErrorBudget && tx < ErrorBudget
    requires AttemptOnce(s, request, traced).Stop? && AttemptOnce(s, request, traced).exit == Answered
    ensures TraceEnds(s, Exchange(s, request, traced, rx, tx, last), request, traced)
  {
    AnsweredEntries(s, request, traced);
    ExchangeStop(s, request, traced, rx, tx, last);
  }

  /**
   * How one call leaves the end of the trace (`TraceEnds`): in particular a call that
   * gives up records the close entry last, preceded by the give-up entry when tracing
   * is on.
   */
  lemma {:induction false} ExchangeEnding(s: ConnState, request: string, traced: bool,
                                          rx: nat, tx: nat, last: Failure)
    requires s.sp.Some? && Reachable(rx, tx)
    ensures TraceEnds(s, Exchange(s, request, traced, rx, tx, last), request, traced)
    decreases 2 * ErrorBudget - rx - tx
  {
    if rx < ErrorBudget && tx < ErrorBudget && AttemptOnce(s, request, traced).Retry? {
      var st := AttemptOnce(s, request, traced);
      AttemptFrame(s, request, traced);
      var rx', tx' := if st.readSide then rx + 1 else rx, if st.readSide then tx else tx + 1;
      ExchangeEnding(st.after, request, traced, rx', tx', st.failure);
      ExchangeRetry(s, request, traced, rx, tx, last);
      TraceEndsShift(s, st.after, Exchange(st.after, request, traced, rx', tx', st.failure), request, traced);
    } else {
      EndingStop(s, request, traced, rx, tx, last);
    }
  }
}
