/**
 * What one call of `WriteRead` (traced) or `WriteReadWoTracing` (silent) promises,
 * from a fresh call: both counters at 0 and no exception captured yet.
 */
module Exchanges {
  import opened Wrappers
  import Text
  import opened Transport
  import opened Session
  import opened Engine
  import opened EngineLemmas

  /**
   * The retry bound and the counters of run `r`, a call on an allocated port: at
   * most five write attempts, at most three lines actually written; the call gives up
   * exactly when one counter, and only one, has reached 3, after at least three
   * failed attempts; each failed attempt raised `ErrorHappened` once; giving up closed
   * the port, raised `ConnectionChanged` and threw the last exception — a
   * `TimeoutException` about this request after three failed reads, the write's own
   * exception after three failed writes. The call follows the port's script: its
   * failed attempts are the script's first ones, an answer is the trimmed line of the
   * attempt after them, and giving up rethrows exactly the exception of the last
   * failed attempt.
   */
  predicate RetryBounded(s: ConnState, r: Run, request: string)
    requires s.sp.Some?
  {
    var answered := if r.exit == Answered then 1 else 0;
    var k := r.rx + r.tx;
    r.exit != NoPort &&
    k + answered <= 5 &&
    r.after.sp.Some? &&
    r.after.sp.value.sent == s.sp.value.sent + Repeat(request, r.rx + answered) &&
    r.rx + answered <= 3 &&
    r.after.errorHappened == s.errorHappened + k &&
    (forall i :: 0 <= i < k ==> Fails(Scripted(s.sp.value.link, i))) &&
    (r.exit == Answered ==>
      Scripted(s.sp.value.link, k).Reply? &&
      r.result == Ok(Text.Trim(Scripted(s.sp.value.link, k).line, Text.ResponseJunk))) &&
    (r.exit == GaveUp <==> (r.rx == ErrorBudget) != (r.tx == ErrorBudget)) &&
    (r.exit == GaveUp ==>
      k >= 3 &&
      !r.after.sp.value.isOpen &&
      r.after.connectionChanged == s.connectionChanged + 1 &&
      r.result == Err(CapturedFailure(Scripted(s.sp.value.link, k - 1), request)) &&
      (r.rx == ErrorBudget ==> r.result.error.Timeout? && r.result.error.message == LastRequest(request)) &&
      (r.tx == ErrorBudget ==> r.result.error.IoFault?))
  }

  /** Every call on an allocated port keeps to `RetryBounded`. */
  lemma RetryBound(s: ConnState, request: string, traced: bool)
    requires s.sp.Some?
    ensures RetryBounded(s, WriteReadRun(s, request, traced), request)
    ensures TraceEnds(s, WriteReadRun(s, request, traced), request, traced)
  {
    var r := WriteReadRun(s, request, traced);
    ExchangeEnding(s, request, traced, 0, 0, NullReference);
    ExchangeEnds(s, request, traced, 0, 0, NullReference);
    ExchangeEvents(s, request, traced, 0, 0, NullReference);
    ExchangePort(s, request, traced, 0, 0, NullReference);
    ExchangeScript(s, request, traced, 0, 0, NullReference);
    RunBounds(s, r, request);
  }

  /** `RetryBounded` follows from what the exchange lemmas establish about a run. */
  lemma RunBounds(s: ConnState, r: Run, request: string)
    requires s.sp.Some?
    requires EndsWell(s, r, request, 0, 0) && EventsCounted(s, r, 0, 0) && PortAfter(s, r, request, 0)
    requires FollowsScript(s, r, request, 0, 0, NullReference)
    ensures RetryBounded(s, r, request)
  {
  }

  /** The exit of a run that follows a script of two failed reads and an answer. */
  lemma LateAnswerRun(s: ConnState, r: Run, request: string, first: string, second: string, line: string)
    requires s.sp.Some? && s.sp.value.isOpen
    requires s.sp.value.link == [ReadFault(first), ReadFault(second), Reply(line)]
    requires EndsWell(s, r, request, 0, 0) && FollowsScript(s, r, request, 0, 0, NullReference)
    ensures r.exit == Answered && r.result == Ok(Text.Trim(line, Text.ResponseJunk)) && r.rx + r.tx == 2
  {
    var link := s.sp.value.link;
    var k := r.rx + r.tx;
    assert Scripted(link, 0) == ReadFault(first) && Scripted(link, 1) == ReadFault(second);
    assert Scripted(link, 2) == Reply(line);
    assert !Fails(Scripted(link, 2));
    assert k <= 2;
    assert Scripted(link, k) != Lost;
  }

  /**
   * A device that misses two reads and then answers: the call returns the line of
   * the third attempt, trimmed, with the port still open, two `ErrorHappened` and no
   * `ConnectionChanged`.
   */
  lemma LateAnswer(s: ConnState, request: string, traced: bool, first: string, second: string, line: string)
    requires s.sp.Some? && s.sp.value.isOpen
    requires s.sp.value.link == [ReadFault(first), ReadFault(second), Reply(line)]
    ensures var r := WriteReadRun(s, request, traced);
      r.exit == Answered && r.result == Ok(Text.Trim(line, Text.ResponseJunk)) &&
      r.rx + r.tx == 2 &&
      r.after.sp.Some? && r.after.sp.value.isOpen &&
      r.after.errorHappened == s.errorHappened + 2 &&
      r.after.connectionChanged == s.connectionChanged
  {
    var r := WriteReadRun(s, request, traced);
    ExchangeEnds(s, request, traced, 0, 0, NullReference);
    ExchangeScript(s, request, traced, 0, 0, NullReference);
    LateAnswerRun(s, r, request, first, second, line);
    ExchangeEvents(s, request, traced, 0, 0, NullReference);
    assert EventsCounted(s, r, 0, 0);
    ExchangePort(s, request, traced, 0, 0, NullReference);
    assert PortAfter(s, r, request, 0);
  }

  /**
   * A port that is not open at the top of the first attempt (closed before the call,
   * or found closed by the `IsOpen` check): nothing is written, the closed-port
   * message is traced (when tracing is on), `ConnectionChanged` is raised once,
   * `ErrorHappened` is not, and the `ApplicationException` naming the port is thrown.
   */
  lemma ClosedPortFailsFast(s: ConnState, request: string, traced: bool)
    requires s.sp.Some? && !Poll(s.sp.value).isOpen
    ensures var r := WriteReadRun(s, request, traced);
      var msg := ClosedMessage(s.sp.value.name);
      r.exit == FoundClosed &&
      r.result == Err(PortClosed(msg)) &&
      r.after.sp.Some? && !r.after.sp.value.isOpen &&
      r.after.sp.value.sent == s.sp.value.sent &&
      r.after.traceList == s.traceList + (if Logging(s) then [Stamp(s.now, msg)] else []) &&
      r.after.traceLines == s.traceLines + Gate(s) &&
      r.after.connectionChanged == s.connectionChanged + 1 &&
      r.after.errorHappened == s.errorHappened
  {
    AttemptClosed(s, request, traced);
  }

  /**
   * With `_sp` null the closed-port check itself throws (it reads `_sp.PortName`): a
   * `NullReferenceException` with no trace entry, no event and no change at all.
   */
  lemma NullPortQuirk(s: ConnState, request: string, traced: bool)
    requires s.sp.None?
    ensures WriteReadRun(s, request, traced) == Run(s, Err(NullReference), 0, 0, NoPort)
  {
  }

  /**
   * A device that answers at once: the call returns the line with NUL, CR and LF
   * trimmed from both ends, writes the request once, raises no event; traced, it
   * appends exactly "Tx: " + request and then "Rx: " + response (when tracing is
   * on); silent, it appends nothing.
   */
  lemma FirstTrySuccess(s: ConnState, request: string, traced: bool, line: string)
    requires s.sp.Some? && s.sp.value.isOpen && s.sp.value.link != [] && s.sp.value.link[0] == Reply(line)
    ensures var r := WriteReadRun(s, request, traced);
      var response := Text.Trim(line, Text.ResponseJunk);
      r.exit == Answered && r.rx == 0 && r.tx == 0 &&
      r.result == Ok(response) &&
      r.after.sp == Some(s.sp.value.(link := s.sp.value.link[1..], sent := s.sp.value.sent + [request])) &&
      r.after.traceList == s.traceList +
        (if traced && Logging(s) then [Stamp(s.now, "Tx: " + request), Stamp(s.now, "Rx: " + response)] else []) &&
      r.after.traceLines == s.traceLines + (if traced && Logging(s) then 2 else 0) &&
      r.after.connectionChanged == s.connectionChanged &&
      r.after.errorHappened == s.errorHappened
  {
    var p := s.sp.value;
    var response := Text.Trim(line, Text.ResponseJunk);
    var s1 := if traced then TraceStep(s, "Tx: " + request) else s;
    assert Poll(p) == p && NextAttempt(p) == Reply(line);
    var q := p.(link := p.link[1..], sent := p.sent + [request]);
    assert AfterAttempt(p, request) == q;
    var s2 := s1.(sp := Some(q));
    var s3 := if traced then TraceStep(s2, "Rx: " + response) else s2;
    assert AttemptOnce(s, request, traced) == Stop(s3, Ok(response), Answered);
    ExchangeStop(s, request, traced, 0, 0, NullReference);
    assert WriteReadRun(s, request, traced) == Run(s3, Ok(response), 0, 0, Answered);
    assert s3.sp == Some(q);
    assert s3.connectionChanged == s.connectionChanged && s3.errorHappened == s.errorHappened;
    if traced && Logging(s) {
      assert s3.traceList == s.traceList + [Stamp(s.now, "Tx: " + request), Stamp(s.now, "Rx: " + response)];
    } else {
      assert s3.traceList == s.traceList && s3.traceLines == s.traceLines;
    }
  }

  /**
   * `WriteReadWoTracing` writes to the trace only for failed writes and for the
   * closed-port and give-up messages: a call answered without a write failure leaves
   * the trace list and its counter as they were, however many reads failed first;
   * one answered after write failures added one entry per failed write.
   */
  lemma SilentTrace(s: ConnState, request: string)
    requires s.sp.Some?
    ensures var r := WriteReadRun(s, request, false);
      (r.exit == Answered ==>
        s.traceList <= r.after.traceList &&
        |r.after.traceList| == |s.traceList| + (if Logging(s) then r.tx else 0) &&
        r.after.traceLines == s.traceLines + (if Logging(s) then r.tx else 0)) &&
      (r.exit == Answered && r.tx == 0 ==>
        r.after.traceList == s.traceList && r.after.traceLines == s.traceLines)
  {
    ExchangeTrace(s, request, false, 0, 0, NullReference);
    ExchangeEnds(s, request, false, 0, 0, NullReference);
  }

  /** An attempt on an open port whose device stays silent: the read times out. */
  lemma SilentAttempt(s: ConnState, request: string, traced: bool)
    requires s.sp.Some? && s.sp.value.isOpen && s.sp.value.link == []
    ensures var st := AttemptOnce(s, request, traced);
      st.Retry? && st.readSide && st.failure == Timeout(LastRequest(request), TimeoutReason) &&
      st.after.sp.Some? && st.after.sp.value.isOpen && st.after.sp.value.link == [] &&
      st.after.now == s.now && st.after.logDirectory == s.logDirectory &&
      st.after.traceList == s.traceList + TimeoutEntries(s, request, traced)
  {
    AttemptFrame(s, request, traced);
    RetryEntries(s, request, traced);
  }

  /** What a read that timed out appends: nothing when silent, the request and the timeout when traced. */
  function TimeoutEntries(s: ConnState, request: string, traced: bool): seq<string>
  {
    if traced && Logging(s) then
      [Stamp(s.now, "Tx: " + request), Stamp(s.now, "Rx ERROR Serial Port is:" + TimeoutReason)]
    else []
  }

  /**
   * A device that never answers: three reads time out, the request is written three
   * times, `ErrorHappened` is raised three times, the connection is closed and the
   * third `TimeoutException` is thrown.
   */
  lemma ThreeTimeoutsClose(s: ConnState, request: string, traced: bool)
    requires s.sp.Some? && s.sp.value.isOpen && s.sp.value.link == []
    ensures var r := WriteReadRun(s, request, traced);
      r.exit == GaveUp && r.rx == 3 && r.tx == 0 &&
      r.result == Err(Timeout(LastRequest(request), TimeoutReason)) &&
      r.after.sp.Some? && !r.after.sp.value.isOpen &&
      r.after.sp.value.sent == s.sp.value.sent + [request, request, request] &&
      r.after.errorHappened == s.errorHappened + 3 &&
      r.after.connectionChanged == s.connectionChanged + 1
  {
    var f := Timeout(LastRequest(request), TimeoutReason);
    SilentAttempt(s, request, traced);
    var s1 := AttemptOnce(s, request, traced).after;
    ExchangeRetry(s, request, traced, 0, 0, NullReference);
    SilentAttempt(s1, request, traced);
    var s2 := AttemptOnce(s1, request, traced).after;
    ExchangeRetry(s1, request, traced, 1, 0, f);
    SilentAttempt(s2, request, traced);
    var s3 := AttemptOnce(s2, request, traced).after;
    ExchangeRetry(s2, request, traced, 2, 0, f);
    GiveUpStep(s3);
    RetryBound(s, request, traced);
    assert Repeat(request, 3) == [request, request, request];
  }

  /**
   * The trace a never-answering device leaves: the entries of the three timed-out
   * attempts, then the give-up entry (when tracing is on) and, last, the close entry.
   */
  lemma ThreeTimeoutsTrace(s: ConnState, request: string, traced: bool)
    requires s.sp.Some? && s.sp.value.isOpen && s.sp.value.link == []
    ensures var r := WriteReadRun(s, request, traced);
      var e := TimeoutEntries(s, request, traced);
      r.after.traceList == s.traceList + e + e + e +
        (if Logging(s) then [Stamp(s.now, GiveUpEntry)] else []) + [Stamp(s.now, CloseEntry)]
  {
    var f := Timeout(LastRequest(request), TimeoutReason);
    SilentAttempt(s, request, traced);
    var s1 := AttemptOnce(s, request, traced).after;
    ExchangeRetry(s, request, traced, 0, 0, NullReference);
    SilentAttempt(s1, request, traced);
    var s2 := AttemptOnce(s1, request, traced).after;
    ExchangeRetry(s1, request, traced, 1, 0, f);
    SilentAttempt(s2, request, traced);
    var s3 := AttemptOnce(s2, request, traced).after;
    ExchangeRetry(s2, request, traced, 2, 0, f);
    GiveUpStep(s3);
  }

  /**
   * Once a call has given up, the port is closed: the next call, traced or not,
   * fails fast with the closed-port exception and writes nothing.
   */
  lemma GiveUpThenFailFast(s: ConnState, request: string, traced: bool, next: string, nextTraced: bool)
    requires s.sp.Some? && WriteReadRun(s, request, traced).exit == GaveUp
    ensures var r := WriteReadRun(s, request, traced);
      var r2 := WriteReadRun(r.after, next, nextTraced);
      r2.result == Err(PortClosed(ClosedMessage(s.sp.value.name))) &&
      r2.after.sp.Some? && r2.after.sp.value.sent == r.after.sp.value.sent
  {
    var r := WriteReadRun(s, request, traced);
    RetryBound(s, request, traced);
    ExchangePort(s, request, traced, 0, 0, NullReference);
    ClosedPortFailsFast(r.after, next, nextTraced);
  }
}
