/** What the public operations of a `Connection` promise, proved on their functions. */
module FacadeLemmas {
  import opened Wrappers
  import Text
  import Numerals
  import Clock
  import opened Transport
  import opened Session
  import opened Engine
  import opened EngineLemmas
  import opened Exchanges
  import opened Decoder
  import opened Facade

  /**
   * From `s` to `t` the port was only written to with `command`, and at most three
   * times; with `_sp` null nothing was.
   */
  predicate WritesOnly(s: ConnState, t: ConnState, command: string)
  {
    (s.sp.None? ==> t.sp.None?) &&
    (s.sp.Some? ==>
      t.sp.Some? && t.sp.value.name == s.sp.value.name &&
      s.sp.value.sent <= t.sp.value.sent &&
      |t.sp.value.sent| <= |s.sp.value.sent| + 3 &&
      forall i :: |s.sp.value.sent| <= i < |t.sp.value.sent| ==> t.sp.value.sent[i] == command)
  }

  /**
   * `IsOpen` over the lifecycle: false with no port, false after `Close()` and after
   * `Dispose()`, and after an exchange true exactly when the exchange was answered.
   */
  lemma {:induction false} IsOpenLifecycle(s: ConnState, request: string, traced: bool)
    ensures s.sp.None? ==> !IsOpen(s)
    ensures !IsOpen(CloseStep(s).after) && !IsOpen(DisposeStep(s).0)
    ensures s.sp.Some? ==>
      (IsOpen(WriteReadRun(s, request, traced).after) <==> WriteReadRun(s, request, traced).exit == Answered)
  {
    if s.sp.Some? {
      ExchangePort(s, request, traced, 0, 0, NullReference);
      assert PortAfter(s, WriteReadRun(s, request, traced), request, 0);
    }
  }

  /** One traced exchange writes its request and nothing else. */
  lemma QueryWritesOnly(s: ConnState, command: string)
    ensures WritesOnly(s, Query(s, command).after, command)
  {
    if s.sp.Some? {
      RetryBound(s, command, true);
      ExchangePort(s, command, true, 0, 0, NullReference);
    }
  }

  /**
   * Every query issues one exchange with its own fixed command: the lines it writes
   * are that command and no other.
   */
  lemma QueryCommands(s: ConnState, parse: FloatParser)
    ensures WritesOnly(s, Query(s, VersionQuery).after, "VER?")
    ensures WritesOnly(s, Query(s, UniqueIdQuery).after, "UID?")
    ensures WritesOnly(s, Query(s, IdentityQuery).after, "*IDN?")
    ensures WritesOnly(s, UpTimeStep(s).after, "UPTIME?")
    ensures WritesOnly(s, IntQuery(s, IntensityQuery).after, "BLIGHT:PWM?")
    ensures WritesOnly(s, IntQuery(s, TimeoutQuery).after, "BLIGHT:TIMEOUT?")
    ensures WritesOnly(s, BacklightIsOnStep(s).after, "BLIGHT?")
    ensures WritesOnly(s, OcxoStep(s, Ocxo1Query, parse).after, "TRICLOCK:OCXO1:STAT?")
    ensures WritesOnly(s, OcxoStep(s, Ocxo2Query, parse).after, "TRICLOCK:OCXO2:STAT?")
    ensures WritesOnly(s, OcxoStep(s, Ocxo3Query, parse).after, "TRICLOCK:OCXO3:STAT?")
    ensures WritesOnly(s, RefOcxoStep(s, parse).after, "TRICLOCK:REFOCXO:STAT?")
  {
    QueryWritesOnly(s, VersionQuery);
    QueryWritesOnly(s, UniqueIdQuery);
    QueryWritesOnly(s, IdentityQuery);
    QueryWritesOnly(s, UpTimeQuery);
    QueryWritesOnly(s, IntensityQuery);
    QueryWritesOnly(s, TimeoutQuery);
    QueryWritesOnly(s, BacklightQuery);
    QueryWritesOnly(s, Ocxo1Query);
    QueryWritesOnly(s, Ocxo2Query);
    QueryWritesOnly(s, Ocxo3Query);
    QueryWritesOnly(s, RefOcxoQuery);
  }

  /** The setters and the switches each issue one exchange with their own command. */
  lemma SetterCommands(s: ConnState, percent: int, seconds: int)
    ensures WritesOnly(s, Command(s, IntensityCommand(percent)).after, "BLIGHT:PWM " + Numerals.N2(percent))
    ensures WritesOnly(s, Command(s, TimeoutCommand(seconds)).after, "BLIGHT:TIMEOUT " + Numerals.N2(seconds))
    ensures WritesOnly(s, Command(s, BacklightOnCommand).after, "BLIGHT:ON")
    ensures WritesOnly(s, Command(s, BacklightOffCommand).after, "BLIGHT:OFF")
  {
    QueryWritesOnly(s, IntensityCommand(percent));
    QueryWritesOnly(s, TimeoutCommand(seconds));
    QueryWritesOnly(s, BacklightOnCommand);
    QueryWritesOnly(s, BacklightOffCommand);
  }

  /**
   * `BacklightIsOn()`: an exception from the exchange passes through; otherwise the
   * result is true exactly for the reply "1", the replies "0" and "1" add nothing to
   * the trace, and any other reply adds the invalid-response entry (when tracing is on)
   * and changes nothing else: the port, the events, the directory and the clock stay
   * as the exchange left them.
   */
  lemma BacklightIsOnMeaning(s: ConnState)
    ensures var q := Query(s, BacklightQuery);
      var b := BacklightIsOnStep(s);
      (q.result.Err? ==> b.result == Err(q.result.error) && b.after == q.after) &&
      (q.result.Ok? ==>
        b.result == Ok(q.result.value == "1") &&
        (q.result.value == "0" || q.result.value == "1" ==> b.after == q.after) &&
        (q.result.value != "0" && q.result.value != "1" ==>
          b.after == q.after.(traceList := b.after.traceList, traceLines := b.after.traceLines) &&
          b.after.traceList == q.after.traceList +
            (if Logging(q.after) then [Stamp(q.after.now, InvalidResponseEntry)] else []) &&
          b.after.traceLines == q.after.traceLines + Gate(q.after)))
  {
  }

  /**
   * The oscillator queries: an exception from the exchange passes through; any reply
   * gives a record (never null), and a reply the decoder stops on adds exactly one
   * "IO-ERROR: " entry with the caught exception's message (when tracing is on) and
   * changes nothing else: a decoding error neither closes the port nor raises an event.
   */
  lemma OcxoErrorTraced(s: ConnState, command: string, parse: FloatParser)
    ensures var q := Query(s, command);
      var o := OcxoStep(s, command, parse);
      (q.result.Err? ==> o.result == Err(q.result.error) && o.after == q.after) &&
      (q.result.Ok? ==>
        var d := DecodeOcxo(q.result.value, parse);
        o.result == Ok(d.value) &&
        o.after == q.after.(traceList := o.after.traceList, traceLines := o.after.traceLines) &&
        o.after.traceList == q.after.traceList +
          (if d.error.Some? && Logging(q.after) then [Stamp(q.after.now, "IO-ERROR: " + ErrorMessage(d.error.value))] else []) &&
        o.after.traceLines == q.after.traceLines + (if d.error.Some? && Logging(q.after) then 1 else 0))
  {
  }

  /** `RefOcxoStatus()` returns and traces as the other oscillator queries do. */
  lemma RefOcxoErrorTraced(s: ConnState, parse: FloatParser)
    ensures var q := Query(s, RefOcxoQuery);
      var o := RefOcxoStep(s, parse);
      (q.result.Err? ==> o.result == Err(q.result.error) && o.after == q.after) &&
      (q.result.Ok? ==>
        var d := DecodeRefOcxo(q.result.value, parse);
        o.result == Ok(d.value) &&
        o.after == q.after.(traceList := o.after.traceList, traceLines := o.after.traceLines) &&
        o.after.traceList == q.after.traceList +
          (if d.error.Some? && Logging(q.after) then [Stamp(q.after.now, "IO-ERROR: " + ErrorMessage(d.error.value))] else []) &&
        o.after.traceLines == q.after.traceLines + (if d.error.Some? && Logging(q.after) then 1 else 0))
  {
  }

  /** A reply with neither NUL, CR nor LF at its ends reaches the caller unchanged. */
  lemma CleanReplyPassesThrough(s: ConnState, command: string, line: string)
    requires IsOpen(s) && s.sp.value.link != [] && s.sp.value.link[0] == Reply(line)
    requires line == [] || (line[0] !in Text.ResponseJunk && line[|line| - 1] !in Text.ResponseJunk)
    ensures Query(s, command).result == Ok(line)
  {
    FirstTrySuccess(s, command, true, line);
    Text.TrimKeepsClean(line, Text.ResponseJunk);
  }

  /** A reply that trimming leaves alone is traced as it came, after the request. */
  lemma CleanReplyTraced(s: ConnState, command: string, line: string)
    requires IsOpen(s) && s.sp.value.link != [] && s.sp.value.link[0] == Reply(line)
    requires Text.Trim(line, Text.ResponseJunk) == line
    ensures var r := WriteReadRun(s, command, true);
      r.result == Ok(line) &&
      r.after.traceList == s.traceList +
        (if Logging(s) then [Stamp(s.now, "Tx: " + command), Stamp(s.now, "Rx: " + line)] else [])
  {
    FirstTrySuccess(s, command, true, line);
  }

  /** Digits never are NUL, CR or LF. */
  lemma NumeralNotJunk(d: string, base: nat)
    requires Numerals.IsNumeral(d, base) && base <= 16
    ensures d[0] !in Text.ResponseJunk && d[|d| - 1] !in Text.ResponseJunk
  {
    assert Numerals.DigitValue(d[0]) < 16 && Numerals.DigitValue(d[|d| - 1]) < 16;
  }

  /**
   * A device that answers the intensity (or timeout) query at once with a 32-bit
   * integer in decimal gives that integer back to the caller.
   */
  lemma IntQueryReadBack(s: ConnState, command: string, n: int)
    requires Numerals.MinInt32 <= n <= Numerals.MaxInt32
    requires IsOpen(s) && s.sp.value.link != [] && s.sp.value.link[0] == Reply(Numerals.DecimalText(n))
    ensures IntQuery(s, command).result == Ok(n)
  {
    var d := Numerals.Numeral(if n < 0 then -n else n, 10);
    NumeralNotJunk(d, 10);
    CleanReplyPassesThrough(s, command, Numerals.DecimalText(n));
    IntReplyRoundTrip(n);
  }

  /** A reply without a single decimal digit makes the integer queries return -1. */
  lemma IntQuerySentinel(s: ConnState, command: string, line: string)
    requires IsOpen(s) && s.sp.value.link != [] && s.sp.value.link[0] == Reply(line)
    requires forall i :: 0 <= i < |line| ==> Numerals.DigitValue(line[i]) >= 10
    ensures IntQuery(s, command).result == Ok(-1)
  {
    FirstTrySuccess(s, command, true, line);
    var t := Text.Trim(line, Text.ResponseJunk);
    forall i | 0 <= i < |t| ensures Numerals.DigitValue(t[i]) >= 10 {
      assert t[i] == line[Text.Lead(line, Text.ResponseJunk) + i];
    }
    IntReplySentinel(t);
  }

  /** An uptime the device sends at once in hexadecimal is the uptime `GetUpTime()` returns. */
  lemma UpTimeReadBack(s: ConnState, n: int)
    requires Numerals.MinInt32 <= n <= Numerals.MaxInt32
    requires IsOpen(s) && s.sp.value.link != [] && s.sp.value.link[0] == Reply(Numerals.HexText(n))
    ensures UpTimeStep(s).result == Ok(n)
  {
    NumeralNotJunk(Numerals.HexText(n), 16);
    CleanReplyPassesThrough(s, UpTimeQuery, Numerals.HexText(n));
    HexReplyRoundTrip(n);
  }

  /** The state the device reports at once is the state `BacklightIsOn()` returns, with no trace entry of its own. */
  lemma BacklightReadBack(s: ConnState, on: bool)
    requires IsOpen(s) && s.sp.value.link != [] && s.sp.value.link[0] == Reply(BacklightText(on))
    ensures BacklightIsOnStep(s).result == Ok(on)
    ensures BacklightIsOnStep(s).after == Query(s, BacklightQuery).after
  {
    CleanReplyPassesThrough(s, BacklightQuery, BacklightText(on));
  }

  /**
   * `Test()` keeps the port's name, the log directory and the clock, and raises
   * `ConnectionChanged` at most once (when its exchange gives up or finds the port
   * closed).
   */
  lemma TestKeeps(s: ConnState)
    requires s.sp.Some?
    ensures var t := TestStep(s);
      t.sp.Some? && t.sp.value.name == s.sp.value.name &&
      t.logDirectory == s.logDirectory && t.now == s.now &&
      s.connectionChanged <= t.connectionChanged <= s.connectionChanged + 1
  {
    var s1 := if !IsOpen(s) then TraceStep(s, PortClosedEntry) else s;
    RetryBound(s1, OpcQuery, true);
    ExchangeEvents(s1, OpcQuery, true, 0, 0, NullReference);
    ExchangePort(s1, OpcQuery, true, 0, 0, NullReference);
    ExchangeTrace(s1, OpcQuery, true, 0, 0, NullReference);
    ExchangeFrame(s1, OpcQuery, true, 0, 0, NullReference);
  }

  /**
   * `Open(port)` when the `SerialPort` constructor rejects the name: with no previous
   * port, the handler's `_sp.Close()` throws and nothing changes; with one, that port
   * is closed, the failure is traced and `ConnectionChanged` raised.
   */
  lemma OpenBadName(s: ConnState, port: string, reason: string)
    ensures var o := OpenStep(s, port, BadName(reason));
      (s.sp.None? ==> o.result == Err(NullReference) && o.after == s) &&
      (s.sp.Some? ==>
        o.result == Ok(()) && !IsOpen(o.after) && o.after.sp.value.name == s.sp.value.name &&
        o.after.connectionChanged == s.connectionChanged + 1 &&
        o.after.traceList == s.traceList +
          (if Logging(s) then [Stamp(s.now, OpenFailEntry(port, reason))] else []))
  {
  }

  /**
   * `Open(port)` when the port exists but will not open: a closed port of that name
   * replaces the old one, the failure is traced and `ConnectionChanged` raised.
   */
  lemma OpenRefused(s: ConnState, port: string, reason: string)
    ensures var o := OpenStep(s, port, Refused(reason));
      o.result == Ok(()) && !IsOpen(o.after) &&
      o.after.sp == Some(Port(port, false, [], [])) &&
      o.after.connectionChanged == s.connectionChanged + 1 &&
      o.after.traceList == s.traceList +
        (if Logging(s) then [Stamp(s.now, OpenFailEntry(port, reason))] else [])
  {
  }

  /**
   * `Open(port)` when the port opens: the port of that name replaces the old one and
   * `ConnectionChanged` is raised once by `Open` itself, and once more if the test's
   * exchange closed the connection.
   */
  lemma OpenPresent(s: ConnState, port: string, link: seq<Attempt>)
    ensures var o := OpenStep(s, port, Present(link));
      o.result == Ok(()) && o.after.sp.Some? && o.after.sp.value.name == port &&
      s.connectionChanged + 1 <= o.after.connectionChanged <= s.connectionChanged + 2
  {
    var s1 := TraceStep(s.(sp := Some(Port(port, true, link, []))), OpenedEntry(port));
    TestKeeps(s1);
  }

  /**
   * `Test()` on an open port whose device answers "*OPC" at once: the request and the
   * reply are traced (when tracing is on), nothing else is, and no event is raised.
   */
  lemma TestPasses(s: ConnState)
    requires IsOpen(s) && s.sp.value.link != [] && s.sp.value.link[0] == Reply(OpcReply)
    ensures var t := TestStep(s);
      t.sp == Some(s.sp.value.(link := s.sp.value.link[1..], sent := s.sp.value.sent + [OpcQuery])) &&
      t.traceList == s.traceList +
        (if Logging(s) then [Stamp(s.now, "Tx: " + OpcQuery), Stamp(s.now, "Rx: " + OpcReply)] else []) &&
      t.connectionChanged == s.connectionChanged && t.errorHappened == s.errorHappened
  {
    Text.TrimKeepsClean(OpcReply, Text.ResponseJunk);
    CleanReplyTraced(s, OpcQuery, OpcReply);
    FirstTrySuccess(s, OpcQuery, true, OpcReply);
    assert TestStep(s) == WriteReadRun(s, OpcQuery, true).after;
  }

  /**
   * `Open(port)` on a device that answers the test with "*OPC": the connection is
   * open, `ConnectionChanged` was raised once and `ErrorHappened` never, and "*OPC?"
   * is the one line written.
   */
  lemma OpenAnswering(s: ConnState, port: string, rest: seq<Attempt>)
    ensures var o := OpenStep(s, port, Present([Reply(OpcReply)] + rest));
      o.result == Ok(()) && IsOpen(o.after) &&
      o.after.sp.value.name == port && o.after.sp.value.sent == [OpcQuery] &&
      o.after.connectionChanged == s.connectionChanged + 1 &&
      o.after.errorHappened == s.errorHappened
  {
    var link := [Reply(OpcReply)] + rest;
    var s1 := TraceStep(s.(sp := Some(Port(port, true, link, []))), OpenedEntry(port));
    assert IsOpen(s1) && link != [] && link[0] == Reply(OpcReply);
    TestPasses(s1);
  }

  /**
   * The trace of that `Open(port)`: the open entry, then the test's request and
   * reply, in that order (when tracing is on).
   */
  lemma OpenAnsweringTrace(s: ConnState, port: string, rest: seq<Attempt>)
    ensures var o := OpenStep(s, port, Present([Reply(OpcReply)] + rest));
      o.after.traceList == s.traceList +
        (if Logging(s) then [Stamp(s.now, OpenedEntry(port)), Stamp(s.now, "Tx: " + OpcQuery),
                             Stamp(s.now, "Rx: " + OpcReply)] else [])
  {
    var link := [Reply(OpcReply)] + rest;
    var s1 := TraceStep(s.(sp := Some(Port(port, true, link, []))), OpenedEntry(port));
    assert IsOpen(s1) && link != [] && link[0] == Reply(OpcReply);
    TestPasses(s1);
    assert OpenStep(s, port, Present(link)) == Outcome(ChangedStep(TestStep(s1)), Ok(()));
    if Logging(s) {
      var op, tx, rx := Stamp(s.now, OpenedEntry(port)), Stamp(s.now, "Tx: " + OpcQuery), Stamp(s.now, "Rx: " + OpcReply);
      assert s.traceList + [op] + [tx, rx] == s.traceList + [op, tx, rx];
    }
  }

  /**
   * `Open(port)` on a device that never answers: the test gives up after three
   * timeouts, so the connection is closed again, `ConnectionChanged` was raised twice
   * (by `Close()` and by `Open`), `ErrorHappened` three times, and the last trace
   * entry is the test's report of the timeout (when tracing is on).
   */
  lemma OpenSilent(s: ConnState, port: string)
    ensures var o := OpenStep(s, port, Present([]));
      o.result == Ok(()) && !IsOpen(o.after) &&
      o.after.connectionChanged == s.connectionChanged + 2 &&
      o.after.errorHappened == s.errorHappened + 3 &&
      (Logging(s) ==>
        |o.after.traceList| > 0 &&
        o.after.traceList[|o.after.traceList| - 1] == Stamp(s.now, "IO-ERROR:" + LastRequest(OpcQuery)))
  {
    var s1 := TraceStep(s.(sp := Some(Port(port, true, [], []))), OpenedEntry(port));
    ThreeTimeoutsClose(s1, OpcQuery, true);
    var r := WriteReadRun(s1, OpcQuery, true);
    var t := TraceStep(r.after, "IO-ERROR:" + LastRequest(OpcQuery));
    assert TestStep(s1) == t;
    assert OpenStep(s, port, Present([])) == Outcome(ChangedStep(t), Ok(()));
  }

  /**
   * `Dispose()`: the connection is closed without an event; with tracing on, the log
   * file of the day receives every trace entry, in order, and the list is emptied;
   * with tracing off no file is written and the list is kept. `TraceLines` is kept.
   */
  lemma DisposeOutcome(s: ConnState)
    ensures var d := DisposeStep(s);
      !IsOpen(d.0) &&
      d.0.connectionChanged == s.connectionChanged && d.0.errorHappened == s.errorHappened &&
      d.0.traceLines == s.traceLines &&
      (Logging(s) ==>
        d.0.traceList == [] &&
        d.1 == Some(LogFile(s.logDirectory + "\\aac_io_log_" + Clock.DateStamp(s.now) + ".txt", LogText(s.traceList)))) &&
      (!Logging(s) ==> d.0.traceList == s.traceList && d.1 == None)
  {
  }

  /**
   * `Close()`: with a port, the port is closed, the close entry appended (with or
   * without tracing, and not counted) and `ConnectionChanged` raised once; with `_sp`
   * null the entry is still appended and then a `NullReferenceException` is thrown.
   */
  lemma CloseOutcome(s: ConnState)
    ensures var c := CloseStep(s);
      c.after.traceList == s.traceList + [Stamp(s.now, CloseEntry)] &&
      c.after.traceLines == s.traceLines &&
      (s.sp.Some? ==>
        c.result == Ok(()) && !IsOpen(c.after) && c.after.sp.value.name == s.sp.value.name &&
        c.after.connectionChanged == s.connectionChanged + 1) &&
      (s.sp.None? ==> c.result == Err(NullReference) && c.after.connectionChanged == s.connectionChanged)
  {
  }
}
