/**
 * The state of a `Connection` as a value, and the trace sink and `Close` as
 * functions on it. The class in module Connections is proved against these.
 */
module Session {
  import opened Wrappers
  import Clock
  import Transport

  /**
   * Everything a `Connection` holds: the trace list and its counter, the log
   * directory ("" stands for null or empty), the clock reading used for stamps, the
   * serial port (`None` while `_sp` is null) and how many times each of the two
   * events has been raised.
   */
  datatype ConnState = ConnState(
    traceList: seq<string>,
    traceLines: nat,
    logDirectory: string,
    now: Clock.DateTime,
    sp: Option<Transport.Port>,
    connectionChanged: nat,
    errorHappened: nat)

  /** The state and the result (or exception) of an operation. */
  datatype Outcome<T> = Outcome(after: ConnState, result: Result<T, Transport.Failure>)

  /** Tracing is on when a log directory was given. */
  predicate Logging(s: ConnState)
  {
    s.logDirectory != ""
  }

  /** 1 when tracing is on, else 0: how many entries one `Trace` call adds. */
  function Gate(s: ConnState): nat
  {
    if Logging(s) then 1 else 0
  }

  /** A trace entry: the formatted time, a space, the message. */
  function Stamp(now: Clock.DateTime, msg: string): string
  {
    Clock.Timestamp(now) + " " + msg
  }

  /** `Trace(msg)`: appends and counts the entry only when tracing is on. */
  function TraceStep(s: ConnState, msg: string): ConnState
  {
    if Logging(s) then s.(traceList := s.traceList + [Stamp(s.now, msg)], traceLines := s.traceLines + 1)
    else s
  }

  /** `TraceError(msg)`: appends and counts the entry whether or not tracing is on. */
  function TraceErrorStep(s: ConnState, msg: string): ConnState
  {
    s.(traceList := s.traceList + [Stamp(s.now, msg)], traceLines := s.traceLines + 1)
  }

  /** `TraceClear()`. */
  function TraceClearStep(s: ConnState): ConnState
  {
    s.(traceList := [], traceLines := 0)
  }

  function ChangedStep(s: ConnState): ConnState
  {
    s.(connectionChanged := s.connectionChanged + 1)
  }

  function ErrorStep(s: ConnState): ConnState
  {
    s.(errorHappened := s.errorHappened + 1)
  }

  const CloseEntry: string := "Serial Port is: Close"

  /**
   * `Close()`: appends the close entry without the tracing gate and without counting
   * it, then closes the port and raises `ConnectionChanged`; with no port the call
   * to `_sp.Close()` throws after the entry is appended.
   */
  function CloseStep(s: ConnState): Outcome<()>
  {
    var s1 := s.(traceList := s.traceList + [Stamp(s.now, CloseEntry)]);
    match s.sp
    case None => Outcome(s1, Err(Transport.NullReference))
    case Some(p) => Outcome(ChangedStep(s1.(sp := Some(p.(isOpen := false)))), Ok(()))
  }

  /** What `TracingToFile` appends to the log file: the file and its new text. */
  datatype LogFile = LogFile(path: string, text: string)

  /** `$"{directory}\\aac_io_log_{dt:yyyy}{dt:MM}{dt:dd}.txt"`. */
  function LogFilePath(directory: string, now: Clock.DateTime): string
  {
    directory + "\\aac_io_log_" + Clock.DateStamp(now) + ".txt"
  }

  /** Each entry followed by the "\r\n" line ending. */
  function LogText(entries: seq<string>): string
  {
    if entries == [] then "" else entries[0] + "\r\n" + LogText(entries[1..])
  }

  /**
   * `TracingToFile(directory)`: the whole trace list goes to the day's file, then the
   * list is emptied; `TraceLines` is left as it was.
   */
  function FlushStep(s: ConnState, directory: string): (ConnState, LogFile)
  {
    (s.(traceList := []), LogFile(LogFilePath(directory, s.now), LogText(s.traceList)))
  }

  /**
   * The trace sink's gating: `Trace` adds one entry, and counts it, only when tracing
   * is on; `TraceError` always does; `Close` always adds one and never counts it;
   * `TraceClear` empties the list and zeroes the counter; `TracingToFile` empties the
   * list and keeps the counter. None of them touches the port or the events, except
   * that `Close` closes the port and raises `ConnectionChanged`.
   */
  lemma TraceGating(s: ConnState, msg: string, directory: string)
    ensures TraceStep(s, msg).traceList == s.traceList + (if Logging(s) then [Stamp(s.now, msg)] else [])
    ensures TraceStep(s, msg).traceLines == s.traceLines + Gate(s)
    ensures TraceStep(s, msg).(traceList := s.traceList, traceLines := s.traceLines) == s
    ensures TraceErrorStep(s, msg).traceList == s.traceList + [Stamp(s.now, msg)]
    ensures TraceErrorStep(s, msg).traceLines == s.traceLines + 1
    ensures CloseStep(s).after.traceList == s.traceList + [Stamp(s.now, CloseEntry)]
    ensures CloseStep(s).after.traceLines == s.traceLines
    ensures TraceClearStep(s).traceList == [] && TraceClearStep(s).traceLines == 0
    ensures FlushStep(s, directory).0.traceList == [] && FlushStep(s, directory).0.traceLines == s.traceLines
  {
  }

  /**
   * Flushing is compositional: the text of two runs of entries is the text of the
   * first followed by the text of the second, so appending the flushes of successive
   * sessions to one day's file gives the text of all their entries in order.
   */
  lemma {:induction false} LogTextAppend(a: seq<string>, b: seq<string>)
    ensures LogText(a + b) == LogText(a) + LogText(b)
    decreases |a|
  {
    if a == [] {
      assert a + b == b;
    } else {
      LogTextAppend(a[1..], b);
      assert (a + b)[1..] == a[1..] + b;
      assert (a + b)[0] == a[0];
    }
  }
}
