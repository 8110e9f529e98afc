/**
 * The public operations of a `Connection` as functions on its state: the lifecycle
 * (`Open`, `Test`, `Dispose`) and the device queries and setters, each of which is
 * one traced exchange with a fixed command followed by a mapping of the reply.
 */
module Facade {
  import opened Wrappers
  import Text
  import Numerals
  import opened Transport
  import opened Session
  import opened Engine
  import opened Decoder

  const OpcQuery: string := "*OPC?"
  const OpcReply: string := "*OPC"
  const VersionQuery: string := "VER?"
  const UniqueIdQuery: string := "UID?"
  const UpTimeQuery: string := "UPTIME?"
  const IdentityQuery: string := "*IDN?"
  const IntensityQuery: string := "BLIGHT:PWM?"
  const BacklightOnCommand: string := "BLIGHT:ON"
  const BacklightOffCommand: string := "BLIGHT:OFF"
  const BacklightQuery: string := "BLIGHT?"
  const TimeoutQuery: string := "BLIGHT:TIMEOUT?"
  const Ocxo1Query: string := "TRICLOCK:OCXO1:STAT?"
  const Ocxo2Query: string := "TRICLOCK:OCXO2:STAT?"
  const Ocxo3Query: string := "TRICLOCK:OCXO3:STAT?"
  const RefOcxoQuery: string := "TRICLOCK:REFOCXO:STAT?"

  const PortClosedEntry: string := "IO ERROR: port is closed."
  const TestFailedEntry: string := "Test Failed"
  const InvalidResponseEntry: string := "IO-ERROR: Invalid Response."

  /** `BacklightIntesity(percent)`: the value in the en-US `N2` format. */
  function IntensityCommand(percent: int): string
  {
    "BLIGHT:PWM " + Numerals.N2(percent)
  }

  /** `BacklightTimeoutInSec(seconds)`: the value in the en-US `N2` format. */
  function TimeoutCommand(seconds: int): string
  {
    "BLIGHT:TIMEOUT " + Numerals.N2(seconds)
  }

  /** `IsOpen`: false while `_sp` is null, else the port's own flag. */
  predicate IsOpen(s: ConnState)
  {
    s.sp.Some? && s.sp.value.isOpen
  }

  /** A traced exchange (`WriteRead`), keeping only what a caller sees. */
  function Query(s: ConnState, command: string): Outcome<string>
  {
    var r := WriteReadRun(s, command, true);
    Outcome(r.after, r.result)
  }

  /**
   * `Test()`: traces a closed port, then sends "*OPC?" whatever the check found; a
   * reply other than "*OPC" is traced as a failure, and an exception is caught and
   * traced with its message.
   */
  function TestStep(s: ConnState): ConnState
  {
    var s1 := if !IsOpen(s) then TraceStep(s, PortClosedEntry) else s;
    var q := Query(s1, OpcQuery);
    match q.result
    case Ok(resp) => if resp != OpcReply then TraceStep(q.after, TestFailedEntry) else q.after
    case Err(e) => TraceStep(q.after, "IO-ERROR:" + Message(e))
  }

  function OpenFailEntry(port: string, reason: string): string
  {
    "IO ERROR Serial Port is: " + port + " Open fail... beacuse:" + reason
  }

  function OpenedEntry(port: string): string
  {
    "Serial Port: " + port + " is Open."
  }

  /**
   * `Open(port)` against the device found there. A name the `SerialPort` constructor
   * rejects leaves `_sp` as it was, and the handler's `_sp.Close()` then closes the
   * old port — or throws on a null `_sp`, skipping the trace and the event. A port
   * that will not open is kept, closed. A port that opens is traced, tested and
   * announced. The previous port object is dropped either way.
   */
  function OpenStep(s: ConnState, port: string, device: Device): Outcome<()>
  {
    match device
    case BadName(reason) =>
      if s.sp.None? then Outcome(s, Err(NullReference))
      else
        var s1 := s.(sp := Some(s.sp.value.(isOpen := false)));
        Outcome(ChangedStep(TraceStep(s1, OpenFailEntry(port, reason))), Ok(()))
    case Refused(reason) =>
      var s1 := s.(sp := Some(Port(port, false, [], [])));
      Outcome(ChangedStep(TraceStep(s1, OpenFailEntry(port, reason))), Ok(()))
    case Present(link) =>
      var s1 := TraceStep(s.(sp := Some(Port(port, true, link, []))), OpenedEntry(port));
      Outcome(ChangedStep(TestStep(s1)), Ok(()))
  }

  /** `Open(port, logDirectory)`: the directory is set first, so tracing starts with this call. */
  function OpenWithLogStep(s: ConnState, port: string, logDirectory: string, device: Device): Outcome<()>
  {
    OpenStep(s.(logDirectory := logDirectory), port, device)
  }

  /**
   * `Dispose()`: the port, if any, is closed without a trace entry or an event; with
   * tracing on, the trace list is written to the day's log file and emptied.
   */
  function DisposeStep(s: ConnState): (ConnState, Option<LogFile>)
  {
    var s1 := if s.sp.Some? then s.(sp := Some(s.sp.value.(isOpen := false))) else s;
    if Logging(s1) then
      var f := FlushStep(s1, s1.logDirectory);
      (f.0, Some(f.1))
    else (s1, None)
  }

  /** `GetUpTime()`: seconds since power-on, read in hexadecimal; 0 when the reply does not parse. */
  function UpTimeStep(s: ConnState): Outcome<int>
  {
    var q := Query(s, UpTimeQuery);
    Outcome(q.after, if q.result.Ok? then Ok(HexOrZero(q.result.value)) else Err(q.result.error))
  }

  /** `BacklightIntesity()` and `BacklightTimeoutInSec()`: a decimal reply; -1 when it does not parse. */
  function IntQuery(s: ConnState, command: string): Outcome<int>
  {
    var q := Query(s, command);
    Outcome(q.after, if q.result.Ok? then Ok(IntOrMinusOne(q.result.value)) else Err(q.result.error))
  }

  /** The setters and `BacklightOn()`/`BacklightOff()`: the reply is discarded, an exception is not. */
  function Command(s: ConnState, command: string): Outcome<()>
  {
    var q := Query(s, command);
    Outcome(q.after, if q.result.Ok? then Ok(()) else Err(q.result.error))
  }

  /** `BacklightIsOn()`: "1" is on, "0" is off, anything else is traced as invalid and read as off. */
  function BacklightIsOnStep(s: ConnState): Outcome<bool>
  {
    var q := Query(s, BacklightQuery);
    match q.result
    case Err(e) => Outcome(q.after, Err(e))
    case Ok(resp) =>
      match BacklightState(resp)
      case Some(on) => Outcome(q.after, Ok(on))
      case None => Outcome(TraceStep(q.after, InvalidResponseEntry), Ok(false))
  }

  /** `OcxoStatus(command)`: the decoded record; a decoding error is traced and the partial record returned. */
  function OcxoStep(s: ConnState, command: string, parse: FloatParser): Outcome<OcxoStatus>
  {
    var q := Query(s, command);
    match q.result
    case Err(e) => Outcome(q.after, Err(e))
    case Ok(resp) =>
      var d := DecodeOcxo(resp, parse);
      Outcome(if d.error.Some? then TraceStep(q.after, "IO-ERROR: " + ErrorMessage(d.error.value)) else q.after,
              Ok(d.value))
  }

  /** `RefOcxoStatus()`, decoded and traced as `OcxoStep` does. */
  function RefOcxoStep(s: ConnState, parse: FloatParser): Outcome<RefOcxoStatus>
  {
    var q := Query(s, RefOcxoQuery);
    match q.result
    case Err(e) => Outcome(q.after, Err(e))
    case Ok(resp) =>
      var d := DecodeRefOcxo(resp, parse);
      Outcome(if d.error.Some? then TraceStep(q.after, "IO-ERROR: " + ErrorMessage(d.error.value)) else q.after,
              Ok(d.value))
  }
}
