/**
 * `Connection` as a class whose fields its methods update in place. Each method is
 * proved to do to `Snapshot()` what the matching function of modules Session,
 * Engine and Facade does to a `ConnState`; the properties are proved about those.
 */
module Connections {
  import opened Wrappers
  import Text
  import Clock
  import opened Transport
  import opened Session
  import opened Engine
  import opened EngineLemmas
  import opened Decoder
  import opened Facade

  class Connection {
    var traceList: seq<string>
    var traceLines: nat
    var logDirectory: string
    /** The reading `DateTime.Now` gives while a call runs; set by the environment. */
    var now: Clock.DateTime
    var sp: Option<Port>
    /** How many times `ConnectionChanged` and `ErrorHappened` have been raised. */
    var connectionChanged: nat
    var errorHappened: nat

    function Snapshot(): ConnState
      reads this
    {
      ConnState(traceList, traceLines, logDirectory, now, sp, connectionChanged, errorHappened)
    }

    /** `IsOpen`. */
    predicate IsOpen()
      reads this
    {
      Facade.IsOpen(Snapshot())
    }

    /** `new Connection()`: no port, no trace, no log directory. */
    constructor(now: Clock.DateTime)
      ensures Snapshot() == ConnState([], 0, "", now, None, 0, 0)
    {
      traceList := [];
      traceLines := 0;
      logDirectory := "";
      this.now := now;
      sp := None;
      connectionChanged := 0;
      errorHappened := 0;
    }

    method Trace(msg: string)
      modifies this
      ensures Snapshot() == TraceStep(old(Snapshot()), msg)
    {
      if logDirectory != "" {
        traceLines := traceLines + 1;
        traceList := traceList + [Stamp(now, msg)];
      }
    }

    method TraceError(msg: string)
      modifies this
      ensures Snapshot() == TraceErrorStep(old(Snapshot()), msg)
    {
      traceLines := traceLines + 1;
      traceList := traceList + [Stamp(now, msg)];
    }

    method TraceClear()
      modifies this
      ensures Snapshot() == TraceClearStep(old(Snapshot()))
    {
      traceList := [];
      traceLines := 0;
    }

    method OnConnectionChanged()
      modifies this
      ensures Snapshot() == ChangedStep(old(Snapshot()))
    {
      connectionChanged := connectionChanged + 1;
    }

    method OnErrorHappened()
      modifies this
      ensures Snapshot() == ErrorStep(old(Snapshot()))
    {
      errorHappened := errorHappened + 1;
    }

    /** `Close()`; an `Err` stands for the exception `_sp.Close()` throws when `_sp` is null. */
    method Close() returns (r: Result<(), Failure>)
      modifies this
      ensures Outcome(Snapshot(), r) == CloseStep(old(Snapshot()))
    {
      traceList := traceList + [Stamp(now, CloseEntry)];
      if sp.None? {
        return Err(NullReference);
      }
      sp := Some(sp.value.(isOpen := false));
      OnConnectionChanged();
      return Ok(());
    }

    /**
     * The do-while loop of `WriteRead` (`traced`) and `WriteReadWoTracing`: an `Err`
     * stands for the exception the call throws.
     */
    method Exchange(request: string, traced: bool) returns (r: Result<string, Failure>)
      modifies this
      ensures var run := WriteReadRun(old(Snapshot()), request, traced);
        Snapshot() == run.after && r == run.result
    {
      var rxErrors: nat, txErrors: nat := 0, 0;
      var exception: Failure := NullReference;
      while rxErrors < ErrorBudget && txErrors < ErrorBudget
        invariant rxErrors <= ErrorBudget && txErrors <= ErrorBudget
        invariant Engine.Exchange(Snapshot(), request, traced, rxErrors, txErrors, exception) ==
                  WriteReadRun(old(Snapshot()), request, traced)
        decreases 2 * ErrorBudget - rxErrors - txErrors
      {
        var done, result;
        done, result, rxErrors, txErrors, exception := Round(request, traced, rxErrors, txErrors, exception);
        if done {
          return result;
        }
      }
      ExchangeGiveUp(Snapshot(), request, traced, rxErrors, txErrors, exception);
      r := GiveUp(exception);
    }

    /** The code after the loop: the give-up entry, `Close()`, and the last exception thrown. */
    method GiveUp(last: Failure) returns (r: Result<string, Failure>)
      modifies this
      ensures var c := CloseStep(TraceStep(old(Snapshot()), GiveUpEntry));
        Snapshot() == c.after && r == Err(if c.result.Err? then c.result.error else last)
    {
      Trace(GiveUpEntry);
      var closed := Close();
      if closed.Err? {
        return Err(closed.error);
      }
      return Err(last);
    }

    /**
     * One pass of the loop body with the counters and the captured exception it
     * updates: it either ends the call, or leaves the rest of the call's run unchanged.
     */
    method Round(request: string, traced: bool, rx: nat, tx: nat, last: Failure)
      returns (done: bool, result: Result<string, Failure>, rx': nat, tx': nat, last': Failure)
      requires rx < ErrorBudget && tx < ErrorBudget
      modifies this
      ensures !done ==> rx + tx < rx' + tx' <= rx + tx + 1 && rx' <= ErrorBudget && tx' <= ErrorBudget
      ensures var run := Engine.Exchange(old(Snapshot()), request, traced, rx, tx, last);
        if done then Snapshot() == run.after && result == run.result
        else Engine.Exchange(Snapshot(), request, traced, rx', tx', last') == run
    {
      ghost var before := Snapshot();
      var pass := Attempt(request, traced);
      LoopStep(before, Snapshot(), pass, request, traced, rx, tx, last);
      done := pass.Done?;
      if done {
        result, rx', tx', last' := pass.result, rx, tx, last;
      } else {
        result, last' := Err(pass.failure), pass.failure;
        rx', tx' := if pass.readSide then rx + 1 else rx, if pass.readSide then tx else tx + 1;
      }
    }

    /** One pass of the loop body: the closed-port check, the write and the read. */
    method Attempt(request: string, traced: bool) returns (pass: Pass)
      modifies this
      ensures var st := AttemptOnce(old(Snapshot()), request, traced);
        Snapshot() == st.after && pass == PassOf(st)
    {
      if sp.None? {
        return Done(Err(NullReference));
      }
      var p := Poll(sp.value);
      sp := Some(p);
      if !p.isOpen {
        var msg := ClosedMessage(p.name);
        Trace(msg);
        OnConnectionChanged();
        return Done(Err(PortClosed(msg)));
      }
      if traced {
        Trace("Tx: " + request);
      }
      var a := NextAttempt(p);
      sp := Some(AfterAttempt(p, request));
      match a
      case WriteFault(reason) =>
        Trace("Tx ERROR Serial Port is:" + reason);
        OnErrorHappened();
        return Failed(IoFault(reason), false);
      case ReadFault(reason) =>
        if traced {
          Trace("Rx ERROR Serial Port is:" + reason);
        }
        OnErrorHappened();
        return Failed(Timeout(LastRequest(request), reason), true);
      case Reply(line) =>
        var response := Text.Trim(line, Text.ResponseJunk);
        if traced {
          Trace("Rx: " + response);
        }
        return Done(Ok(response));
      case Lost =>
        assert false;
        return Done(Err(NullReference));
    }

    /** `WriteRead(request)`. */
    method WriteRead(request: string) returns (r: Result<string, Failure>)
      modifies this
      ensures Outcome(Snapshot(), r) == Query(old(Snapshot()), request)
    {
      r := Exchange(request, true);
    }

    /** `WriteReadWoTracing(request)`. */
    method WriteReadWoTracing(request: string) returns (r: Result<string, Failure>)
      modifies this
      ensures var run := WriteReadRun(old(Snapshot()), request, false);
        Snapshot() == run.after && r == run.result
    {
      r := Exchange(request, false);
    }

    method Test()
      modifies this
      ensures Snapshot() == TestStep(old(Snapshot()))
    {
      if !IsOpen() {
        Trace(PortClosedEntry);
      }
      var resp := WriteRead(OpcQuery);
      match resp
      case Ok(v) =>
        if v != OpcReply {
          Trace(TestFailedEntry);
        }
      case Err(e) =>
        Trace("IO-ERROR:" + Message(e));
    }

    /** `Open(port)`; `device` says what the constructor and `_sp.Open()` find at `port`. */
    method Open(port: string, device: Device) returns (r: Result<(), Failure>)
      modifies this
      ensures Outcome(Snapshot(), r) == OpenStep(old(Snapshot()), port, device)
    {
      match device
      case BadName(reason) =>
        if sp.None? {
          return Err(NullReference);
        }
        sp := Some(sp.value.(isOpen := false));
        Trace(OpenFailEntry(port, reason));
        OnConnectionChanged();
        return Ok(());
      case Refused(reason) =>
        sp := Some(Port(port, false, [], []));
        Trace(OpenFailEntry(port, reason));
        OnConnectionChanged();
        return Ok(());
      case Present(link) =>
        sp := Some(Port(port, true, link, []));
        Trace(OpenedEntry(port));
        Test();
        OnConnectionChanged();
        return Ok(());
    }

    /** `Open(port, logDirectory)`. */
    method OpenWithLog(port: string, directory: string, device: Device) returns (r: Result<(), Failure>)
      modifies this
      ensures Outcome(Snapshot(), r) == OpenWithLogStep(old(Snapshot()), port, directory, device)
    {
      logDirectory := directory;
      r := Open(port, device);
    }

    /** `TracingToFile(directory)`: the text appended to the day's file is returned, not written. */
    method TracingToFile(directory: string) returns (file: LogFile)
      modifies this
      ensures (Snapshot(), file) == FlushStep(old(Snapshot()), directory)
    {
      var entries := traceList;
      var text := "";
      var i := 0;
      while i < |entries|
        invariant 0 <= i <= |entries|
        invariant text == LogText(entries[..i])
        modifies {}
      {
        LogTextAppend(entries[..i], [entries[i]]);
        assert entries[..i + 1] == entries[..i] + [entries[i]];
        assert LogText([entries[i]]) == entries[i] + "\r\n";
        text := text + (entries[i] + "\r\n");
        i := i + 1;
      }
      assert entries[..i] == entries;
      file := LogFile(LogFilePath(directory, now), text);
      traceList := [];
    }

    method Dispose() returns (file: Option<LogFile>)
      modifies this
      ensures (Snapshot(), file) == DisposeStep(old(Snapshot()))
    {
      if sp.Some? {
        sp := Some(sp.value.(isOpen := false));
      }
      if logDirectory != "" {
        var f := TracingToFile(logDirectory);
        file := Some(f);
      } else {
        file := None;
      }
    }

    method GetVersion() returns (r: Result<string, Failure>)
      modifies this
      ensures Outcome(Snapshot(), r) == Query(old(Snapshot()), VersionQuery)
    {
      r := WriteRead(VersionQuery);
    }

    method UniqeId() returns (r: Result<string, Failure>)
      modifies this
      ensures Outcome(Snapshot(), r) == Query(old(Snapshot()), UniqueIdQuery)
    {
      r := WriteRead(UniqueIdQuery);
    }

    method WhoIs() returns (r: Result<string, Failure>)
      modifies this
      ensures Outcome(Snapshot(), r) == Query(old(Snapshot()), IdentityQuery)
    {
      r := WriteRead(IdentityQuery);
    }

    method GetUpTime() returns (r: Result<int, Failure>)
      modifies this
      ensures Outcome(Snapshot(), r) == UpTimeStep(old(Snapshot()))
    {
      var resp := WriteRead(UpTimeQuery);
      match resp
      case Ok(v) => r := Ok(HexOrZero(v));
      case Err(e) => r := Err(e);
    }

    method BacklightIntesity() returns (r: Result<int, Failure>)
      modifies this
      ensures Outcome(Snapshot(), r) == IntQuery(old(Snapshot()), IntensityQuery)
    {
      var resp := WriteRead(IntensityQuery);
      match resp
      case Ok(v) => r := Ok(IntOrMinusOne(v));
      case Err(e) => r := Err(e);
    }

    method BacklightTimeoutInSec() returns (r: Result<int, Failure>)
      modifies this
      ensures Outcome(Snapshot(), r) == IntQuery(old(Snapshot()), TimeoutQuery)
    {
      var resp := WriteRead(TimeoutQuery);
      match resp
      case Ok(v) => r := Ok(IntOrMinusOne(v));
      case Err(e) => r := Err(e);
    }

    /** A command whose reply is discarded. */
    method Send(command: string) returns (r: Result<(), Failure>)
      modifies this
      ensures Outcome(Snapshot(), r) == Facade.Command(old(Snapshot()), command)
    {
      var resp := WriteRead(command);
      match resp
      case Ok(_) => r := Ok(());
      case Err(e) => r := Err(e);
    }

    method SetBacklightIntesity(percent: int) returns (r: Result<(), Failure>)
      modifies this
      ensures Outcome(Snapshot(), r) == Facade.Command(old(Snapshot()), IntensityCommand(percent))
    {
      r := Send(IntensityCommand(percent));
    }

    method SetBacklightTimeoutInSec(seconds: int) returns (r: Result<(), Failure>)
      modifies this
      ensures Outcome(Snapshot(), r) == Facade.Command(old(Snapshot()), TimeoutCommand(seconds))
    {
      r := Send(TimeoutCommand(seconds));
    }

    method BacklightOn() returns (r: Result<(), Failure>)
      modifies this
      ensures Outcome(Snapshot(), r) == Facade.Command(old(Snapshot()), BacklightOnCommand)
    {
      r := Send(BacklightOnCommand);
    }

    method BacklightOff() returns (r: Result<(), Failure>)
      modifies this
      ensures Outcome(Snapshot(), r) == Facade.Command(old(Snapshot()), BacklightOffCommand)
    {
      r := Send(BacklightOffCommand);
    }

    method BacklightIsOn() returns (r: Result<bool, Failure>)
      modifies this
      ensures Outcome(Snapshot(), r) == BacklightIsOnStep(old(Snapshot()))
    {
      var resp := WriteRead(BacklightQuery);
      match resp
      case Err(e) =>
        r := Err(e);
      case Ok(v) =>
        if v == "0" {
          r := Ok(false);
        } else if v == "1" {
          r := Ok(true);
        } else {
          Trace(InvalidResponseEntry);
          r := Ok(false);
        }
    }

    /** `OcxoStatus(command)`; `parse` stands for `float.Parse` in the en-US culture. */
    method OcxoStatus(command: string, parse: FloatParser) returns (r: Result<Decoder.OcxoStatus, Failure>)
      modifies this
      ensures Outcome(Snapshot(), r) == OcxoStep(old(Snapshot()), command, parse)
    {
      var resp := WriteRead(command);
      match resp
      case Err(e) =>
        r := Err(e);
      case Ok(v) =>
        var d := DecodeOcxo(v, parse);
        if d.error.Some? {
          Trace("IO-ERROR: " + ErrorMessage(d.error.value));
        }
        r := Ok(d.value);
    }

    method Ocxo1Status(parse: FloatParser) returns (r: Result<Decoder.OcxoStatus, Failure>)
      modifies this
      ensures Outcome(Snapshot(), r) == OcxoStep(old(Snapshot()), Ocxo1Query, parse)
    {
      r := OcxoStatus(Ocxo1Query, parse);
    }

    method Ocxo2Status(parse: FloatParser) returns (r: Result<Decoder.OcxoStatus, Failure>)
      modifies this
      ensures Outcome(Snapshot(), r) == OcxoStep(old(Snapshot()), Ocxo2Query, parse)
    {
      r := OcxoStatus(Ocxo2Query, parse);
    }

    method Ocxo3Status(parse: FloatParser) returns (r: Result<Decoder.OcxoStatus, Failure>)
      modifies this
      ensures Outcome(Snapshot(), r) == OcxoStep(old(Snapshot()), Ocxo3Query, parse)
    {
      r := OcxoStatus(Ocxo3Query, parse);
    }

    method RefOcxoStatus(parse: FloatParser) returns (r: Result<Decoder.RefOcxoStatus, Failure>)
      modifies this
      ensures Outcome(Snapshot(), r) == RefOcxoStep(old(Snapshot()), parse)
    {
      var resp := WriteRead(RefOcxoQuery);
      match resp
      case Err(e) =>
        r := Err(e);
      case Ok(v) =>
        var d := DecodeRefOcxo(v, parse);
        if d.error.Some? {
          Trace("IO-ERROR: " + ErrorMessage(d.error.value));
        }
        r := Ok(d.value);
    }
  }

  /** What one pass of the loop body tells the loop: stop with a result, or retry. */
  datatype Pass = Done(result: Result<string, Failure>) | Failed(failure: Failure, readSide: bool)

  /** One pass of the loop body advances the call's run exactly as one unfolding of `Exchange`. */
  lemma LoopStep(before: ConnState, after: ConnState, pass: Pass, request: string, traced: bool,
                 rx: nat, tx: nat, last: Failure)
    requires rx < ErrorBudget && tx < ErrorBudget
    requires after == AttemptOnce(before, request, traced).after
    requires pass == PassOf(AttemptOnce(before, request, traced))
    ensures pass.Done? ==>
      Exchange(before, request, traced, rx, tx, last).after == after &&
      Exchange(before, request, traced, rx, tx, last).result == pass.result
    ensures pass.Failed? ==>
      Exchange(before, request, traced, rx, tx, last) ==
        Exchange(after, request, traced, if pass.readSide then rx + 1 else rx,
                 if pass.readSide then tx else tx + 1, pass.failure)
  {
  }

  function PassOf(st: Step): Pass
  {
    match st
    case Stop(_, result, _) => Done(result)
    case Retry(_, failure, readSide) => Failed(failure, readSide)
  }
}
