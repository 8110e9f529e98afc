# Connection layer of the MAAC241213 I/O driver, in Dafny

This project models `Connection`, the class through which a PC talks to the
MAAC241213 panel over a serial port. The model covers:

- **The exchange engine.** `WriteRead` and its silent twin `WriteReadWoTracing`
  write one request line, read one reply line and retry. A call gives up after three
  failed reads or three failed writes, closes the connection and rethrows the last
  exception.
- **The trace buffer.** `TraceList` and `TraceLines` are filled by `Trace`,
  `TraceError` and `Close`, emptied by `TraceClear`, and flushed to a daily log file
  by `TracingToFile`.
- **The lifecycle.** This covers `IsOpen`, `Open`, `Test`, `Close` and `Dispose`, with
  the `ConnectionChanged` and `ErrorHappened` events.
- **The device queries.** Each one sends a fixed command, then maps the reply: the
  oscillator status decoders, the backlight state, and the integer readings with
  their sentinels.

The model has two layers:

- **Values** (`Session.ConnState`) hold the fields of a `Connection`. Each operation
  is a function from one state to the next (`TraceStep`, `CloseStep`, `Engine.Exchange`,
  `Facade.OpenStep`, ...). The properties are proved as lemmas about these functions.
- **`Connections.Connection`** is the class itself. Its fields are updated in place,
  and every method ensures that `Snapshot()` afterwards is what the matching function
  gives for `old(Snapshot())`. `Exchange` keeps the source's loop over `rxErrors` and
  `txErrors`, with the invariant that the rest of the call's run is unchanged.
  `TracingToFile` keeps the loop that builds the text appended to the log file.

The serial port is a value `Transport.Port`: its name, its open flag, the lines
written to it, and a script of what each attempt meets:

- the port dropping (`Lost`);
- a write that throws (`WriteFault`);
- a read that throws (`ReadFault`);
- a reply line (`Reply`).

An exhausted script means the read times out. `_sp == null` is `sp == None`. An
exception is an `Err(Failure)`; the failures are `NullReferenceException`, the
closed-port `ApplicationException`, an I/O exception, and `TimeoutException` with its
inner message.

The model keeps these details of the code:

- A reply is trimmed of NUL, CR and LF only.
- A decoder that meets a missing or unparsable field returns the partly filled
  record, not a null one.

Behaviour of the code that the model keeps as written:

- **A null `_sp` in `WriteRead`.** When `_sp` is null, the closed-port check throws a
  `NullReferenceException`: the message is built from `_sp.PortName` before anything
  is traced or raised (`Exchanges.NullPortQuirk`).
- **A name the `SerialPort` constructor rejects.** `Open`'s handler calls `_sp.Close()`
  on the previous port. With no previous port that call throws out of `Open`
  (`FacadeLemmas.OpenBadName`).
- **`Close()`** appends its entry even when tracing is off, and does not count it in
  `TraceLines`.
- **`Dispose()`** closes the port without an entry or an event.
- **`TracingToFile`** empties the list but keeps `TraceLines`.

## Model

| member | source | states |
|---|---|---|
| Text.Trim | Connection.cs:209 | the trimmed reply is a contiguous window of the line that starts and ends with a character other than NUL, CR or LF |
| Text.TrimCutsOnly | Connection.cs:209 | every character cut away on either side is one of the trimmed characters, so interior characters are never touched |
| Text.TrimIdempotent | Connection.cs:209 | trimming a trimmed reply changes nothing |
| Text.TrimKeepsClean | Connection.cs:209 | a line with no trimmed character at either end is returned unchanged |
| Text.Split | Connection.cs:488 | `Split(';')` gives at least one field, no field contains ';', and joining the fields with ';' gives the reply back |
| Text.SplitJoin | Connection.cs:517 | splitting the ';'-join of fields that contain no ';' gives those fields back |
| Numerals.ParseInt32 | Connection.cs:380 | `int.TryParse` with `NumberStyles.Integer` accepts only values within the 32-bit range |
| Numerals.DecimalRoundTrip | Connection.cs:380 | every 32-bit integer printed in decimal parses back to itself |
| Numerals.NoDigitsNoInt | Connection.cs:380 | a string without a decimal digit never parses |
| Numerals.ParseHex32 | Connection.cs:352 | `int.TryParse` with `NumberStyles.HexNumber` gives a 32-bit value (two's complement for 8 digits with the top bit set) |
| Numerals.HexRoundTrip | Connection.cs:352 | every 32-bit integer printed in hexadecimal parses back to itself |
| Numerals.PadExact | Connection.cs:88 | each numeric field of the timestamp format has exactly its width and holds only decimal digits |
| Numerals.N2 | Connection.cs:388 | `{value:N2}` in en-US: an optional '-', the magnitude's digits in groups of three separated by ',', then ".00"; `Numerals.N2ReadsBack` is its inverse |
| Numerals.N2ReadsBack | Connection.cs:388 | the `N2` text ends in ".00", starts with '-' exactly for a negative value, and its digits with the ',' separators taken out read back as the magnitude |
| Clock.TimestampLayout | Connection.cs:88 | a `yyyy.MM.dd HH:mm:ss` timestamp is 19 characters with its separators in place, and its date digits are the `yyyyMMdd` of the log file name |
| Clock.Timestamp | Connection.cs:88 | the `yyyy.MM.dd HH:mm:ss` stamp of a clock reading, each field zero-padded to its width; its layout is `Clock.TimestampLayout` |
| Clock.DateStamp | Connection.cs:553 | the `yyyyMMdd` part of the log file name; `Clock.TimestampLayout` ties it to the stamp's date |
| Transport.Poll | Connection.cs:195 | the `IsOpen` check sees the port closed after it dropped, and an open port it sees is unchanged and has a write or read outcome ahead |
| Transport.ScriptShifts | Connection.cs:205-209 | the next attempt is attempt 0 of the script, and using one attempt up shifts every later attempt down by one, a silent device timing out for ever |
| Session.TraceStep | Connection.cs:295-302 | `Trace(msg)`: with a log directory set, the stamped entry is appended and `TraceLines` counted; otherwise nothing happens (`Session.TraceGating`) |
| Session.TraceErrorStep | Connection.cs:289-293 | `TraceError(msg)`: the stamped entry is appended and counted whether or not tracing is on (`Session.TraceGating`) |
| Session.TraceClearStep | Connection.cs:304-308 | `TraceClear()`: the list emptied and `TraceLines` zeroed (`Session.TraceGating`) |
| Session.CloseStep | Connection.cs:282-287 | `Close()`: the close entry appended ungated and uncounted, then the port closed and `ConnectionChanged` raised, or a `NullReferenceException` with `_sp` null (`Session.TraceGating`, `FacadeLemmas.CloseOutcome`) |
| Session.FlushStep | Connection.cs:547-567 | `TracingToFile(directory)`: the day's file named from the directory and the date receives every entry followed by CR LF, and the list is emptied (`Session.LogTextAppend`, `Connections.Connection.TracingToFile`) |
| Session.TraceGating | Connection.cs:284-308 | `Trace` changes only the trace, and only with a log directory set, where it appends and counts one entry; `TraceError` always appends and counts; `Close` always appends and does not count; `TraceClear` empties and zeroes; a flush empties and keeps the count |
| Session.LogTextAppend | Connection.cs:558-562 | the text written for two runs of entries is the text of the first followed by the text of the second |
| Engine.AttemptOnce | Connection.cs:195-227 | one pass of the loop body: the closed-port check, the write, the read and the trim, with their trace entries and events; its properties are the `Attempt...` lemmas below |
| Engine.Exchange | Connection.cs:193-233 | the do-while loop from given counters: retry while both counters are below 3, then trace the give-up entry, `Close()` and rethrow; its properties are the `EngineLemmas.Exchange...` lemmas and `Exchanges.RetryBound` |
| Engine.WriteReadRun | Connection.cs:186-280 | one call of `WriteRead` (traced) or `WriteReadWoTracing` (silent): the loop from counters 0 and a null captured exception (`Exchanges.RetryBound`) |
| Engine.AttemptFrame | Connection.cs:193-227 | one attempt keeps the log directory and the trace written so far (and the clock, which the model holds constant during a call); it never gives up; it stops for lack of a port exactly when `_sp` is null, changing nothing; it keeps the port's name |
| Engine.AttemptRetry | Connection.cs:213-227 | a failed write or read raises `ErrorHappened` once, keeps the port open and leaves `ConnectionChanged` alone |
| Engine.RetryEntries | Connection.cs:204-226 | with tracing on, a failed attempt appends exactly the request (traced only), then "Tx ERROR Serial Port is:" with the write's reason for a failed write (traced or not), or "Rx ERROR Serial Port is:" with the read's reason for a failed read (traced only); nothing with tracing off |
| Engine.AttemptAnswered | Connection.cs:209-211 | an answered attempt returns the trimmed line, writes the request once and raises no event |
| Engine.AnsweredEntries | Connection.cs:204-211 | traced with tracing on, an answered attempt appends exactly "Tx: " with the request and "Rx: " with the trimmed reply; otherwise nothing |
| Engine.AttemptClosed | Connection.cs:195-201 | an attempt that finds the port closed traces the closed message, raises `ConnectionChanged`, writes nothing and throws the `ApplicationException` naming the port |
| EngineLemmas.GiveUpStep | Connection.cs:231-232 | giving up traces the give-up entry (when tracing is on) and the close entry, closes the port and raises `ConnectionChanged` once |
| EngineLemmas.ExchangeEnds | Connection.cs:186-234 | from any reachable counter values the loop ends with counters that only grew; it gives up exactly when a counter reached 3; an answer has nothing left to trim; a closed port throws its message; giving up after three failed reads throws a `TimeoutException` about the request, after three failed writes the write's exception |
| EngineLemmas.AttemptConsumes | Connection.cs:204-226 | a failed attempt uses up the first attempt of the script of an open port, which stays open, and captures exactly that attempt's exception |
| EngineLemmas.ExchangeScript | Connection.cs:193-233 | a call follows the script: its failed attempts are the first ones of the script; an answer is the trimmed line of the attempt after them; a closed port was dropped at that attempt; giving up rethrows exactly the exception captured for the last failed attempt (`IoFault` with the write's reason, or `Timeout` about the request wrapping the read's reason) |
| EngineLemmas.ExchangeEvents | Connection.cs:190-191 | `ErrorHappened` is raised once per failed attempt; `ConnectionChanged` is raised once unless the call was answered |
| EngineLemmas.ExchangePort | Connection.cs:193-233 | the port keeps its name, is open afterwards exactly when the call was answered, and received the request once per failed read plus once for the answered attempt |
| EngineLemmas.ExchangeTrace | Connection.cs:186-280 | the trace only grows, by the entries each attempt and the give-up add (all gated by tracing, the close entry excepted) |
| EngineLemmas.ExchangeEnding | Connection.cs:193-233 | from any reachable counters, a call that gives up ends the trace with the close entry, right after the give-up entry when tracing is on; a port found closed ends it with the closed-port entry (tracing on); a traced answer ends it with the request and the trimmed reply |
| EngineLemmas.ExchangeFrame | Connection.cs:186-234 | a call keeps the log directory (and the clock, which the model holds constant during a call) |
| Exchanges.RetryBound | Connection.cs:186-234 | at most 5 attempts; at most 3 lines written; one `ErrorHappened` per failure; the failed attempts are the script's first ones and an answer is the trimmed line of the next; gives up iff exactly one counter is 3, after at least 3 failures, with the port closed, `ConnectionChanged` raised and exactly the last attempt's exception rethrown; the trace then ends with the give-up entry (tracing on) and the close entry |
| Exchanges.LateAnswer | Connection.cs:204-229 | a device that misses two reads and then answers: the call returns the third line trimmed, the port stays open, `ErrorHappened` is raised twice and `ConnectionChanged` not at all |
| Exchanges.ClosedPortFailsFast | Connection.cs:195-201 | a port found closed: nothing written, the closed message traced (when tracing is on), `ConnectionChanged` once, no `ErrorHappened`, `ApplicationException` naming the port |
| Exchanges.NullPortQuirk | Connection.cs:197 | with `_sp` null the call throws `NullReferenceException` and changes nothing |
| Exchanges.FirstTrySuccess | Connection.cs:204-211 | a device that answers at once: the trimmed line is returned, the request written once, no event; traced, exactly "Tx: request" then "Rx: response" are appended; silent, nothing |
| Exchanges.SilentTrace | Connection.cs:254-273 | `WriteReadWoTracing` answered adds one entry per failed write and none for failed reads or the answer |
| Exchanges.SilentAttempt | Connection.cs:204-265 | on an open port with a silent device an attempt fails on the read with a `TimeoutException` about the request, and traced with tracing on appends the request and the "Rx ERROR" entry with the timeout's message |
| Exchanges.ThreeTimeoutsClose | Connection.cs:213-233 | a silent device: three timeouts, the request written three times, three `ErrorHappened`, the port closed and the third `TimeoutException` thrown |
| Exchanges.ThreeTimeoutsTrace | Connection.cs:213-233 | the trace a silent device leaves: the three attempts' entries (request and "Rx ERROR" with the timeout's message when traced), the give-up entry (tracing on) and, last, the close entry |
| Exchanges.GiveUpThenFailFast | Connection.cs:195-233 | after a call gave up, the next call fails fast with the closed-port exception and writes nothing |
| Decoder.ParsePrefix | Connection.cs:489-495 | fields are parsed in order up to the first missing or unparsable one, which is the error reported |
| Decoder.ReadFields | Connection.cs:488-495 | each numeric field holds its parsed value when it and all fields before it parse, else 0; no error iff all numbers parse and the flag field exists |
| Decoder.DecodeOcxo | Connection.cs:480-501 | voltage, current, temperature as above; `IsLocked` iff the three numbers parse and field 3 is exactly "L"; the error is reported exactly when a field is missing or unparsable |
| Decoder.DecodeRefOcxo | Connection.cs:509-532 | the four numbers as above; `ExtRef` iff the four numbers parse and field 4 is exactly "E"; the same error cases |
| Decoder.OcxoLine | Connection.cs:488-494 | a well-formed `v;c;t;flag` line (extra fields ignored) decodes to the parsed numbers, locked iff the flag is "L", with no error |
| Decoder.RefOcxoLine | Connection.cs:517-524 | a well-formed `v;c;t;lt;flag` line decodes to the parsed numbers, external iff the flag is "E", with no error |
| Decoder.OcxoShortLine | Connection.cs:489-499 | a line of one to three parsable fields is a missing-field error: each field present is parsed into its number (the temperature too when there are three), the missing numbers stay 0 and the oscillator is not locked |
| Decoder.BacklightRoundTrip | Connection.cs:418-421 | "0" and "1" map to off and on, and they are the only replies that are a state |
| Decoder.BacklightState | Connection.cs:418-421 | the reply "1" is on, "0" is off, and any other reply is no state (`Decoder.BacklightRoundTrip`) |
| Decoder.ErrorMessage | Connection.cs:496-499 | the `Message` of the exception a decoder catches: the index past the split array, or the malformed number |
| Decoder.IntOrMinusOne | Connection.cs:380-383 | the decimal mapping always yields a 32-bit value |
| Decoder.HexOrZero | Connection.cs:352-355 | the hexadecimal mapping always yields a 32-bit value |
| Decoder.IntReplyRoundTrip | Connection.cs:380-381 | a 32-bit value the device prints in decimal is read back as itself |
| Decoder.IntReplySentinel | Connection.cs:383 | a reply without decimal digits gives -1 |
| Decoder.HexReplySentinel | Connection.cs:355 | a reply without hexadecimal digits gives 0 |
| Decoder.HexReplyRoundTrip | Connection.cs:352-353 | a 32-bit value the device prints in hexadecimal is read back as itself |
| Facade.IsOpen | Connection.cs:96-105 | `IsOpen` of a state: false while `_sp` is null, else the port's own flag |
| Connections.Connection.IsOpen | Connection.cs:96-105 | the `IsOpen` property of the object, read from its fields |
| FacadeLemmas.IsOpenLifecycle | Connection.cs:96-105 | `IsOpen` is false with no port, false after `Close()` and `Dispose()`, and after an exchange true exactly when it was answered |
| Facade.Query | Connection.cs:186-234 | a traced `WriteRead` of a command, keeping the state and the result a caller sees (`FacadeLemmas.QueryWritesOnly`) |
| Facade.TestStep | Connection.cs:167-184 | `Test()`: a closed port traced, "*OPC?" sent anyway, a reply other than "*OPC" traced as a failure, an exception caught and traced (`FacadeLemmas.TestKeeps`, `FacadeLemmas.TestPasses`) |
| Facade.OpenStep | Connection.cs:142-165 | `Open(port)` against the device found: a rejected name, a port that will not open, or a port that opens and is tested (`FacadeLemmas.OpenBadName`, `OpenRefused`, `OpenPresent`, `OpenAnswering`, `OpenSilent`) |
| Facade.OpenWithLogStep | Connection.cs:132-136 | `Open(port, logDirectory)`: the directory set, then `Open(port)` |
| Facade.DisposeStep | Connection.cs:534-544 | `Dispose()`: the port closed without entry or event, and with tracing on the trace flushed (`FacadeLemmas.DisposeOutcome`, `FacadeLemmas.IsOpenLifecycle`) |
| Facade.UpTimeStep | Connection.cs:347-356 | `GetUpTime()`: "UPTIME?" sent, the reply read in hexadecimal, 0 when it does not parse (`FacadeLemmas.UpTimeReadBack`, `Decoder.HexReplySentinel`) |
| Facade.IntQuery | Connection.cs:375-384 | `BacklightIntesity()` and `BacklightTimeoutInSec()`: the reply read in decimal, -1 when it does not parse (`FacadeLemmas.IntQueryReadBack`, `FacadeLemmas.IntQuerySentinel`) |
| Facade.Command | Connection.cs:386-409 | the setters and the switches: one exchange whose reply is discarded and whose exception propagates (`FacadeLemmas.SetterCommands`) |
| Facade.IntensityCommand | Connection.cs:388 | "BLIGHT:PWM " followed by the percentage in `N2` (`FacadeLemmas.SetterCommands`, `Numerals.N2ReadsBack`) |
| Facade.TimeoutCommand | Connection.cs:449 | "BLIGHT:TIMEOUT " followed by the seconds in `N2` (`FacadeLemmas.SetterCommands`, `Numerals.N2ReadsBack`) |
| Facade.BacklightIsOnStep | Connection.cs:415-425 | `BacklightIsOn()`: "1" on, "0" off, anything else traced as invalid and read as off (`FacadeLemmas.BacklightIsOnMeaning`) |
| Facade.OcxoStep | Connection.cs:480-502 | `OcxoStatus(command)`: the decoded record, a decoding error traced as "IO-ERROR: " with its message (`FacadeLemmas.OcxoErrorTraced`) |
| Facade.RefOcxoStep | Connection.cs:509-532 | `RefOcxoStatus()`, decoded and traced the same way (`FacadeLemmas.RefOcxoErrorTraced`) |
| FacadeLemmas.QueryWritesOnly | Connection.cs:186-234 | a traced exchange writes its request, at most three times, and nothing else |
| FacadeLemmas.QueryCommands | Connection.cs:323-512 | each query writes only its own fixed command: VER?, UID?, *IDN?, UPTIME?, BLIGHT:PWM?, BLIGHT:TIMEOUT?, BLIGHT?, the three OCXO queries and the REFOCXO query |
| FacadeLemmas.SetterCommands | Connection.cs:386-450 | the setters write "BLIGHT:PWM " and "BLIGHT:TIMEOUT " with the value in `N2`, and the switches write BLIGHT:ON and BLIGHT:OFF |
| FacadeLemmas.BacklightIsOnMeaning | Connection.cs:415-425 | an exception passes through; otherwise true exactly for "1", no entry for "0" or "1", and for anything else the invalid-response entry (gated and counted) with the port, the events, the directory and the clock as the exchange left them |
| FacadeLemmas.OcxoErrorTraced | Connection.cs:480-501 | an exception passes through; any reply gives the decoded record; a decoding error adds exactly one "IO-ERROR: " entry (gated and counted) and changes nothing else: the port stays as the exchange left it and no event is raised |
| FacadeLemmas.RefOcxoErrorTraced | Connection.cs:509-532 | the same for the reference oscillator: the decoded record, one entry for a decoding error, and nothing else changed |
| FacadeLemmas.CleanReplyPassesThrough | Connection.cs:209-211 | a reply without NUL, CR or LF at its ends reaches the caller unchanged |
| FacadeLemmas.CleanReplyTraced | Connection.cs:204-211 | such a reply is traced after the request, exactly as it came |
| FacadeLemmas.IntQueryReadBack | Connection.cs:375-384 | an integer the device sends at once in decimal is what `BacklightIntesity()` and `BacklightTimeoutInSec()` return |
| FacadeLemmas.IntQuerySentinel | Connection.cs:375-384 | a reply without decimal digits makes them return -1 |
| FacadeLemmas.UpTimeReadBack | Connection.cs:347-356 | an uptime sent at once in hexadecimal is what `GetUpTime()` returns |
| FacadeLemmas.BacklightReadBack | Connection.cs:415-421 | the state the device reports is what `BacklightIsOn()` returns, with no entry of its own |
| FacadeLemmas.TestKeeps | Connection.cs:167-184 | `Test()` keeps the port's name and the log directory (and the clock, held constant by the model), and raises `ConnectionChanged` at most once |
| FacadeLemmas.TestPasses | Connection.cs:167-184 | a device answering "*OPC": only the request and reply are traced, "*OPC?" is written once, and no event is raised |
| FacadeLemmas.OpenBadName | Connection.cs:142-165 | a rejected name: with no previous port `Open` throws and changes nothing; with one, that port is closed, the failure traced, `ConnectionChanged` raised |
| FacadeLemmas.OpenRefused | Connection.cs:142-165 | a port that will not open replaces the old one closed; the failure is traced and `ConnectionChanged` raised |
| FacadeLemmas.OpenPresent | Connection.cs:142-158 | a port that opens replaces the old one; `ConnectionChanged` is raised once by `Open` and at most once more by the test |
| FacadeLemmas.OpenAnswering | Connection.cs:142-184 | opening a device that passes the test: open, "*OPC?" the one line written, `ConnectionChanged` once, no `ErrorHappened` |
| FacadeLemmas.OpenAnsweringTrace | Connection.cs:155-178 | its trace: the open entry, then the test's request and reply |
| FacadeLemmas.OpenSilent | Connection.cs:142-184 | opening a silent device: closed again, `ConnectionChanged` twice, `ErrorHappened` three times, last entry the test's report of the timeout |
| FacadeLemmas.DisposeOutcome | Connection.cs:534-544 | closed without an event; with tracing on, the day's log file receives every entry in order and the list is emptied; with it off no file and the list kept; `TraceLines` kept |
| FacadeLemmas.CloseOutcome | Connection.cs:282-287 | the close entry is appended, not counted; with a port it is closed and `ConnectionChanged` raised; with `_sp` null a `NullReferenceException` follows |
| Connections.Connection.constructor | Connection.cs:83-86 | a new connection has no port, no log directory, an empty trace and `TraceLines` 0 |
| Connections.Connection.Trace | Connection.cs:295-302 | the fields change as `TraceStep` says |
| Connections.Connection.TraceError | Connection.cs:289-293 | the fields change as `TraceErrorStep` says |
| Connections.Connection.TraceClear | Connection.cs:304-308 | the fields change as `TraceClearStep` says |
| Connections.Connection.OnConnectionChanged | Connection.cs:309-313 | one more `ConnectionChanged` |
| Connections.Connection.OnErrorHappened | Connection.cs:314-318 | one more `ErrorHappened` |
| Connections.Connection.Close | Connection.cs:282-287 | the fields and the exception are those of `CloseStep` |
| Connections.Connection.Exchange | Connection.cs:186-234 | the do-while loop leaves the fields and returns the result of `Engine.WriteReadRun` |
| Connections.Connection.Round | Connection.cs:193-229 | one pass of the loop body with its counter update either ends the call with the run's state and result, or leaves the rest of the run unchanged with one counter bumped |
| Connections.Connection.Attempt | Connection.cs:195-227 | the check, the write and the read change the fields as `AttemptOnce` does |
| Connections.Connection.GiveUp | Connection.cs:231-233 | the give-up entry, `Close()`, and the last exception thrown |
| Connections.Connection.WriteRead | Connection.cs:186-234 | a traced exchange, as `Facade.Query` |
| Connections.Connection.WriteReadWoTracing | Connection.cs:236-280 | a silent exchange, as `Engine.WriteReadRun` untraced |
| Connections.Connection.Test | Connection.cs:167-184 | the fields change as `TestStep` says |
| Connections.Connection.Open | Connection.cs:142-165 | the fields and the exception are those of `OpenStep` |
| Connections.Connection.OpenWithLog | Connection.cs:132-136 | the log directory is set, then `Open` |
| Connections.Connection.TracingToFile | Connection.cs:547-567 | the loop builds the text of all entries in order, the file is named after the day, and the list is emptied, as `FlushStep` |
| Connections.Connection.Dispose | Connection.cs:534-544 | as `DisposeStep` |
| Connections.Connection.GetVersion | Connection.cs:323-330 | one exchange of VER?, the reply as it is |
| Connections.Connection.UniqeId | Connection.cs:335-342 | one exchange of UID?, the reply as it is |
| Connections.Connection.WhoIs | Connection.cs:362-369 | one exchange of *IDN?, the reply as it is |
| Connections.Connection.GetUpTime | Connection.cs:347-356 | as `UpTimeStep` |
| Connections.Connection.BacklightIntesity | Connection.cs:375-384 | as `IntQuery` of BLIGHT:PWM? |
| Connections.Connection.BacklightTimeoutInSec | Connection.cs:432-441 | as `IntQuery` of BLIGHT:TIMEOUT? |
| Connections.Connection.Send | Connection.cs:398-409 | one exchange whose reply is discarded |
| Connections.Connection.SetBacklightIntesity | Connection.cs:386-389 | one exchange of the intensity command |
| Connections.Connection.SetBacklightTimeoutInSec | Connection.cs:447-450 | one exchange of the timeout command |
| Connections.Connection.BacklightOn | Connection.cs:398-401 | one exchange of BLIGHT:ON |
| Connections.Connection.BacklightOff | Connection.cs:406-409 | one exchange of BLIGHT:OFF |
| Connections.Connection.BacklightIsOn | Connection.cs:415-425 | as `BacklightIsOnStep` |
| Connections.Connection.OcxoStatus | Connection.cs:480-502 | as `OcxoStep` |
| Connections.Connection.Ocxo1Status | Connection.cs:456-459 | `OcxoStatus` of TRICLOCK:OCXO1:STAT? |
| Connections.Connection.Ocxo2Status | Connection.cs:465-468 | `OcxoStatus` of TRICLOCK:OCXO2:STAT? |
| Connections.Connection.Ocxo3Status | Connection.cs:474-477 | `OcxoStatus` of TRICLOCK:OCXO3:STAT? |
| Connections.Connection.RefOcxoStatus | Connection.cs:509-532 | as `RefOcxoStep` |

## Left out

- Serial port settings: the baud rate, DTR, the newline, `ReadTimeout`, `DiscardInBuffer` and `GetPortNames` are left out. They configure hardware the model replaces with the per-attempt script.
- A port dropping is observed only at the `IsOpen` check at the top of an attempt, which is where the loop tests it. A write or read failing because of the drop is a `WriteFault` or `ReadFault` in the script.
- `float.Parse` is a parameter of the decoders (`FloatParser`): a partial function given by the caller. Its number syntax is not modelled. Its values are exact reals: the NaN and infinities that en-US `float.Parse` accepts ("NaN", "Infinity", "-Infinity") have no `real`, and the rounding to a 32-bit `float` is not modelled.
- Number parsing uses the en-US culture the source names. The `N2` values of the setters and every timestamp are formatted in the current culture, which the model assumes formats like en-US: ',' groups, '.' decimals, and ':' as the time separator.
- ErrorMessage: gives the English messages of the two exceptions the decoders catch, an index past the split array and a malformed number. An `OverflowException` that `float.Parse` throws for an out-of-range number on .NET Framework is modelled as a malformed number, and messages localised by the runtime's UI culture are not modelled.
- `DateTime.Now` is the `now` field, set by the environment and constant during one call.
- File I/O is left out: creating the log directory, opening the file in append mode and the ASCII encoding. `TracingToFile` returns the path and the text it would append.
- `TraceLines` is an unbounded `nat`; the 32-bit wrap of the `int` counter after 2^31 entries is not modelled.
- `ConnectionChanged` and `ErrorHappened` are counters of how often they were raised. Their handlers, the sender and the event arguments are not modelled.
- A null and an empty log directory are one value, the empty string, since the source tests them together.
- The `SerialPort` object that `Open` replaces is dropped without being closed or disposed, as in the source. The model does not track abandoned port objects.
- The `resp == null` branches of the queries and of `Test` are not modelled, since `WriteRead` never returns null. For the same reason the "n/a" fallback of `GetVersion`, `UniqeId` and `WhoIs` and the null records of the decoders are not modelled.
- Conn_UnitTest.cs is a test against real hardware on COM3 and is not part of this model.
