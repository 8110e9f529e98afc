/**
 * The serial port as the exchange engine sees it. The real port, its settings and
 * the device behind it are not modelled; instead each port carries a script of what
 * happens on each exchange attempt, and a record of the lines written to it.
 */
module Transport {

  /** What happens on one attempt of `WriteRead`, in order. */
  datatype Attempt =
    | Lost                      // the port reports closed when the attempt starts
    | WriteFault(reason: string) // `WriteLine` throws with this message
    | ReadFault(reason: string)  // `WriteLine` succeeds, `ReadLine` throws (e.g. times out)
    | Reply(line: string)        // `WriteLine` succeeds and `ReadLine` returns this line

  /**
   * An allocated `SerialPort`: its name, whether it is open, the attempts still to
   * come (`link`) and every line `WriteLine` has written (`sent`).
   */
  datatype Port = Port(name: string, isOpen: bool, link: seq<Attempt>, sent: seq<string>)

  /** `TimeoutException.Message` of a `ReadLine` that received nothing. */
  const TimeoutReason: string := "The operation has timed out."

  /** The next attempt; a silent device (empty script) lets every read time out. */
  function NextAttempt(p: Port): Attempt
  {
    if p.link == [] then ReadFault(TimeoutReason) else p.link[0]
  }

  /** The script after its first attempt is used up. */
  function Rest(link: seq<Attempt>): seq<Attempt>
  {
    if link == [] then [] else link[1..]
  }

  /** Attempt `i` of a script counted from its start; past its end every read times out. */
  function Scripted(link: seq<Attempt>, i: nat): Attempt
  {
    if i < |link| then link[i] else ReadFault(TimeoutReason)
  }

  /** The next attempt is attempt 0 of the script, and using one up shifts the rest down by one. */
  lemma ScriptShifts(p: Port, i: nat)
    ensures NextAttempt(p) == Scripted(p.link, 0)
    ensures Scripted(Rest(p.link), i) == Scripted(p.link, i + 1)
  {
  }

  /**
   * The `_sp.IsOpen` check at the top of an attempt: a pending `Lost` closes the port.
   * Afterwards an open port never has `Lost` next.
   */
  function Poll(p: Port): (q: Port)
    ensures q.name == p.name && q.sent == p.sent
    ensures q.isOpen ==> p.isOpen && q == p && !NextAttempt(q).Lost?
    ensures !q.isOpen && p.isOpen ==> p.link != [] && p.link[0] == Lost && q.link == p.link[1..]
    ensures !p.isOpen ==> q == p
  {
    if p.isOpen && NextAttempt(p).Lost? then p.(isOpen := false, link := Rest(p.link)) else p
  }

  /**
   * The port after one attempt to send `request`: the attempt is used up and, unless
   * the write failed, the line was written. An attempt never renames, opens or closes
   * the port.
   */
  function AfterAttempt(p: Port, request: string): (q: Port)
    ensures q.name == p.name && q.isOpen == p.isOpen
  {
    p.(link := Rest(p.link), sent := if NextAttempt(p).WriteFault? then p.sent else p.sent + [request])
  }

  /** The exceptions an exchange or a lifecycle call can end with. */
  datatype Failure =
    | NullReference                       // a member access on a null `_sp`, or `throw null`
    | PortClosed(message: string)         // the `ApplicationException` of the closed-port check
    | IoFault(message: string)            // the exception `WriteLine` threw, rethrown as it is
    | Timeout(message: string, inner: string) // the `TimeoutException` wrapping a failed read

  /** `ex.Message`. */
  function Message(e: Failure): string
  {
    match e
    case NullReference => "Object reference not set to an instance of an object."
    case PortClosed(m) => m
    case IoFault(m) => m
    case Timeout(m, _) => m
  }

  /** What `new SerialPort(port)` and `_sp.Open()` do when `Open` is called. */
  datatype Device =
    | BadName(reason: string)        // the constructor rejects the name and throws
    | Refused(reason: string)        // the port exists as an object but `Open()` throws
    | Present(link: seq<Attempt>)    // the port opens; the device then behaves as `link` says
}
