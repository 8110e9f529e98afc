/**
 * The response decoder: the oscillator status records filled field by field from a
 * ';'-separated reply, and the mappings of the backlight and integer replies.
 */
module Decoder {
  import opened Wrappers
  import Text
  import Numerals

  /** Status of one oven-controlled oscillator (OCXO1, OCXO2 or OCXO3). */
  datatype OcxoStatus = OcxoStatus(voltage: real, current: real, temperature: real, isLocked: bool)

  /** Status of the reference oscillator; `extRef` is true when the reference clock is external. */
  datatype RefOcxoStatus = RefOcxoStatus(voltage: real, current: real, temperature: real,
                                         legacyTemperature: real, extRef: bool)

  /** The exception a decoder catches: an index past the split array, or a number that does not parse. */
  datatype DecodeError = MissingField | NotANumber

  /** `ex.Message` of the caught exception. */
  function ErrorMessage(e: DecodeError): string
  {
    match e
    case MissingField => "Index was outside the bounds of the array."
    case NotANumber => "Input string was not in a correct format."
  }

  /** `float.Parse(s, NumberStyles.Float, en-US)`, given by the caller: `None` where it throws. */
  type FloatParser = string -> Option<real>

  /** A decoded record and the error, if any, that stopped the decoder. */
  datatype Decoded<T> = Decoded(value: T, error: Option<DecodeError>)

  /** Fields `0..i` of `f` all exist and parse. */
  predicate ParsesThrough(f: seq<string>, parse: FloatParser, i: nat)
  {
    i < |f| && forall j :: 0 <= j <= i ==> parse(f[j]).Some?
  }

  /**
   * The number the decoder leaves in numeric field `i`: the parsed value when fields
   * `0..i` all parse (assignment reached it), otherwise the record's default 0.
   */
  function Expected(f: seq<string>, parse: FloatParser, i: nat): real
  {
    if ParsesThrough(f, parse, i) then parse(f[i]).value else 0.0
  }

  /**
   * Parses the first `k` fields in order and stops at the first one that is missing
   * or does not parse, as the sequence of assignments in the source does.
   */
  function ParsePrefix(f: seq<string>, k: nat, parse: FloatParser): (r: (seq<real>, Option<DecodeError>))
    ensures |r.0| <= k && |r.0| <= |f|
    ensures r.1.None? <==> |r.0| == k
    ensures forall i :: 0 <= i < |r.0| ==> parse(f[i]) == Some(r.0[i])
    ensures r.1 == Some(MissingField) ==> |r.0| == |f|
    ensures r.1 == Some(NotANumber) ==> |r.0| < |f| && parse(f[|r.0|]).None?
    decreases k
  {
    if k == 0 then ([], None)
    else if f == [] then ([], Some(MissingField))
    else match parse(f[0])
      case None => ([], Some(NotANumber))
      case Some(v) =>
        var rest := ParsePrefix(f[1..], k - 1, parse);
        ([v] + rest.0, rest.1)
  }

  /** The numbers, the flag text and the error of a reply with `count` numbers and a flag after them. */
  datatype Fields = Fields(numbers: seq<real>, flag: string, error: Option<DecodeError>)

  function ReadFields(resp: string, count: nat, parse: FloatParser): (r: Fields)
    requires count >= 1
    ensures var f := Text.Split(resp, ';');
      (forall i :: 0 <= i < count ==> At(r.numbers, i) == Expected(f, parse, i)) &&
      (r.error.None? <==> ParsesThrough(f, parse, count - 1) && |f| > count) &&
      (r.error == Some(MissingField) <==> |f| <= count && ParsesThrough(f, parse, |f| - 1)) &&
      (r.error.None? ==> r.flag == f[count]) &&
      (r.error.Some? ==> r.flag == "")
  {
    var f := Text.Split(resp, ';');
    var p := ParsePrefix(f, count, parse);
    ExpectedFromPrefix(f, count, parse);
    if p.1.Some? then Fields(p.0, "", p.1)
    else if |f| <= count then Fields(p.0, "", Some(MissingField))
    else Fields(p.0, f[count], None)
  }

  /** Element `i`, or the default 0 past the end. */
  function At(s: seq<real>, i: nat): real
  {
    if i < |s| then s[i] else 0.0
  }

  /** Stops-at-first-failure parsing agrees field by field with `Expected`. */
  lemma ExpectedFromPrefix(f: seq<string>, count: nat, parse: FloatParser)
    requires |f| >= 1 && count >= 1
    ensures var p := ParsePrefix(f, count, parse);
      (forall i :: 0 <= i < count ==> At(p.0, i) == Expected(f, parse, i)) &&
      (p.1.None? <==> ParsesThrough(f, parse, count - 1)) &&
      (p.1 == Some(MissingField) <==> |f| < count && ParsesThrough(f, parse, |f| - 1))
  {
    var p := ParsePrefix(f, count, parse);
    var n := |p.0|;
    forall i | 0 <= i < count
      ensures At(p.0, i) == Expected(f, parse, i)
    {
      if i < n {
        assert ParsesThrough(f, parse, i) by {
          forall j | 0 <= j <= i ensures parse(f[j]).Some? {
            assert parse(f[j]) == Some(p.0[j]);
          }
        }
      } else {
        Stuck(f, count, parse);
        NotThrough(f, parse, n, i);
      }
    }
    if p.1.None? && count > 0 {
      assert ParsesThrough(f, parse, count - 1) by {
        forall j | 0 <= j <= count - 1 ensures parse(f[j]).Some? {
          assert parse(f[j]) == Some(p.0[j]);
        }
      }
    }
    if p.1.Some? {
      if p.1 == Some(MissingField) {
        assert n == |f|;
        assert ParsesThrough(f, parse, |f| - 1) by {
          forall j | 0 <= j <= |f| - 1 ensures parse(f[j]).Some? {
            assert parse(f[j]) == Some(p.0[j]);
          }
        }
        NotThrough(f, parse, n, count - 1);
      } else {
        Stuck(f, count, parse);
        NotThrough(f, parse, n, count - 1);
        NotThrough(f, parse, n, |f| - 1);
      }
    }
  }

  /** Where `ParsePrefix` stopped early, the field at the stop is missing or bad. */
  lemma Stuck(f: seq<string>, count: nat, parse: FloatParser)
    ensures var p := ParsePrefix(f, count, parse);
      |p.0| < count ==> |p.0| >= |f| || parse(f[|p.0|]).None?
  {
  }

  /** A field at or before `i` that is missing or does not parse breaks `ParsesThrough(f, parse, i)`. */
  lemma NotThrough(f: seq<string>, parse: FloatParser, n: nat, i: nat)
    requires n <= i && (n >= |f| || parse(f[n]).None?)
    ensures !ParsesThrough(f, parse, i)
  {
    if n < |f| {
      assert parse(f[n]).None?;
    }
  }

  /**
   * `OcxoStatus(command)` after the exchange: `volt;curr;temp;flag`. Each numeric field
   * holds its parsed value when it and every field before it parse, 0 otherwise;
   * `isLocked` is true exactly when the three numbers parse and field 3 is exactly "L";
   * fields after the fourth are ignored.
   */
  function DecodeOcxo(resp: string, parse: FloatParser): (d: Decoded<OcxoStatus>)
    ensures var f := Text.Split(resp, ';');
      d.value.voltage == Expected(f, parse, 0) &&
      d.value.current == Expected(f, parse, 1) &&
      d.value.temperature == Expected(f, parse, 2) &&
      (d.value.isLocked <==> ParsesThrough(f, parse, 2) && |f| > 3 && f[3] == "L") &&
      (d.error.None? <==> ParsesThrough(f, parse, 2) && |f| > 3) &&
      (d.error == Some(MissingField) <==> |f| <= 3 && ParsesThrough(f, parse, |f| - 1))
  {
    var r := ReadFields(resp, 3, parse);
    Decoded(OcxoStatus(At(r.numbers, 0), At(r.numbers, 1), At(r.numbers, 2), r.flag == "L"), r.error)
  }

  /**
   * `RefOcxoStatus()` after the exchange: `volt;curr;temp;legacyTemp;flag`, decoded as
   * `DecodeOcxo` does, with four numbers and `extRef` true exactly when field 4 is "E".
   */
  function DecodeRefOcxo(resp: string, parse: FloatParser): (d: Decoded<RefOcxoStatus>)
    ensures var f := Text.Split(resp, ';');
      d.value.voltage == Expected(f, parse, 0) &&
      d.value.current == Expected(f, parse, 1) &&
      d.value.temperature == Expected(f, parse, 2) &&
      d.value.legacyTemperature == Expected(f, parse, 3) &&
      (d.value.extRef <==> ParsesThrough(f, parse, 3) && |f| > 4 && f[4] == "E") &&
      (d.error.None? <==> ParsesThrough(f, parse, 3) && |f| > 4) &&
      (d.error == Some(MissingField) <==> |f| <= 4 && ParsesThrough(f, parse, |f| - 1))
  {
    var r := ReadFields(resp, 4, parse);
    Decoded(RefOcxoStatus(At(r.numbers, 0), At(r.numbers, 1), At(r.numbers, 2), At(r.numbers, 3),
                          r.flag == "E"), r.error)
  }

  /**
   * A well-formed oscillator line `v;c;t;flag` (any extra fields after it) decodes to
   * the three parsed numbers, locked exactly when the flag is "L", without error.
   */
  lemma OcxoLine(fs: seq<string>, parse: FloatParser)
    requires |fs| >= 4
    requires forall i :: 0 <= i < |fs| ==> ';' !in fs[i]
    requires parse(fs[0]).Some? && parse(fs[1]).Some? && parse(fs[2]).Some?
    ensures DecodeOcxo(Text.Join(fs, ';'), parse) ==
      Decoded(OcxoStatus(parse(fs[0]).value, parse(fs[1]).value, parse(fs[2]).value, fs[3] == "L"), None)
  {
    Text.SplitJoin(fs, ';');
  }

  /**
   * A well-formed reference line `v;c;t;lt;flag` decodes to the four parsed numbers,
   * with an external reference exactly when the flag is "E", without error.
   */
  lemma RefOcxoLine(fs: seq<string>, parse: FloatParser)
    requires |fs| >= 5
    requires forall i :: 0 <= i < |fs| ==> ';' !in fs[i]
    requires parse(fs[0]).Some? && parse(fs[1]).Some? && parse(fs[2]).Some? && parse(fs[3]).Some?
    ensures DecodeRefOcxo(Text.Join(fs, ';'), parse) ==
      Decoded(RefOcxoStatus(parse(fs[0]).value, parse(fs[1]).value, parse(fs[2]).value,
                            parse(fs[3]).value, fs[4] == "E"), None)
  {
    Text.SplitJoin(fs, ';');
  }

  /**
   * A line with fewer than four fields whose fields all parse is reported as a missing
   * field; the numbers it does carry are kept and the lock flag stays false.
   */
  lemma OcxoShortLine(fs: seq<string>, parse: FloatParser)
    requires 1 <= |fs| <= 3
    requires forall i :: 0 <= i < |fs| ==> ';' !in fs[i] && parse(fs[i]).Some?
    ensures var d := DecodeOcxo(Text.Join(fs, ';'), parse);
      d.error == Some(MissingField) && !d.value.isLocked &&
      d.value.voltage == parse(fs[0]).value &&
      (|fs| == 1 ==> d.value.current == 0.0) &&
      (|fs| > 1 ==> d.value.current == parse(fs[1]).value) &&
      (|fs| <= 2 ==> d.value.temperature == 0.0) &&
      (|fs| == 3 ==> d.value.temperature == parse(fs[2]).value)
  {
    Text.SplitJoin(fs, ';');
    var f := Text.Split(Text.Join(fs, ';'), ';');
    assert ParsesThrough(f, parse, |f| - 1);
    assert ParsesThrough(f, parse, 0);
    if |fs| > 1 {
      assert ParsesThrough(f, parse, 1);
    }
    if |fs| > 2 {
      assert ParsesThrough(f, parse, 2);
    }
  }

  /** `BacklightIsOn()`: "0" is off, "1" is on; any other reply is not a state. */
  function BacklightState(resp: string): (r: Option<bool>)
  {
    if resp == "0" then Some(false) else if resp == "1" then Some(true) else None
  }

  /** How the device reports the backlight state. */
  function BacklightText(on: bool): string
  {
    if on then "1" else "0"
  }

  /** The reply for a state maps back to that state, and only those two replies are states. */
  lemma BacklightRoundTrip(on: bool, resp: string)
    ensures BacklightState(BacklightText(on)) == Some(on)
    ensures BacklightState(resp).Some? <==> resp == BacklightText(true) || resp == BacklightText(false)
  {
  }

  /** `BacklightIntesity()` and `BacklightTimeoutInSec()`: the decimal value, or the sentinel -1. */
  function IntOrMinusOne(resp: string): (r: int)
    ensures IsInt32(r)
  {
    match Numerals.ParseInt32(resp)
    case Some(v) => v
    case None => -1
  }

  predicate IsInt32(v: int)
  {
    Numerals.MinInt32 <= v <= Numerals.MaxInt32
  }

  /** `GetUpTime()`: the hexadecimal value, or the sentinel 0. */
  function HexOrZero(resp: string): (r: int)
    ensures IsInt32(r)
  {
    match Numerals.ParseHex32(resp)
    case Some(v) => v
    case None => 0
  }

  /** A 32-bit value the device prints in decimal is read back as itself. */
  lemma IntReplyRoundTrip(n: int)
    requires Numerals.MinInt32 <= n <= Numerals.MaxInt32
    ensures IntOrMinusOne(Numerals.DecimalText(n)) == n
  {
    Numerals.DecimalRoundTrip(n);
  }

  /** A reply with no decimal digit yields the sentinel -1. */
  lemma IntReplySentinel(resp: string)
    requires forall i :: 0 <= i < |resp| ==> Numerals.DigitValue(resp[i]) >= 10
    ensures IntOrMinusOne(resp) == -1
  {
    Numerals.NoDigitsNoInt(resp);
  }

  /** A reply with no hexadecimal digit yields the sentinel 0. */
  lemma HexReplySentinel(resp: string)
    requires forall i :: 0 <= i < |resp| ==> Numerals.DigitValue(resp[i]) >= 16
    ensures HexOrZero(resp) == 0
  {
    Numerals.NoHexDigitsNoInt(resp);
  }

  /** An uptime the device prints in hexadecimal is read back as itself. */
  lemma HexReplyRoundTrip(n: int)
    requires Numerals.MinInt32 <= n <= Numerals.MaxInt32
    ensures HexOrZero(Numerals.HexText(n)) == n
  {
    Numerals.HexRoundTrip(n);
  }
}
