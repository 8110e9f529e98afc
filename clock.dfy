/**
 * Wall-clock readings and the two ways the driver prints them: the
 * `yyyy.MM.dd HH:mm:ss` stamp in front of every trace entry and the
 * `yyyyMMdd` part of the daily log file name.
 */
module Clock {
  import Numerals

  /** A reading of `DateTime.Now`, supplied by the environment. */
  datatype DateTime = DateTime(year: nat, month: nat, day: nat, hour: nat, minute: nat, second: nat)
  {
    predicate Valid()
    {
      1 <= year <= 9999 && 1 <= month <= 12 && 1 <= day <= 31 &&
      hour < 24 && minute < 60 && second < 60
    }
  }

  /** `dt.ToString("yyyy.MM.dd HH:mm:ss")`. */
  function Timestamp(dt: DateTime): string
  {
    Numerals.Pad(dt.year, 4) + "." + Numerals.Pad(dt.month, 2) + "." + Numerals.Pad(dt.day, 2) + " " +
    Numerals.Pad(dt.hour, 2) + ":" + Numerals.Pad(dt.minute, 2) + ":" + Numerals.Pad(dt.second, 2)
  }

  /** `$"{dt:yyyy}{dt:MM}{dt:dd}"`, the date in the log file name. */
  function DateStamp(dt: DateTime): string
  {
    Numerals.Pad(dt.year, 4) + Numerals.Pad(dt.month, 2) + Numerals.Pad(dt.day, 2)
  }

  /** For a valid reading every field fills its width exactly. */
  lemma FieldsExact(dt: DateTime)
    requires dt.Valid()
    ensures |Numerals.Pad(dt.year, 4)| == 4
    ensures |Numerals.Pad(dt.month, 2)| == 2 && |Numerals.Pad(dt.day, 2)| == 2
    ensures |Numerals.Pad(dt.hour, 2)| == 2 && |Numerals.Pad(dt.minute, 2)| == 2
    ensures |Numerals.Pad(dt.second, 2)| == 2
  {
    assert Numerals.Pow(10, 2) == 100;
    assert Numerals.Pow(10, 4) == 10000;
    Numerals.PadExact(dt.year, 4);
    Numerals.PadExact(dt.month, 2);
    Numerals.PadExact(dt.day, 2);
    Numerals.PadExact(dt.hour, 2);
    Numerals.PadExact(dt.minute, 2);
    Numerals.PadExact(dt.second, 2);
  }

  /**
   * For a valid reading the stamp has the fixed 19-character layout, and the
   * log file of that day is named after the same date the stamp starts with.
   */
  lemma TimestampLayout(dt: DateTime)
    requires dt.Valid()
    ensures |Timestamp(dt)| == 19
    ensures var t := Timestamp(dt); t[4] == '.' && t[7] == '.' && t[10] == ' ' && t[13] == ':' && t[16] == ':'
    ensures var t := Timestamp(dt); t[..4] + t[5..7] + t[8..10] == DateStamp(dt)
  {
    FieldsExact(dt);
    var y, mo, d := Numerals.Pad(dt.year, 4), Numerals.Pad(dt.month, 2), Numerals.Pad(dt.day, 2);
    var h, mi, se := Numerals.Pad(dt.hour, 2), Numerals.Pad(dt.minute, 2), Numerals.Pad(dt.second, 2);
    var t := Timestamp(dt);
    assert t == y + "." + mo + "." + d + " " + h + ":" + mi + ":" + se;
    assert t[..4] == y;
    assert t[5..7] == mo;
    assert t[8..10] == d;
  }
}
