/**
 * Integer text as the driver reads and writes it: `int.TryParse` with
 * `NumberStyles.Integer` and `NumberStyles.HexNumber` in the en-US culture,
 * the fixed-width fields of a timestamp, and the `N2` format of the setters.
 */
module Numerals {
  import opened Wrappers
  import Text

  const MinInt32: int := -0x8000_0000
  const MaxInt32: int := 0x7FFF_FFFF
  const TwoTo32: int := 0x1_0000_0000

  /** White space that `AllowLeadingWhite` and `AllowTrailingWhite` accept: U+0009 to U+000D and U+0020. */
  const NumberWhite: set<char> := {'\t', '\n', '\U{0B}', '\U{0C}', '\r', ' '}

  /** Value of a hexadecimal digit in either case; 16 for any other character. */
  function DigitValue(c: char): (v: nat)
    ensures v <= 16
  {
    if '0' <= c <= '9' then c as int - '0' as int
    else if 'a' <= c <= 'f' then c as int - 'a' as int + 10
    else if 'A' <= c <= 'F' then c as int - 'A' as int + 10
    else 16
  }

  /** The upper-case digit character of `v`. */
  function DigitChar(v: nat): (c: char)
    requires v < 16
    ensures DigitValue(c) == v
  {
    if v < 10 then ('0' as int + v) as char else ('A' as int + v - 10) as char
  }

  /** A non-empty string of digits of `base`. */
  predicate IsNumeral(s: string, base: nat)
  {
    |s| > 0 && forall i :: 0 <= i < |s| ==> DigitValue(s[i]) < base
  }

  /** The number a string of digits denotes, most significant digit first. */
  function Value(s: string, base: nat): nat
    decreases |s|
  {
    if s == [] then 0 else Value(s[..|s| - 1], base) * base + DigitValue(s[|s| - 1])
  }

  /** The shortest digit string of `n` in `base`, upper-case. */
  function Numeral(n: nat, base: nat): (r: string)
    requires 2 <= base <= 16
    ensures IsNumeral(r, base)
    decreases n
  {
    if n < base then
      [DigitChar(n)]
    else
      DivShrinks(n, base);
      var q := Numeral(n / base, base);
      var c := DigitChar(n % base);
      NumeralSnoc(q, c, base);
      q + [c]
  }

  /** Reading back the digits `Numeral` writes gives the number. */
  lemma {:induction false} NumeralValue(n: nat, base: nat)
    requires 2 <= base <= 16
    ensures Value(Numeral(n, base), base) == n
    decreases n
  {
    if n >= base {
      DivShrinks(n, base);
      var q := Numeral(n / base, base);
      var c := DigitChar(n % base);
      NumeralValue(n / base, base);
      ValueSnoc(q, c, base);
      assert Numeral(n, base) == q + [c];
      assert Value(q + [c], base) == (n / base) * base + n % base;
      DivMod(n, base);
    }
  }

  lemma ValueSnoc(q: string, c: char, base: nat)
    ensures Value(q + [c], base) == Value(q, base) * base + DigitValue(c)
  {
    assert (q + [c])[..|q|] == q;
  }

  lemma NumeralSnoc(q: string, c: char, base: nat)
    requires IsNumeral(q, base) && DigitValue(c) < base
    ensures IsNumeral(q + [c], base)
  {
    forall i | 0 <= i < |q| + 1
      ensures DigitValue((q + [c])[i]) < base
    {
      if i < |q| {
        assert (q + [c])[i] == q[i];
      }
    }
  }

  lemma DivShrinks(n: nat, base: nat)
    requires 2 <= base <= n
    ensures n / base < n && n % base < base
  {
    DivMod(n, base);
    MulMono(2, base, n / base);
  }

  lemma DivMod(n: nat, base: nat)
    requires base >= 1
    ensures (n / base) * base + n % base == n
  {
  }

  lemma DivBelow(n: nat, base: nat, p: nat)
    requires base >= 1 && n < base * p
    ensures n / base < p
  {
    DivMod(n, base);
    if n / base >= p {
      MulMono(p, n / base, base);
    }
  }

  lemma MulMono(a: nat, b: nat, c: nat)
    requires a <= b
    ensures a * c <= b * c
  {
  }

  function Pow(b: nat, k: nat): nat
  {
    if k == 0 then 1 else b * Pow(b, k - 1)
  }

  lemma {:induction false} NumeralLength(n: nat, base: nat, k: nat)
    requires 2 <= base <= 16 && k >= 1 && n < Pow(base, k)
    ensures |Numeral(n, base)| <= k
    decreases k
  {
    if n >= base {
      assert k >= 2;
      DivBelow(n, base, Pow(base, k - 1));
      NumeralLength(n / base, base, k - 1);
    }
  }

  function Zeros(k: nat): string
  {
    seq(k, _ => '0')
  }

  /** `n` in decimal, left-padded with '0' to `width` characters (the `yyyy`, `MM`, ... fields). */
  function Pad(n: nat, width: nat): string
  {
    var d := Numeral(n, 10);
    if |d| >= width then d else Zeros(width - |d|) + d
  }

  /** A value below 10^width fills its field exactly, with decimal digits only. */
  lemma PadExact(n: nat, width: nat)
    requires width >= 1 && n < Pow(10, width)
    ensures |Pad(n, width)| == width
    ensures forall i :: 0 <= i < width ==> '0' <= Pad(n, width)[i] <= '9'
  {
    NumeralLength(n, 10, width);
    var d := Numeral(n, 10);
    assert forall i :: 0 <= i < |d| ==> DigitValue(d[i]) < 10;
  }

  /** A digit string of base at most 16 neither starts nor ends with number white space. */
  lemma NumeralIsClean(s: string, base: nat)
    requires IsNumeral(s, base) && base <= 16
    ensures s[0] !in NumberWhite && s[|s| - 1] !in NumberWhite
  {
    assert DigitValue(s[0]) < 16 && DigitValue(s[|s| - 1]) < 16;
  }

  /**
   * `int.TryParse(s, NumberStyles.Integer, en-US)`: optional white space around an
   * optional '+' or '-' and a non-empty run of decimal digits, within the 32-bit range.
   */
  function ParseInt32(s: string): (r: Option<int>)
    ensures r.Some? ==> MinInt32 <= r.value <= MaxInt32
  {
    var t := Text.Trim(s, NumberWhite);
    var signed := |t| > 0 && (t[0] == '-' || t[0] == '+');
    var digits := if signed then t[1..] else t;
    if !IsNumeral(digits, 10) then None
    else
      var v: int := if signed && t[0] == '-' then -(Value(digits, 10) as int) else Value(digits, 10);
      if MinInt32 <= v <= MaxInt32 then Some(v) else None
  }

  /** How the device prints a 32-bit integer in decimal. */
  function DecimalText(n: int): string
  {
    if n < 0 then "-" + Numeral(-n, 10) else Numeral(n, 10)
  }

  /** Every 32-bit integer printed in decimal is read back unchanged. */
  lemma DecimalRoundTrip(n: int)
    requires MinInt32 <= n <= MaxInt32
    ensures ParseInt32(DecimalText(n)) == Some(n)
  {
    var m := if n < 0 then -n else n;
    NumeralValue(m, 10);
    if n < 0 {
      ParseMinusDigits(Numeral(m, 10));
    } else {
      ParseDigits(Numeral(m, 10));
    }
  }

  lemma ParseDigits(d: string)
    requires IsNumeral(d, 10) && Value(d, 10) <= MaxInt32
    ensures ParseInt32(d) == Some(Value(d, 10))
  {
    NumeralIsClean(d, 10);
    Text.TrimKeepsClean(d, NumberWhite);
    assert DigitValue(d[0]) < 10;
  }

  lemma ParseMinusDigits(d: string)
    requires IsNumeral(d, 10) && Value(d, 10) <= -MinInt32
    ensures ParseInt32("-" + d) == Some(-(Value(d, 10) as int))
  {
    var s := "-" + d;
    NumeralIsClean(d, 10);
    assert s[|s| - 1] == d[|d| - 1];
    Text.TrimKeepsClean(s, NumberWhite);
    assert s[1..] == d;
  }

  /** A string with no decimal digit at all never parses. */
  lemma NoDigitsNoInt(s: string)
    requires forall i :: 0 <= i < |s| ==> DigitValue(s[i]) >= 10
    ensures ParseInt32(s) == None
  {
    var t := Text.Trim(s, NumberWhite);
    var k := Text.Lead(s, NumberWhite);
    if |t| > 0 {
      assert t[0] == s[k];
      if |t| > 1 {
        assert t[1] == s[k + 1];
      }
    }
  }

  /** A string with no hexadecimal digit at all never parses as a hexadecimal number. */
  lemma NoHexDigitsNoInt(s: string)
    requires forall i :: 0 <= i < |s| ==> DigitValue(s[i]) >= 16
    ensures ParseHex32(s) == None
  {
    var t := Text.Trim(s, NumberWhite);
    var k := Text.Lead(s, NumberWhite);
    if |t| > 0 {
      assert t[0] == s[k];
    }
  }

  /**
   * `int.TryParse(s, NumberStyles.HexNumber, en-US)`: optional white space around a
   * non-empty run of hexadecimal digits (no sign, no "0x"); the value must fit in
   * 32 bits and is read as a two's-complement `int`.
   */
  function ParseHex32(s: string): (r: Option<int>)
    ensures r.Some? ==> MinInt32 <= r.value <= MaxInt32
  {
    var t := Text.Trim(s, NumberWhite);
    if !IsNumeral(t, 16) then None
    else
      var v := Value(t, 16);
      if v < TwoTo32 then Some(if v > MaxInt32 then v - TwoTo32 else v) else None
  }

  /** How the device prints a 32-bit integer in hexadecimal (its two's-complement bits). */
  function HexText(n: int): string
    requires MinInt32 <= n <= MaxInt32
  {
    Numeral(if n < 0 then n + TwoTo32 else n, 16)
  }

  /** Every 32-bit integer printed in hexadecimal is read back unchanged. */
  lemma HexRoundTrip(n: int)
    requires MinInt32 <= n <= MaxInt32
    ensures ParseHex32(HexText(n)) == Some(n)
  {
    var m := if n < 0 then n + TwoTo32 else n;
    var t := HexText(n);
    NumeralIsClean(t, 16);
    NumeralValue(m, 16);
    Text.TrimKeepsClean(t, NumberWhite);
    assert IsNumeral(t, 16) && Value(t, 16) == m;
  }

  /** Digits of `n` with a ',' between groups of three, as the en-US `N` format writes them. */
  function Grouped(n: nat): string
    decreases n
  {
    if n < 1000 then Numeral(n, 10) else Grouped(n / 1000) + "," + Pad(n % 1000, 3)
  }

  /** `{n:N2}` of an `int` in the en-US culture: grouped digits and two decimals. */
  function N2(n: int): string
  {
    (if n < 0 then "-" else "") + Grouped(if n < 0 then -n else n) + ".00"
  }

  /** The text with every ',' group separator taken out. */
  function Ungrouped(s: string): string
  {
    if s == [] then [] else (if s[0] == ',' then [] else [s[0]]) + Ungrouped(s[1..])
  }

  lemma {:induction false} UngroupedAppend(a: string, b: string)
    ensures Ungrouped(a + b) == Ungrouped(a) + Ungrouped(b)
    decreases |a|
  {
    if a == [] {
      assert a + b == b;
    } else {
      assert (a + b)[0] == a[0] && (a + b)[1..] == a[1..] + b;
      UngroupedAppend(a[1..], b);
    }
  }

  /** A run of decimal digits has no separator to take out. */
  lemma {:induction false} UngroupedDigits(s: string)
    requires forall i :: 0 <= i < |s| ==> DigitValue(s[i]) < 10
    ensures Ungrouped(s) == s
    decreases |s|
  {
    if s != [] {
      assert DigitValue(s[0]) < 10;
      UngroupedDigits(s[1..]);
    }
  }

  lemma NumeralConcat(a: string, b: string, base: nat)
    requires IsNumeral(a, base) && IsNumeral(b, base)
    ensures IsNumeral(a + b, base)
  {
    forall i | 0 <= i < |a + b|
      ensures DigitValue((a + b)[i]) < base
    {
      if i < |a| {
        assert (a + b)[i] == a[i];
      } else {
        assert (a + b)[i] == b[i - |a|];
      }
    }
  }

  lemma ShiftDistributes(a: nat, p: nat, v: nat, base: nat)
    ensures (a * p + v) * base == a * (base * p) + v * base
  {
  }

  /** Reading digits in two parts: the first part is shifted by the length of the second. */
  lemma {:induction false} ValueAppend(x: string, y: string, base: nat)
    ensures Value(x + y, base) == Value(x, base) * Pow(base, |y|) + Value(y, base)
    decreases |y|
  {
    if y == [] {
      assert x + y == x;
    } else {
      var y', c := y[..|y| - 1], y[|y| - 1];
      assert y == y' + [c];
      assert x + y == (x + y') + [c];
      ValueSnoc(x + y', c, base);
      ValueSnoc(y', c, base);
      ValueAppend(x, y', base);
      ShiftDistributes(Value(x, base), Pow(base, |y'|), Value(y', base), base);
    }
  }

  lemma {:induction false} ValueZeros(k: nat)
    ensures Value(Zeros(k), 10) == 0
    decreases k
  {
    if k > 0 {
      assert Zeros(k) == Zeros(k - 1) + ['0'];
      ValueSnoc(Zeros(k - 1), '0', 10);
      ValueZeros(k - 1);
    }
  }

  /** Zero-padding does not change the value the digits are read as. */
  lemma PadValue(n: nat, width: nat)
    ensures Value(Pad(n, width), 10) == n
  {
    var d := Numeral(n, 10);
    NumeralValue(n, 10);
    if |d| < width {
      var z := Zeros(width - |d|);
      assert Pad(n, width) == z + d;
      ValueAppend(z, d, 10);
      ValueZeros(width - |d|);
    } else {
      assert Pad(n, width) == d;
    }
  }

  /** The grouped digits of `n` start with a digit and hold only digits and ','. */
  lemma {:induction false} GroupedShape(n: nat)
    ensures var g := Grouped(n);
      |g| >= 1 && DigitValue(g[0]) < 10 &&
      forall i :: 0 <= i < |g| ==> g[i] == ',' || DigitValue(g[i]) < 10
    decreases n
  {
    if n >= 1000 {
      var h := Grouped(n / 1000);
      var p := Pad(n % 1000, 3);
      GroupedShape(n / 1000);
      assert Pow(10, 3) == 1000;
      PadExact(n % 1000, 3);
      var g := Grouped(n);
      assert g == h + "," + p;
      forall i | 0 <= i < |g|
        ensures g[i] == ',' || DigitValue(g[i]) < 10
      {
        if i < |h| {
          assert g[i] == h[i];
        } else if i > |h| {
          assert g[i] == p[i - |h| - 1];
        }
      }
      assert g[0] == h[0];
    }
  }

  /** Taking the separators out of one more group of digits. */
  lemma UngroupedGroup(h: string, p: string)
    requires forall i :: 0 <= i < |p| ==> DigitValue(p[i]) < 10
    ensures Ungrouped(h + "," + p) == Ungrouped(h) + p
  {
    var c := [','];
    assert Ungrouped(c) == [] by {
      assert c[0] == ',' && c[1..] == [];
    }
    UngroupedAppend(h, c);
    UngroupedAppend(h + c, p);
    UngroupedDigits(p);
  }

  /** The grouped digits of `n`, with the separators taken out, are a numeral of `n`. */
  lemma {:induction false} GroupedValue(n: nat)
    ensures IsNumeral(Ungrouped(Grouped(n)), 10) && Value(Ungrouped(Grouped(n)), 10) == n
    decreases n
  {
    if n < 1000 {
      UngroupedDigits(Numeral(n, 10));
      NumeralValue(n, 10);
    } else {
      var h := Grouped(n / 1000);
      var p := Pad(n % 1000, 3);
      GroupedValue(n / 1000);
      assert Pow(10, 3) == 1000;
      PadExact(n % 1000, 3);
      PadValue(n % 1000, 3);
      assert Grouped(n) == h + "," + p;
      UngroupedGroup(h, p);
      var d := Ungrouped(h);
      NumeralConcat(d, p, 10);
      ValueAppend(d, p, 10);
      DivMod(n, 1000);
    }
  }

  /**
   * `N2` round trip: the text ends in ".00", starts with '-' exactly for a negative
   * value, and its digits, with the group separators taken out, read back as the
   * value's magnitude.
   */
  lemma N2ReadsBack(n: int)
    ensures var t := N2(n); var m := if n < 0 then -n else n;
      |t| >= 4 && t[|t| - 3..] == ".00" && (t[0] == '-' <==> n < 0) &&
      var digits := Ungrouped(t[(if n < 0 then 1 else 0)..|t| - 3]);
      IsNumeral(digits, 10) && Value(digits, 10) == m
  {
    var m := if n < 0 then -n else n;
    var sign := if n < 0 then "-" else "";
    var g := Grouped(m);
    GroupedShape(m);
    GroupedValue(m);
    var t := N2(n);
    assert t == sign + g + ".00";
    assert t[|sign|..|t| - 3] == g;
    assert t[|t| - 3..] == ".00";
    if n >= 0 {
      assert t[0] == g[0];
    }
  }
}
