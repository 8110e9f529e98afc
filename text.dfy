/**
 * String helpers of the .NET runtime that the driver relies on:
 * `String.Trim(char[])` and `String.Split(char[])` with a single separator.
 */
module Text {

  /** The characters `WriteRead` strips from both ends of every response line. */
  const ResponseJunk: set<char> := {'\0', '\r', '\n'}

  /** Drops leading characters that belong to `cs`. */
  function TrimStart(s: string, cs: set<char>): (r: string)
    ensures |r| <= |s| && r == s[|s| - |r|..]
    ensures r == [] || r[0] !in cs
    decreases |s|
  {
    if s != [] && s[0] in cs then TrimStart(s[1..], cs) else s
  }

  /** Drops trailing characters that belong to `cs`. */
  function TrimEnd(s: string, cs: set<char>): (r: string)
    ensures |r| <= |s| && r == s[..|r|]
    ensures r == [] || r[|r| - 1] !in cs
    decreases |s|
  {
    if s != [] && s[|s| - 1] in cs then TrimEnd(s[..|s| - 1], cs) else s
  }

  /** Number of characters `Trim` removes at the front. */
  function Lead(s: string, cs: set<char>): nat
  {
    |s| - |TrimStart(s, cs)|
  }

  /**
   * `String.Trim(cs)`: removes every leading and trailing character in `cs`.
   * The result is a contiguous window of `s` that starts and ends with a character
   * outside `cs`; `TrimCutsOnly` adds that everything cut away is in `cs`.
   */
  function Trim(s: string, cs: set<char>): (r: string)
    ensures Lead(s, cs) + |r| <= |s| && r == s[Lead(s, cs)..Lead(s, cs) + |r|]
    ensures r == [] || (r[0] !in cs && r[|r| - 1] !in cs)
  {
    TrimEnd(TrimStart(s, cs), cs)
  }

  /** Every character `TrimStart` drops is in `cs`. */
  lemma {:induction false} TrimStartCutsOnly(s: string, cs: set<char>)
    ensures forall i :: 0 <= i < |s| - |TrimStart(s, cs)| ==> s[i] in cs
    decreases |s|
  {
    if s != [] && s[0] in cs {
      TrimStartCutsOnly(s[1..], cs);
      forall i | 1 <= i < |s| - |TrimStart(s, cs)| ensures s[i] in cs {
        assert s[i] == s[1..][i - 1];
      }
    }
  }

  /** Every character `TrimEnd` drops is in `cs`. */
  lemma {:induction false} TrimEndCutsOnly(s: string, cs: set<char>)
    ensures forall i :: |TrimEnd(s, cs)| <= i < |s| ==> s[i] in cs
    decreases |s|
  {
    if s != [] && s[|s| - 1] in cs {
      TrimEndCutsOnly(s[..|s| - 1], cs);
      forall i | |TrimEnd(s, cs)| <= i < |s| - 1 ensures s[i] in cs {
        assert s[i] == s[..|s| - 1][i];
      }
    }
  }

  /** Everything `Trim` cuts away, on either side, is in `cs`. */
  lemma TrimCutsOnly(s: string, cs: set<char>)
    ensures forall i :: 0 <= i < Lead(s, cs) ==> s[i] in cs
    ensures forall i :: Lead(s, cs) + |Trim(s, cs)| <= i < |s| ==> s[i] in cs
  {
    var t := TrimStart(s, cs);
    TrimStartCutsOnly(s, cs);
    TrimEndCutsOnly(t, cs);
    forall i | Lead(s, cs) + |Trim(s, cs)| <= i < |s| ensures s[i] in cs {
      assert s[i] == t[i - Lead(s, cs)];
    }
  }

  /** Trimming a second time changes nothing. */
  lemma TrimIdempotent(s: string, cs: set<char>)
    ensures Trim(Trim(s, cs), cs) == Trim(s, cs)
  {
    var r := Trim(s, cs);
    if r != [] {
      assert TrimStart(r, cs) == r;
      assert TrimEnd(r, cs) == r;
    }
  }

  /** A string with no character of `cs` at either end is left as it is. */
  lemma {:induction false} TrimKeepsClean(s: string, cs: set<char>)
    requires s == [] || (s[0] !in cs && s[|s| - 1] !in cs)
    ensures Lead(s, cs) == 0 && Trim(s, cs) == s
  {
    assert TrimStart(s, cs) == s;
  }

  /**
   * `String.Split(new char[]{d})`: the fields between the occurrences of `d`.
   * There is always at least one field, no field contains `d`, and joining the
   * fields with `d` gives back the input.
   */
  function Split(s: string, d: char): (r: seq<string>)
    ensures |r| >= 1
    ensures forall i :: 0 <= i < |r| ==> d !in r[i]
    ensures Join(r, d) == s
    decreases |s|
  {
    if s == [] then [""]
    else
      var rest := Split(s[1..], d);
      if s[0] == d then [""] + rest
      else [[s[0]] + rest[0]] + rest[1..]
  }

  /** The fields `fs` separated by `d`. */
  function Join(fs: seq<string>, d: char): string
    decreases |fs|
  {
    if fs == [] then ""
    else if |fs| == 1 then fs[0]
    else fs[0] + [d] + Join(fs[1..], d)
  }

  lemma {:induction false} SplitField(f: string, t: string, d: char)
    requires d !in f
    ensures Split(f + [d] + t, d) == [f] + Split(t, d)
    decreases |f|
  {
    if f == [] {
      assert f + [d] + t == [d] + t;
      assert ([d] + t)[1..] == t;
    } else {
      var s := f + [d] + t;
      SplitField(f[1..], t, d);
      assert s[1..] == f[1..] + [d] + t;
      assert s[0] == f[0] && f[0] != d;
      var rest := Split(s[1..], d);
      assert rest[0] == f[1..] && rest[1..] == Split(t, d);
      assert [f[0]] + f[1..] == f;
    }
  }

  lemma {:induction false} SplitLast(f: string, d: char)
    requires d !in f
    ensures Split(f, d) == [f]
    decreases |f|
  {
    if f != [] {
      SplitLast(f[1..], d);
      assert [f[0]] + f[1..] == f;
    }
  }

  /** Splitting the join of fields that contain no separator gives the fields back. */
  lemma {:induction false} SplitJoin(fs: seq<string>, d: char)
    requires |fs| >= 1
    requires forall i :: 0 <= i < |fs| ==> d !in fs[i]
    ensures Split(Join(fs, d), d) == fs
    decreases |fs|
  {
    if |fs| == 1 {
      SplitLast(fs[0], d);
    } else {
      SplitJoin(fs[1..], d);
      SplitField(fs[0], Join(fs[1..], d), d);
      assert [fs[0]] + fs[1..] == fs;
    }
  }
}
