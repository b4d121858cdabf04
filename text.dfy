/**
 * The text handling the bot relies on: Python's `str.strip()` and the
 * conversion `int(text)` applied to typed volumes and to button data, plus a
 * decimal rendering that serves as the partner of the parser.
 */
module Text {
  import opened Common

  /** Python's `str.isspace()` for one character. */
  predicate IsSpace(c: char)
  {
    var n := c as int;
    (9 <= n <= 13) || (28 <= n <= 32) || n == 0x85 || n == 0xA0 || n == 0x1680
    || (0x2000 <= n <= 0x200A) || n == 0x2028 || n == 0x2029 || n == 0x202F
    || n == 0x205F || n == 0x3000
  }

  /**
   * The two whitespace sets the bot trims by: `str.strip()` removes every
   * `isspace()` character, while `int()` skips only the ASCII ones among
   * tab, newline, vertical tab, form feed, carriage return and space, plus
   * every non-ASCII `isspace()` character; the ASCII separators U+001C to
   * U+001F are not skipped by `int()`.
   */
  datatype Blanks = StrSpaces | IntSpaces

  predicate IsBlank(b: Blanks, c: char)
  {
    IsSpace(c) && (b == IntSpaces ==> !(0x1C <= c as int <= 0x1F))
  }

  predicate AllBlank(b: Blanks, s: string)
  {
    forall i :: 0 <= i < |s| ==> IsBlank(b, s[i])
  }

  /** Drops leading blanks. */
  function TrimStart(b: Blanks, s: string): (r: string)
    ensures |r| <= |s| && r == s[|s| - |r|..]
    ensures AllBlank(b, s[..|s| - |r|])
    ensures r == [] || !IsBlank(b, r[0])
  {
    if s != [] && IsBlank(b, s[0]) then TrimStart(b, s[1..]) else s
  }

  /** Drops trailing blanks. */
  function TrimEnd(b: Blanks, s: string): (r: string)
    ensures |r| <= |s| && r == s[..|r|]
    ensures AllBlank(b, s[|r|..])
    ensures r == [] || !IsBlank(b, r[|r| - 1])
  {
    if s != [] && IsBlank(b, s[|s| - 1]) then
      var r := TrimEnd(b, s[..|s| - 1]);
      assert s[..|s| - 1][..|r|] == s[..|r|];
      assert forall i :: |r| <= i < |s| - 1 ==> s[..|s| - 1][|r|..][i - |r|] == s[i];
      r
    else s
  }

  /**
   * Blanks removed at both ends: `Strip(StrSpaces, s)` is `s.strip()`, and
   * `Strip(IntSpaces, s)` is what `int(s)` looks at.
   */
  function Strip(b: Blanks, s: string): (r: string)
    ensures |r| <= |s|
    ensures r == [] || (!IsBlank(b, r[0]) && !IsBlank(b, r[|r| - 1]))
  {
    TrimEnd(b, TrimStart(b, s))
  }

  /** What `Strip` keeps is a slice of its input and what it drops is blank. */
  lemma StripSlice(b: Blanks, s: string) returns (i: nat, j: nat)
    ensures i <= j <= |s| && Strip(b, s) == s[i..j]
    ensures AllBlank(b, s[..i]) && AllBlank(b, s[j..])
  {
    var t := TrimStart(b, s);
    var r := TrimEnd(b, t);
    i := |s| - |t|;
    j := i + |r|;
    assert r == s[i..j];
    assert s[j..] == t[|r|..];
  }

  /**
   * The text before the first `sep` in `s`, which is the field that
   * `s.split(sep)[0]` yields.
   */
  function UpTo(s: string, sep: char): (r: string)
    ensures |r| <= |s| && r == s[..|r|] && sep !in r
    ensures |r| < |s| ==> s[|r|] == sep
  {
    if s == [] || s[0] == sep then [] else [s[0]] + UpTo(s[1..], sep)
  }

  predicate IsDigit(c: char)
  {
    '0' <= c <= '9'
  }

  predicate AllDigits(s: string)
  {
    forall i :: 0 <= i < |s| ==> IsDigit(s[i])
  }

  /** The value of a run of ASCII decimal digits, most significant first. */
  function DigitsValue(s: string): nat
    requires AllDigits(s)
  {
    if s == [] then 0 else 10 * DigitsValue(s[..|s| - 1]) + (s[|s| - 1] as int - '0' as int)
  }

  /**
   * `int(t)` on an already stripped string `t`: an optional `+` or `-` sign
   * followed by one or more ASCII digits; anything else raises `ValueError`,
   * modelled as `None`.
   */
  function ParseDecimal(t: string): Option<int>
  {
    if t != [] && (t[0] == '+' || t[0] == '-') then
      var digits := t[1..];
      if digits != [] && AllDigits(digits) then
        var magnitude: int := DigitsValue(digits);
        Some(if t[0] == '-' then -magnitude else magnitude)
      else None
    else if t != [] && AllDigits(t) then Some(DigitsValue(t))
    else None
  }

  /** Python's `int(s)`, which ignores the whitespace it skips around the number. */
  function PyInt(s: string): Option<int>
  {
    ParseDecimal(Strip(IntSpaces, s))
  }

  /** The decimal digits of `n`, without leading zeros. */
  function NatDigits(n: nat): (r: string)
    ensures r != [] && AllDigits(r)
  {
    var d := ['0' + ((n % 10) as char)];
    if n < 10 then d else NatDigits(n / 10) + d
  }

  /** `str(n)`: the decimal rendering of an integer. */
  function IntString(n: int): (r: string)
    ensures r != []
  {
    if n < 0 then "-" + NatDigits(-n) else NatDigits(n)
  }

  lemma {:induction false} NatDigitsValue(n: nat)
    ensures DigitsValue(NatDigits(n)) == n
  {
    var s := NatDigits(n);
    if n >= 10 {
      NatDigitsValue(n / 10);
      assert s[..|s| - 1] == NatDigits(n / 10);
    }
  }

  /** A string whose two ends are not blank is left alone. */
  lemma StripTight(b: Blanks, s: string)
    requires s != [] && !IsBlank(b, s[0]) && !IsBlank(b, s[|s| - 1])
    ensures Strip(b, s) == s
  {
  }

  /** Stripping is idempotent. */
  lemma StripTwice(b: Blanks, s: string)
    ensures Strip(b, Strip(b, s)) == Strip(b, s)
  {
    var t := Strip(b, s);
    if t != [] { StripTight(b, t); }
  }

  /** Text that `str.strip()` leaves alone is also left alone by the narrower `int()` trimming. */
  lemma StrippedIsIntTight(s: string)
    ensures Strip(IntSpaces, Strip(StrSpaces, s)) == Strip(StrSpaces, s)
  {
    var t := Strip(StrSpaces, s);
    if t != [] { StripTight(IntSpaces, t); }
  }

  /** Stripping `pre + core + post` with blank `pre` and `post` yields `core`. */
  lemma {:induction false} StripPadded(b: Blanks, pre: string, core: string, post: string)
    requires AllBlank(b, pre) && AllBlank(b, post)
    requires core != [] && !IsBlank(b, core[0]) && !IsBlank(b, core[|core| - 1])
    ensures Strip(b, pre + core + post) == core
  {
    var s := pre + core + post;
    assert s == pre + (core + post);
    assert TrimStart(b, s) == core + post by { TrimStartPadded(b, pre, core + post); }
    assert TrimEnd(b, core + post) == core by { TrimEndPadded(b, core, post); }
  }

  lemma {:induction false} TrimStartPadded(b: Blanks, pre: string, rest: string)
    requires AllBlank(b, pre)
    requires rest != [] && !IsBlank(b, rest[0])
    ensures TrimStart(b, pre + rest) == rest
  {
    if pre != [] {
      assert (pre + rest)[1..] == pre[1..] + rest;
      TrimStartPadded(b, pre[1..], rest);
    }
  }

  lemma {:induction false} TrimEndPadded(b: Blanks, rest: string, post: string)
    requires AllBlank(b, post)
    requires rest != [] && !IsBlank(b, rest[|rest| - 1])
    ensures TrimEnd(b, rest + post) == rest
  {
    if post != [] {
      var s := rest + post;
      assert s[..|s| - 1] == rest + post[..|post| - 1];
      TrimEndPadded(b, rest, post[..|post| - 1]);
    } else {
      assert rest + post == rest;
    }
  }

  /** Parsing the decimal rendering of `n` gives back `n`. */
  lemma ParseDecimalRoundTrip(n: int)
    ensures ParseDecimal(IntString(n)) == Some(n)
  {
    var core := IntString(n);
    if n < 0 {
      NatDigitsValue(-n);
      assert core[1..] == NatDigits(-n);
    } else {
      NatDigitsValue(n);
    }
  }

  /** `int(str(n)) == n`, whatever whitespace `int()` skips surrounds the rendering. */
  lemma PyIntRoundTrip(pre: string, n: int, post: string)
    requires AllBlank(IntSpaces, pre) && AllBlank(IntSpaces, post)
    ensures PyInt(pre + IntString(n) + post) == Some(n)
  {
    var core := IntString(n);
    assert core[0] == '-' || IsDigit(core[0]);
    assert IsDigit(core[|core| - 1]);
    StripPadded(IntSpaces, pre, core, post);
    ParseDecimalRoundTrip(n);
  }

  /** `int(str(n)) == n` with no padding. */
  lemma PyIntString(n: int)
    ensures PyInt(IntString(n)) == Some(n)
  {
    var s := IntString(n);
    assert [] + s + [] == s;
    PyIntRoundTrip([], n, []);
  }

  /** `int(str(n)) == n` for a natural number. */
  lemma PyIntNatDigits(n: nat)
    ensures PyInt(NatDigits(n)) == Some(n)
  {
    assert IntString(n) == NatDigits(n);
    PyIntString(n);
  }

  /**
   * Text that carries a character that is neither a digit, a sign nor
   * whitespace `int()` skips is rejected; this includes the separators
   * U+001C to U+001F, which `str.isspace()` accepts.
   */
  lemma PyIntRejects(s: string, k: nat)
    requires k < |s| && !IsDigit(s[k]) && !IsBlank(IntSpaces, s[k]) && s[k] != '+' && s[k] != '-'
    ensures PyInt(s) == None
  {
    var t := Strip(IntSpaces, s);
    var i, j := StripSlice(IntSpaces, s);
    assert i <= k by {
      assert forall m :: 0 <= m < i ==> s[..i][m] == s[m];
    }
    assert k < j by {
      assert forall m :: j <= m < |s| ==> s[j..][m - j] == s[m];
    }
    assert t[k - i] == s[k];
    assert !AllDigits(t);
    if k - i > 0 {
      assert t[1..][k - i - 1] == s[k];
    }
  }
}
