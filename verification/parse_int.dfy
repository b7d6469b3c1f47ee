/**
 JavaScript's global `parseInt(string, radix)` for the radixes the page uses.

 The algorithm: skip leading whitespace, take an optional sign, for radix 16
 drop an optional "0x"/"0X" prefix, then read the longest prefix of digits
 valid in the radix; no digit at all gives NaN (here `None`). Whatever
 follows the digits is ignored. Results are unbounded integers: a
 double-precision `parseInt` rounds only values beyond 2^53.
 */
module JsParseInt {
  import opened Wrappers
  import Text

  /** The digit value of `c` in any radix up to 36, letters in either case. */
  function DigitValue(c: char): Option<nat> {
    if '0' <= c <= '9' then Some(c as int - '0' as int)
    else if 'a' <= c <= 'z' then Some(c as int - 'a' as int + 10)
    else if 'A' <= c <= 'Z' then Some(c as int - 'A' as int + 10)
    else None
  }

  predicate IsDigit(c: char, radix: nat) {
    DigitValue(c).Some? && DigitValue(c).value < radix
  }

  /** The longest prefix of `s` made of digits of `radix`. */
  function DigitPrefix(s: string, radix: nat): (r: string)
    ensures |r| <= |s| && r == s[..|r|]
    ensures forall i :: 0 <= i < |r| ==> IsDigit(r[i], radix)
    ensures |r| == |s| || !IsDigit(s[|r|], radix)
  {
    if |s| > 0 && IsDigit(s[0], radix) then [s[0]] + DigitPrefix(s[1..], radix) else []
  }

  /** The number a digit string denotes, most significant digit first. */
  function DigitsValue(d: string, radix: nat): nat {
    if d == [] then 0
    else DigitsValue(d[..|d| - 1], radix) * radix + DigitValue(d[|d| - 1]).GetOr(0)
  }

  predicate HasHexPrefix(s: string) {
    |s| >= 2 && s[0] == '0' && (s[1] == 'x' || s[1] == 'X')
  }

  /** `parseInt(s, radix)`; `None` is NaN. */
  function ParseInt(s: string, radix: nat): Option<int>
    requires 2 <= radix <= 36
  {
    ParseSigned(Text.TrimStart(s), radix)
  }

  /** An optional sign, then the unsigned part. */
  function ParseSigned(t: string, radix: nat): Option<int>
    requires 2 <= radix <= 36
  {
    if |t| > 0 && t[0] == '-' then
      match ParseUnsigned(t[1..], radix)
      case Some(v) => Some(-v)
      case None => None
    else if |t| > 0 && t[0] == '+' then ParseUnsigned(t[1..], radix)
    else ParseUnsigned(t, radix)
  }

  /** For radix 16 an optional "0x"/"0X", then the longest run of digits. */
  function ParseUnsigned(u: string, radix: nat): Option<int>
    requires 2 <= radix <= 36
  {
    var body := if radix == 16 && HasHexPrefix(u) then u[2..] else u;
    var digits := DigitPrefix(body, radix);
    if digits == [] then None else Some(DigitsValue(digits, radix))
  }

  /** The lower-case digit character for `k`. */
  function DigitChar(k: nat): (c: char)
    requires k < 36
    ensures DigitValue(c) == Some(k)
  {
    if k < 10 then (k + '0' as int) as char else (k - 10 + 'a' as int) as char
  }

  lemma DivMod(n: nat, radix: nat)
    requires 2 <= radix
    ensures n == (n / radix) * radix + n % radix
    ensures n % radix < radix
    ensures n >= radix ==> 0 < n / radix < n
  {
  }

  /** `n` written in `radix` without leading zeros, as `Number.prototype.toString(radix)` does. */
  function ToDigits(n: nat, radix: nat): (r: string)
    requires 2 <= radix <= 36
    ensures r != []
    ensures forall i :: 0 <= i < |r| ==> IsDigit(r[i], radix)
    decreases n
  {
    if n < radix then [DigitChar(n)]
    else
      DivMod(n, radix);
      var d := ToDigits(n / radix, radix);
      var c := DigitChar(n % radix);
      assert IsDigit(c, radix);
      d + [c]
  }

  /** Appending a digit shifts the value up by one place. */
  lemma DigitsValueSnoc(p: string, c: char, radix: nat)
    ensures DigitsValue(p + [c], radix) == DigitsValue(p, radix) * radix + DigitValue(c).GetOr(0)
  {
    assert (p + [c])[..|p|] == p;
  }

  /** Reading back the digits of `n` gives `n`. */
  lemma {:induction false} DigitsValueOfToDigits(n: nat, radix: nat)
    requires 2 <= radix <= 36
    ensures DigitsValue(ToDigits(n, radix), radix) == n
    decreases n
  {
    if n < radix {
      DigitsValueSnoc([], DigitChar(n), radix);
      assert [] + [DigitChar(n)] == [DigitChar(n)];
    } else {
      DigitsValueOfToDigits(n / radix, radix);
      DigitsValueStep(n, radix);
    }
  }

  /** One step of the round trip: the last digit of `n` is `n % radix`. */
  lemma DigitsValueStep(n: nat, radix: nat)
    requires 2 <= radix <= 36 && n >= radix
    requires DigitsValue(ToDigits(n / radix, radix), radix) == n / radix
    ensures DigitsValue(ToDigits(n, radix), radix) == n
  {
    var q, m := n / radix, n % radix;
    DivMod(n, radix);
    var dq, c := ToDigits(q, radix), DigitChar(m);
    assert ToDigits(n, radix) == dq + [c];
    DigitsValueSnoc(dq, c, radix);
    assert DigitValue(c).GetOr(0) == m;
  }

  /** A string that starts with a digit is not trimmed and has no sign. */
  lemma ParseStartingWithDigit(s: string, radix: nat)
    requires 2 <= radix <= 36
    requires s != [] && '0' <= s[0] <= '9'
    ensures ParseInt(s, radix) == ParseUnsigned(s, radix)
  {
    assert !Text.IsWhitespace(s[0]);
    assert Text.SkipWhitespace(s, 0) == 0;
    assert Text.TrimStart(s) == s;
  }

  /** The digit scan stops exactly where a run of digits ends. */
  lemma {:induction false} DigitPrefixOfDigitsThenJunk(d: string, junk: string, radix: nat)
    requires forall i :: 0 <= i < |d| ==> IsDigit(d[i], radix)
    requires junk == [] || !IsDigit(junk[0], radix)
    ensures DigitPrefix(d + junk, radix) == d
  {
    if d != [] {
      assert (d + junk)[1..] == d[1..] + junk;
      DigitPrefixOfDigitsThenJunk(d[1..], junk, radix);
      assert d == [d[0]] + d[1..];
    } else {
      assert d + junk == junk;
    }
  }

  /** `parseInt(s, 10)` of a run of decimal digits, in any spelling (leading
      zeros included), is the value of the run; whatever follows it is
      ignored when it does not start with another digit. */
  lemma DecimalDigitsRead(d: string, junk: string)
    requires d != [] && forall i :: 0 <= i < |d| ==> IsDigit(d[i], 10)
    requires junk == [] || !IsDigit(junk[0], 10)
    ensures ParseInt(d + junk, 10) == Some(DigitsValue(d, 10))
  {
    var s := d + junk;
    assert s[0] == d[0] && IsDigit(d[0], 10);
    ParseStartingWithDigit(s, 10);
    DigitPrefixOfDigitsThenJunk(d, junk, 10);
  }

  /** `parseInt(s, 16)` reads any run of hexadecimal digits, in either case and
      with any leading zeros, behind either spelling of the "0x" prefix. */
  lemma HexDigitsRead(x: char, d: string, junk: string)
    requires x == 'x' || x == 'X'
    requires d != [] && forall i :: 0 <= i < |d| ==> IsDigit(d[i], 16)
    requires junk == [] || !IsDigit(junk[0], 16)
    ensures ParseInt(['0', x] + d + junk, 16) == Some(DigitsValue(d, 16))
  {
    var rest := d + junk;
    var s := ['0', x] + rest;
    assert ['0', x] + d + junk == s;
    ParseStartingWithDigit(s, 16);
    HexPrefixSkipped(x, rest);
    DigitPrefixOfDigitsThenJunk(d, junk, 16);
  }

  /** `parseInt` inverts `toString` in decimal, and ignores whatever follows
      the digits when it does not start with another digit. */
  lemma DecimalRoundTrip(n: nat, junk: string)
    requires junk == [] || !IsDigit(junk[0], 10)
    ensures ParseInt(ToDigits(n, 10) + junk, 10) == Some(n)
  {
    DecimalDigitsRead(ToDigits(n, 10), junk);
    DigitsValueOfToDigits(n, 10);
  }

  /** `parseInt(s, 16)` reads hexadecimal digits behind either spelling of
      the "0x" prefix, and ignores whatever follows them. */
  lemma HexRoundTrip(n: nat, x: char, junk: string)
    requires x == 'x' || x == 'X'
    requires junk == [] || !IsDigit(junk[0], 16)
    ensures ParseInt(['0', x] + ToDigits(n, 16) + junk, 16) == Some(n)
  {
    HexDigitsRead(x, ToDigits(n, 16), junk);
    DigitsValueOfToDigits(n, 16);
  }

  /** For radix 16 the "0x" or "0X" prefix is skipped before the digits. */
  lemma HexPrefixSkipped(x: char, rest: string)
    requires x == 'x' || x == 'X'
    ensures ParseUnsigned(['0', x] + rest, 16) ==
      (var d := DigitPrefix(rest, 16); if d == [] then None else Some(DigitsValue(d, 16)))
  {
    var s := ['0', x] + rest;
    assert HasHexPrefix(s);
    assert s[2..] == rest;
  }
}
