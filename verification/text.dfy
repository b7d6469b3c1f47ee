/**
 String helpers with the JavaScript semantics the page relies on: truthiness
 of an optional string, `trim()`, ASCII `toLowerCase()` and `includes()`.
 */
module Text {
  import opened Wrappers

  /** JavaScript truthiness of a `string | null`: present and non-empty. */
  predicate Truthy(s: Option<string>) {
    s.Some? && s.value != ""
  }

  /** The characters ECMAScript skips in `trim()` and at the start of
      `parseInt`: WhiteSpace (TAB, VT, FF, ZWNBSP and every Zs space
      separator) and LineTerminator (LF, CR, LS, PS). */
  predicate IsWhitespace(c: char) {
    || c == '\t' || c == '\U{000B}' || c == '\U{000C}' || c == ' '
    || c == '\U{00A0}' || c == '\U{FEFF}' || c == '\U{1680}'
    || ('\U{2000}' <= c <= '\U{200A}')
    || c == '\U{202F}' || c == '\U{205F}' || c == '\U{3000}'
    || c == '\n' || c == '\r' || c == '\U{2028}' || c == '\U{2029}'
  }

  ghost predicate AllWhitespace(s: string) {
    forall i :: 0 <= i < |s| ==> IsWhitespace(s[i])
  }

  /** The index of the first non-whitespace character of `s` at or after `i`
      (`|s|` when there is none). */
  function SkipWhitespace(s: string, i: nat): (r: nat)
    requires i <= |s|
    ensures i <= r <= |s|
    ensures forall j :: i <= j < r ==> IsWhitespace(s[j])
    ensures r == |s| || !IsWhitespace(s[r])
    decreases |s| - i
  {
    if i < |s| && IsWhitespace(s[i]) then SkipWhitespace(s, i + 1) else i
  }

  /** The index just past the last non-whitespace character of `s` before
      `i` (0 when there is none). */
  function SkipWhitespaceBack(s: string, i: nat): (r: nat)
    requires i <= |s|
    ensures r <= i
    ensures forall j :: r <= j < i ==> IsWhitespace(s[j])
    ensures r == 0 || !IsWhitespace(s[r - 1])
  {
    if i > 0 && IsWhitespace(s[i - 1]) then SkipWhitespaceBack(s, i - 1) else i
  }

  /** Drops the leading whitespace. */
  function TrimStart(s: string): string {
    s[SkipWhitespace(s, 0)..]
  }

  /** Drops the trailing whitespace. */
  function TrimEnd(s: string): string {
    s[..SkipWhitespaceBack(s, |s|)]
  }

  /** `String.prototype.trim`. */
  function Trim(s: string): string {
    TrimEnd(TrimStart(s))
  }

  /** `s` is `t` with whitespace `s[..a]` in front and `s[b..]` behind. */
  ghost predicate PaddedAt(s: string, t: string, a: int, b: int) {
    0 <= a <= b <= |s| && s[a..b] == t && AllWhitespace(s[..a]) && AllWhitespace(s[b..])
  }

  /** `Trim(s) == t` for a `t` with no whitespace at either end holds
      exactly when `s` is `t` padded with whitespace on both sides. */
  lemma TrimIsPadding(s: string, t: string)
    requires t != [] && !IsWhitespace(t[0]) && !IsWhitespace(t[|t| - 1])
    ensures Trim(s) == t <==> exists a, b :: PaddedAt(s, t, a, b)
  {
    if Trim(s) == t {
      var a, b := TrimFindsPadding(s, t);
    }
    if exists a, b :: PaddedAt(s, t, a, b) {
      var a, b :| PaddedAt(s, t, a, b);
      TrimOfPadded(s, t, a, b);
    }
  }

  lemma TrimFindsPadding(s: string, t: string) returns (a: int, b: int)
    requires Trim(s) == t
    ensures PaddedAt(s, t, a, b)
  {
    var u := TrimStart(s);
    a := |s| - |u|;
    b := a + |t|;
    assert TrimEnd(u) == t;
    assert t == u[..|t|];
    assert u == s[a..];
    assert s[a..b] == t;
    assert AllWhitespace(s[..a]);
    assert AllWhitespace(u[|t|..]);
    assert s[b..] == u[|t|..];
  }

  lemma TrimOfPadded(s: string, t: string, a: int, b: int)
    requires t != [] && !IsWhitespace(t[0]) && !IsWhitespace(t[|t| - 1])
    requires PaddedAt(s, t, a, b)
    ensures Trim(s) == t
  {
    var n := |t|;
    assert b == a + n;
    assert s[a] == t[0];
    TrimStartOfPadded(s, a);
    var u := s[a..];
    assert TrimStart(s) == u;
    assert u[n - 1] == t[n - 1];
    assert u[n..] == s[b..];
    TrimEndOfPadded(u, n);
    assert u[..n] == t;
  }

  /** Trimming the front of `s` stops exactly at `a` when `s[..a]` is
      whitespace and `s[a]` is not. */
  lemma {:induction false} TrimStartOfPadded(s: string, a: nat)
    requires a < |s| && AllWhitespace(s[..a]) && !IsWhitespace(s[a])
    ensures TrimStart(s) == s[a..]
  {
    if a > 0 {
      assert IsWhitespace(s[..a][0]);
      assert s[1..][..a - 1] == s[1..a];
      TrimStartOfPadded(s[1..], a - 1);
      assert s[1..][a - 1..] == s[a..];
    }
  }

  /** Trimming the back of `s` stops exactly at `b` when `s[b..]` is
      whitespace and `s[b - 1]` is not. */
  lemma {:induction false} TrimEndOfPadded(s: string, b: nat)
    requires 0 < b <= |s| && AllWhitespace(s[b..]) && !IsWhitespace(s[b - 1])
    ensures TrimEnd(s) == s[..b]
  {
    if b < |s| {
      assert IsWhitespace(s[b..][|s| - 1 - b]);
      var s' := s[..|s| - 1];
      assert s'[b..] == s[b..|s| - 1];
      TrimEndOfPadded(s', b);
      assert s'[..b] == s[..b];
    }
  }

  /** ASCII `toLowerCase`: 'A'..'Z' become 'a'..'z', everything else stays. */
  function LowerChar(c: char): char {
    if 'A' <= c <= 'Z' then (c as int + 32) as char else c
  }

  function ToLower(s: string): (r: string)
    ensures |r| == |s|
    ensures forall i :: 0 <= i < |s| ==> r[i] == LowerChar(s[i])
  {
    if s == [] then [] else [LowerChar(s[0])] + ToLower(s[1..])
  }

  /** `needle` occurs in `hay` starting at index `i`. */
  ghost predicate OccursAt(hay: string, needle: string, i: int) {
    0 <= i && i + |needle| <= |hay| && hay[i..i + |needle|] == needle
  }

  /** `String.prototype.includes`, by scanning start positions left to right. */
  predicate Contains(hay: string, needle: string)
    decreases |hay|
  {
    && |needle| <= |hay|
    && (hay[..|needle|] == needle || (|hay| > 0 && Contains(hay[1..], needle)))
  }

  /** The scan finds `needle` exactly when it occurs at some position. */
  lemma {:induction false} ContainsIff(hay: string, needle: string)
    ensures Contains(hay, needle) <==> exists i :: OccursAt(hay, needle, i)
    decreases |hay|
  {
    if |needle| <= |hay| && |hay| > 0 {
      ContainsIff(hay[1..], needle);
      if hay[..|needle|] == needle {
        assert hay[0..|needle|] == needle;
        assert OccursAt(hay, needle, 0);
      }
      if exists i :: OccursAt(hay[1..], needle, i) {
        var i :| OccursAt(hay[1..], needle, i);
        assert hay[1..][i..i + |needle|] == hay[i + 1..i + 1 + |needle|];
        assert OccursAt(hay, needle, i + 1);
      }
      if exists i :: OccursAt(hay, needle, i) {
        var i :| OccursAt(hay, needle, i);
        if i > 0 {
          assert hay[1..][i - 1..i - 1 + |needle|] == hay[i..i + |needle|];
          assert OccursAt(hay[1..], needle, i - 1);
        } else {
          assert hay[..|needle|] == hay[0..|needle|];
          assert Contains(hay, needle);
        }
      }
    } else if |needle| <= |hay| {
      assert hay[..|needle|] == needle;
      assert OccursAt(hay, needle, 0);
    } else {
      assert forall i :: !OccursAt(hay, needle, i);
    }
  }
}
