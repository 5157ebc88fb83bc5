/**
 * The string built-ins the core relies on: `trim`, `toLowerCase`,
 * `includes`, `startsWith`, and the decimal rendering and reading of numbers.
 * Whitespace is the ASCII set and case folding is ASCII only.
 */
module Text {

  /** The characters `String.prototype.trim` strips, restricted to ASCII. */
  predicate IsWhitespace(c: char) {
    c == ' ' || c == '\t' || c == '\n' || c == '\r' || c == '\U{000B}' || c == '\U{000C}'
  }

  /** True when `s` neither starts nor ends with whitespace. */
  predicate IsTrimmed(s: string) {
    s == [] || (!IsWhitespace(s[0]) && !IsWhitespace(s[|s| - 1]))
  }

  predicate IsBlank(s: string) {
    forall i :: 0 <= i < |s| ==> IsWhitespace(s[i])
  }

  /** Drops leading whitespace: the result is a suffix of `s` and only whitespace was dropped. */
  function TrimStart(s: string): (r: string)
    ensures |r| <= |s| && r == s[|s| - |r|..]
    ensures forall i :: 0 <= i < |s| - |r| ==> IsWhitespace(s[i])
    ensures r == [] || !IsWhitespace(r[0])
  {
    if s != [] && IsWhitespace(s[0]) then
      var r := TrimStart(s[1..]);
      assert forall i :: 1 <= i < |s| ==> s[i] == s[1..][i - 1];
      r
    else s
  }

  /** Drops trailing whitespace: the result is a prefix of `s` and only whitespace was dropped. */
  function TrimEnd(s: string): (r: string)
    ensures |r| <= |s| && r == s[..|r|]
    ensures forall i :: |r| <= i < |s| ==> IsWhitespace(s[i])
    ensures r == [] || !IsWhitespace(r[|r| - 1])
  {
    if s != [] && IsWhitespace(s[|s| - 1]) then TrimEnd(s[..|s| - 1]) else s
  }

  /** `s.trim()` */
  function Trim(s: string): (r: string)
    ensures IsTrimmed(r)
    ensures |r| <= |s|
    ensures IsTrimmed(s) ==> r == s
    ensures r == [] <==> IsBlank(s)
  {
    var t := TrimStart(s);
    var r := TrimEnd(t);
    assert r != [] ==> r[0] == t[0];
    assert r == [] ==> t == [];
    r
  }

  /** Trimming only drops characters: every character kept comes from `s`. */
  lemma TrimKeepsCharacters(s: string)
    ensures forall i :: 0 <= i < |Trim(s)| ==> Trim(s)[i] in s
  {
    var t := TrimStart(s);
    assert forall i :: 0 <= i < |t| ==> t[i] == s[|s| - |t| + i];
    assert forall i :: 0 <= i < |Trim(s)| ==> Trim(s)[i] == t[i];
  }

  lemma TrimIdempotent(s: string)
    ensures Trim(Trim(s)) == Trim(s)
  {
  }

  /** Dropping the leading whitespace of a blank prefix leaves the rest. */
  lemma {:induction false} TrimStartBlankPrefix(a: string, u: string)
    requires IsBlank(a)
    requires u == [] || !IsWhitespace(u[0])
    ensures TrimStart(a + u) == u
    decreases |a|
  {
    if a != [] {
      assert (a + u)[1..] == a[1..] + u;
      TrimStartBlankPrefix(a[1..], u);
    }
  }

  /** Dropping the trailing whitespace of a blank suffix leaves the rest. */
  lemma {:induction false} TrimEndBlankSuffix(u: string, b: string)
    requires IsBlank(b)
    requires u == [] || !IsWhitespace(u[|u| - 1])
    ensures TrimEnd(u + b) == u
    decreases |b|
  {
    if b != [] {
      assert (u + b)[..|u + b| - 1] == u + b[..|b| - 1];
      TrimEndBlankSuffix(u, b[..|b| - 1]);
    }
  }

  /** Trimming a word surrounded by whitespace gives the word back. */
  lemma TrimSurrounded(a: string, u: string, b: string)
    requires IsBlank(a) && IsBlank(b) && IsTrimmed(u)
    ensures Trim(a + u + b) == u
  {
    if u == [] {
      assert IsBlank(a + u + b);
    } else {
      assert a + u + b == a + (u + b);
      TrimStartBlankPrefix(a, u + b);
      TrimEndBlankSuffix(u, b);
    }
  }

  function ToLowerChar(c: char): (r: char)
    ensures !('A' <= r <= 'Z')
    ensures IsWhitespace(r) <==> IsWhitespace(c)
  {
    if 'A' <= c <= 'Z' then (c as int + 32) as char else c
  }

  /** `s.toLowerCase()`, ASCII letters only. */
  function ToLower(s: string): (r: string)
    ensures |r| == |s|
    ensures forall i :: 0 <= i < |s| ==> r[i] == ToLowerChar(s[i])
  {
    seq(|s|, i requires 0 <= i < |s| => ToLowerChar(s[i]))
  }

  predicate HasNoUpper(s: string) {
    forall i :: 0 <= i < |s| ==> !('A' <= s[i] <= 'Z')
  }

  lemma ToLowerResult(s: string)
    ensures HasNoUpper(ToLower(s))
    ensures HasNoUpper(s) ==> ToLower(s) == s
    ensures IsTrimmed(s) ==> IsTrimmed(ToLower(s))
  {
  }

  /** `s.startsWith(p)` */
  predicate StartsWith(s: string, p: string) {
    |p| <= |s| && s[..|p|] == p
  }

  /** `s.includes(q)`: `q` occurs somewhere in `s` (the empty string occurs everywhere). */
  predicate Contains(s: string, q: string)
    decreases |s|
  {
    StartsWith(s, q) || (s != [] && Contains(s[1..], q))
  }

  lemma {:induction false} ContainsAt(s: string, q: string, k: nat)
    requires k + |q| <= |s| && s[k..k + |q|] == q
    ensures Contains(s, q)
    decreases k
  {
    if k > 0 {
      assert s[1..][k - 1..k - 1 + |q|] == q;
      ContainsAt(s[1..], q, k - 1);
    }
  }

  /** A one-character search succeeds exactly when the character occurs. */
  lemma {:induction false} ContainsCharIn(s: string, c: char)
    ensures Contains(s, [c]) <==> c in s
    decreases |s|
  {
    if s != [] {
      ContainsCharIn(s[1..], c);
      assert s == [s[0]] + s[1..];
    }
  }

  predicate IsDigit(c: char) { '0' <= c <= '9' }

  predicate IsDigits(s: string) {
    forall i :: 0 <= i < |s| ==> IsDigit(s[i])
  }

  function DigitChar(d: nat): (c: char)
    requires d < 10
    ensures IsDigit(c) && c as int - '0' as int == d
  {
    ('0' as int + d) as char
  }

  /** The decimal rendering of a non-negative integer, as a template literal prints it. */
  function NatToString(n: nat): (r: string)
    ensures r != [] && IsDigits(r)
    ensures r[0] != '0' || n == 0
  {
    if n < 10 then [DigitChar(n)] else NatToString(n / 10) + [DigitChar(n % 10)]
  }

  /** The decimal rendering of any integer, with a leading `-` when negative. */
  function IntToString(n: int): (r: string)
    ensures r != []
    ensures n >= 0 ==> r == NatToString(n)
    ensures n < 0 ==> r[0] == '-'
  {
    if n < 0 then "-" + NatToString(-n) else NatToString(n)
  }

  /** The value of a run of decimal digits; the empty run reads as 0 (as `Number("")` does). */
  function DigitsValue(s: string): nat
    requires IsDigits(s)
  {
    if s == [] then 0 else DigitsValue(s[..|s| - 1]) * 10 + (s[|s| - 1] as int - '0' as int)
  }

  /** Reading back a rendered number gives the number. */
  lemma {:induction false} DigitsValueOfNatToString(n: nat)
    ensures DigitsValue(NatToString(n)) == n
  {
    if n >= 10 {
      var r := NatToString(n);
      assert r[..|r| - 1] == NatToString(n / 10);
      DigitsValueOfNatToString(n / 10);
    }
  }

  /** Distinct numbers render differently. */
  lemma {:induction false} NatToStringInjective(a: nat, b: nat)
    requires NatToString(a) == NatToString(b)
    ensures a == b
  {
    DigitsValueOfNatToString(a);
    DigitsValueOfNatToString(b);
  }

  lemma {:induction false} IntToStringInjective(a: int, b: int)
    requires IntToString(a) == IntToString(b)
    ensures a == b
  {
    var r := IntToString(a);
    if a < 0 && b < 0 {
      assert NatToString(-a) == r[1..] == NatToString(-b);
      NatToStringInjective(-a, -b);
    } else if a >= 0 && b >= 0 {
      NatToStringInjective(a, b);
    } else {
      assert false;
    }
  }

  /** A rendered number is digits and perhaps a leading `-`: never the letter `x`. */
  lemma IntToStringHasNoX(n: int)
    ensures 'x' !in IntToString(n)
  {
    var d := NatToString(if n < 0 then -n else n);
    assert forall i :: 0 <= i < |d| ==> IsDigit(d[i]);
    if n < 0 {
      assert forall i :: 0 <= i < |IntToString(n)| ==> IntToString(n)[i] == '-' || IntToString(n)[i] == d[i - 1];
    }
  }

  /** The position of the first `c` in `s`, or `|s|` when there is none. */
  function FirstIndexOf(s: string, c: char): (r: nat)
    ensures r <= |s|
    ensures r < |s| ==> s[r] == c
    ensures forall i :: 0 <= i < r ==> s[i] != c
  {
    if s == [] then 0
    else if s[0] == c then 0
    else
      var r := FirstIndexOf(s[1..], c);
      assert forall i :: 1 <= i <= r ==> s[i] == s[1..][i - 1];
      1 + r
  }

  /** The first separator after a part without one is the one right after that part. */
  lemma {:induction false} FirstIndexAfterPart(p: string, q: string, c: char)
    requires c !in p
    ensures FirstIndexOf(p + [c] + q, c) == |p|
    decreases |p|
  {
    if p != [] {
      assert (p + [c] + q)[1..] == p[1..] + [c] + q;
      assert p[0] in p;
      FirstIndexAfterPart(p[1..], q, c);
    }
  }

  /** Text joined around a separator that neither left part contains splits back uniquely. */
  lemma {:induction false} SplitAtSeparator(p1: string, q1: string, p2: string, q2: string, c: char)
    requires c !in p1 && c !in p2
    requires p1 + [c] + q1 == p2 + [c] + q2
    ensures p1 == p2 && q1 == q2
  {
    var s := p1 + [c] + q1;
    FirstIndexAfterPart(p1, q1, c);
    FirstIndexAfterPart(p2, q2, c);
    assert p1 == s[..|p1|] == p2;
    assert q1 == s[|p1| + 1..] == q2;
  }
}
