/**
 * The few PHP built-ins the services rely on: `min` and `max` on integers
 * (the day clamp, the request budget, the stop-check window and the
 * remaining quota),
 * and, over `seq<char>`, `strtolower`, `trim`, `explode`, `intval` and the
 * decimal rendering of an integer inside a string interpolation.
 */
module Php {

  import opened Wrappers

  function Min(a: int, b: int): (m: int)
    ensures m <= a && m <= b && (m == a || m == b)
  {
    if a <= b then a else b
  }

  function Max(a: int, b: int): (m: int)
    ensures m >= a && m >= b && (m == a || m == b)
  {
    if a >= b then a else b
  }

  predicate IsDigit(c: char) {
    '0' <= c <= '9'
  }

  function DigitValue(c: char): (d: nat)
    requires IsDigit(c)
    ensures d < 10
  {
    c as int - '0' as int
  }

  function DigitChar(d: nat): (c: char)
    requires d < 10
    ensures IsDigit(c) && DigitValue(c) == d
  {
    ('0' as int + d) as char
  }

  /** `strtolower` (ASCII letters only, as PHP 8.2 and later do). */
  function ToLower(s: string): (r: string)
    ensures |r| == |s|
    ensures forall i :: 0 <= i < |s| ==> r[i] == (if 'A' <= s[i] <= 'Z' then (s[i] as int + 32) as char else s[i])
  {
    if s == [] then []
    else [if 'A' <= s[0] <= 'Z' then (s[0] as int + 32) as char else s[0]] + ToLower(s[1..])
  }

  /** The characters `trim` removes when given no character list. */
  const TrimDefault: set<char> := {' ', '\t', '\n', '\r', '\0', 11 as char}

  /** The characters PHP skips in front of a numeric string (space, \t, \n, \r, \v, \f). */
  const NumericSpace: set<char> := {' ', '\t', '\n', '\r', 11 as char, 12 as char}

  function TrimLeft(s: string, cs: set<char>): (r: string)
    ensures |r| <= |s| && forall i :: 0 <= i < |r| ==> r[i] == s[|s| - |r| + i]
    ensures r != [] ==> r[0] !in cs
    ensures forall i :: 0 <= i < |s| - |r| ==> s[i] in cs
  {
    if s != [] && s[0] in cs then TrimLeft(s[1..], cs) else s
  }

  function TrimRight(s: string, cs: set<char>): (r: string)
    ensures |r| <= |s| && forall i :: 0 <= i < |r| ==> r[i] == s[i]
    ensures r != [] ==> r[|r| - 1] !in cs
    ensures forall i :: |r| <= i < |s| ==> s[i] in cs
  {
    if s != [] && s[|s| - 1] in cs then TrimRight(s[..|s| - 1], cs) else s
  }

  /** The number of characters of `cs` at the front of `s`. */
  function LeadingIn(s: string, cs: set<char>): (n: nat)
    ensures n <= |s|
    ensures forall i :: 0 <= i < n ==> s[i] in cs
    ensures n < |s| ==> s[n] !in cs
  {
    if s != [] && s[0] in cs then 1 + LeadingIn(s[1..], cs) else 0
  }

  /**
   * `trim($s, $chars)`: the middle of `s` that is left once the characters
   * of `cs` are stripped from both ends. It starts after the leading run of
   * `cs` characters, everything after it is in `cs`, and it neither starts
   * nor ends with one (so it is empty exactly when all of `s` is in `cs`).
   */
  function Trim(s: string, cs: set<char>): (r: string)
    ensures LeadingIn(s, cs) + |r| <= |s|
    ensures forall i :: 0 <= i < |r| ==> r[i] == s[LeadingIn(s, cs) + i]
    ensures forall i :: LeadingIn(s, cs) + |r| <= i < |s| ==> s[i] in cs
    ensures r != [] ==> r[0] !in cs && r[|r| - 1] !in cs
  {
    var a := LeadingIn(s, cs);
    var l := s[a..];
    var r := TrimRight(l, cs);
    assert forall i :: a + |r| <= i < |s| ==> s[i] == l[i - a];
    r
  }

  /** Index of the first occurrence of `c` in `s`, if any (`strpos`). */
  function IndexOf(s: string, c: char): (r: Option<nat>)
    ensures r.None? <==> c !in s
    ensures r.Some? ==> r.value < |s| && s[r.value] == c && c !in s[..r.value]
  {
    if s == [] then None
    else if s[0] == c then Some(0)
    else match IndexOf(s[1..], c)
      case None => None
      case Some(i) => assert s[1..][..i] == s[1..i + 1]; Some(i + 1)
  }

  /** `implode` with a one-character separator: the pieces with `sep` between each two. */
  function Join(sep: char, pieces: seq<string>): string {
    if pieces == [] then ""
    else if |pieces| == 1 then pieces[0]
    else pieces[0] + [sep] + Join(sep, pieces[1..])
  }

  /**
   * `explode($sep, $s)` for a one-character separator: the pieces between
   * the occurrences of `sep`, which joined by `sep` give `s` back.
   */
  function Explode(sep: char, s: string): (pieces: seq<string>)
    ensures |pieces| >= 1
    ensures forall i :: 0 <= i < |pieces| ==> sep !in pieces[i]
    ensures Join(sep, pieces) == s
    ensures sep in s ==> |pieces| >= 2
    decreases |s|
  {
    match IndexOf(s, sep)
    case None => [s]
    case Some(i) =>
      var rest := Explode(sep, s[i + 1..]);
      var pieces := [s[..i]] + rest;
      assert pieces[1..] == rest;
      assert s == s[..i] + [sep] + s[i + 1..];
      pieces
  }

  /** Length of the run of digits at the front of `s`. */
  function DigitRun(s: string): (n: nat)
    ensures n <= |s|
    ensures forall i :: 0 <= i < n ==> IsDigit(s[i])
    ensures n < |s| ==> !IsDigit(s[n])
  {
    if s != [] && IsDigit(s[0]) then 1 + DigitRun(s[1..]) else 0
  }

  /** The number a string of decimal digits denotes. */
  function DigitsValue(ds: string): nat
    requires forall i :: 0 <= i < |ds| ==> IsDigit(ds[i])
  {
    if ds == [] then 0 else DigitsValue(ds[..|ds| - 1]) * 10 + DigitValue(ds[|ds| - 1])
  }

  /**
   * The magnitude of the leading numeric part of `s` after its sign,
   * following PHP's numeric-string grammar: digits, an optional fraction
   * and an optional exponent, truncated toward zero. The value is the exact
   * decimal one, not the nearest double.
   */
  function UnsignedPrefixValue(t: string): nat {
    var n := DigitRun(t);
    var rest := t[n..];
    if rest != [] && rest[0] == '.' then
      var frac := rest[1..];
      var f := DigitRun(frac);
      if n + f == 0 then 0
      else
        var ds := t[..n] + frac[..f];
        assert forall i :: 0 <= i < |ds| ==> IsDigit(ds[i]) by {
          forall i | 0 <= i < |ds| ensures IsDigit(ds[i]) {
            if i >= n { assert ds[i] == frac[i - n]; }
          }
        }
        Scale(DigitsValue(ds), f, ExponentPart(frac[f..]))
    else if n == 0 then 0
    else Scale(DigitsValue(t[..n]), 0, ExponentPart(rest))
  }

  /** `mantissa * 10^(exponent - fractionDigits)`, truncated toward zero. */
  function Scale(mantissa: nat, fractionDigits: nat, exponent: int): nat {
    if exponent >= fractionDigits then ShiftUp(mantissa, exponent - fractionDigits)
    else ShiftDown(mantissa, fractionDigits - exponent)
  }

  /** `m * 10^k`. */
  function ShiftUp(m: nat, k: nat): nat
    decreases k
  {
    if k == 0 then m else ShiftUp(10 * m, k - 1)
  }

  /** `m / 10^k`, rounded down. */
  function ShiftDown(m: nat, k: nat): nat
    decreases k
  {
    if k == 0 then m else ShiftDown(m / 10, k - 1)
  }

  /** An exponent `e[+-]digits` at the front of `t`, or 0 when there is none. */
  function ExponentPart(t: string): int {
    if t == [] || (t[0] != 'e' && t[0] != 'E') then 0
    else
      var rest := t[1..];
      var neg := rest != [] && rest[0] == '-';
      var signed := rest != [] && (rest[0] == '-' || rest[0] == '+');
      var digits := if signed then rest[1..] else rest;
      var k := DigitRun(digits);
      if k == 0 then 0
      else if neg then -(DigitsValue(digits[..k]) as int) else DigitsValue(digits[..k])
  }

  /** `intval($s)` / `(int) $s`: a leading numeric prefix, 0 when there is none. */
  function IntVal(s: string): (r: int)
    ensures '-' !in s ==> r >= 0
  {
    SignedPrefixValue(TrimLeft(s, NumericSpace))
  }

  /** The numeric prefix of a string that starts after the blanks: an optional sign, then the unsigned part. */
  function SignedPrefixValue(t: string): (r: int)
    ensures t == [] || t[0] != '-' ==> r >= 0
  {
    if t != [] && t[0] == '-' then -(UnsignedPrefixValue(t[1..]) as int)
    else if t != [] && t[0] == '+' then UnsignedPrefixValue(t[1..])
    else UnsignedPrefixValue(t)
  }

  /** Left trimming drops exactly a leading run of `cs` characters. */
  lemma {:induction false} TrimLeftRun(w: string, t: string, cs: set<char>)
    requires forall i :: 0 <= i < |w| ==> w[i] in cs
    requires t == [] || t[0] !in cs
    ensures TrimLeft(w + t, cs) == t
  {
    if w == [] {
      assert w + t == t;
    } else {
      assert (w + t)[1..] == w[1..] + t;
      TrimLeftRun(w[1..], t, cs);
    }
  }

  /** The run of digits at the front of `ds + rest` is `ds` when `rest` does not go on with a digit. */
  lemma {:induction false} DigitRunOf(ds: string, rest: string)
    requires forall i :: 0 <= i < |ds| ==> IsDigit(ds[i])
    requires rest == [] || !IsDigit(rest[0])
    ensures DigitRun(ds + rest) == |ds|
  {
    if ds == [] {
      assert ds + rest == rest;
    } else {
      assert (ds + rest)[1..] == ds[1..] + rest;
      DigitRunOf(ds[1..], rest);
    }
  }

  /** A stop character after a numeric prefix: nothing that would continue it as digits, a fraction or an exponent. */
  predicate EndsNumber(rest: string) {
    rest == [] || (!IsDigit(rest[0]) && rest[0] != '.' && rest[0] != 'e' && rest[0] != 'E')
  }

  /** The unsigned numeric prefix of `ds + rest` is the number `ds` spells. */
  lemma UnsignedPrefixOf(ds: string, rest: string)
    requires ds != [] && forall i :: 0 <= i < |ds| ==> IsDigit(ds[i])
    requires EndsNumber(rest)
    ensures UnsignedPrefixValue(ds + rest) == DigitsValue(ds)
  {
    var t := ds + rest;
    DigitRunOf(ds, rest);
    assert t[|ds|..] == rest && t[..|ds|] == ds;
    assert ExponentPart(rest) == 0;
  }

  /**
   * `intval` of blanks, an optional sign, a run of digits and anything
   * that does not continue the number is the signed value of the digits.
   */
  lemma IntValOfPrefix(w: string, sign: string, ds: string, rest: string)
    requires forall i :: 0 <= i < |w| ==> w[i] in NumericSpace
    requires sign == "" || sign == "+" || sign == "-"
    requires ds != [] && forall i :: 0 <= i < |ds| ==> IsDigit(ds[i])
    requires EndsNumber(rest)
    ensures IntVal(w + (sign + (ds + rest))) == if sign == "-" then -(DigitsValue(ds) as int) else DigitsValue(ds)
  {
    StartsNumber(sign, ds, rest);
    IntValAfterBlanks(w, sign + (ds + rest));
    UnsignedPrefixOf(ds, rest);
    if sign == "-" {
      SignedMinus(ds + rest);
    } else if sign == "+" {
      SignedPlus(ds + rest);
    } else {
      SignedPlain(ds + rest);
    }
  }

  /** A sign or a digit is not a blank. */
  lemma StartsNumber(sign: string, ds: string, rest: string)
    requires sign == "" || sign == "+" || sign == "-"
    requires ds != [] && IsDigit(ds[0])
    ensures (sign + (ds + rest))[0] !in NumericSpace
  {
    if sign == "" {
      assert (sign + (ds + rest))[0] == ds[0];
    }
  }

  /** Blanks in front of a string that does not start with one are skipped. */
  lemma IntValAfterBlanks(w: string, t: string)
    requires forall i :: 0 <= i < |w| ==> w[i] in NumericSpace
    requires t == [] || t[0] !in NumericSpace
    ensures IntVal(w + t) == SignedPrefixValue(t)
  {
    TrimLeftRun(w, t, NumericSpace);
  }

  /** A leading `-` negates the unsigned part. */
  lemma SignedMinus(u: string)
    ensures SignedPrefixValue("-" + u) == -(UnsignedPrefixValue(u) as int)
  {
    assert ("-" + u)[1..] == u;
  }

  /** A leading `+` is skipped. */
  lemma SignedPlus(u: string)
    ensures SignedPrefixValue("+" + u) == UnsignedPrefixValue(u)
  {
    assert ("+" + u)[1..] == u;
  }

  /** Without a sign the unsigned part is the value. */
  lemma SignedPlain(u: string)
    requires u != [] && IsDigit(u[0])
    ensures SignedPrefixValue("" + u) == UnsignedPrefixValue(u)
  {
    assert "" + u == u;
  }

  /** A non-negative integer in decimal, without leading zeros. */
  function NatToString(n: nat): (s: string)
    ensures |s| >= 1
    ensures forall i :: 0 <= i < |s| ==> IsDigit(s[i])
  {
    if n < 10 then [DigitChar(n)] else NatToString(n / 10) + [DigitChar(n % 10)]
  }

  /** An integer as PHP interpolates it into a string. */
  function IntToString(n: int): (s: string)
    ensures '_' !in s
  {
    if n < 0 then "-" + NatToString(-n) else NatToString(n)
  }

  /** Reads back what IntToString writes: an optional '-' followed by digits. */
  function ParseIntString(s: string): Option<int> {
    if s != [] && s[0] == '-' then
      if |s| >= 2 && forall i :: 1 <= i < |s| ==> IsDigit(s[i]) then Some(-(DigitsValue(s[1..]) as int)) else None
    else if s != [] && forall i :: 0 <= i < |s| ==> IsDigit(s[i]) then Some(DigitsValue(s))
    else None
  }

  lemma {:induction false} NatToStringRoundTrip(n: nat)
    ensures DigitsValue(NatToString(n)) == n
  {
    if n >= 10 {
      var s := NatToString(n / 10) + [DigitChar(n % 10)];
      assert s[..|s| - 1] == NatToString(n / 10);
      NatToStringRoundTrip(n / 10);
    }
  }

  /** Rendering an integer and reading it back gives the integer: IntToString is injective. */
  lemma IntToStringRoundTrip(n: int)
    ensures ParseIntString(IntToString(n)) == Some(n)
  {
    var s := IntToString(n);
    if n < 0 {
      var d := NatToString(-n);
      assert s == "-" + d;
      assert s[1..] == d;
      assert forall i :: 1 <= i < |s| ==> IsDigit(s[i]) by {
        forall i | 1 <= i < |s| ensures IsDigit(s[i]) { assert s[i] == d[i - 1]; }
      }
      NatToStringRoundTrip(-n);
    } else {
      assert IsDigit(s[0]);
      NatToStringRoundTrip(n);
    }
  }

  /** Index of the last occurrence of `c` in `s`, if any. */
  function LastIndexOf(s: string, c: char): (r: Option<nat>)
    ensures r.None? <==> c !in s
    ensures r.Some? ==> r.value < |s| && s[r.value] == c && c !in s[r.value + 1..]
  {
    if s == [] then None
    else if s[|s| - 1] == c then Some(|s| - 1)
    else
      var r := LastIndexOf(s[..|s| - 1], c);
      assert r.Some? ==> s[r.value + 1..] == s[..|s| - 1][r.value + 1..] + [s[|s| - 1]];
      assert r.None? ==> s == s[..|s| - 1] + [s[|s| - 1]];
      r
  }

}
