/**
 * The JavaScript string built-ins the application uses, on `string`
 * (`seq<char>`, one `char` per UTF-16 code unit): the whitespace class of
 * `\s` and `trim()`, `startsWith`, ASCII `toLowerCase`, the decimal
 * rendering of an integer (Number.prototype.toString, template literals)
 * and `parseFloat`.
 */
module Text {
  import opened Wrappers

  /** ECMAScript WhiteSpace and LineTerminator: the class `\s` and the characters `trim()` strips. */
  predicate IsWhitespace(c: char) {
    || c == '\t' || c == '\n' || c == '\U{B}' || c == '\U{C}' || c == '\r' || c == ' '
    || c == '\U{A0}' || c == '\U{1680}' || ('\U{2000}' <= c <= '\U{200A}')
    || c == '\U{2028}' || c == '\U{2029}' || c == '\U{202F}' || c == '\U{205F}'
    || c == '\U{3000}' || c == '\U{FEFF}'
  }

  predicate IsDigit(c: char) { '0' <= c <= '9' }

  predicate IsUpper(c: char) { 'A' <= c <= 'Z' }

  predicate IsAsciiLetter(c: char) { 'A' <= c <= 'Z' || 'a' <= c <= 'z' }

  predicate AllWhitespace(s: string) { forall i :: 0 <= i < |s| ==> IsWhitespace(s[i]) }

  predicate StartsWith(s: string, prefix: string) {
    |prefix| <= |s| && s[..|prefix|] == prefix
  }

  /** String.prototype.trimStart: s without its leading whitespace. */
  function TrimStart(s: string): (r: string)
    ensures |r| <= |s| && r == s[|s| - |r|..]
    ensures r == [] || !IsWhitespace(r[0])
  {
    if s != [] && IsWhitespace(s[0]) then TrimStart(s[1..]) else s
  }

  /** String.prototype.trimEnd: s without its trailing whitespace. */
  function TrimEnd(s: string): (r: string)
    ensures |r| <= |s| && r == s[..|r|]
    ensures r == [] || !IsWhitespace(r[|r| - 1])
  {
    if s != [] && IsWhitespace(s[|s| - 1]) then TrimEnd(s[..|s| - 1]) else s
  }

  /** String.prototype.trim: empty, or starting and ending with a non-whitespace character. */
  function Trim(s: string): (r: string)
    ensures |r| <= |s|
    ensures r == [] || (!IsWhitespace(r[0]) && !IsWhitespace(r[|r| - 1]))
  {
    TrimEnd(TrimStart(s))
  }

  /** What trimStart drops is whitespace. */
  lemma {:induction false} TrimStartDropsWhitespace(s: string)
    ensures AllWhitespace(s[..|s| - |TrimStart(s)|])
    decreases |s|
  {
    if s != [] && IsWhitespace(s[0]) {
      TrimStartDropsWhitespace(s[1..]);
      var r := TrimStart(s);
      assert s[..|s| - |r|] == [s[0]] + s[1..][..|s[1..]| - |r|];
    }
  }

  /** What trimEnd drops is whitespace. */
  lemma {:induction false} TrimEndDropsWhitespace(s: string)
    ensures AllWhitespace(s[|TrimEnd(s)|..])
    decreases |s|
  {
    if s != [] && IsWhitespace(s[|s| - 1]) {
      TrimEndDropsWhitespace(s[..|s| - 1]);
      var r := TrimEnd(s);
      assert s[|r|..] == s[..|s| - 1][|r|..] + [s[|s| - 1]];
    }
  }

  /** trim() keeps a contiguous part of s, so every character it returns occurs in s. */
  lemma TrimKeepsCharacters(s: string)
    ensures forall i :: 0 <= i < |Trim(s)| ==> Trim(s)[i] in s
  {
    var t := TrimStart(s);
    var r := TrimEnd(t);
    forall i | 0 <= i < |r| ensures r[i] in s {
      assert r[i] == t[i] == s[|s| - |t| + i];
    }
  }

  /** A string trims to nothing exactly when it is all whitespace. */
  lemma TrimEmptyIff(s: string)
    ensures Trim(s) == [] <==> AllWhitespace(s)
  {
    var t := TrimStart(s);
    TrimStartDropsWhitespace(s);
    TrimEndDropsWhitespace(t);
    if Trim(s) == [] {
      assert s == s[..|s| - |t|] + t;
      assert t[0..] == t;
    }
  }

  /** Trimming twice is trimming once. */
  lemma TrimIdempotent(s: string)
    ensures Trim(Trim(s)) == Trim(s)
  {
    var r := Trim(s);
    if r != [] {
      assert TrimStart(r) == r;
      assert TrimEnd(r) == r;
    }
  }

  /** Whitespace around a string does not change what trim() returns. */
  lemma TrimIgnoresPadding(pre: string, s: string, post: string)
    requires AllWhitespace(pre) && AllWhitespace(post)
    ensures Trim(pre + s + post) == Trim(s)
  {
    assert pre + s + post == pre + (s + post);
    TrimStartPadding(pre, s + post);
    var t := TrimStart(s);
    TrimStartAppend(s, post);
    if t == [] {
      TrimStartAllWhitespace(post);
      assert TrimStart(s + post) == [];
      assert Trim(s) == TrimEnd([]);
    } else {
      TrimEndPadding(t, post);
    }
  }

  lemma {:induction false} TrimStartPadding(pre: string, s: string)
    requires AllWhitespace(pre)
    ensures TrimStart(pre + s) == TrimStart(s)
    decreases |pre|
  {
    if pre != [] {
      assert (pre + s)[0] == pre[0];
      assert (pre + s)[1..] == pre[1..] + s;
      TrimStartPadding(pre[1..], s);
    } else {
      assert pre + s == s;
    }
  }

  lemma {:induction false} TrimStartAppend(s: string, post: string)
    ensures TrimStart(s) != [] ==> TrimStart(s + post) == TrimStart(s) + post
    ensures TrimStart(s) == [] ==> TrimStart(s + post) == TrimStart(post)
    decreases |s|
  {
    if s == [] {
      assert s + post == post;
    } else {
      assert (s + post)[0] == s[0];
      if IsWhitespace(s[0]) {
        assert (s + post)[1..] == s[1..] + post;
        TrimStartAppend(s[1..], post);
      }
    }
  }

  lemma {:induction false} TrimStartAllWhitespace(s: string)
    requires AllWhitespace(s)
    ensures TrimStart(s) == []
    decreases |s|
  {
    if s != [] {
      TrimStartAllWhitespace(s[1..]);
    }
  }

  lemma {:induction false} TrimEndPadding(t: string, post: string)
    requires AllWhitespace(post)
    ensures TrimEnd(t + post) == TrimEnd(t)
    decreases |post|
  {
    if post != [] {
      var p := post[..|post| - 1];
      assert (t + post)[|t + post| - 1] == post[|post| - 1];
      assert (t + post)[..|t + post| - 1] == t + p;
      TrimEndPadding(t, p);
    } else {
      assert t + post == t;
    }
  }

  /** A string that neither starts nor ends with whitespace is its own trim. */
  lemma TrimNoPadding(s: string)
    requires s == [] || (!IsWhitespace(s[0]) && !IsWhitespace(s[|s| - 1]))
    ensures Trim(s) == s
  {
    assert TrimStart(s) == s;
  }

  /** trim() never drops a character that is not whitespace. */
  lemma TrimKeepsNonWhitespace(s: string, i: nat)
    requires i < |s| && !IsWhitespace(s[i])
    ensures s[i] in Trim(s)
  {
    var t := TrimStart(s);
    TrimStartDropsWhitespace(s);
    var d := |s| - |t|;
    assert forall k :: 0 <= k < d ==> s[..d][k] == s[k];
    assert t[i - d] == s[i];
    var r := TrimEnd(t);
    TrimEndDropsWhitespace(t);
    assert forall k :: |r| <= k < |t| ==> t[|r|..][k - |r|] == t[k];
    assert r[i - d] == t[i - d];
  }

  /** The ASCII part of String.prototype.toLowerCase. */
  function LowerChar(c: char): (r: char)
    ensures IsUpper(c) ==> r as int == c as int + 32
    ensures !IsUpper(c) ==> r == c
  {
    if IsUpper(c) then (c as int + 32) as char else c
  }

  function ToLower(s: string): (r: string)
    ensures |r| == |s|
    ensures forall i :: 0 <= i < |s| ==> r[i] == LowerChar(s[i])
  {
    seq(|s|, i requires 0 <= i < |s| => LowerChar(s[i]))
  }

  // ---------------------------------------------------------------------
  // Decimal digits

  function DigitChar(d: nat): (c: char)
    requires d < 10
    ensures IsDigit(c) && c as int - '0' as int == d
  {
    ('0' as int + d) as char
  }

  predicate AllDigits(s: string) { forall i :: 0 <= i < |s| ==> IsDigit(s[i]) }

  /** The value of a string of decimal digits, read left to right. */
  function DigitsValue(s: string): nat
  {
    if s == [] then 0
    else
      var c := s[|s| - 1];
      10 * DigitsValue(s[..|s| - 1]) + (if IsDigit(c) then c as int - '0' as int else 0)
  }

  /** The shortest decimal rendering of a natural number. */
  function NatDigits(n: nat): (s: string)
    ensures |s| >= 1 && AllDigits(s)
    ensures DigitsValue(s) == n
  {
    if n < 10 then [DigitChar(n)]
    else
      var s := NatDigits(n / 10) + [DigitChar(n % 10)];
      assert s[..|s| - 1] == NatDigits(n / 10);
      s
  }

  /** The decimal rendering JavaScript gives an integer-valued number (`${n}`, n.toString()). */
  function IntToString(n: int): (s: string)
  {
    if n < 0 then "-" + NatDigits(-n) else NatDigits(n)
  }

  // ---------------------------------------------------------------------
  // parseFloat

  /** The number of leading decimal digits of s. */
  function DigitRun(s: string): (k: nat)
    ensures k <= |s|
  {
    if s != [] && IsDigit(s[0]) then 1 + DigitRun(s[1..]) else 0
  }

  /** The signed exponent part `e[+-]digits` at the start of s, if one is there. */
  function ExponentPart(s: string): Option<int>
  {
    if s == [] || (s[0] != 'e' && s[0] != 'E') then None
    else
      var t := s[1..];
      var neg := t != [] && t[0] == '-';
      var u := if t != [] && (t[0] == '-' || t[0] == '+') then t[1..] else t;
      var k := DigitRun(u);
      if k == 0 then None
      else Some(if neg then -(DigitsValue(u[..k]) as int) else DigitsValue(u[..k]))
  }

  /** m × 10^e, one power of ten at a time. */
  function Scale(m: real, e: int): real
    decreases if e >= 0 then e else -e
  {
    if e == 0 then m else if e > 0 then 10.0 * Scale(m, e - 1) else Scale(m, e + 1) / 10.0
  }

  /** The value of the fraction digits d, read as 0.d. */
  function FractionValue(d: string): real
  {
    if d == [] then 0.0
    else ((if IsDigit(d[0]) then d[0] as int - '0' as int else 0) as real + FractionValue(d[1..])) / 10.0
  }

  /**
   * The value of the longest prefix of an unsigned decimal literal
   * (digits, an optional fraction, an optional exponent) at the start of u;
   * None when u does not start with one.
   */
  function UnsignedDecimal(u: string): Option<real>
  {
    DecimalFrom(u, DigitRun(u))
  }

  /** The literal at the start of u, whose integer digits are u[..i]. */
  function DecimalFrom(u: string, i: nat): Option<real>
    requires i <= |u|
  {
    if i < |u| && u[i] == '.' then DottedFrom(u, i, DigitRun(u[i + 1..]))
    else if i == 0 then None
    else Some(WithExponent(DigitsValue(u[..i]) as real, u[i..]))
  }

  /** The literal at the start of u, with integer digits u[..i], a dot, and fraction digits u[i + 1..][..f]. */
  function DottedFrom(u: string, i: nat, f: nat): Option<real>
    requires i + 1 + f <= |u|
  {
    if i + f == 0 then None
    else Some(WithExponent(DigitsValue(u[..i]) as real + FractionValue(u[i + 1..][..f]), u[i + 1 + f..]))
  }

  /** A mantissa scaled by the exponent part at the start of rest, if rest starts with one. */
  function WithExponent(m: real, rest: string): real
  {
    match ExponentPart(rest)
    case None => m
    case Some(e) => Scale(m, e)
  }

  /**
   * parseFloat on the finite decimal forms: leading whitespace is skipped,
   * a sign is read, and the longest decimal-literal prefix is converted.
   * None stands for NaN (no literal at the start).
   */
  function ParseFloat(s: string): Option<real>
  {
    var t := TrimStart(s);
    if t != [] && (t[0] == '-' || t[0] == '+') then
      match UnsignedDecimal(t[1..])
      case None => None
      case Some(v) => Some(if t[0] == '-' then -v else v)
    else UnsignedDecimal(t)
  }

  /** The digit run of digits followed by a non-digit is exactly those digits. */
  lemma {:induction false} DigitRunOfDigitsThen(d: string, rest: string)
    requires AllDigits(d) && (rest == [] || !IsDigit(rest[0]))
    ensures DigitRun(d + rest) == |d|
  {
    if d != [] {
      assert (d + rest)[1..] == d[1..] + rest;
      DigitRunOfDigitsThen(d[1..], rest);
    } else {
      assert d + rest == rest;
    }
  }

  lemma UnsignedDecimalOfDigits(d: string)
    requires |d| >= 1 && AllDigits(d)
    ensures UnsignedDecimal(d) == Some(DigitsValue(d) as real)
  {
    DigitRunOfDigitsThen(d, []);
    assert d + [] == d;
    assert d[|d|..] == [];
    assert d[..|d|] == d;
  }

  /** A literal with a fraction and no exponent: integer digits plus fraction digits over 10^f. */
  lemma UnsignedDecimalWithFraction(u: string, i: nat, f: nat)
    requires i == DigitRun(u) && i < |u| && u[i] == '.' && f == DigitRun(u[i + 1..]) && i + f > 0
    requires NoExponent(u[i + 1 + f..])
    ensures UnsignedDecimal(u)
         == Some(DigitsValue(u[..i]) as real + FractionValue(u[i + 1..][..f]))
  {
    assert UnsignedDecimal(u) == DottedFrom(u, i, f);
    NoExponentKeeps(DigitsValue(u[..i]) as real + FractionValue(u[i + 1..][..f]), u[i + 1 + f..]);
  }

  /** Without an exponent part the mantissa is the value. */
  lemma NoExponentKeeps(m: real, rest: string)
    requires NoExponent(rest)
    ensures WithExponent(m, rest) == m
  {
    assert ExponentPart(rest) == None;
  }

  /** Text that cannot start an exponent part. */
  predicate NoExponent(rest: string)
  {
    rest == [] || (rest[0] != 'e' && rest[0] != 'E')
  }

  /** Text that starts with neither whitespace nor a sign is parsed as an unsigned literal. */
  lemma ParseFloatUnsigned(s: string)
    requires s != [] && !IsWhitespace(s[0]) && s[0] != '-' && s[0] != '+'
    ensures ParseFloat(s) == UnsignedDecimal(s)
  {
  }

  lemma UnsignedParsesTo(s: string, v: real)
    requires s != [] && !IsWhitespace(s[0]) && s[0] != '-' && s[0] != '+'
    requires UnsignedDecimal(s) == Some(v)
    ensures ParseFloat(s) == Some(v)
  {
    ParseFloatUnsigned(s);
  }

  /** A leading minus sign negates the unsigned literal after it. */
  lemma NegatedParsesTo(s: string, v: real, w: real)
    requires s != [] && s[0] == '-' && UnsignedDecimal(s[1..]) == Some(v) && w == -v
    ensures ParseFloat(s) == Some(w)
  {
    TrimStartKeeps(s);
  }

  /** Text that does not start with whitespace is its own trimStart. */
  lemma TrimStartKeeps(s: string)
    requires s == [] || !IsWhitespace(s[0])
    ensures TrimStart(s) == s
  {
  }

  /** parseFloat reads back the decimal rendering of every integer. */
  lemma ParseIntToString(n: int)
    ensures ParseFloat(IntToString(n)) == Some(n as real)
  {
    var s := IntToString(n);
    if n < 0 {
      var d := NatDigits(-n);
      assert s == "-" + d && s[1..] == d;
      UnsignedDecimalOfDigits(d);
      NegatedParsesTo(s, DigitsValue(d) as real, n as real);
    } else {
      var d := NatDigits(n);
      assert s == d && IsDigit(s[0]);
      UnsignedDecimalOfDigits(d);
      UnsignedParsesTo(s, n as real);
    }
  }

  /** Distinct integers render as distinct strings. */
  lemma IntToStringInjective(a: int, b: int)
    requires IntToString(a) == IntToString(b)
    ensures a == b
  {
    ParseIntToString(a);
    ParseIntToString(b);
  }
}
