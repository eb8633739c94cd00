/** The pieces of ECMAScript string semantics the plan generator relies on:
    `String.prototype.trim`, an ASCII `toLowerCase`, the decimal rendering of
    a non-negative integer in a template literal, the `a || b` choice between
    strings, `Array.prototype.join`, and `String(value)` for the few kinds of
    value that reach it.

    A JavaScript string is a sequence of UTF-16 code units; here a string is a
    `seq<char>` of Unicode scalar values. The two agree on every comparison and
    split the plan generator performs (they are all against ASCII characters);
    where code units matter (the hash) module Hash expands the characters. */
module JsString {

  /** WhiteSpace and LineTerminator code points of ECMAScript (section 12.2 and
      12.3 of ECMA-262): the characters `trim` removes. */
  predicate IsWhitespace(c: char) {
    || c == '\t' || c == '\n' || c == '\U{000B}' || c == '\U{000C}' || c == '\r'
    || c == ' ' || c == '\U{00A0}' || c == '\U{1680}'
    || ('\U{2000}' <= c <= '\U{200A}')
    || c == '\U{2028}' || c == '\U{2029}' || c == '\U{202F}' || c == '\U{205F}'
    || c == '\U{3000}' || c == '\U{FEFF}'
  }

  predicate AllWhitespace(s: string) {
    forall i :: 0 <= i < |s| ==> IsWhitespace(s[i])
  }

  /** A string that `trim` leaves alone: it neither starts nor ends with whitespace. */
  predicate IsTrimmed(s: string) {
    s == [] || (!IsWhitespace(s[0]) && !IsWhitespace(s[|s| - 1]))
  }

  /** `s` without its leading whitespace. */
  function TrimStart(s: string): (r: string)
    ensures |r| <= |s|
  {
    if s != [] && IsWhitespace(s[0]) then TrimStart(s[1..]) else s
  }

  /** `s` without its trailing whitespace. */
  function TrimEnd(s: string): (r: string)
    ensures |r| <= |s|
  {
    if s != [] && IsWhitespace(s[|s| - 1]) then TrimEnd(s[..|s| - 1]) else s
  }

  /** `s.trim()`. What it computes is stated by `TrimSpec` and `TrimOfPadded`;
      the contract is kept small because every row column the plan generator
      reads goes through it. */
  function Trim(s: string): (r: string)
    ensures |r| <= |s|
  {
    TrimEnd(TrimStart(s))
  }

  lemma {:induction false} TrimStartSpec(s: string)
    ensures var r := TrimStart(s);
      && r == s[|s| - |r|..]
      && AllWhitespace(s[..|s| - |r|])
      && (r == [] || !IsWhitespace(r[0]))
  {
    if s != [] && IsWhitespace(s[0]) {
      TrimStartSpec(s[1..]);
      var r := TrimStart(s);
      assert s[..|s| - |r|] == [s[0]] + s[1..][..|s| - 1 - |r|];
    }
  }

  lemma {:induction false} TrimEndSpec(s: string)
    ensures var r := TrimEnd(s);
      && r == s[..|r|]
      && AllWhitespace(s[|r|..])
      && (r == [] || !IsWhitespace(r[|r| - 1]))
  {
    if s != [] && IsWhitespace(s[|s| - 1]) {
      TrimEndSpec(s[..|s| - 1]);
      var r := TrimEnd(s);
      assert s[|r|..] == s[..|s| - 1][|r|..] + [s[|s| - 1]];
    }
  }

  /** `trim` removes whitespace from both ends and nothing else: the result
      neither starts nor ends with whitespace, and the input is the result
      with whitespace around it. */
  lemma TrimSpec(s: string)
    ensures IsTrimmed(Trim(s))
    ensures exists k :: 0 <= k <= |s| - |Trim(s)| && s[k..k + |Trim(s)|] == Trim(s)
                        && AllWhitespace(s[..k]) && AllWhitespace(s[k + |Trim(s)|..])
  {
    var u := TrimStart(s);
    var r := TrimEnd(u);
    TrimStartSpec(s);
    TrimEndSpec(u);
    var k := |s| - |u|;
    if r != [] {
      assert r[0] == u[0];
    }
    assert s[k..k + |r|] == r;
    assert s[k + |r|..] == u[|r|..];
  }

  /** `trim` is determined by the decomposition `s == a + t + b` with `a`, `b`
      whitespace and `t` trimmed: whichever such `t` one finds, it is the result. */
  lemma TrimOfPadded(a: string, t: string, b: string)
    requires AllWhitespace(a) && AllWhitespace(b) && IsTrimmed(t)
    ensures Trim(a + t + b) == t
  {
    if t == [] {
      assert a + t + b == (a + b) + [];
      TrimStartPadded(a + b, []);
    } else {
      assert a + t + b == a + (t + b);
      TrimStartPadded(a, t + b);
      TrimEndPadded(t, b);
    }
  }

  lemma {:induction false} TrimStartPadded(a: string, u: string)
    requires AllWhitespace(a)
    requires u == [] || !IsWhitespace(u[0])
    ensures TrimStart(a + u) == u
  {
    if a != [] {
      assert (a + u)[1..] == a[1..] + u;
      TrimStartPadded(a[1..], u);
    } else {
      assert a + u == u;
    }
  }

  lemma {:induction false} TrimEndPadded(u: string, b: string)
    requires AllWhitespace(b)
    requires u == [] || !IsWhitespace(u[|u| - 1])
    ensures TrimEnd(u + b) == u
  {
    if b != [] {
      assert (u + b)[..|u + b| - 1] == u + b[..|b| - 1];
      TrimEndPadded(u, b[..|b| - 1]);
    } else {
      assert u + b == u;
    }
  }

  /** Trimming twice is trimming once. */
  lemma TrimIdempotent(s: string)
    ensures Trim(Trim(s)) == Trim(s)
  {
    TrimSpec(s);
    TrimOfPadded([], Trim(s), []);
    assert [] + Trim(s) + [] == Trim(s);
  }

  /** `toLowerCase` restricted to ASCII letters. Every comparison of a lowered
      string in the plan generator is against an ASCII word without the letter
      `k`; the Kelvin sign U+212A is the only non-ASCII character whose lower
      case is ASCII (it lowers to `k`), so for those comparisons the ASCII
      version decides exactly as the full Unicode one does. */
  function AsciiLowerChar(c: char): (r: char)
    ensures 'A' <= c <= 'Z' ==> r as int == c as int + 32
    ensures !('A' <= c <= 'Z') ==> r == c
  {
    if 'A' <= c <= 'Z' then (c as int + 32) as char else c
  }

  function Lower(s: string): (r: string)
    ensures |r| == |s|
    ensures forall i :: 0 <= i < |s| ==> r[i] == AsciiLowerChar(s[i])
  {
    seq(|s|, i requires 0 <= i < |s| => AsciiLowerChar(s[i]))
  }

  /** `a || b` on two strings: the first one unless it is empty. */
  function Or(a: string, b: string): (r: string)
    ensures r == a || r == b
    ensures r != [] <==> a != [] || b != []
    ensures a != [] ==> r == a
  {
    if a != [] then a else b
  }

  predicate IsDigit(c: char) {
    '0' <= c <= '9'
  }

  function DigitChar(d: nat): (c: char)
    requires d < 10
    ensures IsDigit(c)
  {
    ('0' as int + d) as char
  }

  function DigitValue(c: char): (d: nat)
    requires IsDigit(c)
    ensures d < 10
    ensures DigitChar(d) == c
  {
    c as int - '0' as int
  }

  /** Decimal digits without a superfluous leading zero: what JavaScript's
      `Number.prototype.toString` produces for a non-negative safe integer. */
  predicate IsCanonicalDecimal(s: string) {
    && s != []
    && (forall i :: 0 <= i < |s| ==> IsDigit(s[i]))
    && (s[0] == '0' ==> |s| == 1)
  }

  /** The value of a string of decimal digits. */
  function DecimalValue(s: string): (n: nat)
    requires forall i :: 0 <= i < |s| ==> IsDigit(s[i])
  {
    if s == [] then 0 else 10 * DecimalValue(s[..|s| - 1]) + DigitValue(s[|s| - 1])
  }

  /** `${n}` for a non-negative integer `n` below 2^53. */
  function NatToDecimal(n: nat): (r: string)
    ensures IsCanonicalDecimal(r)
  {
    if n < 10 then [DigitChar(n)] else NatToDecimal(n / 10) + [DigitChar(n % 10)]
  }

  /** Reading back the rendered digits gives the number again. */
  lemma {:induction false} DecimalRoundTrip(n: nat)
    ensures DecimalValue(NatToDecimal(n)) == n
  {
    var s := NatToDecimal(n);
    if n >= 10 {
      DecimalRoundTrip(n / 10);
      assert s[..|s| - 1] == NatToDecimal(n / 10);
    }
  }

  /** Distinct numbers render as distinct strings, so the seed strings built
      from them are distinct too. */
  lemma NatToDecimalInjective(m: nat, n: nat)
    requires NatToDecimal(m) == NatToDecimal(n)
    ensures m == n
  {
    DecimalRoundTrip(m);
    DecimalRoundTrip(n);
  }

  /** Every canonical decimal string is the rendering of its own value. */
  lemma {:induction false} CanonicalDecimalRoundTrip(s: string)
    requires IsCanonicalDecimal(s)
    ensures NatToDecimal(DecimalValue(s)) == s
    decreases |s|
  {
    if |s| > 1 {
      var p := s[..|s| - 1];
      assert IsCanonicalDecimal(p);
      CanonicalDecimalRoundTrip(p);
      CanonicalValueBound(p);
      assert s == p + [s[|s| - 1]];
    }
  }

  /** A canonical decimal string of more than one digit denotes at least 10. */
  lemma {:induction false} CanonicalValueBound(s: string)
    requires IsCanonicalDecimal(s)
    ensures |s| > 1 ==> DecimalValue(s) >= 10
    ensures DecimalValue(s) > 0 || s == "0"
    decreases |s|
  {
    if |s| > 1 {
      var p := s[..|s| - 1];
      assert IsCanonicalDecimal(p);
      CanonicalValueBound(p);
    }
  }

  /** `${i}` for any integer. */
  function IntToDecimal(i: int): (r: string)
    ensures r != []
    ensures i >= 0 ==> r == NatToDecimal(i)
    ensures i < 0 ==> r[0] == '-' && r[1..] == NatToDecimal(-i)
  {
    if i >= 0 then NatToDecimal(i) else "-" + NatToDecimal(-i)
  }

  /** `${i}` consists of digits and a leading minus sign only, so `trim` and
      `toLowerCase` leave it unchanged. */
  lemma IntToDecimalPlain(i: int)
    ensures IsTrimmed(IntToDecimal(i))
    ensures Lower(IntToDecimal(i)) == IntToDecimal(i)
    ensures IsDigit(IntToDecimal(i)[0]) || IntToDecimal(i)[0] == '-'
  {
    var d := IntToDecimal(i);
    assert forall k :: 0 <= k < |d| ==> IsDigit(d[k]) || d[k] == '-' by {
      if i < 0 {
        assert forall k :: 1 <= k < |d| ==> d[k] == d[1..][k - 1];
      }
    }
  }

  /** `${i}` is `"1"` exactly for the number one. */
  lemma IntToDecimalIsOne(i: int)
    ensures IntToDecimal(i) == "1" <==> i == 1
  {
    if i >= 0 && IntToDecimal(i) == "1" {
      DecimalRoundTrip(i);
    } else if i < 0 {
      assert IntToDecimal(i)[0] == '-';
    }
  }

  /** `parts.join(sep)`. */
  function Join(parts: seq<string>, sep: string): (r: string)
    ensures parts == [] ==> r == []
    ensures |parts| == 1 ==> r == parts[0]
  {
    if parts == [] then []
    else if |parts| == 1 then parts[0]
    else Join(parts[..|parts| - 1], sep) + sep + parts[|parts| - 1]
  }

  /** The values that reach `String(value)`, `value ?? ''` and
      `interpretBoolean` in the plan generator and the exporter. Floating-point
      numbers are not modelled; integers are. */
  datatype JsValue = Undefined | Null | Bool(b: bool) | Int(i: int) | Str(s: string)

  /** `String(value)`. */
  function ToJsString(v: JsValue): (r: string)
    ensures v.Str? ==> r == v.s
    ensures !v.Str? ==> r != []
  {
    match v
    case Undefined => "undefined"
    case Null => "null"
    case Bool(b) => if b then "true" else "false"
    case Int(i) => IntToDecimal(i)
    case Str(s) => s
  }

  predicate Contains(s: string, c: char) {
    exists i :: 0 <= i < |s| && s[i] == c
  }
}
