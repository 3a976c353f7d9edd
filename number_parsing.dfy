/**
 * `int.Parse(string)` as `GetStatusCode` uses it: the default integer style of
 * .NET, i.e. optional leading and trailing white space, an optional leading
 * sign and one or more decimal digits. Anything else raises a FormatException;
 * a well-formed number outside the Int32 range raises an OverflowException.
 * `Format` is the decimal rendering used to state the round trip.
 */
module NumberParsing {
  import opened Wrappers
  import opened Grpc

  /** The white space .NET skips around a number: U+0009 to U+000D and U+0020. */
  predicate IsWhite(c: char) {
    c == ' ' || ('\t' <= c <= '\r')
  }

  predicate IsDigit(c: char) {
    '0' <= c <= '9'
  }

  predicate AllDigits(s: string) {
    forall i :: 0 <= i < |s| ==> IsDigit(s[i])
  }

  /** `s` without its leading white space. */
  function TrimStart(s: string): (t: string)
    ensures |t| <= |s| && t == s[|s| - |t|..]
    ensures forall i :: 0 <= i < |s| - |t| ==> IsWhite(s[i])
    ensures |t| > 0 ==> !IsWhite(t[0])
  {
    if |s| > 0 && IsWhite(s[0]) then TrimStart(s[1..]) else s
  }

  /** `s` without its trailing white space. */
  function TrimEnd(s: string): (t: string)
    ensures |t| <= |s| && t == s[..|t|]
    ensures forall i :: |t| <= i < |s| ==> IsWhite(s[i])
    ensures |t| > 0 ==> !IsWhite(t[|t| - 1])
  {
    if |s| > 0 && IsWhite(s[|s| - 1]) then TrimEnd(s[..|s| - 1]) else s
  }

  /** The value of a string of decimal digits, most significant first. */
  function DigitsValue(s: string): nat
    requires AllDigits(s)
  {
    if |s| == 0 then 0
    else DigitsValue(s[..|s| - 1]) * 10 + (s[|s| - 1] as int - '0' as int)
  }

  /** The sign and the digits that follow it, once white space is trimmed. */
  function SplitSign(t: string): (sb: (bool, string))
    ensures |sb.1| <= |t|
  {
    if |t| > 0 && (t[0] == '-' || t[0] == '+') then (t[0] == '-', t[1..]) else (false, t)
  }

  /** A sign and the digits after it, as a 32-bit integer. */
  function ParseNumber(negative: bool, body: string): (r: Result<Int32, Exception>)
    ensures r.Failure? ==> r.error.inner.None?
    ensures r.Failure? ==> r.error.kind == FormatException || r.error.kind == OverflowException
  {
    if |body| == 0 || !AllDigits(body) then
      Failure(Exception(FormatException, None))
    else
      var v: int := if negative then -(DigitsValue(body) as int) else DigitsValue(body);
      if v < MinInt32 || v > MaxInt32 then Failure(Exception(OverflowException, None))
      else Success(v)
  }

  /** `int.Parse`: the parsed Int32, or the exception it raises. */
  function ParseInt32(s: string): (r: Result<Int32, Exception>)
    ensures r.Failure? ==> r.error.inner.None?
    ensures r.Failure? ==> r.error.kind == FormatException || r.error.kind == OverflowException
  {
    var sign := SplitSign(TrimEnd(TrimStart(s)));
    ParseNumber(sign.0, sign.1)
  }

  function Digit(d: nat): (c: char)
    requires d < 10
    ensures IsDigit(c)
  {
    ('0' as int + d) as char
  }

  /** The decimal digits of `n`, without leading zeros. */
  function DecimalDigits(n: nat): (s: string)
    ensures |s| >= 1 && AllDigits(s)
  {
    if n < 10 then [Digit(n)] else DecimalDigits(n / 10) + [Digit(n % 10)]
  }

  /** The decimal rendering of an integer, with a leading '-' when negative. */
  function Format(n: int): (s: string)
    ensures |s| >= 1
  {
    if n < 0 then "-" + DecimalDigits(-n) else DecimalDigits(n)
  }

  lemma {:induction false} DecimalDigitsValue(n: nat)
    ensures DigitsValue(DecimalDigits(n)) == n
  {
    if n >= 10 {
      var s := DecimalDigits(n);
      assert s[..|s| - 1] == DecimalDigits(n / 10);
      DecimalDigitsValue(n / 10);
    }
  }

  predicate AllWhite(s: string) {
    forall i :: 0 <= i < |s| ==> IsWhite(s[i])
  }

  /**
   * The parts of a well-formed number text: leading white space, an optional sign,
   * one or more digits and trailing white space.
   */
  predicate IsNumberParts(lead: string, sign: string, digits: string, trail: string) {
    && AllWhite(lead)
    && (sign == "" || sign == "-" || sign == "+")
    && |digits| > 0 && AllDigits(digits)
    && AllWhite(trail)
  }

  /** The text made of the four parts. */
  function Text(lead: string, sign: string, digits: string, trail: string): string {
    lead + sign + digits + trail
  }

  /** The number the sign and the digits denote. */
  function SignedValue(sign: string, digits: string): int
    requires AllDigits(digits)
  {
    if sign == "-" then -(DigitsValue(digits) as int) else DigitsValue(digits)
  }

  /** `s` is an optional sign and one or more digits, with white space around them. */
  ghost predicate IsNumberText(s: string) {
    exists lead, sign, digits, trail :: IsNumberParts(lead, sign, digits, trail) && s == Text(lead, sign, digits, trail)
  }

  /** `s` is a number text whose value fits in an Int32. */
  ghost predicate IsInt32Text(s: string) {
    exists lead, sign, digits, trail :: IsNumberParts(lead, sign, digits, trail) && s == Text(lead, sign, digits, trail)
      && MinInt32 <= SignedValue(sign, digits) <= MaxInt32
  }

  /** Leading white space in front of a text that starts with something else is trimmed away. */
  lemma {:induction false} TrimStartSkips(w: string, r: string)
    requires AllWhite(w) && |r| > 0 && !IsWhite(r[0])
    ensures TrimStart(w + r) == r
    decreases |w|
  {
    if |w| == 0 {
      assert w + r == r;
    } else {
      assert (w + r)[0] == w[0];
      assert (w + r)[1..] == w[1..] + r;
      TrimStartSkips(w[1..], r);
    }
  }

  /** Trailing white space behind a text that ends with something else is trimmed away. */
  lemma {:induction false} TrimEndSkips(r: string, w: string)
    requires AllWhite(w) && |r| > 0 && !IsWhite(r[|r| - 1])
    ensures TrimEnd(r + w) == r
    decreases |w|
  {
    if |w| == 0 {
      assert r + w == r;
    } else {
      var rw := r + w;
      assert rw[|rw| - 1] == w[|w| - 1];
      assert rw[..|rw| - 1] == r + w[..|w| - 1];
      TrimEndSkips(r, w[..|w| - 1]);
    }
  }

  /** A sign followed by digits splits into that sign and those digits. */
  lemma SplitSignParts(sign: string, digits: string)
    requires (sign == "" || sign == "-" || sign == "+") && |digits| > 0 && AllDigits(digits)
    ensures SplitSign(sign + digits) == (sign == "-", digits)
  {
    assert IsDigit(digits[0]);
    if sign == "" {
      assert sign + digits == digits;
    } else {
      assert (sign + digits)[0] == sign[0];
      assert (sign + digits)[1..] == digits;
    }
  }

  /** The white space around a sign and digits is exactly what trimming removes. */
  lemma TrimParts(lead: string, sign: string, digits: string, trail: string)
    requires IsNumberParts(lead, sign, digits, trail)
    ensures TrimEnd(TrimStart(Text(lead, sign, digits, trail))) == sign + digits
  {
    var core := sign + digits;
    assert IsDigit(digits[0]) && IsDigit(digits[|digits| - 1]);
    assert core[0] == (if sign == "" then digits[0] else sign[0]);
    assert core[|core| - 1] == digits[|digits| - 1];
    assert Text(lead, sign, digits, trail) == lead + (core + trail);
    TrimStartSkips(lead, core + trail);
    TrimEndSkips(core, trail);
  }

  /** A sign and digits parse to their value, or overflow when it does not fit in an Int32. */
  lemma ParseNumberValue(sign: string, digits: string)
    requires |digits| > 0 && AllDigits(digits)
    ensures ParseNumber(sign == "-", digits)
         == if MinInt32 <= SignedValue(sign, digits) <= MaxInt32 then Success(SignedValue(sign, digits))
            else Failure(Exception(OverflowException, None))
  {
  }

  /** Parsing a well-formed number text gives its value, or an OverflowException when it does not fit in an Int32. */
  lemma ParseParts(lead: string, sign: string, digits: string, trail: string)
    requires IsNumberParts(lead, sign, digits, trail)
    ensures ParseInt32(Text(lead, sign, digits, trail))
         == if MinInt32 <= SignedValue(sign, digits) <= MaxInt32 then Success(SignedValue(sign, digits))
            else Failure(Exception(OverflowException, None))
  {
    var s := Text(lead, sign, digits, trail);
    TrimParts(lead, sign, digits, trail);
    SplitSignParts(sign, digits);
    assert SplitSign(TrimEnd(TrimStart(s))) == (sign == "-", digits);
    ParseNumberValue(sign, digits);
  }

  /** A prefix of white space splits off the front of `s`. */
  lemma WhitePrefix(s: string, k: nat)
    requires k <= |s| && forall i :: 0 <= i < k ==> IsWhite(s[i])
    ensures AllWhite(s[..k]) && s == s[..k] + s[k..]
  {
    assert forall i :: 0 <= i < k ==> s[..k][i] == s[i];
  }

  /** What trimming removes from the front of `s` is white space in front of the rest. */
  lemma TrimStartShape(s: string)
    ensures AllWhite(s[..|s| - |TrimStart(s)|]) && s == s[..|s| - |TrimStart(s)|] + TrimStart(s)
  {
    var t := TrimStart(s);
    WhitePrefix(s, |s| - |t|);
  }

  /** A suffix of white space splits off the back of `t`. */
  lemma WhiteSuffix(t: string, k: nat)
    requires k <= |t| && forall i :: k <= i < |t| ==> IsWhite(t[i])
    ensures AllWhite(t[k..]) && t == t[..k] + t[k..]
  {
    assert forall i :: 0 <= i < |t| - k ==> t[k..][i] == t[k + i];
  }

  /** What trimming removes from the back of `t` is white space behind the rest. */
  lemma TrimEndShape(t: string)
    ensures AllWhite(t[|TrimEnd(t)|..]) && t == TrimEnd(t) + t[|TrimEnd(t)|..]
  {
    WhiteSuffix(t, |TrimEnd(t)|);
  }

  /** `SplitSign` cuts off an empty sign, "-" or "+", and reports a '-'. */
  lemma SplitSignShape(t: string)
    ensures var sign := t[..|t| - |SplitSign(t).1|];
      && (sign == "" || sign == "-" || sign == "+")
      && t == sign + SplitSign(t).1
      && (sign == "-" <==> SplitSign(t).0)
  {
  }

  /** A sign and a body that parse without a FormatException: the body is digits, and the value decides. */
  lemma ParseNumberParts(sign: string, digits: string)
    requires ParseNumber(sign == "-", digits) != Failure(Exception(FormatException, None))
    ensures |digits| > 0 && AllDigits(digits)
    ensures ParseNumber(sign == "-", digits).Success? <==> MinInt32 <= SignedValue(sign, digits) <= MaxInt32
    ensures ParseNumber(sign == "-", digits).Success? ==> ParseNumber(sign == "-", digits).value == SignedValue(sign, digits)
  {
  }

  /** The four parts joined one after the other. */
  lemma TextJoin(lead: string, sign: string, digits: string, trail: string)
    ensures lead + ((sign + digits) + trail) == Text(lead, sign, digits, trail)
  {
    var core := sign + digits;
    assert lead + (core + trail) == (lead + core) + trail;
    assert lead + core == (lead + sign) + digits;
  }

  /**
   * Whatever does not raise a FormatException is a number text: the trimmed
   * white space, the sign and the digits are its parts, and the parse is that of
   * those parts.
   */
  lemma ParseShape(s: string) returns (lead: string, sign: string, digits: string, trail: string)
    requires ParseInt32(s) != Failure(Exception(FormatException, None))
    ensures IsNumberParts(lead, sign, digits, trail) && s == Text(lead, sign, digits, trail)
    ensures ParseInt32(s).Success? <==> MinInt32 <= SignedValue(sign, digits) <= MaxInt32
    ensures ParseInt32(s).Success? ==> ParseInt32(s).value == SignedValue(sign, digits)
  {
    var t1 := TrimStart(s);
    var t2 := TrimEnd(t1);
    var split := SplitSign(t2);
    TrimStartShape(s);
    TrimEndShape(t1);
    SplitSignShape(t2);
    lead, trail := s[..|s| - |t1|], t1[|t2|..];
    sign, digits := t2[..|t2| - |split.1|], split.1;
    assert ParseInt32(s) == ParseNumber(sign == "-", digits);
    ParseNumberParts(sign, digits);
    TextJoin(lead, sign, digits, trail);
  }

  /**
   * `int.Parse` succeeds exactly on a number text whose value fits in an Int32,
   * raises an OverflowException exactly on a number text that does not fit, and
   * raises a FormatException on everything else.
   */
  lemma ParseIff(s: string)
    ensures ParseInt32(s).Success? <==> IsInt32Text(s)
    ensures ParseInt32(s) == Failure(Exception(OverflowException, None)) <==> IsNumberText(s) && !IsInt32Text(s)
    ensures ParseInt32(s) == Failure(Exception(FormatException, None)) <==> !IsNumberText(s)
  {
    if ParseInt32(s) != Failure(Exception(FormatException, None)) {
      var lead, sign, digits, trail := ParseShape(s);
      assert IsNumberText(s);
      if ParseInt32(s).Success? {
        assert IsInt32Text(s);
      }
    }
    if IsNumberText(s) {
      var lead, sign, digits, trail :| IsNumberParts(lead, sign, digits, trail) && s == Text(lead, sign, digits, trail);
      ParseParts(lead, sign, digits, trail);
    }
    if IsInt32Text(s) {
      var lead, sign, digits, trail :| IsNumberParts(lead, sign, digits, trail) && s == Text(lead, sign, digits, trail)
        && MinInt32 <= SignedValue(sign, digits) <= MaxInt32;
      ParseParts(lead, sign, digits, trail);
    }
  }

  /** `Format(n)` as parts: no white space, a '-' for a negative number, and the digits of its magnitude. */
  lemma FormatParts(n: int)
    ensures var sign := if n < 0 then "-" else "";
      var digits := DecimalDigits(if n < 0 then -n else n);
      IsNumberParts("", sign, digits, "") && Format(n) == Text("", sign, digits, "") && SignedValue(sign, digits) == n
  {
    var d := DecimalDigits(if n < 0 then -n else n);
    DecimalDigitsValue(if n < 0 then -n else n);
    if n < 0 {
      assert Text("", "-", d, "") == "-" + d;
    } else {
      assert Text("", "", d, "") == d;
    }
  }

  /** Parsing the decimal rendering of any Int32 gives the number back. */
  lemma ParseFormat(n: Int32)
    ensures ParseInt32(Format(n)) == Success(n)
  {
    var m: int := n;
    FormatParts(m);
    ParseParts("", if m < 0 then "-" else "", DecimalDigits(if m < 0 then -m else m), "");
  }

  /** A value with no digit at all (e.g. "abc") is a format error, never a number. */
  lemma ParseWithoutDigits(s: string)
    requires forall i :: 0 <= i < |s| ==> !IsDigit(s[i])
    ensures ParseInt32(s) == Failure(Exception(FormatException, None))
  {
  }

  /** The decimal rendering of any number outside the Int32 range overflows instead of wrapping around. */
  lemma ParseOutOfRange(n: int)
    requires n < MinInt32 || n > MaxInt32
    ensures ParseInt32(Format(n)) == Failure(Exception(OverflowException, None))
  {
    FormatParts(n);
    ParseParts("", if n < 0 then "-" else "", DecimalDigits(if n < 0 then -n else n), "");
  }
}
