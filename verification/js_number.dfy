/** JavaScript's number <-> text conversions over decimal literals:
    `parseInt(s, 10)`, `parseFloat(s)`, `Number(s)` for strings, and
    `String(n)`. NaN is `None`. Numbers are mathematical reals. */
module JsNumber {
  import opened Wrappers
  import opened JsText

  /** Length of the longest run of digits at the start of `s`. */
  function DigitRun(s: string): (n: nat)
    ensures n <= |s|
    ensures AllDigits(s[..n])
    ensures n == |s| || !IsDigit(s[n])
  {
    if s != [] && IsDigit(s[0]) then
      var k := DigitRun(s[1..]);
      assert s[..1 + k] == [s[0]] + s[1..][..k];
      1 + k
    else 0
  }

  function Pow10(k: nat): (r: nat)
    ensures r >= 1
  {
    if k == 0 then 1 else 10 * Pow10(k - 1)
  }

  /** An optional leading `-` or `+`: whether the value is negated, and the
      text after the sign. */
  function SignSplit(s: string): (bool, string)
  {
    if |s| > 0 && s[0] == '-' then (true, s[1..])
    else if |s| > 0 && s[0] == '+' then (false, s[1..])
    else (false, s)
  }

  function Signed(neg: bool, v: real): real {
    if neg then -v else v
  }

  /** `parseInt(s, 10)`: leading whitespace, an optional sign, then the
      longest digit run; NaN when there is no digit. */
  function ParseIntText(s: string): Option<int>
  {
    var (neg, rest) := SignSplit(TrimStart(s));
    var k := DigitRun(rest);
    if k == 0 then None
    else
      var v: int := DigitsValue(rest[..k]);
      Some(if neg then -v else v)
  }

  /** The fractional part written by the digits `f`: `0.f`. */
  function FractionValue(f: string): (r: real)
    requires AllDigits(f)
    ensures 0.0 <= r
  {
    DigitsValue(f) as real / Pow10(|f|) as real
  }

  /** `parseFloat(s)` over decimal literals: leading whitespace, an
      optional sign, digits, and an optional `.` followed by digits, taking
      the longest such prefix; NaN when it holds no digit. */
  function ParseFloatText(s: string): Option<real>
  {
    var (neg, rest) := SignSplit(TrimStart(s));
    var k := DigitRun(rest);
    var after := rest[k..];
    var f := if |after| > 0 && after[0] == '.' then DigitRun(after[1..]) else 0;
    if k == 0 && f == 0 then None
    else
      var frac := if f == 0 then 0.0 else FractionValue(after[1..][..f]);
      Some(Signed(neg, DigitsValue(rest[..k]) as real + frac))
  }

  /** `Number(s)` for a string: the whole trimmed text must be a decimal
      literal; the empty (or all-whitespace) string is 0. */
  function StringToNumber(s: string): Option<real>
  {
    var t := Trim(s);
    if t == "" then Some(0.0)
    else
      var (neg, rest) := SignSplit(t);
      match UnsignedDecimal(rest)
      case None => None
      case Some(v) => Some(Signed(neg, v))
  }

  /** The value of a text that is, in full, digits with an optional `.`
      and fraction digits, at least one digit in all. */
  function UnsignedDecimal(rest: string): Option<real>
  {
    var k := DigitRun(rest);
    if k == |rest| then
      if k == 0 then None else Some(DigitsValue(rest) as real)
    else if rest[k] == '.' then
      var frac := rest[k + 1..];
      if DigitRun(frac) == |frac| && k + |frac| > 0 then
        assert frac[..|frac|] == frac;
        Some(DigitsValue(rest[..k]) as real + FractionValue(frac))
      else None
    else None
  }

  /** `String(i)` for an integer. */
  function IntToString(i: int): string
  {
    if i < 0 then "-" + NatToString(-i) else NatToString(i)
  }

  /** Up to `fuel` decimal digits of a fraction in [0, 1), stopping as soon
      as the rest is zero. */
  function FracDigits(f: real, fuel: nat): (r: string)
    requires 0.0 <= f < 1.0
    ensures AllDigits(r) && |r| <= fuel
    decreases fuel
  {
    if f == 0.0 || fuel == 0 then ""
    else
      var d := (f * 10.0).Floor;
      [DigitChar(d)] + FracDigits(f * 10.0 - d as real, fuel - 1)
  }

  predicate IsIntegral(x: real) {
    x.Floor as real == x
  }

  /** `String(x)`: integers exactly; other values with their integer part,
      a `.` and at most 20 fraction digits. */
  function NumberToString(x: real): string
  {
    if IsIntegral(x) then IntToString(x.Floor)
    else
      var a := if x < 0.0 then -x else x;
      (if x < 0.0 then "-" else "") + NatToString(a.Floor) + "." + FracDigits(a - a.Floor as real, 20)
  }

  // ------------------------------------------------------------- lemmas

  /** A string starting with a digit has no leading whitespace. */
  lemma TrimStartDigit(s: string)
    requires s != [] && IsDigit(s[0])
    ensures TrimStart(s) == s
  {
  }

  /** `parseInt` reads an all-digit string as its value, and the empty
      string as NaN. */
  lemma ParseIntDigits(s: string)
    requires AllDigits(s)
    ensures ParseIntText(s) == (if s == "" then None else Some(DigitsValue(s) as int))
  {
    if s != "" {
      TrimStartDigit(s);
      assert SignSplit(s) == (false, s);
      DigitRunPrefix(s, "");
      assert s + "" == s;
      assert s[..|s|] == s;
    } else {
      assert SignSplit(TrimStart(s)) == (false, s);
    }
  }

  /** `parseInt(String(n))` gives back `n`. */
  lemma ParseIntOfNatToString(n: nat)
    ensures ParseIntText(NatToString(n)) == Some(n as int)
  {
    ParseIntDigits(NatToString(n));
  }

  /** `parseInt` stops at the first non-digit: digits followed by other
      text read as the digits alone. */
  lemma ParseIntPrefix(d: string, tail: string)
    requires d != [] && AllDigits(d)
    requires tail == [] || !IsDigit(tail[0])
    ensures ParseIntText(d + tail) == Some(DigitsValue(d) as int)
  {
    var s := d + tail;
    TrimStartDigit(s);
    assert SignSplit(s) == (false, s);
    DigitRunPrefix(d, tail);
    assert s[..|d|] == d;
  }

  lemma {:induction false} DigitRunPrefix(d: string, tail: string)
    requires AllDigits(d)
    requires tail == [] || !IsDigit(tail[0])
    ensures DigitRun(d + tail) == |d|
  {
    if d == [] {
      assert d + tail == tail;
    } else {
      assert (d + tail)[1..] == d[1..] + tail;
      DigitRunPrefix(d[1..], tail);
    }
  }

  /** `Number(String(i))` gives back `i` for every integer. */
  lemma StringToNumberOfInt(i: int)
    ensures StringToNumber(IntToString(i)) == Some(i as real)
  {
    var n: nat := if i < 0 then -i else i;
    var d := NatToString(n);
    var sign := if i < 0 then "-" else "";
    SignedDigits(i < 0, d);
    assert sign + d == IntToString(i) by {
      if i >= 0 {
        assert sign + d == d;
      }
    }
    assert Signed(i < 0, DigitsValue(d) as real) == i as real;
  }

  /** Digits with an optional `-` in front read as their signed value. */
  lemma SignedDigits(neg: bool, d: string)
    requires d != "" && AllDigits(d)
    ensures StringToNumber((if neg then "-" else "") + d) == Some(Signed(neg, DigitsValue(d) as real))
  {
    var s := (if neg then "-" else "") + d;
    assert Trim(s) == s by {
      assert s[0] == '-' || IsDigit(s[0]);
      assert s[|s| - 1] == d[|d| - 1];
      TrimIdentity(s);
    }
    assert SignSplit(s) == (neg, d);
    UnsignedDigits(d);
    ReadSigned(s, neg, d);
  }

  /** A trimmed non-empty text reads as its signed unsigned part. */
  lemma ReadSigned(t: string, neg: bool, rest: string)
    requires Trim(t) == t && t != "" && SignSplit(t) == (neg, rest) && UnsignedDecimal(rest).Some?
    ensures StringToNumber(t) == Some(Signed(neg, UnsignedDecimal(rest).value))
  {
  }

  /** A non-empty digit string is a decimal literal worth its digits. */
  lemma UnsignedDigits(d: string)
    requires d != "" && AllDigits(d)
    ensures UnsignedDecimal(d) == Some(DigitsValue(d) as real)
  {
    DigitRunPrefix(d, "");
    assert d + "" == d;
  }

  /** The text of a number is "1" exactly for the number 1. */
  lemma NumberToStringIsOne(x: real)
    ensures NumberToString(x) == "1" <==> x == 1.0
  {
    if IsIntegral(x) {
      var i := x.Floor;
      if i < 0 {
        assert IntToString(i)[0] == '-';
      } else if NumberToString(x) == "1" {
        assert DigitsValue("1") == 1;
      }
    } else {
      var a := if x < 0.0 then -x else x;
      var s := (if x < 0.0 then "-" else "") + NatToString(a.Floor) + "." + FracDigits(a - a.Floor as real, 20);
      assert |s| >= 2;
    }
  }
}
