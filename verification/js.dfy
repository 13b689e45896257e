/** The few JavaScript values the pages' forms and cells hold, with the
    language rules the pages lean on: truthiness (`!form.x`, `a || b`),
    `parseInt`, `Number(...)` and how JSX renders a value as text.
    Numbers are modelled as integers; fractions, exponents, infinities,
    leading whitespace and the `0x` prefix are not modelled. */
module Js {
  import opened Text

  datatype Value = Undefined | Str(s: string) | Num(n: int) | NaN

  /** JavaScript truthiness: `undefined`, `""`, `0` and `NaN` are falsy. */
  predicate Truthy(v: Value) {
    match v
    case Undefined => false
    case Str(s) => s != ""
    case Num(n) => n != 0
    case NaN => false
  }

  /** `a || b`: the left operand when it is truthy, else the right one. */
  function Or(a: Value, b: Value): (r: Value)
    ensures Truthy(a) ==> r == a
    ensures !Truthy(a) ==> r == b
  {
    if Truthy(a) then a else b
  }

  /** Length of the longest prefix of `s` made of decimal digits. */
  function DigitPrefixLength(s: string): (k: nat)
    ensures k <= |s|
    ensures AllDigits(s[..k])
    ensures k < |s| ==> !IsDigit(s[k])
  {
    if |s| > 0 && IsDigit(s[0]) then
      var k := 1 + DigitPrefixLength(s[1..]);
      assert s[..k] == [s[0]] + s[1..][..k - 1];
      k
    else 0
  }

  /** Splits an optional leading sign off a string. */
  function SplitSign(s: string): (r: (bool, string))
    ensures |r.1| <= |s|
  {
    if |s| > 0 && s[0] == '-' then (true, s[1..])
    else if |s| > 0 && s[0] == '+' then (false, s[1..])
    else (false, s)
  }

  function Signed(negative: bool, magnitude: nat): (r: int)
    ensures negative ==> r <= 0
    ensures !negative ==> r >= 0
  {
    if negative then 0 - magnitude else magnitude
  }

  /** `parseInt(s)`: an optional sign, then the longest run of digits;
      no digit at all gives NaN, and anything after the digits is ignored. */
  function ParseInt(s: string): (r: Value)
    ensures r.Num? || r.NaN?
    ensures s == "" ==> r == NaN
    ensures |s| > 0 && !IsDigit(s[0]) && s[0] != '-' && s[0] != '+' ==> r == NaN
    ensures |s| > 0 && IsDigit(s[0]) ==> r.Num? && r.n >= 0
    ensures r.Num? && r.n < 0 ==> s[0] == '-'
  {
    var (negative, rest) := SplitSign(s);
    var k := DigitPrefixLength(rest);
    if k == 0 then NaN else Num(Signed(negative, DigitsValue(rest[..k])))
  }

  /** `Number(s)` on a string: the empty string is 0; otherwise the whole
      string must be an optional sign followed by at least one digit. */
  function StringToNumber(s: string): (r: Value)
    ensures r.Num? || r.NaN?
    ensures s == "" ==> r == Num(0)
    ensures s != "" && AllDigits(s) ==> r == Num(DigitsValue(s))
    ensures r.Num? && s != "" ==> AllDigits(s[1..])
    ensures r.Num? && s != "" && !IsDigit(s[0]) ==> |s| > 1 && (s[0] == '-' || s[0] == '+')
  {
    if s == "" then Num(0)
    else
      var (negative, rest) := SplitSign(s);
      if rest != "" && AllDigits(rest) then Num(Signed(negative, DigitsValue(rest))) else NaN
  }

  /** `Number(v)`. */
  function ToNumber(v: Value): (r: Value)
    ensures r.Num? || r.NaN?
    ensures v.Num? ==> r == v
  {
    match v
    case Undefined => NaN
    case Str(s) => StringToNumber(s)
    case Num(n) => v
    case NaN => NaN
  }

  /** The text JSX shows for a value: `undefined` shows nothing. */
  function Render(v: Value): string {
    match v
    case Undefined => ""
    case Str(s) => s
    case Num(n) => IntToString(n)
    case NaN => "NaN"
  }

  lemma DigitPrefixOfDigits(s: string)
    requires AllDigits(s)
    ensures DigitPrefixLength(s) == |s|
  {
  }

  /** The digit run of `digits + tail` is `digits` when `tail` does not
      start with a digit. */
  lemma {:induction false} DigitPrefixBeforeTail(digits: string, tail: string)
    requires AllDigits(digits)
    requires tail == "" || !IsDigit(tail[0])
    ensures DigitPrefixLength(digits + tail) == |digits|
    decreases |digits|
  {
    if digits != "" {
      assert (digits + tail)[1..] == digits[1..] + tail;
      DigitPrefixBeforeTail(digits[1..], tail);
    } else {
      assert digits + tail == tail;
    }
  }

  /** `parseInt` stops at the first non-digit: whatever follows the digits
      is ignored. */
  lemma ParseIntIgnoresTail(digits: string, tail: string)
    requires digits != "" && AllDigits(digits)
    requires tail == "" || !IsDigit(tail[0])
    ensures ParseInt(digits + tail) == Num(DigitsValue(digits))
  {
    var s := digits + tail;
    assert s[0] == digits[0];
    assert SplitSign(s).1 == s;
    DigitPrefixBeforeTail(digits, tail);
    assert s[..|digits|] == digits;
  }

  /** An option value written with `toString()` parses back to the same id. */
  lemma ParseIntRoundTrip(n: int)
    ensures ParseInt(IntToString(n)) == Num(n)
  {
    var s := IntToString(n);
    var (negative, rest) := SplitSign(s);
    if n < 0 {
      assert rest == s[1..];
    } else {
      assert s[0] != '-' && s[0] != '+' by { assert IsDigit(s[0]); }
      assert rest == s;
    }
    DigitPrefixOfDigits(rest);
    assert rest[..|rest|] == rest;
  }

  /** `Number` undoes `toString` on integers. */
  lemma StringToNumberRoundTrip(n: int)
    ensures StringToNumber(IntToString(n)) == Num(n)
  {
    var s := IntToString(n);
    var (negative, rest) := SplitSign(s);
    if n < 0 {
      assert rest == s[1..];
    } else {
      assert s[0] != '-' && s[0] != '+' by { assert IsDigit(s[0]); }
      assert rest == s;
    }
  }
}
