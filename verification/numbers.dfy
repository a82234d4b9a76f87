/** JavaScript numbers as far as the rating handler needs them: `Number(value)` on a JSON value,
    `Number.isFinite`, and division that may produce a non-finite result. */
module Numbers {
  import opened Outcomes
  import opened Text

  /** A JavaScript number: finite (IEEE rounding is not modelled), infinite, or NaN. */
  datatype JsNumber = Finite(value: real) | Infinite(positive: bool) | NaN

  /** A JSON body field as `Number` sees it. Arrays are not modelled. */
  datatype JsValue = Undefined | Null | Bool(b: bool) | Num(n: real) | Str(s: string) | ObjectValue

  /** The number of leading decimal digits of `s`. */
  function LeadingDigits(s: string): (n: nat)
    ensures n <= |s| && AllDigits(s[..n])
    ensures n < |s| ==> !IsDigit(s[n])
  {
    if |s| > 0 && IsDigit(s[0]) then
      var n := 1 + LeadingDigits(s[1..]);
      assert s[..n] == [s[0]] + s[1..][..n - 1];
      n
    else 0
  }

  function Pow10(k: nat): (p: nat)
    ensures p >= 1
  {
    if k == 0 then 1 else 10 * Pow10(k - 1)
  }

  /** An unsigned decimal literal: digits, optionally followed by `.` and more digits, with at
      least one digit in all (`"5"`, `"5."`, `".5"`, `"2.75"`). */
  function UnsignedDecimal(s: string): Option<real> {
    var i := LeadingDigits(s);
    var whole := DecimalValue(s[..i]) as real;
    var rest := s[i..];
    if rest == "" then
      if i > 0 then Some(whole) else None
    else if rest[0] == '.' && AllDigits(rest[1..]) && (i > 0 || |rest| > 1) then
      Some(whole + (DecimalValue(rest[1..]) as real) / (Pow10(|rest| - 1) as real))
    else None
  }

  /** `Number(s)` for a string: surrounding white space is ignored, the empty string is 0, an
      optional sign precedes a decimal literal or `Infinity`, anything else is NaN. */
  function StringToNumber(s: string): JsNumber {
    var t := Trim(s);
    if t == "" then Finite(0.0) else SignedNumber(t)
  }

  function SignedNumber(t: string): JsNumber
    requires t != ""
  {
    if t[0] == '-' then Negate(UnsignedNumber(t[1..]))
    else if t[0] == '+' then UnsignedNumber(t[1..])
    else UnsignedNumber(t)
  }

  function UnsignedNumber(body: string): JsNumber {
    if body == "Infinity" then Infinite(true)
    else match UnsignedDecimal(body)
      case Some(x) => Finite(x)
      case None => NaN
  }

  function Negate(n: JsNumber): JsNumber {
    match n
    case Finite(x) => Finite(-x)
    case Infinite(p) => Infinite(!p)
    case NaN => NaN
  }

  /** `Number(v)` on a JSON body field. */
  function ToNumber(v: JsValue): (n: JsNumber)
    ensures v == Undefined || v == ObjectValue ==> n == NaN
    ensures v == Null || v == Bool(false) ==> n == Finite(0.0)
    ensures v == Bool(true) ==> n == Finite(1.0)
    ensures v.Num? ==> n == Finite(v.n)
  {
    match v
    case Undefined => NaN
    case Null => Finite(0.0)
    case Bool(b) => Finite(if b then 1.0 else 0.0)
    case Num(x) => Finite(x)
    case Str(s) => StringToNumber(s)
    case ObjectValue => NaN
  }

  /** `Number` agrees across JSON types: the decimal text of a whole number converts as the number
      does, `null` as the empty text and as 0, a boolean as the text of its `Bit`, and `undefined`
      and an object as their texts `undefined` and `[object Object]`, which are not numbers. */
  lemma ToNumberAcrossTypes(n: nat, b: bool)
    ensures ToNumber(Str(NatToDecimal(n))) == ToNumber(Num(n as real))
    ensures ToNumber(Null) == ToNumber(Str("")) == ToNumber(Num(0.0))
    ensures ToNumber(Bool(b)) == ToNumber(Str(NatToDecimal(Bit(b))))
    ensures ToNumber(Undefined) == ToNumber(Str("undefined")) == NaN
    ensures ToNumber(ObjectValue) == ToNumber(Str("[object Object]")) == NaN
  {
    DecimalTextAsNumber(n);
    DecimalTextAsNumber(Bit(b));
    EmptyTextIsZero();
    UndefinedText();
    ObjectText();
  }

  /** `Number(b)`: 1 for `true`, 0 for `false`. */
  function Bit(b: bool): nat {
    if b then 1 else 0
  }

  /** The decimal text of a whole number converts as the number does. */
  lemma DecimalTextAsNumber(n: nat)
    ensures ToNumber(Str(NatToDecimal(n))) == ToNumber(Num(n as real))
  {
    StringToNumberOfDecimal(n);
  }

  /** The empty text is 0, as `null` is. */
  lemma EmptyTextIsZero()
    ensures ToNumber(Null) == ToNumber(Str("")) == Finite(0.0)
  {
    assert AllWhitespace("");
  }

  /** The text `String(undefined)` is not a number, as `undefined` is not. */
  lemma UndefinedText()
    ensures ToNumber(Undefined) == ToNumber(Str("undefined")) == NaN
  {
    var u := "undefined";
    assert !IsWhitespace(u[0]) && !IsWhitespace(u[|u| - 1]) && !IsDigit(u[0]) && u[0] !in "+-.I";
    NotANumber(u);
  }

  /** The text `String({})` is not a number, as an object is not. */
  lemma ObjectText()
    ensures ToNumber(ObjectValue) == ToNumber(Str("[object Object]")) == NaN
  {
    var o := "[object Object]";
    assert !IsWhitespace(o[0]) && !IsWhitespace(o[|o| - 1]) && !IsDigit(o[0]) && o[0] !in "+-.I";
    NotANumber(o);
  }

  /** Text that starts with a letter other than `I` or white space, and is not signed, is not a number. */
  lemma NotANumber(s: string)
    requires |s| > 0 && !IsWhitespace(s[0]) && !IsWhitespace(s[|s| - 1])
    requires !IsDigit(s[0]) && s[0] !in "+-.I"
    ensures StringToNumber(s) == NaN
  {
    assert TrimStart(s) == s;
    assert TrimEnd(s) == s;
    assert LeadingDigits(s) == 0;
    assert s[0..] == s;
  }

  /** A string of digits reads as the number it denotes. */
  lemma StringToNumberOfDigits(s: string)
    requires |s| > 0 && AllDigits(s)
    ensures StringToNumber(s) == Finite(DecimalValue(s) as real)
  {
    assert s != "Infinity" by {
      assert !IsDigit("Infinity"[0]);
    }
    UnsignedDecimalOfDigits(s);
    assert IsDigit(s[0]);
    assert SignedNumber(s) == UnsignedNumber(s);
    TrimDigits(s);
  }

  /** A decimal rendering of a whole number reads back as that number. */
  lemma StringToNumberOfDecimal(n: nat)
    ensures StringToNumber(NatToDecimal(n)) == Finite(n as real)
  {
    StringToNumberOfDigits(NatToDecimal(n));
    DecimalRoundTrip(n);
  }

  /** Digits are not white space, so trimming leaves them alone. */
  lemma TrimDigits(s: string)
    requires |s| > 0 && AllDigits(s)
    ensures Trim(s) == s
  {
    assert !IsWhitespace(s[0]);
    var t := TrimStart(s);
    assert t == s;
    assert !IsWhitespace(t[|t| - 1]);
    assert TrimEnd(t) == t;
  }

  /** A string of digits is a decimal literal denoting its value. */
  lemma UnsignedDecimalOfDigits(s: string)
    requires |s| > 0 && AllDigits(s)
    ensures UnsignedDecimal(s) == Some(DecimalValue(s) as real)
  {
    AllDigitsLead(s);
    assert s[..|s|] == s;
    assert s[|s|..] == "";
  }

  /** A string of digits is all leading digits. */
  lemma {:induction false} AllDigitsLead(s: string)
    requires AllDigits(s)
    ensures LeadingDigits(s) == |s|
  {
    if |s| > 0 {
      AllDigitsLead(s[1..]);
    }
  }

  /** `a / b` in JavaScript: finite for a non-zero divisor, otherwise infinite or NaN. */
  function Divide(a: real, b: int): (q: JsNumber)
    ensures b != 0 ==> q == Finite(a / (b as real))
    ensures b == 0 ==> !q.Finite?
  {
    if b != 0 then Finite(a / (b as real))
    else if a > 0.0 then Infinite(true)
    else if a < 0.0 then Infinite(false)
    else NaN
  }
}
