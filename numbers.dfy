/** Python's conversions between numbers and text, as the catalog uses them:
    `str(n)` for a year in the web page, `int(s)` and `float(s)` on typed input,
    and `int(v)` / `float(v)` on the values handed to the JSON backend. */
module Numbers {
  import opened Options
  import opened Text

  predicate IsDigit(c: char) {
    '0' <= c <= '9'
  }

  predicate AllDigits(s: string) {
    forall i :: 0 <= i < |s| ==> IsDigit(s[i])
  }

  /** The value of a string of decimal digits, most significant first. */
  function DigitsValue(s: string): nat
    requires AllDigits(s)
  {
    if s == [] then 0 else DigitsValue(s[..|s| - 1]) * 10 + (s[|s| - 1] as int - '0' as int)
  }

  function DigitChar(d: nat): (c: char)
    requires d < 10
    ensures IsDigit(c) && c as int - '0' as int == d
  {
    ('0' as int + d) as char
  }

  /** Python's `str(n)` for a natural number: its decimal digits, without leading zeros. */
  function ShowNat(n: nat): (r: string)
    ensures r != [] && AllDigits(r)
    ensures DigitsValue(r) == n
    ensures |r| > 1 ==> r[0] != '0'
  {
    if n < 10 then
      [DigitChar(n)]
    else
      var r := ShowNat(n / 10) + [DigitChar(n % 10)];
      assert r[..|r| - 1] == ShowNat(n / 10);
      r
  }

  /** Python's `str(i)` for an integer. */
  function ShowInt(i: int): (r: string)
    ensures r != [] && !IsSpace(r[0]) && !IsSpace(r[|r| - 1])
  {
    if i < 0 then "-" + ShowNat(-i) else ShowNat(i)
  }

  /** Python's `int(s)` on a string: surrounding whitespace, an optional sign and
      at least one decimal digit. None stands for the ValueError. */
  function ParseInt(s: string): (r: Option<int>)
    ensures IsBlank(s) ==> r.None?
  {
    SignedInt(Strip(s))
  }

  /** `int()` on text with the surrounding whitespace already removed. */
  function SignedInt(t: string): Option<int> {
    if t != [] && (t[0] == '+' || t[0] == '-') then
      var d := t[1..];
      if d != [] && AllDigits(d) then
        Some(if t[0] == '-' then -(DigitsValue(d) as int) else DigitsValue(d))
      else
        None
    else if t != [] && AllDigits(t) then
      Some(DigitsValue(t))
    else
      None
  }

  /** `int(str(n)) == n`. */
  lemma ParseShowInt(n: int)
    ensures ParseInt(ShowInt(n)) == Some(n)
  {
    var s := ShowInt(n);
    StripUntrimmed(s);
    if n < 0 {
      assert s[1..] == ShowNat(-n);
    } else {
      assert !(s[0] == '+' || s[0] == '-');
    }
  }

  /** First index in `s` holding `a` or `b`, or `|s|` when neither occurs. */
  function FindEither(s: string, a: char, b: char): (k: nat)
    ensures k <= |s|
    ensures k < |s| ==> s[k] == a || s[k] == b
    ensures forall i :: 0 <= i < k ==> s[i] != a && s[i] != b
  {
    if s == [] || s[0] == a || s[0] == b then 0 else 1 + FindEither(s[1..], a, b)
  }

  /** `m * 10^k`, one factor of ten at a time. */
  function Shift(m: real, k: int): real
    decreases if k >= 0 then k else -k
  {
    if k == 0 then m else if k > 0 then Shift(m * 10.0, k - 1) else Shift(m / 10.0, k + 1)
  }

  /** The exponent after `e` or `E`: an optional sign and at least one digit. */
  function ParseExponent(s: string): Option<int> {
    if s != [] && (s[0] == '+' || s[0] == '-') && s[1..] != [] && AllDigits(s[1..]) then
      Some(if s[0] == '-' then -(DigitsValue(s[1..]) as int) else DigitsValue(s[1..]))
    else if s != [] && AllDigits(s) then
      Some(DigitsValue(s))
    else
      None
  }

  /** Digits with an optional `.` and fraction digits, at least one digit in all. */
  function ParseMantissa(m: string): Option<real> {
    var p := FindEither(m, '.', '.');
    var whole := m[..p];
    var fraction := if p < |m| then m[p + 1..] else "";
    if AllDigits(whole) && AllDigits(fraction) && |whole| + |fraction| > 0 then
      Some(DigitsValue(whole) as real + Shift(DigitsValue(fraction) as real, -|fraction|))
    else
      None
  }

  /** An unsigned decimal: a mantissa, then an optional exponent after `e` or `E`. */
  function ParseUnsignedReal(t: string): Option<real> {
    var e := FindEither(t, 'e', 'E');
    var exponent := if e < |t| then ParseExponent(t[e + 1..]) else Some(0);
    match ParseMantissa(t[..e])
    case Some(m) => if exponent.Some? then Some(Shift(m, exponent.value)) else None
    case None => None
  }

  /** Python's `float(s)` on a string written in decimal notation. None stands for the ValueError. */
  function ParseReal(s: string): (r: Option<real>)
    ensures IsBlank(s) ==> r.None?
  {
    SignedReal(Strip(s))
  }

  /** `float()` on text with the surrounding whitespace already removed. */
  function SignedReal(t: string): Option<real> {
    if t != [] && (t[0] == '+' || t[0] == '-') then
      match ParseUnsignedReal(t[1..])
      case Some(v) => Some(if t[0] == '-' then -v else v)
      case None => None
    else
      ParseUnsignedReal(t)
  }

  lemma FindEitherInDigits(d: string, a: char, b: char)
    requires AllDigits(d) && !IsDigit(a) && !IsDigit(b)
    ensures FindEither(d, a, b) == |d|
  {
  }

  lemma UnsignedRealOfDigits(d: string)
    requires d != [] && AllDigits(d)
    ensures ParseUnsignedReal(d) == Some(DigitsValue(d) as real)
  {
    FindEitherInDigits(d, 'e', 'E');
    assert d[..|d|] == d;
    FindEitherInDigits(d, '.', '.');
    assert ParseMantissa(d) == Some(DigitsValue(d) as real);
  }

  /** Every string `int` accepts, `float` accepts with the same value. */
  lemma ParseRealExtendsParseInt(s: string)
    requires ParseInt(s).Some?
    ensures ParseReal(s) == Some(ParseInt(s).value as real)
  {
    SignedRealExtendsSignedInt(Strip(s));
  }

  lemma SignedRealExtendsSignedInt(t: string)
    requires SignedInt(t).Some?
    ensures SignedReal(t) == Some(SignedInt(t).value as real)
  {
    if t[0] == '+' || t[0] == '-' {
      UnsignedRealOfDigits(t[1..]);
    } else {
      UnsignedRealOfDigits(t);
    }
  }

  /** A value passed to the JSON backend's `add_movie` as year or rating. */
  datatype Scalar = IntNum(i: int) | FloatNum(x: real) | Str(s: string)

  /** Python's `int(x)` on a float: truncation toward zero. */
  function Truncate(x: real): (r: int)
    ensures 0.0 <= x ==> 0 <= r && r as real <= x < r as real + 1.0
    ensures x < 0.0 ==> r <= 0 && r as real - 1.0 < x <= r as real
  {
    if x >= 0.0 then x.Floor else -((-x).Floor)
  }

  /** Python's `int(v)`; None stands for the ValueError. */
  function IntOf(v: Scalar): (r: Option<int>)
    ensures v.IntNum? ==> r == Some(v.i)
    ensures v.FloatNum? ==>
      && r.Some? && -1.0 < v.x - r.value as real < 1.0
      && (0.0 <= v.x ==> 0.0 <= r.value as real <= v.x)
      && (v.x < 0.0 ==> v.x <= r.value as real <= 0.0)
    ensures v.Str? && IsBlank(v.s) ==> r.None?
  {
    match v
    case IntNum(i) => Some(i)
    case FloatNum(x) => Some(Truncate(x))
    case Str(s) => ParseInt(s)
  }

  /** Python's `float(v)`; None stands for the ValueError. */
  function FloatOf(v: Scalar): (r: Option<real>)
    ensures IntOf(v).Some? ==> r.Some?
    ensures !v.FloatNum? && IntOf(v).Some? ==> r == Some(IntOf(v).value as real)
    ensures v.FloatNum? ==> r == Some(v.x)
  {
    match v
    case IntNum(i) => Some(i as real)
    case FloatNum(x) => Some(x)
    case Str(s) =>
      if ParseInt(s).Some? then ParseRealExtendsParseInt(s); ParseReal(s) else ParseReal(s)
  }
}
