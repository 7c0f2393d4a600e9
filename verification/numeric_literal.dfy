/**
 * The two string-to-number conversions the id route relies on: `Number(s)`
 * (and `isNaN(s)`, which applies it) and `parseInt(s)`.
 *
 * `Number(s)` is modelled on decimal literals: an optional sign, then digits
 * with an optional point and fraction, or a point followed by digits. This is
 * the StrDecimalLiteral of section 7.1.4.1.1 of ECMA-262 without exponents and
 * `Infinity`; whitespace, the empty string and the 0x/0o/0b forms are outside
 * the model, and every string outside the grammar converts to NaN.
 */
module NumericLiteral {
  import opened Wrappers
  import opened JsNumber

  predicate IsDigit(c: char) {
    '0' <= c <= '9'
  }

  predicate AllDigits(s: string) {
    forall i :: 0 <= i < |s| ==> IsDigit(s[i])
  }

  predicate AllZeros(s: string) {
    forall i :: 0 <= i < |s| ==> s[i] == '0'
  }

  function DigitValue(c: char): nat
    requires IsDigit(c)
  {
    (c as int) - ('0' as int)
  }

  /** The value of a run of decimal digits, most significant first. */
  function DigitsValue(s: string): nat
    requires AllDigits(s)
  {
    if s == [] then 0 else DigitsValue(s[..|s| - 1]) * 10 + DigitValue(s[|s| - 1])
  }

  function Pow10(n: nat): (p: nat)
    ensures p >= 1
  {
    if n == 0 then 1 else 10 * Pow10(n - 1)
  }

  /** A run of `n` digits is worth less than 10^n. */
  lemma {:induction false} DigitsValueBound(s: string)
    requires AllDigits(s)
    ensures DigitsValue(s) < Pow10(|s|)
  {
    if s != [] {
      var init := s[..|s| - 1];
      DigitsValueBound(init);
      assert DigitsValue(init) + 1 <= Pow10(|init|);
      assert (DigitsValue(init) + 1) * 10 <= Pow10(|init|) * 10;
    }
  }

  /** A run of digits is worth zero exactly when every digit is '0'. */
  lemma {:induction false} DigitsValueZero(s: string)
    requires AllDigits(s)
    ensures DigitsValue(s) == 0 <==> AllZeros(s)
  {
    if s != [] {
      var init := s[..|s| - 1];
      DigitsValueZero(init);
      if AllZeros(s) {
        assert AllZeros(init) by {
          forall i | 0 <= i < |init| ensures init[i] == '0' {
            assert init[i] == s[i];
          }
        }
      } else if AllZeros(init) {
        assert s == init + [s[|s| - 1]];
        assert s[|s| - 1] != '0';
      }
    }
  }

  /**
   * The length of the longest prefix of `s` made of digits.
   */
  function DigitRun(s: string): (n: nat)
    ensures n <= |s|
    ensures AllDigits(s[..n])
    ensures n < |s| ==> !IsDigit(s[n])
  {
    if s == [] || !IsDigit(s[0]) then 0
    else
      var m := DigitRun(s[1..]);
      assert s[..1 + m] == [s[0]] + s[1..][..m];
      1 + m
  }

  /** The digit run of `w + t` is `w` when `t` does not start with a digit. */
  lemma {:induction false} DigitRunOfDigitsThenOther(w: string, t: string)
    requires AllDigits(w)
    requires t == [] || !IsDigit(t[0])
    ensures DigitRun(w + t) == |w|
  {
    if w == [] {
      assert w + t == t;
    } else {
      assert (w + t)[0] == w[0];
      assert (w + t)[1..] == w[1..] + t;
      DigitRunOfDigitsThenOther(w[1..], t);
    }
  }

  datatype Sign = Unsigned | Plus | Minus

  function SignText(sign: Sign): string {
    match sign
    case Unsigned => ""
    case Plus => "+"
    case Minus => "-"
  }

  /**
   * A decimal literal as written: `[sign] whole [. fraction]`, where a literal
   * with a point needs a digit on at least one side of it and a literal
   * without one needs a digit.
   */
  datatype DecimalLiteral = DecimalLiteral(sign: Sign, whole: string, point: bool, fraction: string) {

    predicate Valid() {
      && AllDigits(whole)
      && AllDigits(fraction)
      && (point ==> whole != [] || fraction != [])
      && (!point ==> whole != [] && fraction == [])
    }

    function Text(): string {
      SignText(sign) + whole + (if point then "." + fraction else "")
    }

    /** The absolute value of the literal: whole + fraction / 10^|fraction|. */
    function Magnitude(): real
      requires Valid()
    {
      DigitsValue(whole) as real + DigitsValue(fraction) as real / Pow10(|fraction|) as real
    }

    function Value(): real
      requires Valid()
    {
      if sign == Minus then -Magnitude() else Magnitude()
    }
  }

  /** Splits off a leading '-' or '+'. */
  function SplitSign(s: string): (r: (Sign, string))
    ensures SignText(r.0) + r.1 == s
    ensures r.0 == Minus <==> |s| > 0 && s[0] == '-'
    ensures r.0 == Plus <==> |s| > 0 && s[0] == '+'
  {
    if |s| > 0 && s[0] == '-' then (Minus, s[1..])
    else if |s| > 0 && s[0] == '+' then (Plus, s[1..])
    else (Unsigned, s)
  }

  /** A sign followed by a body that does not itself start with a sign splits back into the two. */
  lemma SplitSignText(sign: Sign, body: string)
    requires body == [] || (body[0] != '-' && body[0] != '+')
    ensures SplitSign(SignText(sign) + body) == (sign, body)
  {
    match sign
    case Unsigned => assert SignText(sign) + body == body;
    case Plus => assert (SignText(sign) + body)[1..] == body;
    case Minus => assert (SignText(sign) + body)[1..] == body;
  }

  /** Recognises a decimal literal; `None` for any other string. */
  function Parse(s: string): (r: Option<DecimalLiteral>)
    ensures r.Some? ==> r.value.Valid() && r.value.Text() == s
  {
    var (sign, body) := SplitSign(s);
    ParseUnsigned(sign, body)
  }

  /** Recognises the part of a decimal literal after its sign. */
  function ParseUnsigned(sign: Sign, body: string): (r: Option<DecimalLiteral>)
    ensures r.Some? ==> r.value.Valid() && r.value.Text() == SignText(sign) + body
  {
    var n := DigitRun(body);
    var whole := body[..n];
    var rest := body[n..];
    assert body == whole + rest;
    if rest == [] then
      if n > 0 then Some(DecimalLiteral(sign, whole, false, [])) else None
    else if rest[0] == '.' && AllDigits(rest[1..]) && (n > 0 || |rest| > 1) then
      assert rest == "." + rest[1..];
      Some(DecimalLiteral(sign, whole, true, rest[1..]))
    else
      None
  }

  /** Every valid literal is recognised from its own text, so `Parse` and `Text` are inverse. */
  lemma ParseText(d: DecimalLiteral)
    requires d.Valid()
    ensures Parse(d.Text()) == Some(d)
  {
    var tail := if d.point then "." + d.fraction else "";
    var body := d.whole + tail;
    assert d.Text() == SignText(d.sign) + body;
    assert body != [] && (IsDigit(body[0]) || body[0] == '.');
    SplitSignText(d.sign, body);
    DigitRunOfDigitsThenOther(d.whole, tail);
    assert body[..|d.whole|] == d.whole;
    assert body[|d.whole|..] == tail;
    if d.point {
      assert tail[1..] == d.fraction;
    }
  }

  /** `Number(s)` for a string `s`. */
  function ToNumber(s: string): (n: Number)
    ensures n.NaN? || n.Finite?
  {
    match Parse(s)
    case None => NaN
    case Some(d) => Finite(d.Value())
  }

  /**
   * `parseInt(s)` with no radix: an optional sign, then the longest run of
   * decimal digits, NaN when there is none. Leading whitespace and the 0x
   * prefix are not modelled: no string accepted by the modelled `Number` has
   * either.
   */
  function ParseInt(s: string): (n: Number)
    ensures n.NaN? || IsInteger(n)
  {
    var (sign, body) := SplitSign(s);
    var k := DigitRun(body);
    if k == 0 then NaN
    else
      var m := DigitsValue(body[..k]);
      var v: int := if sign == Minus then -(m as int) else m;
      FromIntIsInteger(v);
      FromInt(v)
  }

  lemma FractionBelowOne(f: nat, p: nat)
    requires 0 < f < p
    ensures 0.0 < f as real / p as real < 1.0
  {
  }

  /**
   * A decimal literal denotes an integer exactly when its fraction digits are
   * all zeros: "2.0" and "2." do, "1.5" does not.
   */
  lemma {:induction false} IntegerIffZeroFraction(d: DecimalLiteral)
    requires d.Valid()
    ensures IsInteger(Finite(d.Value())) <==> AllZeros(d.fraction)
  {
    var w := DigitsValue(d.whole);
    var f := DigitsValue(d.fraction);
    var p := Pow10(|d.fraction|);
    DigitsValueBound(d.fraction);
    DigitsValueZero(d.fraction);
    if f == 0 {
      assert d.Magnitude() == w as real;
      var v: int := if d.sign == Minus then -(w as int) else w;
      assert d.Value() == v as real;
    } else {
      FractionBelowOne(f, p);
      var m := d.Magnitude();
      assert w as real < m < (w + 1) as real;
      if d.sign == Minus {
        NotIntegerBetween(-m, -(w as int) - 1);
      } else {
        NotIntegerBetween(m, w);
      }
    }
  }

  /** `Number(s)` is an integer exactly when `s` is a decimal literal whose fraction digits are all zeros. */
  lemma IntegerNumberIff(s: string)
    ensures IsInteger(ToNumber(s)) <==> Parse(s).Some? && AllZeros(Parse(s).value.fraction)
  {
    if Parse(s).Some? {
      IntegerIffZeroFraction(Parse(s).value);
    }
  }

  /** The integer a sign and a digit value denote. */
  function Signed(sign: Sign, m: nat): int {
    if sign == Minus then -(m as int) else m
  }

  /**
   * `parseInt` of a literal's text reads the sign and the digits before the
   * point, and is NaN when there are none.
   */
  lemma ParseIntOfLiteral(d: DecimalLiteral)
    requires d.Valid()
    ensures ParseInt(d.Text()) == if d.whole == [] then NaN else FromInt(Signed(d.sign, DigitsValue(d.whole)))
  {
    var tail := if d.point then "." + d.fraction else "";
    var body := d.whole + tail;
    assert d.Text() == SignText(d.sign) + body;
    assert body != [] && (IsDigit(body[0]) || body[0] == '.');
    SplitSignText(d.sign, body);
    DigitRunOfDigitsThenOther(d.whole, tail);
    assert body[..|d.whole|] == d.whole;
  }

  /** A literal whose fraction digits are all zeros denotes its signed whole part. */
  lemma ValueOfZeroFraction(d: DecimalLiteral)
    requires d.Valid() && AllZeros(d.fraction)
    ensures d.Value() == Signed(d.sign, DigitsValue(d.whole)) as real
  {
    DigitsValueZero(d.fraction);
  }

  /**
   * When `Number(s)` is an integer, `parseInt(s)` yields that same integer
   * whenever a digit precedes the point; when none does (".0", "-.0"),
   * `parseInt(s)` is NaN while `Number(s)` is zero.
   */
  lemma ParseIntAgreesWithNumber(s: string)
    requires IsInteger(ToNumber(s))
    ensures Parse(s).Some?
    ensures Parse(s).value.whole != [] ==> ParseInt(s) == ToNumber(s)
    ensures Parse(s).value.whole == [] ==> ParseInt(s).NaN? && ToNumber(s) == FromInt(0)
  {
    IntegerNumberIff(s);
    var d := Parse(s).value;
    ParseIntOfLiteral(d);
    ValueOfZeroFraction(d);
  }
}
