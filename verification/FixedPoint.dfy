/**
 Fixed-point text of a double, rounded once from its exact value by way of big integers, and reading such text back
 as a sign, a mantissa and a number of fraction digits.
 */
module FixedPoint {
  import opened Arithmetic
  import opened BigNumbers
  import opened Decimals
  import opened Integers
  import opened Wrappers

  /** An IEEE 754 binary64 datum by its three bit fields. */
  datatype RawDouble = Double(negative: bool, biased: nat, fraction: nat)
  type Double = d: RawDouble | d.biased < 0x800 && d.fraction < 0x10_0000_0000_0000
    witness Double(false, 0, 0)

  predicate Finite(d: Double) {
    d.biased < 0x7ff
  }

  /** The magnitude of a finite double is its significand times two to the power of its exponent. */
  function Significand(d: Double): nat {
    if d.biased == 0 then d.fraction else d.fraction + 0x10_0000_0000_0000
  }

  function Exponent(d: Double): int {
    if d.biased == 0 then -1074 else d.biased - 1075
  }

  // ----- rounding -----

  function Distance(a: int, b: int): nat {
    if a >= b then a - b else b - a
  }

  /** `q` is the integer nearest to `n / m`, and the even one of two that are equally near. */
  predicate NearestEven(n: nat, m: nat, q: nat) {
    2 * Distance(n, q * m) < m || (2 * Distance(n, q * m) == m && q % 2 == 0)
  }

  lemma {:induction false} NearestIsUnique(n: nat, m: nat, p: nat, q: nat)
    requires m > 0 && NearestEven(n, m, p) && NearestEven(n, m, q)
    ensures p == q
  {
    if p < q {
      NearestNotBelow(n, m, p, q);
    } else if q < p {
      NearestNotBelow(n, m, q, p);
    }
  }

  lemma {:induction false} NearestNotBelow(n: nat, m: nat, p: nat, q: nat)
    requires m > 0 && NearestEven(n, m, p) && p < q
    ensures !NearestEven(n, m, q)
  {
    MulLe(p + 1, q, m);
    Distribute(p, 1, m);
    if q >= p + 2 {
      MulLe(p + 2, q, m);
      Distribute(p, 2, m);
    }
  }

  /** The tie bit, the bits below it and the lowest kept bit decide the rounding. */
  lemma {:induction false} RoundedUp(n: nat, j: nat)
    requires j > 0
    ensures var up := (n / Power(2, j - 1)) % 2 == 1 && (n % Power(2, j - 1) != 0 || Quotient(n, Power(2, j)) % 2 == 1);
            NearestEven(n, Power(2, j), if up then Quotient(n, Power(2, j)) + 1 else Quotient(n, Power(2, j)))
  {
    assert Power(2, j) == 2 * Power(2, j - 1);
    RoundHalf(n, Power(2, j - 1));
  }

  lemma {:induction false} RoundHalf(n: nat, half: nat)
    requires half > 0
    ensures var up := (n / half) % 2 == 1 && (n % half != 0 || Quotient(n, 2 * half) % 2 == 1);
            NearestEven(n, 2 * half, if up then Quotient(n, 2 * half) + 1 else Quotient(n, 2 * half))
  {
    var h, s := QuotientRemainder(n, half);
    var q, b := h / 2, h % 2;
    Distribute(q * 2, b, half);
    Associate(q, 2, half);
    var low := b * half + s;
    assert low == if b == 0 then s else half + s;
    Divides(n, 2 * half, q, low);
    Distribute(q, 1, 2 * half);
  }

  // ----- the text -----

  /** The exact magnitude times 10^precision is a ratio with this numerator and denominator. */
  function Numerator(d: Double, precision: nat): nat {
    Significand(d) * Power(10, precision) * (if Exponent(d) >= 0 then Power(2, Exponent(d)) else 1)
  }

  function Denominator(d: Double): nat {
    if Exponent(d) >= 0 then 1 else Power(2, -Exponent(d))
  }

  function Sign(negative: bool): string {
    if negative then "-" else ""
  }

  /**
   A number of units of 10^-precision: the integer part without superfluous zeros, the point, all the other
   digits.
   */
  function PointText(units: nat, precision: nat): string {
    if precision == 0 then Decimal(units)
    else Decimal(units / Power(10, precision)) + "." + Padded(units % Power(10, precision), precision)
  }

  /** The text stands for the exact value of the double, rounded once. */
  ghost predicate FixedText(d: Double, precision: nat, text: string) {
    if !Finite(d) then text == Sign(d.negative) + (if d.fraction != 0 then "nan" else "inf")
    else
      exists units: nat ::
        && NearestEven(Numerator(d, precision), Denominator(d), units)
        && text == Sign(d.negative) + PointText(units, precision)
  }

  method FormatFixedPoint(d: Double, precision: nat) returns (text: string)
    ensures FixedText(d, precision, text)
  {
    var zeros := if precision > 0 then "." + Zeros(precision) else "";
    if d.biased == 0 && d.fraction == 0 {
      ZeroText(d, precision);
      return Sign(d.negative) + ("0" + zeros);
    }
    if d.biased == 0x7ff {
      return Sign(d.negative) + if d.fraction != 0 then "nan" else "inf";
    }
    var scaled := ScaleAndRound(d, precision);
    ghost var units := scaled.Number();
    var digits := scaled.ToDecimal();
    var body := InsertPoint(digits, precision, units);
    return Sign(d.negative) + body;
  }

  /** The rounded number of units, computed exactly on limbs. */
  method ScaleAndRound(d: Double, precision: nat) returns (scaled: Big)
    requires Finite(d)
    ensures fresh(scaled) && scaled.limbs != []
    ensures NearestEven(Numerator(d, precision), Denominator(d), scaled.Number())
  {
    var m, k := Significand(d), Exponent(d);
    scaled := new Big(m);
    for i := 0 to precision
      invariant fresh(scaled) && scaled.limbs != [] && scaled.Number() == m * Power(10, i)
    {
      TenTimes(m, i);
      scaled.MulSmall(10);
    }
    if k >= 0 {
      scaled.Shl(k);
      Exact(Numerator(d, precision));
    } else {
      var j := -k;
      ghost var n := scaled.Number();
      var half := scaled.Bit(j - 1);
      var sticky := scaled.AnyBitBelow(j - 1);
      var odd := scaled.Bit(j);
      RoundedUp(n, j);
      scaled.Shr(j);
      if half && (sticky || odd) {
        scaled.AddOne();
      }
    }
  }

  lemma {:induction false} TenTimes(m: nat, i: nat)
    ensures m * Power(10, i) * 10 == m * Power(10, i + 1)
  {
    Associate(m, Power(10, i), 10);
  }

  lemma {:induction false} Exact(n: nat)
    ensures NearestEven(n, 1, n)
  {
  }

  lemma {:induction false} ZeroText(d: Double, precision: nat)
    requires d.biased == 0 && d.fraction == 0
    ensures FixedText(d, precision, Sign(d.negative) + ("0" + (if precision > 0 then "." + Zeros(precision) else "")))
  {
    assert Numerator(d, precision) == 0;
    assert NearestEven(Numerator(d, precision), Denominator(d), 0);
    PaddedZero(precision);
    ZeroParts(Power(10, precision));
    assert PointText(0, precision) == "0" + (if precision > 0 then "." + Zeros(precision) else "");
  }

  lemma {:induction false} ZeroParts(p: nat)
    requires p > 0
    ensures 0 / p == 0 && 0 % p == 0
  {
  }

  /** Puts the point `precision` places from the right, after padding to at least one digit before it. */
  method InsertPoint(digits: string, precision: nat, ghost units: nat) returns (body: string)
    requires digits == Decimal(units)
    ensures body == PointText(units, precision)
  {
    if precision == 0 {
      return digits;
    }
    var padded := if |digits| <= precision then Zeros(precision + 1 - |digits|) + digits else digits;
    CutAtPoint(units, precision, padded);
    var cut := |padded| - precision;
    return padded[..cut] + "." + padded[cut..];
  }

  lemma {:induction false} CutAtPoint(units: nat, precision: nat, padded: string)
    requires precision > 0
    requires padded == if |Decimal(units)| <= precision
      then Zeros(precision + 1 - |Decimal(units)|) + Decimal(units) else Decimal(units)
    ensures padded == Decimal(units / Power(10, precision)) + Padded(units % Power(10, precision), precision)
    ensures |padded| >= precision
    ensures padded[..|padded| - precision] == Decimal(units / Power(10, precision))
    ensures padded[|padded| - precision..] == Padded(units % Power(10, precision), precision)
  {
    var p := Power(10, precision);
    DigitCount(units, precision);
    var q, r := QuotientRemainder(units, p);
    if units < p {
      Divides(units, p, 0, units);
      ZeroPad(units, precision);
      assert padded == "0" + Padded(units, precision);
    } else {
      AtLeastOnce(units, p);
      DecimalJoin(q, r, precision);
    }
  }

  // ----- reading the text back -----

  /** Where a decimal scan stands after some characters. */
  datatype Scanner = Scanner(mantissa: nat, fractionDigits: nat, seenDot: bool, seenDigit: bool)

  /** The mantissa takes another digit only below this bound, so that it fits a signed 64-bit integer. */
  const LIMIT: nat := 922_337_203_685_477_580

  function Read(s: Scanner, c: char, first: bool): Result<Scanner> {
    if first && (c == '-' || c == '+') then Ok(s)
    else if c == '.' then if s.seenDot then Err(Invalid(BadLiteral)) else Ok(s.(seenDot := true))
    else if !IsDigit(c) then Err(Invalid(BadLiteral))
    else if s.mantissa >= LIMIT then Err(Invalid(PrecisionSupport))
    else Ok(Scanner(s.mantissa * 10 + DigitOf(c), s.fractionDigits + (if s.seenDot then 1 else 0), s.seenDot, true))
  }

  function ReadAll(text: string): Result<Scanner> {
    if text == [] then Ok(Scanner(0, 0, false, false))
    else
      var s :- ReadAll(text[..|text| - 1]);
      Read(s, text[|text| - 1], |text| == 1)
  }

  /** What a literal denotes: the two special texts, or a sign, an integer and how many of its digits are fractional. */
  datatype Literal = Infinity | NotANumber | Ratio(negative: bool, mantissa: nat, fractionDigits: nat)

  method ParseDecimal(text: string) returns (r: Result<Literal>)
    ensures text == "inf" ==> r == Ok(Infinity)
    ensures text == "nan" ==> r == Ok(NotANumber)
    ensures text != "inf" && text != "nan" ==>
              match ReadAll(text)
              case Err(e) => r == Err(e)
              case Ok(s) =>
                r == if s.seenDigit then Ok(Ratio(text != [] && text[0] == '-', s.mantissa, s.fractionDigits))
                  else Err(Invalid(BadLiteral))
  {
    if text == "inf" {
      return Ok(Infinity);
    }
    if text == "nan" {
      return Ok(NotANumber);
    }
    var negative := |text| > 0 && text[0] == '-';
    var mantissa: nat, fractionDigits: nat, seenDot, seenDigit := 0, 0, false, false;
    for i := 0 to |text|
      invariant ReadAll(text[..i]) == Ok(Scanner(mantissa, fractionDigits, seenDot, seenDigit))
    {
      var c := text[i];
      ReadNext(text, i);
      if i == 0 && (c == '-' || c == '+') {
      } else if c == '.' {
        if seenDot {
          ErrStays(text, i + 1);
          return Err(Invalid(BadLiteral));
        }
        seenDot := true;
      } else if !IsDigit(c) {
        ErrStays(text, i + 1);
        return Err(Invalid(BadLiteral));
      } else {
        seenDigit := true;
        if mantissa >= LIMIT {
          ErrStays(text, i + 1);
          return Err(Invalid(PrecisionSupport));
        }
        mantissa := mantissa * 10 + DigitOf(c);
        if seenDot {
          fractionDigits := fractionDigits + 1;
        }
      }
    }
    assert text[..|text|] == text;
    if !seenDigit {
      return Err(Invalid(BadLiteral));
    }
    return Ok(Ratio(negative, mantissa, fractionDigits));
  }

  lemma {:induction false} ReadNext(text: string, i: nat)
    requires i < |text| && ReadAll(text[..i]).Ok?
    ensures ReadAll(text[..i + 1]) == Read(ReadAll(text[..i]).value, text[i], i == 0)
  {
    assert text[..i + 1][..i] == text[..i];
  }

  lemma {:induction false} ErrStays(text: string, i: nat)
    requires i <= |text| && ReadAll(text[..i]).Err?
    ensures ReadAll(text) == Err(ReadAll(text[..i]).error)
    decreases |text|
  {
    if i < |text| {
      assert text[..|text| - 1][..i] == text[..i];
      ErrStays(text[..|text| - 1], i);
    } else {
      assert text[..i] == text;
    }
  }

  ghost predicate AllDigits(text: string) {
    forall c <- text :: IsDigit(c)
  }

  /** The scan after a run of digits: the mantissa continues, unless it leaves the supported range. */
  function Continued(s: Scanner, digits: string): Result<Scanner>
    requires forall c <- digits :: IsDigit(c)
  {
    var mantissa := s.mantissa * Power(10, |digits|) + DigitsValue(digits);
    if digits == [] then Ok(s)
    else if mantissa / 10 >= LIMIT then Err(Invalid(PrecisionSupport))
    else Ok(Scanner(mantissa, s.fractionDigits + (if s.seenDot then |digits| else 0), s.seenDot, true))
  }

  lemma {:induction false} ReadLast(front: string, last: char)
    requires IsDigit(last)
    ensures ReadAll(front).Ok? ==> ReadAll(front + [last]) == Read(ReadAll(front).value, last, false)
    ensures ReadAll(front).Err? ==> ReadAll(front + [last]) == ReadAll(front)
  {
    var text := front + [last];
    assert text[..|text| - 1] == front && text[|text| - 1] == last;
  }

  lemma {:induction false} DigitsRead(pre: string, digits: string)
    requires ReadAll(pre).Ok? && AllDigits(digits)
    ensures ReadAll(pre + digits) == Continued(ReadAll(pre).value, digits)
    decreases |digits|
  {
    if digits == [] {
      assert pre + digits == pre;
    } else {
      var front, last := digits[..|digits| - 1], digits[|digits| - 1];
      assert digits == front + [last];
      assert last in digits && AllDigits(front);
      DigitsRead(pre, front);
      assert pre + digits == (pre + front) + [last];
      ReadLast(pre + front, last);
      ContinuedNext(ReadAll(pre).value, front, last);
    }
  }

  lemma {:induction false} ContinuedNext(s: Scanner, front: string, last: char)
    requires AllDigits(front) && IsDigit(last)
    ensures AllDigits(front + [last])
    ensures Continued(s, front).Ok? ==> Continued(s, front + [last]) == Read(Continued(s, front).value, last, false)
    ensures Continued(s, front).Err? ==> Continued(s, front + [last]) == Continued(s, front)
  {
    var digits := front + [last];
    assert digits[..|front|] == front && digits[|digits| - 1] == last;
    assert AllDigits(digits);
    assert DigitsValue(digits) == DigitsValue(front) * 10 + DigitOf(last);
    var before := s.mantissa * Power(10, |front|) + DigitsValue(front);
    TenTimes(s.mantissa, |front|);
    assert s.mantissa * Power(10, |digits|) + DigitsValue(digits) == before * 10 + DigitOf(last);
    assert Power(10, 0) == 1;
  }

  lemma {:induction false} PaddedDenotes(n: nat, width: nat)
    requires n < Power(10, width)
    ensures AllDigits(Padded(n, width)) && DigitsValue(Padded(n, width)) == n
  {
    if width > 0 {
      QuotientBelow(n, Power(10, width - 1), 10);
      PaddedDenotes(n / 10, width - 1);
      assert Padded(n, width)[..width - 1] == Padded(n / 10, width - 1);
    }
  }

  /** Formatted text reads back as its units and precision, exactly when the units fit the mantissa. */
  lemma {:induction false} FormatThenRead(negative: bool, units: nat, precision: nat)
    ensures ReadAll(Sign(negative) + PointText(units, precision))
         == if units / 10 < LIMIT then Ok(Scanner(units, precision, precision > 0, true))
           else Err(Invalid(PrecisionSupport))
  {
    var sign := Sign(negative);
    assert ReadAll(sign) == Ok(Scanner(0, 0, false, false)) by {
      assert "-"[..0] == [];
    }
    if precision == 0 {
      ReadWhole(sign, units);
    } else {
      ReadPointed(sign, units, precision);
    }
  }

  lemma {:induction false} PointRead(pre: string)
    requires ReadAll(pre).Ok? && !ReadAll(pre).value.seenDot
    ensures ReadAll(pre + ".") == Ok(ReadAll(pre).value.(seenDot := true))
  {
    assert (pre + ".")[..|pre|] == pre;
  }

  lemma {:induction false} ErrGoesOn(pre: string, rest: string)
    requires ReadAll(pre).Err?
    ensures ReadAll(pre + rest) == Err(ReadAll(pre).error)
  {
    assert (pre + rest)[..|pre|] == pre;
    ErrStays(pre + rest, |pre|);
  }

  lemma {:induction false} ReadPointed(sign: string, units: nat, precision: nat)
    requires precision > 0 && ReadAll(sign) == Ok(Scanner(0, 0, false, false))
    ensures ReadAll(sign + PointText(units, precision))
         == if units / 10 < LIMIT then Ok(Scanner(units, precision, true, true)) else Err(Invalid(PrecisionSupport))
  {
    var q, r := QuotientRemainder(units, Power(10, precision));
    var whole, part := Decimal(q), Padded(r, precision);
    assert sign + PointText(units, precision) == (sign + whole) + ("." + part) == (sign + whole + ".") + part;
    ReadWhole(sign, q);
    if q / 10 >= LIMIT {
      ErrGoesOn(sign + whole, "." + part);
      WholeBelow(q, units, Power(10, precision));
    } else {
      PointRead(sign + whole);
      ReadPart(sign + whole + ".", q, r, precision, units);
    }
  }

  lemma {:induction false} ReadPart(pre: string, q: nat, r: nat, precision: nat, units: nat)
    requires precision > 0 && r < Power(10, precision) && units == q * Power(10, precision) + r
    requires ReadAll(pre) == Ok(Scanner(q, 0, true, true))
    ensures ReadAll(pre + Padded(r, precision))
         == if units / 10 < LIMIT then Ok(Scanner(units, precision, true, true)) else Err(Invalid(PrecisionSupport))
  {
    PaddedDenotes(r, precision);
    DigitsRead(pre, Padded(r, precision));
  }

  lemma {:induction false} ReadWhole(sign: string, q: nat)
    requires ReadAll(sign) == Ok(Scanner(0, 0, false, false))
    ensures ReadAll(sign + Decimal(q)) == if q / 10 < LIMIT then Ok(Scanner(q, 0, false, true))
      else Err(Invalid(PrecisionSupport))
  {
    DecimalDenotes(q);
    DigitsRead(sign, Decimal(q));
  }

  lemma {:induction false} WholeBelow(q: nat, units: nat, p: nat)
    requires p > 0 && q == units / p
    ensures q / 10 <= units / 10
  {
    var d, r := QuotientRemainder(units, p);
    MulLe(1, p, d);
    assert q <= units;
  }

  /** The text of negative infinity and of a negative nan is not read back. */
  lemma {:induction false} NegativeSpecialsUnread(rest: string)
    requires rest != "" && !IsDigit(rest[0]) && rest[0] != '.'
    ensures ReadAll("-" + rest) == Err(Invalid(BadLiteral))
  {
    var text := "-" + rest;
    assert text[..1][..0] == [] && text[..1][0] == '-';
    assert ReadAll(text[..1]) == Ok(Scanner(0, 0, false, false));
    ReadNext(text, 1);
    ErrStays(text, 2);
  }
}
