/**
 Fixed-width integer encodings and decimal text: both byte orders and their decoding, powers, and the
 digits of a number without superfluous zeros, with the round trips that the size fields, the float
 texts and the case ids rely on.
 */
module Integers {
  import opened Arithmetic

  type Byte = n: nat | n < 256
  type Bytes = seq<Byte>

  datatype Endian = Little | Big

  function Power(base: nat, exponent: nat): (r: nat)
    ensures base > 0 ==> r > 0
  {
    if exponent == 0 then 1 else base * Power(base, exponent - 1)
  }

  lemma {:induction false} PowerAdd(base: nat, a: nat, b: nat)
    ensures Power(base, a + b) == Power(base, a) * Power(base, b)
  {
    if a > 0 {
      PowerAdd(base, a - 1, b);
      var x, y := Power(base, a - 1), Power(base, b);
      assert base * (x * y) == (base * x) * y;
    }
  }

  lemma {:induction false} PowersOfTwo()
    ensures Power(2, 8) == 256
    ensures Power(2, 16) == 0x1_0000
    ensures Power(2, 23) == 0x80_0000
    ensures Power(2, 31) == 0x8000_0000
    ensures Power(2, 32) == 0x1_0000_0000
  {
    PowersOfTwoTo16();
    PowerAdd(2, 16, 7);
    PowerAdd(2, 16, 15);
    PowerAdd(2, 16, 16);
  }

  lemma {:induction false} PowersOfTwoTo16()
    ensures Power(2, 7) == 128
    ensures Power(2, 8) == 256
    ensures Power(2, 15) == 0x8000
    ensures Power(2, 16) == 0x1_0000
  {
    assert Power(2, 2) == 4;
    assert Power(2, 4) == 16;
    assert Power(2, 7) == 128 && Power(2, 8) == 256;
    PowerAdd(2, 8, 7);
    PowerAdd(2, 8, 8);
  }

  /** A quotient is below `p` when the dividend is below `p` divisors. */
  lemma {:induction false} QuotientBelow(n: nat, p: nat, q: nat)
    requires q > 0 && n < p * q
    ensures n / q < p
  {
    var d := n / q;
    assert n == d * q + n % q;
    assert d >= p ==> d * q >= p * q;
  }

  function Quotient(n: nat, q: nat): nat
    requires q > 0
  {
    n / q
  }

  /** The low `width` bytes of a value, least significant first. */
  function LittleBytes(value: nat, width: nat): (r: Bytes)
    ensures |r| == width
  {
    if width == 0 then [] else [value % 256] + LittleBytes(value / 256, width - 1)
  }

  function Reverse(bytes: Bytes): (r: Bytes)
    ensures |r| == |bytes|
    ensures forall i :: 0 <= i < |r| ==> r[i] == bytes[|bytes| - 1 - i]
  {
    seq(|bytes|, i requires 0 <= i < |bytes| => bytes[|bytes| - 1 - i])
  }

  /** `width` is in bytes; the source shifts each byte out of a 64-bit value. */
  function EncodeInteger(value: nat, width: nat, endian: Endian): (r: Bytes)
    ensures |r| == width
  {
    match endian
    case Little => LittleBytes(value, width)
    case Big => Reverse(LittleBytes(value, width))
  }

  function LittleValue(bytes: Bytes): nat {
    if bytes == [] then 0 else bytes[0] + 256 * LittleValue(bytes[1..])
  }

  function DecodeInteger(bytes: Bytes, endian: Endian): nat {
    match endian
    case Little => LittleValue(bytes)
    case Big => LittleValue(Reverse(bytes))
  }

  /** The largest value of a width; widths other than 1, 2, 4 and 8 bytes never reach this point. */
  function IntegerMax(width: nat): nat {
    Power(256, width) - 1
  }

  lemma {:induction false} LittleRoundTrip(value: nat, width: nat)
    requires value <= IntegerMax(width)
    ensures LittleValue(LittleBytes(value, width)) == value
  {
    if width > 0 {
      assert value / 256 < Power(256, width - 1);
      LittleRoundTrip(value / 256, width - 1);
      assert LittleBytes(value, width)[1..] == LittleBytes(value / 256, width - 1);
    }
  }

  /** Decoding an encoded value that fits its width gives the value back, in either byte order. */
  lemma {:induction false} EncodeRoundTrip(value: nat, width: nat, endian: Endian)
    requires value <= IntegerMax(width)
    ensures DecodeInteger(EncodeInteger(value, width, endian), endian) == value
  {
    LittleRoundTrip(value, width);
    var little := LittleBytes(value, width);
    assert Reverse(Reverse(little)) == little;
  }

  /** Byte `i` counted from the least significant end, which is the front of a little-endian field. */
  lemma {:induction false} EncodedByte(value: nat, width: nat, endian: Endian, i: nat)
    requires i < width
    ensures ByteFromEnd(EncodeInteger(value, width, endian), endian, i) == Quotient(value, Power(256, i)) % 256
  {
    LittleByte(value, width, i);
    var little := LittleBytes(value, width);
    assert endian.Big? ==> Reverse(little)[width - 1 - i] == little[i];
  }

  function ByteFromEnd(bytes: Bytes, endian: Endian, i: nat): Byte
    requires i < |bytes|
  {
    match endian
    case Little => bytes[i]
    case Big => bytes[|bytes| - 1 - i]
  }

  lemma {:induction false} LittleByte(value: nat, width: nat, i: nat)
    requires i < width
    ensures LittleBytes(value, width)[i] == Quotient(value, Power(256, i)) % 256
  {
    if i > 0 {
      LittleByte(value / 256, width - 1, i - 1);
      QuotientTwice(value, 256, Power(256, i - 1));
    }
  }

  lemma {:induction false} QuotientTwice(n: nat, p: nat, q: nat)
    requires p > 0 && q > 0
    ensures p * q > 0 && Quotient(Quotient(n, p), q) == Quotient(n, p * q)
  {
    var high, low := QuotientRemainder(n, p);
    CutTwice(low, high, p, q);
  }

  // ----- decimal text -----

  function DigitChar(d: nat): char
    requires d < 10
  {
    (d + 48) as char
  }

  /** Decimal digits of a number, most significant first, without superfluous zeros. */
  function Decimal(n: nat): (r: string)
    ensures |r| > 0
  {
    if n < 10 then [DigitChar(n)] else Decimal(n / 10) + [DigitChar(n % 10)]
  }

  predicate IsDigit(c: char) {
    '0' <= c <= '9'
  }

  function DigitOf(c: char): nat
    requires IsDigit(c)
  {
    c as int - 48
  }

  function DigitsValue(text: string): nat
    requires forall c <- text :: IsDigit(c)
  {
    if text == [] then 0
    else
      assert text[|text| - 1] in text;
      DigitsValue(text[..|text| - 1]) * 10 + DigitOf(text[|text| - 1])
  }

  /** The text denotes the number, and a leading zero only stands alone. */
  lemma {:induction false} DecimalDenotes(n: nat)
    ensures forall c <- Decimal(n) :: IsDigit(c)
    ensures DigitsValue(Decimal(n)) == n
    ensures Decimal(n)[0] == '0' ==> n == 0 && |Decimal(n)| == 1
  {
    if n < 10 {
      assert DigitsValue([]) == 0;
      assert Decimal(n)[..0] == [];
    } else {
      DecimalDenotes(n / 10);
      assert Decimal(n)[..|Decimal(n)| - 1] == Decimal(n / 10);
    }
  }

  /** Decimal text determines the number. */
  lemma {:induction false} DecimalInjective(a: nat, b: nat)
    requires Decimal(a) == Decimal(b)
    ensures a == b
  {
    DecimalDenotes(a);
    DecimalDenotes(b);
  }

  function AsciiText(bytes: Bytes): (r: string)
    ensures |r| == |bytes|
    ensures forall i :: 0 <= i < |r| ==> r[i] == bytes[i] as char
  {
    seq(|bytes|, i requires 0 <= i < |bytes| => bytes[i] as char)
  }

  /** The bytes are decimal digits without superfluous zeros, and denote the number. */
  ghost predicate DigitsTell(bytes: Bytes, number: int) {
    && bytes != [] && (bytes[0] == 48 ==> |bytes| == 1)
    && (forall c <- AsciiText(bytes) :: IsDigit(c))
    && DigitsValue(AsciiText(bytes)) == number
  }

  /** Writing a number in ascii and reading the bytes as digits gives the number. */
  lemma {:induction false} AsciiDenotes(n: nat)
    ensures DigitsTell(AsciiBytes(Decimal(n)), n)
  {
    DecimalDenotes(n);
    var text := Decimal(n);
    forall i | 0 <= i < |text| ensures AsciiText(AsciiBytes(text))[i] == text[i] {
      assert text[i] in text && IsDigit(text[i]);
    }
    assert AsciiText(AsciiBytes(text)) == text;
    assert text[0] in text && (AsciiBytes(text)[0] == 48 ==> text[0] == '0');
  }

  function AsciiBytes(text: string): (r: Bytes)
    ensures |r| == |text|
  {
    seq(|text|, i requires 0 <= i < |text| => if text[i] as nat < 128 then text[i] as nat else 0)
  }
}
