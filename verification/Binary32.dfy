/**
 Narrowing a double to IEEE 754 binary32 and packing it into four bytes. Magnitudes are integers in the
 units of the least positive double, so that rounding to the nearest code, with ties to the even one, is
 a statement about distances of integers; infinity takes the place of the next value.
 */
module Binary32 {
  import opened Arithmetic
  import opened FixedPoint
  import opened Integers

  // ----- magnitudes -----

  const IMPLICIT: nat := 0x10_0000_0000_0000
  const HIDDEN: nat := 0x80_0000
  /** The code of infinity, all exponent bits set. */
  const INFINITE: nat := 0x7f80_0000

  /** The least positive single is 2^SCALE times the least positive double. */
  const SCALE: nat := 925

  /** A finite double in units of 2^-1074, the least positive double. */
  function DoubleUnits(d: Double): nat {
    if d.biased == 0 then d.fraction else (IMPLICIT + d.fraction) * Power(2, d.biased - 1)
  }

  /**
   A binary32 code without its sign, in units of 2^-149; infinity stands for 2^128, where the next finite
   value would be.
   */
  function SingleUnits(code: nat): nat {
    if code < HIDDEN then code else (HIDDEN + code % HIDDEN) * Power(2, code / HIDDEN - 1)
  }

  /** Both magnitudes in the units of the double. */
  function SingleAsDouble(code: nat): nat {
    SingleUnits(code) * Power(2, SCALE)
  }

  /**
    * roundTiesToEven, section 4.3.1 of IEEE 754-2008: no code is nearer, and of two that are equally near the even one.
    * A magnitude from half way between the largest finite value and 2^128 on goes to infinity.
    */
  ghost predicate RoundsTiesToEven(units: nat, code: nat) {
    code <= INFINITE && forall other: nat :: NoNearer(units, code, other)
  }

  ghost predicate NoNearer(units: nat, code: nat, other: nat) {
    other <= INFINITE && other != code ==>
      || Distance(units, SingleAsDouble(code)) < Distance(units, SingleAsDouble(other))
      || (Distance(units, SingleAsDouble(code)) == Distance(units, SingleAsDouble(other)) && code % 2 == 0)
  }

  // ----- codes are ordered like their values -----

  /** A normal code by its exponent field and its full significand; a significand of 2^24 is the next exponent. */
  lemma {:induction false} NormalUnits(e: nat, kept: nat)
    requires e > 0 && HIDDEN <= kept <= 2 * HIDDEN
    ensures SingleUnits((e - 1) * HIDDEN + kept) == kept * Power(2, e - 1)
  {
    var code := (e - 1) * HIDDEN + kept;
    if kept < 2 * HIDDEN {
      Divides(code, HIDDEN, e, kept - HIDDEN);
    } else {
      Divides(code, HIDDEN, e + 1, 0);
      Associate(HIDDEN, 2, Power(2, e - 1));
    }
  }

  lemma {:induction false} NextUnits(code: nat)
    ensures SingleUnits(code + 1) > SingleUnits(code)
  {
    if code + 1 > HIDDEN {
      var e, f := QuotientRemainder(code, HIDDEN);
      NormalUnits(e, HIDDEN + f);
      NormalUnits(e, HIDDEN + f + 1);
      Distribute(HIDDEN + f, 1, Power(2, e - 1));
    } else {
      NormalUnits(1, HIDDEN);
    }
  }

  lemma {:induction false} UnitsIncrease(a: nat, b: nat)
    requires a <= b
    ensures SingleAsDouble(a) <= SingleAsDouble(b)
    decreases b - a
  {
    if a < b {
      UnitsIncrease(a, b - 1);
      NextUnits(b - 1);
      MulLe(SingleUnits(b - 1), SingleUnits(b), Power(2, SCALE));
    }
  }

  lemma {:induction false} NextAsDouble(code: nat)
    ensures SingleAsDouble(code + 1) > SingleAsDouble(code)
  {
    NextUnits(code);
    MulLe(SingleUnits(code) + 1, SingleUnits(code + 1), Power(2, SCALE));
    Distribute(SingleUnits(code), 1, Power(2, SCALE));
  }

  /** Being at most half way to each neighbour, with ties only at an even code, is being nearest of all. */
  lemma {:induction false} NearestOfAll(units: nat, code: nat)
    requires code <= INFINITE
    requires code < INFINITE && units >= SingleAsDouble(code) ==>
      NotPastHalf(units - SingleAsDouble(code), SingleAsDouble(code + 1) - SingleAsDouble(code), code)
    requires code > 0 && units <= SingleAsDouble(code) ==>
      NotPastHalf(SingleAsDouble(code) - units, SingleAsDouble(code) - SingleAsDouble(code - 1), code)
    ensures RoundsTiesToEven(units, code)
  {
    forall other: nat ensures NoNearer(units, code, other) {
      if code < other <= INFINITE {
        UnitsIncrease(code + 1, other);
        NextAsDouble(code);
      } else if other < code {
        UnitsIncrease(other, code - 1);
        NextAsDouble(code - 1);
      }
    }
  }

  predicate NotPastHalf(part: int, gap: int, code: nat) {
    2 * part < gap || (2 * part == gap && code % 2 == 0)
  }

  /** At most one code is the rounding of a magnitude. */
  lemma {:induction false} RoundingIsUnique(units: nat, a: nat, b: nat)
    requires RoundsTiesToEven(units, a) && RoundsTiesToEven(units, b)
    ensures a == b
  {
    if a < b {
      RoundingNotBoth(units, a, b);
    } else if b < a {
      RoundingNotBoth(units, b, a);
    }
  }

  lemma {:induction false} RoundingNotBoth(units: nat, a: nat, b: nat)
    requires a < b && RoundsTiesToEven(units, a)
    ensures !RoundsTiesToEven(units, b)
  {
    if b <= INFINITE {
      assert NoNearer(units, a, b);
      if Distance(units, SingleAsDouble(a)) == Distance(units, SingleAsDouble(b)) {
        TiesAreAdjacent(units, a, b);
      }
      assert !NoNearer(units, b, a);
    }
  }

  lemma {:induction false} TiesAreAdjacent(units: nat, a: nat, b: nat)
    requires a < b <= INFINITE && NoNearer(units, a, a + 1)
    requires Distance(units, SingleAsDouble(a)) == Distance(units, SingleAsDouble(b))
    ensures b == a + 1
  {
    NextAsDouble(a);
    NextAsDouble(a + 1);
    if b > a + 1 {
      UnitsIncrease(a + 2, b);
      Between(units, SingleAsDouble(a), SingleAsDouble(a + 1), SingleAsDouble(b));
    }
  }

  lemma {:induction false} Between(u: int, x: int, y: int, z: int)
    requires x < y < z
    ensures Distance(u, x) == Distance(u, z) ==> Distance(u, y) < Distance(u, x)
  {
  }

  // ----- rounding a significand rounds the magnitude -----

  lemma {:induction false} NearestScales(n: nat, m: nat, q: nat, g: nat)
    requires g > 0 && NearestEven(n, m, q)
    ensures NearestEven(n * g, m * g, q)
  {
    Associate(q, m, g);
    var part := Distance(n, q * m);
    if n >= q * m {
      Distribute(q * m, part, g);
    } else {
      Distribute(n, part, g);
    }
    assert Distance(n * g, q * (m * g)) == part * g;
    if 2 * part < m {
      MulLe(2 * part + 1, m, g);
      Distribute(2 * part, 1, g);
    }
    Associate(2, part, g);
  }

  /** Codes around `code` are multiples of `m`, as far as rounding looks at them. */
  lemma {:induction false} LocallyEven(units: nat, m: nat, kept: nat, code: nat)
    requires code <= INFINITE && code % 2 == kept % 2 && NearestEven(units, m, kept) && SingleAsDouble(code) == kept * m
    requires code < INFINITE && units > kept * m ==> SingleAsDouble(code + 1) == (kept + 1) * m
    requires code > 0 && units < kept * m ==> SingleAsDouble(code - 1) == (kept - 1) * m
    ensures RoundsTiesToEven(units, code)
  {
    Distribute(kept, 1, m);
    Distribute(kept, -1, m);
    NextAsDouble(code);
    if code > 0 {
      NextAsDouble(code - 1);
    }
    NearestOfAll(units, code);
  }

  lemma {:induction false} SmallAsDouble(code: nat)
    requires code <= 2 * HIDDEN
    ensures SingleAsDouble(code) == code * Power(2, SCALE)
  {
    if code >= HIDDEN {
      NormalUnits(1, code);
    }
  }

  /** Below the normal range a code is a multiple of the least positive single. */
  lemma {:induction false} SubnormalRounds(units: nat, kept: nat)
    requires kept <= HIDDEN && NearestEven(units, Power(2, SCALE), kept)
    ensures RoundsTiesToEven(units, kept)
  {
    SmallAsDouble(kept);
    SmallAsDouble(kept + 1);
    if kept > 0 {
      SmallAsDouble(kept - 1);
    }
    LocallyEven(units, Power(2, SCALE), kept, kept);
  }

  lemma {:induction false} NormalAsDouble(e: nat, kept: nat)
    requires e > 0 && HIDDEN <= kept <= 2 * HIDDEN
    ensures SingleAsDouble((e - 1) * HIDDEN + kept) == kept * Power(2, e + 924)
  {
    NormalUnits(e, kept);
    PowerAdd(2, e - 1, SCALE);
    Associate(kept, Power(2, e - 1), Power(2, SCALE));
  }

  lemma {:induction false} NormalRounds(units: nat, e: nat, kept: nat)
    requires 0 < e < 0xff && HIDDEN <= kept <= 2 * HIDDEN
    requires NearestEven(units, Power(2, e + 924), kept)
    requires HIDDEN * Power(2, e + 924) <= units <= (2 * HIDDEN) * Power(2, e + 924)
    ensures RoundsTiesToEven(units, (e - 1) * HIDDEN + kept)
  {
    var code := (e - 1) * HIDDEN + kept;
    NormalAsDouble(e, kept);
    if kept < 2 * HIDDEN {
      NormalAsDouble(e, kept + 1);
      assert (e - 1) * HIDDEN + (kept + 1) == code + 1;
    }
    if kept > HIDDEN {
      NormalAsDouble(e, kept - 1);
      assert (e - 1) * HIDDEN + (kept - 1) == code - 1;
    }
    CodeShape(e, kept);
    NormalRoundsAt(units, Power(2, e + 924), kept, code);
  }

  lemma {:induction false} CodeShape(e: nat, kept: nat)
    requires e > 0 && HIDDEN <= kept <= 2 * HIDDEN
    ensures var code := (e - 1) * HIDDEN + kept;
            && 0 < code && code % 2 == kept % 2 && (e < 0xff ==> code <= INFINITE)
            && e * HIDDEN + kept % HIDDEN == if kept == 2 * HIDDEN then e * HIDDEN else code
  {
    DropMultiple(kept, (e - 1) * (HIDDEN / 2), 2);
  }

  lemma {:induction false} NormalRoundsAt(units: nat, m: nat, kept: nat, code: nat)
    requires 0 < code <= INFINITE && HIDDEN <= kept <= 2 * HIDDEN && code % 2 == kept % 2
    requires NearestEven(units, m, kept) && HIDDEN * m <= units <= (2 * HIDDEN) * m
    requires SingleAsDouble(code) == kept * m
    requires kept < 2 * HIDDEN ==> SingleAsDouble(code + 1) == (kept + 1) * m
    requires kept > HIDDEN ==> SingleAsDouble(code - 1) == (kept - 1) * m
    ensures RoundsTiesToEven(units, code)
  {
    LocallyEven(units, m, kept, code);
  }

  lemma {:induction false} OverflowRounds(units: nat)
    requires units >= SingleAsDouble(INFINITE)
    ensures RoundsTiesToEven(units, INFINITE)
  {
    NextAsDouble(INFINITE - 1);
    NearestOfAll(units, INFINITE);
  }

  // ----- packing -----

  /** Rounding the kept significand up carries it into the next exponent. */
  predicate CarriesOut(d: Double) {
    896 < d.biased < 896 + 0xff && d.fraction >= IMPLICIT - 0x1000_0000
  }

  /** `n` divided by `m` and rounded by comparing the remainder with the half. */
  function RoundQuotient(n: nat, half: nat): (q: nat)
    requires half > 0
    ensures NearestEven(n, 2 * half, q)
  {
    var quotient, remainder := Quotient(n, 2 * half), n % (2 * half);
    RemainderRounds(n, half);
    if remainder > half || (remainder == half && quotient % 2 == 1) then quotient + 1 else quotient
  }

  lemma {:induction false} RemainderRounds(n: nat, half: nat)
    requires half > 0
    ensures var quotient, remainder := Quotient(n, 2 * half), n % (2 * half);
            NearestEven(n, 2 * half,
              if remainder > half || (remainder == half && quotient % 2 == 1) then quotient + 1 else quotient)
  {
    var q, r := QuotientRemainder(n, 2 * half);
    Distribute(q, 1, 2 * half);
  }

  /** What a double becomes: the sign bit is kept apart, and `code` holds the other 31 bits. */
  ghost predicate Narrowed(d: Double, code: nat) {
    if !Finite(d) then code == if d.fraction == 0 then INFINITE else 0x7fc0_0000
    else
      && (RoundsTiesToEven(DoubleUnits(d), code) <==> !CarriesOut(d))
      && (CarriesOut(d) ==> code == (d.biased - 896) * HIDDEN)
  }

  /** A double of the normal range of singles, with its rounded 24-bit significand. */
  lemma {:induction false} NormalNarrows(d: Double, kept: nat)
    requires 896 < d.biased < 896 + 0xff && kept == RoundQuotient(IMPLICIT + d.fraction, 0x1000_0000)
    ensures HIDDEN <= kept <= 2 * HIDDEN && (kept == 2 * HIDDEN <==> CarriesOut(d))
    ensures RoundsTiesToEven(DoubleUnits(d), (d.biased - 897) * HIDDEN + kept)
  {
    var full, e, g := IMPLICIT + d.fraction, d.biased - 896, Power(2, d.biased - 1);
    PowerAdd(2, 29, d.biased - 1);
    TwoTo29();
    assert Power(2, e + 924) == 0x2000_0000 * g;
    NearestScales(full, 0x2000_0000, kept, g);
    MulLe(HIDDEN * 0x2000_0000, full, g);
    MulLe(full, 2 * HIDDEN * 0x2000_0000, g);
    Associate(HIDDEN, 0x2000_0000, g);
    Associate(2 * HIDDEN, 0x2000_0000, g);
    NormalRounds(full * g, e, kept);
  }

  lemma {:induction false} TwoTo29()
    ensures Power(2, 29) == 0x2000_0000 && Power(2, 30) == 0x4000_0000 && Power(2, 53) == 2 * IMPLICIT &&
      Power(2, 52) == IMPLICIT
  {
    PowersOfTwo();
    assert Power(2, 32) == 2 * (2 * (2 * Power(2, 29)));
    PowerAdd(2, 29, 23);
    assert Power(2, 30) == 2 * Power(2, 29);
    assert Power(2, 53) == 2 * Power(2, 52);
  }

  /** With the wrong carry, the code is that of half the rounded value. */
  lemma {:induction false} CarryIsWrong(d: Double)
    requires CarriesOut(d)
    ensures !RoundsTiesToEven(DoubleUnits(d), (d.biased - 896) * HIDDEN)
    ensures RoundsTiesToEven(DoubleUnits(d), (d.biased - 895) * HIDDEN)
  {
    NormalNarrows(d, RoundQuotient(IMPLICIT + d.fraction, 0x1000_0000));
    if RoundsTiesToEven(DoubleUnits(d), (d.biased - 896) * HIDDEN) {
      RoundingIsUnique(DoubleUnits(d), (d.biased - 896) * HIDDEN, (d.biased - 895) * HIDDEN);
    }
  }

  /** A double below the normal range of singles whose rounding can be positive. */
  lemma {:induction false} SubnormalNarrows(d: Double, kept: nat)
    requires 873 <= d.biased <= 896 && kept == RoundQuotient(IMPLICIT + d.fraction, Power(2, 925 - d.biased))
    ensures kept <= HIDDEN && RoundsTiesToEven(DoubleUnits(d), kept)
  {
    var full, half := IMPLICIT + d.fraction, Power(2, 925 - d.biased);
    HalfIsLarge(896 - d.biased);
    AtMostHidden(full, half, kept);
    SubnormalScales(full, d.biased, half, kept);
    SubnormalRounds(DoubleUnits(d), kept);
  }

  lemma {:induction false} HalfIsLarge(n: nat)
    ensures Power(2, 29 + n) >= 0x2000_0000
  {
    TwoTo29();
    PowerAdd(2, 29, n);
    MulLe(1, Power(2, n), 0x2000_0000);
  }

  lemma {:induction false} SubnormalScales(full: nat, biased: nat, half: nat, kept: nat)
    requires 0 < biased <= 896 && half == Power(2, 925 - biased) && NearestEven(full, 2 * half, kept)
    ensures NearestEven(full * Power(2, biased - 1), Power(2, SCALE), kept)
  {
    assert Power(2, 926 - biased) == 2 * half;
    PowerAdd(2, 926 - biased, biased - 1);
    NearestScales(full, 2 * half, kept, Power(2, biased - 1));
  }

  lemma {:induction false} AtMostHidden(full: nat, half: nat, kept: nat)
    requires full < 2 * IMPLICIT && half >= 0x2000_0000 && kept == RoundQuotient(full, half)
    ensures kept <= HIDDEN
  {
    MulLe(0x2000_0000, half, kept);
    assert kept * (2 * half) == 2 * (kept * half);
  }

  /** A double so small that it rounds to zero. */
  lemma {:induction false} TinyNarrows(d: Double)
    requires d.biased < 873
    ensures RoundsTiesToEven(DoubleUnits(d), 0)
  {
    TinyUnits(d, 871);
    assert Power(2, SCALE) == 2 * Power(2, SCALE - 1);
    SubnormalRounds(DoubleUnits(d), 0);
  }

  lemma {:induction false} TinyUnits(d: Double, n: nat)
    requires d.biased <= n + 1
    ensures DoubleUnits(d) < Power(2, n + 53)
  {
    TwoTo29();
    PowerAdd(2, 53, n);
    if d.biased == 0 {
      MulLe(1, Power(2, n), 2 * IMPLICIT);
    } else {
      PowerAdd(2, d.biased - 1, n + 1 - d.biased);
      TinyProduct(IMPLICIT + d.fraction, 2 * IMPLICIT, Power(2, d.biased - 1), Power(2, n + 1 - d.biased));
    }
  }

  lemma {:induction false} TinyProduct(full: nat, bound: nat, g: nat, h: nat)
    requires full < bound && g > 0 && h > 0
    ensures full * g < bound * (g * h)
  {
    MulLe(full + 1, bound, g);
    Distribute(full, 1, g);
    MulLe(1, h, g);
    MulLe(g, g * h, bound);
  }

  /** A finite double at or above 2^128. */
  lemma {:induction false} HugeNarrows(d: Double)
    requires 896 + 0xff <= d.biased < 0x7ff
    ensures RoundsTiesToEven(DoubleUnits(d), INFINITE)
  {
    HugeUnits(d, 0xff);
    OverflowRounds(DoubleUnits(d));
  }

  lemma {:induction false} HugeUnits(d: Double, e: nat)
    requires 0 < e && e + 896 <= d.biased
    ensures DoubleUnits(d) >= SingleAsDouble(e * HIDDEN)
  {
    NormalAsDouble(e, HIDDEN);
    assert (e - 1) * HIDDEN + HIDDEN == e * HIDDEN;
    TwoTo29();
    PowerAdd(2, 29, e + 895);
    Associate(HIDDEN, 0x2000_0000, Power(2, e + 895));
    PowerAdd(2, e + 895, d.biased - 896 - e);
    HugeProduct(IMPLICIT + d.fraction, IMPLICIT, Power(2, e + 895), Power(2, d.biased - 896 - e));
  }

  lemma {:induction false} HugeProduct(full: nat, bound: nat, g: nat, h: nat)
    requires full >= bound && h > 0
    ensures full * (g * h) >= bound * g
  {
    MulLe(1, h, g);
    MulLe(g, g * h, bound);
    MulLe(bound, full, g * h);
  }

  /** Packs with the branches and the carry test of the original. */
  method EncodeFloat(d: Double, endian: Endian) returns (bytes: Bytes)
    ensures |bytes| == 4
    ensures DecodeInteger(bytes, endian) / 0x8000_0000 == if d.negative then 1 else 0
    ensures Narrowed(d, DecodeInteger(bytes, endian) % 0x8000_0000)
  {
    var sign := if d.negative then 0x8000_0000 else 0;
    var code := Narrow(d);
    assert sign + code <= IntegerMax(4) by {
      assert Power(256, 4) == 0x1_0000_0000;
    }
    EncodeRoundTrip(sign + code, 4, endian);
    bytes := EncodeInteger(sign + code, 4, endian);
  }

  method Narrow(d: Double) returns (code: nat)
    ensures Narrowed(d, code) && code < 0x8000_0000
  {
    if d.biased == 0x7ff {
      return if d.fraction == 0 then INFINITE else 0x7fc0_0000;
    }
    if d.biased == 0 && d.fraction == 0 {
      TinyNarrows(d);
      return 0;
    }
    var biased := d.biased - 896;
    if biased >= 0xff {
      HugeNarrows(d);
      return INFINITE;
    }
    if biased > 0 {
      code := NarrowNormal(d);
    } else {
      code := NarrowSubnormal(d);
    }
  }

  method NarrowNormal(d: Double) returns (code: nat)
    requires 896 < d.biased < 896 + 0xff
    ensures Narrowed(d, code) && code < 0x8000_0000
  {
    var full := d.fraction + IMPLICIT;
    var dropped := full % 0x2000_0000;
    var kept := full / 0x2000_0000;
    var exp := d.biased - 896;
    NormalNarrows(d, RoundQuotient(full, 0x1000_0000));
    if CarriesOut(d) {
      CarryIsWrong(d);
    }
    if dropped > 0x1000_0000 || (dropped == 0x1000_0000 && kept % 2 == 1) {
      kept := kept + 1;
      if kept == HIDDEN {
        kept := 0;
        exp := exp + 1;
      }
    }
    assert kept == RoundQuotient(full, 0x1000_0000);
    CodeShape(exp, kept);
    return exp * HIDDEN + kept % HIDDEN;
  }

  method NarrowSubnormal(d: Double) returns (code: nat)
    requires d.biased <= 896
    ensures Narrowed(d, code) && code < 0x8000_0000
  {
    var shift := 926 - d.biased;
    if shift > 53 {
      TinyNarrows(d);
      return 0;
    }
    var full := d.fraction + IMPLICIT;
    SubnormalNarrows(d, RoundQuotient(full, Power(2, shift - 1)));
    assert Power(2, shift) == 2 * Power(2, shift - 1);
    var quotient, remainder, half := Quotient(full, Power(2, shift)), full % Power(2, shift), Power(2, shift - 1);
    var result := quotient;
    if remainder > half || (remainder == half && quotient % 2 == 1) {
      result := result + 1;
    }
    assert result == RoundQuotient(full, half);
    if result == HIDDEN {
      return HIDDEN;
    }
    return result;
  }

  /** The largest double below 2: its rounding is 2, but the code is that of 1. */
  lemma {:induction false} CarryWitness()
    ensures var d := Double(false, 1023, IMPLICIT - 1);
            && CarriesOut(d)
            && RoundsTiesToEven(DoubleUnits(d), 0x4000_0000)
            && (forall code :: Narrowed(d, code) ==> code == 0x3f80_0000)
  {
    CarryIsWrong(Double(false, 1023, IMPLICIT - 1));
  }
}
