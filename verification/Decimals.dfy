/**
 Decimal text cut into groups of digits. The text of a number is the text of its high part followed
 by all digits of its low part, padded with zeros; this is what lets the conversion of a long number
 work on nine digits at a time, and what puts the decimal point into fixed-point text at the right
 place.
 */
module Decimals {
  import opened Arithmetic
  import opened Integers

  /** The low `width` decimal digits of a number, with leading zeros. */
  function Padded(n: nat, width: nat): (r: string)
    ensures |r| == width
  {
    if width == 0 then [] else Padded(n / 10, width - 1) + [DigitChar(n % 10)]
  }

  function Zeros(count: nat): (r: string)
    ensures |r| == count
  {
    seq(count, _ => '0')
  }

  lemma {:induction false} TenFold(q: nat, r: nat, p: nat)
    ensures (q * (10 * p) + r) / 10 == q * p + r / 10 && (q * (10 * p) + r) % 10 == r % 10
  {
    assert q * (10 * p) == (q * p) * 10;
    DropMultiple(r, q * p, 10);
  }

  /** The digits of a number are those of its high part and then all of its low part. */
  lemma {:induction false} DecimalJoin(q: nat, r: nat, width: nat)
    requires q > 0 && r < Power(10, width)
    ensures Decimal(q * Power(10, width) + r) == Decimal(q) + Padded(r, width)
  {
    if width == 0 {
      assert Decimal(q) + [] == Decimal(q);
    } else {
      var p := Power(10, width - 1);
      var n := q * (10 * p) + r;
      QuotientBelow(r, p, 10);
      DecimalJoin(q, r / 10, width - 1);
      TenFold(q, r, p);
      MulLe(1, q, 10 * p);
      assert n >= 10;
      assert Decimal(n) == Decimal(q) + Padded(r / 10, width - 1) + [DigitChar(r % 10)];
      assert Padded(r, width) == Padded(r / 10, width - 1) + [DigitChar(r % 10)];
    }
  }

  lemma {:induction false} PaddedZero(width: nat)
    ensures Padded(0, width) == Zeros(width)
  {
    if width > 0 {
      PaddedZero(width - 1);
    }
  }

  /** Padding with zeros to a width that the number fits. */
  lemma {:induction false} ZeroPad(n: nat, width: nat)
    requires width > 0 && n < Power(10, width)
    ensures |Decimal(n)| <= width && Zeros(width - |Decimal(n)|) + Decimal(n) == Padded(n, width)
  {
    if n < 10 {
      PaddedZero(width - 1);
    } else {
      assert Power(10, 1) == 10;
      QuotientBelow(n, Power(10, width - 1), 10);
      ZeroPad(n / 10, width - 1);
    }
  }

  /** A number has more than `width` digits exactly when it is at least 10^width. */
  lemma {:induction false} DigitCount(n: nat, width: nat)
    requires width > 0
    ensures |Decimal(n)| <= width <==> n < Power(10, width)
  {
    if n < Power(10, width) {
      ZeroPad(n, width);
    } else {
      var q, r := QuotientRemainder(n, Power(10, width));
      AtLeastOnce(n, Power(10, width));
      DecimalJoin(q, r, width);
    }
  }

  // ----- groups of nine digits -----

  const GROUP: nat := 1_000_000_000

  lemma {:induction false} GroupIsPower()
    ensures Power(10, 9) == GROUP
  {
    assert Power(10, 3) == 1000;
    PowerAdd(10, 3, 3);
    PowerAdd(10, 3, 6);
  }

  /** The number whose low groups are `groups[i..]`, least significant first, below `high`. */
  function Grouped(groups: seq<nat>, i: nat, high: nat): nat
    decreases |groups| - i
  {
    if i >= |groups| then high else groups[i] + Grouped(groups, i + 1, high) * GROUP
  }

  lemma {:induction false} GroupedPush(groups: seq<nat>, i: nat, r: nat, high: nat)
    requires i <= |groups|
    ensures Grouped(groups + [r], i, high) == Grouped(groups, i, r + high * GROUP)
    decreases |groups| - i
  {
    if i < |groups| {
      GroupedPush(groups, i + 1, r, high);
    } else {
      assert Grouped(groups + [r], i + 1, high) == high;
    }
  }
}
