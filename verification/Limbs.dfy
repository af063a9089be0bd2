/**
 Unbounded naturals as little-endian base-2^32 limbs: the number that a list of limbs stands for,
 seen from either end, how any bit position cuts it, and what a multiplication or a shift does to
 each single limb. The lemmas about whole shifts add up the single limbs, with the bits that are
 still to be carried.
 */
module Limbs {
  import opened Arithmetic
  import opened Integers

  const BASE: nat := 0x1_0000_0000
  type Limb = n: nat | n < BASE

  // ----- the value of limbs -----

  function LimbAt(a: seq<Limb>, k: nat): Limb {
    if k < |a| then a[k] else 0
  }

  /** The limbs from position `k` on, as a number. */
  function From(a: seq<Limb>, k: nat): nat
    decreases |a| - k
  {
    if k >= |a| then 0 else a[k] + From(a, k + 1) * BASE
  }

  /** The number below position `k`. */
  function Below(a: seq<Limb>, k: nat): nat {
    if k == 0 then 0 else Below(a, k - 1) + LimbAt(a, k - 1) * Power(BASE, k - 1)
  }

  function Value(a: seq<Limb>): nat {
    From(a, 0)
  }

  lemma {:induction false} FromUnfolds(a: seq<Limb>, k: nat)
    ensures From(a, k) == LimbAt(a, k) + From(a, k + 1) * BASE
  {
  }

  /** Every position splits a number into what is below it and what is not. */
  lemma {:induction false} Split(a: seq<Limb>, k: nat)
    ensures Value(a) == Below(a, k) + From(a, k) * Power(BASE, k)
    ensures Below(a, k) < Power(BASE, k)
  {
    if k > 0 {
      Split(a, k - 1);
      FromUnfolds(a, k - 1);
      SplitStep(Below(a, k - 1), LimbAt(a, k - 1), From(a, k), Power(BASE, k - 1), BASE);
    }
  }

  lemma {:induction false} SplitStep(low: nat, x: nat, rest: nat, p: nat, base: nat)
    requires low < p && x < base
    ensures low + (x + rest * base) * p == low + x * p + rest * (base * p)
    ensures low + x * p < base * p
  {
    Distribute(x, rest * base, p);
    Associate(rest, base, p);
    MulLe(x + 1, base, p);
    Distribute(x, 1, p);
  }

  lemma {:induction false} FromPast(a: seq<Limb>, k: nat)
    requires forall j :: k <= j < |a| ==> a[j] == 0
    ensures From(a, k) == 0
    decreases |a| - k
  {
    if k < |a| {
      FromPast(a, k + 1);
    }
  }

  lemma {:induction false} BelowAgrees(a: seq<Limb>, b: seq<Limb>, k: nat)
    requires forall j: nat :: j < k ==> LimbAt(a, j) == LimbAt(b, j)
    ensures Below(a, k) == Below(b, k)
  {
    if k > 0 {
      BelowAgrees(a, b, k - 1);
      assert LimbAt(a, k - 1) == LimbAt(b, k - 1);
    }
  }

  lemma {:induction false} BelowAll(a: seq<Limb>, k: nat)
    requires k >= |a|
    ensures Below(a, k) == Value(a)
  {
    Split(a, k);
  }

  /** A number below a position is zero exactly when all its limbs are. */
  lemma {:induction false} BelowZero(a: seq<Limb>, k: nat)
    ensures Below(a, k) == 0 <==> forall j: nat :: j < k ==> LimbAt(a, j) == 0
  {
    if k > 0 {
      BelowZero(a, k - 1);
      var x, p := LimbAt(a, k - 1), Power(BASE, k - 1);
      MulLe(if x > 0 then 1 else 0, x, p);
    }
  }

  // ----- powers of two -----

  lemma {:induction false} WordsArePowers(words: nat)
    ensures Power(2, 32 * words) == Power(BASE, words)
  {
    if words > 0 {
      WordsArePowers(words - 1);
      PowerAdd(2, 32, 32 * (words - 1));
      PowersOfTwo();
      assert 32 + 32 * (words - 1) == 32 * words;
    }
  }

  lemma {:induction false} BaseIsPower(bits: nat)
    ensures Power(2, bits) == Power(BASE, bits / 32) * Power(2, bits % 32)
  {
    PowerAdd(2, 32 * (bits / 32), bits % 32);
    WordsArePowers(bits / 32);
  }

  /** A limb is cut at any bit into two parts whose sizes multiply to the base. */
  lemma {:induction false} Halves(off: nat)
    requires off <= 32
    ensures Power(2, off) * Power(2, 32 - off) == BASE
  {
    PowerAdd(2, off, 32 - off);
    PowersOfTwo();
  }

  /** Quotient and remainder by a power of two only look at the limb it falls into. */
  lemma {:induction false} AtBit(a: seq<Limb>, i: nat)
    ensures Value(a) / Power(2, i) == From(a, i / 32) / Power(2, i % 32)
    ensures Value(a) % Power(2, i) == Below(a, i / 32) + (LimbAt(a, i / 32) % Power(2, i % 32)) * Power(BASE, i / 32)
  {
    var limb, off := i / 32, i % 32;
    BaseIsPower(i);
    Split(a, limb);
    CutTwice(Below(a, limb), From(a, limb), Power(BASE, limb), Power(2, off));
    FromUnfolds(a, limb);
    LowBits(LimbAt(a, limb), From(a, limb + 1), off);
  }

  lemma {:induction false} LowBits(x: nat, rest: nat, off: nat)
    requires off <= 32
    ensures (x + rest * BASE) % Power(2, off) == x % Power(2, off)
  {
    Halves(off);
    LowBitsOf(x, rest, Power(2, off), Power(2, 32 - off), BASE);
  }

  lemma {:induction false} LowBitsOf(x: nat, rest: nat, p: nat, q: nat, base: nat)
    requires p > 0 && p * q == base
    ensures (x + rest * base) % p == x % p
  {
    Associate(rest, q, p);
    DropMultiple(x, rest * q, p);
  }

  // ----- multiplication -----

  lemma {:induction false} MulStep(p: nat, m: nat, low: nat, was: nat, x: nat, carry: nat, base: nat)
    requires low + carry * p == was * m && base > 0
    ensures low + ((x * m + carry) % base) * p + ((x * m + carry) / base) * (base * p) == (was + x * p) * m
  {
    var hi, lo := QuotientRemainder(x * m + carry, base);
    Associate(hi, base, p);
    Distribute(hi * base, lo, p);
    Distribute(x * m, carry, p);
    Swap(x, m, p);
    Distribute(was, x * p, m);
  }

  lemma {:induction false} MulCarry(x: nat, m: nat, carry: nat, base: nat)
    requires x < base && m < base && carry < base
    ensures (x * m + carry) / base < base
  {
    MulLe(m, base - 1, x);
    MulLe(x, base - 1, base - 1);
    Distribute(base - 1, 1, base);
    Distribute(base - 1, 1, base - 1);
    assert x * m + carry < base * base;
    QuotientBelow(x * m + carry, base, base);
  }

  // ----- shifting right -----

  /** The bits shifted out of the next limb fill what the shift frees. */
  lemma {:induction false} Fits(x: nat, y: nat, p: nat, q: nat, base: nat)
    requires p * q == base && x < base && y < base
    ensures p > 0 && q > 0
    ensures (y * q) % base == (y % p) * q && (y * q) / base == y / p
    ensures x / p + (y * q) % base < base
  {
    var d, r := QuotientRemainder(y, p);
    Distribute(d * p, r, q);
    Associate(d, p, q);
    MulLe(r + 1, p, q);
    Distribute(r, 1, q);
    Divides(y * q, base, d, r * q);
    assert q * p == base;
    QuotientBelow(x, q, p);
  }

  /** A limb `x` shifted down by the factor `p`, with what a shift of `y` up by the factor `q` leaves of it. */
  function Glue(x: nat, y: nat, p: nat, q: nat, base: nat): (r: nat)
    requires p * q == base && x < base && y < base
    ensures r < base
  {
    Fits(x, y, p, q, base);
    x / p + (y * q) % base
  }

  /** The limb that a right shift leaves where `x` was moved from, with `y` above it. */
  function ShrLimb(x: Limb, y: Limb, off: nat): Limb
    requires off <= 32
  {
    Halves(off);
    Glue(x, y, Power(2, off), Power(2, 32 - off), BASE)
  }

  ghost predicate ShiftedRight(a: seq<Limb>, b: seq<Limb>, words: nat, off: nat, k: nat)
    requires off <= 32
  {
    k < |b| ==> b[k] == ShrLimb(LimbAt(a, k + words), LimbAt(a, k + words + 1), off)
  }

  /** Shifting every limb shifts the number. */
  lemma {:induction false} ShrFrom(a: seq<Limb>, b: seq<Limb>, words: nat, off: nat, j: nat)
    requires off <= 32 && |b| == |a|
    requires forall k: nat :: ShiftedRight(a, b, words, off, k)
    ensures From(b, j) == From(a, j + words) / Power(2, off)
    decreases |a| - j
  {
    if j < |a| {
      ShrFrom(a, b, words, off, j + 1);
      ShrNext(a, b, words, off, j, Power(2, off));
    } else {
      NothingCarried(From(a, j + words), Power(2, off), 1);
    }
  }

  lemma {:induction false} ShrNext(a: seq<Limb>, b: seq<Limb>, words: nat, off: nat, j: nat, p: nat)
    requires off <= 32 && j < |b| && p == Power(2, off) && ShiftedRight(a, b, words, off, j)
    requires From(b, j + 1) == From(a, j + 1 + words) / p
    ensures From(b, j) == From(a, j + words) / p
  {
    var i := j + words;
    FromUnfolds(a, i);
    FromUnfolds(a, i + 1);
    ShrStep(LimbAt(a, i), LimbAt(a, i + 1), From(a, i + 2), off);
  }

  lemma {:induction false} ShrStep(x: Limb, y: Limb, rest: nat, off: nat)
    requires off <= 32
    ensures (x + (y + rest * BASE) * BASE) / Power(2, off) ==
      ShrLimb(x, y, off) + ((y + rest * BASE) / Power(2, off)) * BASE
  {
    Halves(off);
    LowBits(y, rest, off);
    ShrArithmetic(x, y, y + rest * BASE, Power(2, off), Power(2, 32 - off), BASE);
  }

  lemma {:induction false} ShrArithmetic(x: nat, y: nat, high: nat, p: nat, q: nat, base: nat)
    requires p * q == base && x < base && y < base && p > 0 && high % p == y % p
    ensures (x + high * base) / p == Glue(x, y, p, q, base) + (high / p) * base
  {
    Fits(x, y, p, q, base);
    var d, r := QuotientRemainder(high, p);
    var e, s := QuotientRemainder(x, p);
    Distribute(d * p, r, base);
    Swap(d, p, base);
    Associate(r, q, p);
    Distribute(e, r * q, p);
    Distribute(e + r * q, d * base, p);
    MulLe(0, high, base);
    Divides(x + high * base, p, e + r * q + d * base, s);
  }

  lemma {:induction false} ShrValue(a: seq<Limb>, b: seq<Limb>, bits: nat)
    requires |b| == |a|
    requires forall k: nat :: ShiftedRight(a, b, bits / 32, bits % 32, k)
    ensures Value(b) == Value(a) / Power(2, bits)
  {
    ShrFrom(a, b, bits / 32, bits % 32, 0);
    AtBit(a, bits);
  }

  // ----- shifting left -----

  /** The limb that a left shift makes of `x`, with `y` below it. */
  function ShlLimb(x: Limb, y: Limb, off: nat): Limb
    requires off <= 32
  {
    Halves(off);
    Glue(y, x, Power(2, 32 - off), Power(2, off), BASE)
  }

  function LimbBelow(a: seq<Limb>, k: nat): Limb {
    if k == 0 then 0 else LimbAt(a, k - 1)
  }

  ghost predicate ShiftedLeft(a: seq<Limb>, b: seq<Limb>, words: nat, off: nat, k: nat)
    requires off <= 32
  {
    k < |b| ==> b[k] == if k < words then 0 else ShlLimb(LimbAt(a, k - words), LimbBelow(a, k - words), off)
  }

  /** What is below position `words + s` of the shifted number, with the bits still to be carried out of it. */
  ghost predicate ShlBelowAt(a: seq<Limb>, b: seq<Limb>, words: nat, off: nat, s: nat)
    requires off <= 32
  {
    Below(b, words + s) + (LimbBelow(a, s) / Power(2, 32 - off)) * Power(BASE, words + s)
    == Below(a, s) * (Power(BASE, words) * Power(2, off))
  }

  lemma {:induction false} ShlBelow(a: seq<Limb>, b: seq<Limb>, words: nat, off: nat, s: nat)
    requires off <= 32 && words + s <= |b|
    requires forall k: nat :: ShiftedLeft(a, b, words, off, k)
    ensures ShlBelowAt(a, b, words, off, s)
  {
    if s == 0 {
      forall k: nat | k < words ensures LimbAt(b, k) == 0 {
        assert ShiftedLeft(a, b, words, off, k);
      }
      BelowZero(b, words);
      NothingCarried(0, Power(2, 32 - off), Power(BASE, words));
    } else {
      ShlBelow(a, b, words, off, s - 1);
      ShlBelowNext(a, b, words, off, s - 1);
    }
  }

  lemma {:induction false} ShlBelowNext(a: seq<Limb>, b: seq<Limb>, words: nat, off: nat, s: nat)
    requires off <= 32 && words + s < |b| && ShlBelowAt(a, b, words, off, s)
    requires ShiftedLeft(a, b, words, off, words + s)
    ensures ShlBelowAt(a, b, words, off, s + 1)
  {
    var i, x, y := words + s, LimbAt(a, s), LimbBelow(a, s);
    Halves(off);
    PowerAdd(BASE, words, s);
    ShlStep(Below(b, i), Below(a, s), Power(BASE, words), Power(BASE, s), Power(BASE, i), Power(2, off),
      Power(2, 32 - off), x, y, BASE);
    assert Below(b, i + 1) == Below(b, i) + b[i] * Power(BASE, i);
    assert Below(a, s + 1) == Below(a, s) + x * Power(BASE, s);
    assert Power(BASE, i + 1) == BASE * Power(BASE, i);
    assert LimbBelow(a, s + 1) == x && words + (s + 1) == i + 1;
  }

  lemma {:induction false} ShlStep(
      low: nat, was: nat, w: nat, p: nat, wp: nat, two: nat, rest: nat, x: nat, y: nat, base: nat)
    requires two * rest == base && x < base && y < base && rest > 0 && wp == w * p
    requires low + (y / rest) * wp == was * (w * two)
    ensures low + Glue(y, x, rest, two, base) * wp + (x / rest) * (base * wp) == (was + x * p) * (w * two)
  {
    Fits(y, x, rest, two, base);
    var hi, lo := QuotientRemainder(x * two, base);
    Distribute(y / rest, lo, wp);
    Associate(hi, base, wp);
    Distribute(hi * base, lo, wp);
    Regroup(x, two, w, p);
    Distribute(was, x * p, w * two);
  }

  lemma {:induction false} Regroup(x: nat, two: nat, w: nat, p: nat)
    ensures (x * two) * (w * p) == (x * p) * (w * two)
  {
    Associate(x, two, w * p);
    Associate(x, p, w * two);
    Associate(w, p, two);
    Swap(w, p, two);
  }

  lemma {:induction false} ShlValue(a: seq<Limb>, b: seq<Limb>, bits: nat)
    requires |b| == |a| + bits / 32 + 1
    requires forall k: nat :: ShiftedLeft(a, b, bits / 32, bits % 32, k)
    ensures Value(b) == Value(a) * Power(2, bits)
  {
    var s, words, off := |a| + 1, bits / 32, bits % 32;
    ShlBelow(a, b, words, off, s);
    BelowAll(a, s);
    BelowAll(b, words + s);
    BaseIsPower(bits);
    NothingCarried(LimbBelow(a, s), Power(2, 32 - off), Power(BASE, words + s));
  }

  lemma {:induction false} NothingCarried(x: nat, p: nat, q: nat)
    requires x == 0 && p > 0
    ensures (x / p) * q == 0
  {
  }
}
