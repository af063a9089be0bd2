/**
 Exact arithmetic on limbs that are changed in place. Every routine is a loop over the limbs that
 overwrites them as it goes, and is specified by the number before and after: multiplication by a
 small factor, both shifts, the increment, tests of single bits, and the conversion to decimal text
 by repeated division.
 */
module BigNumbers {
  import opened Arithmetic
  import opened Decimals
  import opened Integers
  import opened Limbs

  class Big {
    var limbs: seq<Limb>

    ghost function Number(): nat
      reads this
    {
      Value(limbs)
    }

    /** From a 64-bit value. */
    constructor (v: nat)
      requires v < BASE * BASE
      ensures Number() == v && limbs != []
    {
      QuotientBelow(v, BASE, BASE);
      limbs := [v % BASE, v / BASE];
      new;
      TwoLimbs(limbs);
    }

    method MulSmall(m: Limb)
      modifies this
      ensures Number() == old(Number()) * m && |limbs| >= old(|limbs|)
    {
      ghost var was := limbs;
      var carry: Limb := 0;
      for i := 0 to |limbs|
        invariant |limbs| == |was| && forall j :: i <= j < |was| ==> limbs[j] == was[j]
        invariant Multiplied(was, limbs, m, i, carry)
      {
        var t: nat := limbs[i] * m + carry;
        MultipliedNext(was, limbs, m, i, carry, t);
        limbs := limbs[i := t % BASE];
        carry := t / BASE;
      }
      AllMultiplied(was, limbs, m, carry);
      if carry != 0 {
        limbs := limbs + [carry];
      }
    }

    method Bit(i: nat) returns (r: bool)
      ensures r <==> (Number() / Power(2, i)) % 2 == 1
    {
      var limb := i / 32;
      BitAt(limbs, i);
      if limb >= |limbs| {
        return false;
      }
      return (limbs[limb] / Power(2, i % 32)) % 2 == 1;
    }

    /** Whether dividing by 2^i leaves a remainder. */
    method AnyBitBelow(i: nat) returns (r: bool)
      ensures r <==> Number() % Power(2, i) != 0
    {
      var limb, cut := i / 32, Power(2, i % 32);
      BitsBelow(limbs, i);
      for j := 0 to limb
        invariant forall k: nat :: k < j ==> LimbAt(limbs, k) == 0
      {
        if j < |limbs| && limbs[j] != 0 {
          assert LimbAt(limbs, j) != 0;
          return true;
        }
      }
      NothingCarried(0, cut, 1);
      return limb < |limbs| && limbs[limb] % cut != 0;
    }

    method Shl(bits: nat)
      modifies this
      ensures Number() == old(Number()) * Power(2, bits) && |limbs| >= old(|limbs|)
    {
      if bits == 0 {
        return;
      }
      var words, off, n := bits / 32, bits % 32, |limbs|;
      ghost var was := limbs;
      limbs := limbs + seq(words + 1, _ => 0);
      var total := |limbs|;
      for i := total downto 0
        invariant |limbs| == total && forall j :: 0 <= j < i ==> limbs[j] == LimbAt(was, j)
        invariant forall k: nat :: i <= k ==> ShiftedLeft(was, limbs, words, off, k)
      {
        ghost var before := limbs;
        if off == 0 {
          WholeLimbLeft(LimbAt(was, if i >= words then i - words else 0),
                        if i >= words then LimbBelow(was, i - words) else 0);
          limbs := limbs[i := if i >= words && i - words < n then limbs[i - words] else 0];
        } else {
          Halves(off);
          var high: Limb := if i >= words + 1 && i - words - 1 < n then limbs[i - words - 1] else 0;
          var low: Limb := if i >= words && i - words < n then limbs[i - words] else 0;
          limbs := limbs[i := Glue(high, low, Power(2, 32 - off), Power(2, off), BASE)];
        }
        assert ShiftedLeft(was, limbs, words, off, i);
        forall k: nat | i < k ensures ShiftedLeft(was, limbs, words, off, k) {
          assert ShiftedLeft(was, before, words, off, k);
        }
      }
      ShlValue(was, limbs, bits);
    }

    method Shr(bits: nat)
      modifies this
      ensures Number() == old(Number()) / Power(2, bits) && |limbs| == old(|limbs|)
    {
      var words, off, n := bits / 32, bits % 32, |limbs|;
      ghost var was := limbs;
      var moved := if words >= n then 0 else n - words;
      for i := 0 to moved
        invariant |limbs| == n && forall j :: i <= j < n ==> limbs[j] == was[j]
        invariant forall k: nat :: k < i ==> ShiftedRight(was, limbs, words, off, k)
      {
        ghost var before := limbs;
        var x: Limb := limbs[i + words];
        var y: Limb := if i + words + 1 < n then limbs[i + words + 1] else 0;
        if off == 0 {
          WholeLimbRight(x, y);
          limbs := limbs[i := x];
        } else {
          limbs := limbs[i := ShrLimb(x, y, off)];
        }
        assert ShiftedRight(was, limbs, words, off, i);
        forall k: nat | k < i ensures ShiftedRight(was, limbs, words, off, k) {
          assert ShiftedRight(was, before, words, off, k);
        }
      }
      for i := moved to n
        invariant |limbs| == n
        invariant forall k: nat :: k < i ==> ShiftedRight(was, limbs, words, off, k)
      {
        ghost var before := limbs;
        NothingMoves(off);
        limbs := limbs[i := 0];
        assert ShiftedRight(was, limbs, words, off, i);
        forall k: nat | k < i ensures ShiftedRight(was, limbs, words, off, k) {
          assert ShiftedRight(was, before, words, off, k);
        }
      }
      ShrValue(was, limbs, bits);
    }

    method AddOne()
      modifies this
      ensures Number() == old(Number()) + 1 && |limbs| >= old(|limbs|)
    {
      ghost var was := limbs;
      for i := 0 to |limbs|
        invariant |limbs| == |was| && forall j :: i <= j < |was| ==> limbs[j] == was[j]
        invariant forall j :: 0 <= j < i ==> limbs[j] == 0
        invariant Rippled(was, i)
      {
        var x: nat := limbs[i];
        var t := x + 1;
        limbs := limbs[i := t % BASE];
        if t < BASE {
          RippleStops(was, limbs, i);
          return;
        }
        RippleOn(was, i);
      }
      RippleOut(was, limbs);
      limbs := limbs + [1];
    }

    /** Divides by a group of nine decimal digits, from the top of the `n` limbs in use; the result is the remainder. */
    method DivideByGroup(n: nat) returns (rem: nat)
      requires n <= |limbs| && From(limbs, n) == 0
      modifies this
      ensures |limbs| == old(|limbs|) && From(limbs, n) == 0
      ensures old(Number()) == Number() * GROUP + rem && rem < GROUP
    {
      ghost var was := limbs;
      rem := 0;
      for i := n downto 0
        invariant |limbs| == |was| && rem < GROUP && From(limbs, n) == 0
        invariant forall j :: 0 <= j < i ==> limbs[j] == was[j]
        invariant From(was, i) == From(limbs, i) * GROUP + rem
      {
        var cur := rem * BASE + limbs[i];
        DivideStep(was, limbs, i, rem, cur);
        FromUnchanged(limbs, limbs[i := cur / GROUP], n);
        limbs := limbs[i := cur / GROUP];
        rem := cur % GROUP;
      }
    }

    /** Skips zero limbs at the top, but not the last one. */
    method Trim(n: nat) returns (top: nat)
      requires 0 < n <= |limbs| && From(limbs, n) == 0
      ensures 0 < top <= n && From(limbs, top) == 0
      ensures top > 1 || limbs[top - 1] != 0 <==> Number() > 0
    {
      top := n;
      while top > 1 && limbs[top - 1] == 0
        invariant 0 < top <= n && From(limbs, top) == 0
      {
        top := top - 1;
      }
      TopLimb(limbs, top);
    }

    /** The decimal digits; the limbs are used up. */
    method ToDecimal() returns (text: string)
      requires limbs != []
      modifies this
      ensures text == Decimal(old(Number()))
    {
      var n := Trim(|limbs|);
      if n == 1 && limbs[0] == 0 {
        return "0";
      }
      var groups: seq<string> := [];
      ghost var rems: seq<nat> := [];
      while n > 1 || limbs[n - 1] != 0
        invariant 0 < n <= |limbs| && From(limbs, n) == 0
        invariant n > 1 || limbs[n - 1] != 0 <==> Number() > 0
        invariant Rendered(groups, rems) && Grouped(rems, 0, Number()) == old(Number())
        invariant Number() > 0 || TopGroupSet(rems)
        decreases Number()
      {
        ghost var before := Number();
        var rem := DivideByGroup(n);
        GroupedPush(rems, 0, rem, Number());
        groups := groups + [Decimal(rem)];
        rems := rems + [rem];
        n := Trim(n);
      }
      text := JoinGroups(groups, rems);
    }
  }

  /** Group by group, the text of each remainder. */
  ghost predicate Rendered(groups: seq<string>, rems: seq<nat>) {
    |groups| == |rems| && forall i :: 0 <= i < |rems| ==> rems[i] < GROUP && groups[i] == Decimal(rems[i])
  }

  ghost predicate TopGroupSet(rems: seq<nat>) {
    rems != [] && rems[|rems| - 1] > 0
  }

  /** Writes the groups from the most significant one down, padding all but the first. */
  method JoinGroups(groups: seq<string>, ghost rems: seq<nat>) returns (text: string)
    requires Rendered(groups, rems) && TopGroupSet(rems)
    ensures text == Decimal(Grouped(rems, 0, 0))
  {
    text := groups[|groups| - 1];
    assert Grouped(rems, |rems| - 1, 0) == rems[|rems| - 1];
    for i := |groups| - 1 downto 0
      invariant text == Decimal(Grouped(rems, i, 0)) && Grouped(rems, i, 0) > 0
    {
      JoinStep(rems, i);
      text := text + (Zeros(9 - |groups[i]|) + groups[i]);
    }
  }

  // ----- adding one -----

  /** The limbs below `i` were all ones, so that the increment goes on at `i`. */
  ghost predicate Rippled(was: seq<Limb>, i: nat) {
    Value(was) + 1 == (From(was, i) + 1) * Power(BASE, i)
  }

  lemma {:induction false} RippleOn(was: seq<Limb>, i: nat)
    requires i < |was| && was[i] == BASE - 1 && Rippled(was, i)
    ensures Rippled(was, i + 1)
  {
    FromUnfolds(was, i);
    Associate(From(was, i + 1) + 1, BASE, Power(BASE, i));
  }

  lemma {:induction false} RippleStops(was: seq<Limb>, a: seq<Limb>, i: nat)
    requires |a| == |was| && i < |was| && a[i] as int == was[i] as int + 1 && Rippled(was, i)
    requires forall j :: 0 <= j < i ==> a[j] == 0
    requires forall j :: i < j < |was| ==> a[j] == was[j]
    ensures Value(a) == Value(was) + 1
  {
    FromUnchanged(was, a, i + 1);
    BelowZero(a, i);
    Split(a, i);
  }

  lemma {:induction false} RippleOut(was: seq<Limb>, a: seq<Limb>)
    requires |a| == |was| && Rippled(was, |was|)
    requires forall j :: 0 <= j < |a| ==> a[j] == 0
    ensures Value(a + [1]) == Value(was) + 1
  {
    BelowZero(a, |a|);
    BelowAll(a, |a|);
    BelowPush(a, 1);
  }

  // ----- dividing -----

  lemma {:induction false} JoinStep(rems: seq<nat>, i: nat)
    requires i < |rems| && rems[i] < GROUP && Grouped(rems, i + 1, 0) > 0
    ensures |Decimal(rems[i])| <= 9 && Grouped(rems, i, 0) > 0
    ensures Decimal(Grouped(rems, i, 0)) ==
      Decimal(Grouped(rems, i + 1, 0)) + (Zeros(9 - |Decimal(rems[i])|) + Decimal(rems[i]))
  {
    GroupIsPower();
    ZeroPad(rems[i], 9);
    DecimalJoin(Grouped(rems, i + 1, 0), rems[i], 9);
  }

  lemma {:induction false} DivideStep(was: seq<Limb>, a: seq<Limb>, i: nat, rem: nat, cur: nat)
    requires |a| == |was| && i < |a| && a[i] == was[i] && rem < GROUP && cur == rem * BASE + a[i]
    requires From(was, i + 1) == From(a, i + 1) * GROUP + rem
    ensures cur / GROUP < BASE
    ensures From(was, i) == From(a[i := cur / GROUP], i) * GROUP + cur % GROUP
  {
    assert cur < BASE * GROUP;
    QuotientBelow(cur, BASE, GROUP);
    FromUnchanged(a, a[i := cur / GROUP], i + 1);
    DivideArithmetic(a[i], From(a, i + 1), rem, cur, BASE, GROUP);
  }

  lemma {:induction false} DivideArithmetic(x: nat, high: nat, rem: nat, cur: nat, base: nat, group: nat)
    requires cur == rem * base + x && group > 0
    ensures x + (high * group + rem) * base == (cur / group + high * base) * group + cur % group
  {
    var d, r := QuotientRemainder(cur, group);
    Distribute(high * group, rem, base);
    Swap(high, group, base);
    Distribute(d, high * base, group);
  }

  lemma {:induction false} TopLimb(a: seq<Limb>, top: nat)
    requires 0 < top <= |a| && From(a, top) == 0 && (top > 1 ==> a[top - 1] != 0)
    ensures top > 1 || a[top - 1] != 0 <==> Value(a) > 0
  {
    Split(a, top - 1);
    FromUnfolds(a, top - 1);
    ZeroSum(Below(a, top - 1), a[top - 1], Power(BASE, top - 1));
  }


  lemma {:induction false} TwoLimbs(a: seq<Limb>)
    requires |a| == 2
    ensures Value(a) == a[0] + a[1] * BASE
  {
    assert From(a, 2) == 0;
    assert From(a, 1) == a[1];
  }

  lemma {:induction false} BelowUpdate(a: seq<Limb>, i: nat, x: Limb)
    requires i < |a|
    ensures Below(a[i := x], i + 1) == Below(a, i) + x * Power(BASE, i)
  {
    BelowAgrees(a, a[i := x], i);
  }

  lemma {:induction false} BelowPush(a: seq<Limb>, x: Limb)
    ensures Value(a + [x]) == Value(a) + x * Power(BASE, |a|)
  {
    BelowAgrees(a, a + [x], |a|);
    BelowAll(a, |a|);
    BelowAll(a + [x], |a| + 1);
  }

  lemma {:induction false} FromUnchanged(a: seq<Limb>, b: seq<Limb>, k: nat)
    requires |a| == |b| && forall j :: k <= j < |a| ==> a[j] == b[j]
    ensures From(a, k) == From(b, k)
    decreases |a| - k
  {
    if k < |a| {
      FromUnchanged(a, b, k + 1);
    }
  }

  // ----- multiplying -----

  /** The limbs below `i` are multiplied, up to the carry out of them. */
  ghost predicate Multiplied(was: seq<Limb>, a: seq<Limb>, m: nat, i: nat, carry: nat) {
    Below(a, i) + carry * Power(BASE, i) == Below(was, i) * m
  }

  lemma {:induction false} MultipliedNext(was: seq<Limb>, a: seq<Limb>, m: Limb, i: nat, carry: Limb, t: nat)
    requires |a| == |was| && i < |a| && a[i] == was[i] && Multiplied(was, a, m, i, carry) && t == a[i] * m + carry
    ensures t / BASE < BASE && Multiplied(was, a[i := t % BASE], m, i + 1, t / BASE)
  {
    MulCarry(a[i], m, carry, BASE);
    MulStep(Power(BASE, i), m, Below(a, i), Below(was, i), a[i], carry, BASE);
    BelowUpdate(a, i, t % BASE);
    assert Below(was, i + 1) == Below(was, i) + was[i] * Power(BASE, i);
    assert Power(BASE, i + 1) == BASE * Power(BASE, i);
  }

  lemma {:induction false} AllMultiplied(was: seq<Limb>, a: seq<Limb>, m: nat, carry: Limb)
    requires |a| == |was| && Multiplied(was, a, m, |a|, carry)
    ensures Value(if carry == 0 then a else a + [carry]) == Value(was) * m
  {
    BelowAll(was, |was|);
    BelowAll(a, |a|);
    BelowPush(a, carry);
  }

  // ----- bits -----

  /** A bit of a number is a bit of the limb it falls into. */
  lemma {:induction false} BitAt(a: seq<Limb>, i: nat)
    ensures (Value(a) / Power(2, i)) % 2 == (LimbAt(a, i / 32) / Power(2, i % 32)) % 2
    ensures i / 32 >= |a| ==> (Value(a) / Power(2, i)) % 2 == 0
  {
    var limb, off := i / 32, i % 32;
    AtBit(a, i);
    FromUnfolds(a, limb);
    Halves(off);
    BitOfLimb(LimbAt(a, limb), From(a, limb + 1), Power(2, off), Power(2, 31 - off), BASE);
    NothingCarried(0, Power(2, off), 1);
  }

  lemma {:induction false} BitOfLimb(x: nat, rest: nat, p: nat, q: nat, base: nat)
    requires p > 0 && base == p * (2 * q)
    ensures ((x + rest * base) / p) % 2 == (x / p) % 2
  {
    Associate(rest, 2 * q, p);
    DropMultiple(x, rest * (2 * q), p);
    Associate(rest, q, 2);
    DropMultiple(x / p, rest * q, 2);
  }

  /** The bits below a position are zero when the limbs below are and the rest of its limb is. */
  lemma {:induction false} BitsBelow(a: seq<Limb>, i: nat)
    ensures Value(a) % Power(2, i) == 0 <==>
            (forall j: nat :: j < i / 32 ==> LimbAt(a, j) == 0) && LimbAt(a, i / 32) % Power(2, i % 32) == 0
  {
    var limb := i / 32;
    AtBit(a, i);
    BelowZero(a, limb);
    ZeroSum(Below(a, limb), LimbAt(a, limb) % Power(2, i % 32), Power(BASE, limb));
  }

  lemma {:induction false} ZeroSum(low: nat, x: nat, p: nat)
    requires p > 0
    ensures low + x * p == 0 <==> low == 0 && x == 0
  {
    MulLe(if x > 0 then 1 else 0, x, p);
  }

  // ----- shifting by whole limbs -----

  lemma {:induction false} WholeLimbLeft(x: Limb, y: Limb)
    ensures ShlLimb(x, y, 0) == x
  {
    PowersOfTwo();
    assert Power(2, 0) == 1;
  }

  lemma {:induction false} WholeLimbRight(x: Limb, y: Limb)
    ensures ShrLimb(x, y, 0) == x
  {
    PowersOfTwo();
    assert Power(2, 0) == 1;
  }

  lemma {:induction false} NothingMoves(off: nat)
    requires off <= 32
    ensures ShrLimb(0, 0, off) == 0
  {
  }
}
