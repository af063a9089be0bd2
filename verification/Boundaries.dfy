/**
 The boundary values of an integer field: near 0, near the maximum and near the fractions of the maximum plus one,
 which are computed without representing it.
 */
module Boundaries {
  import opened Arithmetic

  const DIVISORS: seq<nat> := [32, 16, 8, 4, 3, 2]

  /** floor((maximum + 1) / divisor), computed without representing maximum + 1. */
  function Fraction(maximum: nat, divisor: nat): nat
    requires divisor > 0
  {
    maximum / divisor + if maximum % divisor == divisor - 1 then 1 else 0
  }

  lemma {:induction false} FractionIsExact(maximum: nat, divisor: nat)
    requires divisor > 0
    ensures Fraction(maximum, divisor) == (maximum + 1) / divisor
  {
    var q, r := maximum / divisor, maximum % divisor;
    assert maximum == q * divisor + r;
    if r == divisor - 1 {
      assert maximum + 1 == (q + 1) * divisor + 0;
      Divides(maximum + 1, divisor, q + 1, 0);
    } else {
      Divides(maximum + 1, divisor, q, r + 1);
    }
  }

  lemma {:induction false} Products(x: nat, y: nat, a: nat, b: nat)
    requires a >= b
    ensures x * b <= x * a
    ensures x > y ==> x * b >= (y + 1) * b
  {
  }

  /** A larger divisor gives a smaller quotient. */
  lemma {:induction false} QuotientOrder(n: nat, a: nat, b: nat)
    requires a >= b > 0
    ensures n / a <= n / b
  {
    var x, y := n / a, n / b;
    assert n == x * a + n % a && n == y * b + n % b;
    assert (y + 1) * b == y * b + b;
    Products(x, y, a, b);
  }

  lemma {:induction false} FractionsOrdered(maximum: nat, a: nat, b: nat)
    requires a >= b > 1 && maximum > 0
    ensures Fraction(maximum, a) <= Fraction(maximum, b) <= maximum
  {
    FractionIsExact(maximum, a);
    FractionIsExact(maximum, b);
    QuotientOrder(maximum + 1, a, b);
    QuotientOrder(maximum + 1, b, 2);
  }

  /** The boundary points below the maximum: 0 and the fractions, in increasing order. */
  function Points(maximum: nat): (r: seq<nat>)
    ensures |r| == 7
  {
    [0] + seq(6, k requires 0 <= k < 6 => Fraction(maximum, DIVISORS[k]))
  }

  lemma {:induction false} PointsOrdered(maximum: nat)
    requires maximum > 0
    ensures forall k :: 0 <= k < 7 ==> Points(maximum)[k] <= maximum
    ensures forall j, k :: 0 <= j < k < 7 ==> Points(maximum)[j] <= Points(maximum)[k]
  {
    FractionsOrdered(maximum, 32, 16);
    FractionsOrdered(maximum, 16, 8);
    FractionsOrdered(maximum, 8, 4);
    FractionsOrdered(maximum, 4, 3);
    FractionsOrdered(maximum, 3, 2);
    var p := Points(maximum);
    assert p == [0, Fraction(maximum, 32), Fraction(maximum, 16), Fraction(maximum, 8), Fraction(maximum, 4),
                 Fraction(maximum, 3), Fraction(maximum, 2)];
  }

  /** Where the window of a point starts. */
  function Low(maximum: nat, count: nat): int
    requires count < 7
  {
    (Points(maximum)[count] as int) - 10
  }

  predicate Near(x: nat, point: nat) {
    point - 10 <= x <= point + 9
  }

  /** Within range and near one of the first `count` points. */
  ghost predicate NearPoints(maximum: nat, count: nat, x: nat)
    requires count <= 7
  {
    x <= maximum && exists k :: 0 <= k < count && Near(x, Points(maximum)[k])
  }

  ghost predicate Increasing(values: seq<nat>) {
    forall i, j :: 0 <= i < j < |values| ==> values[i] < values[j]
  }

  /** What is collected while the window of point `count` is being walked up to (not including) `upto`. */
  ghost predicate Collected(maximum: nat, count: nat, upto: int, values: seq<nat>)
    requires count <= 7
  {
    && Increasing(values)
    && (forall i :: 0 <= i < |values| ==> values[i] <= maximum)
    && (forall x: nat :: x in values <==>
          NearPoints(maximum, count, x) || (count < 7 && x <= maximum && Points(maximum)[count] - 10 <= x < upto))
  }

  /** Keep a value only if it is larger than the last one kept. */
  method Append(values: seq<nat>, candidate: nat) returns (r: seq<nat>)
    requires Increasing(values)
    ensures Increasing(r)
    ensures r == if values == [] || candidate > values[|values| - 1] then values + [candidate] else values
  {
    if |values| == 0 || candidate > values[|values| - 1] {
      r := values + [candidate];
    } else {
      r := values;
    }
  }

  /** A value that is not larger than the last one kept was kept before: its window overlaps an earlier one. */
  lemma {:induction false} DroppedWasKept(maximum: nat, count: nat, values: seq<nat>, candidate: nat)
    requires maximum > 0 && count < 7
    requires Points(maximum)[count] - 10 <= candidate <= maximum
    requires Collected(maximum, count, candidate, values)
    requires values != [] && candidate <= values[|values| - 1]
    ensures candidate in values
  {
    PointsOrdered(maximum);
    var last := values[|values| - 1];
    assert last in values;
    var k :| 0 <= k < count && Near(last, Points(maximum)[k]);
    assert Near(candidate, Points(maximum)[k]);
    assert NearPoints(maximum, count, candidate);
  }

  lemma {:induction false} KeepOne(maximum: nat, count: nat, values: seq<nat>, candidate: nat, r: seq<nat>)
    requires maximum > 0 && count < 7
    requires Points(maximum)[count] - 10 <= candidate <= maximum
    requires Collected(maximum, count, candidate, values)
    requires r == if values == [] || candidate > values[|values| - 1] then values + [candidate] else values
    ensures Collected(maximum, count, candidate + 1, r)
  {
    if r == values {
      DroppedWasKept(maximum, count, values, candidate);
    } else {
      forall i, j | 0 <= i < j < |r| ensures r[i] < r[j] {
        assert j == |r| - 1 ==> values[i] <= values[|values| - 1];
      }
    }
  }

  /** One point's window, from ten below it to nine above it, clipped to the range. */
  method AddWindow(maximum: nat, count: nat, boundary: nat, values: seq<nat>) returns (r: seq<nat>)
    requires maximum > 0 && count < 7 && boundary == Points(maximum)[count] && boundary <= maximum
    requires Collected(maximum, count, boundary - 10, values)
    ensures Collected(maximum, count, boundary + 10, r)
  {
    r := values;
    for delta := -10 to 10
      invariant Collected(maximum, count, boundary + delta, r)
    {
      var magnitude := if delta < 0 then -delta else delta;
      if delta < 0 && boundary < magnitude {
        assert boundary + delta < 0;
        continue;
      }
      if delta >= 0 && maximum - boundary < magnitude {
        assert boundary + delta > maximum;
        continue;
      }
      var candidate := if delta < 0 then boundary - magnitude else boundary + magnitude;
      var before := r;
      r := Append(r, candidate);
      KeepOne(maximum, count, before, candidate, r);
    }
  }

  lemma {:induction false} WindowDone(maximum: nat, count: nat, values: seq<nat>)
    requires maximum > 0 && count < 7
    requires Collected(maximum, count, Points(maximum)[count] + 10, values)
    ensures forall x: nat :: x in values <==> NearPoints(maximum, count + 1, x)
    ensures Increasing(values)
    ensures count + 1 < 7 ==> Collected(maximum, count + 1, Low(maximum, count + 1), values)
  {
    forall x: nat ensures x in values <==> NearPoints(maximum, count + 1, x) {
      if NearPoints(maximum, count + 1, x) && !NearPoints(maximum, count, x) {
        var k :| 0 <= k < count + 1 && Near(x, Points(maximum)[k]);
        assert k == count;
      }
      if x <= maximum && Points(maximum)[count] - 10 <= x < Points(maximum)[count] + 10 {
        assert Near(x, Points(maximum)[count]);
      }
    }
  }

  /** Near 0, near maximum + 1, or near a fraction of maximum + 1. */
  ghost predicate Interesting(maximum: nat, x: nat) {
    && x <= maximum
    && (Near(x, 0) || Near(x, maximum + 1) || exists k :: 0 <= k < 6 && Near(x, (maximum + 1) / DIVISORS[k]))
  }

  lemma {:induction false} InterestingIsNearPoints(maximum: nat, x: nat)
    ensures Interesting(maximum, x) <==> NearPoints(maximum, 7, x) || (x <= maximum && Near(x, maximum + 1))
  {
    var p := Points(maximum);
    forall k | 0 <= k < 6 ensures p[k + 1] == (maximum + 1) / DIVISORS[k] {
      FractionIsExact(maximum, DIVISORS[k]);
    }
    if NearPoints(maximum, 7, x) {
      var k :| 0 <= k < 7 && Near(x, p[k]);
      assert k > 0 ==> Near(x, (maximum + 1) / DIVISORS[k - 1]);
    }
    if k :| 0 <= k < 6 && Near(x, (maximum + 1) / DIVISORS[k]) {
      assert Near(x, p[k + 1]);
    }
    assert p[0] == 0;
  }

  /**
   The boundary values: strictly increasing, and exactly the numbers of the range within ten below or
   nine above 0, a fraction of maximum + 1, or maximum + 1 itself.
   */
  method IntegerBoundaries(maximum: nat) returns (r: seq<nat>)
    requires maximum >= 9
    ensures Increasing(r)
    ensures forall x: nat :: x in r <==> Interesting(maximum, x)
  {
    r := [];
    PointsOrdered(maximum);
    for count := 0 to 7
      invariant count < 7 ==> Collected(maximum, count, Low(maximum, count), r)
      invariant Increasing(r) && forall x: nat :: x in r <==> NearPoints(maximum, count, x)
    {
      r := AddWindow(maximum, count, Points(maximum)[count], r);
      WindowDone(maximum, count, r);
    }
    r := AddTop(maximum, r);
  }

  /** The ten values up to the maximum, the lower half of the window of maximum + 1. */
  method AddTop(maximum: nat, values: seq<nat>) returns (r: seq<nat>)
    requires maximum >= 9 && Increasing(values)
    requires forall x: nat :: x in values <==> NearPoints(maximum, 7, x)
    ensures Increasing(r)
    ensures forall x: nat :: x in r <==> Interesting(maximum, x)
  {
    r := values;
    for delta := 0 to 10
      invariant Increasing(r)
      invariant forall x: nat :: x in r <==> NearPoints(maximum, 7, x) || maximum - 9 <= x < maximum - 9 + delta
    {
      var candidate := maximum - (9 - delta);
      TopDropped(maximum, r, candidate);
      var before := r;
      r := Append(r, candidate);
      assert r != before ==> r == before + [candidate];
    }
    forall x: nat ensures x in r <==> Interesting(maximum, x) {
      InterestingIsNearPoints(maximum, x);
    }
  }

  lemma {:induction false} TopDropped(maximum: nat, values: seq<nat>, candidate: nat)
    requires maximum >= 9 && Increasing(values) && maximum - 9 <= candidate <= maximum
    requires forall x: nat :: x in values <==> NearPoints(maximum, 7, x) || maximum - 9 <= x < candidate
    ensures values != [] && candidate <= values[|values| - 1] ==> candidate in values
  {
    if values != [] && candidate <= values[|values| - 1] {
      PointsOrdered(maximum);
      var last := values[|values| - 1];
      assert last in values;
      var k :| 0 <= k < 7 && Near(last, Points(maximum)[k]);
      assert Near(candidate, Points(maximum)[k]);
    }
  }
}
