/**
 Java's numeric conversions that the detector relies on, stated over Dafny's
 unbounded `int` and exact `real`.

 Doubles are modelled as exact rationals: there is no rounding, no infinity
 and no NaN here.
 */
module Numerics {

  const IntMin: int := -0x8000_0000
  const IntMax: int := 0x7FFF_FFFF
  const TwoTo32: int := 0x1_0000_0000

  predicate IsJavaInt(v: int) {
    IntMin <= v <= IntMax
  }

  /** Java's `(int)` applied to a finite double, without saturation:
      rounds toward zero. */
  function Trunc(r: real): (t: int)
    ensures 0.0 <= r ==> 0 <= t && t as real <= r < t as real + 1.0
    ensures r < 0.0 ==> t <= 0 && r <= t as real < r + 1.0
  {
    if r >= 0.0 then r.Floor else -((-r).Floor)
  }

  /** Java's `(int)` applied to a finite double: rounds toward zero and
      saturates at the bounds of `int`. */
  function ToJavaInt(r: real): (t: int)
    ensures IsJavaInt(t)
    ensures IsJavaInt(Trunc(r)) ==> t == Trunc(r)
    ensures Trunc(r) > IntMax ==> t == IntMax
    ensures Trunc(r) < IntMin ==> t == IntMin
  {
    var v := Trunc(r);
    if v > IntMax then IntMax else if v < IntMin then IntMin else v
  }

  /** Two's-complement wrap-around of an unbounded integer into `int`. */
  function Wrap32(v: int): (w: int)
    ensures IsJavaInt(w)
    ensures (v - w) % TwoTo32 == 0
    ensures IsJavaInt(v) ==> w == v
  {
    var u := v % TwoTo32;
    if u >= 0x8000_0000 then u - TwoTo32 else u
  }

  /** `normalize(num, min, max)` of both ClassifierMJ and the controller:
      maps `min` to 0 and `max` to 1, linearly. */
  function Normalize(num: real, min: real, max: real): (n: real)
    requires max != min
    ensures num == min ==> n == 0.0
    ensures num == max ==> n == 1.0
    ensures min <= num <= max ==> 0.0 <= n <= 1.0
    ensures min < max ==> (n > 0.0 <==> num > min)
  {
    if min < max then QuotientFacts(num - min, max - min); (num - min) / (max - min)
    else QuotientFacts(min - num, min - max); (num - min) / (max - min)
  }

  lemma SelfQuotient(d: real)
    requires d > 0.0
    ensures d / d == 1.0
  {
  }

  lemma QuotientFacts(a: real, d: real)
    requires d > 0.0
    ensures 0.0 <= a ==> 0.0 <= a / d
    ensures 0.0 <= a <= d ==> a / d <= 1.0
    ensures a / d > 0.0 <==> a > 0.0
    ensures d / d == 1.0
  {
    SelfQuotient(d);
    var q := a / d;
    assert q * d == a;
    if q < 0.0 {
      assert q * d < 0.0;
    }
    if q > 1.0 {
      assert q * d > d;
    }
  }
}
