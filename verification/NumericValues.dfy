/** The numbers that a numeric column of some precision and scale holds. */
module NumericValues {

  function Pow10(n: nat): (r: int)
    ensures r >= 1
  {
    if n == 0 then 1 else 10 * Pow10(n - 1)
  }

  lemma {:induction false} Pow10Sum(a: nat, b: nat)
    ensures Pow10(a + b) == Pow10(a) * Pow10(b)
    decreases a
  {
    if a > 0 {
      Pow10Sum(a - 1, b);
      MulAssoc(10, Pow10(a - 1), Pow10(b));
    }
  }

  lemma MulAssoc(a: int, b: int, c: int)
    ensures a * b * c == a * (b * c)
  {
  }

  lemma {:induction false} Pow10Grows(a: nat, b: nat)
    requires a <= b
    ensures Pow10(a) <= Pow10(b)
    decreases b
  {
    if a < b {
      Pow10Grows(a, b - 1);
    }
  }

  /** Ten to an integer power. */
  function TenTo(e: int): (r: real)
    ensures r > 0.0
    decreases if e >= 0 then e else -e
  {
    if e == 0 then 1.0 else if e > 0 then 10.0 * TenTo(e - 1) else TenTo(e + 1) / 10.0
  }

  /** A number taken n times ten. */
  function Scaled(n: nat, u: real): real {
    if n == 0 then u else 10.0 * Scaled(n - 1, u)
  }

  lemma {:induction false} TenToScaled(a: int, n: nat)
    ensures TenTo(a + n) == Scaled(n, TenTo(a))
    decreases n
  {
    if n > 0 {
      TenToScaled(a, n - 1);
    }
  }

  lemma TenTimes(k: int, w: real)
    ensures k as real * (10.0 * w) == (k * 10) as real * w
  {
  }

  lemma {:induction false} ScaledMul(k: int, n: nat, u: real)
    ensures k as real * Scaled(n, u) == (k * Pow10(n)) as real * u
    decreases n
  {
    if n > 0 {
      TenTimes(k, Scaled(n - 1, u));
      ScaledMul(k * 10, n - 1, u);
      MulAssoc(k, 10, Pow10(n - 1));
    }
  }

  /** The same number at a larger scale. */
  lemma AtLargerScale(k: int, s: int, t: int, d: nat, n: int)
    requires s + d == t && n == k * Pow10(d)
    ensures k as real * TenTo(-s) == n as real * TenTo(-t)
  {
    TenToScaled(-t, d);
    assert -s == -t + d;
    ScaledMul(k, d, TenTo(-t));
  }

  lemma Cancel(a: int, b: int, u: real)
    requires u > 0.0 && a as real * u == b as real * u
    ensures a == b
  {
    assert (a as real - b as real) * u == 0.0;
  }

  /** A number has one place at each scale. */
  lemma Rescaled(k: int, s: int, j: int, t: int, d: nat, n: int)
    requires s + d == t && n == k * Pow10(d) && k as real * TenTo(-s) == j as real * TenTo(-t)
    ensures j == n
  {
    AtLargerScale(k, s, t, d, n);
    Cancel(n, j, TenTo(-t));
  }

  /** The numbers of precision p and scale s: whole multiples of ten to minus s, of at most p digits. */
  ghost predicate HoldsWith(p: nat, s: int, x: real, k: int) {
    -Pow10(p) < k < Pow10(p) && x == k as real * TenTo(-s)
  }

  ghost predicate HoldsNumber(p: nat, s: int, x: real) {
    exists k :: HoldsWith(p, s, x, k)
  }

  ghost predicate NumbersKept(p: nat, s: int, q: nat, t: int) {
    forall x {:trigger HoldsNumber(q, t, x)} :: HoldsNumber(p, s, x) ==> HoldsNumber(q, t, x)
  }

  lemma MulBelow(k: int, m: int, b: int)
    requires -b < k < b && m >= 1
    ensures -(b * m) < k * m < b * m
  {
    assert (b - k) * m > 0 && (b + k) * m > 0;
  }

  lemma StaysBelow(p: nat, d: nat, q: nat, k: int)
    requires -Pow10(p) < k < Pow10(p) && p + d <= q
    ensures -Pow10(q) < k * Pow10(d) < Pow10(q)
  {
    MulBelow(k, Pow10(d), Pow10(p));
    Pow10Sum(p, d);
    Pow10Grows(p + d, q);
  }

  lemma FitsWith(p: nat, s: int, q: nat, t: int, x: real, k: int, d: nat, n: int)
    requires s + d == t && p + d <= q && HoldsWith(p, s, x, k) && n == k * Pow10(d)
    ensures HoldsWith(q, t, x, n)
  {
    StaysBelow(p, d, q, k);
    AtLargerScale(k, s, t, d, n);
  }

  lemma NumberFits(p: nat, s: int, q: nat, t: int, x: real)
    requires s <= t && p - s <= q - t && HoldsNumber(p, s, x)
    ensures HoldsNumber(q, t, x)
  {
    var k :| HoldsWith(p, s, x, k);
    FitsWith(p, s, q, t, x, k, t - s, k * Pow10(t - s));
  }

  lemma NotOne(j: int, d: nat, n: int)
    requires d >= 1 && n == j * Pow10(d)
    ensures n != 1
  {
    MulAssoc(j, 10, Pow10(d - 1));
    MulAssoc(10, j, Pow10(d - 1));
  }

  /** With a smaller scale the smallest number of the old type is lost. */
  lemma SmallestLost(p: nat, s: int, q: nat, t: int)
    requires p >= 1 && t < s
    ensures HoldsNumber(p, s, TenTo(-s)) && !HoldsNumber(q, t, TenTo(-s))
  {
    var x := TenTo(-s);
    assert HoldsWith(p, s, x, 1);
    forall j ensures !HoldsWith(q, t, x, j) {
      NotOne(j, s - t, j * Pow10(s - t));
      if HoldsWith(q, t, x, j) {
        Rescaled(j, t, 1, s, s - t, j * Pow10(s - t));
      }
    }
  }

  lemma MulAtLeast(k: int, b: int, m: int)
    requires k >= b && m >= 1
    ensures k * m >= b * m
  {
    assert (k - b) * m >= 0;
  }

  lemma TooLarge(p: nat, d: nat, q: nat, k: int)
    requires p >= 1 && q < p + d && k == Pow10(p) - 1
    ensures k * Pow10(d) >= Pow10(q)
  {
    MulAtLeast(k, Pow10(p - 1), Pow10(d));
    Pow10Sum(p - 1, d);
    Pow10Grows(q, p - 1 + d);
  }

  lemma NotHeld(s: int, k: int, q: nat, t: int, d: nat, x: real, j: int)
    requires s + d == t && x == k as real * TenTo(-s) && k * Pow10(d) >= Pow10(q)
    ensures !HoldsWith(q, t, x, j)
  {
    if x == j as real * TenTo(-t) {
      Rescaled(k, s, j, t, d, k * Pow10(d));
    }
  }

  /** With fewer digits before the point the largest number is lost. */
  lemma LargestLost(p: nat, s: int, q: nat, t: int, k: int, x: real)
    requires p >= 1 && s <= t && q - t < p - s && k == Pow10(p) - 1 && x == k as real * TenTo(-s)
    ensures HoldsNumber(p, s, x) && !HoldsNumber(q, t, x)
  {
    assert HoldsWith(p, s, x, k);
    TooLarge(p, t - s, q, k);
    forall j ensures !HoldsWith(q, t, x, j) {
      NotHeld(s, k, q, t, t - s, x, j);
    }
  }

  /** Every number of one type is one of another exactly when neither the digits
      after the point nor those before it get fewer. */
  lemma NumbersKeptIff(p: nat, s: int, q: nat, t: int)
    requires p >= 1
    ensures NumbersKept(p, s, q, t) <==> s <= t && p - s <= q - t
  {
    if s <= t && p - s <= q - t {
      forall x | HoldsNumber(p, s, x) ensures HoldsNumber(q, t, x) {
        NumberFits(p, s, q, t, x);
      }
    } else if t < s {
      SmallestLost(p, s, q, t);
    } else {
      var k := Pow10(p) - 1;
      LargestLost(p, s, q, t, k, k as real * TenTo(-s));
    }
  }
}
