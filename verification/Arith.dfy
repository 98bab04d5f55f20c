/** The few non-linear facts the layout and routing arithmetic needs. */
module Arith {
  lemma Distribute(a: nat, b: nat, c: nat)
    ensures (a + b) * c == a * c + b * c
  {
  }

  lemma Monotone(a: nat, b: nat, c: nat)
    requires a <= b
    ensures a * c <= b * c
  {
    Distribute(a, b - a, c);
  }

  lemma StrictlyMonotone(a: nat, b: nat, c: nat)
    requires a < b && c > 0
    ensures a * c + c <= b * c
  {
    Monotone(a + 1, b, c);
    Distribute(a, 1, c);
  }

  lemma Cancel(a: nat, b: nat, c: nat)
    requires c > 0 && a * c <= b * c
    ensures a <= b
  {
    if b < a {
      StrictlyMonotone(b, a, c);
    }
  }

  lemma Quotient(x: nat, d: nat, q: nat, r: nat)
    requires d > 0 && r < d && x == q * d + r
    ensures x / d == q && x % d == r
  {
    if x / d < q {
      StrictlyMonotone(x / d, q, d);
    } else if q < x / d {
      StrictlyMonotone(q, x / d, d);
    }
  }

  lemma QuotientBounds(x: nat, n: nat, c: nat)
    requires c > 0 && x < n * c
    ensures x / c < n && x / c * c <= x < x / c * c + c
  {
    assert x == x / c * c + x % c;
    if n <= x / c {
      Monotone(n, x / c, c);
    }
  }

  lemma Associate(x: nat, b: nat, a: nat)
    ensures x * b * a == x * (a * b)
  {
  }

  lemma MixedRadix(q: nat, r: nat, r': nat, a: nat, b: nat)
    requires r' < a && r < b
    ensures (q * b + r) * a + r' == q * (a * b) + (r * a + r')
    ensures r * a + r' < a * b
  {
    Distribute(q * b, r, a);
    Associate(q, b, a);
    StrictlyMonotone(r, b, a);
    Associate(1, b, a);
  }

  /** Dividing twice is dividing by the product. */
  lemma DivideTwice(x: nat, a: nat, b: nat, c: nat)
    requires a > 0 && b > 0 && c == a * b
    ensures c > 0 && x / a / b == x / c
  {
    var q := x / a;
    Divided(x, a);
    Divided(q, b);
    MixedRadix(q / b, q % b, x % a, a, b);
    Quotient(x, c, q / b, q % b * a + x % a);
  }

  lemma Divided(x: nat, a: nat)
    requires a > 0
    ensures x == x / a * a + x % a && x % a < a
  {
  }
}
