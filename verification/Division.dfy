/** Facts about integer multiplication and floor division that the models share. */
module Division {

  /** Products and quotients of naturals, as naturals. */
  function Times(k: nat, m: nat): nat {
    k * m
  }

  function Quotient(a: nat, d: nat): nat
    requires d > 0
  {
    a / d
  }

  lemma TimesCommutes(k: nat, m: nat)
    ensures Times(k, m) == Times(m, k)
  {
  }

  lemma MulMonotone(k: nat, a: int, b: int)
    requires a <= b
    ensures k * a <= k * b
  {
    assert k * b - k * a == k * (b - a);
  }

  /** `a / d` is the only `q` with q * d <= a < (q + 1) * d. */
  lemma DivUnique(a: int, d: int, q: int)
    requires d > 0 && q * d <= a < q * d + d
    ensures a / d == q && a % d == a - q * d
  {
    var p, r := a / d, a % d;
    assert a == p * d + r && 0 <= r < d;
    assert d * (p + 1) == p * d + d && d * (q + 1) == q * d + d;
    if p < q {
      MulMonotone(d, p + 1, q);
    } else if q < p {
      MulMonotone(d, q + 1, p);
    }
  }

  lemma DivMonotone(a: int, b: int, d: int)
    requires d > 0 && a <= b
    ensures a / d <= b / d
  {
    var p, q := a / d, b / d;
    assert a == p * d + a % d && b == q * d + b % d && d * (q + 1) == q * d + d;
    if q < p {
      MulMonotone(d, q + 1, p);
    }
  }

  lemma DivAddMultiple(a: int, d: int, k: int)
    requires d > 0
    ensures (a + k * d) / d == a / d + k && (a + k * d) % d == a % d
  {
    var q := a / d;
    assert a == q * d + a % d;
    assert (q + k) * d == q * d + k * d;
    DivUnique(a + k * d, d, q + k);
  }

  /** Dividing twice is dividing by the product. */
  lemma NestedDivision(a: nat, b: nat, c: nat)
    requires b > 0 && c > 0
    ensures Times(b, c) > 0 && Quotient(Quotient(a, b), c) == Quotient(a, Times(b, c))
  {
    NestedBounds(a, b, c, a / b, a % b, a / b / c, a / b % c);
    DivUnique(a, Times(b, c), a / b / c);
  }

  lemma NestedBounds(a: nat, b: nat, c: nat, q: nat, s: nat, r: nat, x: nat)
    requires a == q * b + s && s < b && q == r * c + x && x < c
    ensures Times(b, c) > 0 && r * Times(b, c) <= a < r * Times(b, c) + Times(b, c)
  {
    Regroup(r, c, x, b);
    MulMonotone(b, x + 1, c);
    assert b * (x + 1) == b * x + b;
  }

  lemma Regroup(r: nat, c: nat, x: nat, b: nat)
    ensures (r * c + x) * b == r * Times(b, c) + b * x
  {
  }
}
