/** Facts about division that the solver does not find by itself. */
module Division {
  lemma MultipleAtLeast(n: int, b: int)
    requires n >= 1 && b > 0
    ensures n * b >= b
  {
    assert (n - 1) * b >= 0;
  }

  lemma QuotientUnique(a: int, b: int, q: int)
    requires b > 0 && q * b <= a < q * b + b
    ensures a / b == q
  {
    var p := a / b;
    assert a == p * b + a % b;
    assert (q - p) * b == q * b - p * b && (p - q) * b == p * b - q * b;
    if p < q {
      MultipleAtLeast(q - p, b);
    } else if p > q {
      MultipleAtLeast(p - q, b);
    }
  }

  lemma RemainderUnique(a: int, b: int, q: int, r: int)
    requires b > 0 && a == q * b + r && 0 <= r < b
    ensures a / b == q && a % b == r
  {
    QuotientUnique(a, b, q);
  }

  lemma HalfQuotient(a: nat, b: nat)
    requires b > 0
    ensures a / 2 / b == a / (2 * b)
  {
    var q := a / 2 / b;
    assert a / 2 == q * b + a / 2 % b;
    assert q * (2 * b) == 2 * (q * b);
    QuotientUnique(a, 2 * b, q);
  }

  lemma QuotientOfQuotient(a: nat, b: nat, c: nat)
    requires b > 0 && c > 0
    ensures b * c > 0 && a / b / c == a / (b * c)
  {
    var m := a / b;
    var q, r := m / c, m % c;
    MultipleAtLeast(b, c);
    TwoDigits(b, c, q, r);
    BelowMultiple(r, b, c);
    QuotientUnique(a, b * c, q);
  }

  lemma TwoDigits(b: int, c: int, q: int, r: int)
    ensures (q * c + r) * b == q * (b * c) + r * b
  {
    assert (q * c + r) * b == q * c * b + r * b;
    assert q * c * b == q * (c * b);
  }

  lemma BelowMultiple(r: nat, b: nat, c: nat)
    requires r < c
    ensures 0 <= r * b && r * b + b <= b * c
  {
    assert (c - 1 - r) * b >= 0;
    assert (c - 1 - r) * b == c * b - b - r * b;
  }

  // Everything below a multiple has a smaller quotient.
  lemma QuotientBelow(i: int, a: int, b: int)
    requires b > 0
    ensures i < a / b <==> i * b + b <= a
  {
    var p := a / b;
    assert a == p * b + a % b;
    assert (p - i) * b == p * b - i * b && (i - p) * b == i * b - p * b;
    if i < p {
      MultipleAtLeast(p - i, b);
    } else if i > p {
      MultipleAtLeast(i - p, b);
    }
  }
}
