/** Facts about products and quotients of variables, proved once away from everything else. */
module Products {
  lemma Monotone(a: nat, b: nat, c: nat)
    requires a <= b
    ensures a * c <= b * c
  {
  }

  lemma Distribute(a: nat, b: nat, c: nat)
    ensures (a + b) * c == a * c + b * c && c * (a + b) == c * a + c * b
  {
  }

  lemma Quotient(q: nat, r: nat, b: nat)
    requires r < b
    ensures (q * b + r) / b == q && (q * b + r) % b == r
  {
    var x := q * b + r;
    var q', r' := x / b, x % b;
    assert x == q' * b + r';
    if q' < q {
      Monotone(q' + 1, q, b);
    } else if q < q' {
      Monotone(q + 1, q', b);
    }
  }
}
