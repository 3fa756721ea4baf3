/** Powers of two. */
module Powers {
  function Pow2(h: nat): (p: nat)
    ensures p > 0
  {
    if h == 0 then 1 else 2 * Pow2(h - 1)
  }

  lemma Pow2Unfold(h: nat)
    ensures Pow2(0) == 1
    ensures 0 < h ==> Pow2(h) == 2 * Pow2(h - 1) && Pow2(h) / 2 == Pow2(h - 1)
  {
  }

  lemma {:induction false} Pow2Sum(a: nat, b: nat)
    ensures Pow2(a + b) == Pow2(a) * Pow2(b)
  {
    hide Pow2;
    Pow2Unfold(a);
    if a > 0 {
      Pow2Sum(a - 1, b);
      Pow2Unfold(a + b);
      assert a - 1 + b == a + b - 1;
      DoubledProduct(Pow2(a - 1), Pow2(b));
    }
  }

  lemma DoubledProduct(a: nat, b: nat)
    ensures (2 * a) * b == 2 * (a * b)
  {
  }

  lemma {:induction false} Pow2Order(a: nat, b: nat)
    requires a < b
    ensures 2 * Pow2(a) <= Pow2(b)
  {
    if a + 1 < b {
      Pow2Order(a, b - 1);
    }
  }

  /** The public test for a power of two, by halving. */
  predicate IsPowerOfTwo(n: nat) {
    n == 1 || (0 < n && n % 2 == 0 && IsPowerOfTwo(n / 2))
  }

  /** The exponent of a power of two. */
  function Log2(n: nat): (h: nat)
    requires IsPowerOfTwo(n)
    ensures Pow2(h) == n
  {
    if n == 1 then 0 else 1 + Log2(n / 2)
  }

  lemma {:induction false} PowerPasses(h: nat)
    ensures IsPowerOfTwo(Pow2(h))
  {
    if h > 0 {
      PowerPasses(h - 1);
    }
  }

  /** The test accepts exactly the powers of two. */
  lemma PowerTest(n: nat)
    ensures IsPowerOfTwo(n) <==> exists h :: Pow2(h) == n
  {
    if IsPowerOfTwo(n) {
      assert Pow2(Log2(n)) == n;
    }
    if h :| Pow2(h) == n {
      PowerPasses(h);
    }
  }
}
