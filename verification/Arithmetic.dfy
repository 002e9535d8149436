/** Remainders and powers of two, as far as layouts need them. */
module Arithmetic {
  function Max(a: nat, b: nat): nat { if a < b then b else a }

  predicate IsMultiple(n: nat, a: nat) { a > 0 && n % a == 0 }

  lemma MulGap(x: nat, y: nat, a: nat)
    requires x < y
    ensures x * a + a <= y * a
  {
    assert y * a == (x + 1) * a + (y - x - 1) * a;
  }

  lemma UniqueRest(q: nat, a: nat, r: nat, n: nat)
    requires a > 0 && r < a && n == q * a + r
    ensures n % a == r && n / a == q
  {
    var q1, r1 := n / a, n % a;
    assert n == a * q1 + r1 && a * q1 == q1 * a;
    if q1 < q { MulGap(q1, q, a); } else if q < q1 { MulGap(q, q1, a); }
  }

  lemma MulMod(q: nat, a: nat)
    requires a > 0
    ensures (q * a) % a == 0
  {
    UniqueRest(q, a, 0, q * a);
  }

  lemma DivMul(n: nat, a: nat)
    requires a > 0
    ensures n == (n / a) * a + n % a
  {
  }

  lemma AddMod(m: nat, n: nat, a: nat)
    requires a > 0 && m % a == 0
    ensures (m + n) % a == n % a
  {
    var q, p := m / a, n / a;
    DivMul(m, a);
    DivMul(n, a);
    assert (q + p) * a == q * a + p * a;
    UniqueRest(q + p, a, n % a, m + n);
  }

  lemma MulKeepsMod(k: nat, m: nat, a: nat)
    requires a > 0 && m % a == 0
    ensures (k * m) % a == 0
  {
    DivMul(m, a);
    assert k * ((m / a) * a) == (k * (m / a)) * a;
    MulMod(k * (m / a), a);
  }

  lemma SmallMod(n: nat, a: nat)
    requires n < a
    ensures n % a == n
  {
  }

  // Two multiples less than a apart.
  lemma NearMultiples(r: nat, m: nat, a: nat)
    requires a > 0 && r % a == 0 && m % a == 0 && r < m + a
    ensures r <= m
  {
    if r > m {
      AddMod(m, r - m, a);
      SmallMod(r - m, a);
    }
  }

  lemma DividesMore(n: nat, b: nat, a: nat)
    requires b > 0 && a > 0 && n % b == 0 && b % a == 0
    ensures n % a == 0
  {
    DivMul(n, b);
    MulKeepsMod(n / b, b, a);
  }

  predicate PowerOfTwo(n: nat) { n == 1 || (n > 1 && n % 2 == 0 && PowerOfTwo(n / 2)) }

  lemma {:induction false} PowersDivide(a: nat, b: nat)
    requires PowerOfTwo(a) && PowerOfTwo(b) && a <= b
    ensures b % a == 0
  {
    if a > 1 {
      PowersDivide(a / 2, b / 2);
      var q := (b / 2) / (a / 2);
      DivMul(b / 2, a / 2);
      assert b == 2 * (b / 2) && a == 2 * (a / 2);
      assert q * (2 * (a / 2)) == 2 * (q * (a / 2));
      MulMod(q, a);
    }
  }
}
