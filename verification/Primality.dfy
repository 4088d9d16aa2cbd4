/**
 Primes from first principles: Euclid's lemma, Fermat's little theorem, and the
 fact that 1 has only two square roots modulo a prime.
 */
module Primality {
  import opened Congruence

  ghost predicate Prime(n: int)
  {
    2 <= n && forall d :: 2 <= d < n ==> !Divides(d, n)
  }

  ghost predicate Composite(n: int)
  {
    2 <= n && !Prime(n)
  }

  // ---------- Euclid's lemma ----------

  // Extended Euclidean algorithm: a common divisor of a and b that is a combination of them.
  lemma {:induction false} Bezout(a: int, b: int) returns (g: int, x: int, y: int)
    requires a >= 0 && b > 0
    ensures g > 0 && g == a * x + b * y
    ensures Divides(g, a) && Divides(g, b)
    decreases b
  {
    var r, q := a % b, a / b;
    if r == 0 {
      g, x, y := b, 0, 1;
    } else {
      var u, v;
      g, u, v := Bezout(b, r);
      x, y := v, u - q * v;
      assert r == a - b * q;
      assert g == b * u + r * v;
      assert r * v == a * v - b * q * v;
      assert b * (u - q * v) == b * u - b * q * v;
      DividesProduct(g, b, q);
      DividesSum(g, b * q, r);
    }
  }

  lemma CoprimeBelowPrime(p: int, c: int) returns (x: int, y: int)
    requires Prime(p) && 0 < c < p
    ensures c * x + p * y == 1
  {
    var g;
    g, x, y := Bezout(c, p);
    var _ := DivisorBounds(g, c);
    assert !(2 <= g < p);
  }

  lemma NotDividesBelow(p: int, k: int)
    requires 0 < k < p
    ensures !Divides(p, k)
  {
  }

  lemma EuclidsLemma(p: int, a: int, b: int, n: int)
    requires Prime(p) && n == a * b && Divides(p, n)
    ensures Divides(p, a) || Divides(p, b)
  {
    if !Divides(p, a) {
      var c := a % p;
      var x, y := CoprimeBelowPrime(p, c);
      ModMulLeft(a, b, p);
      DividesProduct(p, c * b, x);
      DividesIntro(p, y * b, p * (y * b));
      DividesSum(p, (c * b) * x, p * (y * b));
      Distribute(c, x, p, y, b);
    }
  }

  lemma Distribute(c: int, x: int, p: int, y: int, b: int)
    requires c * x + p * y == 1
    ensures (c * b) * x + p * (y * b) == b
  {
    assert (c * b) * x == (c * x) * b;
    assert p * (y * b) == (p * y) * b;
    assert (c * x + p * y) * b == b;
  }

  // Every composite number has a prime divisor whose square does not exceed it.
  lemma {:induction false} SmallestPrimeDivisor(n: int) returns (q: int)
    requires Composite(n)
    ensures Prime(q) && Divides(q, n) && q * q <= n
  {
    var d :| 2 <= d < n && Divides(d, n);
    q := LeastDivisor(n, d);
    var k := DivisorBounds(q, n);
    assert q <= k;
    ProductMonotone(q, q, k);
  }

  lemma ProductMonotone(m: int, a: int, b: int)
    requires m > 0 && a <= b
    ensures m * a <= m * b
  {
    if a < b {
      ProductAtLeast(m, b - a);
      assert m * (b - a) == m * b - m * a;
    }
  }

  lemma {:induction false} LeastDivisor(n: int, d: int) returns (q: int)
    requires 2 <= d < n && Divides(d, n)
    ensures Prime(q) && q <= d && Divides(q, n)
    ensures forall c :: 2 <= c < q ==> !Divides(c, n)
    decreases d
  {
    if c :| 2 <= c < d && Divides(c, n) {
      q := LeastDivisor(n, c);
    } else {
      q := d;
      forall c | 2 <= c < d
        ensures !Divides(c, d)
      {
        if Divides(c, d) {
          DividesTransitive(c, d, n);
        }
      }
    }
  }

  // ---------- The binomial theorem ----------

  function Choose(n: nat, k: nat): nat
  {
    if k == 0 then 1 else if n == 0 then 0 else Choose(n - 1, k - 1) + Choose(n - 1, k)
  }

  lemma {:induction false} ChooseBeyond(n: nat, k: nat)
    requires k > n
    ensures Choose(n, k) == 0
  {
    if n == 0 {
    } else {
      ChooseBeyond(n - 1, k - 1);
      ChooseBeyond(n - 1, k);
    }
  }

  lemma {:induction false} ChooseAll(n: nat)
    ensures Choose(n, n) == 1
  {
    if n == 0 {
    } else {
      ChooseAll(n - 1);
      ChooseBeyond(n - 1, n);
    }
  }

  // k * C(n, k) == n * C(n-1, k-1)
  lemma {:induction false} ChooseAbsorption(n: nat, k: nat)
    requires n > 0 && k > 0
    ensures k * Choose(n, k) == n * Choose(n - 1, k - 1)
    decreases n
  {
    if n == 1 {
      if k >= 2 { ChooseBeyond(1, k); ChooseBeyond(0, k - 1); }
    } else if k == 1 {
      ChooseAbsorption(n - 1, 1);
    } else {
      ChooseAbsorption(n - 1, k);
      ChooseAbsorption(n - 1, k - 1);
      AbsorptionStep(n, k, Choose(n - 1, k - 1), Choose(n - 1, k), Choose(n - 2, k - 2), Choose(n - 2, k - 1));
    }
  }

  lemma AbsorptionStep(n: int, k: int, left: int, above: int, left': int, above': int)
    requires left == left' + above'
    requires k * above == (n - 1) * above'
    requires (k - 1) * left == (n - 1) * left'
    ensures k * (left + above) == n * left
  {
    assert k * (left + above) == k * left + k * above;
    assert k * left == (k - 1) * left + left;
    assert (n - 1) * left' + (n - 1) * above' == (n - 1) * left;
    assert (n - 1) * left + left == n * left;
  }

  lemma PrimeDividesChoose(p: int, k: nat)
    requires Prime(p) && 0 < k < p
    ensures Divides(p, Choose(p, k))
  {
    var c, b := Choose(p, k), Choose(p - 1, k - 1);
    ChooseAbsorption(p, k);
    var n := k * c;
    DividesIntro(p, b, n);
    NotDividesBelow(p, k);
    EuclidsLemma(p, k, c, n);
  }

  // The first m terms of the expansion of (x+1)^n.
  function BinomialSum(n: nat, x: int, m: nat): int
  {
    if m == 0 then 0 else BinomialSum(n, x, m - 1) + Choose(n, m - 1) * Pow(x, m - 1)
  }

  lemma {:induction false} BinomialSumStep(n: nat, x: int, m: nat)
    ensures BinomialSum(n + 1, x, m + 1) == BinomialSum(n, x, m + 1) + x * BinomialSum(n, x, m)
  {
    if m == 0 {
    } else {
      BinomialSumStep(n, x, m - 1);
      PascalTerm(x, Choose(n, m - 1), Choose(n, m), Pow(x, m - 1), BinomialSum(n, x, m - 1));
    }
  }

  lemma PascalTerm(x: int, left: int, above: int, y: int, s: int)
    ensures x * s + (left + above) * (x * y) == above * (x * y) + x * (s + left * y)
  {
    assert (left + above) * (x * y) == left * (x * y) + above * (x * y);
    assert left * (x * y) == x * (left * y);
    assert x * (s + left * y) == x * s + x * (left * y);
  }

  lemma {:induction false} BinomialTheorem(n: nat, x: int)
    ensures Pow(x + 1, n) == BinomialSum(n, x, n + 1)
  {
    if n == 0 {
      assert BinomialSum(0, x, 1) == BinomialSum(0, x, 0) + Choose(0, 0) * Pow(x, 0);
    } else {
      BinomialTheorem(n - 1, x);
      BinomialSumStep(n - 1, x, n);
      ChooseBeyond(n - 1, n);
      var s := BinomialSum(n - 1, x, n);
      assert BinomialSum(n - 1, x, n + 1) == s;
      assert (x + 1) * s == s + x * s;
    }
  }

  // Modulo a prime only the first term survives among the first p.
  lemma {:induction false} BinomialSumModPrime(p: int, x: int, m: nat)
    requires Prime(p) && 1 <= m <= p
    ensures Divides(p, BinomialSum(p, x, m) - 1)
  {
    if m == 1 {
      assert BinomialSum(p, x, 1) == BinomialSum(p, x, 0) + Choose(p, 0) * Pow(x, 0) == 1;
    } else {
      BinomialSumModPrime(p, x, m - 1);
      PrimeDividesChoose(p, m - 1);
      DividesProduct(p, Choose(p, m - 1), Pow(x, m - 1));
      DividesSum(p, BinomialSum(p, x, m - 1) - 1, Choose(p, m - 1) * Pow(x, m - 1));
    }
  }

  // ---------- Fermat's little theorem ----------

  // x^p and x are congruent modulo a prime p.
  lemma {:induction false} FermatPower(p: int, x: nat)
    requires Prime(p)
    ensures Divides(p, Pow(x, p) - x)
  {
    if x == 0 {
      assert Pow(0, p) == 0;
    } else {
      var y := x - 1;
      FermatPower(p, y);
      BinomialTheorem(p, y);
      BinomialSumModPrime(p, y, p);
      LastTerm(p, y);
      DividesSum(p, BinomialSum(p, y, p) - 1, Pow(y, p) - y);
      SumOfDifferences(p, Pow(x, p), x, BinomialSum(p, y, p), Pow(y, p), y);
    }
  }

  lemma LastTerm(n: nat, x: int)
    ensures BinomialSum(n, x, n + 1) == BinomialSum(n, x, n) + Pow(x, n)
  {
    ChooseAll(n);
    assert BinomialSum(n, x, n + 1) == BinomialSum(n, x, n) + Choose(n, n) * Pow(x, n);
  }

  lemma SumOfDifferences(p: int, z: int, x: int, s: int, w: int, y: int)
    requires p > 0 && z == s + w && x == y + 1 && Divides(p, (s - 1) + (w - y))
    ensures Divides(p, z - x)
  {
    assert z - x == (s - 1) + (w - y);
  }

  lemma FermatsLittleTheorem(p: int, a: nat)
    requires Prime(p) && !Divides(p, a)
    ensures Pow(a, p - 1) % p == 1
  {
    FermatPower(p, a);
    CancelBase(p, a, Pow(a, p - 1), Pow(a, p) - a);
  }

  lemma CancelBase(p: int, a: int, y: int, n: int)
    requires Prime(p) && !Divides(p, a) && n == a * y - a && Divides(p, n)
    ensures y % p == 1
  {
    assert n == a * (y - 1);
    EuclidsLemma(p, a, y - 1, n);
    CongruentIffDividesDifference(y, 1, p);
    ModUnique(1, 0, 1, p);
  }

  // Modulo a prime, the square roots of 1 are 1 and -1.
  lemma SquareRootsOfOne(p: int, x: int)
    requires Prime(p) && (x * x) % p == 1
    ensures x % p == 1 || x % p == p - 1
  {
    CongruentIffDividesDifference(x * x, 1, p);
    assert 1 % p == 1;
    assert x * x - 1 == (x - 1) * (x + 1);
    EuclidsLemma(p, x - 1, x + 1, x * x - 1);
    if Divides(p, x - 1) {
      CongruentIffDividesDifference(x, 1, p);
    } else {
      CongruentIffDividesDifference(x, -1, p);
      ModUnique(-1, -1, p - 1, p);
    }
  }
}
