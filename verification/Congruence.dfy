/**
 Integer powers, divisibility and reduction modulo m: the arithmetic that the Miller-Rabin test is
 specified and verified against. Sums, products and powers may be reduced at any point without
 changing the result modulo m, a remainder is determined by its range and congruence, and two
 numbers are congruent exactly when m divides their difference.
 */
module Congruence {

  function Pow(b: int, e: nat): int
  {
    if e == 0 then 1 else b * Pow(b, e - 1)
  }

  predicate Divides(d: int, n: int)
    requires d > 0
  {
    n % d == 0
  }

  lemma {:induction false} ProductAtLeast(m: int, k: int)
    requires m > 0 && k > 0
    ensures m * k >= m
  {
    if k == 1 {
    } else {
      ProductAtLeast(m, k - 1);
      assert m * k == m * (k - 1) + m;
    }
  }

  // A nonzero multiple of m is at least m away from zero.
  lemma NonzeroMultipleIsLarge(m: int, k: int)
    requires m > 0 && k != 0
    ensures m * k >= m || m * k <= -m
  {
    if k > 0 {
      ProductAtLeast(m, k);
    } else {
      ProductAtLeast(m, -k);
      assert m * -k == -(m * k);
    }
  }

  lemma ModUnique(a: int, q: int, r: int, m: int)
    requires m > 0 && 0 <= r < m && a == q * m + r
    ensures a % m == r && a / m == q
  {
    var k := a / m - q;
    assert m * k == m * (a / m) - m * q;
    if k != 0 {
      NonzeroMultipleIsLarge(m, k);
    }
  }

  lemma DividesIntro(d: int, k: int, n: int)
    requires d > 0 && n == d * k
    ensures Divides(d, n)
  {
    ModUnique(n, k, 0, d);
  }

  lemma DividesElim(d: int, n: int) returns (k: int)
    requires d > 0 && Divides(d, n)
    ensures n == d * k
  {
    k := n / d;
  }

  lemma PositiveMultiple(d: int, k: int)
    requires d > 0 && d * k > 0
    ensures k > 0
  {
  }

  // A divisor of a positive number is at most that number, and so is its cofactor.
  lemma DivisorBounds(d: int, n: int) returns (k: int)
    requires d > 0 && n > 0 && Divides(d, n)
    ensures n == d * k && 1 <= k && d <= n && (d < n ==> k >= 2)
    ensures Divides(k, n)
  {
    k := DividesElim(d, n);
    PositiveMultiple(d, k);
    NonzeroMultipleIsLarge(d, k);
    DividesIntro(k, d, n);
  }

  lemma DividesSum(d: int, a: int, b: int)
    requires d > 0 && Divides(d, a) && Divides(d, b)
    ensures Divides(d, a + b) && Divides(d, a - b)
  {
    var i := DividesElim(d, a);
    var j := DividesElim(d, b);
    DividesIntro(d, i + j, a + b);
    DividesIntro(d, i - j, a - b);
  }

  lemma DividesProduct(d: int, a: int, b: int)
    requires d > 0 && Divides(d, a)
    ensures Divides(d, a * b) && Divides(d, b * a)
  {
    var k := DividesElim(d, a);
    assert a * b == d * (k * b);
    DividesIntro(d, k * b, a * b);
  }

  lemma DividesTransitive(c: int, d: int, n: int)
    requires c > 0 && d > 0 && Divides(c, d) && Divides(d, n)
    ensures Divides(c, n)
  {
    var k := DividesElim(d, n);
    DividesProduct(c, d, k);
  }

  // Equal remainders mean that the difference is a multiple, and conversely.
  lemma CongruentIffDividesDifference(a: int, b: int, m: int)
    requires m > 0
    ensures a % m == b % m <==> Divides(m, a - b)
  {
    if a % m == b % m {
      assert a - b == m * (a / m - b / m);
      DividesIntro(m, a / m - b / m, a - b);
    }
    if Divides(m, a - b) {
      var k := DividesElim(m, a - b);
      assert a == (k + b / m) * m + b % m;
      ModUnique(a, k + b / m, b % m, m);
    }
  }

  lemma ModAdd(a: int, b: int, m: int)
    requires m > 0
    ensures (a % m + b) % m == (a + b) % m
    ensures (a + b % m) % m == (a + b) % m
    ensures (a % m + b % m) % m == (a + b) % m
  {
    var q, s := a / m, b / m;
    DividesIntro(m, -q, (a % m + b) - (a + b));
    CongruentIffDividesDifference(a % m + b, a + b, m);
    DividesIntro(m, -s, (a + b % m) - (a + b));
    CongruentIffDividesDifference(a + b % m, a + b, m);
    assert (a % m + b % m) - (a + b) == m * (-q - s);
    DividesIntro(m, -q - s, (a % m + b % m) - (a + b));
    CongruentIffDividesDifference(a % m + b % m, a + b, m);
  }

  lemma ModMul(a: int, b: int, m: int)
    requires m > 0
    ensures ((a % m) * b) % m == (a * b) % m
    ensures (a * (b % m)) % m == (a * b) % m
    ensures ((a % m) * (b % m)) % m == (a * b) % m
  {
    ModMulLeft(a, b, m);
    ModMulLeft(b, a, m);
    ModMulLeft(a, b % m, m);
    assert b * a == a * b && (b % m) * a == a * (b % m);
  }

  lemma ModMulLeft(a: int, b: int, m: int)
    requires m > 0
    ensures ((a % m) * b) % m == (a * b) % m
  {
    var q := a / m;
    assert a == m * q + a % m;
    assert (a % m) * b - a * b == m * (-q * b) by {
      assert a * b == (m * q + a % m) * b == m * q * b + (a % m) * b;
      assert m * q * b == m * (q * b);
      assert m * (-q * b) == -(m * (q * b));
    }
    DividesIntro(m, -q * b, (a % m) * b - a * b);
    CongruentIffDividesDifference((a % m) * b, a * b, m);
  }

  lemma {:induction false} PowAdd(b: int, e: nat, f: nat)
    ensures Pow(b, e + f) == Pow(b, e) * Pow(b, f)
  {
    if e == 0 {
    } else {
      PowAdd(b, e - 1, f);
      assert Pow(b, e + f) == b * (Pow(b, e - 1) * Pow(b, f));
      assert b * (Pow(b, e - 1) * Pow(b, f)) == (b * Pow(b, e - 1)) * Pow(b, f);
    }
  }

  // Squaring the base halves the exponent.
  lemma PowSquare(b: int, e: nat)
    ensures Pow(b * b, e) == Pow(b, 2 * e)
    ensures Pow(b, e) * Pow(b, e) == Pow(b, 2 * e)
  {
    PowAdd(b, e, e);
    PowOfProduct(b, b, e);
  }

  lemma Regroup(a: int, b: int, x: int, y: int)
    ensures (a * b) * (x * y) == (a * x) * (b * y)
  {
    assert (a * b) * (x * y) == a * (b * (x * y));
    assert b * (x * y) == x * (b * y);
    assert a * (x * (b * y)) == (a * x) * (b * y);
  }

  lemma {:induction false} PowOfProduct(a: int, b: int, e: nat)
    ensures Pow(a * b, e) == Pow(a, e) * Pow(b, e)
  {
    if e == 0 {
    } else {
      PowOfProduct(a, b, e - 1);
      Regroup(a, b, Pow(a, e - 1), Pow(b, e - 1));
    }
  }

  lemma {:induction false} PowMod(b: int, e: nat, m: int)
    requires m > 0
    ensures Pow(b % m, e) % m == Pow(b, e) % m
  {
    if e == 0 {
    } else {
      PowMod(b, e - 1, m);
      ModMul(b % m, Pow(b % m, e - 1), m);
      ModMul(b % m, Pow(b, e - 1), m);
      ModMul(b, Pow(b, e - 1), m);
    }
  }

  lemma {:induction false} PowPositive(b: int, e: nat)
    requires b > 0
    ensures Pow(b, e) > 0
  {
    if e == 0 {
    } else {
      PowPositive(b, e - 1);
    }
  }

  lemma DividesPow(b: int, e: nat)
    requires b > 0 && e > 0
    ensures Divides(b, Pow(b, e))
  {
    DividesIntro(b, Pow(b, e - 1), Pow(b, e));
  }
}
