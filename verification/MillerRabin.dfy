/**
 The 12-witness Miller-Rabin test. The methods follow the program loop by loop on
 machine words; they are proved against Accepts, and Accepts against primality.
 */
module MillerRabin {
  import opened Words
  import opened Congruence
  import opened Primality

  // ---------- Modular arithmetic on machine words ----------

  method AddMod(a: uint64, b: uint64, m: uint64) returns (s: uint64)
    requires m > 0
    ensures s as int == (a as int + b as int) % m as int
  {
    var a', b' := a % m, b % m;
    if a' >= m - b' {
      s := a' - (m - b');
    } else {
      s := a' + b';
    }
    SumOfRemainders(a as int, b as int, m as int, s as int);
  }

  lemma SumOfRemainders(a: int, b: int, m: int, s: int)
    requires m > 0
    requires s == (if a % m >= m - b % m then a % m - (m - b % m) else a % m + b % m)
    ensures s == (a + b) % m
  {
    var x, y := a % m, b % m;
    ModAdd(a, b, m);
    assert (x + y) % m == (a + b) % m;
    ReduceOnce(x, y, m);
  }

  lemma ReduceOnce(x: int, y: int, m: int)
    requires 0 <= x < m && 0 <= y < m
    ensures (x + y) % m == if x >= m - y then x - (m - y) else x + y
  {
    if x >= m - y {
      ModUnique(x + y, 1, x - (m - y), m);
    } else {
      ModUnique(x + y, 0, x + y, m);
    }
  }

  method MulMod(a: uint64, b: uint64, m: uint64) returns (result: uint64)
    requires m > 0
    ensures result as int == (a as int * b as int) % m as int
  {
    result := 0;
    var a', b' := a % m, b;
    ghost var M, product := m as int, a as int * b as int;
    ModMulLeft(a as int, b as int, M);
    while b' > 0
      invariant result < m && a' < m
      invariant RussianPeasant(result as int, a' as int, b' as int, M) == product % M
    {
      ghost var before, x := result as int, a' as int;
      if b' % 2 == 1 {
        result := AddMod(result, a', m);
      } else {
        SmallRemainder(before, M);
      }
      a' := AddMod(a', a', m);
      HalveFactor(before, x, b' as int, result as int, a' as int, M);
      b' := b' / 2;
    }
    FinishMultiplication(result as int, a' as int, M);
  }

  // What remains to be computed: acc + x * y modulo m.
  function RussianPeasant(acc: int, x: int, y: int, m: int): int
    requires m > 0
  {
    (acc + x * y) % m
  }

  lemma SmallRemainder(x: int, m: int)
    requires 0 <= x < m
    ensures x == x % m
  {
  }

  lemma FinishMultiplication(acc: int, x: int, m: int)
    requires 0 <= acc < m
    ensures RussianPeasant(acc, x, 0, m) == acc
  {
  }

  // One round of Russian-peasant multiplication keeps acc + x * y modulo m.
  lemma HalveFactor(acc: int, x: int, y: int, acc': int, x': int, m: int)
    requires m > 0 && y > 0
    requires acc' == (if y % 2 == 1 then acc + x else acc) % m
    requires x' == (x + x) % m
    ensures RussianPeasant(acc', x', y / 2, m) == RussianPeasant(acc, x, y, m)
  {
    var h := y / 2;
    var t := if y % 2 == 1 then acc + x else acc;
    var u := x + x;
    SplitFactor(acc, x, y, t, u);
    ReduceBoth(t, u, h, m);
    assert RussianPeasant(acc', x', h, m) == RussianPeasant(t, u, h, m);
  }

  lemma SplitFactor(acc: int, x: int, y: int, t: int, u: int)
    requires u == x + x && t == if y % 2 == 1 then acc + x else acc
    ensures t + u * (y / 2) == acc + x * y
  {
    var h := y / 2;
    assert y == 2 * h + y % 2;
    assert x * y == x * (2 * h) + x * (y % 2);
    assert (x + x) * h == x * (2 * h);
  }

  lemma ReduceBoth(t: int, u: int, h: int, m: int)
    requires m > 0
    ensures RussianPeasant(t % m, u % m, h, m) == RussianPeasant(t, u, h, m)
  {
    var z, w := u * h, (u % m) * h;
    ModMulLeft(u, h, m);
    assert w % m == z % m;
    ModAdd(t % m, w, m);
    ModAdd(t, z, m);
    ModAdd(t, w, m);
  }

  method ModPow(base: uint64, exp: uint64, m: uint64) returns (result: uint64)
    requires m > 0
    ensures result as int == Pow(base as int, exp as nat) % m as int
  {
    if m == 1 {
      return 0;
    }
    result := 1;
    var x, e := base % m, exp;
    ghost var M, power := m as int, Pow(base as int, exp as nat);
    StartPower(base as int, exp as nat, M);
    while e > 0
      invariant result < m && x < m
      invariant SquareAndMultiply(result as int, x as int, e as nat, M) == power % M
    {
      ghost var before, y := result as int, x as int;
      if e % 2 == 1 {
        result := MulMod(result, x, m);
      } else {
        SmallRemainder(before, M);
      }
      ghost var e0 := e as nat;
      e := e / 2;
      x := MulMod(x, x, m);
      HalveExponent(before, y, e0, result as int, x as int, M);
    }
    FinishPower(result as int, x as int, M);
  }

  // What remains to be computed: acc * x^e modulo m.
  function SquareAndMultiply(acc: int, x: int, e: nat, m: int): int
    requires m > 0
  {
    (acc * Pow(x, e)) % m
  }

  lemma StartPower(b: int, e: nat, m: int)
    requires m > 0
    ensures SquareAndMultiply(1, b % m, e, m) == Pow(b, e) % m
  {
    PowMod(b, e, m);
  }

  lemma FinishPower(acc: int, x: int, m: int)
    requires 0 <= acc < m
    ensures SquareAndMultiply(acc, x, 0, m) == acc
  {
  }

  // One round of square-and-multiply keeps acc * x^e modulo m.
  lemma HalveExponent(acc: int, x: int, e: nat, acc': int, x': int, m: int)
    requires m > 0 && e > 0
    requires acc' == (if e % 2 == 1 then acc * x else acc) % m
    requires x' == (x * x) % m
    ensures SquareAndMultiply(acc', x', e / 2, m) == SquareAndMultiply(acc, x, e, m)
  {
    var h := e / 2;
    var t := if e % 2 == 1 then acc * x else acc;
    PowSquare(x, h);
    SplitExponent(acc, x, e, t);
    ReduceProduct(t, x * x, h, m);
  }

  lemma SplitExponent(acc: int, x: int, e: nat, t: int)
    requires e > 0 && t == if e % 2 == 1 then acc * x else acc
    ensures t * Pow(x, 2 * (e / 2)) == acc * Pow(x, e)
  {
    if e % 2 == 1 {
      var y := Pow(x, e - 1);
      assert 2 * (e / 2) == e - 1;
      assert Pow(x, e) == x * y;
      assert (acc * x) * y == acc * (x * y);
    }
  }

  lemma ReduceProduct(t: int, u: int, h: nat, m: int)
    requires m > 0
    ensures ((t % m) * Pow(u % m, h)) % m == (t * Pow(u, h)) % m
  {
    var y, z := Pow(u % m, h), Pow(u, h);
    PowMod(u, h, m);
    ModMul(t, y, m);
    ModMul(t, z, m);
  }

  // ---------- What the test decides ----------

  const WITNESSES: seq<uint64> := [2, 3, 5, 7, 11, 13, 17, 19, 23, 29, 31, 37]

  // n == 2^TwoAdic(n) * OddPart(n), with an odd second factor.
  function TwoAdic(n: int): (r: nat)
    requires n > 0
  {
    if n % 2 == 0 then 1 + TwoAdic(n / 2) else 0
  }

  function OddPart(n: int): (d: int)
    requires n > 0
    ensures 0 < d <= n
  {
    if n % 2 == 0 then OddPart(n / 2) else n
  }

  // 2^i * d
  function Doubled(d: nat, i: nat): nat
  {
    if i == 0 then d else 2 * Doubled(d, i - 1)
  }

  lemma {:induction false} DoubledIsShift(d: nat, i: nat)
    ensures Doubled(d, i) == Pow(2, i) * d
  {
    if i == 0 {
    } else {
      DoubledIsShift(d, i - 1);
      assert 2 * (Pow(2, i - 1) * d) == (2 * Pow(2, i - 1)) * d;
    }
  }

  // The split n == 2^r * d with d odd is the one the functions compute, and no other exists.
  lemma {:induction false} SplitIsUnique(n: int, r: nat, d: nat)
    requires n > 0 && d % 2 == 1
    ensures n == Pow(2, r) * d <==> r == TwoAdic(n) && d == OddPart(n)
    decreases n
  {
    DoubledIsShift(d, r);
    if n % 2 == 0 && r > 0 {
      DoubledIsShift(d, r - 1);
      SplitIsUnique(n / 2, r - 1, d);
    }
  }

  lemma SplitExists(n: int)
    requires n > 0
    ensures n == Doubled(OddPart(n), TwoAdic(n)) && OddPart(n) % 2 == 1
  {
    if n % 2 == 0 {
      SplitExists(n / 2);
    }
  }

  // a^(2^i * d) modulo n
  function Residue(a: int, d: nat, i: nat, n: int): int
    requires n > 0
  {
    Pow(a, Doubled(d, i)) % n
  }

  // n is a strong probable prime to base a: with n-1 == 2^r * d and d odd,
  // a^d is 1 modulo n, or a^(2^i * d) is -1 modulo n for some i below r.
  ghost predicate StrongProbablePrime(n: int, a: int)
    requires n > 1
  {
    var r, d := TwoAdic(n - 1), OddPart(n - 1);
    Residue(a, d, 0, n) == 1 || exists i: nat :: i < r && Residue(a, d, i, n) == n - 1
  }

  ghost predicate PassesWitness(n: int, w: int)
    requires n > 1 && 0 <= w < |WITNESSES|
  {
    WITNESSES[w] as int < n ==> StrongProbablePrime(n, WITNESSES[w] as int)
  }

  ghost predicate Accepts(n: int)
  {
    n >= 2 && (
      || n == 2 || n == 3 || n == 5 || n == 7
      || (&& n % 2 != 0 && n % 3 != 0 && n % 5 != 0
          && forall w :: 0 <= w < |WITNESSES| ==> PassesWitness(n, w)))
  }

  lemma ResidueSquares(a: int, d: nat, i: nat, n: int)
    requires n > 0
    ensures Residue(a, d, i + 1, n) == (Residue(a, d, i, n) * Residue(a, d, i, n)) % n
  {
    var y := Pow(a, Doubled(d, i));
    PowSquare(a, Doubled(d, i));
    ModMul(y, y, n);
  }

  // ---------- The test ----------

  method IsPrime(n: uint64) returns (answer: bool)
    ensures answer <==> Accepts(n as int)
    ensures Prime(n as int) ==> answer
  {
    if Prime(n as int) { PrimesAreAccepted(n as int); }
    if n < 2 {
      return false;
    }
    if n == 2 || n == 3 || n == 5 || n == 7 {
      return true;
    }
    if n % 2 == 0 || n % 3 == 0 || n % 5 == 0 {
      return false;
    }

    var d, r := SplitPowersOfTwo(n);
    ghost var N := n as int;
    for w: nat := 0 to |WITNESSES|
      invariant forall v :: 0 <= v < w ==> PassesWitness(N, v)
    {
      var a := WITNESSES[w];
      if a >= n {
        continue;
      }
      var passes := CheckWitness(n, a, d, r);
      if !passes {
        assert !PassesWitness(n as int, w);
        return false;
      }
    }
    return true;
  }

  // n-1 == 2^r * d with d odd, by repeated halving.
  method SplitPowersOfTwo(n: uint64) returns (d: uint64, r: uint64)
    requires n > 1 && n % 2 == 1
    ensures r as int == TwoAdic(n as int - 1) && d as int == OddPart(n as int - 1) && r >= 1
    ensures n as int - 1 == Pow(2, r as nat) * d as int && d % 2 == 1
  {
    d, r := n - 1, 0;
    while d % 2 == 0
      invariant d > 0
      invariant TwoAdic(n as int - 1) == r as int + TwoAdic(d as int)
      invariant OddPart(n as int - 1) == OddPart(d as int)
      invariant r as int + d as int <= n as int - 1
      decreases d
    {
      d := d / 2;
      r := r + 1;
    }
    SplitIsUnique(n as int - 1, r as nat, d as nat);
  }

  // The body of the witness loop for one base a: the first power, then at most r-1 squarings.
  method CheckWitness(n: uint64, a: uint64, d: uint64, r: uint64) returns (passes: bool)
    requires n > 2 && a < n
    requires r as int == TwoAdic(n as int - 1) && d as int == OddPart(n as int - 1) && r >= 1
    ensures passes <==> StrongProbablePrime(n as int, a as int)
  {
    ghost var N, A, D := n as int, a as int, d as nat;
    var x := ModPow(a, d, n);
    assert x as int == Residue(A, D, 0, N);
    if x == 1 || x == n - 1 {
      return true;
    }
    var i: uint64 := 0;
    while i < r - 1
      invariant i <= r - 1
      invariant x as int == Residue(A, D, i as nat, N)
      invariant forall j: nat :: j <= i as nat ==> Residue(A, D, j, N) != N - 1
    {
      x := MulMod(x, x, n);
      ResidueSquares(A, D, i as nat, N);
      if x == n - 1 {
        assert Residue(A, D, i as nat + 1, N) == N - 1;
        return true;
      }
      i := i + 1;
    }
    return false;
  }

  // ---------- No prime is rejected ----------

  lemma {:induction false} DescendSquareRoots(p: int, a: int, d: nat, i: nat)
    requires Prime(p) && Residue(a, d, i, p) == 1
    ensures Residue(a, d, 0, p) == 1 || exists j: nat :: j < i && Residue(a, d, j, p) == p - 1
  {
    if i == 0 {
    } else {
      var y := Residue(a, d, i - 1, p);
      ResidueSquares(a, d, i - 1, p);
      SquareRootsOfOne(p, y);
      SmallRemainder(y, p);
      if y == 1 {
        DescendSquareRoots(p, a, d, i - 1);
      } else {
        assert i - 1 < i && Residue(a, d, i - 1, p) == p - 1;
      }
    }
  }

  lemma PrimesAreStrongProbablePrimes(p: int, a: int)
    requires Prime(p) && 0 < a < p
    ensures StrongProbablePrime(p, a)
  {
    NotDividesBelow(p, a);
    FermatsLittleTheorem(p, a);
    SplitExists(p - 1);
    DescendSquareRoots(p, a, OddPart(p - 1), TwoAdic(p - 1));
  }

  lemma PrimesAreAccepted(p: int)
    requires Prime(p)
    ensures Accepts(p)
  {
    if p != 2 && p != 3 && p != 5 && p != 7 {
      assert !Divides(2, p);
      assert p % 3 != 0 by { if p % 3 == 0 { assert Divides(3, p); } }
      assert p % 5 != 0 by { if p % 5 == 0 { assert Divides(5, p); } }
      forall w | 0 <= w < |WITNESSES|
        ensures PassesWitness(p, w)
      {
        if WITNESSES[w] as int < p {
          PrimesAreStrongProbablePrimes(p, WITNESSES[w] as int);
        }
      }
    }
  }

  // ---------- What an accepted number can be ----------

  // A base that divides n can reach neither 1 nor -1 modulo n.
  lemma DividingBaseFails(n: int, a: int)
    requires 1 < a < n && Divides(a, n)
    ensures !StrongProbablePrime(n, a)
  {
    var r, d := TwoAdic(n - 1), OddPart(n - 1);
    forall i: nat
      ensures Residue(a, d, i, n) != 1 && Residue(a, d, i, n) != n - 1
    {
      var e := Doubled(d, i);
      DoubledPositive(d, i);
      var y := Pow(a, e);
      DividesPow(a, e);
      DividesProduct(a, n, y / n);
      assert y % n == y - n * (y / n);
      DividesSum(a, y, n * (y / n));
      if y % n == 1 || y % n == n - 1 {
        DividesSum(a, n, y % n);
        NotDividesBelow(a, 1);
      }
    }
  }

  lemma DoubledPositive(d: nat, i: nat)
    requires d > 0
    ensures Doubled(d, i) > 0
  {
  }

  lemma AcceptedHasNoSmallFactor(n: int, w: int)
    requires Accepts(n) && 0 <= w < |WITNESSES| && Divides(WITNESSES[w] as int, n)
    ensures n == WITNESSES[w] as int
  {
    var a := WITNESSES[w] as int;
    var _ := DivisorBounds(a, n);
    if n == 2 || n == 3 || n == 5 || n == 7 {
    } else if a < n {
      assert PassesWitness(n, w);
      DividingBaseFails(n, a);
    }
  }

  lemma SmallPrimesAreWitnesses(q: int) returns (w: int)
    requires Prime(q) && q < 41
    ensures 0 <= w < |WITNESSES| && WITNESSES[w] as int == q
  {
    assert q != 2 ==> !Divides(2, q);
    assert q > 3 ==> !Divides(3, q);
    assert q > 5 ==> !Divides(5, q);
    w := if q <= 5 then q / 2 else if q <= 13 then (if q == 7 then 3 else if q == 11 then 4 else 5)
         else if q <= 23 then (if q == 17 then 6 else if q == 19 then 7 else 8)
         else (if q == 29 then 9 else if q == 31 then 10 else 11);
    if q == 3 || q == 5 { w := q / 2; }
    if q == 2 { w := 0; }
  }

  // Below 41 squared the test is exactly primality.
  lemma ExactBelow1681(n: int)
    requires n < 41 * 41
    ensures Accepts(n) <==> Prime(n)
  {
    if Prime(n) {
      PrimesAreAccepted(n);
    } else if Accepts(n) {
      var q := SmallestPrimeDivisor(n);
      assert q < 41 by { if q >= 41 { ProductMonotone(q, 41, q); ProductMonotone(41, 41, q); } }
      var w := SmallPrimesAreWitnesses(q);
      AcceptedHasNoSmallFactor(n, w);
      assert false;
    }
  }

  // ---------- Acceptance in terms of powers ----------

  function Exponent(i: nat, d: nat): nat
  {
    PowPositive(2, i);
    ProductMonotone(Pow(2, i), 0, d);
    Pow(2, i) * d
  }

  lemma ResidueIsPower(a: int, d: nat, i: nat, n: int)
    requires n > 0
    ensures Residue(a, d, i, n) == Pow(a, Exponent(i, d)) % n
  {
    DoubledIsShift(d, i);
  }

  // The textbook condition on one base, in powers only: a^d is 1, or a^(2^i * d) is -1 for some i
  // below r, modulo n.
  ghost predicate PowersPass(n: int, a: int, r: nat, d: nat)
    requires n > 0
  {
    Pow(a, d) % n == 1 || exists i: nat :: i < r && Pow(a, Exponent(i, d)) % n == n - 1
  }

  // A number above 7 without the factors 2, 3 and 5 is accepted exactly when, with n-1 == 2^r * d
  // and d odd, the powers of each listed base below n meet that condition.
  lemma AcceptedIff(n: int, r: nat, d: nat)
    requires n > 7 && n % 2 != 0 && n % 3 != 0 && n % 5 != 0
    requires n - 1 == Pow(2, r) * d && d % 2 == 1
    ensures Accepts(n) <==> forall a :: a in WITNESSES && a as int < n ==> PowersPass(n, a as int, r, d)
  {
    hide StrongProbablePrime, PowersPass;
    if Accepts(n) {
      forall a | a in WITNESSES && a as int < n
        ensures PowersPass(n, a as int, r, d)
      {
        var w :| 0 <= w < |WITNESSES| && WITNESSES[w] == a;
        assert PassesWitness(n, w);
        StrongProbablePrimeIff(n, a as int, r, d);
      }
    }
    if forall a :: a in WITNESSES && a as int < n ==> PowersPass(n, a as int, r, d) {
      forall w | 0 <= w < |WITNESSES|
        ensures PassesWitness(n, w)
      {
        assert WITNESSES[w] in WITNESSES;
        StrongProbablePrimeIff(n, WITNESSES[w] as int, r, d);
      }
    }
  }

  lemma StrongProbablePrimeIff(n: int, a: int, r: nat, d: nat)
    requires n > 2 && n - 1 == Pow(2, r) * d && d % 2 == 1
    ensures StrongProbablePrime(n, a) <==> PowersPass(n, a, r, d)
  {
    SplitIsUnique(n - 1, r, d);
    hide Pow, Residue, Exponent, Doubled;
    FirstPower(a, d, n);
    forall i: nat
      ensures Residue(a, d, i, n) == Pow(a, Exponent(i, d)) % n
    {
      ResidueIsPower(a, d, i, n);
    }
  }

  lemma FirstPower(a: int, d: nat, n: int)
    requires n > 0
    ensures Residue(a, d, 0, n) == Pow(a, d) % n
  {
  }

  lemma {:induction false} OneStaysOne(a: int, d: nat, i: nat, k: nat, n: int)
    requires n > 1 && Residue(a, d, i, n) == 1 && i <= k
    ensures Residue(a, d, k, n) == 1
  {
    if i < k {
      OneStaysOne(a, d, i, k - 1, n);
      ResidueSquares(a, d, k - 1, n);
    }
  }

  // A passed base shows no square root of 1 but 1 and -1 on the way: whenever a^(2^(i+1) * d) is
  // 1 modulo n, a^(2^i * d) is 1 or -1.
  lemma PassedBaseShowsNoOtherRoot(n: int, a: int, r: nat, d: nat, i: nat)
    requires n > 2 && n - 1 == Pow(2, r) * d && d % 2 == 1 && i < r && StrongProbablePrime(n, a)
    ensures Pow(a, Exponent(i + 1, d)) % n == 1 ==>
      Pow(a, Exponent(i, d)) % n == 1 || Pow(a, Exponent(i, d)) % n == n - 1
  {
    SplitIsUnique(n - 1, r, d);
    ResidueIsPower(a, d, i, n);
    ResidueIsPower(a, d, i + 1, n);
    if Residue(a, d, i + 1, n) == 1 {
      if Residue(a, d, 0, n) == 1 {
        OneStaysOne(a, d, 0, i, n);
      } else {
        var j: nat :| j < r && Residue(a, d, j, n) == n - 1;
        if j > i {
          OneStaysOne(a, d, i + 1, j, n);
        } else if j < i {
          MinusOneSquares(a, d, j, n);
          OneStaysOne(a, d, j + 1, i, n);
        }
      }
    }
  }

  lemma MinusOneSquares(a: int, d: nat, j: nat, n: int)
    requires n > 2 && Residue(a, d, j, n) == n - 1
    ensures Residue(a, d, j + 1, n) == 1
  {
    ResidueSquares(a, d, j, n);
    assert (n - 1) * (n - 1) == (n - 2) * n + 1;
    ModUnique((n - 1) * (n - 1), n - 2, 1, n);
  }

  // So an accepted number shows none to any listed base.
  lemma AcceptedShowsNoOtherRoot(n: int, a: uint64, r: nat, d: nat, i: nat)
    requires Accepts(n) && n > 7 && a in WITNESSES && a as int < n
    requires n - 1 == Pow(2, r) * d && d % 2 == 1 && i < r
    ensures Pow(a as int, Exponent(i + 1, d)) % n == 1 ==>
      Pow(a as int, Exponent(i, d)) % n == 1 || Pow(a as int, Exponent(i, d)) % n == n - 1
  {
    var w :| 0 <= w < |WITNESSES| && WITNESSES[w] == a;
    assert PassesWitness(n, w);
    hide StrongProbablePrime, Accepts;
    PassedBaseShowsNoOtherRoot(n, a as int, r, d, i);
  }

  // The published computation the program relies on: no composite word that is free of
  // the witness primes passes every witness.
  ghost predicate NoStrongPseudoprime()
  {
    forall m :: 41 * 41 <= m < TWO_TO_THE_64 && Composite(m) && FreeOfWitnesses(m)
      ==> exists w :: 0 <= w < |WITNESSES| && !PassesWitness(m, w)
  }

  ghost predicate FreeOfWitnesses(m: int)
  {
    forall w :: 0 <= w < |WITNESSES| ==> !Divides(WITNESSES[w] as int, m)
  }

  // The test decides primality of every word exactly when that computation is right.
  lemma ExactIffNoStrongPseudoprime()
    ensures NoStrongPseudoprime() <==> forall n :: 0 <= n < TWO_TO_THE_64 ==> (Accepts(n) <==> Prime(n))
  {
    if NoStrongPseudoprime() {
      forall n | 0 <= n < TWO_TO_THE_64
        ensures Accepts(n) <==> Prime(n)
      {
        ExactUnderPremise(n);
      }
    }
    if forall n :: 0 <= n < TWO_TO_THE_64 ==> (Accepts(n) <==> Prime(n)) {
      forall m | 41 * 41 <= m < TWO_TO_THE_64 && Composite(m) && FreeOfWitnesses(m)
        ensures exists w :: 0 <= w < |WITNESSES| && !PassesWitness(m, w)
      {
        assert !Accepts(m);
        assert !Divides(WITNESSES[0] as int, m) && !Divides(WITNESSES[1] as int, m) && !Divides(WITNESSES[2] as int, m);
      }
    }
  }

  lemma ExactUnderPremise(n: int)
    requires NoStrongPseudoprime() && n < TWO_TO_THE_64
    ensures Accepts(n) <==> Prime(n)
  {
    if n < 41 * 41 {
      ExactBelow1681(n);
    } else if Prime(n) {
      PrimesAreAccepted(n);
    } else if Accepts(n) {
      forall w | 0 <= w < |WITNESSES|
        ensures !Divides(WITNESSES[w] as int, n)
      {
        if Divides(WITNESSES[w] as int, n) { AcceptedHasNoSmallFactor(n, w); }
      }
      assert FreeOfWitnesses(n) && Composite(n);
    }
  }
}
