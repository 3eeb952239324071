/** Arithmetic modulo a prime, as far as taking square roots needs it. */
module NumberTheory {

  ghost predicate IsPrime(p: int) {
    p > 1 && forall d :: 1 < d < p ==> p % d != 0
  }

  function Pow(b: int, e: nat): int {
    if e == 0 then 1 else b * Pow(b, e - 1)
  }

  /** Equal modulo p. */
  predicate Cong(a: int, b: int, p: int)
    requires p > 0
  {
    a % p == b % p
  }

  // ---- Remainders ----

  lemma DivisionIsUnique(a: int, p: int, q: int, r: int)
    requires p > 0 && a == q * p + r && 0 <= r < p
    ensures a / p == q && a % p == r
  {
    var k := a / p - q;
    assert k * p == r - a % p by {
      assert a == (a / p) * p + a % p;
    }
    assert k >= 1 ==> k * p >= p;
    assert k <= -1 ==> k * p <= -p;
  }

  lemma ModOfMultiple(k: int, r: int, p: int)
    requires p > 0
    ensures (k * p + r) % p == r % p
  {
    assert r == (r / p) * p + r % p;
    assert k * p + r == (k + r / p) * p + r % p;
    DivisionIsUnique(k * p + r, p, k + r / p, r % p);
  }

  lemma CongIffMultiple(a: int, b: int, p: int) returns (k: int)
    requires p > 0 && Cong(a, b, p)
    ensures a == k * p + b
  {
    k := a / p - b / p;
    assert a == (a / p) * p + a % p && b == (b / p) * p + b % p;
  }

  lemma CongMulRight(a: int, b: int, c: int, p: int)
    requires p > 0 && Cong(a, b, p)
    ensures Cong(a * c, b * c, p) && Cong(c * a, c * b, p)
  {
    var k := CongIffMultiple(a, b, p);
    assert a * c == (k * c) * p + b * c by {
      assert a * c == (k * p + b) * c == k * p * c + b * c;
      assert k * p * c == (k * c) * p;
    }
    ModOfMultiple(k * c, b * c, p);
    assert c * a == a * c && c * b == b * c;
  }

  lemma CongMul(a: int, b: int, c: int, d: int, p: int)
    requires p > 0 && Cong(a, b, p) && Cong(c, d, p)
    ensures Cong(a * c, b * d, p)
  {
    CongMulRight(a, b, c, p);
    CongMulRight(c, d, b, p);
  }

  lemma CongSub(a: int, b: int, c: int, d: int, p: int)
    requires p > 0 && Cong(a, b, p) && Cong(c, d, p)
    ensures Cong(a - c, b - d, p)
  {
    var k := CongIffMultiple(a, b, p);
    var l := CongIffMultiple(c, d, p);
    assert a - c == (k - l) * p + (b - d);
    ModOfMultiple(k - l, b - d, p);
  }

  lemma CongMod(a: int, p: int)
    requires p > 0
    ensures Cong(a % p, a, p) && 0 <= a % p < p
  {
  }

  lemma CongZero(a: int, b: int, p: int)
    requires p > 0
    ensures Cong(a, b, p) <==> (a - b) % p == 0
  {
    if Cong(a, b, p) {
      CongSub(a, b, b, b, p);
    } else if (a - b) % p == 0 {
      var k := (a - b) / p;
      assert a == k * p + b;
      ModOfMultiple(k, b, p);
    }
  }

  // ---- Powers ----

  lemma {:induction false} PowAdd(b: int, d: nat, e: nat)
    ensures Pow(b, d + e) == Pow(b, d) * Pow(b, e)
  {
    if d > 0 {
      PowAdd(b, d - 1, e);
      assert Pow(b, d + e) == b * Pow(b, d - 1 + e);
    }
  }

  lemma {:induction false} PowOfProduct(a: int, b: int, e: nat)
    ensures Pow(a * b, e) == Pow(a, e) * Pow(b, e)
  {
    if e > 0 {
      PowOfProduct(a, b, e - 1);
    }
  }

  lemma {:induction false} PowCong(a: int, b: int, e: nat, p: int)
    requires p > 0 && Cong(a, b, p)
    ensures Cong(Pow(a, e), Pow(b, e), p)
  {
    if e > 0 {
      PowCong(a, b, e - 1, p);
      CongMul(a, b, Pow(a, e - 1), Pow(b, e - 1), p);
    }
  }

  // ---- Euclid ----

  /** A prime that divides a product divides a factor. */
  lemma {:induction false} Euclid(a: int, b: int, p: int)
    requires IsPrime(p) && 0 < a < p && (a * b) % p == 0
    ensures b % p == 0
    decreases a
  {
    if a > 1 {
      var q, r, k := p / a, p % a, (a * b) / p;
      assert a * b == k * p;
      assert p == q * a + r && r != 0;
      assert r * b == (b - q * k) * p by {
        assert r * b == (p - q * a) * b;
        assert (p - q * a) * b == p * b - q * (a * b);
        assert q * (a * b) == q * k * p;
      }
      ModOfMultiple(b - q * k, 0, p);
      Euclid(r, b, p);
    }
  }

  lemma PrimeDividesFactor(a: int, b: int, p: int)
    requires IsPrime(p) && (a * b) % p == 0
    ensures a % p == 0 || b % p == 0
  {
    if a % p != 0 {
      CongMod(a, p);
      CongMul(a % p, a, b, b, p);
      Euclid(a % p, b, p);
    }
  }

  lemma Cancel(a: int, b: int, c: int, p: int)
    requires IsPrime(p) && a % p != 0 && Cong(a * b, a * c, p)
    ensures Cong(b, c, p)
  {
    CongZero(a * b, a * c, p);
    assert a * b - a * c == a * (b - c);
    PrimeDividesFactor(a, b - c, p);
    CongZero(b, c, p);
  }

  // ---- Fermat ----

  lemma SomeMember(s: set<int>)
    ensures s == {} || exists x :: x in s
  {
    if forall x :: x !in s {
      assert s == {};
    }
  }

  /** The product of a set of integers. */
  ghost function Product(s: set<int>): int {
    if s == {} then 1
    else
      SomeMember(s);
      var x :| x in s;
      x * Product(s - {x})
  }

  lemma SwapFactors(x: int, y: int, r: int)
    ensures x * (y * r) == y * (x * r)
  {
  }

  lemma {:induction false} ProductWithout(s: set<int>, y: int)
    requires y in s
    ensures Product(s) == y * Product(s - {y})
    decreases |s|
  {
    var x :| x in s && Product(s) == x * Product(s - {x});
    if x != y {
      ProductWithout(s - {x}, y);
      ProductWithout(s - {y}, x);
      assert s - {x} - {y} == s - {y} - {x};
      SwapFactors(x, y, Product(s - {x} - {y}));
    }
  }

  function UpTo(n: nat): (s: set<int>)
    ensures |s| == n && forall j :: j in s <==> 1 <= j <= n
  {
    if n == 0 then {} else UpTo(n - 1) + {n}
  }

  /** The multiples a, 2a, ..., na, reduced. */
  function Multiples(a: int, n: nat, p: int): set<int>
    requires p > 0
  {
    if n == 0 then {} else Multiples(a, n - 1, p) + {(a * n) % p}
  }

  lemma {:induction false} MultiplesMembers(a: int, n: nat, p: int) returns (origin: map<int, int>)
    requires p > 0
    ensures origin.Keys == Multiples(a, n, p)
    ensures forall x :: x in origin ==> 1 <= origin[x] <= n && (a * origin[x]) % p == x
  {
    origin := map[];
    if n > 0 {
      origin := MultiplesMembers(a, n - 1, p);
      origin := origin[(a * n) % p := n];
    }
  }

  lemma SmallIsNotMultiple(n: int, p: int)
    requires 0 < n < p
    ensures n % p != 0
  {
  }

  lemma NewMultiple(a: int, n: nat, p: int)
    requires IsPrime(p) && a % p != 0 && 0 < n < p
    ensures (a * n) % p != 0 && (a * n) % p !in Multiples(a, n - 1, p)
  {
    SmallIsNotMultiple(n, p);
    if (a * n) % p == 0 {
      PrimeDividesFactor(a, n, p);
    }
    var origin := MultiplesMembers(a, n - 1, p);
    if (a * n) % p in origin {
      var j := origin[(a * n) % p];
      Cancel(a, j, n, p);
      DivisionIsUnique(j, p, 0, j);
      DivisionIsUnique(n, p, 0, n);
      assert false;
    }
  }

  lemma ProductOfUpTo(n: nat)
    requires n > 0
    ensures Product(UpTo(n)) == n * Product(UpTo(n - 1))
  {
    ProductWithout(UpTo(n), n);
    assert UpTo(n) - {n} == UpTo(n - 1);
  }

  /** Multiplying by a permutes the non-zero residues. */
  lemma {:induction false} MultiplesAre(a: int, n: nat, p: int)
    requires IsPrime(p) && a % p != 0 && n < p
    ensures Multiples(a, n, p) <= UpTo(p - 1) && |Multiples(a, n, p)| == n
  {
    if n > 0 {
      MultiplesAre(a, n - 1, p);
      NewMultiple(a, n, p);
    }
  }

  lemma {:induction false} MultiplesProduct(a: int, n: nat, p: int)
    requires IsPrime(p) && a % p != 0 && n < p
    ensures Cong(Product(Multiples(a, n, p)), Pow(a, n) * Product(UpTo(n)), p)
  {
    hide Cong, Pow, Product, IsPrime;
    if n == 0 {
      NoMultiples(a, p);
    } else {
      MultiplesProduct(a, n - 1, p);
      ProductOfMultiples(a, n, p);
      ProductOfUpTo(n);
      hide Multiples, UpTo;
      OneMoreFactor(a, n, (a * n) % p, Product(Multiples(a, n - 1, p)), Product(UpTo(n - 1)), p);
    }
  }

  lemma ProductOfMultiples(a: int, n: nat, p: int)
    requires IsPrime(p) && a % p != 0 && 0 < n < p
    ensures Product(Multiples(a, n, p)) == (a * n) % p * Product(Multiples(a, n - 1, p))
  {
    hide Product, IsPrime;
    NewMultiple(a, n, p);
    var before, x := Multiples(a, n - 1, p), (a * n) % p;
    ProductWithout(before + {x}, x);
    assert before + {x} - {x} == before;
  }

  lemma NoMultiples(a: int, p: int)
    requires p > 0
    ensures Cong(Product(Multiples(a, 0, p)), Pow(a, 0) * Product(UpTo(0)), p)
  {
  }

  lemma OneMoreFactor(a: int, n: nat, x: int, before: int, f: int, p: int)
    requires p > 0 && n > 0 && x == (a * n) % p && Cong(before, Pow(a, n - 1) * f, p)
    ensures Cong(x * before, Pow(a, n) * (n * f), p)
  {
    CongMod(a * n, p);
    var g := Pow(a, n - 1);
    CongMul(x, a * n, before, g * f, p);
    assert a * n * (g * f) == a * g * (n * f);
  }

  lemma SubsetOfSameSize(s: set<int>, t: set<int>)
    requires s <= t && |s| == |t|
    ensures s == t
  {
    assert |t - s| == |t| - |s|;
  }

  lemma {:induction false} FactorialIsUnit(n: nat, p: int)
    requires IsPrime(p) && n < p
    ensures Product(UpTo(n)) % p != 0
  {
    if n > 0 {
      FactorialIsUnit(n - 1, p);
      ProductOfUpTo(n);
      SmallIsNotMultiple(n, p);
      if Product(UpTo(n)) % p == 0 {
        PrimeDividesFactor(n, Product(UpTo(n - 1)), p);
      }
    }
  }

  lemma CancelFactorial(f: int, g: int, p: int)
    requires IsPrime(p) && f % p != 0 && Cong(f, g * f, p)
    ensures Cong(g, 1, p)
  {
    assert f * g == g * f && f * 1 == f;
    Cancel(f, g, 1, p);
  }

  /** Fermat's little theorem. */
  lemma Fermat(a: int, p: int)
    requires IsPrime(p) && a % p != 0
    ensures Cong(Pow(a, p - 1), 1, p)
  {
    hide Product, Pow, Cong, Multiples, UpTo;
    MultiplesAre(a, p - 1, p);
    MultiplesProduct(a, p - 1, p);
    SubsetOfSameSize(Multiples(a, p - 1, p), UpTo(p - 1));
    FactorialIsUnit(p - 1, p);
    hide IsPrime;
    CancelFactorial(Product(UpTo(p - 1)), Pow(a, p - 1), p);
  }

  // ---- Two is not a square when p is 5 modulo 8 ----

  ghost function Factorial(n: nat): int {
    Product(UpTo(n))
  }

  /** 2 * 4 * ... * 2n. */
  function Evens(n: nat): int {
    if n == 0 then 1 else 2 * n * Evens(n - 1)
  }

  /** 1 * 3 * ... * (2n - 1). */
  function Odds(n: nat): int {
    if n == 0 then 1 else (2 * n - 1) * Odds(n - 1)
  }

  function Sign(n: nat): int {
    if n % 2 == 0 then 1 else -1
  }

  lemma Interchange(a: int, b: int, c: int, d: int)
    ensures (a * b) * (c * d) == (a * c) * (b * d)
  {
    assert (a * b) * (c * d) == a * (b * (c * d)) == a * (c * (b * d));
  }

  lemma {:induction false} EvensAre(n: nat)
    ensures Evens(n) == Pow(2, n) * Factorial(n)
  {
    if n == 0 {
      assert UpTo(0) == {};
    } else {
      EvensAre(n - 1);
      OneEvenMore(n);
      hide Evens, Pow, Factorial;
      Interchange(2, n, Pow(2, n - 1), Factorial(n - 1));
    }
  }

  lemma OneEvenMore(n: nat)
    requires n > 0
    ensures Evens(n) == 2 * n * Evens(n - 1) && Pow(2, n) == 2 * Pow(2, n - 1) && Factorial(n) == n * Factorial(n - 1)
  {
    ProductOfUpTo(n);
    hide Product, UpTo;
  }

  lemma Regroup(x: int, c: int, e: int, o: int)
    ensures x * (c * (e * o)) == (x * e) * (c * o)
  {
    Interchange(x, e, c, o);
    assert x * (c * (e * o)) == (x * c) * (e * o);
  }

  predicate IsProduct(z: int, x: int, y: int) {
    z == x * y
  }

  lemma SplitStep(x: int, c: int, e: int, o: int, f2: int, f1: int, f0: int, even: int, odd: int)
    requires IsProduct(f2, x, f1) && IsProduct(f1, c, f0) && IsProduct(f0, e, o)
    requires IsProduct(even, x, e) && IsProduct(odd, c, o)
    ensures IsProduct(f2, even, odd)
  {
    Regroup(x, c, e, o);
  }

  lemma StepsAsProducts(n: nat)
    requires n > 0
    ensures IsProduct(Factorial(n), n, Factorial(n - 1))
    ensures IsProduct(Evens(n), 2 * n, Evens(n - 1))
    ensures IsProduct(Odds(n), 2 * n - 1, Odds(n - 1))
  {
    ProductOfUpTo(n);
  }

  lemma {:induction false} FactorialSplits(n: nat)
    ensures IsProduct(Factorial(2 * n), Evens(n), Odds(n))
  {
    hide IsProduct, Factorial, Evens, Odds;
    if n > 0 {
      FactorialSplits(n - 1);
      StepsAsProducts(2 * n);
      StepsAsProducts(2 * n - 1);
      StepsAsProducts(n);
      assert 2 * n - 1 - 1 == 2 * (n - 1);
      SplitStep(2 * n, 2 * n - 1, Evens(n - 1), Odds(n - 1), Factorial(2 * n), Factorial(2 * n - 1),
                Factorial(2 * (n - 1)), Evens(n), Odds(n));
    } else {
      NothingSplits();
    }
  }

  lemma NothingSplits()
    ensures IsProduct(Factorial(0), Evens(0), Odds(0))
  {
  }

  lemma SignedProduct(c: int, e: int, sign: int, o: int)
    ensures -c * (e * (sign * o)) == e * (-sign * (c * o))
  {
    assert -c * (e * (sign * o)) == e * (-c * (sign * o));
    assert -c * (sign * o) == -sign * (c * o);
  }

  /** One even number x above the middle is traded for the odd number c with x + c == p. */
  lemma TradeOne(total: int, x: int, c: int, e: int, sign: int, o: int, p: int)
    requires p > 0 && x == p - c && Cong(total, (x * e) * (sign * o), p)
    ensures Cong(total, e * (-sign * (c * o)), p)
  {
    var rest := e * (sign * o);
    ModOfMultiple(1, -c, p);
    CongMulRight(x, -c, rest, p);
    SignedProduct(c, e, sign, o);
    assert x * rest == (x * e) * (sign * o);
  }

  /** The even numbers up to 2t, and odd numbers for those above, with their signs. */
  function Traded(m: nat, t: nat): int
    requires t <= 2 * m
  {
    Evens(t) * (Sign(2 * m - t) * Odds(2 * m - t))
  }

  lemma TradedStep(m: nat, t: nat)
    requires t < 2 * m
    ensures
      var n := 2 * m - t - 1;
      var c := 2 * n + 1;
      && Traded(m, t + 1) == (2 * (t + 1) * Evens(t)) * (Sign(n) * Odds(n))
      && Traded(m, t) == Evens(t) * (-Sign(n) * (c * Odds(n)))
  {
    var n := 2 * m - t - 1;
    assert n + 1 == 2 * m - t && Sign(n + 1) == -Sign(n) && Odds(n + 1) == (2 * n + 1) * Odds(n);
    assert Evens(t + 1) == 2 * (t + 1) * Evens(t);
  }

  /** Each even number above the middle is the negative of an odd number below it. */
  lemma {:induction false} UpperEvensAreOdds(m: nat, t: nat, p: int)
    requires p == 4 * m + 1 && t <= 2 * m && p > 1
    ensures Cong(Evens(2 * m), Traded(m, t), p)
    decreases 2 * m - t
  {
    if t < 2 * m {
      UpperEvensAreOdds(m, t + 1, p);
      TradedStep(m, t);
      hide Cong, Traded, Evens, Odds, Sign;
      var n := 2 * m - t - 1;
      TradeOne(Evens(2 * m), 2 * (t + 1), 2 * n + 1, Evens(t), Sign(n), Odds(n), p);
    } else {
      assert Odds(0) == 1 && Sign(0) == 1;
    }
  }

  lemma NegatedFactorial(f: int, g: int, e: int, o: int, p: int)
    requires IsPrime(p) && f % p != 0 && IsProduct(f, e, o) && Cong(g * f, e * (-1 * o), p)
    ensures Cong(g, -1, p)
  {
    assert e * (-1 * o) == f * -1;
    assert g * f == f * g;
    Cancel(f, g, -1, p);
  }

  lemma FactorialHasInverse(n: nat, p: int)
    requires IsPrime(p) && n < p
    ensures Factorial(n) % p != 0
  {
    FactorialIsUnit(n, p);
  }

  lemma TradedHalf(m: nat)
    requires m % 2 == 1
    ensures Traded(m, m) == Evens(m) * (-1 * Odds(m))
  {
    assert 2 * m - m == m && Sign(m) == -1;
  }

  lemma TwoToTheHalf(m: nat, p: int)
    requires IsPrime(p) && p == 4 * m + 1 && m % 2 == 1
    ensures Cong(Pow(2, 2 * m), -1, p)
  {
    hide Cong, Traded, Factorial, Pow, Evens, Odds, Sign, IsPrime, IsProduct;
    UpperEvensAreOdds(m, m, p);
    TradedHalf(m);
    FactorialSplits(m);
    EvensAre(2 * m);
    FactorialHasInverse(2 * m, p);
    NegatedFactorial(Factorial(2 * m), Pow(2, 2 * m), Evens(m), Odds(m), p);
  }

  /** Gauss's lemma for two. */
  lemma TwoIsNotSquare(p: int)
    requires IsPrime(p) && p % 8 == 5
    ensures Cong(Pow(2, (p - 1) / 2), -1, p)
  {
    hide Cong, Pow;
    var m := (p - 1) / 4;
    assert p == 4 * m + 1 && m % 2 == 1 && (p - 1) / 2 == 2 * m;
    TwoToTheHalf(m, p);
  }

  // ---- Euler's criterion when p is 5 modulo 8 ----

  lemma RootOfOne(a: int, p: int)
    requires IsPrime(p) && Cong(a * a, 1, p)
    ensures Cong(a, 1, p) || Cong(a, -1, p)
  {
    CongZero(a * a, 1, p);
    assert a * a - 1 == (a - 1) * (a + 1);
    PrimeDividesFactor(a - 1, a + 1, p);
    CongZero(a, 1, p);
    CongZero(a, -1, p);
  }

  lemma SquareOfPower(b: int, e: nat)
    ensures Pow(b, e) * Pow(b, e) == Pow(b, 2 * e)
  {
    PowAdd(b, e, e);
  }

  lemma SquareOfRemainder(root: int, w: int, p: int)
    requires p > 0 && Cong(root * root, w, p)
    ensures Cong((root % p) * (root % p), w, p)
  {
    CongMod(root, p);
    CongMul(root % p, root, root % p, root, p);
  }

  /** If t is minus one, and so is b squared, then b makes up for t. */
  lemma SignsCancel(a: int, b: int, w: int, t: int, p: int)
    requires p > 0 && a * a == w * t && Cong(t, -1, p) && Cong(b * b, -1, p)
    ensures Cong((a * b) * (a * b), w, p)
  {
    CongMul(t, -1, b * b, -1, p);
    CongMulRight(t * (b * b), 1, w, p);
    Interchange(a, b, a, b);
    assert (w * t) * (b * b) == w * (t * (b * b));
  }

  /** The root is explicit: a power of w, or that power times a power of two. */
  lemma SquareRoot(w: int, p: int) returns (x: int)
    requires IsPrime(p) && p % 8 == 5 && Cong(Pow(w, (p - 1) / 2), 1, p)
    ensures 0 <= x < p && Cong(x * x, w, p)
  {
    var q, c := (p - 1) / 4, (p + 3) / 8;
    assert 2 * q == (p - 1) / 2 && 2 * c == q + 1;
    var a, t, b := Pow(w, c), Pow(w, q), Pow(2, q);
    SquareOfPower(w, q);
    SquareOfPower(w, c);
    SquareOfPower(2, q);
    assert a * a == w * t;
    TwoIsNotSquare(p);
    hide Pow;
    RootOfOne(t, p);
    if Cong(t, 1, p) {
      CongMulRight(t, 1, w, p);
      SquareOfRemainder(a, w, p);
      x := a % p;
    } else {
      SignsCancel(a, b, w, t, p);
      SquareOfRemainder(a * b, w, p);
      x := (a * b) % p;
    }
  }

  lemma SquaresHavePowerOne(x: int, w: int, p: int)
    requires IsPrime(p) && p % 2 == 1 && w % p != 0 && Cong(x * x, w, p)
    ensures Cong(Pow(w, (p - 1) / 2), 1, p)
  {
    var h := (p - 1) / 2;
    if x % p == 0 {
      CongMul(x, 0, x, 0, p);
    }
    PowCong(x * x, w, h, p);
    PowOfProduct(x, x, h);
    SquareOfPower(x, h);
    Fermat(x, p);
  }

  /** Zero counts as a square, and any other residue exactly when its power is one. */
  ghost predicate HasPowerOne(w: int, p: int)
    requires p > 1
  {
    w == 0 || Pow(w, (p - 1) / 2) % p == 1
  }

  predicate IsRoot(x: int, w: int, p: int)
    requires p > 0
  {
    0 <= x < p && Cong(x * x, w, p)
  }

  lemma EulersCriterion(w: int, p: int)
    requires IsPrime(p) && p % 8 == 5 && 0 <= w < p
    ensures HasPowerOne(w, p) <==> exists x :: IsRoot(x, w, p)
  {
    if w == 0 {
      assert IsRoot(0, 0, p);
    } else {
      SmallIsNotMultiple(w, p);
      DivisionIsUnique(1, p, 0, 1);
      hide Pow;
      if HasPowerOne(w, p) {
        var x := SquareRoot(w, p);
        assert IsRoot(x, w, p);
      }
      if x :| IsRoot(x, w, p) {
        SquaresHavePowerOne(x, w, p);
      }
    }
  }
}
