/** Divisibility, greatest common divisors and primes, as the hash table, the
    rotation and the divisor generator need them. */
module NumberTheory {

  predicate Divides(d: int, n: int)
    requires d > 0
  {
    n % d == 0
  }

  ghost predicate Prime(n: int) {
    n >= 2 && forall d :: 2 <= d < n ==> !Divides(d, n)
  }

  // ---------- division with remainder ----------

  lemma ModUnique(a: int, d: int, q: int, r: int)
    requires d > 0 && 0 <= r < d && a == d * q + r
    ensures a % d == r && a / d == q
  {
    var q', r' := a / d, a % d;
    assert a == d * q' + r';
    assert d * (q - q') == r' - r;
    assert q - q' >= 1 ==> d * (q - q') >= d;
    assert q - q' <= -1 ==> d * (q - q') <= -d;
  }

  lemma MultipleDivides(d: int, k: int)
    requires d > 0
    ensures Divides(d, d * k) && d * k / d == k
  {
    ModUnique(d * k, d, k, 0);
  }

  lemma ModShift(a: int, d: int, k: int)
    requires d > 0
    ensures (a + d * k) % d == a % d
  {
    assert a == d * (a / d) + a % d;
    assert d * (a / d) + d * k == d * (a / d + k);
    ModUnique(a + d * k, d, a / d + k, a % d);
  }

  // Congruence modulo d is divisibility of the difference.
  lemma CongruentIffDivides(a: int, b: int, d: int)
    requires d > 0
    ensures a % d == b % d <==> Divides(d, a - b)
  {
    var qa, qb := a / d, b / d;
    assert a - b == d * (qa - qb) + (a % d - b % d) by {
      assert a == d * qa + a % d;
      assert b == d * qb + b % d;
      assert d * qa - d * qb == d * (qa - qb);
    }
    if a % d == b % d {
      MultipleDivides(d, qa - qb);
    }
    if Divides(d, a - b) {
      ModShift(a, d, -((a - b) / d));
    }
  }

  lemma ModAddLeft(a: int, b: int, d: int)
    requires d > 0
    ensures (a % d + b) % d == (a + b) % d
  {
    assert a % d + b == (a + b) + d * -(a / d);
    ModShift(a + b, d, -(a / d));
  }

  lemma DividesProduct(d: int, a: int, b: int)
    requires d > 0 && Divides(d, a)
    ensures Divides(d, a * b) && Divides(d, b * a)
  {
    assert a * b == d * (a / d) * b == d * (a / d * b);
    MultipleDivides(d, a / d * b);
  }

  lemma DividesSum(d: int, a: int, b: int)
    requires d > 0 && Divides(d, a) && Divides(d, b)
    ensures Divides(d, a + b) && Divides(d, a - b)
  {
    var x, y := a / d, b / d;
    assert a == d * x && b == d * y;
    assert a + b == d * (x + y) && a - b == d * (x - y);
    MultipleDivides(d, x + y);
    MultipleDivides(d, x - y);
  }

  lemma DividesTrans(a: int, b: int, c: int)
    requires a > 0 && b > 0 && Divides(a, b) && Divides(b, c)
    ensures Divides(a, c)
  {
    assert c == b * (c / b);
    DividesProduct(a, b, c / b);
  }

  lemma DividesBound(d: int, n: int)
    requires d > 0 && n > 0 && Divides(d, n)
    ensures d <= n && n / d >= 1 && d * (n / d) == n
  {
    var q := n / d;
    assert n == d * q;
    assert q <= 0 ==> d * q <= 0;
    assert d * q >= d * 1;
  }

  // ---------- greatest common divisor ----------

  function Gcd(a: nat, b: nat): (g: nat)
    requires a > 0 || b > 0
    ensures g > 0
    decreases b
  {
    if b == 0 then a else Gcd(b, a % b)
  }

  lemma {:induction false} GcdDivides(a: nat, b: nat)
    requires a > 0 || b > 0
    ensures Divides(Gcd(a, b), a) && Divides(Gcd(a, b), b)
    decreases b
  {
    if b == 0 {
      MultipleDivides(a, 1);
    } else {
      var g := Gcd(b, a % b);
      GcdDivides(b, a % b);
      DividesProduct(g, b, a / b);
      assert a == b * (a / b) + a % b;
      DividesSum(g, b * (a / b), a % b);
    }
  }

  // Coefficients x, y with a*x + b*y == Gcd(a, b).
  ghost function Bezout(a: nat, b: nat): (c: (int, int))
    requires a > 0 || b > 0
    decreases b
  {
    if b == 0 then (1, 0)
    else var c := Bezout(b, a % b); (c.1, c.0 - a / b * c.1)
  }

  lemma {:induction false} BezoutIdentity(a: nat, b: nat)
    requires a > 0 || b > 0
    ensures a * Bezout(a, b).0 + b * Bezout(a, b).1 == Gcd(a, b)
    decreases b
  {
    if b != 0 {
      BezoutIdentity(b, a % b);
      var x, y := Bezout(b, a % b).0, Bezout(b, a % b).1;
      var q := a / b;
      calc {
        a * y + b * (x - q * y);
        { MulDistributes(b, x, q, y); }
        a * y + b * x - b * q * y;
        { assert a == b * q + a % b; MulDistributes2(a, b * q, a % b, y); }
        b * x + (a % b) * y;
      }
    }
  }

  lemma MulDistributes(b: int, x: int, q: int, y: int)
    ensures b * (x - q * y) == b * x - b * q * y
  {
    assert b * (x - q * y) == b * x - b * (q * y);
  }

  lemma MulDistributes2(a: int, u: int, v: int, y: int)
    requires a == u + v
    ensures a * y == u * y + v * y
  {
  }

  lemma ScaleIdentity(a: int, b: int, n: int, x: int, y: int)
    requires a * x + n * y == 1
    ensures b == a * b * x + n * (b * y)
  {
    calc {
      b;
      b * (a * x + n * y);
      b * (a * x) + b * (n * y);
      { assert b * (a * x) == a * b * x; assert b * (n * y) == n * (b * y); }
      a * b * x + n * (b * y);
    }
  }

  // A divisor of a product that is coprime to one factor divides the other.
  lemma GaussLemma(n: nat, a: nat, b: int)
    requires n > 0 && Gcd(a, n) == 1 && Divides(n, a * b)
    ensures Divides(n, b)
  {
    var x, y := Bezout(a, n).0, Bezout(a, n).1;
    BezoutIdentity(a, n);
    ScaleIdentity(a, b, n, x, y);
    DividesProduct(n, a * b, x);
    MultipleDivides(n, b * y);
    DividesSum(n, a * b * x, n * (b * y));
  }

  lemma PrimeCoprime(p: nat, a: nat)
    requires Prime(p) && !Divides(p, a)
    ensures Gcd(a, p) == 1
  {
    var g := Gcd(a, p);
    GcdDivides(a, p);
    DividesBound(g, p);
  }

  // Euclid's lemma.
  lemma EuclidLemma(p: nat, a: nat, b: int)
    requires Prime(p) && Divides(p, a * b)
    ensures Divides(p, a) || Divides(p, b)
  {
    if !Divides(p, a) {
      PrimeCoprime(p, a);
      GaussLemma(p, a, b);
    }
  }

  // ---------- primes ----------

  // The least divisor above one.
  ghost function LeastFactor(n: nat, d: nat): (p: nat)
    requires 2 <= d <= n && forall e :: 2 <= e < d ==> !Divides(e, n)
    ensures d <= p <= n && Divides(p, n)
    ensures forall e :: 2 <= e < p ==> !Divides(e, n)
    decreases n - d
  {
    if Divides(d, n) then d
    else
      assert Divides(n, n) by { MultipleDivides(n, 1); }
      LeastFactor(n, d + 1)
  }

  lemma LeastFactorPrime(n: nat)
    requires n >= 2
    ensures Prime(LeastFactor(n, 2))
  {
    var p := LeastFactor(n, 2);
    forall d | 2 <= d < p
      ensures !Divides(d, p)
    {
      if Divides(d, p) {
        DividesTrans(d, p, n);
      }
    }
  }

  ghost function Factorial(n: nat): (f: nat)
    ensures f >= 1
  {
    if n == 0 then 1
    else
      var f := Factorial(n - 1);
      assert n * f >= 1 * 1;
      n * f
  }

  lemma {:induction false} FactorialDivisible(n: nat, d: nat)
    requires 1 <= d <= n
    ensures Divides(d, Factorial(n))
  {
    if d == n {
      MultipleDivides(n, Factorial(n - 1));
    } else {
      FactorialDivisible(n - 1, d);
      DividesProduct(d, Factorial(n - 1), n);
    }
  }

  // There are primes beyond every bound.
  lemma PrimeAbove(n: nat) returns (p: nat)
    ensures p > n && Prime(p)
  {
    var m := Factorial(n) + 1;
    p := LeastFactor(m, 2);
    LeastFactorPrime(m);
    if p <= n {
      FactorialDivisible(n, p);
      DividesSum(p, m, Factorial(n));
      assert Divides(p, 1);
      DividesBound(p, 1);
    }
  }
}
