/** Modular arithmetic over unbounded integers: the facts that a Fermat-style inverse
    and square-root computation in a prime field rest on. */
module NumberTheory {

  // ---------- powers and residues ----------

  /** The mathematical power that Python's `pow(b, e, m)` reduces modulo m. */
  function Pow(b: int, e: nat): int
  {
    if e == 0 then 1 else b * Pow(b, e - 1)
  }

  predicate Divides(d: int, n: int)
    requires d > 0
  {
    n % d == 0
  }

  predicate Congruent(a: int, b: int, m: int)
    requires m > 0
  {
    a % m == b % m
  }

  ghost predicate IsPrime(p: int)
  {
    p >= 2 && forall d :: 1 < d < p ==> !Divides(d, p)
  }

  lemma MulAtLeast(m: int, d: int)
    requires m > 0 && d >= 1
    ensures m * d >= m
  {
  }

  lemma ModUnique(a: int, m: int, k: int, r: int)
    requires m > 0 && a == m * k + r && 0 <= r < m
    ensures a % m == r && a / m == k
  {
    var j := a / m;
    var d := k - j;
    assert m * k == m * j + m * d;
    if d >= 1 {
      MulAtLeast(m, d);
    } else if d <= -1 {
      assert m * d == -(m * -d);
      MulAtLeast(m, -d);
    }
  }

  /** Euclidean division by a positive number. */
  lemma DivFacts(n: nat, b: nat)
    requires b >= 1
    ensures b * (n / b) + n % b == n && n / b * b + n % b == n && n % b < b && n / b >= 0
    ensures n / b == 0 <==> n < b
    ensures n < b ==> n % b == n
    ensures n > 0 && b >= 2 ==> n / b < n
  {
    NamedQuotient(n, b, n / b, n % b);
  }

  lemma NamedQuotient(n: nat, b: nat, q: nat, d: nat)
    requires b >= 1 && n == b * q + d && d < b
    ensures (q == 0 <==> n < b) && (n > 0 && b >= 2 ==> q < n)
  {
    if q == 0 {
      assert b * q == 0;
    } else {
      MulAtLeast(b, q);
      if b >= 2 {
        Doubles(b, q);
      }
    }
  }

  lemma Doubles(b: nat, q: nat)
    requires b >= 2
    ensures b * q >= 2 * q
  {
    assert b * q == 2 * q + (b - 2) * q;
    assert (b - 2) * q >= 0;
  }

  /** Dropping the lowest digit in base b and then dividing is one division. */
  lemma ShiftDiv(d: nat, b: nat, t: nat, p: nat)
    requires d < b && p > 0
    ensures b * p > 0 && (d + b * t) / (b * p) == t / p
  {
    var q, r := t / p, t % p;
    ShiftNamed(d, b, t, p, q, r);
    ModUnique(d + b * t, b * p, q, d + b * r);
  }

  lemma ShiftNamed(d: nat, b: nat, t: nat, p: nat, q: nat, r: nat)
    requires d < b && r < p && t == p * q + r
    ensures b * p > 0 && d + b * t == b * p * q + (d + b * r) && d + b * r < b * p
  {
    MulAssoc(b, p, q);
    assert b * (p * q + r) == b * (p * q) + b * r;
    MulAtLeast(b, p - r);
    assert b * p == b * r + b * (p - r);
    assert b * r >= 0;
  }

  lemma LowDigit(d: nat, b: nat, t: nat)
    requires d < b
    ensures (d + b * t) % b == d && (d + b * t) / b == t
  {
    ModUnique(d + b * t, b, t, d);
  }

  lemma {:induction false} PowPositive(b: int, e: nat)
    requires b > 0
    ensures Pow(b, e) > 0
  {
    if e > 0 {
      PowPositive(b, e - 1);
      MulAtLeast(b, Pow(b, e - 1));
    }
  }

  lemma ModAddMultiple(a: int, k: int, m: int)
    requires m > 0
    ensures (a + m * k) % m == a % m
  {
    assert a + m * k == m * (a / m + k) + a % m;
    ModUnique(a + m * k, m, a / m + k, a % m);
  }

  lemma MultipleIsZero(k: int, m: int)
    requires m > 0
    ensures (m * k) % m == 0
  {
    ModUnique(m * k, m, k, 0);
  }

  lemma CongruentGap(a: int, b: int, m: int)
    requires m > 0
    ensures Congruent(a, b, m) <==> Divides(m, a - b)
  {
    if Congruent(a, b, m) {
      assert a - b == m * (a / m - b / m);
      MultipleIsZero(a / m - b / m, m);
    }
    if Divides(m, a - b) {
      assert a == b + m * ((a - b) / m);
      ModAddMultiple(b, (a - b) / m, m);
    }
  }

  lemma CongruentAdd(a: int, b: int, c: int, d: int, m: int)
    requires m > 0 && Congruent(a, b, m) && Congruent(c, d, m)
    ensures Congruent(a + c, b + d, m) && Congruent(a - c, b - d, m)
  {
    var j, k := a / m - b / m, c / m - d / m;
    assert a == b + m * j && c == d + m * k;
    assert a + c == (b + d) + m * (j + k) && a - c == (b - d) + m * (j - k);
    ModAddMultiple(b + d, j + k, m);
    ModAddMultiple(b - d, j - k, m);
  }

  lemma CongruentScale(a: int, b: int, c: int, m: int)
    requires m > 0 && Congruent(a, b, m)
    ensures Congruent(a * c, b * c, m)
  {
    var j := a / m - b / m;
    assert a == b + m * j;
    assert a * c == b * c + m * (j * c) by {
      assert (b + m * j) * c == b * c + (m * j) * c;
      MulAssoc(m, j, c);
    }
    ModAddMultiple(b * c, j * c, m);
  }

  lemma MulAssoc(a: int, b: int, c: int)
    ensures a * b * c == a * (b * c)
  {
  }

  lemma CongruentMul(a: int, b: int, c: int, d: int, m: int)
    requires m > 0 && Congruent(a, b, m) && Congruent(c, d, m)
    ensures Congruent(a * c, b * d, m)
  {
    CongruentScale(a, b, c, m);
    CongruentScale(c, d, b, m);
  }

  lemma CongruentResidue(a: int, m: int)
    requires m > 0
    ensures Congruent(a % m, a, m)
  {
    ModUnique(a % m, m, 0, a % m);
  }

  lemma {:induction false} CongruentPow(a: int, b: int, e: nat, m: int)
    requires m > 0 && Congruent(a, b, m)
    ensures Congruent(Pow(a, e), Pow(b, e), m)
  {
    if e > 0 {
      CongruentPow(a, b, e - 1, m);
      CongruentMul(a, b, Pow(a, e - 1), Pow(b, e - 1), m);
    }
  }

  lemma {:induction false} PowAdd(b: int, e: nat, f: nat)
    ensures Pow(b, e + f) == Pow(b, e) * Pow(b, f)
  {
    if e > 0 {
      PowAdd(b, e - 1, f);
      assert b * (Pow(b, e - 1) * Pow(b, f)) == b * Pow(b, e - 1) * Pow(b, f);
    }
  }

  lemma {:induction false} PowMul(b: int, e: nat, f: nat)
    ensures e * f >= 0 && Pow(b, e * f) == Pow(Pow(b, e), f)
  {
    if f == 0 {
    } else {
      PowMul(b, e, f - 1);
      assert e * f == e + e * (f - 1);
      PowAdd(b, e, e * (f - 1));
    }
  }

  lemma MulSwap(a: int, b: int, x: int, y: int)
    ensures (a * b) * (x * y) == (a * x) * (b * y)
  {
    MulAssoc(a, b, x * y);
    MulAssoc(b, x, y);
    MulAssoc(x, b, y);
    MulAssoc(a, x, b * y);
  }

  lemma {:induction false} PowOfProduct(a: int, b: int, e: nat)
    ensures Pow(a * b, e) == Pow(a, e) * Pow(b, e)
  {
    if e > 0 {
      PowOfProduct(a, b, e - 1);
      MulSwap(a, b, Pow(a, e - 1), Pow(b, e - 1));
    }
  }

  lemma {:induction false} PowOfOne(e: nat)
    ensures Pow(1, e) == 1
  {
    if e > 0 { PowOfOne(e - 1); }
  }

  // ---------- Bezout and Euclid ----------

  /** The extended Euclidean algorithm: g is the greatest common divisor of a and b. */
  lemma {:induction false} Bezout(a: nat, b: nat) returns (g: nat, x: int, y: int)
    requires a > 0 || b > 0
    ensures g > 0 && a * x + b * y == g
    ensures Divides(g, a) && Divides(g, b)
    decreases b
  {
    if b == 0 {
      g, x, y := a, 1, 0;
      MultipleIsZero(1, a);
    } else {
      var x', y';
      g, x', y' := Bezout(b, a % b);
      x, y := y', x' - (a / b) * y';
      var s, t := b / g, a % b / g;
      assert b == g * s && a % b == g * t;
      assert a == g * (s * (a / b) + t) by {
        assert a == (g * s) * (a / b) + g * t;
        assert (g * s) * (a / b) == g * (s * (a / b));
      }
      MultipleIsZero(s * (a / b) + t, g);
      assert b * x' + (a % b) * y' == g;
      assert a * y' + b * (x' - (a / b) * y') == b * x' + (a - b * (a / b)) * y';
    }
  }

  lemma PrimeDivisor(p: int, g: int)
    requires IsPrime(p) && g > 0 && Divides(g, p)
    ensures g == 1 || g == p
  {
    if g > p { ModUnique(p, g, 0, p); }
  }

  /** A residue that p does not divide has an inverse modulo p. */
  lemma Inverse(a: int, p: int) returns (i: int)
    requires IsPrime(p) && !Divides(p, a)
    ensures Congruent(a * i, 1, p)
  {
    var r := a % p;
    var g, x, y := Bezout(p, r);
    PrimeDivisor(p, g);
    if g == p {
      ModUnique(r, p, 0, r);
      assert false;
    }
    i := y;
    assert r * y == 1 + p * (-x);
    ModAddMultiple(1, -x, p);
    CongruentResidue(a, p);
    CongruentMul(r, a, y, y, p);
  }

  /** Euclid: a prime that divides a product divides a factor. */
  lemma Euclid(a: int, b: int, p: int)
    requires IsPrime(p) && Divides(p, a * b)
    ensures Divides(p, a) || Divides(p, b)
  {
    if !Divides(p, a) {
      var i := Inverse(a, p);
      CongruentMul(a * i, 1, b, b, p);
      CongruentMul(a * b, 0, i, i, p);
      assert a * i * b == a * b * i;
    }
  }

  // ---------- Fermat's little theorem ----------

  function Binomial(n: nat, k: nat): nat
  {
    if k == 0 then 1 else if n == 0 then 0 else Binomial(n - 1, k - 1) + Binomial(n - 1, k)
  }

  lemma {:induction false} BinomialZero(n: nat, k: nat)
    requires k > n
    ensures Binomial(n, k) == 0
  {
    if n > 0 {
      BinomialZero(n - 1, k - 1);
      BinomialZero(n - 1, k);
    }
  }

  lemma {:induction false} BinomialFull(n: nat)
    ensures Binomial(n, n) == 1
  {
    if n > 0 {
      BinomialFull(n - 1);
      BinomialZero(n - 1, n);
    }
  }

  lemma {:induction false} Absorption(n: nat, k: nat)
    ensures (k + 1) * Binomial(n + 1, k + 1) == (n + 1) * Binomial(n, k)
    decreases n
  {
    if n == 0 {
      if k > 0 { BinomialZero(1, k + 1); }
    } else {
      Absorption(n - 1, k);
      if k > 0 {
        Absorption(n - 1, k - 1);
        AbsorptionArithmetic(n, k, Binomial(n - 1, k - 1), Binomial(n - 1, k), Binomial(n, k), Binomial(n, k + 1));
      }
    }
  }

  lemma AbsorptionArithmetic(n: int, k: int, u: int, v: int, a: int, b: int)
    requires a == u + v && (k + 1) * b == n * v && k * a == n * u
    ensures (k + 1) * (a + b) == (n + 1) * a
  {
    assert (k + 1) * (a + b) == k * a + a + (k + 1) * b;
    assert n * (u + v) == n * u + n * v;
  }

  lemma PrimeDividesBinomial(p: int, k: nat)
    requires IsPrime(p) && 0 < k < p
    ensures Divides(p, Binomial(p, k))
  {
    Absorption(p - 1, k - 1);
    var c := Binomial(p, k);
    assert k * c == p * Binomial(p - 1, k - 1);
    MultipleIsZero(Binomial(p - 1, k - 1), p);
    Euclid(k, c, p);
    ModUnique(k, p, 0, k);
  }

  /** The first j terms of the expansion of (a + 1)^n. */
  function Expansion(a: int, n: nat, j: nat): int
  {
    if j == 0 then 0 else Expansion(a, n, j - 1) + Binomial(n, j - 1) * Pow(a, j - 1)
  }

  lemma {:induction false} ExpansionStep(a: int, n: nat, j: nat)
    ensures Expansion(a, n + 1, j + 1) == Expansion(a, n, j + 1) + a * Expansion(a, n, j)
  {
    if j == 0 {
      assert Expansion(a, n + 1, 1) == Expansion(a, n + 1, 0) + Binomial(n + 1, 0) * Pow(a, 0);
      assert Expansion(a, n, 1) == Expansion(a, n, 0) + Binomial(n, 0) * Pow(a, 0);
    } else {
      ExpansionStep(a, n, j - 1);
      ExpansionArithmetic(a, Binomial(n, j - 1), Binomial(n, j), Pow(a, j - 1), Expansion(a, n, j - 1));
    }
  }

  lemma ExpansionArithmetic(a: int, c: int, d: int, x: int, s: int)
    ensures (c + d) * (a * x) == d * (a * x) + a * (c * x)
    ensures a * (s + c * x) == a * s + a * (c * x)
  {
    MulAssoc(c, a, x);
    MulAssoc(a, c, x);
    assert (c + d) * (a * x) == c * (a * x) + d * (a * x);
  }

  lemma {:induction false} BinomialTheorem(a: int, n: nat)
    ensures Expansion(a, n, n + 1) == Pow(a + 1, n)
  {
    if n == 0 {
      assert Expansion(a, 0, 1) == Expansion(a, 0, 0) + Binomial(0, 0) * Pow(a, 0);
    } else {
      BinomialTheorem(a, n - 1);
      ExpansionStep(a, n - 1, n);
      BinomialZero(n - 1, n);
      var x, y := Expansion(a, n - 1, n), Pow(a, n);
      assert Expansion(a, n - 1, n + 1) == x + 0 * y;
      assert x + a * x == (a + 1) * x;
    }
  }

  lemma {:induction false} ExpansionModPrime(a: int, p: int, j: nat)
    requires IsPrime(p) && 1 <= j <= p
    ensures Congruent(Expansion(a, p, j), 1, p)
  {
    if j == 1 {
      assert Expansion(a, p, 1) == Expansion(a, p, 0) + Binomial(p, 0) * Pow(a, 0);
    } else {
      ExpansionModPrime(a, p, j - 1);
      PrimeDividesBinomial(p, j - 1);
      var c, x := Binomial(p, j - 1), Pow(a, j - 1);
      CongruentMul(c, 0, x, x, p);
      CongruentAdd(Expansion(a, p, j - 1), 1, c * x, 0, p);
    }
  }

  lemma {:induction false} PowPrime(a: nat, p: int)
    requires IsPrime(p)
    ensures Congruent(Pow(a, p), a, p)
  {
    if a == 0 {
      assert Pow(0, p) == 0 * Pow(0, p - 1);
    } else {
      PowPrime(a - 1, p);
      BinomialTheorem(a - 1, p);
      BinomialFull(p);
      ExpansionModPrime(a - 1, p, p);
      var e, x := Expansion(a - 1, p, p), Pow(a - 1, p);
      assert Pow(a, p) == e + Binomial(p, p) * x;
      CongruentAdd(e, 1, x, a - 1, p);
    }
  }

  /** Fermat's little theorem, for every integer a that p does not divide. */
  lemma Fermat(a: int, p: int)
    requires IsPrime(p) && !Divides(p, a)
    ensures Congruent(Pow(a, p - 1), 1, p)
  {
    var r := a % p;
    ModUnique(r, p, 0, r);
    CongruentResidue(a, p);
    CongruentPow(r, a, p - 1, p);
    PowPrime(r, p);
    var t := Pow(r, p - 1);
    assert Pow(r, p) == r * t;
    CongruentGap(r * t, r, p);
    assert r * t - r == r * (t - 1);
    Euclid(r, t - 1, p);
    CongruentGap(t, 1, p);
  }
}
