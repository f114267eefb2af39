/** Pocklington's criterion, used to certify the field order, and the step that certifies a
    modular power one octal digit at a time. */
module Primality {
  import opened NumberTheory

  /** The order of b divides every common divisor of two exponents that send b to 1. */
  lemma {:induction false} PowGcd(b: int, e: nat, f: nat, m: int) returns (g: nat)
    requires m > 0 && (e > 0 || f > 0)
    requires Congruent(Pow(b, e), 1, m) && Congruent(Pow(b, f), 1, m)
    ensures g > 0 && Divides(g, e) && Divides(g, f) && Congruent(Pow(b, g), 1, m)
    decreases f
  {
    hide Pow, Congruent;
    if f == 0 {
      g := e;
      MultipleIsZero(1, e);
    } else {
      var r := e % f;
      assert e == f * (e / f) + r;
      PowRemainder(b, e, f, m);
      g := PowGcd(b, f, r, m);
      DividesCombination(g, f, e / f, r);
    }
  }

  lemma PowRemainder(b: int, e: nat, f: nat, m: int)
    requires m > 0 && f > 0
    requires Congruent(Pow(b, e), 1, m) && Congruent(Pow(b, f), 1, m)
    ensures Congruent(Pow(b, e % f), 1, m)
  {
    var k, r := e / f, e % f;
    assert e == f * k + r;
    PowMul(b, f, k);
    PowAdd(b, f * k, r);
    CongruentPow(Pow(b, f), 1, k, m);
    PowOfOne(k);
    CongruentMul(Pow(b, f * k), 1, Pow(b, r), Pow(b, r), m);
  }

  lemma DividesCombination(g: int, f: int, k: int, r: int)
    requires g > 0 && Divides(g, f) && Divides(g, r)
    ensures Divides(g, f * k + r)
  {
    CongruentScale(f, 0, k, g);
    CongruentAdd(f * k, 0, r, 0, g);
  }

  lemma CongruentModDivisor(a: int, b: int, n: int, p: int)
    requires n > 0 && p > 0 && Divides(p, n) && Congruent(a, b, n)
    ensures Congruent(a, b, p)
  {
    var j, k := a / n - b / n, n / p;
    assert n == p * k && a - b == n * j;
    MulAssoc(p, k, j);
    MultipleIsZero(k * j, p);
    CongruentGap(a, b, p);
  }

  /** Pocklington: every prime factor p of n is 1 modulo the prime r. */
  lemma Pocklington(n: int, r: int, c: nat, a: int, inv: int, p: int)
    requires IsPrime(r) && n > 1 && n - 1 == c * r
    requires Congruent(Pow(a, n - 1), 1, n) && Congruent((Pow(a, c) - 1) * inv, 1, n)
    requires IsPrime(p) && Divides(p, n)
    ensures Divides(r, p - 1)
  {
    var b := Pow(a, c);
    PowMul(a, c, r);
    CongruentModDivisor(Pow(b, r), 1, n, p);
    CongruentModDivisor((b - 1) * inv, 1, n, p);
    ModUnique(1, p, 0, 1);
    assert Pow(b, r) == b * Pow(b, r - 1);
    if Divides(p, b) {
      CongruentMul(b, 0, Pow(b, r - 1), Pow(b, r - 1), p);
      assert false;
    }
    Fermat(b, p);
    var g := PowGcd(b, p - 1, r, p);
    PrimeDivisor(r, g);
    if g == 1 {
      assert Pow(b, 1) == b * Pow(b, 0);
      CongruentGap(b, 1, p);
      CongruentMul(b - 1, 0, inv, inv, p);
    }
  }

  lemma LeastDivisor(n: int) returns (p: int)
    requires n >= 2 && !IsPrime(n)
    ensures 1 < p < n && Divides(p, n)
    ensures forall d :: 1 < d < p ==> !Divides(d, n)
  {
    var w :| 1 < w < n && Divides(w, n);
    p := 2;
    while !Divides(p, n)
      invariant 2 <= p <= w
      invariant forall d :: 1 < d < p ==> !Divides(d, n)
      decreases w - p
    {
      p := p + 1;
    }
  }

  lemma DividesTransitive(d: int, p: int, n: int)
    requires d > 0 && p > 0 && Divides(d, p) && Divides(p, n)
    ensures Divides(d, n)
  {
    var j, k := p / d, n / p;
    assert p == d * j && n == p * k;
    assert n == (d * j) * k;
    MulAssoc(d, j, k);
    MultipleIsZero(j * k, d);
  }

  /** A composite number has a prime factor no larger than its square root. */
  lemma SmallFactor(n: int) returns (p: int)
    requires n >= 2 && !IsPrime(n)
    ensures IsPrime(p) && Divides(p, n) && p * p <= n
  {
    p := LeastDivisor(n);
    forall d | 1 < d < p
      ensures !Divides(d, p)
    {
      if Divides(d, p) { DividesTransitive(d, p, n); }
    }
    var k := n / p;
    assert n == p * k;
    if k < p {
      Cofactor(n, p, k);
    } else {
      assert p * p <= p * k;
    }
  }

  lemma CofactorAboveOne(p: int, k: int)
    requires 1 < p < p * k
    ensures 1 < k
  {
  }

  lemma Cofactor(n: int, p: int, k: int)
    requires 1 < p < n && n == p * k
    ensures 1 < k && Divides(k, n)
  {
    assert k > 1 by { CofactorAboveOne(p, k); }
    MultipleIsZero(p, k);
  }

  lemma SquareMonotone(a: int, b: int)
    requires 0 <= a <= b
    ensures a * a <= b * b
  {
    assert a * a <= a * b <= b * b;
  }

  /** If every prime factor is 1 modulo f, and no number below root that is 1 modulo f
      divides n, then n is prime. */
  lemma PrimeByFactors(n: int, f: int, root: int)
    requires n >= 2 && f > 0 && root >= 0 && root * root > n
    requires forall p :: IsPrime(p) && Divides(p, n) ==> Divides(f, p - 1)
    requires forall d :: 1 < d < root && Divides(f, d - 1) ==> !Divides(d, n)
    ensures IsPrime(n)
  {
    if !IsPrime(n) {
      var p := SmallFactor(n);
      assert Divides(f, p - 1);
      if root <= p {
        SquareMonotone(root, p);
      }
    }
  }

  lemma PrimeByLargeFactor(n: int, f: int)
    requires n >= 2 && f > 0 && (f + 1) * (f + 1) > n
    requires forall p :: IsPrime(p) && Divides(p, n) ==> Divides(f, p - 1)
    ensures IsPrime(n)
  {
    forall d | 1 < d < f + 1
      ensures Divides(f, d - 1) ==> !Divides(d, n)
    {
      ModUnique(d - 1, f, 0, d - 1);
    }
    PrimeByFactors(n, f, f + 1);
  }

  lemma CoprimeCertificates(n: int, r: int, s: int, f: int)
    requires IsPrime(r) && IsPrime(s) && r != s && f == r * s && f > 0 && n >= 2
    requires forall p :: IsPrime(p) && Divides(p, n) ==> Divides(r, p - 1)
    requires forall p :: IsPrime(p) && Divides(p, n) ==> Divides(s, p - 1)
    ensures forall p :: IsPrime(p) && Divides(p, n) ==> Divides(f, p - 1)
  {
    forall p | IsPrime(p) && Divides(p, n)
      ensures Divides(f, p - 1)
    {
      CoprimeFactors(r, s, p - 1);
    }
  }

  lemma CoprimeFactors(r: int, s: int, x: int)
    requires IsPrime(r) && IsPrime(s) && r != s && Divides(r, x) && Divides(s, x)
    ensures Divides(r * s, x)
  {
    var k := x / r;
    assert x == r * k;
    Euclid(r, k, s);
    if Divides(s, r) { PrimeDivisor(r, s); }
    var j := k / s;
    assert k == s * j;
    MulAssoc(r, s, j);
    MultipleIsZero(j, r * s);
  }

  /** A Pocklington witness given by residues: u is a^c modulo n and inv inverts u - 1. */
  lemma CertifyFactor(n: int, r: int, c: nat, a: int, u: int, inv: int)
    requires IsPrime(r) && n > 1 && n - 1 == c * r
    requires PowerIs(a, c, n, u) && PowerIs(a, n - 1, n, 1) && (u - 1) * inv % n == 1
    ensures forall p :: IsPrime(p) && Divides(p, n) ==> Divides(r, p - 1)
  {
    var b := Pow(a, c);
    CongruentAdd(b, u, 1, 1, n);
    CongruentMul(b - 1, u - 1, inv, inv, n);
    ModUnique(1, n, 0, 1);
    forall p | IsPrime(p) && Divides(p, n)
      ensures Divides(r, p - 1)
    {
      Pocklington(n, r, c, a, inv, p);
    }
  }

  // ---------- certified powers ----------

  /** b^e is congruent to x modulo m. */
  ghost predicate PowerIs(b: int, e: nat, m: int, x: int)
    requires m > 0
  {
    Congruent(Pow(b, e), x, m)
  }

  /** One octal digit of an exponent: b^(8e + d) from b^e and w = b^d. */
  lemma PowerDigit(b: int, m: int, e: nat, x: int, d: nat, w: int, y: int) returns (e': nat)
    requires m > 0 && PowerIs(b, e, m, x) && PowerIs(b, d, m, w)
    requires x * x * x * x * x * x * x * x * w % m == y
    ensures e' == 8 * e + d && PowerIs(b, e', m, y)
  {
    e' := 8 * e + d;
    var p := Pow(b, e);
    CongruentPow(p, x, 8, m);
    PowMul(b, e, 8);
    PowAdd(b, 8 * e, d);
    CongruentMul(Pow(p, 8), Pow(x, 8), Pow(b, d), w, m);
    EighthPower(x);
    CongruentResidue(Pow(x, 8) * w, m);
  }

  lemma EighthPower(x: int)
    ensures Pow(x, 8) == x * x * x * x * x * x * x * x
  {
    PowAdd(x, 4, 4);
    PowAdd(x, 2, 2);
    assert Pow(x, 2) == x * Pow(x, 1) && Pow(x, 1) == x * Pow(x, 0);
    MulAssoc(x * x, x, x);
    var f := x * x * x * x;
    MulAssoc(f, x * x, x * x);
    MulAssoc(f, x, x);
    MulAssoc(f * x * x, x, x);
  }

  /** b^(d+1) from w = b^d. */
  lemma NextPower(b: int, m: int, d: nat, w: int) returns (w': int)
    requires m > 0 && PowerIs(b, d, m, w)
    ensures w' == b * w % m && PowerIs(b, d + 1, m, w')
  {
    w' := b * w % m;
    CongruentMul(b, b, Pow(b, d), w, m);
    CongruentResidue(b * w, m);
  }

  /** The residues of b^0 to b^7. */
  lemma PowerTable(b: int, m: int) returns (w: seq<int>)
    requires m > 0
    ensures |w| == 8 && forall d :: 0 <= d < 8 ==> PowerIs(b, d, m, w[d])
    ensures w[0] == 1 % m && forall d :: 0 <= d < 7 ==> w[d + 1] == b * w[d] % m
  {
    CongruentResidue(1, m);
    w := [1 % m];
    for i := 0 to 7
      invariant |w| == i + 1 && forall d :: 0 <= d <= i ==> PowerIs(b, d, m, w[d])
      invariant w[0] == 1 % m && forall d :: 0 <= d < i ==> w[d + 1] == b * w[d] % m
    {
      var v := NextPower(b, m, i, w[i]);
      w := w + [v];
    }
  }

  lemma PowerSquared(b: int, e: nat, m: int, x: int, y: int)
    requires m > 0 && PowerIs(b, e, m, x) && x * x % m == y
    ensures PowerIs(b, 2 * e, m, y)
  {
    PowAdd(b, e, e);
    CongruentMul(Pow(b, e), x, Pow(b, e), x, m);
    CongruentResidue(x * x, m);
  }
}
