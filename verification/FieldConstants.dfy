/** The constants of the Ed25519 field and the three facts about them that point decompression
    relies on, each derived from the certified powers. */
module FieldConstants {
  import opened NumberTheory
  import Primality
  import Certificate = PrimeCertificate

  /** What the arguments use of the field's order besides its primality. */
  type FieldOrder = q: int | q > 1000000 && q % 8 == 5 witness 1000005

  const BITS: nat := 255

  // `_Q`, `_D` and `_I`, as the module computes them
  const Q: FieldOrder := (QShape(); Pow(2, BITS) - 19)
  const D: int := (-121665 * (Pow(121666, Q - 2) % Q)) % Q
  const I: int := Pow(2, (Q - 1) / 4) % Q

  lemma QShape()
    ensures Pow(2, BITS) - 19 == Certificate.Q && Certificate.Q > 1000000 && Certificate.Q % 8 == 5
  {
    hide Pow;
    PowersOfTwo();
  }

  lemma OddPower(k: nat)
    ensures Pow(2, 2 * k + 1) == 2 * (Pow(2, k) * Pow(2, k))
  {
    PowAdd(2, k, k);
    assert 2 * k + 1 == 1 + (k + k) && Pow(2, 1 + (k + k)) == 2 * Pow(2, k + k);
  }

  lemma PowersOfTwo()
    ensures Pow(2, 255) == 0x8000000000000000000000000000000000000000000000000000000000000000
  {
    assert Pow(2, 3) == 8;
    hide Pow;
    OddPower(3);
    OddPower(7);
    OddPower(15);
    OddPower(31);
    OddPower(63);
    OddPower(127);
  }

  /** Q is the number the certificate is about. */
  lemma QIsCertified()
    ensures Q == Certificate.Q
  {
    hide Pow;
    QShape();
  }

  lemma QIsPrime()
    ensures IsPrime(Q)
  {
    QIsCertified();
    Certificate.QIsPrime();
  }

  /** `_I` is a square root of -1. */
  lemma ISquared()
    ensures Congruent(I * I, -1, Q)
  {
    hide Pow;
    var e: nat := (Q - 1) / 4;
    var p := Pow(2, e);
    CongruentResidue(p, Q);
    CongruentMul(I, p, I, p, Q);
    PowAdd(2, e, e);
    assert e + e == (Q - 1) / 2;
    TwoIsNotASquare();
  }

  /** Euler's criterion for 2 and for D: both have (Q-1)/2-th power -1. */
  lemma TwoIsNotASquare()
    ensures Congruent(Pow(2, (Q - 1) / 2), -1, Q)
  {
    hide Pow;
    QIsCertified();
    Certificate.PowerOfQHalf();
    ModUnique(-1, Q, -1, Q - 1);
  }

  lemma CurveConstantPower()
    ensures Congruent(Pow(Certificate.CURVE, (Q - 1) / 2), -1, Q)
  {
    hide Pow;
    QIsCertified();
    Certificate.PowerOfCurveHalf();
    ModUnique(-1, Q, -1, Q - 1);
  }

  /** D is the quotient -121665/121666 in the field, whose residue the certificate uses. */
  lemma DIsTheCurveConstant()
    ensures Congruent(D, Certificate.CURVE, Q)
  {
    hide Pow;
    var i := Pow(121666, Q - 2);
    ModUnique(121666, Q, 0, 121666);
    QIsPrime();
    FermatInverse(121666, i);
    CongruentResidue(i, Q);
    CongruentResidue(-121665 * (i % Q), Q);
    CongruentMul(-121665, -121665, i % Q, i, Q);
    assert Congruent(D, -121665 * i, Q);
    QuotientIsUnique(i);
  }

  lemma QuotientIsUnique(i: int)
    requires IsPrime(Q) && Congruent(121666 * i, 1, Q) && Congruent(D, -121665 * i, Q)
    ensures Congruent(D, Certificate.CURVE, Q)
  {
    hide Pow, D, Q, Certificate.CURVE;
    CurveQuotient();
    QuotientUnique(Q, 121666, 121665, i, D, Certificate.CURVE);
  }

  lemma CurveQuotient()
    ensures Congruent(Certificate.CURVE * 121666, -121665, Q) && 121666 < Q
  {
    hide D;
    QIsCertified();
    ModUnique(Certificate.CURVE * 121666 + 121665, Q, 77955, 0);
    GapIsCongruent(Certificate.CURVE * 121666, 121665, Q);
  }

  lemma GapIsCongruent(a: int, b: int, m: int)
    requires m > 0 && (a + b) % m == 0
    ensures Congruent(a, -b, m)
  {
    CongruentGap(a, -b, m);
    assert a - -b == a + b;
  }

  /** Modulo a prime above m, both -n * i with i the inverse of m and any c with c * m = -n are one residue. */
  lemma QuotientUnique(q: int, m: int, n: int, i: int, d: int, c: int)
    requires IsPrime(q) && 0 < m < q
    requires Congruent(m * i, 1, q) && Congruent(d, -n * i, q) && Congruent(c * m, -n, q)
    ensures Congruent(d, c, q)
  {
    CongruentScale(d, -n * i, m, q);
    CongruentScale(m * i, 1, -n, q);
    assert m * i * -n == -n * i * m;
    CongruentGap(d * m, c * m, q);
    assert d * m - c * m == (d - c) * m;
    Euclid(d - c, m, q);
    ModUnique(m, q, 0, m);
    CongruentGap(d, c, q);
  }

  lemma FermatInverse(a: int, i: int)
    requires IsPrime(Q) && !Divides(Q, a) && i == Pow(a, Q - 2)
    ensures Congruent(a * i, 1, Q)
  {
    Fermat(a, Q);
    assert Pow(a, Q - 1) == a * Pow(a, Q - 2);
  }

  lemma {:induction false} EvenPowerOfMinusOne(h: nat)
    ensures Pow(-1, h + h) == 1
  {
    PowMul(-1, 2, h);
    assert 2 * h == h + h;
    assert Pow(-1, 2) == -1 * Pow(-1, 1) && Pow(-1, 1) == -1 * Pow(-1, 0);
    PowOfOne(h);
  }

  /** D times a square is never -1: otherwise D would satisfy Euler's criterion. */
  lemma DTimesSquareNotMinusOne(y: int)
    ensures !Congruent(D * (y * y), -1, Q)
  {
    hide Pow;
    if Congruent(D * (y * y), -1, Q) {
      ModUnique(-1, Q, -1, Q - 1);
      if Divides(Q, y) {
        CongruentMul(y, 0, y, 0, Q);
        CongruentMul(D, D, y * y, 0, Q);
        assert false;
      }
      EulerContradiction(y);
    }
  }

  lemma EulerContradiction(y: int)
    requires !Divides(Q, y)
    ensures !Congruent(D * (y * y), -1, Q)
  {
    hide Pow;
    if Congruent(D * (y * y), -1, Q) {
      var h: nat := (Q - 1) / 2;
      CongruentPow(D * (y * y), -1, h, Q);
      EvenPowerOfMinusOne(h / 2);
      assert h / 2 + h / 2 == h && h + h == Q - 1;
      PowOfProduct(D, y * y, h);
      PowOfProduct(y, y, h);
      PowAdd(y, h, h);
      QIsPrime();
      Fermat(y, Q);
      var a := Pow(D, h);
      CongruentMul(a, a, Pow(y * y, h), 1, Q);
      DIsTheCurveConstant();
      CongruentPow(D, Certificate.CURVE, h, Q);
      CurveConstantPower();
      ModUnique(-1, Q, -1, Q - 1);
      ModUnique(1, Q, 0, 1);
    }
  }
}
