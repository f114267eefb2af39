/** The Ed25519 point-decompression test (section 5.1.3 of RFC 8032): recover an x for a
    compressed y by a Fermat inverse and a candidate square root, and decide whether one exists.
    The facts about the constants that the argument needs (Q is prime, 2 and D are not squares
    modulo Q) are established in FieldConstants. */
module Ed25519 {
  import opened Common
  import opened NumberTheory
  import opened FieldConstants

  /** `_inv`: the modular inverse by Fermat's little theorem. */
  function Inv(x: int): int
  {
    Pow(x, Q - 2) % Q
  }

  /** The square-root step of `_x_recover`: a candidate, its repair by I, and the final test. */
  function SquareRoot(xx: int): Option<int>
  {
    var x := Pow(xx, (Q + 3) / 8) % Q;
    var x' := if (x * x - xx) % Q != 0 then (x * I) % Q else x;
    if (x' * x' - xx) % Q != 0 then None else Some(x')
  }

  /** `_x_recover`. */
  function XRecover(y: int): Option<int>
  {
    SquareRoot(((y * y - 1) * Inv((D * y * y + 1) % Q)) % Q)
  }

  /** The twisted Edwards curve -x^2 + y^2 = 1 + d x^2 y^2 over the field of Q elements. */
  predicate OnCurve(x: int, y: int)
  {
    Congruent(y * y - x * x, 1 + D * (x * x) * (y * y), Q)
  }

  /** `int.from_bytes(b, "little")`. */
  function LittleEndian(b: seq<byte>): nat
  {
    if b == [] then 0 else b[0] + 256 * LittleEndian(b[1..])
  }

  /** 2^255, which is 19 more than the order. */
  const TWO255: nat := Q + 19

  /** `is_on_curve`: masking with 2^255 - 1 drops the sign bit. */
  function IsOnCurve(compressed: seq<byte>): Result<bool, string>
  {
    if |compressed| != 32 then Err("compressed point must be exactly 32 bytes")
    else
      var y := LittleEndian(compressed) % TWO255;
      Ok(y < Q && XRecover(y).Some?)
  }

  // ---------- the inverse ----------

  lemma InverseCorrect(a: int)
    requires !Divides(Q, a)
    ensures Congruent(a * Inv(a), 1, Q)
  {
    QIsPrime();
    Fermat(a, Q);
    var p := Pow(a, Q - 2);
    assert Pow(a, Q - 1) == a * p;
    CongruentResidue(p, Q);
    CongruentMul(a, a, Inv(a), p, Q);
  }

  // ---------- the square root ----------

  /** Whatever the step returns is a root; it is reduced modulo Q. */
  lemma SquareRootSound(xx: int)
    ensures SquareRoot(xx).Some? ==>
              var x := SquareRoot(xx).value; 0 <= x < Q && Congruent(x * x, xx, Q)
  {
    if SquareRoot(xx).Some? {
      var x := SquareRoot(xx).value;
      CongruentGap(x * x, xx, Q);
    }
  }

  /** The square of the candidate is xx times a fourth root of unity: xx * xx^((Q-1)/4). */
  lemma CandidateSquared(xx: int)
    ensures var x := Pow(xx, (Q + 3) / 8) % Q; Congruent(x * x, xx * Pow(xx, (Q - 1) / 4), Q)
  {
    Quarters(Q);
    var e: nat := (Q + 3) / 8;
    var p := Pow(xx, e);
    CongruentResidue(p, Q);
    CongruentMul(p % Q, p, p % Q, p, Q);
    PowAdd(xx, e, e);
    assert e + e == 1 + (Q - 1) / 4;
    assert Pow(xx, 1 + (Q - 1) / 4) == xx * Pow(xx, (Q - 1) / 4);
  }

  /** A root of t^2 = 1 is 1 or -1. */
  lemma RootOfUnity(t: int)
    requires Congruent(t * t, 1, Q)
    ensures Congruent(t, 1, Q) || Congruent(t, -1, Q)
  {
    QIsPrime();
    CongruentGap(t * t, 1, Q);
    assert t * t - 1 == (t - 1) * (t + 1);
    Euclid(t - 1, t + 1, Q);
    CongruentGap(t, 1, Q);
    CongruentGap(t, -1, Q);
  }

  /** For a nonzero square xx = z^2, xx^((Q-1)/4) is 1 or -1. */
  lemma QuarterPower(z: int, xx: int)
    requires Congruent(z * z, xx, Q) && !Divides(Q, z)
    ensures var t := Pow(xx, (Q - 1) / 4); Congruent(t, 1, Q) || Congruent(t, -1, Q)
  {
    hide Pow, Q;
    var e: nat := (Q - 1) / 4;
    var t, s := Pow(xx, e), Pow(z, e);
    CongruentPow(z * z, xx, e, Q);
    PowOfProduct(z, z, e);
    CongruentMul(s * s, t, s * s, t, Q);
    FourthPower(z, e);
    Quarters(Q);
    QIsPrime();
    Fermat(z, Q);
    RootOfUnity(t);
  }

  lemma FourthPower(z: int, e: nat)
    ensures var s := Pow(z, e); Pow(z, 4 * e) == s * s * (s * s)
  {
    hide Pow;
    PowAdd(z, e, e);
    PowAdd(z, e + e, e + e);
    assert e + e + (e + e) == 4 * e;
  }

  /** An order that is 5 modulo 8 has the quarters and eighths the exponents need. */
  lemma Quarters(q: int)
    requires q > 0 && q % 8 == 5
    ensures 4 * ((q - 1) / 4) == q - 1 && (q + 3) / 8 + (q + 3) / 8 == 1 + (q - 1) / 4
  {
  }

  lemma SquareOfZero(z: int, xx: int)
    requires Congruent(z * z, xx, Q) && Divides(Q, z)
    ensures Congruent(xx, 0, Q)
  {
    CongruentMul(z, 0, z, 0, Q);
  }

  /** Multiplying by I turns the square of the candidate into its negation. */
  lemma RepairedSquare(x: int)
    ensures var x' := (x * I) % Q; Congruent(x' * x', -(x * x), Q)
  {
    var w := x * I;
    CongruentResidue(w, Q);
    CongruentMul(w % Q, w, w % Q, w, Q);
    MulSwap(x, I, x, I);
    ISquared();
    CongruentMul(x * x, x * x, I * I, -1, Q);
    assert x * x * -1 == -(x * x);
  }

  /** The step finds a root whenever one exists. */
  lemma SquareRootComplete(xx: int, z: int)
    requires Congruent(z * z, xx, Q)
    ensures SquareRoot(xx).Some?
  {
    var x := Pow(xx, (Q + 3) / 8) % Q;
    var t := Pow(xx, (Q - 1) / 4);
    CandidateSquared(xx);
    CongruentGap(x * x, xx, Q);
    if Divides(Q, z) {
      SquareOfZero(z, xx);
      CongruentMul(xx, 0, t, t, Q);
    } else {
      QuarterPower(z, xx);
      if Congruent(t, 1, Q) {
        CongruentMul(xx, xx, t, 1, Q);
      } else {
        CongruentMul(xx, xx, t, -1, Q);
        RepairedSquare(x);
        var x' := (x * I) % Q;
        CongruentAdd(0, 0, x * x, -xx, Q);
        CongruentGap(x' * x', xx, Q);
      }
    }
  }

  // ---------- the curve equation ----------

  /** D*y^2 + 1 never vanishes, because -1 is a square and D is not. */
  lemma DenominatorNonzero(y: int)
    ensures !Divides(Q, D * y * y + 1)
  {
    if Divides(Q, D * y * y + 1) {
      MulAssoc(D, y, y);
      CongruentGap(D * (y * y), -1, Q);
      DTimesSquareNotMinusOne(y);
    }
  }

  /** x solves the curve equation exactly when x^2 is the quotient the code computes. */
  lemma CurveIsQuotient(x: int, y: int)
    ensures OnCurve(x, y) <==>
            Congruent(x * x, ((y * y - 1) * Inv((D * y * y + 1) % Q)) % Q, Q)
  {
    var n, d, s := y * y - 1, D * y * y + 1, x * x;
    var i := Inv(d % Q);
    DenominatorNonzero(y);
    CongruentResidue(d, Q);
    InverseCorrect(d % Q);
    CongruentMul(d % Q, d, i, i, Q);
    CongruentResidue(n * i, Q);
    CurveRearranged(s, y);
    if OnCurve(x, y) {
      CongruentMul(s * d, n, i, i, Q);
      CongruentMul(s, s, d * i, 1, Q);
      MulAssoc(s, d, i);
    }
    if Congruent(s, n * i, Q) {
      CongruentMul(s, n * i, d, d, Q);
      CongruentMul(n, n, d * i, 1, Q);
      assert n * i * d == n * (d * i) by { MulAssoc(n, i, d); }
      CurveRearranged(s, y);
    }
  }

  lemma CurveRearranged(s: int, y: int)
    ensures Congruent(y * y - s, 1 + D * s * (y * y), Q) <==>
            Congruent(s * (D * y * y + 1), y * y - 1, Q)
  {
    hide Pow, Q, D;
    var a, b := y * y - s, 1 + D * s * (y * y);
    var u, v := s * (D * y * y + 1), y * y - 1;
    assert u - v == b - a by {
      MulAssoc(D, y, y);
      MulAssoc(D, s, y * y);
      MulAssoc(s, D, y * y);
      assert s * (D * (y * y)) == D * (s * (y * y)) by { MulAssoc(s, D, y * y); MulAssoc(D, s, y * y); }
      assert u == s * (D * (y * y)) + s;
    }
    CongruentGap(a, b, Q);
    CongruentGap(b, a, Q);
    CongruentGap(u, v, Q);
  }

  /** Section 5.1.3 of RFC 8032: `_x_recover` returns a point of the curve when y has one,
      and None exactly when it has none. */
  lemma XRecoverDecides(y: int)
    ensures XRecover(y).Some? ==> 0 <= XRecover(y).value < Q && OnCurve(XRecover(y).value, y)
    ensures XRecover(y).None? <==> forall x :: !OnCurve(x, y)
  {
    var xx := ((y * y - 1) * Inv((D * y * y + 1) % Q)) % Q;
    SquareRootSound(xx);
    if XRecover(y).Some? {
      CurveIsQuotient(XRecover(y).value, y);
    }
    forall x | OnCurve(x, y)
      ensures XRecover(y).Some?
    {
      CurveIsQuotient(x, y);
      SquareRootComplete(xx, x);
    }
  }

  /** `is_on_curve` decides existence of a point for every byte string of length 32. */
  lemma IsOnCurveDecides(compressed: seq<byte>)
    ensures IsOnCurve(compressed).Ok? <==> |compressed| == 32
    ensures |compressed| == 32 ==>
              var y := LittleEndian(compressed) % TWO255;
              IsOnCurve(compressed).value <==> y < Q && exists x :: OnCurve(x, y)
  {
    if |compressed| == 32 {
      XRecoverDecides(LittleEndian(compressed) % TWO255);
    }
  }

  // ---------- the sign bit ----------

  /** What section 5.1.3 of RFC 8032 accepts: a point whose x has the parity of the sign bit. */
  ghost predicate Rfc8032Decodes(compressed: seq<byte>)
    requires |compressed| == 32
  {
    var sign, y := LittleEndian(compressed) / TWO255, LittleEndian(compressed) % TWO255;
    y < Q && exists x :: 0 <= x < Q && OnCurve(x, y) && x % 2 == sign
  }

  /** Byte i of the string is digit i of the number in base 256, the first byte lowest. */
  lemma {:induction false} LittleEndianByte(b: seq<byte>, i: nat)
    requires i < |b|
    ensures Pow(256, i) > 0 && LittleEndian(b) / Pow(256, i) % 256 == b[i]
  {
    var d: nat, t := b[0], LittleEndian(b[1..]);
    PowPositive(256, i);
    if i == 0 {
      LowDigit(d, 256, t);
    } else {
      PowPositive(256, i - 1);
      LittleEndianByte(b[1..], i - 1);
      ShiftDiv(d, 256, t, Pow(256, i - 1));
    }
  }

  /** The bytes of v, lowest first. */
  predicate BytesOf(b: seq<byte>, v: nat)
  {
    forall i :: 0 <= i < |b| ==> ByteOf(v, i) == b[i]
  }

  function ByteOf(v: nat, i: nat): nat
  {
    PowPositive(256, i);
    v / Pow(256, i) % 256
  }

  /** A number that fits is what its bytes read as, and nothing else is. */
  lemma {:induction false} LittleEndianExactly(b: seq<byte>, v: nat)
    requires v < Pow(256, |b|)
    ensures LittleEndian(b) == v <==> BytesOf(b, v)
  {
    if LittleEndian(b) == v {
      forall i | 0 <= i < |b|
        ensures ByteOf(v, i) == b[i]
      {
        LittleEndianByte(b, i);
      }
    }
    if BytesOf(b, v) && b != [] {
      var d, t := v % 256, v / 256;
      forall i | 0 <= i < |b[1..]|
        ensures ByteOf(t, i) == b[1..][i]
      {
        PowPositive(256, i);
        ShiftDiv(d, 256, t, Pow(256, i));
        assert ByteOf(v, i + 1) == b[i + 1];
      }
      assert ByteOf(v, 0) == b[0];
      LittleEndianExactly(b[1..], t);
    }
  }

  lemma TwoTo255()
    ensures TWO255 == Pow(2, 255) && 2 * TWO255 == Pow(256, 32)
  {
    QIsCertified();
    hide Pow;
    PowersOfTwo();
    PowMul(2, 8, 32);
    PowAdd(2, 1, 255);
    SmallPowers();
  }

  lemma SmallPowers()
    ensures Pow(2, 1) == 2 && Pow(2, 8) == 256
  {
  }

  /** `is_on_curve` on the little-endian encoding of a y below q and a sign bit: true exactly when some x
      completes y, whatever the sign; the RFC also wants the parity of x to be the sign. */
  lemma EncodedPoint(compressed: seq<byte>, y: nat, sign: nat)
    requires |compressed| == 32 && y < Q && sign <= 1 && BytesOf(compressed, y + sign * Pow(2, 255))
    ensures IsOnCurve(compressed).Ok? && (IsOnCurve(compressed).value <==> exists x :: OnCurve(x, y))
    ensures Rfc8032Decodes(compressed) <==> exists x :: 0 <= x < Q && OnCurve(x, y) && x % 2 == sign
    ensures SignedZero(compressed) <==> sign == 1 && (y == 1 || y == Q - 1)
  {
    hide Pow, OnCurve, Q;
    TwoTo255();
    var v := y + sign * Pow(2, 255);
    assert sign == 0 || sign == 1;
    assert Q < TWO255;
    assert v < Pow(256, 32);
    LittleEndianExactly(compressed, v);
    ModUnique(v, TWO255, sign, y);
    IsOnCurveDecides(compressed);
  }

  lemma LittleEndianBound(b: seq<byte>)
    ensures LittleEndian(b) < Pow(256, |b|)
  {
    if b != [] {
      LittleEndianBound(b[1..]);
    }
  }

  lemma SignBit(compressed: seq<byte>)
    requires |compressed| == 32
    ensures 0 <= LittleEndian(compressed) / TWO255 <= 1
  {
    hide Pow, Q, LittleEndian;
    LittleEndianBound(compressed);
    TwoTo255();
    AtMostOne(LittleEndian(compressed), TWO255);
  }

  lemma AtMostOne(v: nat, m: nat)
    requires v < 2 * m
    ensures m > 0 && 0 <= v / m <= 1
  {
    ModUnique(v, m, if v < m then 0 else 1, if v < m then v else v - m);
  }

  lemma Reflected(x: int, y: int)
    ensures OnCurve(Q - x, y) <==> OnCurve(x, y)
    ensures OnCurve(x % Q, y) <==> OnCurve(x, y)
  {
    var s, w := x * x, (Q - x) * (Q - x);
    assert w == s + Q * (Q - 2 * x);
    ModAddMultiple(s, Q - 2 * x, Q);
    CongruentResidue(x, Q);
    CongruentMul(x % Q, x, x % Q, x, Q);
    SameSquare(x, Q - x, y);
    SameSquare(x, x % Q, y);
  }

  lemma SameSquare(x: int, x': int, y: int)
    ensures Congruent(x' * x', x * x, Q) ==> (OnCurve(x', y) <==> OnCurve(x, y))
  {
    CurveIsQuotient(x, y);
    CurveIsQuotient(x', y);
  }

  /** x = 0 is the solution exactly when y is 1 or -1, and then it is the only one. */
  lemma ZeroPoint(x: int, y: int)
    requires 0 <= x < Q && 0 <= y < Q
    ensures OnCurve(x, y) ==> (x == 0 <==> y == 1 || y == Q - 1)
  {
    hide OnCurve;
    ZeroHasUnitY(y);
    if y == 1 || y == Q - 1 {
      UnitYHasZero(x, y);
    }
  }

  lemma ZeroHasUnitY(y: int)
    requires 0 <= y < Q
    ensures OnCurve(0, y) ==> y == 1 || y == Q - 1
  {
    hide D;
    CurveRearranged(0 * 0, y);
    if OnCurve(0, y) {
      assert 0 * 0 * (D * y * y + 1) == 0;
      CongruentGap(y * y, 1, Q);
      CongruentGap(0, y * y - 1, Q);
      RootOfUnity(y);
      ModUnique(y, Q, 0, y);
      ModUnique(1, Q, 0, 1);
      ModUnique(-1, Q, -1, Q - 1);
    }
  }

  lemma UnitYHasZero(x: int, y: int)
    requires 0 <= x < Q && (y == 1 || y == Q - 1)
    ensures OnCurve(x, y) ==> x == 0
  {
    hide D;
    var d := D * y * y + 1;
    UnitSquare(y);
    CurveRearranged(x * x, y);
    if OnCurve(x, y) {
      hide OnCurve;
      CongruentGap(x * x * d, y * y - 1, Q);
      DividesSum(x * x * d, y * y - 1, Q);
      DenominatorNonzero(y);
      QIsPrime();
      Euclid(x * x, d, Q);
      Euclid(x, x, Q);
      ModUnique(x, Q, 0, x);
    }
  }

  lemma UnitSquare(y: int)
    requires y == 1 || y == Q - 1
    ensures Divides(Q, y * y - 1)
  {
    hide Pow, Q;
    UnitSquareModulo(Q, y);
  }

  lemma UnitSquareModulo(q: int, y: int)
    requires q > 0 && (y == 1 || y == q - 1)
    ensures Divides(q, y * y - 1)
  {
    if y == 1 {
      MultipleIsZero(0, q);
    } else {
      assert y * y - 1 == q * (q - 2);
      MultipleIsZero(q - 2, q);
    }
  }

  lemma DividesSum(a: int, b: int, m: int)
    requires m > 0 && Congruent(a, b, m) && Divides(m, b)
    ensures Divides(m, a)
  {
  }

  /** An encoding of y = 1 or y = -1 with the sign bit set. */
  predicate SignedZero(compressed: seq<byte>)
  {
    var sign, y := LittleEndian(compressed) / TWO255, LittleEndian(compressed) % TWO255;
    sign == 1 && (y == 1 || y == Q - 1)
  }

  /** The RFC accepts what the code accepts, less those. */
  lemma RfcIsStricter(compressed: seq<byte>)
    requires |compressed| == 32
    ensures Rfc8032Decodes(compressed) <==> IsOnCurve(compressed).value && !SignedZero(compressed)
  {
    SignBit(compressed);
    IsOnCurveDecides(compressed);
    ParityChoice(LittleEndian(compressed) / TWO255, LittleEndian(compressed) % TWO255);
  }

  /** The code and the RFC differ on exactly the encodings of y = 1 and y = -1 with the
      sign bit set: the code masks the bit and accepts, the RFC rejects x = 0 with sign 1. */
  lemma DiffersFromRfcExactly(compressed: seq<byte>)
    requires |compressed| == 32
    ensures (Rfc8032Decodes(compressed) <==> IsOnCurve(compressed).value) <==> !SignedZero(compressed)
    ensures SignedZero(compressed) ==> IsOnCurve(compressed).value
  {
    RfcIsStricter(compressed);
    IsOnCurveDecides(compressed);
    ZeroIsOnCurve();
  }

  lemma ZeroIsOnCurve()
    ensures OnCurve(0, 1) && OnCurve(0, Q - 1)
  {
    hide D;
    CurveRearranged(0 * 0, 1);
    CurveRearranged(0 * 0, Q - 1);
    UnitSquare(1);
    UnitSquare(Q - 1);
  }

  lemma ParityChoice(sign: int, y: int)
    requires 0 <= sign <= 1 && 0 <= y
    ensures (y < Q && exists x :: 0 <= x < Q && OnCurve(x, y) && x % 2 == sign) <==>
            (y < Q && exists x :: OnCurve(x, y)) && !(sign == 1 && (y == 1 || y == Q - 1))
  {
    hide OnCurve;
    if x :| y < Q && OnCurve(x, y) && !(sign == 1 && (y == 1 || y == Q - 1)) {
      var r := x % Q;
      Reflected(x, y);
      Reflected(r, y);
      ZeroPoint(r, y);
      OtherParity(r, Q);
      var x' := if r % 2 == sign then r else Q - r;
      assert 0 <= x' < Q && OnCurve(x', y) && x' % 2 == sign;
    }
    if x :| y < Q && 0 <= x < Q && OnCurve(x, y) && x % 2 == sign {
      ZeroPoint(x, y);
    }
  }

  lemma OtherParity(r: int, q: int)
    requires q % 2 == 1
    ensures (q - r) % 2 == 1 - r % 2
  {
  }
}
