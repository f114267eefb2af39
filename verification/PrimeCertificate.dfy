/** A certificate that the field order Q = 2^255 - 19 is prime: a descending chain of
    Pocklington witnesses Q <- P <- R <- S <- T <- U <- 11, each power checked one octal digit
    at a time, and the Euler criterion values of 2 and of the curve constant. The literals are
    witnesses only; every one of them is checked. */
module PrimeCertificate {
  import opened NumberTheory
  import opened Primality

  const Q: int := 0x7fffffffffffffffffffffffffffffffffffffffffffffffffffffffffffffed
  const P: int := 0xabaf8c6b094fd0f32c2ccabab864dbecd99144679c1adf804898fb2042b
  const R: int := 0xe87c2a477b815a1793787395b23e1
  const S: int := 0x6d1cafa129d0b
  const T: int := 0x82d4b5
  const U: int := 991
  // the curve constant -121665/121666 modulo Q
  const CURVE: int := 0x52036cee2b6ffe738cc740797779e89800700a4d4141d8ab75eb4dca135978a3

  lemma SmallPrimes()
    ensures IsPrime(5) && IsPrime(11)
  {
    assert 5 % 2 == 1 && 5 % 3 == 2 && 5 % 4 == 1;
    assert 11 % 2 == 1 && 11 % 3 == 2 && 11 % 4 == 3 && 11 % 5 == 1 && 11 % 6 == 5;
    assert 11 % 7 == 4 && 11 % 8 == 3 && 11 % 9 == 2 && 11 % 10 == 1;
  }

  lemma PowerOfU()
    ensures PowerIs(2, 990, U, 1)
  {
    hide Pow, PowerIs, Congruent, Divides, IsPrime;
    var w := PowerTable(2, U);
    assert w[0] == 1;
    assert w[1] == 2;
    assert w[2] == 4;
    assert w[3] == 8;
    assert w[4] == 16;
    assert w[5] == 32;
    assert w[6] == 64;
    assert w[7] == 128;
    var e: nat, x: int, y: int := 0, 1, 2;
    e := PowerDigit(2, U, e, x, 1, w[1], y);
    x, y := y, 65; e := PowerDigit(2, U, e, x, 7, w[7], y);
    x, y := y, 345; e := PowerDigit(2, U, e, x, 3, w[3], y);
    x, y := y, 1; e := PowerDigit(2, U, e, x, 6, w[6], y);
  }

  lemma PowerOfUCofactor()
    ensures PowerIs(2, 90, U, 50)
  {
    hide Pow, PowerIs, Congruent, Divides, IsPrime;
    var w := PowerTable(2, U);
    assert w[0] == 1;
    assert w[1] == 2;
    assert w[2] == 4;
    assert w[3] == 8;
    var e: nat, x: int, y: int := 0, 1, 2;
    e := PowerDigit(2, U, e, x, 1, w[1], y);
    x, y := y, 66; e := PowerDigit(2, U, e, x, 3, w[3], y);
    x, y := y, 50; e := PowerDigit(2, U, e, x, 2, w[2], y);
  }

  lemma UTrial(d: int)
    requires 1 < d < 32 && Divides(11, d - 1)
    ensures !Divides(d, U)
  {
    var t := (d - 1) / 11;
    assert d == 1 + 11 * t;
    if t == 1 { assert U % 12 == 7; }
    if t == 2 { assert U % 23 == 2; }
  }

  lemma UIsPrime()
    ensures IsPrime(U)
  {
    hide Pow, PowerIs, Congruent, Divides, IsPrime;
    PowerOfU();
    PowerOfUCofactor();
    SmallPrimes();
    CertifyFactor(U, 11, 90, 2, 50, 809);
    forall d | 1 < d < 32 && Divides(11, d - 1)
      ensures !Divides(d, U)
    {
      UTrial(d);
    }
    PrimeByFactors(U, 11, 32);
  }

  lemma PowerOfT()
    ensures PowerIs(2, 0x82d4b4, T, 1)
  {
    hide Pow, PowerIs, Congruent, Divides, IsPrime;
    var w := PowerTable(2, T);
    assert w[0] == 1;
    assert w[1] == 2;
    assert w[2] == 4;
    assert w[3] == 8;
    assert w[4] == 16;
    assert w[5] == 32;
    assert w[6] == 64;
    var e: nat, x: int, y: int := 0, 1, 16;
    e := PowerDigit(2, T, e, x, 4, w[4], y);
    x, y := y, 0x788e7c; e := PowerDigit(2, T, e, x, 0, w[0], y);
    x, y := y, 168787; e := PowerDigit(2, T, e, x, 5, w[5], y);
    x, y := y, 0x52cdb8; e := PowerDigit(2, T, e, x, 5, w[5], y);
    x, y := y, 0x1a3c4f; e := PowerDigit(2, T, e, x, 2, w[2], y);
    x, y := y, 0x1bca4e; e := PowerDigit(2, T, e, x, 2, w[2], y);
    x, y := y, 0x533d11; e := PowerDigit(2, T, e, x, 6, w[6], y);
    x, y := y, 1; e := PowerDigit(2, T, e, x, 4, w[4], y);
  }

  lemma PowerOfTCofactor()
    ensures PowerIs(2, 8652, T, 0x346cd1)
  {
    hide Pow, PowerIs, Congruent, Divides, IsPrime;
    var w := PowerTable(2, T);
    assert w[0] == 1;
    assert w[1] == 2;
    assert w[2] == 4;
    assert w[3] == 8;
    assert w[4] == 16;
    assert w[5] == 32;
    assert w[6] == 64;
    assert w[7] == 128;
    var e: nat, x: int, y: int := 0, 1, 4;
    e := PowerDigit(2, T, e, x, 2, w[2], y);
    x, y := y, 65536; e := PowerDigit(2, T, e, x, 0, w[0], y);
    x, y := y, 430341; e := PowerDigit(2, T, e, x, 7, w[7], y);
    x, y := y, 0x1e917b; e := PowerDigit(2, T, e, x, 1, w[1], y);
    x, y := y, 0x346cd1; e := PowerDigit(2, T, e, x, 4, w[4], y);
  }

  lemma TTrial(d: int)
    requires 1 < d < 2929 && Divides(991, d - 1)
    ensures !Divides(d, T)
  {
    var t := (d - 1) / 991;
    assert d == 1 + 991 * t;
    if t == 1 { assert T % 992 == 277; }
    if t == 2 { assert T % 1983 == 1624; }
  }

  lemma TIsPrime()
    ensures IsPrime(T)
  {
    hide Pow, PowerIs, Congruent, Divides, IsPrime;
    PowerOfT();
    PowerOfTCofactor();
    UIsPrime();
    CertifyFactor(T, U, 8652, 2, 0x346cd1, 0xf79eb);
    forall d | 1 < d < 2929 && Divides(U, d - 1)
      ensures !Divides(d, T)
    {
      TTrial(d);
    }
    PrimeByFactors(T, U, 2929);
  }

  lemma PowerOfS()
    ensures PowerIs(2, 0x6d1cafa129d0a, S, 1)
  {
    hide Pow, PowerIs, Congruent, Divides, IsPrime;
    var w := PowerTable(2, S);
    assert w[0] == 1;
    assert w[1] == 2;
    assert w[2] == 4;
    assert w[3] == 8;
    assert w[4] == 16;
    assert w[5] == 32;
    assert w[6] == 64;
    assert w[7] == 128;
    var e: nat, x: int, y: int := 0, 1, 64;
    e := PowerDigit(2, S, e, x, 6, w[6], y);
    x, y := y, 0x29fdd35587a9d; e := PowerDigit(2, S, e, x, 6, w[6], y);
    x, y := y, 0x6b0a0954e7b6e; e := PowerDigit(2, S, e, x, 4, w[4], y);
    x, y := y, 0x37e0f607e7f94; e := PowerDigit(2, S, e, x, 3, w[3], y);
    x, y := y, 0x8d138ebee13d; e := PowerDigit(2, S, e, x, 4, w[4], y);
    x, y := y, 0x468400872000b; e := PowerDigit(2, S, e, x, 5, w[5], y);
    x, y := y, 0x4630268a12c4f; e := PowerDigit(2, S, e, x, 3, w[3], y);
    x, y := y, 0x1223cbf886e1e; e := PowerDigit(2, S, e, x, 7, w[7], y);
    x, y := y, 0x4938d0da891e2; e := PowerDigit(2, S, e, x, 2, w[2], y);
    x, y := y, 0x5d349af453cb; e := PowerDigit(2, S, e, x, 0, w[0], y);
    x, y := y, 0x4a2d12b335b6c; e := PowerDigit(2, S, e, x, 4, w[4], y);
    x, y := y, 0x4b0e49a3b7d9f; e := PowerDigit(2, S, e, x, 5, w[5], y);
    x, y := y, 0x52dd302e14596; e := PowerDigit(2, S, e, x, 1, w[1], y);
    x, y := y, 0x33f45d6c97d75; e := PowerDigit(2, S, e, x, 6, w[6], y);
    x, y := y, 0x395bbb7e480be; e := PowerDigit(2, S, e, x, 4, w[4], y);
    x, y := y, 0x242c583969aab; e := PowerDigit(2, S, e, x, 1, w[1], y);
    x, y := y, 1; e := PowerDigit(2, S, e, x, 2, w[2], y);
  }

  lemma PowerOfSCofactor()
    ensures PowerIs(2, 0xd580922, S, 0x3c3ffdef7c0b1)
  {
    hide Pow, PowerIs, Congruent, Divides, IsPrime;
    var w := PowerTable(2, S);
    assert w[0] == 1;
    assert w[1] == 2;
    assert w[2] == 4;
    assert w[3] == 8;
    assert w[4] == 16;
    assert w[5] == 32;
    assert w[6] == 64;
    var e: nat, x: int, y: int := 0, 1, 2;
    e := PowerDigit(2, S, e, x, 1, w[1], y);
    x, y := y, 8192; e := PowerDigit(2, S, e, x, 5, w[5], y);
    x, y := y, 0x3bb9bdc82f6e4; e := PowerDigit(2, S, e, x, 2, w[2], y);
    x, y := y, 0x404d9a606b02c; e := PowerDigit(2, S, e, x, 6, w[6], y);
    x, y := y, 0x42d8f2a2ec64a; e := PowerDigit(2, S, e, x, 0, w[0], y);
    x, y := y, 0x4eb4d9d00b27c; e := PowerDigit(2, S, e, x, 0, w[0], y);
    x, y := y, 0x5772cd6bce94b; e := PowerDigit(2, S, e, x, 4, w[4], y);
    x, y := y, 0xfeb816ba61af; e := PowerDigit(2, S, e, x, 4, w[4], y);
    x, y := y, 0x38f03576a55f7; e := PowerDigit(2, S, e, x, 4, w[4], y);
    x, y := y, 0x3c3ffdef7c0b1; e := PowerDigit(2, S, e, x, 2, w[2], y);
  }

  lemma STrial(d: int)
    requires 1 < d < 0x29c85e3 && Divides(0x82d4b5, d - 1)
    ensures !Divides(d, S)
  {
    var t := (d - 1) / 0x82d4b5;
    assert d == 1 + 0x82d4b5 * t;
    if t == 1 { assert S % 0x82d4b6 == 0x746611; }
    if t == 2 { assert S % 0x105a96b == 0x7b9d5d; }
    if t == 3 { assert S % 0x1887e20 == 0x26ccab; }
    if t == 4 { assert S % 0x20b52d5 == 0x1c64ccd; }
    if t == 5 { assert S % 0x28e278a == 0x1ee4559; }
  }

  lemma SIsPrime()
    ensures IsPrime(S)
  {
    hide Pow, PowerIs, Congruent, Divides, IsPrime;
    PowerOfS();
    PowerOfSCofactor();
    TIsPrime();
    CertifyFactor(S, T, 0xd580922, 2, 0x3c3ffdef7c0b1, 0x495bef080ea35);
    forall d | 1 < d < 0x29c85e3 && Divides(T, d - 1)
      ensures !Divides(d, S)
    {
      STrial(d);
    }
    PrimeByFactors(S, T, 0x29c85e3);
  }

  lemma PowerOfR0()
    ensures PowerIs(2, 0x1d0f8548ef702b42f, R, 0x78dd6af4c45be8f58894fe4963307)
  {
    hide Pow, PowerIs, Congruent, Divides, IsPrime;
    var w := PowerTable(2, R);
    assert w[0] == 1;
    assert w[1] == 2;
    assert w[2] == 4;
    assert w[3] == 8;
    assert w[4] == 16;
    assert w[5] == 32;
    assert w[6] == 64;
    assert w[7] == 128;
    var e: nat, x: int, y: int := 0, 1, 8;
    e := PowerDigit(2, R, e, x, 3, w[3], y);
    x, y := y, 0x20000000; e := PowerDigit(2, R, e, x, 5, w[5], y);
    x, y := y, 0x43d23144337fac8e78ce6b5d7963e; e := PowerDigit(2, R, e, x, 0, w[0], y);
    x, y := y, 0xb4c116eb467a32aa5604f28ce468; e := PowerDigit(2, R, e, x, 3, w[3], y);
    x, y := y, 0x580df7aa761ad950fbd2e062a0997; e := PowerDigit(2, R, e, x, 7, w[7], y);
    x, y := y, 0x8b9fb9e1de26fa8c66ec89a4d9dab; e := PowerDigit(2, R, e, x, 0, w[0], y);
    x, y := y, 0x32155c7583c4648a4dc37fac6d68f; e := PowerDigit(2, R, e, x, 2, w[2], y);
    x, y := y, 0x1b5c247859c8fb3aa7079b467e402; e := PowerDigit(2, R, e, x, 5, w[5], y);
    x, y := y, 0x1ed4b0ae4ded911562df02473e9c7; e := PowerDigit(2, R, e, x, 1, w[1], y);
    x, y := y, 0x1b7acad60cc98ac86ed0898f859f5; e := PowerDigit(2, R, e, x, 0, w[0], y);
    x, y := y, 0x8d9f235dd765a4c762be121a67129; e := PowerDigit(2, R, e, x, 7, w[7], y);
    x, y := y, 0xc0d67e4e65029ec40230326fe4389; e := PowerDigit(2, R, e, x, 3, w[3], y);
    x, y := y, 0x7eb47565b60472aa29b86ea1e37b9; e := PowerDigit(2, R, e, x, 6, w[6], y);
    x, y := y, 0x6ff3aae136254c545d4fd0c877a41; e := PowerDigit(2, R, e, x, 7, w[7], y);
    x, y := y, 0x3820cf908b1e082ce9669bb0d9269; e := PowerDigit(2, R, e, x, 0, w[0], y);
    x, y := y, 0x5f9aeb92469b4491c7f9ffe28adc7; e := PowerDigit(2, R, e, x, 0, w[0], y);
    x, y := y, 0x796c0be82fc03c2e6d426e67d3686; e := PowerDigit(2, R, e, x, 5, w[5], y);
    x, y := y, 0x9ccc56d507a8c867340cad18a3ed3; e := PowerDigit(2, R, e, x, 3, w[3], y);
    x, y := y, 0x9fe38170fcfcf1a4bc61787c310b3; e := PowerDigit(2, R, e, x, 2, w[2], y);
    x, y := y, 0x27ca24f028e8a733934a3b83b4c47; e := PowerDigit(2, R, e, x, 0, w[0], y);
    x, y := y, 0xc4fb20d734cef264a458b1d6b2739; e := PowerDigit(2, R, e, x, 5, w[5], y);
    x, y := y, 0x78dd6af4c45be8f58894fe4963307; e := PowerDigit(2, R, e, x, 7, w[7], y);
  }

  lemma PowerOfR()
    ensures PowerIs(2, 0xe87c2a477b815a1793787395b23e0, R, 1)
  {
    hide Pow, PowerIs, Congruent, Divides, IsPrime;
    var w := PowerTable(2, R);
    assert w[0] == 1;
    assert w[1] == 2;
    assert w[2] == 4;
    assert w[3] == 8;
    assert w[4] == 16;
    assert w[5] == 32;
    assert w[6] == 64;
    assert w[7] == 128;
    PowerOfR0();
    var e: nat, x: int, y: int := 0x1d0f8548ef702b42f, 0x78dd6af4c45be8f58894fe4963307, 0xe438e2afa6634a4072d7558321a2f;
    e := PowerDigit(2, R, e, x, 1, w[1], y);
    x, y := y, 0x1f564027b99a255ec4bea158cd16c; e := PowerDigit(2, R, e, x, 1, w[1], y);
    x, y := y, 0x84b47125c5c2a2433f622103febc6; e := PowerDigit(2, R, e, x, 5, w[5], y);
    x, y := y, 0x601a1fdc61ee5fc6950f2dd991fe0; e := PowerDigit(2, R, e, x, 7, w[7], y);
    x, y := y, 0x4363b1db3b7e2b991cd350c32998a; e := PowerDigit(2, R, e, x, 0, w[0], y);
    x, y := y, 0xdbf1ba305b1e1ced973b90bbf6b48; e := PowerDigit(2, R, e, x, 3, w[3], y);
    x, y := y, 0xd859ac1eb75e5812cf841d5384151; e := PowerDigit(2, R, e, x, 4, w[4], y);
    x, y := y, 0xc803ffd094a70bbd30b23840e10c7; e := PowerDigit(2, R, e, x, 7, w[7], y);
    x, y := y, 0x974304a17238fa2298925c8f365dc; e := PowerDigit(2, R, e, x, 1, w[1], y);
    x, y := y, 0xcfb49d9c5c1b9661d431fd873add8; e := PowerDigit(2, R, e, x, 2, w[2], y);
    x, y := y, 0x915c506193df9ae539a47c0f499d0; e := PowerDigit(2, R, e, x, 6, w[6], y);
    x, y := y, 0x20371a2a4651850cda6d5b218c271; e := PowerDigit(2, R, e, x, 6, w[6], y);
    x, y := y, 0x5591710bd8abd44b8633f13de7d97; e := PowerDigit(2, R, e, x, 2, w[2], y);
    x, y := y, 0x9211efcc703ef840caea6bd2729fe; e := PowerDigit(2, R, e, x, 1, w[1], y);
    x, y := y, 0xcbf575a5ed4b0585efc9fc232fec9; e := PowerDigit(2, R, e, x, 7, w[7], y);
    x, y := y, 0xe87c2a477b815a1793787395b23e0; e := PowerDigit(2, R, e, x, 4, w[4], y);
    x, y := y, 1; e := PowerDigit(2, R, e, x, 0, w[0], y);
  }

  lemma PowerOfRCofactor0()
    ensures PowerIs(2, 0x2217588b6b4f717a0, R, 0xaedd80ab27e8de3ca5f2fb22d5403)
  {
    hide Pow, PowerIs, Congruent, Divides, IsPrime;
    var w := PowerTable(2, R);
    assert w[0] == 1;
    assert w[1] == 2;
    assert w[2] == 4;
    assert w[3] == 8;
    assert w[4] == 16;
    assert w[5] == 32;
    assert w[6] == 64;
    assert w[7] == 128;
    var e: nat, x: int, y: int := 0, 1, 16;
    e := PowerDigit(2, R, e, x, 4, w[4], y);
    x, y := y, 0x400000000; e := PowerDigit(2, R, e, x, 2, w[2], y);
    x, y := y, 0x17dbb00000; e := PowerDigit(2, R, e, x, 0, w[0], y);
    x, y := y, 0xa868cd4e3f37a9c111b58cd538fa6; e := PowerDigit(2, R, e, x, 5, w[5], y);
    x, y := y, 0xda7fef63e9d7012b44eb0b43a967b; e := PowerDigit(2, R, e, x, 6, w[6], y);
    x, y := y, 0xc5a158f0a198c844e78c5278e7e52; e := PowerDigit(2, R, e, x, 5, w[5], y);
    x, y := y, 0xa408a65f29ca1e95758135af3e099; e := PowerDigit(2, R, e, x, 4, w[4], y);
    x, y := y, 0x70393e8f73104ca3641dc4c0d9ecf; e := PowerDigit(2, R, e, x, 2, w[2], y);
    x, y := y, 0xbf86be0836a3f23e7b5aaf7dd85db; e := PowerDigit(2, R, e, x, 1, w[1], y);
    x, y := y, 0x28070f0ce68ad04dceeba5b7628b1; e := PowerDigit(2, R, e, x, 3, w[3], y);
    x, y := y, 0x71fe4636598a26698c235a47f93c1; e := PowerDigit(2, R, e, x, 3, w[3], y);
    x, y := y, 0x9655fe00e0ab5d432b07544c38a1e; e := PowerDigit(2, R, e, x, 2, w[2], y);
    x, y := y, 0x491c3082d7b3a52763f0c34935a32; e := PowerDigit(2, R, e, x, 6, w[6], y);
    x, y := y, 0xb2575d2efa93bf6464d7cad7b9ef9; e := PowerDigit(2, R, e, x, 4, w[4], y);
    x, y := y, 0x2896afd472c9e7936a6c2e22acc48; e := PowerDigit(2, R, e, x, 7, w[7], y);
    x, y := y, 0x77cd05566e32877c6fb20cfb413b0; e := PowerDigit(2, R, e, x, 5, w[5], y);
    x, y := y, 0xa31574edd1a0be7dedc6b54c7372d; e := PowerDigit(2, R, e, x, 6, w[6], y);
    x, y := y, 0x3a599df33217093dc572ca5aab5a7; e := PowerDigit(2, R, e, x, 1, w[1], y);
    x, y := y, 0x142094c51b5dbc59a5329d5e22371; e := PowerDigit(2, R, e, x, 3, w[3], y);
    x, y := y, 0x5d1f3bbb944c1e87f26a0cc7e9fb; e := PowerDigit(2, R, e, x, 6, w[6], y);
    x, y := y, 0x4e306d573a851f226efe4f75ae6ec; e := PowerDigit(2, R, e, x, 4, w[4], y);
    x, y := y, 0xaedd80ab27e8de3ca5f2fb22d5403; e := PowerDigit(2, R, e, x, 0, w[0], y);
  }

  lemma PowerOfRCofactor10()
    ensures PowerIs(2, 0x2e7f3ba7e5804537e, R, 0x9bd365671a7039f6371e41efcf7ff)
  {
    hide Pow, PowerIs, Congruent, Divides, IsPrime;
    var w := PowerTable(2, R);
    assert w[0] == 1;
    assert w[1] == 2;
    assert w[2] == 4;
    assert w[3] == 8;
    assert w[4] == 16;
    assert w[5] == 32;
    assert w[6] == 64;
    assert w[7] == 128;
    var e: nat, x: int, y: int := 0, 1, 32;
    e := PowerDigit(2, R, e, x, 5, w[5], y);
    x, y := y, 0x400000000000; e := PowerDigit(2, R, e, x, 6, w[6], y);
    x, y := y, 0x728a841782daec2afc88166970c86; e := PowerDigit(2, R, e, x, 3, w[3], y);
    x, y := y, 0x6262de8ba247865c9bc02e9cd906f; e := PowerDigit(2, R, e, x, 7, w[7], y);
    x, y := y, 0x4e8edfb452d46e0374acea16ef6e1; e := PowerDigit(2, R, e, x, 6, w[6], y);
    x, y := y, 0x72f9918c6a2b0703252f80fa78b33; e := PowerDigit(2, R, e, x, 3, w[3], y);
    x, y := y, 0x6bf8a7600836ce453e05ee7458f6a; e := PowerDigit(2, R, e, x, 5, w[5], y);
    x, y := y, 0x6a9ecb0e2e3fa1a227dbdc9d490cf; e := PowerDigit(2, R, e, x, 6, w[6], y);
    x, y := y, 0x1346aada7bb0711e37c9ad4e0cb72; e := PowerDigit(2, R, e, x, 4, w[4], y);
    x, y := y, 0x49470e00c43acd63d322a04bd5b6; e := PowerDigit(2, R, e, x, 7, w[7], y);
    x, y := y, 0x1b1aab3936499a919323aab0e3774; e := PowerDigit(2, R, e, x, 7, w[7], y);
    x, y := y, 0x5e4922638d60ebe2dfea4a5b34fbf; e := PowerDigit(2, R, e, x, 1, w[1], y);
    x, y := y, 0x544fed59c4830eb9faf395b89b556; e := PowerDigit(2, R, e, x, 3, w[3], y);
    x, y := y, 0x83c0df72bcf678ab1715487e01f33; e := PowerDigit(2, R, e, x, 0, w[0], y);
    x, y := y, 0x1077b3971a4657d0b336c6d7f855c; e := PowerDigit(2, R, e, x, 0, w[0], y);
    x, y := y, 0x57d937166bb3dd82033b321029f7a; e := PowerDigit(2, R, e, x, 1, w[1], y);
    x, y := y, 0xe3ec5f647977ae387e76069d9b800; e := PowerDigit(2, R, e, x, 0, w[0], y);
    x, y := y, 0x24d95e8557eee1a302190b3a35e70; e := PowerDigit(2, R, e, x, 5, w[5], y);
    x, y := y, 0x7e5c4d0088c1724eae09f20fc9642; e := PowerDigit(2, R, e, x, 1, w[1], y);
    x, y := y, 0x77acaca50f0d3d80071abe0e4b170; e := PowerDigit(2, R, e, x, 5, w[5], y);
    x, y := y, 0xa45be378384f9900bf42802a5c299; e := PowerDigit(2, R, e, x, 7, w[7], y);
    x, y := y, 0x9bd365671a7039f6371e41efcf7ff; e := PowerDigit(2, R, e, x, 6, w[6], y);
  }

  lemma PowerOfRCofactor1()
    ensures PowerIs(2, 0x2e7f3ba7e5804537ea4b4a5123a60, R, 0xa2906e1cdee8587b5eba0ce8e1324)
  {
    hide Pow, PowerIs, Congruent, Divides, IsPrime;
    var w := PowerTable(2, R);
    assert w[0] == 1;
    assert w[1] == 2;
    assert w[2] == 4;
    assert w[3] == 8;
    assert w[4] == 16;
    assert w[5] == 32;
    PowerOfRCofactor10();
    var e: nat, x: int, y: int := 0x2e7f3ba7e5804537e, 0x9bd365671a7039f6371e41efcf7ff, 0xb45eee0de051315525831f2228749;
    e := PowerDigit(2, R, e, x, 5, w[5], y);
    x, y := y, 0xbdc670878b6e84d46956c117b19c0; e := PowerDigit(2, R, e, x, 1, w[1], y);
    x, y := y, 0x85dbd3f5a0092ae619349f39decb6; e := PowerDigit(2, R, e, x, 1, w[1], y);
    x, y := y, 0xae73fd59773ff2b0d2ac8ee24fad4; e := PowerDigit(2, R, e, x, 3, w[3], y);
    x, y := y, 0x691fe5a920a9ace8f29c10ab333c; e := PowerDigit(2, R, e, x, 2, w[2], y);
    x, y := y, 0xa02f43c5428aeab1488e453e25e80; e := PowerDigit(2, R, e, x, 2, w[2], y);
    x, y := y, 0x37c3c0fdba2b9d2d3bc8e49104b73; e := PowerDigit(2, R, e, x, 4, w[4], y);
    x, y := y, 0xbe8018759182a2b92a5873db2cb99; e := PowerDigit(2, R, e, x, 5, w[5], y);
    x, y := y, 0x2ce4ed194fd81e0578b19d3d2ed13; e := PowerDigit(2, R, e, x, 0, w[0], y);
    x, y := y, 0x25828d49eb1e948d9559db1af06a9; e := PowerDigit(2, R, e, x, 4, w[4], y);
    x, y := y, 0xd8fe212522b25116cfd2f24a7f5cf; e := PowerDigit(2, R, e, x, 4, w[4], y);
    x, y := y, 0x24391575e3fb7528482bce15ea6ec; e := PowerDigit(2, R, e, x, 3, w[3], y);
    x, y := y, 0x470ba2dc399d8a88a0c5a1b53882b; e := PowerDigit(2, R, e, x, 5, w[5], y);
    x, y := y, 0x73a4fa153b57743598b6aba6dc9d3; e := PowerDigit(2, R, e, x, 1, w[1], y);
    x, y := y, 0x9434efc8af823b978f316a7480463; e := PowerDigit(2, R, e, x, 4, w[4], y);
    x, y := y, 0xa2906e1cdee8587b5eba0ce8e1324; e := PowerDigit(2, R, e, x, 0, w[0], y);
  }

  lemma RTrial(d: int)
    requires 1 < d < 0x3cfd6603911a878 && Divides(0x2218f6e25d1137, d - 1)
    ensures !Divides(d, R)
  {
    var t := (d - 1) / 0x2218f6e25d1137;
    assert d == 1 + 0x2218f6e25d1137 * t;
    if t == 1 { assert R % 0x2218f6e25d1138 == 0x20750eede9bc41; }
    if t == 2 { assert R % 0x4431edc4ba226f == 0x103a8776f4dd54; }
    if t == 3 { assert R % 0x664ae4a71733a6 == 0x65beecaaf0c149; }
    if t == 4 { assert R % 0x8863db897444dd == 0x6e68286291a21d; }
    if t == 5 { assert R % 0xaa7cd26bd15614 == 0x2896c6ab8bcff5; }
    if t == 6 { assert R % 0xcc95c94e2e674b == 0x32df765578608e; }
    if t == 7 { assert R % 0xeeaec0308b7882 == 0x21dcfa51ba4dd5; }
    if t == 8 { assert R % 0x110c7b712e889b9 == 0x3734143148d102; }
    if t == 9 { assert R % 0x132e0adf5459af0 == 0x110990f14310e31; }
    if t == 10 { assert R % 0x154f9a4d7a2ac27 == 0x114069ef77fe910; }
    if t == 11 { assert R % 0x177129bb9ffbd5e == 0x1273147c855e7f; }
    if t == 12 { assert R % 0x1992b929c5cce95 == 0x7fba9fd1d363e7; }
    if t == 13 { assert R % 0x1bb44897eb9dfcc == 0x88438e9e08ef55; }
    if t == 14 { assert R % 0x1dd5d806116f103 == 0x773961cff45a8c; }
    if t == 15 { assert R % 0x1ff76774374023a == 0xb80469fa554609; }
    if t == 16 { assert R % 0x2218f6e25d11371 == 0x1b4c59cb5013713; }
    if t == 17 { assert R % 0x243a865082e24a8 == 0x1f9595c2b3eaeb9; }
    if t == 18 { assert R % 0x265c15bea8b35df == 0x121bcde84bb548e; }
    if t == 19 { assert R % 0x287da52cce84716 == 0x629df459f9dc5d; }
    if t == 20 { assert R % 0x2a9f349af45584d == 0x28979c6bf33f6c0; }
    if t == 21 { assert R % 0x2cc0c4091a26984 == 0x132ccaf1a64af21; }
    if t == 22 { assert R % 0x2ee253773ff7abb == 0xa2a9e138e57cb6; }
    if t == 23 { assert R % 0x3103e2e565c8bf2 == 0x250edd1d0905417; }
    if t == 24 { assert R % 0x332572538b99d29 == 0x1d908e285468087; }
    if t == 25 { assert R % 0x354701c1b16ae60 == 0x1a149ba584591c1; }
    if t == 26 { assert R % 0x3768912fd73bf97 == 0x2ff218c6f785892; }
    if t == 27 { assert R % 0x398a209dfd0d0ce == 0xc12894587ce309; }
    if t == 28 { assert R % 0x3babb00c22de205 == 0x27f4515f02851ed; }
  }

  lemma RIsPrime()
    ensures IsPrime(R)
  {
    hide Pow, PowerIs, Congruent, Divides, IsPrime;
    PowerOfR();
    PowerOfRCofactor0();
    SIsPrime();
    CertifyFactor(R, S, 0x2217588b6b4f717a0, 2, 0xaedd80ab27e8de3ca5f2fb22d5403, 0xe5e342b4c0a3d507894bab5f20e8b);
    PowerOfRCofactor1();
    SmallPrimes();
    CertifyFactor(R, 5, 0x2e7f3ba7e5804537ea4b4a5123a60, 2, 0xa2906e1cdee8587b5eba0ce8e1324,
                  0xd5e8fcd93ae64fa8b93bf8c1ee646);
    CoprimeCertificates(R, S, 5, 0x2218f6e25d1137);
    forall d | 1 < d < 0x3cfd6603911a878 && Divides(0x2218f6e25d1137, d - 1)
      ensures !Divides(d, R)
    {
      RTrial(d);
    }
    PrimeByFactors(R, 0x2218f6e25d1137, 0x3cfd6603911a878);
  }

  lemma PowerOfP0()
    ensures PowerIs(2, 0x1575f18d6129fa1e6, P, 0xbfbaa13767fb0081b5b93aba493eb5dfaf859b09a52d9d19197c96b3c9)
  {
    hide Pow, PowerIs, Congruent, Divides, IsPrime;
    var w := PowerTable(2, P);
    assert w[0] == 1;
    assert w[1] == 2;
    assert w[2] == 4;
    assert w[3] == 8;
    assert w[4] == 16;
    assert w[5] == 32;
    assert w[6] == 64;
    assert w[7] == 128;
    var e: nat, x: int, y: int := 0, 1, 4;
    e := PowerDigit(2, P, e, x, 2, w[2], y);
    x, y := y, 0x200000; e := PowerDigit(2, P, e, x, 5, w[5], y);
    x, y := y, 0x8000000000000000000000000000000000000000000; e := PowerDigit(2, P, e, x, 3, w[3], y);
    x, y := y, 0xc35000000000000000000000000000; e := PowerDigit(2, P, e, x, 5, w[5], y);
    x, y := y, 0xe596b7b0c643c7196d9ccd05d000000000000000000000000000; e := PowerDigit(2, P, e, x, 3, w[3], y);
    x, y := y, 0x45e7b1d1c65815148d1329871a37ba52c58832c0841d1a77c722b0c04c9; e := PowerDigit(2, P, e, x, 7, w[7], y);
    x, y := y, 0x2cea123fa84e08972d63324bdcd04e2b49063d096ae927b3c5f848a77f; e := PowerDigit(2, P, e, x, 0, w[0], y);
    x, y := y, 0x508ce4397aa7307baa1764b3d522744bab57ca451eb7addb2a3a91ce76b; e := PowerDigit(2, P, e, x, 6, w[6], y);
    x, y := y, 0x7364ddffbe191843b417caad54afb9ffad881980f1274f5b1d00b16fb5d; e := PowerDigit(2, P, e, x, 1, w[1], y);
    x, y := y, 0x388bad7b80788fa7f1827fdf4ff72b08f13f6ade7ab779f49875f4208ec; e := PowerDigit(2, P, e, x, 5, w[5], y);
    x, y := y, 0x351a835a72217d5d8918847150669ba0de73657bc4d74b3ec295faa999d; e := PowerDigit(2, P, e, x, 3, w[3], y);
    x, y := y, 0x8b69a59a6216b65bb4084ff413294e5c5dadca4a2cf5ade8aa2a94c9f76; e := PowerDigit(2, P, e, x, 0, w[0], y);
    x, y := y, 0x8deff6c509e8a8ef119cdf52dffe6aa53afee8e45bb13ec16503be289b9; e := PowerDigit(2, P, e, x, 2, w[2], y);
    x, y := y, 0x15d5f05704147b91eff992fa1eaf591d3c928d719751276a7fa25358d8; e := PowerDigit(2, P, e, x, 2, w[2], y);
    x, y := y, 0x59d2010b98253ff30e16b758406df2547c3b31833f0e58bc0289e40fc43; e := PowerDigit(2, P, e, x, 4, w[4], y);
    x, y := y, 0x24e1238996e8c9d3e1d5e8784d71c884c8a5768b0d723b2ac72eeeac6a5; e := PowerDigit(2, P, e, x, 7, w[7], y);
    x, y := y, 0x815d6e90edd477c8d7b3694f92f98fecb37b5826b76e50268e90dec14a2; e := PowerDigit(2, P, e, x, 7, w[7], y);
    x, y := y, 0x84a17fca5f31610c12469f84e24774c1122a4c7d80d2c9dd26f7fc5b2b1; e := PowerDigit(2, P, e, x, 2, w[2], y);
    x, y := y, 0xa0513e080d8cfc7ecc515dd9374f9694476a2d5508ffda0def104f5f513; e := PowerDigit(2, P, e, x, 0, w[0], y);
    x, y := y, 0xa1f29dfecec89c3b0b325f5e27c75458125724dde336ccc6e3f739dc849; e := PowerDigit(2, P, e, x, 7, w[7], y);
    x, y := y, 0x96a0a689ba1b3515efcdba8ef14678eb71730d0b7c2753af55fe82fe7cb; e := PowerDigit(2, P, e, x, 4, w[4], y);
    x, y := y, 0xbfbaa13767fb0081b5b93aba493eb5dfaf859b09a52d9d19197c96b3c9; e := PowerDigit(2, P, e, x, 6, w[6], y);
  }

  lemma PowerOfP1()
    ensures PowerIs(2, 0x55d7c63584a7e8799616655d5c326df66, P,
                    0x9b8e1faa8f4d2a3b3c811fe2eca1df2b01545ede8fcc447bd591c0a4381)
  {
    hide Pow, PowerIs, Congruent, Divides, IsPrime;
    var w := PowerTable(2, P);
    assert w[0] == 1;
    assert w[1] == 2;
    assert w[2] == 4;
    assert w[3] == 8;
    assert w[4] == 16;
    assert w[5] == 32;
    assert w[6] == 64;
    assert w[7] == 128;
    PowerOfP0();
    var e: nat, x: int, y: int := 0x1575f18d6129fa1e6, 0xbfbaa13767fb0081b5b93aba493eb5dfaf859b09a52d9d19197c96b3c9,
      0x22686b0570abdfef3c103bb09b77936bbb48c1dd46f4a1853a6ff5d1353;
    e := PowerDigit(2, P, e, x, 2, w[2], y);
    x, y := y, 0x1aad211343e17d2e31cbbf7005ae3fb46a3f38fa1324b5d9daaa68a9187; e := PowerDigit(2, P, e, x, 6, w[6], y);
    x, y := y, 0x2d9e504f0d5475a17d51d2b47f9f677c8b0317ae91e2550d66768447cef; e := PowerDigit(2, P, e, x, 0, w[0], y);
    x, y := y, 0x608bff972ed1fba68697e446415a37695052f41af4796b115a1566b8776; e := PowerDigit(2, P, e, x, 5, w[5], y);
    x, y := y, 0x628965681793a804c586568911b3b9c867ac376d4168aa8a74c6e34b44e; e := PowerDigit(2, P, e, x, 4, w[4], y);
    x, y := y, 0x8ba2d0e2550eb6ad0c636875f4c7d348a9b48bd5fa894e77c4e86a458e0; e := PowerDigit(2, P, e, x, 6, w[6], y);
    x, y := y, 0xa373eaa57498a41eabc9d11ae195bfc544cc515147b2da3a562ef6eb18; e := PowerDigit(2, P, e, x, 2, w[2], y);
    x, y := y, 0x3e84112d201a2f1074a8132f050c49bd815a22e112457c3fa3bf65d9bb; e := PowerDigit(2, P, e, x, 5, w[5], y);
    x, y := y, 0x9bc29e51e651aef1a4b6816369454cc635950936ac18b7edf7a2bd2a3d7; e := PowerDigit(2, P, e, x, 3, w[3], y);
    x, y := y, 0x6484b504db1e393224c2bf2b22c9dcd58192ac47409f6a149f5d2455f97; e := PowerDigit(2, P, e, x, 5, w[5], y);
    x, y := y, 0x6044e375f99998de29ec9b8b0faa15401ad9147e5b23470cdb093570aee; e := PowerDigit(2, P, e, x, 2, w[2], y);
    x, y := y, 0x503b0536170ea403f19a2fe2838119d2dad4256d1ad42a3a2038b28197d; e := PowerDigit(2, P, e, x, 7, w[7], y);
    x, y := y, 0x89f496bcbf60ba7a275febd4bcc076ca8e4ac27cc543c5d071151cec8c; e := PowerDigit(2, P, e, x, 0, w[0], y);
    x, y := y, 0x7d11bf1bbc89a0c7ea6668c2cb80ddf37e43388ffe3a4a6cc076099bbbb; e := PowerDigit(2, P, e, x, 3, w[3], y);
    x, y := y, 0x9391cd4ad04d2a0d979fc3e4c3d5b7c5b794b2935f24863cc8fd5a1318e; e := PowerDigit(2, P, e, x, 1, w[1], y);
    x, y := y, 0x1a368c825321e78d72fcff245b20744b3fa18f4ee18b6bc35882b274742; e := PowerDigit(2, P, e, x, 1, w[1], y);
    x, y := y, 0x1d1b9b0e1361200cedd51490da1190117ea2918e1770f42eebd188bafa4; e := PowerDigit(2, P, e, x, 5, w[5], y);
    x, y := y, 0x441c5db320aa3124ad07b763bb031a80760e860016b7d948c1f511148c0; e := PowerDigit(2, P, e, x, 5, w[5], y);
    x, y := y, 0x8d8d913341d083ba2d748ab6b79b3b2a45dbafb3b67800f1efa1b742310; e := PowerDigit(2, P, e, x, 7, w[7], y);
    x, y := y, 0x8ce1e4d873880b3d2c9d2c6a2f86574bcd9a5d31a95f432c45280b9231f; e := PowerDigit(2, P, e, x, 5, w[5], y);
    x, y := y, 0x99a025d1a4b6c3ee39e8efb735145b644f980163dcb26d220a080f9bba0; e := PowerDigit(2, P, e, x, 4, w[4], y);
    x, y := y, 0x9b8e1faa8f4d2a3b3c811fe2eca1df2b01545ede8fcc447bd591c0a4381; e := PowerDigit(2, P, e, x, 6, w[6], y);
  }

  lemma PowerOfP2()
    ensures PowerIs(2, 0x1575f18d6129fa1e65859957570c9b7d9b32288cf3835bf009, P,
                    0x53ba7099bc2e66a1ce27e4a6854adacc9d287a1d4d2ee62b574cd5cfe1f)
  {
    hide Pow, PowerIs, Congruent, Divides, IsPrime;
    var w := PowerTable(2, P);
    assert w[0] == 1;
    assert w[1] == 2;
    assert w[2] == 4;
    assert w[3] == 8;
    assert w[4] == 16;
    assert w[5] == 32;
    assert w[6] == 64;
    assert w[7] == 128;
    PowerOfP1();
    var e: nat, x: int, y: int := 0x55d7c63584a7e8799616655d5c326df66,
      0x9b8e1faa8f4d2a3b3c811fe2eca1df2b01545ede8fcc447bd591c0a4381,
      0x8b90798ac83d35b7e795cc9e2e335e5a1dd5ce7056600fff64fa49cb90a;
    e := PowerDigit(2, P, e, x, 6, w[6], y);
    x, y := y, 0x4273d0ebaefa8720d2d7c7d6b6899794da6e10c6a81937e905ec339383d; e := PowerDigit(2, P, e, x, 3, w[3], y);
    x, y := y, 0x9aeed6af3cd6962eb1fed0a2eed74f50cf13b3a6a2c3d04fe5893695710; e := PowerDigit(2, P, e, x, 1, w[1], y);
    x, y := y, 0x3c8cd56006011cfd1035980fc80ae0a4b74bb174961995ad3e10f763d6; e := PowerDigit(2, P, e, x, 0, w[0], y);
    x, y := y, 0x1c10b10f0d770e2b4f134450d70d90b11a7eda2f2bd99c2897b1825b943; e := PowerDigit(2, P, e, x, 5, w[5], y);
    x, y := y, 0x471a55380352b7d4ab5908e4d11f475893e8af76573f689524dc051958d; e := PowerDigit(2, P, e, x, 0, w[0], y);
    x, y := y, 0x8691a864666d02d29e6e8f858711919bf3ea1f7df0bc23e87518f90e96f; e := PowerDigit(2, P, e, x, 4, w[4], y);
    x, y := y, 0x1f3e1a401dcaa789fa9ffa9731a7b52be552721991fa39bb06eb42c69b2; e := PowerDigit(2, P, e, x, 3, w[3], y);
    x, y := y, 0x5c3eaad9e0a57b95ad21afdbfd7722ede32fb5911db11f86dd664e13806; e := PowerDigit(2, P, e, x, 1, w[1], y);
    x, y := y, 0x1fc51e1408b68ce57e65871dc520f80b2ebc6a0a3367821ef7717bb44fd; e := PowerDigit(2, P, e, x, 7, w[7], y);
    x, y := y, 0xaa738e91cf630c4b2d4d9a87f107c67600d65c9394c40a69c0a8bfbbd71; e := PowerDigit(2, P, e, x, 1, w[1], y);
    x, y := y, 0xcc1f9b53e45db4b70fec6a420954e2fd402b15d17403687e46c431ebd8; e := PowerDigit(2, P, e, x, 6, w[6], y);
    x, y := y, 0x86f74f5ec5ff134be9d6cabfc5bb6425c6403b050394f7188bf8c42ec18; e := PowerDigit(2, P, e, x, 0, w[0], y);
    x, y := y, 0x63bc4d9cb52a9754c238d398887acfccdca49ad9407f22d9885f5ba22b3; e := PowerDigit(2, P, e, x, 3, w[3], y);
    x, y := y, 0xa81cc8bb256fba5be9172c780f8f2ca8330a1cd3a1145636c53d52e39f; e := PowerDigit(2, P, e, x, 2, w[2], y);
    x, y := y, 0xd3fea593a8a4330bafa2fd52500a06163c4c539ef1b4e070cd2d894c9e; e := PowerDigit(2, P, e, x, 6, w[6], y);
    x, y := y, 0xa42e922f1c687226936f25e8a29429758a5642876521ef4aef8706f2d2c; e := PowerDigit(2, P, e, x, 7, w[7], y);
    x, y := y, 0x78fbc453fb927ed96996bb10871911d89ac42e75ab731532a965c7ec18b; e := PowerDigit(2, P, e, x, 7, w[7], y);
    x, y := y, 0x19945ee73120db1556bc5ac04bbf87503fbd63f3fafedc8fdc5bff65b07; e := PowerDigit(2, P, e, x, 0, w[0], y);
    x, y := y, 0x4ce8eb0d3d71c01c95bf85fb2710416e7a3ac35ae923069261a834f093e; e := PowerDigit(2, P, e, x, 0, w[0], y);
    x, y := y, 0x40e44cbfb2f3391b38edbd3db97d755d0e88fcc48d3a3eabe7807d97d0c; e := PowerDigit(2, P, e, x, 1, w[1], y);
    x, y := y, 0x53ba7099bc2e66a1ce27e4a6854adacc9d287a1d4d2ee62b574cd5cfe1f; e := PowerDigit(2, P, e, x, 1, w[1], y);
  }

  lemma PowerOfP()
    ensures PowerIs(2, 0xabaf8c6b094fd0f32c2ccabab864dbecd99144679c1adf804898fb2042a, P, 1)
  {
    hide Pow, PowerIs, Congruent, Divides, IsPrime;
    var w := PowerTable(2, P);
    assert w[0] == 1;
    assert w[1] == 2;
    assert w[2] == 4;
    assert w[3] == 8;
    assert w[4] == 16;
    assert w[5] == 32;
    assert w[6] == 64;
    assert w[7] == 128;
    PowerOfP2();
    var e: nat, x: int, y: int := 0x1575f18d6129fa1e65859957570c9b7d9b32288cf3835bf009,
      0x53ba7099bc2e66a1ce27e4a6854adacc9d287a1d4d2ee62b574cd5cfe1f,
      0x490b0add75eb793e615e0705b853be2bcadbd7322782afe941dee347afd;
    e := PowerDigit(2, P, e, x, 0, w[0], y);
    x, y := y, 0x821cc2d529810973290e4224cbbb9b02d52d7adaffbbc63c42cb1199387; e := PowerDigit(2, P, e, x, 4, w[4], y);
    x, y := y, 0x3b873110bc35608c993b6dd1eba01e4f93a15b0f4ab8c6d062e875ce828; e := PowerDigit(2, P, e, x, 6, w[6], y);
    x, y := y, 0x7c453f3ccabe719a50e09edc717cbba1cb611a84218b682628dc5f506dc; e := PowerDigit(2, P, e, x, 1, w[1], y);
    x, y := y, 0x1deade668010cea7c1eb364359e0c882bc6b9952c91e515a1a55e8655fc; e := PowerDigit(2, P, e, x, 7, w[7], y);
    x, y := y, 0x662008d407fc190fac36df9922cebbd7e5506e660b2650d3c4a9a6a7347; e := PowerDigit(2, P, e, x, 5, w[5], y);
    x, y := y, 0xde6fda29aa0bdf7f2021f62efa73fca6596b95fc6fe1768899d3dd4e3f; e := PowerDigit(2, P, e, x, 4, w[4], y);
    x, y := y, 0x8c82af896c1078c55fdce3530caa6c502422674ae0a079d559144b16485; e := PowerDigit(2, P, e, x, 4, w[4], y);
    x, y := y, 0x67574d5dc68a22aa0c1f64bf4b37f7def432b77f7d1716d10ce10f6a6c; e := PowerDigit(2, P, e, x, 0, w[0], y);
    x, y := y, 0x20a9c6c31efa6fb6dabe64eb96778707117de2d20322bc194147ecd368b; e := PowerDigit(2, P, e, x, 2, w[2], y);
    x, y := y, 0x18426765754e8160a7f4160b5a6c62533f223ddd1218d545f844f01033d; e := PowerDigit(2, P, e, x, 0, w[0], y);
    x, y := y, 0xed815c020d553714f605f25872e3dfd36ddaeca685f28e953a2c887acb; e := PowerDigit(2, P, e, x, 5, w[5], y);
    x, y := y, 1; e := PowerDigit(2, P, e, x, 2, w[2], y);
  }

  lemma PowerOfPCofactor0()
    ensures PowerIs(2, 0x2f434533de39d4868, P, 0x1c53d340376af8cfca4f67d25d18d47b236324e1a764da948477e92628b)
  {
    hide Pow, PowerIs, Congruent, Divides, IsPrime;
    var w := PowerTable(2, P);
    assert w[0] == 1;
    assert w[1] == 2;
    assert w[2] == 4;
    assert w[3] == 8;
    assert w[4] == 16;
    assert w[5] == 32;
    assert w[6] == 64;
    assert w[7] == 128;
    var e: nat, x: int, y: int := 0, 1, 32;
    e := PowerDigit(2, P, e, x, 5, w[5], y);
    x, y := y, 0x800000000000; e := PowerDigit(2, P, e, x, 7, w[7], y);
    x, y := y, 0xa0000000000000000000000000000000; e := PowerDigit(2, P, e, x, 2, w[2], y);
    x, y := y, 0x9c2295e31767e636259c7c1deed13941559c6c0579a73061da059fefd3f; e := PowerDigit(2, P, e, x, 0, w[0], y);
    x, y := y, 0x73f48ef786a0c82a5410bcef192dd17d7b44506e30444a6ddbcce12d10f; e := PowerDigit(2, P, e, x, 6, w[6], y);
    x, y := y, 0x47ed91f9e30696c95f893badb61bd79ac630564c46ebfac55ad80409024; e := PowerDigit(2, P, e, x, 4, w[4], y);
    x, y := y, 0x638b4d80ea1282170594444c4b6af20e30bf7b3a8df7c13642d404176fd; e := PowerDigit(2, P, e, x, 2, w[2], y);
    x, y := y, 0x3d5c1fd1357668adbc8cd1a8afdacb0f87fa1ee62680b76b3d822405076; e := PowerDigit(2, P, e, x, 4, w[4], y);
    x, y := y, 0x6d8f8fb5ce21b8c0c7b3a311406adb88cc8672e9fe2eed169f1b4b55a2c; e := PowerDigit(2, P, e, x, 6, w[6], y);
    x, y := y, 0x4c93bfc17e5eed011591d724972c15ad4f0c7db6a31c19d543fec4f6338; e := PowerDigit(2, P, e, x, 3, w[3], y);
    x, y := y, 0x16e3f379ad5b751a496ff90b3142c1fe077abff8bac422ba9f1603668b0; e := PowerDigit(2, P, e, x, 6, w[6], y);
    x, y := y, 0x405bb5b8ca0216da0c6f86ed1333a8bd775fed021a663d4e2b36235719b; e := PowerDigit(2, P, e, x, 7, w[7], y);
    x, y := y, 0x76494f0a3a3c97814203225ec564b209a6f5546814a0c75daf65d46ffb0; e := PowerDigit(2, P, e, x, 4, w[4], y);
    x, y := y, 0xab899e114625eeca247394185b8b10ed04cd483d38b90796a45e4ce6867; e := PowerDigit(2, P, e, x, 3, w[3], y);
    x, y := y, 0x480d7ea8eadcb7e4ebb35b1a0cdcd043f5e4cd4d2058172d0c27567b647; e := PowerDigit(2, P, e, x, 4, w[4], y);
    x, y := y, 0x83cb33627fafca484eea55f3ed3e53cd71569273276be4273e9744e83e0; e := PowerDigit(2, P, e, x, 7, w[7], y);
    x, y := y, 0x1d3a2bd56156546153f495e59c8eedae00984d23441bd58c80d887f0cfe; e := PowerDigit(2, P, e, x, 2, w[2], y);
    x, y := y, 0x681cea30777f864767ca5c72c2e0c9366d4bea0ed36db67f72e1b824700; e := PowerDigit(2, P, e, x, 4, w[4], y);
    x, y := y, 0x246b0d995d0c971914cfb6d54b8f246af282bafd4da86c98e6560668218; e := PowerDigit(2, P, e, x, 4, w[4], y);
    x, y := y, 0xa93f25bba885b9252329b137dc883cf54091cd537fef79da6849f6d345b; e := PowerDigit(2, P, e, x, 1, w[1], y);
    x, y := y, 0xbc3c3ed954169405598c5d0a8e9d96a8daddbbcc6376bebacb68e47120; e := PowerDigit(2, P, e, x, 5, w[5], y);
    x, y := y, 0x1c53d340376af8cfca4f67d25d18d47b236324e1a764da948477e92628b; e := PowerDigit(2, P, e, x, 0, w[0], y);
  }

  lemma PowerOfPCofactor()
    ensures PowerIs(2, 0xbd0d14cf78e7521a329188e9fa496a, P,
                    0xa118eb0f9d8184bab59e8e45df736d65fba3c64f4aa855bc8921ac18308)
  {
    hide Pow, PowerIs, Congruent, Divides, IsPrime;
    var w := PowerTable(2, P);
    assert w[0] == 1;
    assert w[1] == 2;
    assert w[2] == 4;
    assert w[3] == 8;
    assert w[4] == 16;
    assert w[5] == 32;
    assert w[6] == 64;
    assert w[7] == 128;
    PowerOfPCofactor0();
    var e: nat, x: int, y: int := 0x2f434533de39d4868, 0x1c53d340376af8cfca4f67d25d18d47b236324e1a764da948477e92628b,
      0x48e88c4980b9201f5cfbef781abf1d4f828e86fb9659adff4b1310b0a79;
    e := PowerDigit(2, P, e, x, 6, w[6], y);
    x, y := y, 0x7f7597cdd3c877340a980a10f28f7bd44170bf96fb6e9d8a7500735f18b; e := PowerDigit(2, P, e, x, 2, w[2], y);
    x, y := y, 0x3854f63724c53aa594b9c9922f46592727c1bd3b106b9e50dd7e3a28215; e := PowerDigit(2, P, e, x, 4, w[4], y);
    x, y := y, 0x5f232d211cad15e53e3a956ec029ae0c7d4a363f98c30c4217155b03e32; e := PowerDigit(2, P, e, x, 4, w[4], y);
    x, y := y, 0x720ad70938bd175b53e26efd80636e95cf3443d8a5836339203cd8ad881; e := PowerDigit(2, P, e, x, 3, w[3], y);
    x, y := y, 0x191ab7bc343c628269193e1f3b3661f2fc43d86e3a3945eaa4ce0581c49; e := PowerDigit(2, P, e, x, 0, w[0], y);
    x, y := y, 0x5e53a20049dc2fd1357d92bfa28d053694fa00741bc1e52de5063d93581; e := PowerDigit(2, P, e, x, 4, w[4], y);
    x, y := y, 0x67ce1d1c80fe37780fd186479d9fbc96c40ea65e8fa7cb70d1bc6eb2fa8; e := PowerDigit(2, P, e, x, 3, w[3], y);
    x, y := y, 0xd3f3fcd02e66cee9457b1ebbe0134abf79ac175d02139487f0e630ea21; e := PowerDigit(2, P, e, x, 5, w[5], y);
    x, y := y, 0x3acf2096c14e1b7fca61f3eee671d3421087e6919bfb43a8ac6ca187d41; e := PowerDigit(2, P, e, x, 1, w[1], y);
    x, y := y, 0x58168a9cc810950795f992994ff8ecceab43b9ae9c616d7df3da615edc5; e := PowerDigit(2, P, e, x, 7, w[7], y);
    x, y := y, 0x5641d4e5de2cc434d8ff2a159299498cca60897ed388a0aef15ff0da0ce; e := PowerDigit(2, P, e, x, 6, w[6], y);
    x, y := y, 0x3b697d501b0714f8d317f10949e2b67188f4cafb4cccc75d9b98460108f; e := PowerDigit(2, P, e, x, 4, w[4], y);
    x, y := y, 0x15ffe601f5b00c84e6b79ed19993fac9d4e536125b1eb5a8d2a9339d2b; e := PowerDigit(2, P, e, x, 4, w[4], y);
    x, y := y, 0x650348bc16e94643c3355253b78e6752af906a3eb5bc54cf2993163f998; e := PowerDigit(2, P, e, x, 4, w[4], y);
    x, y := y, 0x8acc4a87344f44985b9ab5599431a6b28010d329ab6b431cc39822a21b5; e := PowerDigit(2, P, e, x, 5, w[5], y);
    x, y := y, 0x67c3655c3d4c03a9e39cad8d9e6fc7d03deac383138d118a925cfcc81a0; e := PowerDigit(2, P, e, x, 5, w[5], y);
    x, y := y, 0xa118eb0f9d8184bab59e8e45df736d65fba3c64f4aa855bc8921ac18308; e := PowerDigit(2, P, e, x, 2, w[2], y);
  }

  lemma PTrial(d: int)
    requires 1 < d < 0x34695c18a57ec93035c8ec59cd4f99 && Divides(0xe87c2a477b815a1793787395b23e1, d - 1)
    ensures !Divides(d, P)
  {
    var t := (d - 1) / 0xe87c2a477b815a1793787395b23e1;
    assert d == 1 + 0xe87c2a477b815a1793787395b23e1 * t;
    if t == 1 { assert P % 0xe87c2a477b815a1793787395b23e2 == 0xe5f902f1329dcba6e77dc3901acf3; }
    if t == 2 { assert P % 0x1d0f8548ef702b42f26f0e72b647c3 == 0x15b78abc014d03feb0737555dbfa58; }
    if t == 3 { assert P % 0x2b9747ed672840e46ba695ac116ba4 == 0x182a3395a603666ac671fdb4cf697b; }
  }

  lemma PIsPrime()
    ensures IsPrime(P)
  {
    hide Pow, PowerIs, Congruent, Divides, IsPrime;
    PowerOfP();
    PowerOfPCofactor();
    RIsPrime();
    CertifyFactor(P, R, 0xbd0d14cf78e7521a329188e9fa496a, 2,
                  0xa118eb0f9d8184bab59e8e45df736d65fba3c64f4aa855bc8921ac18308,
      0xa35a14fb1452ddd0fca6eef50ac9bd9a369cab894104fc366d4fa595e38);
    forall d | 1 < d < 0x34695c18a57ec93035c8ec59cd4f99 && Divides(R, d - 1)
      ensures !Divides(d, P)
    {
      PTrial(d);
    }
    PrimeByFactors(P, R, 0x34695c18a57ec93035c8ec59cd4f99);
  }

  lemma PowerOfQHalf0()
    ensures PowerIs(2, 0x1ffffffffffffffff, Q, 0x70ab5ea2da24b64d4d7191eefbe84cbe45d0ab9628454f2495915384beb77a15)
  {
    hide Pow, PowerIs, Congruent, Divides, IsPrime;
    var w := PowerTable(2, Q);
    assert w[0] == 1;
    assert w[1] == 2;
    assert w[2] == 4;
    assert w[3] == 8;
    assert w[4] == 16;
    assert w[5] == 32;
    assert w[6] == 64;
    assert w[7] == 128;
    var e: nat, x: int, y: int := 0, 1, 8;
    e := PowerDigit(2, Q, e, x, 3, w[3], y);
    x, y := y, 0x80000000; e := PowerDigit(2, Q, e, x, 7, w[7], y);
    x, y := y, 19; e := PowerDigit(2, Q, e, x, 7, w[7], y);
    x, y := y, 0x1fa264d9080; e := PowerDigit(2, Q, e, x, 7, w[7], y);
    x, y := y, 0xb8cd5e7255890d0e0d907986602bddc9c67ba97196e7941267ca3056254b232;
    e := PowerDigit(2, Q, e, x, 7, w[7], y);
    x, y := y, 0xde3d0ec62b72d4aeb36cbf321895273c2f8448d08a0b497109c12f489b2c1f5;
    e := PowerDigit(2, Q, e, x, 7, w[7], y);
    x, y := y, 0x467038a8aad2effd9b3ed28402ab6f4ff081bc0947e8f8e3b63278c2ee40ccd5;
    e := PowerDigit(2, Q, e, x, 7, w[7], y);
    x, y := y, 0x5c221fac61c0d6ffe66104d19e84e07208db61a97320b6960d900864519e3877;
    e := PowerDigit(2, Q, e, x, 7, w[7], y);
    x, y := y, 0x12b24d6c18eb768b7724f3f7d3dd5b18e34a5a3e71ba3dc0756d930bacfe0acd;
    e := PowerDigit(2, Q, e, x, 7, w[7], y);
    x, y := y, 0x1d6a3e0e33e7d36e6f1956bbcfc0fb038ff048f6e430c94db515f9aeae98564;
    e := PowerDigit(2, Q, e, x, 7, w[7], y);
    x, y := y, 0x3b5822765de225e133be342f95c09f0e7914206ef4a0d297740ccf3336a0bcb5;
    e := PowerDigit(2, Q, e, x, 7, w[7], y);
    x, y := y, 0x450172c0ac3a455a330d82fc1fc4e86d23d66bf206db8ee551b8855f0760813f;
    e := PowerDigit(2, Q, e, x, 7, w[7], y);
    x, y := y, 0x9f32ad3cb4e7bbed9f68a88befe5e1772862f90a89d7f93ddcbd4f81f8a26cf;
    e := PowerDigit(2, Q, e, x, 7, w[7], y);
    x, y := y, 0x1c2261269bde5d8a23e88bdcfa0efa5f91c60951386a6441dfa38e5f6c500bc3;
    e := PowerDigit(2, Q, e, x, 7, w[7], y);
    x, y := y, 0x54b45c911bd0aa55f16b194fdd80e3065ac19b2c1488bbbd4f837ab614121ca6;
    e := PowerDigit(2, Q, e, x, 7, w[7], y);
    x, y := y, 0x60302490d899f5f2e9e02601a667c42b7d6d8b1c905afb24b5b1f35ed9c4d703;
    e := PowerDigit(2, Q, e, x, 7, w[7], y);
    x, y := y, 0x410e5be1ceec75389eac57fe3b8cf3e2ec40bb5a87dd61b95b58669638e4b647;
    e := PowerDigit(2, Q, e, x, 7, w[7], y);
    x, y := y, 0x62b27de316c873c65664c140ea184f417a463bb2f2bd349003527247adeca31e;
    e := PowerDigit(2, Q, e, x, 7, w[7], y);
    x, y := y, 0x304d384d2f9dbc378a27d19919a4a9514b56d6ae3ca9c0a001b34d10cc9285ad;
    e := PowerDigit(2, Q, e, x, 7, w[7], y);
    x, y := y, 0x1863621ef9cc507e2bc8b5340dcdc52c6b49032850bd067731b407940c6c62c6;
    e := PowerDigit(2, Q, e, x, 7, w[7], y);
    x, y := y, 0x5a259bd002319b926716cfc81dbb8232bc7b48bce62b4db7bba2069862b3fc20;
    e := PowerDigit(2, Q, e, x, 7, w[7], y);
    x, y := y, 0x70ab5ea2da24b64d4d7191eefbe84cbe45d0ab9628454f2495915384beb77a15;
    e := PowerDigit(2, Q, e, x, 7, w[7], y);
  }

  lemma PowerOfQHalf1()
    ensures PowerIs(2, 0x7ffffffffffffffffffffffffffffffff, Q,
                    0x41364f9981abaf7ed0cf4072d21de43ed919ce6b91f7ba87de1062a5bf9326cc)
  {
    hide Pow, PowerIs, Congruent, Divides, IsPrime;
    var w := PowerTable(2, Q);
    assert w[0] == 1;
    assert w[1] == 2;
    assert w[2] == 4;
    assert w[3] == 8;
    assert w[4] == 16;
    assert w[5] == 32;
    assert w[6] == 64;
    assert w[7] == 128;
    PowerOfQHalf0();
    var e: nat, x: int, y: int := 0x1ffffffffffffffff,
      0x70ab5ea2da24b64d4d7191eefbe84cbe45d0ab9628454f2495915384beb77a15,
      0x17d33b601b5f68bc78e9cc60b751ad46bfa468fec5052828bd389f612a835c7c;
    e := PowerDigit(2, Q, e, x, 7, w[7], y);
    x, y := y, 0x45224608a5add3adaba078f9a3888da0ba8914ba5c15a934580ebdfc060bf140;
    e := PowerDigit(2, Q, e, x, 7, w[7], y);
    x, y := y, 0xe7c4616bd8c84041b2efc968940b19c8396fab61ab16d4a02263f8cddb6c9f9;
    e := PowerDigit(2, Q, e, x, 7, w[7], y);
    x, y := y, 0x1344f1f380acdc6c84ccbdc91c4f1e3c3cf60dcb5c7bcea68c6559c0624fcda;
    e := PowerDigit(2, Q, e, x, 7, w[7], y);
    x, y := y, 0x2de3c13da94fb24d31a7291fa97c7ea60976e7ba7af24d40fd7f16638635ec9e;
    e := PowerDigit(2, Q, e, x, 7, w[7], y);
    x, y := y, 0x26886446a5c1070536bb80608b9df6dfd9bf5ae9748aba37d735fcc1e1fa7c72;
    e := PowerDigit(2, Q, e, x, 7, w[7], y);
    x, y := y, 0x1db2afb7ff29a9b84efa4bbb79825c3cba12e2b483b4928f57b9635bbc344e3;
    e := PowerDigit(2, Q, e, x, 7, w[7], y);
    x, y := y, 0x1648827ae6cf5096bf3df57e0e218860fc1e3850c1496ae29fa29c0390f88836;
    e := PowerDigit(2, Q, e, x, 7, w[7], y);
    x, y := y, 0x3ec1fb89a68687237b23de07148750d8c2357676a16b57ea5255224a758f266f;
    e := PowerDigit(2, Q, e, x, 7, w[7], y);
    x, y := y, 0x2abb4c95321b78db0dfd5768e49f7c21359a05f26807c5df6abbf8b7e0cc846b;
    e := PowerDigit(2, Q, e, x, 7, w[7], y);
    x, y := y, 0x4d250478710852639c536ca84cf21977842f0f49fb02bca5bf01e92c7055d673;
    e := PowerDigit(2, Q, e, x, 7, w[7], y);
    x, y := y, 0x3738a60ebe123e5f8825254430aebeec235e0a6ab1f8118555ca73da288f542f;
    e := PowerDigit(2, Q, e, x, 7, w[7], y);
    x, y := y, 0x7f5cfe517161e30f81ee6ebdd0169eadd8c9b3642805b9e904e8ba87ac2edcb9;
    e := PowerDigit(2, Q, e, x, 7, w[7], y);
    x, y := y, 0x3bf660e9e465d9b4d35e5f5951b0ddf7f8990885004f6095e6b7737be653ed6d;
    e := PowerDigit(2, Q, e, x, 7, w[7], y);
    x, y := y, 0x6e15686488df199392a01b4a8ac94875e665d622ede0874e2eb42673a99827e4;
    e := PowerDigit(2, Q, e, x, 7, w[7], y);
    x, y := y, 0x7f5154b89a9793334592de6b912acc24bc8fb0ba4e65952093cba23e1d1a1762;
    e := PowerDigit(2, Q, e, x, 7, w[7], y);
    x, y := y, 0x7d72c109d65f59d607e1d4264817fd5647892449fc15e397d10acbbcb8077118;
    e := PowerDigit(2, Q, e, x, 7, w[7], y);
    x, y := y, 0x61c35c85fe9fbc3c72f8e6fc6b69b01d3b7c504b3df986e8a4658b4f999a353f;
    e := PowerDigit(2, Q, e, x, 7, w[7], y);
    x, y := y, 0x4255d86fbc10253a88961173400b45a2997840c2d8f2e42e0b563cb1f16a75a1;
    e := PowerDigit(2, Q, e, x, 7, w[7], y);
    x, y := y, 0x4a7092a9de3e8c50291cf15f0358e81d7698548c905decbf21a7b3dc53715ea3;
    e := PowerDigit(2, Q, e, x, 7, w[7], y);
    x, y := y, 0x3b9cc3524e6bdb8580d278d115d042eaa7c19b2145a23a1197eb5466c460af7b;
    e := PowerDigit(2, Q, e, x, 7, w[7], y);
    x, y := y, 0x41364f9981abaf7ed0cf4072d21de43ed919ce6b91f7ba87de1062a5bf9326cc;
    e := PowerDigit(2, Q, e, x, 7, w[7], y);
  }

  lemma PowerOfQHalf2()
    ensures PowerIs(2, 0x1fffffffffffffffffffffffffffffffffffffffffffffffff, Q,
                    0x648c665b35748c2785c9fbb33cd925375ee04d74845fa2923ce309776edc5500)
  {
    hide Pow, PowerIs, Congruent, Divides, IsPrime;
    var w := PowerTable(2, Q);
    assert w[0] == 1;
    assert w[1] == 2;
    assert w[2] == 4;
    assert w[3] == 8;
    assert w[4] == 16;
    assert w[5] == 32;
    assert w[6] == 64;
    assert w[7] == 128;
    PowerOfQHalf1();
    var e: nat, x: int, y: int := 0x7ffffffffffffffffffffffffffffffff,
      0x41364f9981abaf7ed0cf4072d21de43ed919ce6b91f7ba87de1062a5bf9326cc,
      0x677eb04e9118fd8f89fc608b94681b76569eb188e10d8e4dd67ae287f3397b36;
    e := PowerDigit(2, Q, e, x, 7, w[7], y);
    x, y := y, 0x2704c3e10709d430d475e31db14a20806722f9d1ce4ef6d074467e95893ea801;
    e := PowerDigit(2, Q, e, x, 7, w[7], y);
    x, y := y, 0x2cb0dcdf1750c74a72c61d2c4aee2c31267a745b38bb3b7abb76b16eae1c3f2b;
    e := PowerDigit(2, Q, e, x, 7, w[7], y);
    x, y := y, 0x3012e63b6c18b7c3693e92e9c3106233077b5e5441117fd5e86880466bee868;
    e := PowerDigit(2, Q, e, x, 7, w[7], y);
    x, y := y, 0x59a50c8ac92d6c1b1d74ad1042757f7876ede60b4dcc07eeef43bb4de284a6c5;
    e := PowerDigit(2, Q, e, x, 7, w[7], y);
    x, y := y, 0x4f0dc24d1280e22b5677e07e2e1692d65b38f34c0a3a455ed74391ad158804e9;
    e := PowerDigit(2, Q, e, x, 7, w[7], y);
    x, y := y, 0xc0f1634d8374d86a38d952f4b190e9be7f363e76149c1cdf118fa7beb5f2a21;
    e := PowerDigit(2, Q, e, x, 7, w[7], y);
    x, y := y, 0xf2f6a58dd46d615b52e1a27f23fc57c53d0882b735d7314e8207e4cbdf363fd;
    e := PowerDigit(2, Q, e, x, 7, w[7], y);
    x, y := y, 0x148d28ac5b29f124e1a419997ef15f5063cd09d6f9264b42a11fe0e953b5339b;
    e := PowerDigit(2, Q, e, x, 7, w[7], y);
    x, y := y, 0x3ac4cdd312d5cbea8b140f7a382ccb7ac30a7d6bcc8bbc4f968160021d6be731;
    e := PowerDigit(2, Q, e, x, 7, w[7], y);
    x, y := y, 0x2f3b44dea79ce22969e28248b9627f8f91e77d11704a21f5bd9aa16c283d5c6d;
    e := PowerDigit(2, Q, e, x, 7, w[7], y);
    x, y := y, 0x7fef81a7d01be5db858ac1e0c8d5efc4ecd03a62af63472a8cd83a1f81be6ed0;
    e := PowerDigit(2, Q, e, x, 7, w[7], y);
    x, y := y, 0x365a1725c5975c06d6054245bba5080caf9e741df1be36a2c9c484bb07e33eb;
    e := PowerDigit(2, Q, e, x, 7, w[7], y);
    x, y := y, 0x1f038713c67d2518bcc84692fe012decb92b42b7926d186e422a34dc39eede93;
    e := PowerDigit(2, Q, e, x, 7, w[7], y);
    x, y := y, 0xdb23a9a95203b8ebb3e79ff8fcb4a85c01f68e00f5f51dfc2b7ceb7f8a4ebca;
    e := PowerDigit(2, Q, e, x, 7, w[7], y);
    x, y := y, 0x5b7fdc14c006017b416da389d0201482bbd63a94731ec0572f8c9789ff56b4e7;
    e := PowerDigit(2, Q, e, x, 7, w[7], y);
    x, y := y, 0xe6edbaa58d2a38905a875d9f3083976bc15d323675d522adb4485c4ff31e51e;
    e := PowerDigit(2, Q, e, x, 7, w[7], y);
    x, y := y, 0x51d223e61ac4eb6998d9771dc72c137e771bbfa62066c3693d01bc4af72df030;
    e := PowerDigit(2, Q, e, x, 7, w[7], y);
    x, y := y, 0x6acf703ef6f0238480649afbef9dbd593f396d92092d7c0e713f71033fec6d75;
    e := PowerDigit(2, Q, e, x, 7, w[7], y);
    x, y := y, 0x76fdb306a2b03a98b631b569ff0a668731dab5fd49c13f1de50b3b021a2e2fb6;
    e := PowerDigit(2, Q, e, x, 7, w[7], y);
    x, y := y, 0x6bca1a076b9e31319e5dbcf4e6686405641464d2c500127141feeaefa048f6f4;
    e := PowerDigit(2, Q, e, x, 7, w[7], y);
    x, y := y, 0x648c665b35748c2785c9fbb33cd925375ee04d74845fa2923ce309776edc5500;
    e := PowerDigit(2, Q, e, x, 7, w[7], y);
  }

  lemma PowerOfQHalf()
    ensures PowerIs(2, 0x3ffffffffffffffffffffffffffffffffffffffffffffffffffffffffffffff6, Q,
                    0x7fffffffffffffffffffffffffffffffffffffffffffffffffffffffffffffec)
  {
    hide Pow, PowerIs, Congruent, Divides, IsPrime;
    var w := PowerTable(2, Q);
    assert w[0] == 1;
    assert w[1] == 2;
    assert w[2] == 4;
    assert w[3] == 8;
    assert w[4] == 16;
    assert w[5] == 32;
    assert w[6] == 64;
    assert w[7] == 128;
    PowerOfQHalf2();
    var e: nat, x: int, y: int := 0x1fffffffffffffffffffffffffffffffffffffffffffffffff,
      0x648c665b35748c2785c9fbb33cd925375ee04d74845fa2923ce309776edc5500,
      0x4708fd1d49a240e8047cca68e2b902d9528690d5b30a54ae98ef0810e3d8078d;
    e := PowerDigit(2, Q, e, x, 7, w[7], y);
    x, y := y, 0x56a07718b3fd3192ac8020bbd4b54f4df397d79ef160a42155ada0e4fa5a712f;
    e := PowerDigit(2, Q, e, x, 7, w[7], y);
    x, y := y, 0xf2ec932d1797488b4f7d6595a03d1990d50adbab1caecd189996f1f577ec927;
    e := PowerDigit(2, Q, e, x, 7, w[7], y);
    x, y := y, 0x36c8d57fe59cf5b50131893beff5f19a251093de6f438d8e769dbe66d5998e86;
    e := PowerDigit(2, Q, e, x, 7, w[7], y);
    x, y := y, 0x6caa96919a793352c65f64132a665a1887230380614199d0e087a9a94895b20;
    e := PowerDigit(2, Q, e, x, 7, w[7], y);
    x, y := y, 0x794c22ee8022654e58f5706e8a04cbfbe9de24a9846a8d69886836cd82670d3e;
    e := PowerDigit(2, Q, e, x, 7, w[7], y);
    x, y := y, 0x1987ba8628bb48bac640e8a86a9475a6b6c758838824607a5270f18bfa0a9fae;
    e := PowerDigit(2, Q, e, x, 7, w[7], y);
    x, y := y, 0x34b0237582fc32db8566225e50136ee4c161cbcfd89284ffe369393c3e6d952c;
    e := PowerDigit(2, Q, e, x, 7, w[7], y);
    x, y := y, 0x36662b1935aeba2ed9ca4092a29ca8eaf63264a1de78bdf68209818eb72a1e18;
    e := PowerDigit(2, Q, e, x, 7, w[7], y);
    x, y := y, 0x5f3d73b11382bbf3bc19500498e41d4837b4f764c49f57ea2468b4039cf497;
    e := PowerDigit(2, Q, e, x, 7, w[7], y);
    x, y := y, 0x253392fca6d90387fcbc0a72674718f9a9033b76341157cd8ed443031c998804;
    e := PowerDigit(2, Q, e, x, 7, w[7], y);
    x, y := y, 0x48cbdcee84fc53ac5e5ec953add55b257eb1f2e0b0859fd7da3242f4b58f4a7;
    e := PowerDigit(2, Q, e, x, 7, w[7], y);
    x, y := y, 0xc044534349a3c04887bdb6773ab62d7138332f7ddf2fc238833d5014dbeae58;
    e := PowerDigit(2, Q, e, x, 7, w[7], y);
    x, y := y, 0x5f8d3e6839da7774898646dab878c348b669e49b6959a13450d0ba09f5f12cf3;
    e := PowerDigit(2, Q, e, x, 7, w[7], y);
    x, y := y, 0x868f06590bdfc693d9e5133cacf0b5e3c5aa6e68ceeef57b33c556d993d05f1;
    e := PowerDigit(2, Q, e, x, 7, w[7], y);
    x, y := y, 0x4318c76c03527f54180d82e2b2c4d3840720d138a124a57cf83da4a363527785;
    e := PowerDigit(2, Q, e, x, 7, w[7], y);
    x, y := y, 0x38c96be353a2528c9d770a44bbf1f49aa37ddc973af2cf88d745ed3e1e28b81d;
    e := PowerDigit(2, Q, e, x, 7, w[7], y);
    x, y := y, 0x32c3972e911d2f7bb05f4b8c6db60e0038687a672696cc25eecf94076fb5c22b;
    e := PowerDigit(2, Q, e, x, 6, w[6], y);
    x, y := y, 0x7fffffffffffffffffffffffffffffffffffffffffffffffffffffffffffffec;
    e := PowerDigit(2, Q, e, x, 6, w[6], y);
  }

  lemma PowerOfQCofactor()
    ensures PowerIs(2, 781764, Q, 0xf1ba0c491eeef83c49fc1b744331bb096d4893142c187431f7b03e61a75a49)
  {
    hide Pow, PowerIs, Congruent, Divides, IsPrime;
    var w := PowerTable(2, Q);
    assert w[0] == 1;
    assert w[1] == 2;
    assert w[2] == 4;
    assert w[3] == 8;
    assert w[4] == 16;
    assert w[5] == 32;
    assert w[6] == 64;
    assert w[7] == 128;
    var e: nat, x: int, y: int := 0, 1, 4;
    e := PowerDigit(2, Q, e, x, 2, w[2], y);
    x, y := y, 0x800000; e := PowerDigit(2, Q, e, x, 7, w[7], y);
    x, y := y, 0x400000000000000000000000000000000000000000000000; e := PowerDigit(2, Q, e, x, 6, w[6], y);
    x, y := y, 0x18000000000000000000000000000000000000000000000000000000002cddcc;
    e := PowerDigit(2, Q, e, x, 6, w[6], y);
    x, y := y, 0x162216c0000000000007778a91c0dd372b6facff37ea5ac6606bd318fa0e0f79;
    e := PowerDigit(2, Q, e, x, 7, w[7], y);
    x, y := y, 0x4029dd07f147e9f9cf214b626c20bb9c254fc9c7d0b5bdf5cd1e706290bb9f73;
    e := PowerDigit(2, Q, e, x, 0, w[0], y);
    x, y := y, 0xf1ba0c491eeef83c49fc1b744331bb096d4893142c187431f7b03e61a75a49;
    e := PowerDigit(2, Q, e, x, 4, w[4], y);
  }

  lemma QIsPrime()
    ensures IsPrime(Q)
  {
    hide Pow, PowerIs, Congruent, Divides, IsPrime;
    PowerOfQHalf();
    PowerSquared(2, 0x3ffffffffffffffffffffffffffffffffffffffffffffffffffffffffffffff6, Q,
                 0x7fffffffffffffffffffffffffffffffffffffffffffffffffffffffffffffec, 1);
    PowerOfQCofactor();
    PIsPrime();
    CertifyFactor(Q, P, 781764, 2, 0xf1ba0c491eeef83c49fc1b744331bb096d4893142c187431f7b03e61a75a49,
                  0x7acaff384090e983b641a51e1df0807078e467d06ab8164555f0f7fd51653bdc);
    PrimeByLargeFactor(Q, P);
  }

  lemma PowerOfCurveHalf0()
    ensures PowerIs(CURVE, 0x1ffffffffffffffff, Q, 0x6473a5fb53c15b4b619e0124c18743b4168cf456ce91c3a9bfb6852315755dd8)
  {
    hide Pow, PowerIs, Congruent, Divides, IsPrime;
    var w := PowerTable(CURVE, Q);
    assert w[0] == 1;
    assert w[1] == 0x52036cee2b6ffe738cc740797779e89800700a4d4141d8ab75eb4dca135978a3;
    assert w[2] == 0x7d6f8d574d4c1f28666b5422418f201bd37e5ec732a1caf01d83f63e6ba03e78;
    assert w[3] == 0x4b5504954240b390e31642c6cbf105e5f77fbd3ca7869a8054b69a6b2b05869c;
    assert w[4] == 0x21bb3edc427fb8920c81c9050b381cc68a9d97580f1f287c1388b2dce0c056d7;
    assert w[5] == 0x57f04826abc5b63c73671433f356eeb9ceae2442337a61c67d9deb5c3344e5ab;
    assert w[6] == 0x5d01cf4e6826a29a7c555c5721dd9b224b2dd31a2862539f29c345fc4b2372d0;
    assert w[7] == 0x3d9336f03800c568a6966b5d58e98606b26e6be627ee384c7e511d742693c7ca;
    var e: nat, x: int, y: int := 0, 1, 0x4b5504954240b390e31642c6cbf105e5f77fbd3ca7869a8054b69a6b2b05869c;
    e := PowerDigit(CURVE, Q, e, x, 3, w[3], y);
    x, y := y, 0x20fd2da2087795b3f59690f2fbaa577c4f90775a564644e4d809aa9c39e80ba0;
    e := PowerDigit(CURVE, Q, e, x, 7, w[7], y);
    x, y := y, 0x152aef4a7cbebffa6e33a7f8adccd755cd0a7330b54e6ee6c848c261ac566fc4;
    e := PowerDigit(CURVE, Q, e, x, 7, w[7], y);
    x, y := y, 0x923bfc46589d1b8a57fe1bd0cc5bd409339755c2b4605ec7f86c00712a5fdca;
    e := PowerDigit(CURVE, Q, e, x, 7, w[7], y);
    x, y := y, 0x36a5b4a6876604692fea042d822e4520309131e6cb08bad5eee9b7ddaddd0ab;
    e := PowerDigit(CURVE, Q, e, x, 7, w[7], y);
    x, y := y, 0x7825eb4c0d60072cbbd37989f22090a5c052601d5ccad22f84ec7268b014ac73;
    e := PowerDigit(CURVE, Q, e, x, 7, w[7], y);
    x, y := y, 0x175e633c4c0e1ac9cec491cdbbeac05071969d7d1c79d5138cde801f61f34db2;
    e := PowerDigit(CURVE, Q, e, x, 7, w[7], y);
    x, y := y, 0xfeb6512eb6b610c2046f54de36879f8687b156fd1d3513fcdd24bb7dee31f03;
    e := PowerDigit(CURVE, Q, e, x, 7, w[7], y);
    x, y := y, 0x32fdcbb893edfcba6f2dee88b207e99ee2e687e8f873f1e41c49dfb77d1b692b;
    e := PowerDigit(CURVE, Q, e, x, 7, w[7], y);
    x, y := y, 0x728d1291b58a223e6ccae138ac82bf045b70d87a7806665002a18e4427262cea;
    e := PowerDigit(CURVE, Q, e, x, 7, w[7], y);
    x, y := y, 0x286f28b52d9f8eb6f80fd53fa4dc3b5d78d9e08f28b46be20f7f77431f629b6b;
    e := PowerDigit(CURVE, Q, e, x, 7, w[7], y);
    x, y := y, 0xbc5d44d82b3b7b459b76902e4c3f3948acbd56ba62fa5875f646257a41830ec;
    e := PowerDigit(CURVE, Q, e, x, 7, w[7], y);
    x, y := y, 0xc0694aa55b9b39d96d3faea3814bb7822cbf03b94d230c7d6ed39c23416e89b;
    e := PowerDigit(CURVE, Q, e, x, 7, w[7], y);
    x, y := y, 0xfbdb9a624f37dec459e094279cc201388e3fab681a948e4f0586a0edd0e7cfa;
    e := PowerDigit(CURVE, Q, e, x, 7, w[7], y);
    x, y := y, 0x5801314ed27f3d847bbe836e0f799f1f38709cac6da37883ba92033cc3efe94f;
    e := PowerDigit(CURVE, Q, e, x, 7, w[7], y);
    x, y := y, 0x110f94885697aa4508e98ebafaaec0938e5bc63d67811f00a167dcf67a4e2ede;
    e := PowerDigit(CURVE, Q, e, x, 7, w[7], y);
    x, y := y, 0x7c0dce84e02716f9b12f09da3f99c49976740b80b881d1d2cdf50a5e49a7f204;
    e := PowerDigit(CURVE, Q, e, x, 7, w[7], y);
    x, y := y, 0x4bcb3dbe9aa64b3e635863e0be4acb26de802dc38b9d47a22bbdc3e43bf8e325;
    e := PowerDigit(CURVE, Q, e, x, 7, w[7], y);
    x, y := y, 0x2f6f0fdea3432a978c4a9e626d8446d92c0e5e802e003a6c69bd57c2deeaf73d;
    e := PowerDigit(CURVE, Q, e, x, 7, w[7], y);
    x, y := y, 0xe4eba4a93b98750c9c7f6e5464963acf20c23dd31b794a4acd2c0695ced7d9e;
    e := PowerDigit(CURVE, Q, e, x, 7, w[7], y);
    x, y := y, 0x1e57e449d7e78d8a609a352e669ced59078d467c53900eefb80d2634ac3d5e3f;
    e := PowerDigit(CURVE, Q, e, x, 7, w[7], y);
    x, y := y, 0x6473a5fb53c15b4b619e0124c18743b4168cf456ce91c3a9bfb6852315755dd8;
    e := PowerDigit(CURVE, Q, e, x, 7, w[7], y);
  }

  lemma PowerOfCurveHalf1()
    ensures PowerIs(CURVE, 0x7ffffffffffffffffffffffffffffffff, Q,
                    0x66151ea5864e25b6f22a0e42ec9505079b737894ce48db9c462d0d8db1e67d04)
  {
    hide Pow, PowerIs, Congruent, Divides, IsPrime;
    var w := PowerTable(CURVE, Q);
    assert w[0] == 1;
    assert w[1] == 0x52036cee2b6ffe738cc740797779e89800700a4d4141d8ab75eb4dca135978a3;
    assert w[2] == 0x7d6f8d574d4c1f28666b5422418f201bd37e5ec732a1caf01d83f63e6ba03e78;
    assert w[3] == 0x4b5504954240b390e31642c6cbf105e5f77fbd3ca7869a8054b69a6b2b05869c;
    assert w[4] == 0x21bb3edc427fb8920c81c9050b381cc68a9d97580f1f287c1388b2dce0c056d7;
    assert w[5] == 0x57f04826abc5b63c73671433f356eeb9ceae2442337a61c67d9deb5c3344e5ab;
    assert w[6] == 0x5d01cf4e6826a29a7c555c5721dd9b224b2dd31a2862539f29c345fc4b2372d0;
    assert w[7] == 0x3d9336f03800c568a6966b5d58e98606b26e6be627ee384c7e511d742693c7ca;
    PowerOfCurveHalf0();
    var e: nat, x: int, y: int := 0x1ffffffffffffffff,
      0x6473a5fb53c15b4b619e0124c18743b4168cf456ce91c3a9bfb6852315755dd8,
      0x70872ad15af5d27774565a6748f10d58aaa55d1f168bd3744f806a5a1eef835a;
    e := PowerDigit(CURVE, Q, e, x, 7, w[7], y);
    x, y := y, 0x313fc431287862faa340190e6e192808c4bd991f55ef092b093970cb6b854efc;
    e := PowerDigit(CURVE, Q, e, x, 7, w[7], y);
    x, y := y, 0x7f55f03bc6acbffab08c57f8cd1be08c6e97b631e624bd846c2293a6d1691550;
    e := PowerDigit(CURVE, Q, e, x, 7, w[7], y);
    x, y := y, 0x1913694b9bff1a0d93bafb12d6384b111112466ef4b79a87738bd38fea9c462c;
    e := PowerDigit(CURVE, Q, e, x, 7, w[7], y);
    x, y := y, 0x1e2a3163662cb7ffc008f270e1c50115bf0161e4b8816aa40f2ba83a3344912e;
    e := PowerDigit(CURVE, Q, e, x, 7, w[7], y);
    x, y := y, 0x183037d56a368e133d06e842062daf5ce8feea4137678db26740d9881387a51d;
    e := PowerDigit(CURVE, Q, e, x, 7, w[7], y);
    x, y := y, 0x5bb9c8bd1153b3c2bb324892b5c37aecd0a6b8ccdba5a6c8769081e68c7e6d7e;
    e := PowerDigit(CURVE, Q, e, x, 7, w[7], y);
    x, y := y, 0x73e6b508df52136e75668a5444051523f42eecbe23c5bf35f988c7965d5ea95f;
    e := PowerDigit(CURVE, Q, e, x, 7, w[7], y);
    x, y := y, 0x3deee3736ca1e4a9499dc708af738ed76ff69a1b2dbf40be2d0fc99664479404;
    e := PowerDigit(CURVE, Q, e, x, 7, w[7], y);
    x, y := y, 0xd03a94402c48f8089dce478a27185674f421768937965f658aa2ed631a95b94;
    e := PowerDigit(CURVE, Q, e, x, 7, w[7], y);
    x, y := y, 0x2ac6dd818fac629183f98273b6105aef4107d805240a43fb3183639aef85cd23;
    e := PowerDigit(CURVE, Q, e, x, 7, w[7], y);
    x, y := y, 0x1624fdec5019bd7f84255ed584ece449a18135646e3eaf6487e3e297733e1b7b;
    e := PowerDigit(CURVE, Q, e, x, 7, w[7], y);
    x, y := y, 0xd298b5f84b9c752706bf3750d06ef1f14eb2f4fd0ce04b0a2e2a021ed37f08d;
    e := PowerDigit(CURVE, Q, e, x, 7, w[7], y);
    x, y := y, 0x70bc8396bf1f4e9014ddc39397e23d546e80c891907e3e363b043b570f1d9b5;
    e := PowerDigit(CURVE, Q, e, x, 7, w[7], y);
    x, y := y, 0x2524366773df9cfcdc38527a1ed37c6aaea156ec9d9f4c21696b0f45326916f3;
    e := PowerDigit(CURVE, Q, e, x, 7, w[7], y);
    x, y := y, 0x1236ab3cce5c811f380a5425c36b59ded0959a6546e0b2ba6dad0cde3f122715;
    e := PowerDigit(CURVE, Q, e, x, 7, w[7], y);
    x, y := y, 0x6283df7318fb54537acb82fa7fc2f162e1f0ced7fde3ce8e01140b470047e960;
    e := PowerDigit(CURVE, Q, e, x, 7, w[7], y);
    x, y := y, 0x2b12234051252a1b0a1c8278b153eae44e79fcaaac0ae21a00472b268c2737c7;
    e := PowerDigit(CURVE, Q, e, x, 7, w[7], y);
    x, y := y, 0x6a10ecf7278a4c52f4ce152b216d5e8d3a016ff566745135e2f3d5e8d9d449e0;
    e := PowerDigit(CURVE, Q, e, x, 7, w[7], y);
    x, y := y, 0x1ca7d5b6a0740bd931a55ecf2cc94c5097796de6c1ea6400db5f327e2008da29;
    e := PowerDigit(CURVE, Q, e, x, 7, w[7], y);
    x, y := y, 0x1e33ff5d45567bc05d9d55d823c69327eff2ff894421b213e1eac3de323a4694;
    e := PowerDigit(CURVE, Q, e, x, 7, w[7], y);
    x, y := y, 0x66151ea5864e25b6f22a0e42ec9505079b737894ce48db9c462d0d8db1e67d04;
    e := PowerDigit(CURVE, Q, e, x, 7, w[7], y);
  }

  lemma PowerOfCurveHalf2()
    ensures PowerIs(CURVE, 0x1fffffffffffffffffffffffffffffffffffffffffffffffff, Q,
                    0x48acb9712fde3b2d4ab676f72fb4f46e08314333a5ebf07c7cb6d7883dadf535)
  {
    hide Pow, PowerIs, Congruent, Divides, IsPrime;
    var w := PowerTable(CURVE, Q);
    assert w[0] == 1;
    assert w[1] == 0x52036cee2b6ffe738cc740797779e89800700a4d4141d8ab75eb4dca135978a3;
    assert w[2] == 0x7d6f8d574d4c1f28666b5422418f201bd37e5ec732a1caf01d83f63e6ba03e78;
    assert w[3] == 0x4b5504954240b390e31642c6cbf105e5f77fbd3ca7869a8054b69a6b2b05869c;
    assert w[4] == 0x21bb3edc427fb8920c81c9050b381cc68a9d97580f1f287c1388b2dce0c056d7;
    assert w[5] == 0x57f04826abc5b63c73671433f356eeb9ceae2442337a61c67d9deb5c3344e5ab;
    assert w[6] == 0x5d01cf4e6826a29a7c555c5721dd9b224b2dd31a2862539f29c345fc4b2372d0;
    assert w[7] == 0x3d9336f03800c568a6966b5d58e98606b26e6be627ee384c7e511d742693c7ca;
    PowerOfCurveHalf1();
    var e: nat, x: int, y: int := 0x7ffffffffffffffffffffffffffffffff,
      0x66151ea5864e25b6f22a0e42ec9505079b737894ce48db9c462d0d8db1e67d04,
      0x76c54a4f5e7f3e6d6339a788b81ebea03406aaddeac6eef7f4943f336d58f3f4;
    e := PowerDigit(CURVE, Q, e, x, 7, w[7], y);
    x, y := y, 0x5b65f57f30b428af7ebdce5c8f8c1560590c12e3c8c09ecaf9edb9962a92397b;
    e := PowerDigit(CURVE, Q, e, x, 7, w[7], y);
    x, y := y, 0x4153125d54312990b3f53bff2c19f97ca362b48a449dd969f83cf75b2a8f48d9;
    e := PowerDigit(CURVE, Q, e, x, 7, w[7], y);
    x, y := y, 0x48b381bf5e3def4aa52ebcedf2550f82778d87cf249e818738d4ee759f05472;
    e := PowerDigit(CURVE, Q, e, x, 7, w[7], y);
    x, y := y, 0x7870a295e97818fa28cd563f8d399b86d50bf2044793ee4075358a004b37d83;
    e := PowerDigit(CURVE, Q, e, x, 7, w[7], y);
    x, y := y, 0x388a45786bdeb14bb55f99abdc2eba6bf174be0e46e557ca60396917c1a4ec0c;
    e := PowerDigit(CURVE, Q, e, x, 7, w[7], y);
    x, y := y, 0x413381a62f762e9216fbde6408bfb40b3e0af633f93beb322ff2bb68eb7978a1;
    e := PowerDigit(CURVE, Q, e, x, 7, w[7], y);
    x, y := y, 0x6620163c4a84151b148ff19478c0498500d8ceeadf8f66b878788a4d5189e7e1;
    e := PowerDigit(CURVE, Q, e, x, 7, w[7], y);
    x, y := y, 0x2a0d09af95fe69ad43f2ed653a4aea597d1308687e3d1baae4a3e1b7e4b503e8;
    e := PowerDigit(CURVE, Q, e, x, 7, w[7], y);
    x, y := y, 0x47f3ec1b38705d5a6d99c8aeb1e9a31454995e06037cdba5a01949527b47bf74;
    e := PowerDigit(CURVE, Q, e, x, 7, w[7], y);
    x, y := y, 0xf5e13b8fa76fd58234a9318f4fff3b1fb8aad1187d34b0060854e2c2f1d2f99;
    e := PowerDigit(CURVE, Q, e, x, 7, w[7], y);
    x, y := y, 0x7eeec26a145d87fa643a92d1fde9a08299743d724420ca3f265ae655995c3651;
    e := PowerDigit(CURVE, Q, e, x, 7, w[7], y);
    x, y := y, 0x56689496fb28ead7397581078ae05c00a2787def9ed62647194ccdb225bcc6d3;
    e := PowerDigit(CURVE, Q, e, x, 7, w[7], y);
    x, y := y, 0x770ae9fa5b7c62721f6be69ddaacbd6ced86e70c82fce9570f21a50b0bfa6b1c;
    e := PowerDigit(CURVE, Q, e, x, 7, w[7], y);
    x, y := y, 0x4a705e894a61b862c7c3e1cb65871a77fb2b15a55864a970902d93e35026608a;
    e := PowerDigit(CURVE, Q, e, x, 7, w[7], y);
    x, y := y, 0x6c96b7a8baba36cfc299b0c9fd9466c06dc196af3d6f640fd0c1fa8c3d9d454f;
    e := PowerDigit(CURVE, Q, e, x, 7, w[7], y);
    x, y := y, 0x1c5891ce239708fe5586f3f7f631a4eebce1dec5b3128fe36140dd049fc7858a;
    e := PowerDigit(CURVE, Q, e, x, 7, w[7], y);
    x, y := y, 0x6e43ee1434f387c56b357fae23ec9bb1f1464d09b371a79dabd2df44fdcb6d4e;
    e := PowerDigit(CURVE, Q, e, x, 7, w[7], y);
    x, y := y, 0x429d9d4a443ef032dc12800a8f0d1717c8483839e32c96273b258d11c03455d5;
    e := PowerDigit(CURVE, Q, e, x, 7, w[7], y);
    x, y := y, 0x5e5478128730ab4acd50a488c45b907d21aa7ba0eceb7a682f2434039bd93ca7;
    e := PowerDigit(CURVE, Q, e, x, 7, w[7], y);
    x, y := y, 0x2a97e4875fdfe4e5d619f28dbf3e750f886bc981d251fa5b37f3bb9d929a464;
    e := PowerDigit(CURVE, Q, e, x, 7, w[7], y);
    x, y := y, 0x48acb9712fde3b2d4ab676f72fb4f46e08314333a5ebf07c7cb6d7883dadf535;
    e := PowerDigit(CURVE, Q, e, x, 7, w[7], y);
  }

  lemma PowerOfCurveHalf()
    ensures PowerIs(CURVE, 0x3ffffffffffffffffffffffffffffffffffffffffffffffffffffffffffffff6, Q,
                    0x7fffffffffffffffffffffffffffffffffffffffffffffffffffffffffffffec)
  {
    hide Pow, PowerIs, Congruent, Divides, IsPrime;
    var w := PowerTable(CURVE, Q);
    assert w[0] == 1;
    assert w[1] == 0x52036cee2b6ffe738cc740797779e89800700a4d4141d8ab75eb4dca135978a3;
    assert w[2] == 0x7d6f8d574d4c1f28666b5422418f201bd37e5ec732a1caf01d83f63e6ba03e78;
    assert w[3] == 0x4b5504954240b390e31642c6cbf105e5f77fbd3ca7869a8054b69a6b2b05869c;
    assert w[4] == 0x21bb3edc427fb8920c81c9050b381cc68a9d97580f1f287c1388b2dce0c056d7;
    assert w[5] == 0x57f04826abc5b63c73671433f356eeb9ceae2442337a61c67d9deb5c3344e5ab;
    assert w[6] == 0x5d01cf4e6826a29a7c555c5721dd9b224b2dd31a2862539f29c345fc4b2372d0;
    assert w[7] == 0x3d9336f03800c568a6966b5d58e98606b26e6be627ee384c7e511d742693c7ca;
    PowerOfCurveHalf2();
    var e: nat, x: int, y: int := 0x1fffffffffffffffffffffffffffffffffffffffffffffffff,
      0x48acb9712fde3b2d4ab676f72fb4f46e08314333a5ebf07c7cb6d7883dadf535,
      0x7d8055634c94f31cd53254034328202d8b93c91f589fc0f364c2205ba8819eb4;
    e := PowerDigit(CURVE, Q, e, x, 7, w[7], y);
    x, y := y, 0x7c9406524484524b6b296df82d95ffcc4fab7a7ce3974f2a42878b62eae914ab;
    e := PowerDigit(CURVE, Q, e, x, 7, w[7], y);
    x, y := y, 0x7ae8122358bf6705b147eb4a9fa94c8d37c9fe8227367ffd3bf7ca8c3f0ad34d;
    e := PowerDigit(CURVE, Q, e, x, 7, w[7], y);
    x, y := y, 0x128f74fa6f06563bf93db4c3d3dc52b9a1ac85e064a27d5d8919de994eda584b;
    e := PowerDigit(CURVE, Q, e, x, 7, w[7], y);
    x, y := y, 0x28eae3f774b2d934feff81fa86f439f39ac38a16c4fe97456de1a9c90a992fe4;
    e := PowerDigit(CURVE, Q, e, x, 7, w[7], y);
    x, y := y, 0x4f47a626383be0848ff5eaceeaffb7058b11454f5f10e30a51c01582b1bf0808;
    e := PowerDigit(CURVE, Q, e, x, 7, w[7], y);
    x, y := y, 0x4c803d9d821a9a8946ddc3b52d1621ed4e6631918495a2f1a3e29120ebbfba6c;
    e := PowerDigit(CURVE, Q, e, x, 7, w[7], y);
    x, y := y, 0x5160ead33318031604d41decdffc048f33cfeb5955bb55a4d11351881c533f40;
    e := PowerDigit(CURVE, Q, e, x, 7, w[7], y);
    x, y := y, 0x45b2f23ae252441ccad655829814a872d3f5ff0b31f52616441641e7b2000c2c;
    e := PowerDigit(CURVE, Q, e, x, 7, w[7], y);
    x, y := y, 0x7c18fb9b36720adf72bd94d7f3669eaa94550008897318faf658261f5301dcf5;
    e := PowerDigit(CURVE, Q, e, x, 7, w[7], y);
    x, y := y, 0x579b4bf9e8fced8ca038d75778442134ddf6f567379176432aca0d3d7e3668c1;
    e := PowerDigit(CURVE, Q, e, x, 7, w[7], y);
    x, y := y, 0x2997680f94bc93f7167ebcd73e805c4a4adf6450dc782eb01dc8ff2301c0ffb6;
    e := PowerDigit(CURVE, Q, e, x, 7, w[7], y);
    x, y := y, 0x615b45977159e115bde44b5db629aed937f67640ae7bf59ba04c8d81e3accbfc;
    e := PowerDigit(CURVE, Q, e, x, 7, w[7], y);
    x, y := y, 0x2f2ba5aa11bac7ee214acff9e550d26459a5a940bbb3bc127684a66b27261e19;
    e := PowerDigit(CURVE, Q, e, x, 7, w[7], y);
    x, y := y, 0x30f425edad28d0293285b7ee0847138c8c5e8f33c4c4d9be8ba1429010002b0a;
    e := PowerDigit(CURVE, Q, e, x, 7, w[7], y);
    x, y := y, 0x597aabf4807c14769061de537dc5554521c0b993cc30993aff619869f2e6109c;
    e := PowerDigit(CURVE, Q, e, x, 7, w[7], y);
    x, y := y, 0x458e8ccf4b8fef9c5f630c2583852b4d0891857c2573b54492022780244e11d1;
    e := PowerDigit(CURVE, Q, e, x, 7, w[7], y);
    x, y := y, 0x31e235b69712dd82356b54beb93ea377fc7022ac7e7f03ed2e28e04facfb4b41;
    e := PowerDigit(CURVE, Q, e, x, 6, w[6], y);
    x, y := y, 0x7fffffffffffffffffffffffffffffffffffffffffffffffffffffffffffffec;
    e := PowerDigit(CURVE, Q, e, x, 6, w[6], y);
  }
}
