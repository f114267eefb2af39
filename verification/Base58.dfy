/** The Base58 codec: bytes to alphabet strings and back through one big integer. */
module Base58 {
  import opened Common
  import opened Radix
  import opened NumberTheory

  /** `_B58_ALPHABET`, split where its character codes jump. */
  const ALPHABET: string :=
    "123456789" + "ABCDEFGH" + "JKLMN" + "PQRSTUVWXYZ" + "abcdefghijk" + "mnopqrstuvwxyz"

  /** `_B58_INDEX.get(c)`. */
  function IndexOf(c: char): Option<nat>
  {
    FindFrom(c, 0)
  }

  function FindFrom(c: char, i: nat): (r: Option<nat>)
    ensures r.Some? ==> i <= r.value < |ALPHABET| && ALPHABET[r.value] == c
    ensures r.None? ==> forall j :: i <= j < |ALPHABET| ==> ALPHABET[j] != c
    decreases |ALPHABET| - i
  {
    if i >= |ALPHABET| then None
    else if ALPHABET[i] == c then Some(i)
    else FindFrom(c, i + 1)
  }

  predicate AllInAlphabet(s: string)
  {
    forall i :: 0 <= i < |s| ==> s[i] in ALPHABET
  }

  function Char(d: nat): char
  {
    if d < |ALPHABET| then ALPHABET[d] else '?'
  }

  function Chars(ds: seq<nat>): string
  {
    seq(|ds|, i requires 0 <= i < |ds| => Char(ds[i]))
  }

  /** The digit values of an alphabet string. */
  function Indices(s: string): (ds: seq<nat>)
    requires AllInAlphabet(s)
    ensures |ds| == |s| && forall i :: 0 <= i < |s| ==> ds[i] < |ALPHABET| && ALPHABET[ds[i]] == s[i]
  {
    seq(|s|, i requires 0 <= i < |s| => IndexOf(s[i]).value)
  }

  function Nats(data: seq<byte>): seq<nat>
  {
    seq(|data|, i requires 0 <= i < |data| => data[i])
  }

  function Bytes(ds: seq<nat>): seq<byte>
    requires ValidDigits(ds, 256)
  {
    seq(|ds|, i requires 0 <= i < |ds| => ds[i])
  }

  // ---------- specification ----------

  function Encode(data: seq<byte>): string
  {
    Repeat('1', LeadingRun(data, 0)) + Chars(Digits(Eval(Nats(data), 256), 58))
  }

  function Decode(s: string): Result<seq<byte>, string>
  {
    if !AllInAlphabet(s) then Err("invalid base58 character")
    else
      var n := Eval(Indices(s), 58);
      EvalOfDigits(n, 256);
      Ok(Repeat(0, LeadingRun(s, '1')) + Bytes(Digits(n, 256)))
  }

  // ---------- Python's integer helpers ----------

  function BitLength(n: nat): nat
  {
    if n == 0 then 0 else 1 + BitLength(n / 2)
  }

  /** `n.to_bytes(length, "big")`, for an n that fits. */
  function ToBytes(n: nat, length: nat): seq<byte>
  {
    if length == 0 then [] else ToBytes(n / 256, length - 1) + [n % 256]
  }

  lemma BitLengthOfByteShift(n: nat)
    requires n >= 256
    ensures BitLength(n) == 8 + BitLength(n / 256)
  {
    assert n / 2 / 2 / 2 / 2 / 2 / 2 / 2 / 2 == n / 256;
    var n1, n2, n3, n4 := n / 2, n / 4, n / 8, n / 16;
    var n5, n6, n7 := n / 32, n / 64, n / 128;
    assert BitLength(n) == 1 + BitLength(n1) && BitLength(n1) == 1 + BitLength(n1 / 2);
    assert n1 / 2 == n2 && n2 / 2 == n3 && n3 / 2 == n4 && n4 / 2 == n5 && n5 / 2 == n6 && n6 / 2 == n7;
    assert BitLength(n2) == 1 + BitLength(n3) && BitLength(n3) == 1 + BitLength(n4);
    assert BitLength(n4) == 1 + BitLength(n5) && BitLength(n5) == 1 + BitLength(n6);
    assert BitLength(n6) == 1 + BitLength(n7) && BitLength(n7) == 1 + BitLength(n / 256);
  }

  lemma {:induction false} BitLengthAtMost(n: nat, k: nat)
    requires n < Pow(2, k)
    ensures BitLength(n) <= k
  {
    if n > 0 {
      assert Pow(2, k) == 2 * Pow(2, k - 1);
      BitLengthAtMost(n / 2, k - 1);
    }
  }

  lemma BitLengthOfByte(n: nat)
    requires 0 < n < 256
    ensures 1 <= BitLength(n) <= 8
  {
    assert Pow(2, 8) == 256;
    BitLengthAtMost(n, 8);
  }

  /** The minimal big-endian byte string is the base-256 numeral. */
  lemma {:induction false} ToBytesIsDigits(n: nat)
    ensures ValidDigits(Digits(n, 256), 256)
    ensures ToBytes(n, (BitLength(n) + 7) / 8) == Bytes(Digits(n, 256))
  {
    EvalOfDigits(n, 256);
    if n > 0 {
      ToBytesIsDigits(n / 256);
      if n >= 256 {
        BitLengthOfByteShift(n);
      } else {
        BitLengthOfByte(n);
        assert Digits(n / 256, 256) == [];
      }
    }
  }

  // ---------- the alphabet ----------

  lemma RunAscends(s: string, i: nat)
    requires s in {"123456789", "ABCDEFGH", "JKLMN", "PQRSTUVWXYZ", "abcdefghijk", "mnopqrstuvwxyz"}
    requires i + 1 < |s|
    ensures s[i] < s[i + 1]
  {
  }

  lemma AlphabetAscends(i: nat)
    requires i + 1 < |ALPHABET|
    ensures ALPHABET[i] < ALPHABET[i + 1]
  {
    var a, b, c, d, e, f := "123456789", "ABCDEFGH", "JKLMN", "PQRSTUVWXYZ", "abcdefghijk", "mnopqrstuvwxyz";
    assert ALPHABET == a + b + c + d + e + f;
    if i < 8 { RunAscends(a, i); }
    else if 8 < i < 16 { RunAscends(b, i - 9); }
    else if 16 < i < 21 { RunAscends(c, i - 17); }
    else if 21 < i < 32 { RunAscends(d, i - 22); }
    else if 32 < i < 43 { RunAscends(e, i - 33); }
    else if 43 < i { RunAscends(f, i - 44); }
  }

  lemma AlphabetShape()
    ensures |ALPHABET| == 58 && ALPHABET[0] == '1'
  {
  }

  /** A run of consecutive characters holds exactly those between its ends. */
  lemma RunHolds(s: string, c: char)
    requires s in {"123456789", "ABCDEFGH", "JKLMN", "PQRSTUVWXYZ", "abcdefghijk", "mnopqrstuvwxyz"}
    ensures c in s <==> s[0] <= c <= s[|s| - 1]
  {
    if s[0] <= c <= s[|s| - 1] {
      var k := c as int - s[0] as int;
      assert s[k] == c;
    }
  }

  /** The alphabet is the digits and letters without 0, I, O and l; it ascends, so this fixes it. */
  lemma AlphabetExactly(c: char)
    ensures c in ALPHABET <==>
            ('1' <= c <= '9' || 'A' <= c <= 'Z' || 'a' <= c <= 'z') && c != 'I' && c != 'O' && c != 'l'
  {
    var r1, r2, r3, r4, r5, r6 := "123456789", "ABCDEFGH", "JKLMN", "PQRSTUVWXYZ", "abcdefghijk", "mnopqrstuvwxyz";
    assert ALPHABET == r1 + r2 + r3 + r4 + r5 + r6;
    assert c in ALPHABET <==> c in r1 || c in r2 || c in r3 || c in r4 || c in r5 || c in r6;
    RunHolds(r1, c);
    RunHolds(r2, c);
    RunHolds(r3, c);
    RunHolds(r4, c);
    RunHolds(r5, c);
    RunHolds(r6, c);
  }

  lemma {:induction false} AlphabetDistinct(i: nat, j: nat)
    requires i < j < |ALPHABET|
    ensures ALPHABET[i] < ALPHABET[j]
  {
    hide ALPHABET;
    AlphabetAscends(j - 1);
    if i < j - 1 { AlphabetDistinct(i, j - 1); }
  }

  lemma IndexOfFinds(c: char)
    ensures IndexOf(c).Some? <==> c in ALPHABET
  {
    hide ALPHABET;
  }

  lemma IndexOfChar(d: nat)
    requires d < |ALPHABET|
    ensures IndexOf(ALPHABET[d]) == Some(d)
  {
    hide ALPHABET;
    var r := IndexOf(ALPHABET[d]).value;
    if r < d { AlphabetDistinct(r, d); }
    if d < r { AlphabetDistinct(d, r); }
  }

  lemma IndicesOfChars(ds: seq<nat>)
    requires ValidDigits(ds, 58)
    ensures AllInAlphabet(Chars(ds)) && Indices(Chars(ds)) == ds
  {
    hide ALPHABET;
    AlphabetShape();
    forall i | 0 <= i < |ds|
      ensures Chars(ds)[i] in ALPHABET && IndexOf(Chars(ds)[i]) == Some(ds[i])
    {
      IndexOfChar(ds[i]);
    }
  }

  // ---------- the bijection ----------

  /** decode(encode(d)) = d, for every byte string. */
  lemma DecodeEncode(data: seq<byte>)
    ensures Decode(Encode(data)) == Ok(data)
  {
    hide ALPHABET, IndexOf, Chars, LeadingRun;
    var k := LeadingRun(data, 0);
    var n := Eval(Nats(data), 256);
    var ds := Digits(n, 58);
    EvalOfDigits(n, 58);
    PaddedIndices(k, ds);
    EvalPadded(k, ds, 58);
    FirstCharIsNotOne(ds);
    LeadingRunOf('1', k, Chars(ds));
    DataIsPaddedNumeral(data);
  }

  /** A byte string is its leading zeros followed by the numeral of its value. */
  lemma DataIsPaddedNumeral(data: seq<byte>)
    ensures var ds := Digits(Eval(Nats(data), 256), 256);
            ValidDigits(ds, 256) && data == Repeat(0, LeadingRun(data, 0)) + Bytes(ds)
  {
    hide LeadingRun;
    var k := LeadingRun(data, 0);
    var tail := Nats(data)[k..];
    assert Nats(data) == Repeat(0, k) + tail by {
      assert forall i :: 0 <= i < k ==> data[..k][i] == 0;
    }
    EvalPadded(k, tail, 256);
    DigitsOfEval(tail, 256);
    assert data == data[..k] + Bytes(tail);
  }

  lemma PaddedIndices(k: nat, ds: seq<nat>)
    requires ValidDigits(ds, 58)
    ensures var s := Repeat('1', k) + Chars(ds); AllInAlphabet(s) && Indices(s) == Repeat(0, k) + ds
  {
    hide ALPHABET;
    IndicesOfChars(ds);
    AlphabetShape();
    IndexOfChar(0);
    var s := Repeat('1', k) + Chars(ds);
    assert AllInAlphabet(s) by {
      forall i | 0 <= i < |s|
        ensures s[i] in ALPHABET
      {
        assert s[i] == if i < k then '1' else Chars(ds)[i - k];
      }
    }
    forall i | 0 <= i < |s|
      ensures Indices(s)[i] == (Repeat(0, k) + ds)[i]
    {
      if i >= k {
        assert s[i] == Chars(ds)[i - k];
        assert Indices(Chars(ds))[i - k] == ds[i - k];
      }
    }
  }

  lemma FirstCharIsNotOne(ds: seq<nat>)
    requires ValidDigits(ds, 58) && (ds == [] || ds[0] != 0)
    ensures Chars(ds) == [] || Chars(ds)[0] != '1'
  {
    hide ALPHABET;
    AlphabetShape();
    if ds != [] {
      AlphabetDistinct(0, ds[0]);
    }
  }

  /** The text is the base-58 numeral of the big-endian number the bytes write, with one '1' per leading
      zero byte. */
  lemma EncodeMeaning(data: seq<byte>)
    ensures var t := Encode(data);
            AllInAlphabet(t) && Eval(Indices(t), 58) == Eval(Nats(data), 256) &&
            LeadingRun(t, '1') == LeadingRun(data, 0)
  {
    hide ALPHABET, IndexOf, Chars, LeadingRun;
    var k := LeadingRun(data, 0);
    var n := Eval(Nats(data), 256);
    var ds := Digits(n, 58);
    EvalOfDigits(n, 58);
    PaddedIndices(k, ds);
    EvalPadded(k, ds, 58);
    FirstCharIsNotOne(ds);
    LeadingRunOf('1', k, Chars(ds));
  }

  /** encode(decode(s)) = s, for every alphabet string; any other string is rejected. */
  lemma EncodeDecode(s: string)
    ensures Decode(s).Ok? <==> AllInAlphabet(s)
    ensures Decode(s).Ok? ==> Encode(Decode(s).value) == s
  {
    hide ALPHABET, IndexOf, LeadingRun;
    if AllInAlphabet(s) {
      var k := LeadingRun(s, '1');
      var ix := Indices(s);
      var n := Eval(ix, 58);
      EvalOfDigits(n, 256);
      var ds := Digits(n, 256);
      assert Nats(Decode(s).value) == Repeat(0, k) + ds;
      EvalPadded(k, ds, 256);
      LeadingRunOf(0, k, Bytes(ds));
      var tail := ix[k..];
      LeadingOnes(s, k);
      assert ix == Repeat(0, k) + tail;
      EvalPadded(k, tail, 58);
      AlphabetShape();
      DigitsOfEval(tail, 58);
      CharsOfIndices(s, k);
    }
  }

  lemma CharsOfIndices(s: string, k: nat)
    requires AllInAlphabet(s) && k == LeadingRun(s, '1')
    ensures s == Repeat('1', k) + Chars(Indices(s)[k..])
  {
    hide ALPHABET;
    var t := Chars(Indices(s)[k..]);
    assert s == s[..k] + s[k..];
    assert t == s[k..];
  }

  lemma LeadingOnes(s: string, k: nat)
    requires AllInAlphabet(s) && k == LeadingRun(s, '1')
    ensures forall i :: 0 <= i < k ==> Indices(s)[i] == 0
    ensures k < |s| ==> Indices(s)[k] != 0
  {
    hide ALPHABET;
    AlphabetShape();
    IndexOfChar(0);
    forall i | 0 <= i < k
      ensures Indices(s)[i] == 0
    {
      assert s[i] == s[..k][i] == '1';
    }
  }

  lemma EmptyDecodes()
    ensures Decode("") == Ok([])
  {
    assert Indices("") == [];
    assert Repeat<byte>(0, 0) + Bytes([]) == [];
  }

  // ---------- the loops ----------

  function Reversed(s: string): string
  {
    seq(|s|, i requires 0 <= i < |s| => s[|s| - 1 - i])
  }

  /** `b58encode`. */
  method B58Encode(data: seq<byte>) returns (s: string)
    ensures s == Encode(data)
  {
    hide ALPHABET;
    AlphabetShape();
    var n := Eval(Nats(data), 256);
    ghost var all := Chars(Digits(n, 58));
    var out: string := [];
    while n > 0
      invariant all == Chars(Digits(n, 58)) + Reversed(out)
    {
      var rem := n % 58;
      assert Digits(n, 58) == Digits(n / 58, 58) + [rem];
      n := n / 58;
      out := out + [ALPHABET[rem]];
      assert Reversed(out) == [ALPHABET[rem]] + Reversed(out[..|out| - 1]);
    }
    var nPad := LeadingRun(data, 0);
    s := Repeat('1', nPad) + Reversed(out);
  }

  lemma PrefixValue(s: string, i: nat)
    requires i < |s| && AllInAlphabet(s[..i]) && s[i] in ALPHABET
    ensures AllInAlphabet(s[..i + 1])
    ensures Eval(Indices(s[..i + 1]), 58) == Eval(Indices(s[..i]), 58) * 58 + IndexOf(s[i]).value
  {
    hide ALPHABET, IndexOf;
    var t := s[..i + 1];
    assert forall j :: 0 <= j <= i ==> t[j] == if j < i then s[..i][j] else s[i];
    assert Indices(t)[..i] == Indices(s[..i]);
  }

  /** `b58decode`. */
  method B58Decode(s: string) returns (r: Result<seq<byte>, string>)
    ensures r == Decode(s)
  {
    hide ALPHABET, IndexOf;
    var n: nat := 0;
    var i := 0;
    while i < |s|
      invariant 0 <= i <= |s| && AllInAlphabet(s[..i]) && n == Eval(Indices(s[..i]), 58)
    {
      var idx := IndexOf(s[i]);
      IndexOfFinds(s[i]);
      if idx.None? {
        return Err("invalid base58 character");
      }
      PrefixValue(s, i);
      n := n * 58 + idx.value;
      i := i + 1;
    }
    assert s[..i] == s;
    ToBytesIsDigits(n);
    var body := if n > 0 then ToBytes(n, (BitLength(n) + 7) / 8) else [];
    var nPad := LeadingRun(s, '1');
    r := Ok(Repeat(0, nPad) + body);
  }
}
