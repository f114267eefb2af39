/** `build_versioned_tx`: the byte-accurate transaction builder, and the exact inputs on which
    parsing a built transaction gives back what was built. */
module TxBuilder {
  import opened Common
  import opened CompactU16
  import opened WireFormat
  import opened TxParser
  import Base58
  import Radix

  datatype RawInstruction = RawInstruction(programId: string, accounts: seq<int>, data: seq<byte>,
                                           indexOverride: Option<int>)

  datatype BuildInput = BuildInput(
    accountKeys: seq<string>,
    numRequiredSignatures: int,
    recentBlockhash: string,
    instructions: seq<RawInstruction>,
    numReadonlySigned: int,
    numReadonlyUnsigned: int,
    versioned: bool,
    nLookups: int)

  datatype BuildError =
    | NegativeLength | ByteRange | InvalidBase58 | KeyNot32Bytes | BlockhashNot32Bytes
    | UnknownProgram | ProgramIndexRange

  // ---------- specification ----------

  predicate IsByte(x: int)
  {
    0 <= x < 256
  }

  /** `bytes(xs)`. */
  function ToBytes(xs: seq<int>): (r: Result<seq<byte>, BuildError>)
    ensures r.Ok? <==> forall i :: 0 <= i < |xs| ==> IsByte(xs[i])
    ensures r.Ok? ==> |r.value| == |xs| && forall i :: 0 <= i < |xs| ==> r.value[i] == xs[i]
  {
    if exists i :: 0 <= i < |xs| && !IsByte(xs[i]) then Err(ByteRange)
    else Ok(seq(|xs|, i requires 0 <= i < |xs| && IsByte(xs[i]) => xs[i]))
  }

  /** `keys.index(id)`. */
  function FirstIndex(keys: seq<string>, id: string): (r: Option<nat>)
    ensures r.Some? <==> id in keys
    ensures r.Some? ==> r.value < |keys| && keys[r.value] == id && id !in keys[..r.value]
  {
    if keys == [] then None
    else if keys[0] == id then Some(0)
    else
      match FirstIndex(keys[1..], id)
      case None => None
      case Some(i) => assert keys[..i + 1] == [keys[0]] + keys[1..][..i]; Some(i + 1)
  }

  function Decode32(s: string, e: BuildError): (r: Result<seq<byte>, BuildError>)
    ensures r.Ok? ==> |r.value| == 32
  {
    match Base58.Decode(s)
    case Err(_) => Err(InvalidBase58)
    case Ok(raw) => if |raw| != 32 then Err(e) else Ok(raw)
  }

  function DecodeKeys(keys: seq<string>, acc: seq<seq<byte>>): Result<seq<seq<byte>>, BuildError>
  {
    if keys == [] then Ok(acc)
    else
      var raw :- Decode32(keys[0], KeyNot32Bytes);
      DecodeKeys(keys[1..], acc + [raw])
  }

  function ProgramIndex(ix: RawInstruction, keys: seq<string>): Result<byte, BuildError>
  {
    match ix.indexOverride
    case Some(p) => if IsByte(p) then Ok(p) else Err(ProgramIndexRange)
    case None =>
      match FirstIndex(keys, ix.programId)
      case None => Err(UnknownProgram)
      case Some(p) => if IsByte(p) then Ok(p) else Err(ProgramIndexRange)
  }

  function AssembleIx(ix: RawInstruction, keys: seq<string>): Result<WireIx, BuildError>
  {
    var p :- ProgramIndex(ix, keys);
    var accounts :- ToBytes(ix.accounts);
    Ok(WireIx(p, Write(|ix.accounts|), accounts, Write(|ix.data|), ix.data))
  }

  function AssembleIxs(ixs: seq<RawInstruction>, keys: seq<string>, acc: seq<WireIx>): Result<seq<WireIx>, BuildError>
  {
    if ixs == [] then Ok(acc)
    else
      var ix :- AssembleIx(ixs[0], keys);
      AssembleIxs(ixs[1..], keys, acc + [ix])
  }

  const DUMMY_LOOKUP: Lookup := Lookup(Radix.Repeat<byte>(0, 32), [0], [], [0], [])

  function Assemble(inp: BuildInput): Result<Wire, BuildError>
  {
    var n := inp.numRequiredSignatures;
    if n < 0 then Err(NegativeLength)
    else if !IsByte(n) || !IsByte(inp.numReadonlySigned) || !IsByte(inp.numReadonlyUnsigned) then Err(ByteRange)
    else
      var keys :- DecodeKeys(inp.accountKeys, []);
      var hash :- Decode32(inp.recentBlockhash, BlockhashNot32Bytes);
      var ixs :- AssembleIxs(inp.instructions, inp.accountKeys, []);
      if inp.versioned && inp.nLookups < 0 then Err(NegativeLength)
      else
        Ok(Wire(Write(n), Radix.Repeat<byte>(0, 64 * n), inp.versioned,
                [n, inp.numReadonlySigned, inp.numReadonlyUnsigned],
                Write(|inp.accountKeys|), keys, hash, Write(|inp.instructions|), ixs,
                if inp.versioned
                then Section(Write(inp.nLookups), Radix.Repeat(DUMMY_LOOKUP, inp.nLookups), [])
                else Bare([])))
  }

  function Build(inp: BuildInput): Result<seq<byte>, BuildError>
  {
    var w :- Assemble(inp);
    Ok(Bytes(w))
  }

  // ---------- what parsing should give back ----------

  function ExpectedIx(ix: RawInstruction, keys: seq<string>): ParsedInstruction
    requires ProgramIndex(ix, keys).Ok? && ToBytes(ix.accounts).Ok?
  {
    var p := ProgramIndex(ix, keys).value;
    ParsedInstruction(if p < |keys| then keys[p] else "", p, ToBytes(ix.accounts).value, ix.data)
  }

  predicate Resolvable(ixs: seq<RawInstruction>, keys: seq<string>)
  {
    forall i :: 0 <= i < |ixs| ==> ProgramIndex(ixs[i], keys).Ok? && ToBytes(ixs[i].accounts).Ok?
  }

  predicate ReachesPastKeys(ix: RawInstruction, keys: seq<string>)
    requires ProgramIndex(ix, keys).Ok?
  {
    ProgramIndex(ix, keys).value >= |keys| || exists j :: 0 <= j < |ix.accounts| && ix.accounts[j] >= |keys|
  }

  /** The transaction that was asked for, in the parser's terms. */
  function Expected(inp: BuildInput): ParsedTx
    requires inp.accountKeys != [] && IsByte(inp.numRequiredSignatures)
    requires Resolvable(inp.instructions, inp.accountKeys)
  {
    var keys, ixs := inp.accountKeys, inp.instructions;
    ParsedTx(keys, inp.numRequiredSignatures, keys[0], inp.recentBlockhash,
             seq(|ixs|, i requires 0 <= i < |ixs| => ExpectedIx(ixs[i], keys)),
             inp.versioned,
             (exists i :: 0 <= i < |ixs| && ReachesPastKeys(ixs[i], keys)) || (inp.versioned && inp.nLookups > 0))
  }

  /** The inputs that survive the wire: a payer, lengths the prefix can carry, and, for a legacy
      message, a signature count that does not look like a version byte. */
  predicate WellFormed(inp: BuildInput)
  {
    && 1 <= |inp.accountKeys| < LIMIT
    && |inp.instructions| < LIMIT
    && (forall i :: 0 <= i < |inp.instructions| ==>
          |inp.instructions[i].accounts| < LIMIT && |inp.instructions[i].data| < LIMIT)
    && (if inp.versioned then inp.nLookups < LIMIT else inp.numRequiredSignatures < 128)
  }

  // ---------- the shape of what is assembled ----------

  lemma Decode32Inverts(s: string, e: BuildError)
    requires Decode32(s, e).Ok?
    ensures Base58.Encode(Decode32(s, e).value) == s
  {
    Base58.EncodeDecode(s);
  }

  lemma {:induction false} DecodeKeysShape(keys: seq<string>, acc: seq<seq<byte>>)
    requires DecodeKeys(keys, acc).Ok? && Keys32(acc)
    ensures var r := DecodeKeys(keys, acc).value;
            Keys32(r) && EncodedKeys(r) == EncodedKeys(acc) + keys
  {
    hide Base58.Encode, Base58.Decode;
    if keys != [] {
      var raw := Decode32(keys[0], KeyNot32Bytes).value;
      Decode32Inverts(keys[0], KeyNot32Bytes);
      DecodeKeysShape(keys[1..], acc + [raw]);
      assert EncodedKeys(acc + [raw]) == EncodedKeys(acc) + [keys[0]];
      assert EncodedKeys(acc) + keys == EncodedKeys(acc) + [keys[0]] + keys[1..];
    }
  }

  lemma {:induction false} AssembleIxsShape(ixs: seq<RawInstruction>, keys: seq<string>, acc: seq<WireIx>)
    requires AssembleIxs(ixs, keys, acc).Ok?
    ensures Resolvable(ixs, keys)
    ensures var r := AssembleIxs(ixs, keys, acc).value;
            |r| == |acc| + |ixs| && r[..|acc|] == acc &&
            forall i :: 0 <= i < |ixs| ==> Ok(r[|acc| + i]) == AssembleIx(ixs[i], keys)
  {
    hide AssembleIx;
    if ixs != [] {
      var ix := AssembleIx(ixs[0], keys).value;
      AssembleIxsShape(ixs[1..], keys, acc + [ix]);
      var r := AssembleIxs(ixs, keys, acc).value;
      assert r[|acc|] == r[..|acc| + 1][|acc|] == ix;
      assert r[..|acc|] == r[..|acc| + 1][..|acc|];
      forall i | 0 <= i < |ixs|
        ensures Ok(r[|acc| + i]) == AssembleIx(ixs[i], keys)
        ensures ProgramIndex(ixs[i], keys).Ok? && ToBytes(ixs[i].accounts).Ok?
      {
        AssembledIxResolves(ixs[i], keys);
        if i > 0 {
          assert ixs[i] == ixs[1..][i - 1];
          assert r[|acc + [ix]| + (i - 1)] == r[|acc| + i];
        }
      }
    }
  }

  lemma AssembledIxResolves(ix: RawInstruction, keys: seq<string>)
    ensures AssembleIx(ix, keys).Ok? <==> ProgramIndex(ix, keys).Ok? && ToBytes(ix.accounts).Ok?
  {
  }

  predicate WrittenIx(ix: WireIx)
  {
    ix.accLen == Write(|ix.accounts|) && ix.dataLen == Write(|ix.data|)
  }

  predicate WrittenIxs(ixs: seq<WireIx>)
  {
    forall i :: 0 <= i < |ixs| ==> WrittenIx(ixs[i])
  }

  /** A layout whose length prefixes are the writer's and whose fixed-width fields fit. */
  predicate Written(w: Wire)
  {
    && ValidLen(w.sigLen) && |w.sigs| == 64 * LenValue(w.sigLen) && |w.header| == 3
    && w.keyLen == Write(|w.keys|) && Keys32(w.keys)
    && |w.blockhash| == 32
    && w.ixLen == Write(|w.ixs|) && WrittenIxs(w.ixs)
    && (if w.versioned
        then w.tail.Section? && w.tail.len == Write(|w.tail.lookups|) &&
             forall i :: 0 <= i < |w.tail.lookups| ==> ValidLookup(w.tail.lookups[i])
        else w.tail == Bare([]))
  }

  predicate Carried(ixs: seq<WireIx>)
  {
    forall i :: 0 <= i < |ixs| ==> |ixs[i].accounts| < LIMIT && |ixs[i].data| < LIMIT
  }

  predicate Sized(w: Wire)
  {
    && 1 <= |w.keys| < LIMIT && |w.ixs| < LIMIT && Carried(w.ixs)
    && (w.tail.Section? ==> |w.tail.lookups| < LIMIT)
  }

  lemma AssembleShape(inp: BuildInput)
    requires Assemble(inp).Ok?
    ensures var w := Assemble(inp).value;
            Written(w) && w.versioned == inp.versioned && w.header[0] == inp.numRequiredSignatures &&
            EncodedKeys(w.keys) == inp.accountKeys && Base58.Encode(w.blockhash) == inp.recentBlockhash &&
            Ok(w.ixs) == AssembleIxs(inp.instructions, inp.accountKeys, []) &&
            (inp.versioned ==> |w.tail.lookups| == inp.nLookups)
    ensures Resolvable(inp.instructions, inp.accountKeys)
  {
    hide Base58.Encode, Base58.Decode, Write, AssembleIxs, DecodeKeys, WrittenIxs, Resolvable;
    var w := Assemble(inp).value;
    DecodeKeysShape(inp.accountKeys, []);
    assert EncodedKeys([]) + inp.accountKeys == inp.accountKeys;
    assert |EncodedKeys(w.keys)| == |w.keys|;
    Decode32Inverts(inp.recentBlockhash, BlockhashNot32Bytes);
    AssembleIxsShape(inp.instructions, inp.accountKeys, []);
    AssembledIxsWritten(inp.instructions, inp.accountKeys, w.ixs);
    WriteShape(inp.numRequiredSignatures);
    WriteValid(inp.numRequiredSignatures);
    DummyIsValid();
  }

  lemma AssembledIxsWritten(ixs: seq<RawInstruction>, keys: seq<string>, wires: seq<WireIx>)
    requires AssembleIxs(ixs, keys, []) == Ok(wires)
    ensures WrittenIxs(wires) && |wires| == |ixs|
  {
    AssembleIxsShape(ixs, keys, []);
    forall i | 0 <= i < |ixs|
      ensures WrittenIx(wires[i])
    {
      assert wires[0 + i] == wires[i];
      assert Ok(wires[i]) == AssembleIx(ixs[i], keys);
    }
  }

  lemma DummyIsValid()
    ensures ValidLookup(DUMMY_LOOKUP)
  {
    assert [0][1..] == [];
    assert LenValue([0]) == 0 % 128 + 128 * LenValue([0][1..]);
  }

  lemma CountedByWrite(n: nat)
    ensures CountedBy(Write(n), n) <==> n < LIMIT
  {
    WriteShape(n);
    WriteValid(n);
  }

  lemma WrittenIxsValid(ixs: seq<WireIx>)
    requires WrittenIxs(ixs)
    ensures ValidIxs(ixs) <==> Carried(ixs)
  {
    forall i | 0 <= i < |ixs|
      ensures ValidIx(ixs[i]) <==> |ixs[i].accounts| < LIMIT && |ixs[i].data| < LIMIT
    {
      CountedByWrite(|ixs[i].accounts|);
      CountedByWrite(|ixs[i].data|);
    }
  }

  lemma WrittenValid(w: Wire)
    requires Written(w)
    ensures Valid(w) <==> Sized(w) && (!w.versioned ==> w.header[0] < 128)
  {
    hide ValidIxs, WrittenIxs, Carried, CountedBy, ValidLen, Write;
    CountedByWrite(|w.keys|);
    CountedByWrite(|w.ixs|);
    WrittenIxsValid(w.ixs);
    if w.tail.Section? {
      CountedByWrite(|w.tail.lookups|);
    }
  }

  lemma WellFormedIsSized(inp: BuildInput)
    requires Assemble(inp).Ok?
    ensures var w := Assemble(inp).value;
            WellFormed(inp) <==> Sized(w) && (!w.versioned ==> w.header[0] < 128)
  {
    hide Base58.Encode, Base58.Decode, Assemble, Written;
    AssembleShape(inp);
    AssembleIxsShape(inp.instructions, inp.accountKeys, []);
    var w := Assemble(inp).value;
    assert |w.keys| == |EncodedKeys(w.keys)|;
    BareWhenLegacy(w);
    forall i | 0 <= i < |w.ixs|
      ensures |w.ixs[i].accounts| == |inp.instructions[i].accounts| && |w.ixs[i].data| == |inp.instructions[i].data|
    {
      assert w.ixs[0 + i] == w.ixs[i];
    }
  }

  lemma BareWhenLegacy(w: Wire)
    requires Written(w)
    ensures w.tail.Section? <==> w.versioned
  {
  }

  // ---------- reading it back ----------

  lemma ViewIsExpected(inp: BuildInput)
    requires Assemble(inp).Ok? && Valid(Assemble(inp).value)
    ensures inp.accountKeys != [] && IsByte(inp.numRequiredSignatures)
    ensures Resolvable(inp.instructions, inp.accountKeys)
    ensures View(Assemble(inp).value) == Expected(inp)
  {
    hide Base58.Encode, Base58.Decode, Written;
    var w := Assemble(inp).value;
    AssembleShape(inp);
    BareWhenLegacy(w);
    var keys := inp.accountKeys;
    assert |w.keys| == |EncodedKeys(w.keys)| == |keys|;
    InstructionsReadBack(inp.instructions, keys, w.ixs);
    assert View(w).instructions == Expected(inp).instructions;
  }

  lemma InstructionsReadBack(ixs: seq<RawInstruction>, keys: seq<string>, wires: seq<WireIx>)
    requires AssembleIxs(ixs, keys, []) == Ok(wires)
    ensures Resolvable(ixs, keys) && |wires| == |ixs|
    ensures forall i :: 0 <= i < |ixs| ==> IxView(wires[i], keys) == ExpectedIx(ixs[i], keys)
    ensures AnyUnresolved(wires, |keys|) <==> exists i :: 0 <= i < |ixs| && ReachesPastKeys(ixs[i], keys)
  {
    AssembleIxsShape(ixs, keys, []);
    forall i | 0 <= i < |ixs|
      ensures IxView(wires[i], keys) == ExpectedIx(ixs[i], keys)
      ensures Unresolved(wires[i], |keys|) <==> ReachesPastKeys(ixs[i], keys)
    {
      assert wires[0 + i] == wires[i];
      assert Ok(wires[i]) == AssembleIx(ixs[i], keys);
    }
  }

  // ---------- the bytes that are built ----------

  lemma Middle(a: seq<byte>, b: seq<byte>, c: seq<byte>)
    ensures |a| + |b| <= |a + (b + c)|
    ensures (a + (b + c))[..|a|] == a && (a + (b + c))[|a|..|a| + |b|] == b && (a + (b + c))[|a| + |b|..] == c
  {
  }

  /** Where the message header starts: after the signatures and, when versioned, the version byte. */
  function HeaderAt(inp: BuildInput): int
    requires inp.numRequiredSignatures >= 0
  {
    |Write(inp.numRequiredSignatures)| + 64 * inp.numRequiredSignatures + (if inp.versioned then 1 else 0)
  }

  lemma Parts(a: seq<byte>, b: seq<byte>, c: seq<byte>, d: seq<byte>, e: seq<byte>)
    ensures var v := a + (b + (c + (d + e)));
            var x, y := |a| + |b|, |a| + |b| + |c|;
            y + |d| <= |v| && v[..|a|] == a && v[|a|..x] == b && v[x..y] == c && v[y..y + |d|] == d && v[y + |d|..] == e
  {
    Middle(a, b, c + (d + e));
    var v := a + (b + (c + (d + e)));
    var x := |a| + |b|;
    assert v == (a + b) + (c + (d + e));
    Middle(a + b, c, d + e);
    assert v == (a + b + c) + (d + e);
    Middle(a + b + c, d, e);
  }

  /** The start of a built transaction: the signature count, that many zeroed signatures, the version byte
      of a versioned message, and the three header counts. */
  lemma BuildLayout(inp: BuildInput)
    requires Build(inp).Ok?
    ensures inp.numRequiredSignatures >= 0
    ensures var v, n, at := Build(inp).value, inp.numRequiredSignatures, HeaderAt(inp);
            var sigs := |Write(n)|;
            0 <= sigs + 64 * n <= at && at + 3 <= |v| && v[..sigs] == Write(n) &&
            (forall i :: sigs <= i < sigs + 64 * n ==> v[i] == 0) &&
            v[sigs + 64 * n..at] == (if inp.versioned then [128] else []) &&
            v[at..at + 3] == [n, inp.numReadonlySigned, inp.numReadonlyUnsigned]
  {
    hide Write, BodyBytes, DecodeKeys, AssembleIxs, Decode32, Radix.Repeat;
    var w := Assemble(inp).value;
    var mark: seq<byte> := if w.versioned then [128] else [];
    ZeroSignatures(inp.numRequiredSignatures);
    Parts(w.sigLen, w.sigs, mark, w.header, BodyBytes(w));
    SliceZero(Bytes(w), |w.sigLen|, w.sigs);
  }

  lemma SliceZero(v: seq<byte>, from: nat, zeros: seq<byte>)
    requires from + |zeros| <= |v| && v[from..from + |zeros|] == zeros
    requires forall i :: 0 <= i < |zeros| ==> zeros[i] == 0
    ensures forall i :: from <= i < from + |zeros| ==> v[i] == 0
  {
    forall i | from <= i < from + |zeros|
      ensures v[i] == 0
    {
      assert v[i] == zeros[i - from];
    }
  }

  lemma ZeroSignatures(n: nat)
    ensures |Radix.Repeat<byte>(0, 64 * n)| == 64 * n
    ensures forall i :: 0 <= i < 64 * n ==> Radix.Repeat<byte>(0, 64 * n)[i] == 0
  {
  }

  /** After the header: the key count, every key's 32 bytes in order, and the blockhash. */
  lemma BuildBody(inp: BuildInput, i: nat)
    requires Build(inp).Ok? && inp.numRequiredSignatures >= 0 && i < |inp.accountKeys|
    ensures var v, k := Build(inp).value, |inp.accountKeys|;
            var keys := HeaderAt(inp) + 3 + |Write(k)|;
            0 <= HeaderAt(inp) && keys + 32 * k + 32 <= |v| && v[HeaderAt(inp) + 3..keys] == Write(k) &&
            Base58.Decode(inp.accountKeys[i]) == Ok(v[keys + 32 * i..keys + 32 * i + 32]) &&
            Base58.Decode(inp.recentBlockhash) == Ok(v[keys + 32 * k..keys + 32 * k + 32])
  {
    hide Write, AssembleIxs, Base58.Decode, Base58.Encode, Radix.Repeat, IxsBytes, TailBytes, KeysBytes, DecodeKeys;
    hide Bytes;
    var w := Assemble(inp).value;
    DecodedKeys(inp.accountKeys, []);
    assert w.keys[0 + i] == w.keys[i];
    ZeroSignatures(inp.numRequiredSignatures);
    WireBody(w, i);
  }

  /** Where a layout with 32-byte keys keeps its key count, key i and its blockhash. */
  lemma WireBody(w: Wire, i: nat)
    requires |w.header| == 3 && Keys32(w.keys) && |w.blockhash| == 32 && i < |w.keys|
    ensures var v, k := Bytes(w), |w.keys|;
            var at := |w.sigLen| + |w.sigs| + (if w.versioned then 1 else 0) + 3;
            var keys := at + |w.keyLen|;
            keys + 32 * k + 32 <= |v| && v[at..keys] == w.keyLen && v[keys + 32 * i..keys + 32 * i + 32] == w.keys[i] &&
            v[keys + 32 * k..keys + 32 * k + 32] == w.blockhash
  {
    hide KeysBytes, BodyBytes, Bytes;
    KeysLayout(w.keys, i);
    BodyStart(w);
    BodyParts(w);
    BodyLayout(Bytes(w), |w.sigLen| + |w.sigs| + (if w.versioned then 1 else 0) + 3, BodyBytes(w), |w.keyLen|,
               |w.keys|, i);
  }

  lemma BodyStart(w: Wire)
    requires |w.header| == 3
    ensures var at := |w.sigLen| + |w.sigs| + (if w.versioned then 1 else 0) + 3;
            at <= |Bytes(w)| && Bytes(w)[at..] == BodyBytes(w)
  {
    hide BodyBytes;
    Parts(w.sigLen, w.sigs, if w.versioned then [128] else [], w.header, BodyBytes(w));
  }

  lemma BodyParts(w: Wire)
    ensures var b, kb := BodyBytes(w), |w.keyLen|;
            var hash := kb + |KeysBytes(w.keys)|;
            hash + |w.blockhash| <= |b| && b[..kb] == w.keyLen && b[kb..hash] == KeysBytes(w.keys) &&
            b[hash..hash + |w.blockhash|] == w.blockhash
  {
    hide IxsBytes, TailBytes, KeysBytes;
    var rest := w.ixLen + (IxsBytes(w.ixs) + TailBytes(w.tail));
    Parts(w.keyLen, KeysBytes(w.keys), w.blockhash, rest, []);
    assert rest + [] == rest;
  }

  /** Slices of the body are slices of the whole. */
  lemma BodyLayout(v: seq<byte>, at: nat, body: seq<byte>, kb: nat, k: nat, i: nat)
    requires at <= |v| && v[at..] == body && kb + 32 * k + 32 <= |body| && i < k
    ensures v[at..at + kb] == body[..kb]
    ensures v[at + kb + 32 * i..at + kb + 32 * i + 32] == body[kb..kb + 32 * k][32 * i..32 * i + 32]
    ensures v[at + kb + 32 * k..at + kb + 32 * k + 32] == body[kb + 32 * k..kb + 32 * k + 32]
  {
    SliceOf(v, at, 0, kb);
    SliceOf(v, at, kb + 32 * i, kb + 32 * i + 32);
    SliceOf(v, at, kb + 32 * k, kb + 32 * k + 32);
    SliceOfSlice(body, kb, kb + 32 * k, 32 * i, 32 * i + 32);
  }

  lemma SliceOf(v: seq<byte>, at: nat, lo: nat, hi: nat)
    requires lo <= hi && at + hi <= |v|
    ensures v[at..][lo..hi] == v[at + lo..at + hi]
  {
  }

  lemma SliceOfSlice(v: seq<byte>, a: nat, b: nat, lo: nat, hi: nat)
    requires a <= b <= |v| && lo <= hi && a + hi <= b
    ensures v[a..b][lo..hi] == v[a + lo..a + hi]
  {
    var x, y := v[a..b][lo..hi], v[a + lo..a + hi];
    assert |x| == |y|;
    forall j | 0 <= j < |x|
      ensures x[j] == y[j]
    {
      assert x[j] == v[a..b][lo + j] == v[a + (lo + j)] == y[j];
    }
  }

  lemma {:induction false} DecodedKeys(keys: seq<string>, acc: seq<seq<byte>>)
    requires DecodeKeys(keys, acc).Ok? && Keys32(acc)
    ensures var r := DecodeKeys(keys, acc).value;
            |r| == |acc| + |keys| && Keys32(r) && r[..|acc|] == acc &&
            forall i :: 0 <= i < |keys| ==> Base58.Decode(keys[i]) == Ok(r[|acc| + i])
  {
    hide Base58.Decode;
    if keys != [] {
      var raw := Decode32(keys[0], KeyNot32Bytes).value;
      DecodedKeys(keys[1..], acc + [raw]);
      var r := DecodeKeys(keys, acc).value;
      assert r[|acc|] == r[..|acc| + 1][|acc|] == raw;
      assert r[..|acc|] == r[..|acc| + 1][..|acc|];
      forall i | 0 <= i < |keys|
        ensures Base58.Decode(keys[i]) == Ok(r[|acc| + i])
      {
        if i > 0 {
          assert keys[i] == keys[1..][i - 1] && r[|acc + [raw]| + (i - 1)] == r[|acc| + i];
        }
      }
    }
  }

  lemma {:induction false} KeysLayout(keys: seq<seq<byte>>, i: nat)
    requires Keys32(keys) && i < |keys|
    ensures |KeysBytes(keys)| == 32 * |keys| && KeysBytes(keys)[32 * i..32 * i + 32] == keys[i]
  {
    var tail := keys[1..];
    if tail == [] {
      assert KeysBytes(tail) == [];
    } else {
      KeysLayout(tail, if i == 0 then 0 else i - 1);
      if i > 0 {
        assert KeysBytes(keys)[32 * i..32 * i + 32] == KeysBytes(tail)[32 * (i - 1)..32 * (i - 1) + 32];
      }
    }
  }

  /** A versioned transaction ends with its table count and that many entries of 34 zero bytes; a legacy one
      has no table section. */
  lemma BuildTables(inp: BuildInput)
    requires Build(inp).Ok? && inp.versioned
    ensures inp.nLookups >= 0
    ensures var v, n := Build(inp).value, inp.nLookups;
            var end := |v| - 34 * n;
            |Write(n)| <= end && v[end - |Write(n)|..end] == Write(n) &&
            forall i :: end <= i < |v| ==> v[i] == 0
  {
    hide Write, DecodeKeys, AssembleIxs, Decode32, KeysBytes, IxsBytes, MessageBytes;
    var w := Assemble(inp).value;
    var n := inp.nLookups;
    var zeros := LookupsBytes(w.tail.lookups);
    ZeroTables(n);
    var front := BeforeTail(w);
    assert zeros + [] == zeros;
    TailIsLast(w);
    assert Bytes(w) == front + (Write(n) + zeros);
    Middle(front, Write(n), zeros);
  }

  /** Nothing follows the instructions of a legacy transaction, and only the tables those of a versioned one. */
  lemma BuildEnd(inp: BuildInput)
    requires Build(inp).Ok?
    ensures inp.versioned ==> inp.nLookups >= 0
    ensures Build(inp).value ==
            BeforeTail(Assemble(inp).value) +
            (if inp.versioned then Write(inp.nLookups) + Radix.Repeat<byte>(0, 34 * inp.nLookups) else [])
  {
    hide Write, DecodeKeys, AssembleIxs, Decode32, BeforeTail, Bytes, LookupsBytes;
    var w := Assemble(inp).value;
    TailIsLast(w);
    if inp.versioned {
      ZeroTables(inp.nLookups);
      assert LookupsBytes(w.tail.lookups) + [] == LookupsBytes(w.tail.lookups);
    }
  }

  function BeforeTail(w: Wire): seq<byte>
  {
    w.sigLen + (w.sigs + ((if w.versioned then [128] else []) + (w.header +
      (w.keyLen + (KeysBytes(w.keys) + (w.blockhash + (w.ixLen + IxsBytes(w.ixs))))))))
  }

  lemma TailIsLast(w: Wire)
    ensures Bytes(w) == BeforeTail(w) + TailBytes(w.tail)
  {
    hide KeysBytes, IxsBytes, TailBytes;
  }

  lemma {:induction false} ZeroTables(n: nat)
    ensures LookupsBytes(Radix.Repeat(DUMMY_LOOKUP, n)) == Radix.Repeat<byte>(0, 34 * n)
  {
    var ls := Radix.Repeat(DUMMY_LOOKUP, n);
    if n > 0 {
      ZeroTables(n - 1);
      assert ls[0] == DUMMY_LOOKUP && ls[1..] == Radix.Repeat(DUMMY_LOOKUP, n - 1);
      DummyBytes();
      assert Radix.Repeat<byte>(0, 34) + Radix.Repeat<byte>(0, 34 * (n - 1)) == Radix.Repeat<byte>(0, 34 * n);
    }
  }

  lemma DummyBytes()
    ensures LookupBytes(DUMMY_LOOKUP) == Radix.Repeat<byte>(0, 34)
  {
  }

  /** The index an instruction is built with: the override if given, else the first key equal to its
      program id; it is a byte. */
  lemma ProgramIndexExactly(ix: RawInstruction, keys: seq<string>)
    ensures ProgramIndex(ix, keys).Ok? <==>
            if ix.indexOverride.Some? then IsByte(ix.indexOverride.value)
            else exists p :: 0 <= p < |keys| && p < 256 && keys[p] == ix.programId
    ensures ProgramIndex(ix, keys).Ok? ==>
              var p := ProgramIndex(ix, keys).value as int;
              if ix.indexOverride.Some? then p == ix.indexOverride.value
              else p < |keys| && keys[p] == ix.programId && forall j :: 0 <= j < p ==> keys[j] != ix.programId
  {
    if ix.indexOverride.None? {
      var r := FirstIndex(keys, ix.programId);
      if r.Some? {
        assert forall j :: 0 <= j < r.value ==> keys[..r.value][j] == keys[j];
      }
      if p :| 0 <= p < |keys| && p < 256 && keys[p] == ix.programId {
        assert keys[p] in keys;
      }
    }
  }

  /** The builder accepts exactly: byte-sized counts and indices, 32-byte keys and blockhash, resolvable
      programs, and for a versioned message a table count that is not negative. */
  lemma BuildAccepts(inp: BuildInput)
    ensures Build(inp).Ok? <==>
            IsByte(inp.numRequiredSignatures) && IsByte(inp.numReadonlySigned) && IsByte(inp.numReadonlyUnsigned) &&
            (forall i :: 0 <= i < |inp.accountKeys| ==> Is32(inp.accountKeys[i])) && Is32(inp.recentBlockhash) &&
            Resolvable(inp.instructions, inp.accountKeys) && (inp.versioned ==> inp.nLookups >= 0)
  {
    hide Base58.Decode, Write, Bytes, Radix.Repeat;
    KeysAccepted(inp.accountKeys, []);
    IxsAccepted(inp.instructions, inp.accountKeys, []);
  }

  predicate Is32(s: string)
  {
    Base58.Decode(s).Ok? && |Base58.Decode(s).value| == 32
  }

  lemma {:induction false} KeysAccepted(keys: seq<string>, acc: seq<seq<byte>>)
    ensures DecodeKeys(keys, acc).Ok? <==> forall i :: 0 <= i < |keys| ==> Is32(keys[i])
  {
    hide Base58.Decode;
    if keys != [] {
      assert forall i :: 1 <= i < |keys| ==> keys[i] == keys[1..][i - 1];
      assert forall i :: 0 <= i < |keys| - 1 ==> keys[1..][i] == keys[i + 1];
      if Is32(keys[0]) {
        KeysAccepted(keys[1..], acc + [Decode32(keys[0], KeyNot32Bytes).value]);
      }
    }
  }

  lemma {:induction false} IxsAccepted(ixs: seq<RawInstruction>, keys: seq<string>, acc: seq<WireIx>)
    ensures AssembleIxs(ixs, keys, acc).Ok? <==> Resolvable(ixs, keys)
  {
    hide AssembleIx, ProgramIndex;
    if ixs != [] {
      AssembledIxResolves(ixs[0], keys);
      assert forall i :: 1 <= i < |ixs| ==> ixs[i] == ixs[1..][i - 1];
      assert forall i :: 0 <= i < |ixs| - 1 ==> ixs[1..][i] == ixs[i + 1];
      if AssembleIx(ixs[0], keys).Ok? {
        IxsAccepted(ixs[1..], keys, acc + [AssembleIx(ixs[0], keys).value]);
      }
    }
  }

  // ---------- what an unreadable build parses to ----------

  lemma OverlongLength(n: nat, after: seq<byte>)
    requires n >= LIMIT
    ensures ReadLen(Write(n) + after) == Err(CompactOverflow)
  {
    ReadWrite(n, after);
  }

  lemma WrittenLength(n: nat, after: seq<byte>)
    requires n < LIMIT
    ensures ReadLen(Write(n) + after) == Ok((n, after))
  {
    ReadWrite(n, after);
  }

  lemma BadInstruction(ix: WireIx, keys: seq<string>, after: seq<byte>)
    requires WrittenIx(ix) && !(|ix.accounts| < LIMIT && |ix.data| < LIMIT)
    ensures ParseInstruction(IxBytes(ix) + after, keys).Err?
  {
    hide ReadLen;
    var r2 := ix.dataLen + (ix.data + after);
    var r1 := ix.accLen + (ix.accounts + r2);
    Regroup([ix.prog], ix.accLen, ix.accounts, ix.dataLen, ix.data, after);
    assert ([ix.prog] + r1)[1..] == r1;
    if |ix.accounts| >= LIMIT {
      OverlongLength(|ix.accounts|, ix.accounts + r2);
    } else {
      WrittenLength(|ix.accounts|, ix.accounts + r2);
      TakeOf(ix.accounts, r2, TruncatedAccounts);
      OverlongLength(|ix.data|, ix.data + after);
    }
  }

  lemma {:induction false} BadInstructions(
    ixs: seq<WireIx>, keys: seq<string>, after: seq<byte>, acc: seq<ParsedInstruction>, alt: bool)
    requires WrittenIxs(ixs) && !Carried(ixs)
    ensures ParseInstructions(IxsBytes(ixs) + after, |ixs|, keys, acc, alt).Err?
  {
    hide ParseInstruction, IxBytes, Write;
    var ix, rest := ixs[0], IxsBytes(ixs[1..]) + after;
    assert IxsBytes(ixs) + after == IxBytes(ix) + rest;
    if |ix.accounts| < LIMIT && |ix.data| < LIMIT {
      assert ValidIxs([ix]) by { WrittenIxsValid([ix]); }
      assert ValidIx([ix][0]);
      ParseInstructionOf(ix, keys, rest);
      var v := IxView(ix, keys);
      BadInstructions(ixs[1..], keys, after, acc + [v], alt || LeavesStaticKeys(v, |keys|));
    } else {
      BadInstruction(ix, keys, rest);
    }
  }

  lemma BadTail(t: Tail)
    requires t.Section? && t.len == Write(|t.lookups|) && |t.lookups| >= LIMIT
    ensures ParseTail(TailBytes(t), true).Err?
  {
    hide ReadLen;
    WriteShape(|t.lookups|);
    OverlongLength(|t.lookups|, LookupsBytes(t.lookups) + t.trailing);
  }

  lemma BadBody(w: Wire, numRequired: byte)
    requires Written(w) && !Sized(w)
    ensures ParseBody(BodyBytes(w), w.versioned, numRequired).Err?
  {
    hide ReadLen, ParseKeys, ParseInstructions, ParseTail, KeysBytes, IxsBytes, TailBytes, Base58.Encode;
    hide Write, WrittenIxs, Carried, ValidIxs;
    var keys := EncodedKeys(w.keys);
    var r5 := TailBytes(w.tail);
    var r4 := IxsBytes(w.ixs) + r5;
    var r3 := w.ixLen + r4;
    var r2 := w.blockhash + r3;
    var r1 := KeysBytes(w.keys) + r2;
    if |w.keys| >= LIMIT {
      OverlongLength(|w.keys|, r1);
    } else {
      WrittenLength(|w.keys|, r1);
      ParseKeysOf(w.keys, r2, []);
      assert [] + keys == keys;
      TakeOf(w.blockhash, r3, TruncatedBlockhash);
      if |w.ixs| >= LIMIT {
        OverlongLength(|w.ixs|, r4);
      } else {
        WrittenLength(|w.ixs|, r4);
        if !Carried(w.ixs) {
          BadInstructions(w.ixs, keys, r5, [], false);
        } else if |w.keys| >= 1 {
          WrittenIxsValid(w.ixs);
          ParseInstructionsOf(w.ixs, keys, r5, [], false);
          BadTail(w.tail);
        }
      }
    }
  }

  lemma HeaderFixesVersion(rest: seq<byte>, versioned: bool)
    ensures ParseHeader(rest, versioned).Ok? ==> ParseHeader(rest, versioned).value.isVersioned == versioned
  {
    hide ReadLen, ParseKeys, ParseInstructions, ParseTail, Base58.Encode;
  }

  /** A written layout that is not a transaction is rejected, or read as the other message kind. */
  lemma Misread(w: Wire)
    requires Written(w) && !Valid(w)
    ensures Parse(Bytes(w)).Err? || Parse(Bytes(w)).value.isVersioned != w.versioned
  {
    hide Written, Valid, Sized, ParseBody, BodyBytes, ParseHeader;
    WrittenPrefix(w);
    WrittenValid(w);
    var m := w.header + BodyBytes(w);
    ReadLenOf(w.sigLen, w.sigs + MessageBytes(w));
    TakeOf(w.sigs, MessageBytes(w), TruncatedSignatures);
    if w.versioned {
      assert ([128] + m)[1..] == m;
      BadHeader(w);
    } else {
      assert [] + m == m;
      if w.header[0] < 128 {
        BadHeader(w);
      } else {
        HeaderFixesVersion(m[1..], true);
      }
    }
  }

  lemma WrittenPrefix(w: Wire)
    requires Written(w)
    ensures ValidLen(w.sigLen) && |w.sigs| == 64 * LenValue(w.sigLen) && |w.header| == 3
  {
  }

  lemma BadHeader(w: Wire)
    requires Written(w) && !Sized(w)
    ensures ParseHeader(w.header + BodyBytes(w), w.versioned).Err?
  {
    hide ParseBody, BodyBytes, Sized;
    TakeOf(w.header, BodyBytes(w), NoHeader);
    BadBody(w, w.header[0]);
  }

  /** Parsing a built transaction gives back what was asked for exactly on the well-formed inputs. */
  lemma ParseOfBuild(inp: BuildInput)
    requires Build(inp).Ok?
    ensures WellFormed(inp) <==>
            inp.accountKeys != [] && IsByte(inp.numRequiredSignatures) &&
            Resolvable(inp.instructions, inp.accountKeys) && Parse(Build(inp).value) == Ok(Expected(inp))
  {
    hide Assemble, Parse, Bytes, Written, Valid, View, WellFormed, Sized;
    var w := Assemble(inp).value;
    AssembleShape(inp);
    WrittenValid(w);
    WellFormedIsSized(inp);
    if WellFormed(inp) {
      ParseComplete(w);
      ViewIsExpected(inp);
    } else {
      Misread(w);
    }
  }

  /** What a build outside the well-formed inputs is taken for. */
  lemma BuildMisread(inp: BuildInput)
    requires Build(inp).Ok? && !WellFormed(inp)
    ensures Parse(Build(inp).value).Err? || Parse(Build(inp).value).value.isVersioned != inp.versioned
  {
    hide Assemble, Parse, Bytes, Written, Valid, WellFormed, Sized;
    var w := Assemble(inp).value;
    AssembleShape(inp);
    WrittenValid(w);
    WellFormedIsSized(inp);
    Misread(w);
  }

  /** One zero key, a zero blockhash and no instruction. */
  function Bare32(n: int, versioned: bool, nLookups: int): BuildInput
  {
    var zero := Base58.Encode(Radix.Repeat<byte>(0, 32));
    BuildInput([zero], n, zero, [], 0, 0, versioned, nLookups)
  }

  /** Such inputs exist: a legacy message asking for 128 to 255 signatures, and a versioned one declaring
      2^21 tables or more, are built, and neither parses to what was built. */
  lemma MisreadInputs(n: int, k: int)
    requires 128 <= n < 256 && k >= LIMIT
    ensures var legacy, tables := Bare32(n, false, 0), Bare32(1, true, k);
            Build(legacy).Ok? && !WellFormed(legacy) && Build(tables).Ok? && !WellFormed(tables) &&
            (Parse(Build(legacy).value).Err? || Parse(Build(legacy).value).value.isVersioned) &&
            (Parse(Build(tables).value).Err? || !Parse(Build(tables).value).value.isVersioned)
  {
    hide Parse, Bytes, Base58.Encode, Base58.Decode, Write, Radix.Repeat;
    BareBuilds(n, false, 0);
    BareBuilds(1, true, k);
    BuildMisread(Bare32(n, false, 0));
    BuildMisread(Bare32(1, true, k));
  }

  lemma BareBuilds(n: int, versioned: bool, nLookups: int)
    requires IsByte(n) && nLookups >= 0
    ensures Build(Bare32(n, versioned, nLookups)).Ok?
  {
    hide Bytes, Base58.Encode, Base58.Decode, Write;
    var key := Radix.Repeat<byte>(0, 32);
    var zero := Base58.Encode(key);
    Base58.DecodeEncode(key);
    assert Decode32(zero, KeyNot32Bytes) == Ok(key) && [zero][1..] == [];
    var none: seq<seq<byte>> := [];
    assert none + [key] == [key];
    assert DecodeKeys([zero], none) == DecodeKeys([], none + [key]) == Ok([key]);
  }

  // ---------- the builder itself, appending to a buffer ----------

  lemma {:induction false} KeysBytesAppend(keys: seq<seq<byte>>, key: seq<byte>)
    ensures KeysBytes(keys + [key]) == KeysBytes(keys) + key
  {
    if keys == [] {
      assert (keys + [key])[1..] == [];
    } else {
      KeysBytesAppend(keys[1..], key);
      assert (keys + [key])[1..] == keys[1..] + [key];
    }
  }

  lemma {:induction false} IxsBytesAppend(ixs: seq<WireIx>, ix: WireIx)
    ensures IxsBytes(ixs + [ix]) == IxsBytes(ixs) + IxBytes(ix)
  {
    hide IxBytes;
    if ixs == [] {
      assert (ixs + [ix])[1..] == [];
    } else {
      IxsBytesAppend(ixs[1..], ix);
      assert (ixs + [ix])[1..] == ixs[1..] + [ix];
    }
  }

  lemma {:induction false} LookupsBytesAppend(ls: seq<Lookup>, l: Lookup)
    ensures LookupsBytes(ls + [l]) == LookupsBytes(ls) + LookupBytes(l)
  {
    hide LookupBytes;
    if ls == [] {
      assert (ls + [l])[1..] == [];
    } else {
      LookupsBytesAppend(ls[1..], l);
      assert (ls + [l])[1..] == ls[1..] + [l];
    }
  }

  method AppendKeys(keys: seq<string>, prefix: seq<byte>) returns (r: Result<seq<byte>, BuildError>)
    ensures r == match DecodeKeys(keys, [])
                 case Err(e) => Err(e)
                 case Ok(raws) => Ok(prefix + KeysBytes(raws))
  {
    hide Base58.Decode, KeysBytes;
    var out := prefix;
    ghost var raws: seq<seq<byte>> := [];
    assert KeysBytes(raws) == [] by { NoKeysBytes(); }
    assert keys[0..] == keys;
    for i := 0 to |keys|
      invariant DecodeKeys(keys, []) == DecodeKeys(keys[i..], raws)
      invariant out == prefix + KeysBytes(raws)
    {
      var d := Base58.B58Decode(keys[i]);
      if d.Err? {
        return Err(InvalidBase58);
      }
      if |d.value| != 32 {
        return Err(KeyNot32Bytes);
      }
      assert keys[i..][1..] == keys[i + 1..];
      KeysBytesAppend(raws, d.value);
      raws := raws + [d.value];
      out := out + d.value;
    }
    return Ok(out);
  }

  lemma NoKeysBytes()
    ensures KeysBytes([]) == [] && IxsBytes([]) == [] && LookupsBytes([]) == []
  {
  }

  method AppendIxs(ixs: seq<RawInstruction>, keys: seq<string>, prefix: seq<byte>)
    returns (r: Result<seq<byte>, BuildError>)
    ensures r == match AssembleIxs(ixs, keys, [])
                 case Err(e) => Err(e)
                 case Ok(wires) => Ok(prefix + IxsBytes(wires))
  {
    hide IxsBytes, Write;
    var out := prefix;
    ghost var wires: seq<WireIx> := [];
    assert IxsBytes(wires) == [] by { NoKeysBytes(); }
    assert ixs[0..] == ixs;
    for i := 0 to |ixs|
      invariant AssembleIxs(ixs, keys, []) == AssembleIxs(ixs[i..], keys, wires)
      invariant out == prefix + IxsBytes(wires)
    {
      var ix := ixs[i];
      assert ixs[i..][1..] == ixs[i + 1..];
      var p: int;
      if ix.indexOverride.Some? {
        p := ix.indexOverride.value;
      } else {
        var found := FirstIndex(keys, ix.programId);
        if found.None? {
          return Err(UnknownProgram);
        }
        p := found.value;
      }
      if !IsByte(p) {
        return Err(ProgramIndexRange);
      }
      var prog: byte := p;
      var accLen := WriteCompactU16(|ix.accounts|);
      var accounts := ToBytes(ix.accounts);
      if accounts.Err? {
        return Err(ByteRange);
      }
      var dataLen := WriteCompactU16(|ix.data|);
      ghost var wire := WireIx(prog, accLen.value, accounts.value, dataLen.value, ix.data);
      IxsBytesAppend(wires, wire);
      wires := wires + [wire];
      out := out + ([prog] + (accLen.value + (accounts.value + (dataLen.value + ix.data))));
    }
    return Ok(out);
  }

  method AppendLookups(n: nat, prefix: seq<byte>) returns (out: seq<byte>)
    ensures out == prefix + LookupsBytes(Radix.Repeat(DUMMY_LOOKUP, n))
  {
    hide LookupsBytes;
    out := prefix;
    assert Radix.Repeat(DUMMY_LOOKUP, 0) == [];
    assert LookupsBytes([]) == [] by { NoKeysBytes(); }
    var entry := Radix.Repeat<byte>(0, 32);
    for i := 0 to n
      invariant out == prefix + LookupsBytes(Radix.Repeat(DUMMY_LOOKUP, i))
    {
      var writable := WriteCompactU16(0);
      var readonly := WriteCompactU16(0);
      LookupsBytesAppend(Radix.Repeat(DUMMY_LOOKUP, i), DUMMY_LOOKUP);
      assert Radix.Repeat(DUMMY_LOOKUP, i + 1) == Radix.Repeat(DUMMY_LOOKUP, i) + [DUMMY_LOOKUP];
      assert LookupBytes(DUMMY_LOOKUP) == entry + (writable.value + readonly.value);
      out := out + (entry + (writable.value + readonly.value));
    }
  }

  /** `build_versioned_tx`. */
  method BuildVersionedTx(inp: BuildInput) returns (r: Result<seq<byte>, BuildError>)
    ensures r == Build(inp)
  {
    hide DecodeKeys, AssembleIxs, KeysBytes, IxsBytes, LookupsBytes, Base58.Decode, Write;
    var n := inp.numRequiredSignatures;
    var sigLen := WriteCompactU16(n);
    if sigLen.Err? {
      return Err(NegativeLength);
    }
    var out := sigLen.value + Radix.Repeat<byte>(0, 64 * n);
    if inp.versioned {
      out := out + [128];
    }
    if !IsByte(n) || !IsByte(inp.numReadonlySigned) || !IsByte(inp.numReadonlyUnsigned) {
      return Err(ByteRange);
    }
    out := out + [n, inp.numReadonlySigned, inp.numReadonlyUnsigned];
    var keyLen := WriteCompactU16(|inp.accountKeys|);
    out :- AppendKeys(inp.accountKeys, out + keyLen.value);
    var hash := Base58.B58Decode(inp.recentBlockhash);
    if hash.Err? {
      return Err(InvalidBase58);
    }
    if |hash.value| != 32 {
      return Err(BlockhashNot32Bytes);
    }
    var ixLen := WriteCompactU16(|inp.instructions|);
    out :- AppendIxs(inp.instructions, inp.accountKeys, out + hash.value + ixLen.value);
    if inp.versioned {
      var len := WriteCompactU16(inp.nLookups);
      if len.Err? {
        return Err(NegativeLength);
      }
      out := AppendLookups(inp.nLookups, out + len.value);
    }
    BufferIsBytes(Assemble(inp).value, out);
    return Ok(out);
  }

  /** The buffer appended left to right is the grammar's right-nested concatenation. */
  lemma BufferIsBytes(w: Wire, out: seq<byte>)
    requires w.tail.Bare? ==> w.tail.trailing == []
    requires w.tail.Section? ==> w.tail.trailing == []
    requires var front := w.sigLen + w.sigs + (if w.versioned then [128] else []) + w.header + w.keyLen
                        + KeysBytes(w.keys) + w.blockhash + w.ixLen + IxsBytes(w.ixs);
             out == if w.tail.Bare? then front else front + w.tail.len + LookupsBytes(w.tail.lookups)
    ensures out == Bytes(w)
  {
    hide KeysBytes, IxsBytes, LookupsBytes;
  }
}
