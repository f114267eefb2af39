/** `parse_transaction`: the signer's byte-level transaction parser, and the proof that it accepts
    exactly the transactions of WireFormat and returns their meaning. */
module TxParser {
  import opened Common
  import opened CompactU16
  import opened WireFormat
  import Base58

  datatype WireError =
    | CompactTruncated | CompactOverflow
    | TruncatedSignatures | NoMessage | UnsupportedVersion(version: nat) | NoHeader
    | TruncatedKey | NoKeys | TruncatedBlockhash
    | TruncatedProgramIndex | TruncatedAccounts | TruncatedData
    | TruncatedLookup | TruncatedWritable | TruncatedReadonly

  /** A value read off the front of the input, and the input after it. */
  type Cursor<+T> = Result<(T, seq<byte>), WireError>

  // ---------- specification, on the unread suffix ----------

  function ReadLen(rest: seq<byte>): Cursor<nat>
  {
    match Read(rest)
    case Ok(p) => Ok(p)
    case Err(Truncated) => Err(CompactTruncated)
    case Err(Overflow) => Err(CompactOverflow)
  }

  function Take(rest: seq<byte>, n: nat, e: WireError): Cursor<seq<byte>>
  {
    if |rest| < n then Err(e) else Ok((rest[..n], rest[n..]))
  }

  function TakeCounted(rest: seq<byte>, e: WireError): Cursor<seq<byte>>
  {
    var (n, r1) :- ReadLen(rest);
    Take(r1, n, e)
  }

  function ParseKeys(rest: seq<byte>, n: nat, acc: seq<string>): Cursor<seq<string>>
    decreases n
  {
    if n == 0 then Ok((acc, rest))
    else
      var (key, r1) :- Take(rest, 32, TruncatedKey);
      ParseKeys(r1, n - 1, acc + [Base58.Encode(key)])
  }

  function ParseInstruction(rest: seq<byte>, keys: seq<string>): Cursor<ParsedInstruction>
  {
    if rest == [] then Err(TruncatedProgramIndex)
    else
      var prog := rest[0];
      var (accounts, r1) :- TakeCounted(rest[1..], TruncatedAccounts);
      var (data, r2) :- TakeCounted(r1, TruncatedData);
      Ok((ParsedInstruction(if prog < |keys| then keys[prog] else "", prog, accounts, data), r2))
  }

  predicate LeavesStaticKeys(ix: ParsedInstruction, nKeys: nat)
  {
    ix.programIdIndex >= nKeys || exists i :: 0 <= i < |ix.accountIndices| && ix.accountIndices[i] >= nKeys
  }

  function ParseInstructions(rest: seq<byte>, n: nat, keys: seq<string>, acc: seq<ParsedInstruction>, alt: bool)
    : Cursor<(seq<ParsedInstruction>, bool)>
    decreases n
  {
    if n == 0 then Ok(((acc, alt), rest))
    else
      var (ix, r1) :- ParseInstruction(rest, keys);
      ParseInstructions(r1, n - 1, keys, acc + [ix], alt || LeavesStaticKeys(ix, |keys|))
  }

  function SkipLookup(rest: seq<byte>): Cursor<()>
  {
    var (_, r1) :- Take(rest, 32, TruncatedLookup);
    var (_, r2) :- TakeCounted(r1, TruncatedWritable);
    var (_, r3) :- TakeCounted(r2, TruncatedReadonly);
    Ok(((), r3))
  }

  function SkipLookups(rest: seq<byte>, n: nat): Cursor<()>
    decreases n
  {
    if n == 0 then Ok(((), rest))
    else
      var (_, r1) :- SkipLookup(rest);
      SkipLookups(r1, n - 1)
  }

  /** The table-lookup section; true when it declares an entry. */
  function ParseTail(rest: seq<byte>, versioned: bool): Result<bool, WireError>
  {
    if !versioned || rest == [] then Ok(false)
    else
      var (n, r1) :- ReadLen(rest);
      var _ :- SkipLookups(r1, n);
      Ok(n > 0)
  }

  function ParseBody(rest: seq<byte>, versioned: bool, numRequired: byte): Result<ParsedTx, WireError>
  {
    var (nKeys, r1) :- ReadLen(rest);
    var (keys, r2) :- ParseKeys(r1, nKeys, []);
    if keys == [] then Err(NoKeys)
    else
      var (hash, r3) :- Take(r2, 32, TruncatedBlockhash);
      var (nIx, r4) :- ReadLen(r3);
      var ((ixs, alt), r5) :- ParseInstructions(r4, nIx, keys, [], false);
      var lookups :- ParseTail(r5, versioned);
      Ok(ParsedTx(keys, numRequired, keys[0], Base58.Encode(hash), ixs, versioned, alt || lookups))
  }

  function ParseHeader(rest: seq<byte>, versioned: bool): Result<ParsedTx, WireError>
  {
    var (header, r1) :- Take(rest, 3, NoHeader);
    ParseBody(r1, versioned, header[0])
  }

  function ParseMessage(rest: seq<byte>): Result<ParsedTx, WireError>
  {
    if rest == [] then Err(NoMessage)
    else if rest[0] < 128 then ParseHeader(rest, false)
    else if rest[0] != 128 then Err(UnsupportedVersion(rest[0] - 128))
    else ParseHeader(rest[1..], true)
  }

  function Parse(tx: seq<byte>): Result<ParsedTx, WireError>
  {
    var (nSigs, r1) :- ReadLen(tx);
    var (_, r2) :- Take(r1, nSigs * 64, TruncatedSignatures);
    ParseMessage(r2)
  }

  // ---------- completeness: every transaction parses to its meaning ----------

  lemma ReadLenOf(len: seq<byte>, after: seq<byte>)
    requires ValidLen(len)
    ensures ReadLen(len + after) == Ok((LenValue(len), after))
  {
    ReadComplete(len, after);
  }

  lemma TakeOf(x: seq<byte>, after: seq<byte>, e: WireError)
    ensures Take(x + after, |x|, e) == Ok((x, after))
  {
    assert (x + after)[..|x|] == x && (x + after)[|x|..] == after;
  }

  lemma TakeCountedOf(len: seq<byte>, x: seq<byte>, after: seq<byte>, e: WireError)
    requires CountedBy(len, |x|)
    ensures TakeCounted(len + (x + after), e) == Ok((x, after))
  {
    ReadLenOf(len, x + after);
    TakeOf(x, after, e);
  }

  lemma {:induction false} ParseKeysOf(keys: seq<seq<byte>>, after: seq<byte>, acc: seq<string>)
    requires Keys32(keys)
    ensures ParseKeys(KeysBytes(keys) + after, |keys|, acc) == Ok((acc + EncodedKeys(keys), after))
  {
    if keys == [] {
      assert KeysBytes(keys) + after == after;
      assert acc + EncodedKeys(keys) == acc;
    } else {
      var rest := KeysBytes(keys[1..]) + after;
      assert KeysBytes(keys) + after == keys[0] + rest;
      TakeOf(keys[0], rest, TruncatedKey);
      ParseKeysOf(keys[1..], after, acc + [Base58.Encode(keys[0])]);
      assert acc + EncodedKeys(keys) == acc + [Base58.Encode(keys[0])] + EncodedKeys(keys[1..]);
    }
  }

  lemma ParseInstructionOf(ix: WireIx, keys: seq<string>, after: seq<byte>)
    requires ValidIx(ix)
    ensures ParseInstruction(IxBytes(ix) + after, keys) == Ok((IxView(ix, keys), after))
  {
    var r2 := ix.dataLen + (ix.data + after);
    var r1 := ix.accLen + (ix.accounts + r2);
    assert IxBytes(ix) + after == [ix.prog] + r1;
    assert ([ix.prog] + r1)[1..] == r1;
    TakeCountedOf(ix.accLen, ix.accounts, r2, TruncatedAccounts);
    TakeCountedOf(ix.dataLen, ix.data, after, TruncatedData);
  }

  lemma {:induction false} ParseInstructionsOf(
    ixs: seq<WireIx>, keys: seq<string>, after: seq<byte>, acc: seq<ParsedInstruction>, alt: bool)
    requires ValidIxs(ixs)
    ensures ParseInstructions(IxsBytes(ixs) + after, |ixs|, keys, acc, alt) ==
            Ok(((acc + IxsView(ixs, keys), alt || AnyUnresolved(ixs, |keys|)), after))
  {
    hide ParseInstruction, IxBytes, IxView;
    IxViewIndices(ixs, keys);
    if ixs == [] {
      assert IxsBytes(ixs) + after == after;
      assert acc + IxsView(ixs, keys) == acc;
    } else {
      var ix, rest := ixs[0], IxsBytes(ixs[1..]) + after;
      assert IxsBytes(ixs) + after == IxBytes(ix) + rest;
      ParseInstructionOf(ix, keys, rest);
      var v := IxView(ix, keys);
      ParseInstructionsOf(ixs[1..], keys, after, acc + [v], alt || LeavesStaticKeys(v, |keys|));
      assert acc + IxsView(ixs, keys) == acc + [v] + IxsView(ixs[1..], keys);
      AnyUnresolvedSplit(ixs, |keys|);
    }
  }

  lemma IxViewIndices(ixs: seq<WireIx>, keys: seq<string>)
    ensures forall i :: 0 <= i < |ixs| ==>
              (LeavesStaticKeys(IxView(ixs[i], keys), |keys|) <==> Unresolved(ixs[i], |keys|))
  {
  }

  lemma AnyUnresolvedSplit(ixs: seq<WireIx>, n: nat)
    requires ixs != []
    ensures AnyUnresolved(ixs, n) <==> Unresolved(ixs[0], n) || AnyUnresolved(ixs[1..], n)
  {
    if i :| 0 <= i < |ixs| && Unresolved(ixs[i], n) {
      assert i > 0 ==> ixs[1..][i - 1] == ixs[i];
    }
    if j :| 0 <= j < |ixs[1..]| && Unresolved(ixs[1..][j], n) {
      assert ixs[1..][j] == ixs[j + 1];
    }
  }

  lemma SkipLookupOf(l: Lookup, after: seq<byte>)
    requires ValidLookup(l)
    ensures SkipLookup(LookupBytes(l) + after) == Ok(((), after))
  {
    var r2 := l.rLen + (l.readonly + after);
    var r1 := l.wLen + (l.writable + r2);
    assert LookupBytes(l) + after == l.table + r1;
    TakeOf(l.table, r1, TruncatedLookup);
    TakeCountedOf(l.wLen, l.writable, r2, TruncatedWritable);
    TakeCountedOf(l.rLen, l.readonly, after, TruncatedReadonly);
  }

  lemma {:induction false} SkipLookupsOf(ls: seq<Lookup>, after: seq<byte>)
    requires forall i :: 0 <= i < |ls| ==> ValidLookup(ls[i])
    ensures SkipLookups(LookupsBytes(ls) + after, |ls|) == Ok(((), after))
  {
    if ls == [] {
      assert LookupsBytes(ls) + after == after;
    } else {
      var rest := LookupsBytes(ls[1..]) + after;
      assert LookupsBytes(ls) + after == LookupBytes(ls[0]) + rest;
      SkipLookupOf(ls[0], rest);
      SkipLookupsOf(ls[1..], after);
    }
  }

  lemma ParseTailOf(t: Tail, versioned: bool)
    requires ValidTail(t, versioned)
    ensures ParseTail(TailBytes(t), versioned) == Ok(DeclaresLookups(t))
  {
    if t.Section? {
      ReadLenOf(t.len, LookupsBytes(t.lookups) + t.trailing);
      SkipLookupsOf(t.lookups, t.trailing);
    }
  }

  lemma ParseBodyOf(w: Wire)
    requires Valid(w)
    ensures ParseBody(BodyBytes(w), w.versioned, w.header[0]) == Ok(View(w))
  {
    hide ReadLen, ParseKeys, ParseInstructions, ParseTail, KeysBytes, IxsBytes, TailBytes, Base58.Encode;
    var keys := EncodedKeys(w.keys);
    var r5 := TailBytes(w.tail);
    var r4 := IxsBytes(w.ixs) + r5;
    var r3 := w.ixLen + r4;
    var r2 := w.blockhash + r3;
    var r1 := KeysBytes(w.keys) + r2;
    ReadLenOf(w.keyLen, r1);
    ParseKeysOf(w.keys, r2, []);
    assert [] + keys == keys;
    TakeOf(w.blockhash, r3, TruncatedBlockhash);
    ReadLenOf(w.ixLen, r4);
    ParseInstructionsOf(w.ixs, keys, r5, [], false);
    assert [] + IxsView(w.ixs, keys) == IxsView(w.ixs, keys);
    ParseTailOf(w.tail, w.versioned);
  }

  lemma ParseMessageOf(w: Wire)
    requires Valid(w)
    ensures ParseMessage(MessageBytes(w)) == Ok(View(w))
  {
    hide Valid, View, ParseBody, BodyBytes;
    ValidHeader(w);
    var m := w.header + BodyBytes(w);
    TakeOf(w.header, BodyBytes(w), NoHeader);
    ParseBodyOf(w);
    if w.versioned {
      assert ([128] + m)[1..] == m;
    } else {
      assert [] + m == m;
    }
  }

  lemma ValidHeader(w: Wire)
    requires Valid(w)
    ensures |w.header| == 3 && (!w.versioned ==> w.header[0] < 128)
    ensures ValidLen(w.sigLen) && |w.sigs| == 64 * LenValue(w.sigLen)
  {
  }

  /** Every transaction of the grammar is accepted, and read back as what it means. */
  lemma ParseComplete(w: Wire)
    requires Valid(w)
    ensures Parse(Bytes(w)) == Ok(View(w))
  {
    hide Valid, View, ParseMessage, MessageBytes;
    ValidHeader(w);
    ReadLenOf(w.sigLen, w.sigs + MessageBytes(w));
    TakeOf(w.sigs, MessageBytes(w), TruncatedSignatures);
    ParseMessageOf(w);
  }

  // ---------- soundness: only transactions are accepted ----------

  lemma ReadLenSound(rest: seq<byte>) returns (len: seq<byte>)
    requires ReadLen(rest).Ok?
    ensures CountedBy(len, ReadLen(rest).value.0) && rest == len + ReadLen(rest).value.1
  {
    len := ReadSound(rest);
  }

  lemma TakeCountedSound(rest: seq<byte>, e: WireError) returns (len: seq<byte>)
    requires TakeCounted(rest, e).Ok?
    ensures var (x, after) := TakeCounted(rest, e).value; CountedBy(len, |x|) && rest == len + (x + after)
  {
    len := ReadLenSound(rest);
    var r1 := ReadLen(rest).value.1;
    var (x, after) := TakeCounted(rest, e).value;
    assert r1 == x + after;
  }

  lemma {:induction false} ParseKeysSound(rest: seq<byte>, n: nat, acc: seq<string>) returns (keys: seq<seq<byte>>)
    requires ParseKeys(rest, n, acc).Ok?
    ensures |keys| == n && Keys32(keys) && rest == KeysBytes(keys) + ParseKeys(rest, n, acc).value.1
    decreases n
  {
    if n == 0 {
      keys := [];
    } else {
      var key, r1 := rest[..32], rest[32..];
      var tail := ParseKeysSound(r1, n - 1, acc + [Base58.Encode(key)]);
      keys := [key] + tail;
      assert keys[1..] == tail;
      assert rest == key + r1;
    }
  }

  lemma Regroup(a: seq<byte>, b: seq<byte>, c: seq<byte>, d: seq<byte>, e: seq<byte>, f: seq<byte>)
    ensures a + (b + (c + (d + e))) + f == a + (b + (c + (d + (e + f))))
  {
    assert d + e + f == d + (e + f);
    assert c + (d + e) + f == c + (d + e + f);
    assert b + (c + (d + e)) + f == b + (c + (d + e) + f);
    assert a + (b + (c + (d + e))) + f == a + (b + (c + (d + e)) + f);
  }

  lemma ParseInstructionSound(rest: seq<byte>, keys: seq<string>) returns (ix: WireIx)
    requires ParseInstruction(rest, keys).Ok?
    ensures ValidIx(ix) && rest == IxBytes(ix) + ParseInstruction(rest, keys).value.1
  {
    hide TakeCounted, CountedBy;
    var accLen := TakeCountedSound(rest[1..], TruncatedAccounts);
    var (accounts, r1) := TakeCounted(rest[1..], TruncatedAccounts).value;
    var dataLen := TakeCountedSound(r1, TruncatedData);
    var (data, r2) := TakeCounted(r1, TruncatedData).value;
    ix := WireIx(rest[0], accLen, accounts, dataLen, data);
    assert rest == [rest[0]] + rest[1..];
    Regroup([rest[0]], accLen, accounts, dataLen, data, r2);
  }

  lemma {:induction false} ParseInstructionsSound(
    rest: seq<byte>, n: nat, keys: seq<string>, acc: seq<ParsedInstruction>, alt: bool) returns (ixs: seq<WireIx>)
    requires ParseInstructions(rest, n, keys, acc, alt).Ok?
    ensures |ixs| == n && ValidIxs(ixs) && rest == IxsBytes(ixs) + ParseInstructions(rest, n, keys, acc, alt).value.1
    decreases n
  {
    hide ParseInstruction, IxBytes;
    if n == 0 {
      ixs := [];
    } else {
      var (v, r1) := ParseInstruction(rest, keys).value;
      var ix := ParseInstructionSound(rest, keys);
      var tail := ParseInstructionsSound(r1, n - 1, keys, acc + [v], alt || LeavesStaticKeys(v, |keys|));
      ixs := [ix] + tail;
      assert ixs[1..] == tail;
    }
  }

  lemma SkipLookupSound(rest: seq<byte>) returns (l: Lookup)
    requires SkipLookup(rest).Ok?
    ensures ValidLookup(l) && rest == LookupBytes(l) + SkipLookup(rest).value.1
  {
    hide TakeCounted, CountedBy;
    var table, r1 := rest[..32], rest[32..];
    var wLen := TakeCountedSound(r1, TruncatedWritable);
    var (writable, r2) := TakeCounted(r1, TruncatedWritable).value;
    var rLen := TakeCountedSound(r2, TruncatedReadonly);
    var (readonly, r3) := TakeCounted(r2, TruncatedReadonly).value;
    l := Lookup(table, wLen, writable, rLen, readonly);
    assert rest == table + r1;
    Regroup(table, wLen, writable, rLen, readonly, r3);
  }

  lemma {:induction false} SkipLookupsSound(rest: seq<byte>, n: nat) returns (ls: seq<Lookup>)
    requires SkipLookups(rest, n).Ok?
    ensures |ls| == n && (forall i :: 0 <= i < n ==> ValidLookup(ls[i]))
    ensures rest == LookupsBytes(ls) + SkipLookups(rest, n).value.1
    decreases n
  {
    hide SkipLookup, LookupBytes;
    if n == 0 {
      ls := [];
    } else {
      var l := SkipLookupSound(rest);
      var tail := SkipLookupsSound(SkipLookup(rest).value.1, n - 1);
      ls := [l] + tail;
      assert ls[1..] == tail;
    }
  }

  lemma ParseTailSound(rest: seq<byte>, versioned: bool) returns (t: Tail)
    requires ParseTail(rest, versioned).Ok?
    ensures ValidTail(t, versioned) && TailBytes(t) == rest
  {
    if !versioned || rest == [] {
      t := Bare(rest);
    } else {
      var len := ReadLenSound(rest);
      var (n, r1) := ReadLen(rest).value;
      var ls := SkipLookupsSound(r1, n);
      t := Section(len, ls, SkipLookups(r1, n).value.1);
    }
  }

  lemma ParseBodySound(rest: seq<byte>, versioned: bool, header: seq<byte>) returns (w: Wire)
    requires |header| == 3 && ParseBody(rest, versioned, header[0]).Ok?
    ensures w.versioned == versioned && w.header == header && w.sigLen == [0] && w.sigs == []
    ensures (!versioned ==> header[0] < 128) ==> Valid(w)
    ensures BodyBytes(w) == rest
  {
    hide ReadLen, ParseKeys, ParseInstructions, ParseTail, KeysBytes, IxsBytes, TailBytes, Base58.Encode;
    var keyLen := ReadLenSound(rest);
    var (nKeys, r1) := ReadLen(rest).value;
    var keys := ParseKeysSound(r1, nKeys, []);
    var (ks, r2) := ParseKeys(r1, nKeys, []).value;
    ParseKeysOf(keys, r2, []);
    var hash, r3 := r2[..32], r2[32..];
    var ixLen := ReadLenSound(r3);
    var (nIx, r4) := ReadLen(r3).value;
    var ixs := ParseInstructionsSound(r4, nIx, ks, [], false);
    var r5 := ParseInstructions(r4, nIx, ks, [], false).value.1;
    var tail := ParseTailSound(r5, versioned);
    w := Wire([0], [], versioned, header, keyLen, keys, hash, ixLen, ixs, tail);
    assert r2 == hash + r3;
    assert LenValue([0]) == 0;
  }

  /** Every accepted byte string is a transaction of the grammar. */
  lemma ParseSound(tx: seq<byte>) returns (w: Wire)
    requires Parse(tx).Ok?
    ensures Valid(w) && Bytes(w) == tx && Parse(tx) == Ok(View(w))
  {
    hide ReadLen, ParseBody, BodyBytes, View;
    var sigLen := ReadLenSound(tx);
    var (nSigs, r1) := ReadLen(tx).value;
    var sigs, r2 := r1[..nSigs * 64], r1[nSigs * 64..];
    assert r1 == sigs + r2;
    var versioned := r2[0] >= 128;
    var m := if versioned then r2[1..] else r2;
    var header, body := m[..3], m[3..];
    var w0 := ParseBodySound(body, versioned, header);
    w := w0.(sigLen := sigLen, sigs := sigs);
    SameBody(w0, w);
    assert m == header + body;
    assert MessageBytes(w) == r2;
    ParseComplete(w);
  }

  lemma SameBody(w0: Wire, w: Wire)
    requires w == w0.(sigLen := w.sigLen, sigs := w.sigs)
    ensures BodyBytes(w) == BodyBytes(w0)
  {
  }

  // ---------- the theorems ----------

  /** The parser is total, accepts exactly the grammar, and returns the meaning: a byte string has
      at most one. */
  lemma ParseExactly(tx: seq<byte>, p: ParsedTx)
    ensures Parse(tx) == Ok(p) <==> exists w :: Valid(w) && Bytes(w) == tx && View(w) == p
  {
    hide Parse, Valid, Bytes, View;
    if Parse(tx) == Ok(p) {
      var w := ParseSound(tx);
    }
    forall w | Valid(w) && Bytes(w) == tx && View(w) == p
      ensures Parse(tx) == Ok(p)
    {
      ParseComplete(w);
    }
  }

  lemma EncodedKeyNonEmpty(key: seq<byte>)
    requires |key| == 32
    ensures Base58.Encode(key) != ""
  {
    Base58.DecodeEncode(key);
    if Base58.Encode(key) == "" {
      Base58.EmptyDecodes();
    }
  }

  predicate IndicesStatic(p: ParsedTx)
  {
    forall i :: 0 <= i < |p.instructions| ==>
      var ix := p.instructions[i];
      ix.programIdIndex < |p.accountKeys| &&
      forall j :: 0 <= j < |ix.accountIndices| ==> ix.accountIndices[j] < |p.accountKeys|
  }

  /** The lookup flag is clear exactly when the bytes declare no table entry and every index is
      static; then every program id is the non-empty key at its index. */
  lemma LookupFlagExact(tx: seq<byte>) returns (w: Wire)
    requires Parse(tx).Ok?
    ensures Valid(w) && Bytes(w) == tx && View(w) == Parse(tx).value
    ensures var p := View(w);
            !p.hasAddressTableLookups <==> !DeclaresLookups(w.tail) && IndicesStatic(p)
    ensures var p := View(w);
            !p.hasAddressTableLookups ==>
            forall i :: 0 <= i < |p.instructions| ==>
              var ix := p.instructions[i];
              ix.programIdIndex < |p.accountKeys| && ix.programId == p.accountKeys[ix.programIdIndex] != ""
  {
    w := ParseSound(tx);
    UnresolvedIsNotStatic(w);
    NonEmptyIds(w);
  }

  lemma UnresolvedIsNotStatic(w: Wire)
    requires Valid(w)
    ensures AnyUnresolved(w.ixs, |w.keys|) <==> !IndicesStatic(View(w))
  {
    hide Base58.Encode;
    var p := View(w);
    if i :| 0 <= i < |w.ixs| && Unresolved(w.ixs[i], |w.keys|) {
      assert p.instructions[i] == IxView(w.ixs[i], p.accountKeys);
    }
    if !IndicesStatic(p) {
      var i :| 0 <= i < |p.instructions| &&
        !(p.instructions[i].programIdIndex < |p.accountKeys| &&
          forall j :: 0 <= j < |p.instructions[i].accountIndices| ==>
              p.instructions[i].accountIndices[j] < |p.accountKeys|);
      assert p.instructions[i] == IxView(w.ixs[i], p.accountKeys);
      assert Unresolved(w.ixs[i], |w.keys|);
    }
  }

  lemma NonEmptyIds(w: Wire)
    requires Valid(w)
    ensures forall i :: 0 <= i < |View(w).accountKeys| ==> View(w).accountKeys[i] != ""
  {
    forall i | 0 <= i < |w.keys|
      ensures Base58.Encode(w.keys[i]) != ""
    {
      EncodedKeyNonEmpty(w.keys[i]);
    }
  }

  // ---------- the parser itself, walking an offset ----------

  /** r reports, as an offset into tx, what the suffix parse c reports. */
  ghost predicate AtOffset<T>(tx: seq<byte>, c: Cursor<T>, r: Result<(T, nat), WireError>)
  {
    match c
    case Ok((v, after)) => r.Ok? && r.value.0 == v && r.value.1 <= |tx| && after == tx[r.value.1..]
    case Err(e) => r == Err(e)
  }

  method ReadLength(tx: seq<byte>, pos: nat) returns (r: Result<(nat, nat), WireError>)
    requires pos <= |tx|
    ensures AtOffset(tx, ReadLen(tx[pos..]), r)
  {
    var c := ReadCompactU16(tx, pos);
    match c
    case Ok(p) => r := Ok(p);
    case Err(Truncated) => r := Err(CompactTruncated);
    case Err(Overflow) => r := Err(CompactOverflow);
  }

  /** A length prefix and that many bytes: instruction accounts and data, and lookup indexes. */
  method ReadCounted(tx: seq<byte>, pos: nat, e: WireError) returns (r: Result<(seq<byte>, nat), WireError>)
    requires pos <= |tx|
    ensures AtOffset(tx, TakeCounted(tx[pos..], e), r)
  {
    hide ReadLen;
    var c1 :- ReadLength(tx, pos);
    var (n, p) := c1;
    if p + n > |tx| {
      return Err(e);
    }
    assert tx[p..][..n] == tx[p..p + n] && tx[p..][n..] == tx[p + n..];
    return Ok((tx[p..p + n], p + n));
  }

  method ReadKeys(tx: seq<byte>, start: nat, n: nat) returns (r: Result<(seq<string>, nat), WireError>)
    requires start <= |tx|
    ensures AtOffset(tx, ParseKeys(tx[start..], n, []), r)
  {
    hide Base58.Encode;
    var pos: nat, keys: seq<string> := start, [];
    for i := 0 to n
      invariant pos <= |tx|
      invariant ParseKeys(tx[start..], n, []) == ParseKeys(tx[pos..], n - i, keys)
    {
      if pos + 32 > |tx| {
        return Err(TruncatedKey);
      }
      var key := Base58.B58Encode(tx[pos..pos + 32]);
      assert tx[pos..][..32] == tx[pos..pos + 32] && tx[pos..][32..] == tx[pos + 32..];
      keys := keys + [key];
      pos := pos + 32;
    }
    return Ok((keys, pos));
  }

  method ReadInstructions(tx: seq<byte>, start: nat, n: nat, keys: seq<string>)
    returns (r: Result<((seq<ParsedInstruction>, bool), nat), WireError>)
    requires start <= |tx|
    ensures AtOffset(tx, ParseInstructions(tx[start..], n, keys, [], false), r)
  {
    hide TakeCounted;
    var pos: nat, ixs: seq<ParsedInstruction>, altRegionHit := start, [], false;
    for i := 0 to n
      invariant pos <= |tx|
      invariant ParseInstructions(tx[start..], n, keys, [], false)
             == ParseInstructions(tx[pos..], n - i, keys, ixs, altRegionHit)
    {
      if pos >= |tx| {
        return Err(TruncatedProgramIndex);
      }
      var prog := tx[pos];
      ghost var rest := tx[pos..];
      assert rest[1..] == tx[pos + 1..];
      var programId := "";
      var hit := altRegionHit;
      if prog < |keys| {
        programId := keys[prog];
      } else {
        hit := true;
      }
      var c2 :- ReadCounted(tx, pos + 1, TruncatedAccounts);
      var (accounts, p1) := c2;
      var any := AnyAtLeast(accounts, |keys|);
      hit := hit || any;
      var c3 :- ReadCounted(tx, p1, TruncatedData);
      var (data, p2) := c3;
      var ix := ParsedInstruction(programId, prog, accounts, data);
      assert ParseInstruction(rest, keys) == Ok((ix, tx[p2..]));
      assert hit == (altRegionHit || LeavesStaticKeys(ix, |keys|));
      ixs, altRegionHit, pos := ixs + [ix], hit, p2;
    }
    return Ok(((ixs, altRegionHit), pos));
  }

  method AnyAtLeast(indices: seq<byte>, n: nat) returns (hit: bool)
    ensures hit <==> exists i :: 0 <= i < |indices| && indices[i] >= n
  {
    hit := false;
    for i := 0 to |indices|
      invariant hit <==> exists j :: 0 <= j < i && indices[j] >= n
    {
      if indices[i] >= n {
        hit := true;
      }
    }
  }

  method SkipTables(tx: seq<byte>, start: nat, n: nat) returns (r: Result<((), nat), WireError>)
    requires start <= |tx|
    ensures AtOffset(tx, SkipLookups(tx[start..], n), r)
  {
    hide TakeCounted;
    var pos: nat := start;
    for i := 0 to n
      invariant pos <= |tx|
      invariant SkipLookups(tx[start..], n) == SkipLookups(tx[pos..], n - i)
    {
      if pos + 32 > |tx| {
        return Err(TruncatedLookup);
      }
      ghost var rest := tx[pos..];
      assert rest[32..] == tx[pos + 32..];
      var c4 :- ReadCounted(tx, pos + 32, TruncatedWritable);
      var (_, p1) := c4;
      var c5 :- ReadCounted(tx, p1, TruncatedReadonly);
      var (_, p2) := c5;
      assert SkipLookup(rest) == Ok(((), tx[p2..]));
      pos := p2;
    }
    return Ok(((), pos));
  }

  /** `parse_transaction`. */
  method ParseTransaction(tx: seq<byte>) returns (r: Result<ParsedTx, WireError>)
    ensures r == Parse(tx)
  {
    hide ReadLen, ParseBody;
    var c6 :- ReadLength(tx, 0);
    var (nSigs, p1) := c6;
    assert tx[0..] == tx;
    var pos := p1 + nSigs * 64;
    if pos > |tx| {
      return Err(TruncatedSignatures);
    }
    assert tx[p1..][nSigs * 64..] == tx[pos..];
    if pos >= |tx| {
      return Err(NoMessage);
    }
    var isVersioned := tx[pos] >= 128;
    if isVersioned {
      if tx[pos] - 128 != 0 {
        return Err(UnsupportedVersion(tx[pos] - 128));
      }
      assert tx[pos..][1..] == tx[pos + 1..];
      pos := pos + 1;
    }
    if pos + 3 > |tx| {
      return Err(NoHeader);
    }
    assert tx[pos..][3..] == tx[pos + 3..] && tx[pos..][..3][0] == tx[pos];
    r := ParseAfterHeader(tx, pos + 3, isVersioned, tx[pos]);
  }

  method ParseAfterHeader(tx: seq<byte>, start: nat, isVersioned: bool, numRequired: byte)
    returns (r: Result<ParsedTx, WireError>)
    requires start <= |tx|
    ensures r == ParseBody(tx[start..], isVersioned, numRequired)
  {
    hide ReadLen, ParseKeys, ParseInstructions, SkipLookups, Base58.Encode;
    var c7 :- ReadLength(tx, start);
    var (nKeys, p1) := c7;
    var c8 :- ReadKeys(tx, p1, nKeys);
    var (keys, p2) := c8;
    if keys == [] {
      return Err(NoKeys);
    }
    if p2 + 32 > |tx| {
      return Err(TruncatedBlockhash);
    }
    assert tx[p2..][..32] == tx[p2..p2 + 32] && tx[p2..][32..] == tx[p2 + 32..];
    var recentBlockhash := Base58.B58Encode(tx[p2..p2 + 32]);
    var c9 :- ReadLength(tx, p2 + 32);
    var (nIx, p3) := c9;
    var c10 :- ReadInstructions(tx, p3, nIx, keys);
    var ((ixs, altRegionHit), p4) := c10;
    var hasAlt := altRegionHit;
    if isVersioned && p4 < |tx| {
      var c11 :- ReadLength(tx, p4);
      var (nAlt, p5) := c11;
      if nAlt > 0 {
        hasAlt := true;
      }
      var _ :- SkipTables(tx, p5, nAlt);
    }
    return Ok(ParsedTx(keys, numRequired, keys[0], recentBlockhash, ixs, isVersioned, hasAlt));
  }
}
