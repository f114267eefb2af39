/** The serialized transaction as a grammar: which byte strings are transactions, independently of
    how the parser walks them, and what a transaction means to the signer. */
module WireFormat {
  import opened Common
  import opened CompactU16
  import Base58

  // ---------- what the signer inspects ----------

  datatype ParsedInstruction = ParsedInstruction(
    programId: string, programIdIndex: byte, accountIndices: seq<byte>, data: seq<byte>)

  datatype ParsedTx = ParsedTx(
    accountKeys: seq<string>,
    numRequiredSignatures: byte,
    payer: string,
    recentBlockhash: string,
    instructions: seq<ParsedInstruction>,
    isVersioned: bool,
    hasAddressTableLookups: bool)

  // ---------- the layout ----------

  datatype WireIx = WireIx(prog: byte, accLen: seq<byte>, accounts: seq<byte>, dataLen: seq<byte>, data: seq<byte>)

  datatype Lookup = Lookup(table: seq<byte>, wLen: seq<byte>, writable: seq<byte>, rLen: seq<byte>, readonly: seq<byte>)

  /** What follows the instructions: nothing that is read, or a table-lookup section. */
  datatype Tail = Bare(trailing: seq<byte>) | Section(len: seq<byte>, lookups: seq<Lookup>, trailing: seq<byte>)

  datatype Wire = Wire(
    sigLen: seq<byte>, sigs: seq<byte>,
    versioned: bool,
    header: seq<byte>,
    keyLen: seq<byte>, keys: seq<seq<byte>>,
    blockhash: seq<byte>,
    ixLen: seq<byte>, ixs: seq<WireIx>,
    tail: Tail)

  predicate CountedBy(len: seq<byte>, n: nat)
  {
    ValidLen(len) && LenValue(len) == n
  }

  predicate ValidIx(ix: WireIx)
  {
    CountedBy(ix.accLen, |ix.accounts|) && CountedBy(ix.dataLen, |ix.data|)
  }

  predicate ValidLookup(l: Lookup)
  {
    |l.table| == 32 && CountedBy(l.wLen, |l.writable|) && CountedBy(l.rLen, |l.readonly|)
  }

  predicate ValidTail(t: Tail, versioned: bool)
  {
    match t
    case Bare(trailing) => versioned ==> trailing == []
    case Section(len, lookups, _) =>
      versioned && CountedBy(len, |lookups|) && forall i :: 0 <= i < |lookups| ==> ValidLookup(lookups[i])
  }

  predicate Keys32(keys: seq<seq<byte>>)
  {
    forall i :: 0 <= i < |keys| ==> |keys[i]| == 32
  }

  predicate ValidIxs(ixs: seq<WireIx>)
  {
    forall i :: 0 <= i < |ixs| ==> ValidIx(ixs[i])
  }

  /** The transactions. A legacy message is told apart by the high bit of its first header byte. */
  predicate Valid(w: Wire)
  {
    && ValidLen(w.sigLen) && |w.sigs| == 64 * LenValue(w.sigLen)
    && |w.header| == 3 && (!w.versioned ==> w.header[0] < 128)
    && CountedBy(w.keyLen, |w.keys|) && |w.keys| >= 1 && Keys32(w.keys)
    && |w.blockhash| == 32
    && CountedBy(w.ixLen, |w.ixs|) && ValidIxs(w.ixs)
    && ValidTail(w.tail, w.versioned)
  }

  function IxBytes(ix: WireIx): seq<byte>
  {
    [ix.prog] + (ix.accLen + (ix.accounts + (ix.dataLen + ix.data)))
  }

  function IxsBytes(ixs: seq<WireIx>): seq<byte>
  {
    if ixs == [] then [] else IxBytes(ixs[0]) + IxsBytes(ixs[1..])
  }

  function LookupBytes(l: Lookup): seq<byte>
  {
    l.table + (l.wLen + (l.writable + (l.rLen + l.readonly)))
  }

  function LookupsBytes(ls: seq<Lookup>): seq<byte>
  {
    if ls == [] then [] else LookupBytes(ls[0]) + LookupsBytes(ls[1..])
  }

  function KeysBytes(keys: seq<seq<byte>>): seq<byte>
  {
    if keys == [] then [] else keys[0] + KeysBytes(keys[1..])
  }

  function TailBytes(t: Tail): seq<byte>
  {
    match t
    case Bare(trailing) => trailing
    case Section(len, lookups, trailing) => len + (LookupsBytes(lookups) + trailing)
  }

  function BodyBytes(w: Wire): seq<byte>
  {
    w.keyLen + (KeysBytes(w.keys) + (w.blockhash + (w.ixLen + (IxsBytes(w.ixs) + TailBytes(w.tail)))))
  }

  function MessageBytes(w: Wire): seq<byte>
  {
    (if w.versioned then [128] else []) + (w.header + BodyBytes(w))
  }

  function Bytes(w: Wire): seq<byte>
  {
    w.sigLen + (w.sigs + MessageBytes(w))
  }

  // ---------- the meaning ----------

  function EncodedKeys(keys: seq<seq<byte>>): seq<string>
  {
    seq(|keys|, i requires 0 <= i < |keys| => Base58.Encode(keys[i]))
  }

  /** An index at or past the static keys can only be resolved through a lookup table. */
  predicate Unresolved(ix: WireIx, nKeys: nat)
  {
    ix.prog >= nKeys || exists i :: 0 <= i < |ix.accounts| && ix.accounts[i] >= nKeys
  }

  function IxView(ix: WireIx, keys: seq<string>): ParsedInstruction
  {
    ParsedInstruction(if ix.prog < |keys| then keys[ix.prog] else "", ix.prog, ix.accounts, ix.data)
  }

  function IxsView(ixs: seq<WireIx>, keys: seq<string>): seq<ParsedInstruction>
  {
    seq(|ixs|, i requires 0 <= i < |ixs| => IxView(ixs[i], keys))
  }

  predicate AnyUnresolved(ixs: seq<WireIx>, nKeys: nat)
  {
    exists i :: 0 <= i < |ixs| && Unresolved(ixs[i], nKeys)
  }

  predicate DeclaresLookups(t: Tail)
  {
    t.Section? && t.lookups != []
  }

  function View(w: Wire): ParsedTx
    requires Valid(w)
  {
    var keys := EncodedKeys(w.keys);
    ParsedTx(keys, w.header[0], keys[0], Base58.Encode(w.blockhash), IxsView(w.ixs, keys), w.versioned,
             AnyUnresolved(w.ixs, |keys|) || DeclaresLookups(w.tail))
  }
}
