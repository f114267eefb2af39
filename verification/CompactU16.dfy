/** Solana's compact-u16 ("shortvec") length prefix. The reader takes at most three bytes,
    so it accepts 21-bit values. */
module CompactU16 {
  import opened Common
  import opened NumberTheory

  datatype ReadError = Truncated | Overflow

  const LIMIT: nat := 0x20_0000

  // ---------- specification ----------

  /** Read a prefix of at most k bytes off the front of rest; the second component is what follows. */
  function ReadAtMost(rest: seq<byte>, k: nat): (r: Result<(nat, seq<byte>), ReadError>)
    ensures r.Ok? ==> |r.value.1| < |rest|
    decreases k
  {
    if k == 0 then Err(Overflow)
    else if rest == [] then Err(Truncated)
    else if rest[0] < 128 then Ok((rest[0], rest[1..]))
    else
      var (v, after) :- ReadAtMost(rest[1..], k - 1);
      Ok((rest[0] - 128 + 128 * v, after))
  }

  function Read(rest: seq<byte>): Result<(nat, seq<byte>), ReadError>
  {
    ReadAtMost(rest, 3)
  }

  function Write(v: nat): seq<byte>
  {
    if v < 128 then [v] else [128 + v % 128] + Write(v / 128)
  }

  /** The byte strings that encode a length: up to three bytes, of which only the last is below 128. */
  predicate ValidLen(enc: seq<byte>)
  {
    1 <= |enc| <= 3 && enc[|enc| - 1] < 128 && forall i :: 0 <= i < |enc| - 1 ==> enc[i] >= 128
  }

  function LenValue(enc: seq<byte>): nat
  {
    if enc == [] then 0 else enc[0] % 128 + 128 * LenValue(enc[1..])
  }

  // ---------- the reader accepts exactly the valid encodings ----------

  lemma {:induction false} ReadAtMostComplete(enc: seq<byte>, after: seq<byte>, k: nat)
    requires 1 <= |enc| <= k && enc[|enc| - 1] < 128 && forall i :: 0 <= i < |enc| - 1 ==> enc[i] >= 128
    ensures ReadAtMost(enc + after, k) == Ok((LenValue(enc), after))
  {
    assert (enc + after)[1..] == enc[1..] + after;
    if |enc| == 1 {
      assert enc[1..] == [];
      assert LenValue(enc) == enc[0] % 128;
      assert (enc + after)[1..] == after;
    } else {
      ReadAtMostComplete(enc[1..], after, k - 1);
    }
  }

  lemma {:induction false} ReadComplete(enc: seq<byte>, after: seq<byte>)
    requires ValidLen(enc)
    ensures Read(enc + after) == Ok((LenValue(enc), after))
  {
    ReadAtMostComplete(enc, after, 3);
  }

  lemma {:induction false} ReadAtMostSound(rest: seq<byte>, k: nat) returns (enc: seq<byte>)
    requires ReadAtMost(rest, k).Ok?
    ensures 1 <= |enc| <= k && enc[|enc| - 1] < 128 && forall i :: 0 <= i < |enc| - 1 ==> enc[i] >= 128
    ensures rest == enc + ReadAtMost(rest, k).value.1 && ReadAtMost(rest, k).value.0 == LenValue(enc)
  {
    if rest[0] < 128 {
      enc := [rest[0]];
      assert enc[1..] == [];
      assert LenValue(enc) == enc[0] % 128;
    } else {
      var tail := ReadAtMostSound(rest[1..], k - 1);
      enc := [rest[0]] + tail;
      assert enc[1..] == tail;
    }
  }

  lemma ReadSound(rest: seq<byte>) returns (enc: seq<byte>)
    requires Read(rest).Ok?
    ensures ValidLen(enc) && rest == enc + Read(rest).value.1 && Read(rest).value.0 == LenValue(enc)
  {
    enc := ReadAtMostSound(rest, 3);
  }

  // ---------- reading what was written ----------

  lemma WriteStep(v: nat)
    ensures Write(v) == if v < 128 then [v as byte] else [(128 + v % 128) as byte] + Write(v / 128)
  {
  }

  lemma LenStep(b: byte, tail: seq<byte>)
    ensures LenValue([b] + tail) == b as int % 128 + 128 * LenValue(tail)
  {
    assert ([b] + tail)[1..] == tail;
  }

  lemma LenOne(b: byte)
    ensures LenValue([b]) == b as int % 128
  {
    assert [b][1..] == [];
    assert LenValue([]) == 0;
  }

  lemma GroupOf(d: nat, t: nat)
    requires d < 128
    ensures (d + 128 * t) % 128 == d && (d + 128 * t) / 128 == t && (128 + d) % 128 == d
  {
  }

  lemma {:induction false} WriteShape(v: nat)
    ensures |Write(v)| >= 1 && Write(v)[|Write(v)| - 1] < 128
    ensures forall i :: 0 <= i < |Write(v)| - 1 ==> Write(v)[i] >= 128
    ensures LenValue(Write(v)) == v
  {
    hide Write, LenValue;
    WriteStep(v);
    if v < 128 {
      LenOne(v as byte);
    } else {
      WriteShape(v / 128);
      LenStep((128 + v % 128) as byte, Write(v / 128));
      GroupOf(v % 128, v / 128);
    }
  }

  /** Byte i of a length carries its i-th group of seven bits, the lowest first. */
  lemma {:induction false} LenDigit(enc: seq<byte>, i: nat)
    requires i < |enc|
    ensures Pow(128, i) > 0 && LenValue(enc) / Pow(128, i) % 128 == enc[i] as int % 128
  {
    var b, tail := enc[0], enc[1..];
    var d: nat, t := b as int % 128, LenValue(tail);
    assert enc == [b] + tail;
    LenStep(b, tail);
    PowPositive(128, i);
    if i == 0 {
      LowDigit(d, 128, t);
    } else {
      PowPositive(128, i - 1);
      LenDigit(tail, i - 1);
      ShiftDiv(d, 128, t, Pow(128, i - 1));
    }
  }

  /** What is written, byte by byte: the groups of seven bits, lowest first, all but the last marked. */
  lemma WriteBytes(v: nat, i: nat)
    requires i < |Write(v)|
    ensures Pow(128, i) > 0
    ensures Write(v)[i] as int == v / Pow(128, i) % 128 + (if i < |Write(v)| - 1 then 128 else 0)
  {
    hide Write, LenValue, Pow;
    WriteShape(v);
    LenDigit(Write(v), i);
    Marked(Write(v)[i] as int);
  }

  lemma Marked(x: nat)
    requires x < 256
    ensures x == x % 128 + (if x >= 128 then 128 else 0)
  {
  }

  /** A written length is readable exactly below 2^21. */
  lemma WriteValid(v: nat)
    ensures ValidLen(Write(v)) <==> v < LIMIT
  {
    hide Write, LenValue;
    var q := v / 128;
    var r := q / 128;
    WriteShape(v);
    WriteShape(r / 128);
    WriteStep(v);
    WriteStep(q);
    WriteStep(r);
    assert r < 128 <==> v < LIMIT;
  }

  /** read(write(v)) = v exactly for v < 2^21; at or above it the reader reports an overflow. */
  lemma {:induction false} ReadWrite(v: nat, after: seq<byte>)
    ensures Read(Write(v) + after) == if v < LIMIT then Ok((v, after)) else Err(Overflow)
  {
    WriteShape(v);
    WriteValid(v);
    if v < LIMIT {
      ReadComplete(Write(v), after);
    } else {
      OverlongRead(Write(v), after, 3);
    }
  }

  lemma {:induction false} OverlongRead(enc: seq<byte>, after: seq<byte>, k: nat)
    requires |enc| > k && forall i :: 0 <= i < k ==> enc[i] >= 128
    ensures ReadAtMost(enc + after, k) == Err(Overflow)
  {
    if k > 0 {
      assert (enc + after)[1..] == enc[1..] + after;
      OverlongRead(enc[1..], after, k - 1);
    }
  }

  /** Not every accepted prefix is the one the writer emits: a redundant final zero byte is read too. */
  lemma {:induction false} CanonicalExactly(enc: seq<byte>)
    requires |enc| >= 1 && enc[|enc| - 1] < 128 && forall i :: 0 <= i < |enc| - 1 ==> enc[i] >= 128
    ensures Write(LenValue(enc)) == enc <==> |enc| == 1 || enc[|enc| - 1] != 0
    ensures LenValue(enc) == 0 <==> forall i :: 0 <= i < |enc| ==> enc[i] % 128 == 0
  {
    hide Write, LenValue;
    var v, tail := LenValue(enc), enc[1..];
    assert enc == [enc[0]] + tail;
    ZeroExactly(enc);
    WriteStep(v);
    if |enc| == 1 {
      LenOne(enc[0]);
      assert enc == [enc[0]];
    } else {
      var t := LenValue(tail);
      LenStep(enc[0], tail);
      GroupOf(enc[0] as int - 128, t);
      assert v % 128 == enc[0] as int - 128 && v / 128 == t;
      CanonicalExactly(tail);
      assert enc[|enc| - 1] == tail[|tail| - 1];
      if t == 0 {
        assert tail[|tail| - 1] % 128 == 0;
      } else if |tail| == 1 {
        LenOne(tail[0]);
        assert tail == [tail[0]];
      }
    }
  }

  lemma {:induction false} ZeroExactly(enc: seq<byte>)
    ensures LenValue(enc) == 0 <==> forall i :: 0 <= i < |enc| ==> enc[i] % 128 == 0
  {
    if enc != [] {
      var tail := enc[1..];
      ZeroExactly(tail);
      assert forall i :: 0 <= i < |tail| ==> tail[i] == enc[i + 1];
      assert forall i :: 1 <= i < |enc| ==> enc[i] == tail[i - 1];
    }
  }

  // ---------- the loops ----------

  /** `read_compact_u16`: the value and the offset after it. */
  method ReadCompactU16(buf: seq<byte>, offset: nat) returns (r: Result<(nat, nat), ReadError>)
    ensures offset > |buf| ==> r == Err(Truncated)
    ensures offset <= |buf| ==>
              match Read(buf[offset..])
              case Ok((v, after)) => r == Ok((v, |buf| - |after|)) && after == buf[|buf| - |after|..]
              case Err(e) => r == Err(e)
  {
    var value: nat, scale: nat, pos: nat := 0, 1, offset;
    var i := 0;
    while i < 3
      invariant 0 <= i <= 3 && pos == offset + i && scale >= 1
      invariant i > 0 ==> pos <= |buf|
      invariant offset <= |buf| ==> Read(buf[offset..]) == Shifted(value, scale, ReadAtMost(buf[pos..], 3 - i))
    {
      if pos >= |buf| {
        return Err(Truncated);
      }
      var b: nat := buf[pos];
      assert buf[pos..][1..] == buf[pos + 1..];
      pos := pos + 1;
      if b < 128 {
        value := value + b * scale;
        return Ok((value, pos));
      }
      ShiftedStep(value, scale, b - 128, ReadAtMost(buf[pos..], 2 - i));
      value := value + (b - 128) * scale;
      scale := scale * 128;
      i := i + 1;
    }
    return Err(Overflow);
  }

  /** What the outer read returns once `value` has been gathered and `scale` is the next place. */
  function Shifted(value: nat, scale: nat, r: Result<(nat, seq<byte>), ReadError>): Result<(nat, seq<byte>), ReadError>
  {
    var (v, after) :- r;
    Ok((value + v * scale, after))
  }

  lemma ShiftedStep(value: nat, scale: nat, d: nat, r: Result<(nat, seq<byte>), ReadError>)
    ensures Shifted(value + d * scale, scale * 128, r) ==
            if r.Ok? then Shifted(value, scale, Ok((d + 128 * r.value.0, r.value.1))) else Err(r.error)
  {
    if r.Ok? {
      var v := r.value.0;
      assert v * (scale * 128) == 128 * v * scale;
      assert (d + 128 * v) * scale == d * scale + 128 * v * scale;
    }
  }

  /** `write_compact_u16`. */
  method WriteCompactU16(value: int) returns (r: Result<seq<byte>, string>)
    ensures r == if value < 0 then Err("compact-u16 cannot encode a negative value") else Ok(Write(value))
  {
    if value < 0 {
      return Err("compact-u16 cannot encode a negative value");
    }
    var out: seq<byte> := [];
    var v: nat := value;
    while true
      invariant Write(value) == out + Write(v)
      decreases v
    {
      var b := v % 128;
      if v / 128 != 0 {
        assert Write(v) == [128 + b] + Write(v / 128);
        out := out + [128 + b];
        v := v / 128;
      } else {
        out := out + [b];
        return Ok(out);
      }
    }
  }
}
