/** read_var_int of src/edith.cpp and src/main.cpp: the base-128 integers that
    frame the messages of a packet, read from a byte buffer at a byte offset that
    the reader advances. */
module VarInts {
  import opened Wrappers
  import opened Bits
  import opened BitReader

  /** A decoded integer and the offset after its last byte. */
  datatype Scanned = Scanned(value: U32, offset: nat)

  /** At most this many bytes make one integer; a sixth is corrupt data. */
  const MAX_VAR_INT_BYTES: nat := 5

  /** The do-while of read_var_int once `count` bytes have been placed in `acc`.
      `buffer` is the message followed by the zero byte a std::string keeps after
      its last character, and a byte at offset o is read only when o < `limit`.
      Each byte adds its low seven bits at weight 7 * count; the C++ ORs them into
      a uint32_t after a 32-bit shift, and since the shifted groups occupy disjoint
      bits that OR is their sum reduced modulo 2^32. (The byte is a sign-extended
      char, which changes neither its low seven bits nor its high bit.) */
  function VarIntFrom(buffer: Bytes, limit: nat, offset: nat, count: nat, acc: nat): (r: Result<Scanned>)
    requires count <= MAX_VAR_INT_BYTES && limit <= |buffer|
    ensures r.Ok? ==> offset < r.value.offset <= limit && r.value.offset <= offset + MAX_VAR_INT_BYTES - count
    decreases MAX_VAR_INT_BYTES - count
  {
    if count == MAX_VAR_INT_BYTES then Err(FormatViolation("Corrupt data."))
    else if offset >= limit then Err(FormatViolation("Premature end of stream."))
    else
      var b := buffer[offset];
      var acc' := acc + ShiftLeft(b % 128, 7 * count);
      if b >= 128 then VarIntFrom(buffer, limit, offset + 1, count + 1, acc')
      else Ok(Scanned(Wrap32(acc'), offset + 1))
  }

  /** read_var_int as written: the guard `*offset <= length` lets the loop read
      the byte at offset `length`, the terminating zero, so an integer cut off at
      the end of the message is accepted and the offset ends past the message. */
  function ReadVarIntAsWritten(data: Bytes, offset: nat): (r: Result<Scanned>)
    ensures r.Ok? ==> offset < r.value.offset <= |data| + 1
  {
    VarIntFrom(data + [0], |data| + 1, offset, 0, 0)
  }

  /** read_var_int with the guard `*offset < length`: every byte it reads lies in
      the message, at most five of them. */
  function ReadVarInt(data: Bytes, offset: nat): (r: Result<Scanned>)
    ensures r.Ok? ==> offset < r.value.offset <= |data| && r.value.offset <= offset + MAX_VAR_INT_BYTES
  {
    VarIntFrom(data + [0], |data|, offset, 0, 0)
  }

  /** A wider limit changes nothing for a read that succeeds under the narrower. */
  lemma {:induction false} WiderLimitAgrees(buffer: Bytes, narrow: nat, wide: nat, offset: nat, count: nat, acc: nat)
    requires count <= MAX_VAR_INT_BYTES && narrow <= wide <= |buffer|
    requires VarIntFrom(buffer, narrow, offset, count, acc).Ok?
    ensures VarIntFrom(buffer, wide, offset, count, acc) == VarIntFrom(buffer, narrow, offset, count, acc)
    decreases MAX_VAR_INT_BYTES - count
  {
    var b := buffer[offset];
    if b >= 128 {
      WiderLimitAgrees(buffer, narrow, wide, offset + 1, count + 1, acc + ShiftLeft(b % 128, 7 * count));
    }
  }

  /** Wherever the bounded read succeeds, the code as written returns the same
      value and offset: the two differ only on integers cut off by the end. */
  lemma {:induction false} AsWrittenAgreesInside(data: Bytes, offset: nat)
    requires ReadVarInt(data, offset).Ok?
    ensures ReadVarIntAsWritten(data, offset) == ReadVarInt(data, offset)
  {
    WiderLimitAgrees(data + [0], |data|, |data| + 1, offset, 0, 0);
  }

  /** The one-byte message 0x80 announces a second byte that is not there; as
      written the terminating zero is read as that byte, giving 0 at offset 2,
      past the message; the bounded read reports the premature end. */
  lemma {:induction false} TruncatedIntegerAccepted()
    ensures ReadVarIntAsWritten([0x80], 0) == Ok(Scanned(0, 2))
    ensures ReadVarInt([0x80], 0) == Err(FormatViolation("Premature end of stream."))
  {
    var buffer: Bytes := [0x80, 0];
    assert [0x80] + [0] == buffer;
    assert VarIntFrom(buffer, 2, 1, 1, 0) == Ok(Scanned(0, 2));
    assert ShiftLeft(0, 0) == 0;
  }

  /** From `count` on, the encoding of w adds w at weight 7 * count and ends at
      `end`. */
  lemma {:induction false} VarIntRoundTripFrom(buffer: Bytes, limit: nat, offset: nat, w: nat, count: nat,
                                               acc: nat, total: nat, end: nat)
    requires count < MAX_VAR_INT_BYTES && w < Pow2(7 * (MAX_VAR_INT_BYTES - count)) && limit <= |buffer|
    requires end == offset + |Leb128(w)| <= limit && buffer[offset..end] == Leb128(w)
    requires total == acc + ShiftLeft(w, 7 * count)
    ensures VarIntFrom(buffer, limit, offset, count, acc) == Ok(Scanned(Wrap32(total), end))
    decreases w
  {
    LaidByte(buffer, offset, end, w);
    var b := Leb128Byte(w);
    if w >= 128 {
      Leb128Step(w, count);
      ContinuationByte(w % 128);
      var acc' := acc + ShiftLeft(w % 128, 7 * count);
      VarIntStep(buffer, limit, offset, count, acc, b, acc');
      WeightStep(acc, w, 7 * count);
      assert 7 * (count + 1) == 7 * count + 7;
      VarIntRoundTripFrom(buffer, limit, offset + 1, w / 128, count + 1, acc', total, end);
    } else {
      VarIntStep(buffer, limit, offset, count, acc, b, total);
    }
  }

  /** One pass of the do-while over a byte inside the limit. */
  lemma {:induction false} VarIntStep(buffer: Bytes, limit: nat, offset: nat, count: nat, acc: nat, b: Byte, acc': nat)
    requires count < MAX_VAR_INT_BYTES && offset < limit <= |buffer| && buffer[offset] == b
    requires acc' == acc + ShiftLeft(b % 128, 7 * count)
    ensures b >= 128 ==> VarIntFrom(buffer, limit, offset, count, acc) == VarIntFrom(buffer, limit, offset + 1, count + 1, acc')
    ensures b < 128 ==> VarIntFrom(buffer, limit, offset, count, acc) == Ok(Scanned(Wrap32(acc'), offset + 1))
  {
  }

  /** The first byte of an encoding laid in a buffer, and the encoding after it. */
  lemma {:induction false} LaidByte(buffer: Bytes, offset: nat, end: nat, w: nat)
    requires offset <= end <= |buffer| && buffer[offset..end] == Leb128(w)
    ensures offset < end && buffer[offset] == Leb128Byte(w)
    ensures w >= 128 ==> buffer[offset + 1..end] == Leb128(w / 128)
  {
    assert buffer[offset] == Leb128(w)[0];
    if w >= 128 {
      assert buffer[offset + 1..end] == Leb128(w)[1..];
    }
  }

  /** The bounded read returns every 32-bit value written in base 128 inside the
      message, and stops right after its encoding. */
  lemma {:induction false} VarIntRoundTrip(data: Bytes, offset: nat, v: U32)
    requires offset + |Leb128(v)| <= |data| && data[offset..offset + |Leb128(v)|] == Leb128(v)
    ensures ReadVarInt(data, offset) == Ok(Scanned(v, offset + |Leb128(v)|))
  {
    Pow2Constants();
    Pow2Monotone(32, 35);
    assert 7 * (MAX_VAR_INT_BYTES - 0) == 35;
    var buffer := data + [0];
    assert buffer[offset..offset + |Leb128(v)|] == data[offset..offset + |Leb128(v)|];
    VarIntRoundTripFrom(buffer, |data|, offset, v, 0, 0, v, offset + |Leb128(v)|);
    assert 0 + ShiftLeft(v, 7 * 0) == v;
  }

  /** read_var_int's do-while, with the bounded guard. */
  method ScanVarInt(data: Bytes, offset: nat) returns (r: Result<Scanned>)
    ensures r == ReadVarInt(data, offset)
  {
    var buffer := data + [0];
    var count: nat := 0;
    var result: nat := 0;
    var at: nat := offset;
    while true
      invariant count <= MAX_VAR_INT_BYTES
      invariant ReadVarInt(data, offset) == VarIntFrom(buffer, |data|, at, count, result)
      decreases MAX_VAR_INT_BYTES - count
    {
      if count == MAX_VAR_INT_BYTES {
        return Err(FormatViolation("Corrupt data."));
      }
      if at >= |data| {
        return Err(FormatViolation("Premature end of stream."));
      }
      var b := buffer[at];
      var next := result + ShiftLeft(b % 128, 7 * count);
      VarIntStep(buffer, |data|, at, count, result, b, next);
      at := at + 1;
      result := next;
      count := count + 1;
      if b < 128 {
        return Ok(Scanned(Wrap32(result), at));
      }
    }
  }
}
