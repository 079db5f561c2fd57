/** The bit reader of src/bitstream.cpp. A `Reader` is the reader's observable state:
    the bits of its buffer and the bit cursor. The `Take*` functions say what each
    read returns and where it leaves the cursor; class `Bitstream` is the stateful
    reader, whose methods are proved to agree with them. */
module BitReader {
  import opened Wrappers
  import opened Bits

  datatype Cursor = Cursor(bits: seq<bool>, pos: nat) {
    /** Number of bits in the buffer (`end`). */
    function End(): nat {
      |bits|
    }
  }

  /** The cursor never passes the end of the buffer. */
  type Reader = r: Cursor | r.pos <= r.End() witness Cursor([], 0)

  /** A decoded value and the reader after it. */
  datatype Got<T> = Got(value: T, rest: Reader)

  /** A fresh reader over a byte buffer: cursor 0, end = 8 * byte length. */
  function Open(data: Bytes): (r: Reader)
    ensures r.pos == 0 && r.End() == 8 * |data|
  {
    Cursor(BytesToBits(data), 0)
  }

  predicate Eof(r: Reader) {
    r.pos >= r.End()
  }

  /** The method result `result` and the reader `after` are what `spec` describes. */
  ghost predicate Agrees<T>(result: Result<T>, after: Reader, spec: Result<Got<T>>) {
    match spec
    case Ok(g) => result == Ok(g.value) && after == g.rest
    case Err(e) => result == Err(e)
  }

  // ---------------------------------------------------------------- get_bits

  /** get_bits(n): fails unless n <= 32 and n bits remain; otherwise returns the
      number whose n low bits are the next n stream bits, and advances by n. */
  function TakeBits(r: Reader, n: nat): (g: Result<Got<U32>>)
    ensures g.Ok? <==> n <= 32 && r.pos + n <= r.End()
    ensures n > 32 ==> g.Err? && g.error.UnsupportedFeature?
    ensures n <= 32 && r.pos + n > r.End() ==> g == Err(StreamOverrun)
    ensures g.Ok? ==> g.value.rest == r.(pos := r.pos + n) && g.value.value < Pow2(n)
  {
    if n > 32 then Err(UnsupportedFeature("Only 32 or fewer bits are supported."))
    else if r.End() - r.pos < n then Err(StreamOverrun)
    else
      var v := ValueOf(r.bits[r.pos..r.pos + n]);
      ValueOfWord(r.bits[r.pos..r.pos + n]);
      Ok(Got(v as U32, r.(pos := r.pos + n)))
  }

  /** The n low bits of what get_bits returns are the next n stream bits. */
  lemma {:induction false} TakeBitsReadsStream(r: Reader, n: nat)
    requires TakeBits(r, n).Ok?
    ensures ToBits(TakeBits(r, n).value.value, n) == r.bits[r.pos..r.pos + n]
  {
    ToBitsValueOf(r.bits[r.pos..r.pos + n]);
  }

  /** get_bits returns exactly the value whose n bits sit at the cursor, whatever the
      alignment. */
  lemma {:induction false} TakeBitsRoundTrip(bits: seq<bool>, pos: nat, v: U32, n: nat)
    requires n <= 32 && v < Pow2(n) && Holds(bits, pos, ToBits(v, n))
    ensures TakeBits(Cursor(bits, pos), n) == Ok(Got(v, Cursor(bits, pos + n)))
  {
    ValueOfToBits(v, n);
  }

  /** Such a buffer exists for every value and every alignment. */
  lemma {:induction false} TakeBitsRoundTripPacked(pre: seq<bool>, v: U32, n: nat, post: seq<bool>)
    requires n <= 32 && v < Pow2(n)
    ensures var bits := BytesToBits(Pack(pre + ToBits(v, n) + post));
            TakeBits(Cursor(bits, |pre|), n) == Ok(Got(v, Cursor(bits, |pre| + n)))
  {
    PackHolds(pre, ToBits(v, n), post);
    TakeBitsRoundTrip(BytesToBits(Pack(pre + ToBits(v, n) + post)), |pre|, v, n);
  }

  /** The mask get_bits builds as `(1 << n) - 1` on an int, as x86 computes it: the
      processor takes a shift count mod 32, so for n == 32 the mask is 0 where
      0xFFFF_FFFF was meant. */
  function MaskAsWritten(n: nat): (m: U32)
    requires n <= 32
    ensures n < 32 ==> m == Pow2(n) - 1
    ensures n == 32 ==> m == 0
  {
    Pow2Monotone(n % 32, 32);
    Pow2Constants();
    Wrap32(Pow2(n % 32) - 1)
  }

  /** get_bits as written: the n bits at the cursor ANDed with that mask. A mask
      2^k - 1 keeps the low k bits, which is the remainder modulo 2^k, so a
      full-width read returns 0. */
  function TakeBitsAsWritten(r: Reader, n: nat): (g: Result<Got<U32>>)
    ensures n < 32 ==> g == TakeBits(r, n)
    ensures g.Ok? && n == 32 ==> g.value.value == 0
  {
    if n > 32 then Err(UnsupportedFeature("Only 32 or fewer bits are supported."))
    else if r.End() - r.pos < n then Err(StreamOverrun)
    else
      var word := ValueOf(r.bits[r.pos..r.pos + n]);
      ValueOfWord(r.bits[r.pos..r.pos + n]);
      var modulus := MaskAsWritten(n) + 1;
      var masked := word % modulus;
      assert masked == if n < 32 then word else 0 by {
        if n < 32 {
          assert modulus == Pow2(n) && word < modulus;
          RemainderOfSmaller(word, modulus);
        } else {
          assert modulus == 1;
        }
      }
      Ok(Got(masked as U32, r.(pos := r.pos + n)))
  }

  lemma {:induction false} RemainderOfSmaller(x: nat, m: nat)
    requires x < m
    ensures x % m == x
  {
  }

  /** A 32-bit read whose first bit is set returns a non-zero value, but 0 as written. */
  lemma {:induction false} FullWidthReadDropped(r: Reader)
    requires r.pos + 32 <= r.End() && r.bits[r.pos]
    ensures TakeBits(r, 32).value.value >= 1
    ensures TakeBitsAsWritten(r, 32) == Ok(Got(0, r.(pos := r.pos + 32)))
  {
    assert r.bits[r.pos..r.pos + 32][0] == r.bits[r.pos];
  }

  // ---------------------------------------------------------------- read_bits

  /** The bytes read_bits stores for `len` bits at `pos`: one byte per full 8 bits,
      then one partial byte holding the remaining len % 8 bits. */
  function ByteRun(bits: seq<bool>, pos: nat, len: nat): (out: Bytes)
    requires pos + len <= |bits|
    ensures len <= 8 * |out| < len + 8
    decreases len
  {
    if len >= 8 then
      ValueOfByte(bits[pos..pos + 8]);
      [ValueOf(bits[pos..pos + 8])] + ByteRun(bits, pos + 8, len - 8)
    else if len > 0 then
      ValueOfByte(bits[pos..pos + len]);
      [ValueOf(bits[pos..pos + len])]
    else []
  }

  /** read_bits(buffer, len): fails if fewer than len bits remain, otherwise consumes
      exactly len bits and yields one byte per started 8 bits (len / 8 full bytes
      plus a partial byte when len % 8 != 0). */
  function TakeBytes(r: Reader, len: nat): (g: Result<Got<Bytes>>)
    ensures g.Ok? <==> r.pos + len <= r.End()
    ensures g.Err? ==> g.error == StreamOverrun
    ensures g.Ok? ==> g.value.rest == r.(pos := r.pos + len)
    ensures g.Ok? ==> len <= 8 * |g.value.value| < len + 8
  {
    if r.pos + len > r.End() then Err(StreamOverrun)
    else Ok(Got(ByteRun(r.bits, r.pos, len), r.(pos := r.pos + len)))
  }

  /** One get_bits of read_bits: the next byte of the run is the value of the next
      min(len, 8) bits. */
  lemma {:induction false} ByteRunNext(bits: seq<bool>, pos: nat, len: nat, done: Bytes)
    requires pos + len <= |bits| && len > 0
    ensures var n := if len >= 8 then 8 else len;
            && ValueOf(bits[pos..pos + n]) < 0x100
            && done + ByteRun(bits, pos, len)
                 == (done + [ValueOf(bits[pos..pos + n])]) + ByteRun(bits, pos + n, len - n)
  {
    var n := if len >= 8 then 8 else len;
    ValueOfByte(bits[pos..pos + n]);
    assert ByteRun(bits, pos, len) == [ValueOf(bits[pos..pos + n])] + ByteRun(bits, pos + n, len - n);
  }

  /** `data` sits at `pos`, one byte per 8 bits. */
  predicate BytesLaid(bits: seq<bool>, pos: nat, data: Bytes)
    decreases |data|
  {
    |data| == 0 || (pos + 8 <= |bits| && ValueOf(bits[pos..pos + 8]) == data[0] && BytesLaid(bits, pos + 8, data[1..]))
  }

  lemma {:induction false} BytesLays(bits: seq<bool>, pos: nat, data: Bytes)
    requires Holds(bits, pos, BytesToBits(data))
    ensures BytesLaid(bits, pos, data)
    decreases |data|
  {
    if |data| > 0 {
      assert BytesToBits(data) == ToBits(data[0], 8) + BytesToBits(data[1..]);
      HoldsSplit(bits, pos, ToBits(data[0], 8), BytesToBits(data[1..]));
      ByteBound();
      ValueOfToBits(data[0], 8);
      BytesLays(bits, pos + 8, data[1..]);
    }
  }

  /** Byte k of a read_bits result holds stream bits pos + 8k .. pos + 8k + 7. */
  lemma {:induction false} ByteRunAt(bits: seq<bool>, pos: nat, len: nat, k: nat)
    requires pos + len <= |bits| && 8 * k + 8 <= len
    ensures ByteRun(bits, pos, len)[k] == ValueOf(bits[pos + 8 * k..pos + 8 * k + 8])
    decreases len
  {
    if k > 0 {
      ByteRunAt(bits, pos + 8, len - 8, k - 1);
    }
  }

  /** Whole bytes laid at `pos` are the bytes read_bits assembles from them. */
  lemma {:induction false} ByteRunLaid(bits: seq<bool>, pos: nat, data: Bytes, out: Bytes)
    requires BytesLaid(bits, pos, data) && pos + 8 * |data| <= |bits| && out == data
    ensures ByteRun(bits, pos, 8 * |data|) == out
    decreases |data|
  {
    if |data| > 0 {
      ByteRunLaid(bits, pos + 8, data[1..], data[1..]);
      assert ByteRun(bits, pos, 8 * |data|) == [ValueOf(bits[pos..pos + 8])] + ByteRun(bits, pos + 8, 8 * |data[1..]|);
      assert data == [data[0]] + data[1..];
    }
  }

  /** Whole bytes laid at `pos` are what read_bits returns for them, cursor and all. */
  lemma {:induction false} TakeBytesLaid(bits: seq<bool>, pos: nat, data: Bytes, len: nat, end: nat)
    requires BytesLaid(bits, pos, data) && len == 8 * |data| && end == pos + len <= |bits|
    ensures TakeBytes(Cursor(bits, pos), len) == Ok(Got(data, Cursor(bits, end)))
  {
    ByteRunLaid(bits, pos, data, data);
  }

  /** read_bits round-trips whole bytes at any alignment. */
  lemma {:induction false} ReadBytesRoundTrip(bits: seq<bool>, pos: nat, data: Bytes)
    requires Holds(bits, pos, BytesToBits(data))
    ensures TakeBytes(Cursor(bits, pos), 8 * |data|) == Ok(Got(data, Cursor(bits, pos + 8 * |data|)))
  {
    BytesLays(bits, pos, data);
    TakeBytesLaid(bits, pos, data, 8 * |data|, pos + 8 * |data|);
  }

  /** The bytes of a buffer from index i on are laid at bit 8i of its bit sequence. */
  lemma {:induction false} LaidInBuffer(data: Bytes, i: nat, m: nat, bits: seq<bool>)
    requires i + m <= |data| && bits == BytesToBits(data)
    ensures BytesLaid(bits, 8 * i, data[i..i + m])
    decreases m
  {
    if m > 0 {
      LaidInBuffer(data, i + 1, m - 1, bits);
      BytesToBitsAt(data, i);
      ByteBound();
      ValueOfToBits(data[i], 8);
      assert data[i..i + m][1..] == data[i + 1..i + m];
    }
  }

  /** So on a byte boundary read_bits copies the buffer's bytes. */
  lemma {:induction false} ReadBytesAligned(data: Bytes, i: nat, m: nat)
    requires i + m <= |data|
    ensures TakeBytes(Cursor(BytesToBits(data), 8 * i), 8 * m) == Ok(Got(data[i..i + m], Cursor(BytesToBits(data), 8 * i + 8 * m)))
  {
    var bits := BytesToBits(data);
    var out := data[i..i + m];
    assert |out| == m;
    LaidInBuffer(data, i, m, bits);
    TakeBytesLaid(bits, 8 * i, out, 8 * m, 8 * i + 8 * m);
  }

  // ---------------------------------------------------------------- read_string

  lemma {:induction false} ByteBound()
    ensures Pow2(8) == 256 && Pow2(7) == 128
  {
  }

  /** `g` with `prefix` put in front of the bytes it yields. */
  function Prefixed(prefix: Bytes, g: Result<Got<Bytes>>): Result<Got<Bytes>> {
    match g
    case Ok(got) => Ok(Got(prefix + got.value, got.rest))
    case Err(e) => Err(e)
  }

  /** What read_string leaves in its buffer when `budget` bytes may still be read:
      the bytes read up to and including a zero byte, or `budget` non-zero bytes
      followed by the terminating zero the reader writes itself. */
  function CStringFrom(r: Reader, budget: nat): (g: Result<Got<Bytes>>)
    ensures g.Ok? ==> 1 <= |g.value.value| <= budget + 1 && g.value.value[|g.value.value| - 1] == 0
    ensures g.Ok? ==> g.value.rest.bits == r.bits
    ensures g.Ok? && |g.value.value| <= budget ==> g.value.rest.pos == r.pos + 8 * |g.value.value|
    ensures g.Ok? && |g.value.value| > budget ==> g.value.rest.pos == r.pos + 8 * budget
    decreases budget
  {
    if budget == 0 then Ok(Got([0], r))
    else
      var b :- TakeBits(r, 8);
      ByteBound();
      if b.value == 0 then Ok(Got([0], b.rest))
      else
        var tail :- CStringFrom(b.rest, budget - 1);
        Ok(Got([b.value as Byte] + tail.value, tail.rest))
  }

  /** The only zero byte read_string stores is the last one. */
  lemma {:induction false} CStringStopsAtZero(r: Reader, budget: nat)
    requires CStringFrom(r, budget).Ok?
    ensures var s := CStringFrom(r, budget).value.value;
            forall i :: 0 <= i < |s| - 1 ==> s[i] != 0
    decreases budget
  {
    if budget > 0 {
      var b := TakeBits(r, 8).value;
      if b.value != 0 {
        CStringStopsAtZero(b.rest, budget - 1);
        var tail := CStringFrom(b.rest, budget - 1).value.value;
        assert CStringFrom(r, budget).value.value == [b.value as Byte] + tail;
      }
    }
  }

  /** read_string(buffer, size): reads bytes until a zero byte or until size - 1
      bytes; the buffer is always zero-terminated within `size` bytes, and 8 bits are
      consumed for every byte read. */
  function TakeCString(r: Reader, size: nat): (g: Result<Got<Bytes>>)
    requires size >= 1
    ensures g.Ok? ==> 1 <= |g.value.value| <= size && g.value.value[|g.value.value| - 1] == 0
    ensures g.Ok? && |g.value.value| < size ==> g.value.rest.pos == r.pos + 8 * |g.value.value|
    ensures g.Ok? && |g.value.value| == size ==> g.value.rest.pos == r.pos + 8 * (size - 1)
  {
    CStringFrom(r, size - 1)
  }

  lemma {:induction false} PrefixedNil(g: Result<Got<Bytes>>)
    ensures Prefixed([], g) == g
  {
    if g.Ok? {
      assert [] + g.value.value == g.value.value;
    }
  }

  /** One more byte of read_string, in terms of the bytes already in the buffer. */
  lemma {:induction false} CStringStep(r: Reader, budget: nat, prefix: Bytes, b: Byte)
    requires budget > 0 && TakeBits(r, 8).Ok? && TakeBits(r, 8).value.value == b
    ensures b == 0 ==> Prefixed(prefix, CStringFrom(r, budget)) == Ok(Got(prefix + [0], TakeBits(r, 8).value.rest))
    ensures b != 0 ==> Prefixed(prefix, CStringFrom(r, budget))
                        == Prefixed(prefix + [b], CStringFrom(TakeBits(r, 8).value.rest, budget - 1))
  {
    var tail := CStringFrom(TakeBits(r, 8).value.rest, budget - 1);
    if b != 0 && tail.Ok? {
      assert prefix + ([b] + tail.value.value) == prefix + [b] + tail.value.value;
    }
  }

  /** The string a zero-terminated buffer holds. */
  function CStr(buf: Bytes): (s: Bytes)
    requires |buf| >= 1
    ensures |s| == |buf| - 1
  {
    buf[..|buf| - 1]
  }

  /** A non-zero byte followed by the rest of a string. */
  lemma {:induction false} CStringCons(r: Reader, after: Reader, budget: nat, b: U32, tail: Bytes, whole: Bytes, end: Reader)
    requires budget > 0 && b != 0 && TakeBits(r, 8) == Ok(Got(b, after))
    requires CStringFrom(after, budget - 1) == Ok(Got(tail, end))
    requires b < 256 && whole == [b as Byte] + tail
    ensures CStringFrom(r, budget) == Ok(Got(whole, end))
  {
  }

  /** The terminating zero byte. */
  lemma {:induction false} CStringEnd(r: Reader, after: Reader, budget: nat, whole: Bytes)
    requires budget > 0 && TakeBits(r, 8) == Ok(Got(0, after)) && whole == [0]
    ensures CStringFrom(r, budget) == Ok(Got(whole, after))
  {
  }

  /** `enc`, a string with its terminator, read back from `pos` on. */
  lemma {:induction false} CStringLaidBack(bits: seq<bool>, pos: nat, enc: Bytes, budget: nat, end: nat)
    requires 1 <= |enc| <= budget && enc[|enc| - 1] == 0
    requires forall i :: 0 <= i < |enc| - 1 ==> enc[i] != 0
    requires BytesLaid(bits, pos, enc) && end == pos + 8 * |enc| <= |bits|
    ensures CStringFrom(Cursor(bits, pos), budget) == Ok(Got(enc, Cursor(bits, end)))
    decreases |enc|
  {
    assert TakeBits(Cursor(bits, pos), 8) == Ok(Got(enc[0] as U32, Cursor(bits, pos + 8)));
    if |enc| > 1 {
      CStringLaidBack(bits, pos + 8, enc[1..], budget - 1, end);
      assert enc == [enc[0]] + enc[1..];
      CStringCons(Cursor(bits, pos), Cursor(bits, pos + 8), budget, enc[0], enc[1..], enc, Cursor(bits, end));
    } else {
      CStringEnd(Cursor(bits, pos), Cursor(bits, pos + 8), budget, enc);
    }
  }

  /** A zero-terminated string whose terminator is read within the budget reads back
      exactly, at any alignment. */
  lemma {:induction false} CStringRoundTrip(bits: seq<bool>, pos: nat, s: Bytes, budget: nat)
    requires |s| < budget && Holds(bits, pos, BytesToBits(s + [0]))
    requires forall i :: 0 <= i < |s| ==> s[i] != 0
    ensures CStringFrom(Cursor(bits, pos), budget) == Ok(Got(s + [0], Cursor(bits, pos + 8 * (|s| + 1))))
  {
    BytesLays(bits, pos, s + [0]);
    CStringLaidBack(bits, pos, s + [0], budget, pos + 8 * (|s| + 1));
  }

  // ---------------------------------------------------------------- read_var_35

  /** The do-while of read_var_35 once `groups` 7-bit payloads have been placed in
      `acc` (the C++ `read` is 7 * groups). The C++ ORs each payload, shifted left in
      32 bits, into the result; the shifted payloads occupy disjoint bits, so that OR
      is their sum reduced modulo 2^32. */
  function Var35From(r: Reader, groups: nat, acc: nat): (g: Result<Got<U32>>)
    requires groups < 5
    ensures g.Ok? ==> g.value.rest.bits == r.bits && r.pos < g.value.rest.pos
    decreases 5 - groups
  {
    var b :- TakeBits(r, 8);
    var acc' := acc + ShiftLeft(b.value % 128, 7 * groups);
    if b.value >= 128 && groups + 1 < 5 then Var35From(b.rest, groups + 1, acc')
    else Ok(Got(Wrap32(acc'), b.rest))
  }

  /** read_var_35: 7-bit groups, low group first, a set high bit asking for another
      group, at most five groups: between one and five whole bytes. */
  function TakeVar35(r: Reader): (g: Result<Got<U32>>)
    ensures g.Ok? ==> g.value.rest.bits == r.bits
    ensures g.Ok? ==> r.pos + 8 <= g.value.rest.pos <= r.pos + 40
  {
    Var35Consumes(r, 0, 0);
    Var35From(r, 0, 0)
  }

  /** Each pass reads one byte; at most 5 - groups passes remain. */
  lemma {:induction false} Var35Consumes(r: Reader, groups: nat, acc: nat)
    requires groups < 5
    ensures var g := Var35From(r, groups, acc);
            g.Ok? ==> g.value.rest.bits == r.bits && r.pos + 8 <= g.value.rest.pos <= r.pos + 8 * (5 - groups)
    decreases 5 - groups
  {
    var t := TakeBits(r, 8);
    if t.Ok? {
      var b := t.value;
      var acc' := acc + ShiftLeft(b.value % 128, 7 * groups);
      if b.value >= 128 && groups + 1 < 5 {
        assert Var35From(r, groups, acc) == Var35From(b.rest, groups + 1, acc');
        Var35Consumes(b.rest, groups + 1, acc');
      }
    }
  }

  /** The passes read whole bytes: the cursor moves by a multiple of 8. */
  lemma {:induction false} Var35WholeBytes(r: Reader, groups: nat, acc: nat)
    requires groups < 5
    ensures var g := Var35From(r, groups, acc);
            g.Ok? ==> (g.value.rest.pos - r.pos) % 8 == 0
    decreases 5 - groups
  {
    var t := TakeBits(r, 8);
    if t.Ok? {
      var b := t.value;
      var acc' := acc + ShiftLeft(b.value % 128, 7 * groups);
      if b.value >= 128 && groups + 1 < 5 {
        assert Var35From(r, groups, acc) == Var35From(b.rest, groups + 1, acc');
        Var35WholeBytes(b.rest, groups + 1, acc');
        var g := Var35From(b.rest, groups + 1, acc');
        if g.Ok? {
          assert b.rest.pos == r.pos + 8;
          OneMoreByte(g.value.rest.pos - b.rest.pos);
        }
      }
    }
  }

  lemma OneMoreByte(d: int)
    requires d % 8 == 0
    ensures (d + 8) % 8 == 0
  {
  }

  /** One pass of the do-while that asks for another group. */
  lemma {:induction false} Var35Continue(r: Reader, after: Reader, groups: nat, acc: nat, got: U32, acc': nat)
    requires groups + 1 < 5 && got >= 128 && TakeBits(r, 8) == Ok(Got(got, after))
    requires acc' == acc + ShiftLeft(got % 128, 7 * groups)
    ensures Var35From(r, groups, acc) == Var35From(after, groups + 1, acc')
  {
  }

  /** The pass that ends the do-while: a clear high bit, or the fifth group. */
  lemma {:induction false} Var35Stop(r: Reader, after: Reader, groups: nat, acc: nat, got: U32, acc': nat)
    requires groups < 5 && (got < 128 || groups + 1 >= 5) && TakeBits(r, 8) == Ok(Got(got, after))
    requires acc' == acc + ShiftLeft(got % 128, 7 * groups)
    ensures Var35From(r, groups, acc) == Ok(Got(Wrap32(acc'), after))
  {
  }

  /** With 40 bits available read_var_35 cannot fail. */
  lemma {:induction false} Var35Total(r: Reader, groups: nat, acc: nat)
    requires groups < 5 && r.pos + 8 * (5 - groups) <= r.End()
    ensures Var35From(r, groups, acc).Ok?
    decreases 5 - groups
  {
    var b := TakeBits(r, 8).value;
    if b.value >= 128 && groups + 1 < 5 {
      Var35Total(b.rest, groups + 1, acc + ShiftLeft(b.value % 128, 7 * groups));
    }
  }

  /** `count` consecutive bytes from `pos` on have their high (continuation) bit set. */
  predicate ContinuationBits(bits: seq<bool>, pos: nat, count: nat)
    decreases count
  {
    count == 0 || (pos + 8 <= |bits| && bits[pos + 7] && ContinuationBits(bits, pos + 8, count - 1))
  }

  /** After four groups with the continuation bit set, the fifth group ends the read
      whatever its own high bit says: exactly 40 bits are consumed. */
  lemma {:induction false} Var35StopsAfterFive(r: Reader, groups: nat, acc: nat)
    requires groups < 5 && r.pos + 8 * (5 - groups) <= r.End()
    requires ContinuationBits(r.bits, r.pos, 4 - groups)
    ensures Var35From(r, groups, acc).Ok?
    ensures Var35From(r, groups, acc).value.rest.pos == r.pos + 8 * (5 - groups)
    decreases 5 - groups
  {
    var b := TakeBits(r, 8).value;
    if groups + 1 < 5 {
      HighBitSet(r.bits[r.pos..r.pos + 8]);
      Var35StopsAfterFive(b.rest, groups + 1, acc + ShiftLeft(b.value % 128, 7 * groups));
    }
  }

  lemma {:induction false} HighBitSet(bs: seq<bool>)
    requires |bs| == 8 && bs[7]
    ensures ValueOf(bs) >= 128
  {
    ValueOfAppend(bs[..7], bs[7..]);
    assert bs == bs[..7] + bs[7..];
    Pow2Constants();
    assert ValueOf(bs[7..]) >= 1;
  }

  /** The little-endian base-128 encoding the writer of these integers uses: 7 bits
      per byte, high bit set on every byte but the last. */
  function Leb128(v: nat): (out: Bytes)
    ensures 1 <= |out|
    decreases v
  {
    if v < 128 then [v] else [v % 128 + 128] + Leb128(v / 128)
  }

  /** The byte the encoding of w starts with. */
  function Leb128Byte(w: nat): Byte {
    if w < 128 then w else w % 128 + 128
  }

  /** The encoding of w sits at `pos`, one byte at a time. */
  predicate Leb128Laid(bits: seq<bool>, pos: nat, w: nat)
    decreases w
  {
    && pos + 8 <= |bits|
    && ValueOf(bits[pos..pos + 8]) == Leb128Byte(w)
    && (w >= 128 ==> Leb128Laid(bits, pos + 8, w / 128))
  }

  lemma {:induction false} Leb128Lays(bits: seq<bool>, pos: nat, w: nat)
    requires Holds(bits, pos, BytesToBits(Leb128(w)))
    ensures Leb128Laid(bits, pos, w)
    decreases w
  {
    var enc := Leb128(w);
    assert BytesToBits(enc) == ToBits(enc[0], 8) + BytesToBits(enc[1..]);
    HoldsSplit(bits, pos, ToBits(enc[0], 8), BytesToBits(enc[1..]));
    ByteBound();
    ValueOfToBits(enc[0], 8);
    if w >= 128 {
      assert enc[1..] == Leb128(w / 128);
      Leb128Lays(bits, pos + 8, w / 128);
    }
  }

  /** From `groups` on, reading the encoding of w adds w at weight 7 * groups to the
      accumulator and consumes the whole encoding (`total` and `end` name those). */
  lemma {:induction false} Var35RoundTripFrom(bits: seq<bool>, pos: nat, w: nat, groups: nat, acc: nat, total: nat, end: nat)
    requires groups < 5 && w < Pow2(7 * (5 - groups))
    requires Leb128Laid(bits, pos, w)
    requires total == acc + ShiftLeft(w, 7 * groups) && end == pos + 8 * |Leb128(w)| <= |bits|
    ensures Var35From(Cursor(bits, pos), groups, acc) == Ok(Got(Wrap32(total), Cursor(bits, end)))
    decreases w
  {
    assert TakeBits(Cursor(bits, pos), 8) == Ok(Got(Leb128Byte(w) as U32, Cursor(bits, pos + 8)));
    if w >= 128 {
      Leb128Step(w, groups);
      ContinuationByte(w % 128);
      var acc' := acc + ShiftLeft(w % 128, 7 * groups);
      Var35Continue(Cursor(bits, pos), Cursor(bits, pos + 8), groups, acc, Leb128Byte(w), acc');
      WeightStep(acc, w, 7 * groups);
      assert 7 * (groups + 1) == 7 * groups + 7;
      Var35RoundTripFrom(bits, pos + 8, w / 128, groups + 1, acc', total, end);
    } else {
      Var35Stop(Cursor(bits, pos), Cursor(bits, pos + 8), groups, acc, w, total);
    }
  }

  lemma {:induction false} ContinuationByte(low: nat)
    requires low < 128
    ensures (low + 128) % 128 == low
  {
  }

  /** A value that needs another group still has room for it. */
  lemma {:induction false} Leb128Step(w: nat, groups: nat)
    requires groups < 5 && 128 <= w < Pow2(7 * (5 - groups))
    ensures groups + 1 < 5 && w / 128 < Pow2(7 * (5 - (groups + 1)))
  {
    ByteBound();
    if groups + 1 >= 5 {
      assert false;
    }
    Pow2Add(7, 7 * (5 - (groups + 1)));
    assert 7 + 7 * (5 - (groups + 1)) == 7 * (5 - groups);
  }

  /** The low seven bits at weight k plus the rest at weight k + 7 make up w. */
  lemma {:induction false} WeightStep(acc: nat, w: nat, k: nat)
    ensures acc + ShiftLeft(w % 128, k) + ShiftLeft(w / 128, k + 7) == acc + ShiftLeft(w, k)
  {
    ShiftLeftCompose(w / 128, 7, k);
    ShiftLeftPow2(w / 128, 7);
    ByteBound();
    ShiftLeftAdd(w % 128, 128 * (w / 128), k);
  }

  /** read_var_35 round-trips every 32-bit value, at any alignment. */
  lemma {:induction false} Var35RoundTrip(bits: seq<bool>, pos: nat, v: U32)
    requires Holds(bits, pos, BytesToBits(Leb128(v)))
    ensures TakeVar35(Cursor(bits, pos)) == Ok(Got(v, Cursor(bits, pos + 8 * |Leb128(v)|)))
  {
    Pow2Constants();
    Pow2Monotone(32, 35);
    assert 7 * (5 - 0) == 35;
    Leb128Lays(bits, pos, v);
    Var35RoundTripFrom(bits, pos, v, 0, 0, v, pos + 8 * |Leb128(v)|);
    assert 0 + ShiftLeft(v, 7 * 0) == v;
  }

  /** In particular a buffer that starts with the encoding reads it back. */
  lemma {:induction false} Var35RoundTripAligned(v: U32, post: Bytes)
    ensures TakeVar35(Open(Leb128(v) + post)) == Ok(Got(v, Cursor(BytesToBits(Leb128(v) + post), 8 * |Leb128(v)|)))
  {
    BytesToBitsAppend(Leb128(v), post);
    Var35RoundTrip(BytesToBits(Leb128(v) + post), 0, v);
  }

  // ---------------------------------------------------------------- read_var_uint

  /** Width of the extension read after a 6-bit head whose bits 4-5 hold `tag`. */
  function ExtensionBits(tag: nat): nat {
    if tag == 1 then 4 else if tag == 2 then 8 else if tag == 3 then 28 else 0
  }

  /** An extension shifted past the head's low nibble still fits in 32 bits. */
  lemma {:induction false} ExtensionFits(tag: nat, e: nat)
    requires e < Pow2(ExtensionBits(tag))
    ensures e < 0x1000_0000
  {
    Pow2Monotone(ExtensionBits(tag), 28);
    Pow2Constants();
  }

  /** The 6-bit head plus 4-, 8- or 28-bit extension shared by read_var_uint and the
      entity-header id delta: bits 4-5 of the head select the extension, which
      becomes bits 4 and up of the result; the head's low nibble stays bits 0-3. */
  function TakeHeadExtension(r: Reader): (g: Result<Got<U32>>)
    ensures g.Ok? ==> g.value.rest.bits == r.bits && TakeBits(r, 6).Ok?
    ensures g.Ok? ==> var head := TakeBits(r, 6).value.value;
                      && g.value.rest.pos == r.pos + 6 + ExtensionBits(head / 16)
                      && g.value.value % 16 == head % 16
  {
    var head :- TakeBits(r, 6);
    var tag := head.value / 16;
    if tag == 0 then Ok(head)
    else
      var ext :- TakeBits(head.rest, ExtensionBits(tag));
      ExtensionFits(tag, ext.value);
      Ok(Got(head.value % 16 + 16 * ext.value, ext.rest))
  }

  /** read_var_uint: fails at end of stream, otherwise reads the head-plus-extension
      integer. */
  function TakeVarUint(r: Reader): (g: Result<Got<U32>>)
    ensures Eof(r) ==> g.Err?
    ensures g.Ok? ==> g.value.rest.bits == r.bits
  {
    if Eof(r) then Err(FormatViolation("End stream."))
    else TakeHeadExtension(r)
  }

  /** A head nibble below an extension: the nibble and the extension come back out,
      and the sum fits in 4 more bits than the extension. */
  lemma {:induction false} NibbleAndExtension(low: nat, e: nat, w: nat, v: nat)
    requires low < 16 && e < Pow2(w) && v == low + 16 * e
    ensures v % 16 == low && v / 16 == e && v < Pow2(4 + w)
  {
    Pow2Add(4, w);
    assert Pow2(4) == 16;
  }

  /** What read_var_uint consumes and returns: bits 4-5 of the 6-bit head select an
      extension of 0, 4, 8 or 28 bits; the result keeps the head's low nibble, holds
      the extension above it, and fits in 4 plus the extension's width bits. */
  lemma {:induction false} VarUintShape(r: Reader)
    requires TakeVarUint(r).Ok?
    ensures r.pos + 6 <= r.End()
    ensures var head := ValueOf(r.bits[r.pos..r.pos + 6]);
            var tag := head / 16;
            var g := TakeVarUint(r).value;
            && g.rest.pos == r.pos + 6 + ExtensionBits(tag)
            && g.value % 16 == head % 16
            && g.value < Pow2(4 + ExtensionBits(tag))
            && g.value / 16 == ValueOf(r.bits[r.pos + 6..g.rest.pos])
  {
    var h := TakeBits(r, 6).value;
    HeadExtensionShape(r, h.value, h.rest, TakeVarUint(r).value);
  }

  /** VarUintShape for a head already read, with the result named. */
  lemma {:induction false} HeadExtensionShape(r: Reader, head: U32, mid: Reader, g: Got<U32>)
    requires TakeBits(r, 6) == Ok(Got(head, mid)) && TakeHeadExtension(r) == Ok(g)
    ensures g.rest.pos == r.pos + 6 + ExtensionBits(head / 16)
    ensures g.value % 16 == head % 16 && g.value < Pow2(4 + ExtensionBits(head / 16))
    ensures g.value / 16 == ValueOf(r.bits[r.pos + 6..g.rest.pos])
  {
    if head / 16 == 0 {
      assert g == Got(head, mid);
      NibbleAndExtension(head % 16, 0, 0, g.value);
    } else {
      var e := TakeBits(mid, ExtensionBits(head / 16)).value;
      NibbleAndExtension(head % 16, e.value, ExtensionBits(head / 16), g.value);
    }
  }

  /** The width class read_var_uint needs for v: 0 for values below 16, then 1, 2, 3
      for values that need 4, 8 or 28 more bits. */
  function VarUintTag(v: U32): nat {
    if v < 16 then 0 else if v < 0x100 then 1 else if v < 0x1000 then 2 else 3
  }

  /** The smallest width class that holds v, as the 6-bit head and extension bits. */
  function VarUintBits(v: U32): seq<bool> {
    var tag := VarUintTag(v);
    ToBits(v % 16 + 16 * tag, 6) + ToBits(v / 16, ExtensionBits(tag))
  }

  /** The head and the extension of v's width class fit their fields. */
  lemma {:induction false} VarUintFits(v: U32)
    ensures v % 16 + 16 * VarUintTag(v) < Pow2(6)
    ensures v / 16 < Pow2(ExtensionBits(VarUintTag(v)))
  {
    Pow2Constants();
  }

  /** read_var_uint round-trips every 32-bit value, at any alignment, in each of the
      four width classes (6, 10, 14 and 34 bits). */
  lemma {:induction false} VarUintRoundTrip(bits: seq<bool>, pos: nat, v: U32)
    requires Holds(bits, pos, VarUintBits(v))
    ensures TakeVarUint(Cursor(bits, pos)) == Ok(Got(v, Cursor(bits, pos + |VarUintBits(v)|)))
  {
    var tag := VarUintTag(v);
    var w := ExtensionBits(tag);
    var head := v % 16 + 16 * tag;
    var ext := v / 16;
    VarUintFits(v);
    HoldsSplit(bits, pos, ToBits(head, 6), ToBits(ext, w));
    TakeBitsRoundTrip(bits, pos, head, 6);
    TakeBitsRoundTrip(bits, pos + 6, ext, w);
    assert head / 16 == tag && head % 16 == v % 16;
    HeadThenExtension(Cursor(bits, pos), head, Cursor(bits, pos + 6), ext, Cursor(bits, pos + 6 + w), v);
  }

  /** TakeHeadExtension from its two get_bits reads. */
  lemma {:induction false} HeadThenExtension(r: Reader, head: U32, mid: Reader, ext: U32, end: Reader, v: U32)
    requires TakeBits(r, 6) == Ok(Got(head, mid))
    requires TakeBits(mid, ExtensionBits(head / 16)) == Ok(Got(ext, end))
    requires v == head % 16 + 16 * ext && (head / 16 == 0 ==> ext == 0)
    ensures TakeVarUint(r) == Ok(Got(v, end))
  {
    if head / 16 == 0 {
      assert end == mid;
    }
  }

  /** Every value's encoding can be laid out at every alignment. */
  lemma {:induction false} VarUintRoundTripPacked(pre: seq<bool>, v: U32, post: seq<bool>)
    ensures var bits := BytesToBits(Pack(pre + VarUintBits(v) + post));
            TakeVarUint(Cursor(bits, |pre|)) == Ok(Got(v, Cursor(bits, |pre| + |VarUintBits(v)|)))
  {
    PackHolds(pre, VarUintBits(v), post);
    VarUintRoundTrip(BytesToBits(Pack(pre + VarUintBits(v) + post)), |pre|, v);
  }

  // ---------------------------------------------------------------- the reader

  /** The Bitstream class: a byte buffer, its length in bits and the bit cursor. */
  class Bitstream {
    /** The buffer, and its bits in reading order (fixed at construction). */
    const data: Bytes
    const bits: seq<bool>
    const end: nat
    var position: nat

    ghost predicate Valid()
      reads this
    {
      end == |bits| && position <= end
    }

    ghost function View(): Reader
      reads this
      requires Valid()
    {
      Cursor(bits, position)
    }

    /** Bitstream(bytes): cursor 0, end = 8 * byte length. */
    constructor (bytes: Bytes)
      ensures Valid() && View() == Open(bytes) && data == bytes && bits == BytesToBits(bytes)
    {
      data := bytes;
      bits := BytesToBits(bytes);
      end := 8 * |bytes|;
      position := 0;
    }

    /** eof(): the cursor has reached the end. */
    function IsEof(): (b: bool)
      reads this
      requires Valid()
      ensures b <==> Eof(View())
    {
      position >= end
    }

    method GetBits(n: nat) returns (r: Result<U32>)
      requires Valid()
      modifies this
      ensures Valid() && Agrees(r, View(), TakeBits(old(View()), n))
    {
      if n > 32 {
        return Err(UnsupportedFeature("Only 32 or fewer bits are supported."));
      }
      if end - position < n {
        return Err(StreamOverrun);
      }
      ValueOfWord(bits[position..position + n]);
      r := Ok(ValueOf(bits[position..position + n]) as U32);
      position := position + n;
    }

    /** One get_bits of read_bits: the next min(remaining, 8) bits as one byte. */
    method ReadPiece(n: nat, ghost remaining: nat, ghost done: Bytes) returns (b: Byte)
      requires Valid() && 0 < n <= 8 && n == (if remaining >= 8 then 8 else remaining)
      requires position + remaining <= end
      modifies this
      ensures Valid() && position == old(position) + n
      ensures done + ByteRun(bits, old(position), remaining) == (done + [b]) + ByteRun(bits, position, remaining - n)
    {
      ghost var before := position;
      ByteRunNext(bits, before, remaining, done);
      var got := GetBits(n);
      if got.Err? {
        assert false;
      }
      ValueOfByte(bits[before..before + n]);
      b := got.value as Byte;
    }

    method ReadBits(bitLength: nat) returns (r: Result<Bytes>)
      requires Valid()
      modifies this
      ensures Valid() && Agrees(r, View(), TakeBytes(old(View()), bitLength))
    {
      if position + bitLength > end {
        return Err(StreamOverrun);
      }
      ghost var start := position;
      var remaining := bitLength;
      var buffer: Bytes := [];
      while remaining >= 8
        invariant Valid() && position + remaining == start + bitLength
        invariant buffer + ByteRun(bits, position, remaining) == ByteRun(bits, start, bitLength)
      {
        var b := ReadPiece(8, remaining, buffer);
        buffer := buffer + [b];
        remaining := remaining - 8;
      }
      if remaining > 0 {
        var b := ReadPiece(remaining, remaining, buffer);
        buffer := buffer + [b];
        remaining := 0;
      }
      assert ByteRun(bits, position, remaining) == [];
      assert buffer + [] == buffer;
      r := Ok(buffer);
    }

    /** One byte of read_string's loop, read into the buffer after `buffer`. */
    method ReadStringByte(ghost budget: nat, ghost buffer: Bytes, ghost total: Result<Got<Bytes>>) returns (r: Result<Byte>)
      requires Valid() && budget > 0
      requires total == Prefixed(buffer, CStringFrom(View(), budget))
      modifies this
      ensures Valid()
      ensures r.Err? ==> total == Err(r.error)
      ensures r.Ok? && r.value == 0 ==> total == Ok(Got(buffer + [0], View()))
      ensures r.Ok? && r.value != 0 ==> total == Prefixed(buffer + [r.value], CStringFrom(View(), budget - 1))
    {
      ghost var before := View();
      var b :- GetBits(8);
      ByteBound();
      CStringStep(before, budget, buffer, b as Byte);
      r := Ok(b as Byte);
    }

    method ReadString(size: nat) returns (r: Result<Bytes>)
      requires Valid() && size >= 1
      modifies this
      ensures Valid() && Agrees(r, View(), TakeCString(old(View()), size))
    {
      var buffer: Bytes := [];
      var budget: nat := size - 1;
      ghost var total := CStringFrom(View(), budget);
      assert total == TakeCString(old(View()), size);
      PrefixedNil(total);
      while budget > 0
        invariant Valid() && |buffer| + budget == size - 1
        invariant total == Prefixed(buffer, CStringFrom(View(), budget))
      {
        var got := ReadStringByte(budget, buffer, total);
        if got.Err? {
          return Err(got.error);
        }
        buffer := buffer + [got.value];
        if got.value == 0 {
          assert total == Ok(Got(buffer, View()));
          return Ok(buffer);
        }
        budget := budget - 1;
      }
      assert total == Ok(Got(buffer + [0], View()));
      r := Ok(buffer + [0]);
    }

    /** One pass of read_var_35's do-while: the next group ORed in at `read`. */
    method ReadGroup(ghost groups: nat, value: nat, read: nat, ghost total: Result<Got<U32>>)
      returns (r: Result<U32>, value': nat)
      requires Valid() && groups < 5 && read == 7 * groups
      requires total == Var35From(View(), groups, value)
      modifies this
      ensures Valid()
      ensures r.Err? ==> total == Err(r.error)
      ensures r.Ok? && r.value >= 128 && groups + 1 < 5 ==> total == Var35From(View(), groups + 1, value')
      ensures r.Ok? && (r.value < 128 || groups + 1 >= 5) ==> total == Ok(Got(Wrap32(value'), View()))
    {
      ghost var before := View();
      value' := value;
      var got :- GetBits(8);
      value' := value + ShiftLeft(got % 128, read);
      if got >= 128 && groups + 1 < 5 {
        Var35Continue(before, View(), groups, value, got, value');
      } else {
        Var35Stop(before, View(), groups, value, got, value');
      }
      r := Ok(got);
    }

    method ReadVar35() returns (r: Result<U32>)
      requires Valid()
      modifies this
      ensures Valid() && Agrees(r, View(), TakeVar35(old(View())))
    {
      var read := 0;
      var value: nat := 0;
      ghost var groups := 0;
      ghost var total := TakeVar35(View());
      while true
        invariant Valid() && groups < 5 && read == 7 * groups
        invariant total == Var35From(View(), groups, value)
        decreases 5 - groups
      {
        var got;
        got, value := ReadGroup(groups, value, read, total);
        if got.Err? {
          return Err(got.error);
        }
        read := read + 7;
        if got.value < 128 || read >= 35 {
          return Ok(Wrap32(value));
        }
        groups := groups + 1;
      }
    }

    method ReadVarUint() returns (r: Result<U32>)
      requires Valid()
      modifies this
      ensures Valid() && Agrees(r, View(), TakeVarUint(old(View())))
    {
      if position >= end {
        return Err(FormatViolation("End stream."));
      }
      r := ReadHeadExtension();
    }

    /** The 6-bit head and its extension, as read_var_uint and
        read_entity_header read them. */
    method ReadHeadExtension() returns (r: Result<U32>)
      requires Valid()
      modifies this
      ensures Valid() && Agrees(r, View(), TakeHeadExtension(old(View())))
    {
      var ret :- GetBits(6);
      var tag := ret / 16;
      if tag != 0 {
        var ext :- GetBits(ExtensionBits(tag));
        ExtensionFits(tag, ext);
        ret := ret % 16 + 16 * ext;
      }
      r := Ok(ret);
    }
  }
}
