/** Bit arithmetic shared by the reader and the property decoders: bytes, 32/64-bit
    words, powers of two, and the bit sequence of a byte buffer. The reader sees its
    buffer as that sequence: bit k is bit k % 8 of byte k / 8, which is the layout
    its little-endian 32-bit loads produce. A run of bits is read least significant
    bit first. */
module Bits {

  type Byte = b: int | 0 <= b < 0x100
  type U32 = x: int | 0 <= x < 0x1_0000_0000
  type U64 = x: int | 0 <= x < 0x1_0000_0000_0000_0000
  type I32 = x: int | -0x8000_0000 <= x < 0x8000_0000
  type Bytes = seq<Byte>

  const TWO_32: nat := 0x1_0000_0000
  const TWO_64: nat := 0x1_0000_0000_0000_0000

  /** Unsigned 32-bit wrap-around of an arbitrary integer. */
  function Wrap32(x: int): (w: U32)
    ensures 0 <= x < TWO_32 ==> w == x
  {
    x % TWO_32
  }

  /** The wrapped value differs from the true one by a multiple of 2^32. */
  lemma {:induction false} Wrap32Congruent(x: int)
    ensures (Wrap32(x) - x) % TWO_32 == 0
    ensures exists k :: Wrap32(x) == x + k * TWO_32
  {
    assert Wrap32(x) == x + (-(x / TWO_32)) * TWO_32;
  }

  /** Unsigned 64-bit wrap-around of an arbitrary integer. */
  function Wrap64(x: int): (w: U64)
    ensures 0 <= x < TWO_64 ==> w == x
  {
    x % TWO_64
  }

  /** The value a uint32 denotes when reinterpreted as a two's-complement int32. */
  function Signed32(u: U32): (s: I32)
    ensures Wrap32(s) == u
  {
    if u < 0x8000_0000 then u else u - TWO_32
  }

  function Pow2(n: nat): (p: nat)
    ensures 1 <= p
  {
    if n == 0 then 1 else 2 * Pow2(n - 1)
  }

  lemma {:induction false} Pow2Add(a: nat, b: nat)
    ensures Pow2(a + b) == Pow2(a) * Pow2(b)
  {
    if a > 0 {
      Pow2Add(a - 1, b);
      calc {
        Pow2(a + b);
        2 * Pow2(a - 1 + b);
        2 * (Pow2(a - 1) * Pow2(b));
        (2 * Pow2(a - 1)) * Pow2(b);
      }
    }
  }

  lemma {:induction false} Pow2Monotone(a: nat, b: nat)
    requires a <= b
    ensures Pow2(a) <= Pow2(b)
  {
    if a < b {
      Pow2Monotone(a, b - 1);
    }
  }

  lemma {:induction false} Pow2Constants()
    ensures Pow2(1) == 2 && Pow2(2) == 4 && Pow2(3) == 8 && Pow2(4) == 16
    ensures Pow2(5) == 32 && Pow2(6) == 64 && Pow2(7) == 128 && Pow2(8) == 256
    ensures Pow2(9) == 512 && Pow2(10) == 1024 && Pow2(11) == 2048 && Pow2(12) == 4096
    ensures Pow2(14) == 0x4000 && Pow2(15) == 0x8000 && Pow2(16) == 0x1_0000
    ensures Pow2(28) == 0x1000_0000 && Pow2(31) == 0x8000_0000 && Pow2(32) == TWO_32
  {
    assert Pow2(8) == 256;
    assert Pow2(16) == 0x1_0000;
    assert Pow2(24) == 0x100_0000;
    assert Pow2(28) == 0x1000_0000;
  }

  /** x shifted left by k bits, without truncation. */
  function ShiftLeft(x: nat, k: nat): nat {
    if k == 0 then x else 2 * ShiftLeft(x, k - 1)
  }

  /** Shifting distributes over addition. */
  lemma {:induction false} ShiftLeftAdd(a: nat, b: nat, k: nat)
    ensures ShiftLeft(a, k) + ShiftLeft(b, k) == ShiftLeft(a + b, k)
  {
    if k > 0 {
      ShiftLeftAdd(a, b, k - 1);
    }
  }

  /** Two shifts make one. */
  lemma {:induction false} ShiftLeftCompose(x: nat, j: nat, k: nat)
    ensures ShiftLeft(x, j + k) == ShiftLeft(ShiftLeft(x, j), k)
  {
    if k > 0 {
      ShiftLeftCompose(x, j, k - 1);
    }
  }

  /** A left shift by k multiplies by 2^k. */
  lemma {:induction false} ShiftLeftPow2(x: nat, k: nat)
    ensures ShiftLeft(x, k) == x * Pow2(k)
  {
    if k > 0 {
      ShiftLeftPow2(x, k - 1);
    }
  }

  /** A run of at most eight bits fits in a byte. */
  lemma {:induction false} ValueOfByte(bs: seq<bool>)
    requires |bs| <= 8
    ensures ValueOf(bs) < 0x100
  {
    Pow2Monotone(|bs|, 8);
    assert Pow2(8) == 0x100;
  }

  /** A run of at most 32 bits fits in a 32-bit word. */
  lemma {:induction false} ValueOfWord(bs: seq<bool>)
    requires |bs| <= 32
    ensures ValueOf(bs) < TWO_32
  {
    Pow2Monotone(|bs|, 32);
    Pow2Constants();
  }

  /** Bit i of x. */
  function BitAt(x: nat, i: nat): (b: bool)
  {
    if i == 0 then x % 2 == 1 else BitAt(x / 2, i - 1)
  }

  /** The unsigned value of a bit run, least significant bit first. */
  function ValueOf(bs: seq<bool>): (v: nat)
    ensures v < Pow2(|bs|)
  {
    if |bs| == 0 then 0 else (if bs[0] then 1 else 0) + 2 * ValueOf(bs[1..])
  }

  /** The low n bits of v, least significant first. */
  function ToBits(v: nat, n: nat): (bs: seq<bool>)
    ensures |bs| == n
  {
    if n == 0 then [] else [v % 2 == 1] + ToBits(v / 2, n - 1)
  }

  /** Bit i of the run is bit i of the value. */
  lemma {:induction false} ToBitsBit(v: nat, n: nat, i: nat)
    requires i < n
    ensures ToBits(v, n)[i] == BitAt(v, i)
  {
    if i > 0 {
      ToBitsBit(v / 2, n - 1, i - 1);
    }
  }

  lemma {:induction false} ValueOfToBits(v: nat, n: nat)
    requires v < Pow2(n)
    ensures ValueOf(ToBits(v, n)) == v
  {
    if n > 0 {
      ValueOfToBits(v / 2, n - 1);
      assert ToBits(v, n)[1..] == ToBits(v / 2, n - 1);
    }
  }

  lemma {:induction false} ToBitsValueOf(bs: seq<bool>)
    ensures ToBits(ValueOf(bs), |bs|) == bs
  {
    if |bs| > 0 {
      ToBitsValueOf(bs[1..]);
      var v := ValueOf(bs);
      assert v / 2 == ValueOf(bs[1..]);
      assert (v % 2 == 1) == bs[0];
      assert ToBits(v, |bs|) == [v % 2 == 1] + ToBits(v / 2, |bs| - 1);
      assert bs == [bs[0]] + bs[1..];
    }
  }

  /** The value of a concatenation: the first run supplies the low bits. */
  lemma {:induction false} ValueOfAppend(a: seq<bool>, b: seq<bool>)
    ensures ValueOf(a + b) == ValueOf(a) + Pow2(|a|) * ValueOf(b)
  {
    if |a| == 0 {
      assert a + b == b;
    } else {
      assert (a + b)[1..] == a[1..] + b;
      ValueOfAppend(a[1..], b);
      assert (a + b)[0] == a[0];
      assert ValueOf(a + b) == (if a[0] then 1 else 0) + 2 * ValueOf(a[1..] + b);
      assert Pow2(|a|) == 2 * Pow2(|a| - 1);
      Distribute(if a[0] then 1 else 0, ValueOf(a[1..]), Pow2(|a| - 1), ValueOf(b));
    }
  }

  lemma {:induction false} Distribute(s: int, h: int, p: int, r: int)
    ensures s + 2 * (h + p * r) == (s + 2 * h) + (2 * p) * r
  {
  }

  /** The bit sequence of a byte buffer: eight bits per byte, least significant
      first. */
  function BytesToBits(data: Bytes): (bs: seq<bool>)
    ensures |bs| == 8 * |data|
  {
    if |data| == 0 then [] else ToBits(data[0], 8) + BytesToBits(data[1..])
  }

  lemma {:induction false} BytesToBitsAppend(a: Bytes, b: Bytes)
    ensures BytesToBits(a + b) == BytesToBits(a) + BytesToBits(b)
  {
    if |a| == 0 {
      assert a + b == b;
    } else {
      assert (a + b)[1..] == a[1..] + b;
      BytesToBitsAppend(a[1..], b);
      assert (a + b)[0] == a[0];
      assert BytesToBits(a + b) == ToBits(a[0], 8) + BytesToBits(a[1..] + b);
      assert BytesToBits(a) == ToBits(a[0], 8) + BytesToBits(a[1..]);
    }
  }

  /** Byte k occupies bits 8k .. 8k + 7 of the buffer's bit sequence. */
  lemma {:induction false} BytesToBitsAt(data: Bytes, k: nat)
    requires k < |data|
    ensures BytesToBits(data)[8 * k .. 8 * k + 8] == ToBits(data[k], 8)
  {
    if k > 0 {
      BytesToBitsAt(data[1..], k - 1);
      var rest := BytesToBits(data[1..]);
      assert BytesToBits(data) == ToBits(data[0], 8) + rest;
      assert BytesToBits(data)[8 * k .. 8 * k + 8] == rest[8 * (k - 1) .. 8 * (k - 1) + 8];
    }
  }

  /** So bit k of the buffer is bit k % 8 of byte k / 8. */
  lemma {:induction false} BufferBit(data: Bytes, k: nat)
    requires k < 8 * |data|
    ensures BytesToBits(data)[k] == BitAt(data[k / 8], k % 8)
  {
    var q := k / 8;
    BytesToBitsAt(data, q);
    assert BytesToBits(data)[k] == BytesToBits(data)[8 * q .. 8 * q + 8][k % 8];
    ToBitsBit(data[q], 8, k % 8);
  }

  /** Packs bits into bytes, eight per byte, least significant first; the last byte
      is padded with zero bits. */
  function Pack(bs: seq<bool>): (data: Bytes)
    ensures |bs| <= 8 * |data| < |bs| + 8
    decreases |bs|
  {
    if |bs| == 0 then []
    else if |bs| <= 8 then
      ValueOfByte(bs);
      [ValueOf(bs)]
    else
      ValueOfByte(bs[..8]);
      [ValueOf(bs[..8])] + Pack(bs[8..])
  }

  /** A packed buffer carries the packed bits at its start. */
  lemma {:induction false} PackBits(bs: seq<bool>)
    ensures BytesToBits(Pack(bs))[..|bs|] == bs
    decreases |bs|
  {
    if 0 < |bs| <= 8 {
      ValueOfByte(bs);
      var v := ValueOf(bs);
      assert BytesToBits(Pack(bs)) == ToBits(v, 8) + [];
      ToBitsValueOf(bs);
      ToBitsPrefix(v, |bs|, 8);
    } else if |bs| > 8 {
      ValueOfByte(bs[..8]);
      PackBits(bs[8..]);
      ToBitsValueOf(bs[..8]);
      assert BytesToBits(Pack(bs)) == ToBits(ValueOf(bs[..8]), 8) + BytesToBits(Pack(bs[8..]));
      assert bs == bs[..8] + bs[8..];
    }
  }

  lemma {:induction false} ToBitsPrefix(v: nat, m: nat, n: nat)
    requires m <= n
    ensures ToBits(v, n)[..m] == ToBits(v, m)
  {
    if m > 0 {
      ToBitsPrefix(v / 2, m - 1, n - 1);
      assert ToBits(v, n)[..m] == [v % 2 == 1] + ToBits(v / 2, n - 1)[..m - 1];
    }
  }

  /** The bits of `bits` from `pos` on start with `bs`. */
  predicate Holds(bits: seq<bool>, pos: nat, bs: seq<bool>) {
    pos + |bs| <= |bits| && bits[pos..pos + |bs|] == bs
  }

  lemma {:induction false} HoldsSplit(bits: seq<bool>, pos: nat, a: seq<bool>, b: seq<bool>)
    requires Holds(bits, pos, a + b)
    ensures Holds(bits, pos, a) && Holds(bits, pos + |a|, b)
  {
    assert bits[pos..pos + |a|] == (a + b)[..|a|];
    assert bits[pos + |a|..pos + |a| + |b|] == (a + b)[|a|..];
  }

  /** A sequence is its prefix, middle and suffix put back together. */
  lemma {:induction false} SplitThree<T>(s: seq<T>, i: nat, j: nat)
    requires i <= j <= |s|
    ensures s == s[..i] + s[i..j] + s[j..]
  {
  }

  /** The middle run of a concatenation holds at its offset. */
  lemma {:induction false} PackHoldsAt(pre: seq<bool>, bs: seq<bool>, post: seq<bool>)
    ensures Holds(pre + bs + post, |pre|, bs)
  {
    assert (pre + bs + post)[|pre|..|pre| + |bs|] == bs;
  }

  /** Every bit run can be laid out in a byte buffer after any other run. */
  lemma {:induction false} PackHolds(pre: seq<bool>, bs: seq<bool>, post: seq<bool>)
    ensures Holds(BytesToBits(Pack(pre + bs + post)), |pre|, bs)
  {
    var all := pre + bs + post;
    PackBits(all);
    assert BytesToBits(Pack(all))[|pre|..|pre| + |bs|] == all[|pre|..|pre| + |bs|];
  }
}
