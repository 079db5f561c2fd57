/** The property decoders of src/property.cpp. Each decoder is a spec function over a
    `Reader` (what it returns and where it leaves the cursor) and a method on a
    `Bitstream` proved to agree with it. Float readers are modelled by the raw fields
    they consume; the float arithmetic on those fields is not part of this model. */
module Properties {
  import opened Wrappers
  import opened Bits
  import opened BitReader
  import opened Schema

  /** MAX_STRING_LENGTH: the largest string length read_prop accepts. */
  const MAX_STRING_LENGTH: nat := 0x200

  /** The raw fields of a decoded float. */
  datatype Float =
    | Coord(integerPart: Option<nat>, fractionPart: Option<U32>, negative: bool)
    | CoordMp(value: int)
    | NoScale(raw: U32)
    | Normal(negative: bool, magnitude: U32)
    | CellCoord(integer: U32, fraction: U32, lowPrecision: bool)
    | CellCoordIntegral(integer: U32)
    | Scaled(dividend: U32)

  /** The third component of a vector: read, or derived from x and y with a sign. */
  datatype VectorZ = Derived(negative: bool) | Read(z: Float)

  /** A decoded property: the Property subclasses of src/property.h. */
  datatype PropValue =
    | IntValue(i: U32)
    | FloatValue(f: Float)
    | VectorValue(x: Float, y: Float, z: VectorZ)
    | VectorXYValue(x: Float, y: Float)
    | StringValue(s: Bytes)
    | ArrayValue(elements: seq<PropValue>, elementType: PropType)
    | Int64Value(l: U64)

  /** The name read_prop reports: the holding table's name, a dot, the prop's name. */
  function PropName(prop: SendProp): (name: string)
    ensures |name| == |prop.inTable| + 1 + |prop.varName|
    ensures name[|prop.inTable|] == '.' && name[..|prop.inTable|] == prop.inTable
  {
    prop.inTable + "." + prop.varName
  }

  // ------------------------------------------------------------------ read_int

  /** The integer a zig-zag code stands for: even codes are the non-negative values,
      odd codes the negative ones. */
  function ZigZagDecoded(v: nat): int {
    if v % 2 == 0 then v / 2 else -((v + 1) / 2)
  }

  /** The zig-zag code of a 32-bit signed value. */
  function ZigZagEncoded(x: int): (v: U32)
    requires -0x8000_0000 <= x < 0x8000_0000
  {
    if x >= 0 then 2 * x else -2 * x - 1
  }

  /** `(-(v & 1)) ^ (v >> 1)` on uint32: `-(v & 1)` is 0 or all ones, and an XOR with
      all ones is `0xFFFFFFFF - x`. Its int32 reading is the zig-zag decoding of v. */
  function ZigZag(v: U32): (r: U32)
    ensures Signed32(r) == ZigZagDecoded(v)
  {
    if v % 2 == 0 then v / 2 else 0xFFFF_FFFF - v / 2
  }

  /** Zig-zag decoding inverts the encoding of every int32. */
  lemma {:induction false} ZigZagRoundTrip(x: int)
    requires -0x8000_0000 <= x < 0x8000_0000
    ensures Signed32(ZigZag(ZigZagEncoded(x))) == x
  {
  }

  /** The two's-complement value of an n-bit field. */
  function TwosComplement(v: nat, n: nat): int
    requires n >= 1
  {
    if v >= Pow2(n - 1) then v - Pow2(n) else v
  }

  /** `v ^ h` for a bit `h` that is 0 or a power of two. */
  function FlipBit(v: nat, h: nat): nat
    requires h > 0
  {
    if (v / h) % 2 == 1 then v - h else v + h
  }

  /** Flipping the top bit of an n-bit field and subtracting it again leaves the
      two's-complement value of the field. */
  lemma {:induction false} FlipThenSubtract(v: nat, h: nat)
    requires h > 0 && v < 2 * h
    ensures FlipBit(v, h) - h == if v >= h then v - 2 * h else v
  {
    if v >= h {
      assert v / h == 1 by {
        assert v == h * 1 + (v - h) && 0 <= v - h < h;
      }
    } else {
      assert v / h == 0;
    }
  }

  /** `(v ^ signer) - signer` in uint32, where signer is bit n-1 for a signed prop and
      0 for an unsigned one. A signed result, read as int32, is the two's-complement
      value of the n-bit field; an unsigned one is the field itself. */
  function SignExtend(v: U32, n: nat, unsigned: bool): (r: U32)
    requires 1 <= n <= 32 && v < Pow2(n)
    ensures unsigned ==> r == v
    ensures !unsigned ==> Signed32(r) == TwosComplement(v, n)
  {
    if unsigned then v
    else
      var signer := Pow2(n - 1);
      Pow2Monotone(n - 1, 31);
      Pow2Constants();
      FlipThenSubtract(v, signer);
      Wrap32(FlipBit(v, signer) - signer)
  }

  /** read_int. With tickcount encoding, a var-35 value, zig-zag decoded unless the
      prop is unsigned. Otherwise num_bits bits, sign-extended unless unsigned; a
      width of 0 shifts 0x80000000 by 32, which C++ leaves undefined. */
  function TakeInt(r: Reader, prop: SendProp): (g: Result<Got<U32>>)
    ensures Has(prop.flags, ENCODED_AGAINST_TICKCOUNT) && Has(prop.flags, UNSIGNED) ==> g == TakeVar35(r)
    ensures Has(prop.flags, ENCODED_AGAINST_TICKCOUNT) && !Has(prop.flags, UNSIGNED) ==>
              (g.Ok? <==> TakeVar35(r).Ok?) &&
              (g.Ok? ==> g.value.rest == TakeVar35(r).value.rest &&
                         Signed32(g.value.value) == ZigZagDecoded(TakeVar35(r).value.value))
    ensures !Has(prop.flags, ENCODED_AGAINST_TICKCOUNT) ==>
              (g.Ok? <==> 1 <= prop.numBits <= 32 && r.pos + prop.numBits <= r.End())
    ensures !Has(prop.flags, ENCODED_AGAINST_TICKCOUNT) && g.Ok? ==>
              var field := ValueOf(r.bits[r.pos..r.pos + prop.numBits]);
              g.value.rest == r.(pos := r.pos + prop.numBits) &&
              (Has(prop.flags, UNSIGNED) ==> g.value.value == field) &&
              (!Has(prop.flags, UNSIGNED) ==> Signed32(g.value.value) == TwosComplement(field, prop.numBits))
  {
    if Has(prop.flags, ENCODED_AGAINST_TICKCOUNT) then
      if Has(prop.flags, UNSIGNED) then TakeVar35(r)
      else
        var v :- TakeVar35(r);
        Ok(Got(ZigZag(v.value), v.rest))
    else
      var v :- TakeBits(r, prop.numBits);
      if prop.numBits == 0 then Err(UndefinedBehaviour("shift of 0x80000000 by 32"))
      else
        TakeBitsReadsStream(r, prop.numBits);
        ValueOfToBits(v.value, prop.numBits);
        Ok(Got(SignExtend(v.value, prop.numBits, Has(prop.flags, UNSIGNED)), v.rest))
  }

  // ---------------------------------------------------------------- read_float

  /** FloatType: how read_float_coord_mp and read_float_cell_coord read. */
  datatype FloatType = FtNone | FtLowPrecision | FtIntegral

  /** Reads n bits when `read` holds, and nothing otherwise. */
  function TakeBitsIf(r: Reader, read: bool, n: nat): (g: Result<Got<U32>>)
    ensures g.Ok? ==> g.value.rest == r.(pos := r.pos + if read then n else 0)
    ensures !read ==> g == Ok(Got(0, r))
  {
    if read then TakeBits(r, n) else Ok(Got(0, r))
  }

  /** read_float_coord after its two flags, when either is set: a sign bit, then 14
      bits of integer part minus one if `integer`, then 5 bits of fraction if
      `fraction`. */
  function TakeCoordTail(r: Reader, integer: bool, fraction: bool): (g: Result<Got<Float>>)
    ensures g.Ok? ==> g.value.value.Coord? && g.value.rest.bits == r.bits
    ensures g.Ok? ==> g.value.rest.pos == r.pos + 1 + (if integer then 14 else 0) + (if fraction then 5 else 0)
    ensures g.Ok? ==> (g.value.value.integerPart.Some? <==> integer) && (g.value.value.fractionPart.Some? <==> fraction)
    ensures g.Ok? && integer ==> 1 <= g.value.value.integerPart.value <= Pow2(14)
    ensures g.Ok? && fraction ==> g.value.value.fractionPart.value < Pow2(5)
  {
    var sign :- TakeBits(r, 1);
    var i :- TakeBitsIf(sign.rest, integer, 14);
    var f :- TakeBitsIf(i.rest, fraction, 5);
    Ok(Got(Coord(if integer then Some(i.value + 1) else None,
                 if fraction then Some(f.value) else None,
                 sign.value != 0), f.rest))
  }

  /** read_float_coord: an integer flag and a fraction flag; with both clear the value
      is zero and nothing more is read, otherwise the sign and the parts follow. */
  function TakeCoord(r: Reader): (g: Result<Got<Float>>)
    ensures g.Ok? ==> g.value.value.Coord? && g.value.rest.bits == r.bits
    ensures g.Ok? ==> (g.value.rest.pos == r.pos + 2 <==> g.value.value == Coord(None, None, false))
    ensures g.Ok? ==> (g.value.rest.pos == r.pos + 2 || g.value.value.integerPart.Some? || g.value.value.fractionPart.Some?)
  {
    var integer :- TakeBits(r, 1);
    var fraction :- TakeBits(integer.rest, 1);
    if integer.value == 0 && fraction.value == 0 then Ok(Got(Coord(None, None, false), fraction.rest))
    else TakeCoordTail(fraction.rest, integer.value != 0, fraction.value != 0)
  }

  /** The integral coord-MP value as the code intends it: the magnitude is v / 2 + 1,
      negative when v is odd. */
  function CoordMpIntegralValue(v: nat): (x: int)
    ensures x != 0 && (x < 0 <==> v % 2 == 1)
    ensures (if x < 0 then -x else x) == v / 2 + 1
  {
    if v % 2 == 1 then -(v / 2 + 1) else v / 2 + 1
  }

  /** The integral coord-MP value as written: the negation happens in uint32, so a
      negative value becomes that value plus 2^32 before it is converted to float. */
  function CoordMpIntegralAsWritten(v: U32): (w: U32)
    ensures w == Wrap32(CoordMpIntegralValue(v))
  {
    if v % 2 == 1 then Wrap32(-(v / 2 + 1)) else v / 2 + 1
  }

  /** Every odd code gives a uint32 at least 2^31, not the small negative number it
      encodes. */
  lemma {:induction false} CoordMpNegationWraps(v: U32)
    requires v % 2 == 1
    ensures CoordMpIntegralValue(v) < 0
    ensures CoordMpIntegralAsWritten(v) == CoordMpIntegralValue(v) + TWO_32 >= 0x8000_0000
  {
  }

  /** The 12-bit code 1 stands for -1, but the code as written yields 0xFFFFFFFF. */
  lemma {:induction false} CoordMpIntegralCounterexample()
    ensures CoordMpIntegralValue(1) == -1
    ensures CoordMpIntegralAsWritten(1) == 0xFFFF_FFFF
  {
  }

  /** Even codes agree: the positive values need no wrap-around. */
  lemma {:induction false} CoordMpPositiveAgrees(v: U32)
    requires v % 2 == 0
    ensures CoordMpIntegralAsWritten(v) == CoordMpIntegralValue(v) > 0
  {
  }

  /** The width of the integral coord-MP value for flag a + 2b. */
  function CoordMpWidth(flag: nat): nat {
    if flag != 0 then 12 else 15
  }

  /** read_float_coord_mp. The none and low-precision types read three bits and then
      fail. The integral type reads flag bits a and b; b clear gives 0 after two
      bits, and otherwise a + 2b >= 2, so the value is always 12 bits wide (the
      15-bit branch cannot be taken). */
  function TakeCoordMp(r: Reader, kind: FloatType): (g: Result<Got<Float>>)
    ensures kind != FtIntegral ==> g.Err?
    ensures kind == FtIntegral && g.Ok? ==> r.pos + 2 <= r.End() && g.value.value.CoordMp?
    ensures kind == FtIntegral && g.Ok? && !r.bits[r.pos + 1] ==>
              g.value == Got(CoordMp(0), r.(pos := r.pos + 2))
    ensures kind == FtIntegral && g.Ok? && r.bits[r.pos + 1] ==>
              g.value.rest == r.(pos := r.pos + 14) &&
              g.value.value.value == CoordMpIntegralValue(ValueOf(r.bits[r.pos + 2..r.pos + 14])) != 0
  {
    if kind != FtIntegral then
      var a :- TakeBits(r, 1);
      var b :- TakeBits(a.rest, 1);
      var c :- TakeBits(b.rest, 1);
      Err(UnsupportedFeature("please no"))
    else
      var a :- TakeBits(r, 1);
      var b :- TakeBits(a.rest, 1);
      TakeBitsReadsStream(a.rest, 1);
      ValueOfToBits(b.value, 1);
      var flag := a.value + 2 * b.value;
      if b.value == 0 then Ok(Got(CoordMp(0), b.rest))
      else
        var v :- TakeBits(b.rest, CoordMpWidth(flag));
        TakeBitsReadsStream(b.rest, 12);
        ValueOfToBits(v.value, 12);
        Ok(Got(CoordMp(CoordMpIntegralValue(v.value)), v.rest))
  }

  /** read_float_cell_coord: `bits` bits of integer part, then 5 bits of fraction (3
      at low precision) unless the type is integral. */
  function TakeCellCoord(r: Reader, kind: FloatType, bits: nat): (g: Result<Got<Float>>)
    ensures g.Ok? ==> g.value.rest == r.(pos := r.pos + CellCoordWidth(kind, bits))
  {
    var value :- TakeBits(r, bits);
    if kind == FtIntegral then Ok(Got(CellCoordIntegral(value.value), value.rest))
    else
      var fraction :- TakeBits(value.rest, if kind == FtLowPrecision then 3 else 5);
      Ok(Got(CellCoord(value.value, fraction.value, kind == FtLowPrecision), fraction.rest))
  }

  function CellCoordWidth(kind: FloatType, bits: nat): nat {
    match kind
    case FtNone => bits + 5
    case FtLowPrecision => bits + 3
    case FtIntegral => bits
  }

  /** read_float: the first flag present, in this order, picks the encoding; with none
      of them the value is num_bits bits scaled into the prop's range. */
  function TakeFloat(r: Reader, prop: SendProp): (g: Result<Got<Float>>)
    ensures g.Ok? ==> g.value.rest.bits == r.bits && r.pos <= g.value.rest.pos
    ensures Has(prop.flags, COORD) ==> g == TakeCoord(r)
    ensures !Has(prop.flags, COORD) && (Has(prop.flags, COORD_MP) || Has(prop.flags, COORD_MP_LOW_PRECISION)) ==> g.Err?
    ensures (!Has(prop.flags, COORD) && !Has(prop.flags, COORD_MP) && !Has(prop.flags, COORD_MP_LOW_PRECISION)
             && Has(prop.flags, COORD_MP_INTEGRAL)) ==> g == TakeCoordMp(r, FtIntegral)
  {
    if Has(prop.flags, COORD) then TakeCoord(r)
    else if Has(prop.flags, COORD_MP) then TakeCoordMp(r, FtNone)
    else if Has(prop.flags, COORD_MP_LOW_PRECISION) then TakeCoordMp(r, FtLowPrecision)
    else if Has(prop.flags, COORD_MP_INTEGRAL) then TakeCoordMp(r, FtIntegral)
    else if Has(prop.flags, NO_SCALE) then
      var raw :- TakeBits(r, 32);
      Ok(Got(NoScale(raw.value), raw.rest))
    else if Has(prop.flags, NORMAL) then
      var sign :- TakeBits(r, 1);
      var magnitude :- TakeBits(sign.rest, 11);
      Ok(Got(Normal(sign.value != 0, magnitude.value), magnitude.rest))
    else if Has(prop.flags, CELL_COORD) then TakeCellCoord(r, FtNone, prop.numBits)
    else if Has(prop.flags, CELL_COORD_LOW_PRECISION) then TakeCellCoord(r, FtLowPrecision, prop.numBits)
    else if Has(prop.flags, CELL_COORD_INTEGRAL) then TakeCellCoord(r, FtIntegral, prop.numBits)
    else
      var dividend :- TakeBits(r, prop.numBits);
      Ok(Got(Scaled(dividend.value), dividend.rest))
  }

  /** read_vector: x and y; then for a normal vector a sign bit for the derived z, and
      otherwise a third float. */
  function TakeVector(r: Reader, prop: SendProp): (g: Result<Got<PropValue>>)
    ensures g.Ok? ==> g.value.value.VectorValue? && g.value.rest.bits == r.bits && r.pos <= g.value.rest.pos
    ensures g.Ok? ==> (g.value.value.z.Derived? <==> Has(prop.flags, NORMAL))
  {
    var x :- TakeFloat(r, prop);
    var y :- TakeFloat(x.rest, prop);
    if Has(prop.flags, NORMAL) then
      var sign :- TakeBits(y.rest, 1);
      Ok(Got(VectorValue(x.value, y.value, Derived(sign.value != 0)), sign.rest))
    else
      var z :- TakeFloat(y.rest, prop);
      Ok(Got(VectorValue(x.value, y.value, Read(z.value)), z.rest))
  }

  /** read_vector_xy: two floats. */
  function TakeVectorXY(r: Reader, prop: SendProp): (g: Result<Got<PropValue>>)
    ensures g.Ok? ==> g.value.value.VectorXYValue? && g.value.rest.bits == r.bits && r.pos <= g.value.rest.pos
  {
    var x :- TakeFloat(r, prop);
    var y :- TakeFloat(x.rest, prop);
    Ok(Got(VectorXYValue(x.value, y.value), y.rest))
  }

  // --------------------------------------------------------------- read_string

  /** read_string with max_length MAX_STRING_LENGTH: a 9-bit length, then that many
      bytes. A 9-bit length never exceeds the maximum, so only an overrun fails. */
  function TakeStringProp(r: Reader): (g: Result<Got<Bytes>>)
    ensures g.Err? ==> g.error == StreamOverrun
    ensures g.Ok? ==> |g.value.value| < MAX_STRING_LENGTH
    ensures g.Ok? ==> g.value.rest.bits == r.bits && g.value.rest.pos == r.pos + 9 + 8 * |g.value.value|
    ensures g.Ok? ==> |g.value.value| == ValueOf(r.bits[r.pos..r.pos + 9])
  {
    var length :- TakeBits(r, 9);
    TakeBitsReadsStream(r, 9);
    ValueOfToBits(length.value, 9);
    assert Pow2(9) == 512;
    if length.value > MAX_STRING_LENGTH then Err(FormatViolation("String too long"))
    else
      var s :- TakeBytes(length.rest, 8 * length.value);
      Ok(Got(s.value, s.rest))
  }

  // ---------------------------------------------------------- read_array

  /** The number of binary digits of n: 0 for 0. */
  function BitLength(n: nat): (b: nat)
    ensures n < Pow2(b) && b <= n
  {
    if n == 0 then 0
    else
      var half := BitLength(n / 2);
      assert Pow2(half + 1) == 2 * Pow2(half);
      half + 1
  }

  /** BitLength(n) is the least b with n < 2^b. */
  lemma {:induction false} BitLengthIsLeast(n: nat)
    ensures n < Pow2(BitLength(n))
    ensures n > 0 ==> Pow2(BitLength(n) - 1) <= n
  {
    if n > 0 {
      BitLengthIsLeast(n / 2);
    }
  }

  /** A uint32 has at most 32 binary digits. */
  lemma {:induction false} BitLengthBound(n: nat, k: nat)
    requires n < Pow2(k)
    ensures BitLength(n) <= k
  {
    if n > 0 {
      BitLengthBound(n / 2, k - 1);
    }
  }

  /** get_array_length_bits: counts the shifts that empty num_elements. */
  method ArrayLengthBits(prop: SendProp) returns (bits: nat)
    ensures bits == BitLength(prop.numElements) <= 32
    ensures prop.numElements < Pow2(bits)
    ensures bits == 0 || Pow2(bits - 1) <= prop.numElements
  {
    var n: nat := prop.numElements;
    bits := 0;
    while n != 0
      invariant bits + BitLength(n) == BitLength(prop.numElements)
      decreases n
    {
      bits := bits + 1;
      n := n / 2;
    }
    BitLengthIsLeast(prop.numElements);
    Pow2Constants();
    BitLengthBound(prop.numElements, 32);
  }

  /** `count` elements decoded one after another with the descriptor `element`. */
  function TakeElements(r: Reader, element: SendProp, count: nat): (g: Result<Got<seq<PropValue>>>)
    ensures g.Ok? ==> |g.value.value| == count && g.value.rest.bits == r.bits && r.pos <= g.value.rest.pos
    decreases element, 2, count
  {
    if count == 0 then Ok(Got([], r))
    else
      var first :- TakeProp(r, element);
      var rest :- TakeElements(first.rest, element, count - 1);
      Ok(Got([first.value] + rest.value, rest.rest))
  }

  /** read_array: fails without an element descriptor; otherwise a count of
      BitLength(num_elements) bits and that many elements. */
  function TakeArray(r: Reader, prop: SendProp): (g: Result<Got<PropValue>>)
    ensures prop.arrayProp.None? ==> g.Err?
    ensures g.Ok? ==> g.value.rest.bits == r.bits && r.pos <= g.value.rest.pos
    ensures g.Ok? ==> prop.arrayProp.Some? && TakeBits(r, BitLength(prop.numElements)).Ok?
    ensures g.Ok? ==> g.value.value.ArrayValue? && g.value.value.elementType == prop.arrayProp.value.kind
    ensures g.Ok? ==> |g.value.value.elements| == TakeBits(r, BitLength(prop.numElements)).value.value
    decreases prop, 0, 0
  {
    match prop.arrayProp
    case None => Err(FormatViolation("Array prop has no inner prop."))
    case Some(element) =>
      var count :- TakeBits(r, BitLength(prop.numElements));
      var elements :- TakeElements(count.rest, element, count.value);
      Ok(Got(ArrayValue(elements.value, element.kind), elements.rest))
  }

  /** read_array decodes exactly as many elements as its count field says, which is
      below 2^BitLength(num_elements) (and so may exceed num_elements); an array
      whose num_elements is 0 is always empty. */
  lemma {:induction false} ArrayHasCount(r: Reader, prop: SendProp, g: Got<PropValue>)
    requires TakeArray(r, prop) == Ok(g)
    ensures BitLength(prop.numElements) <= 32 && r.pos + BitLength(prop.numElements) <= r.End()
    ensures g.value.ArrayValue?
    ensures |g.value.elements| == ValueOf(r.bits[r.pos..r.pos + BitLength(prop.numElements)])
    ensures |g.value.elements| < Pow2(BitLength(prop.numElements))
    ensures prop.numElements == 0 ==> g.value.elements == []
  {
    var w := BitLength(prop.numElements);
    var count := TakeBits(r, w).value.value;
    TakeBitsReadsStream(r, w);
    ValueOfToBits(count, w);
    assert ValueOf(r.bits[r.pos..r.pos + w]) == count;
    BitLengthIsLeast(prop.numElements);
  }

  // ---------------------------------------------------------------- read_int64

  /** The two words of read_int64 after the optional sign bit: 32 bits, then
      `second` bits, joined as (a << 32) | b and negated modulo 2^64 if `negate`. */
  function TakeInt64Words(r: Reader, numBits: U32, second: U64, negate: bool): (g: Result<Got<U64>>)
    ensures g.Ok? ==> second <= numBits && second <= 32
    ensures g.Ok? ==> g.value.rest.bits == r.bits && g.value.rest.pos == r.pos + 32 + second
    ensures g.Ok? ==> var a := TakeBits(r, 32).value; var b := TakeBits(a.rest, second).value;
              g.value.value == Int64Of(a.value, b.value, negate)
  {
    if numBits < second then Err(FormatViolation("Invalid number of bits"))
    else
      var a :- TakeBits(r, 32);
      var b :- TakeBits(a.rest, second);
      Ok(Got(Int64Of(a.value, b.value, negate), b.rest))
  }

  /** `(a << 32) | b`, multiplied by -1 in uint64 when `negate`: `a` is the high
      word and `b` the low one, and a negated value adds up with them to 0 modulo
      2^64. */
  function Int64Of(a: U32, b: U32, negate: bool): (r: U64)
    ensures !negate ==> r / TWO_32 == a && r % TWO_32 == b
    ensures negate ==> (r + a * TWO_32 + b) % TWO_64 == 0
  {
    var value := a * TWO_32 + b;
    assert value < TWO_64 by {
      assert a * TWO_32 <= (TWO_32 - 1) * TWO_32;
    }
    if negate then Wrap64(-value) else value
  }

  /** The width of read_int64's second word: `num_bits - 32` in uint32, less one in
      size_t for a signed prop. It is at most num_bits only when num_bits is at least
      32 (33 when signed), and is then the plain difference; smaller widths wrap
      around. */
  function Int64Width(numBits: U32, unsigned: bool): (w: U64)
    ensures var least := if unsigned then 32 else 33;
            (w <= numBits <==> numBits >= least) && (w <= numBits ==> w == numBits - least)
  {
    var second := Wrap32(numBits - 32);
    assert numBits < 32 ==> second == numBits - 32 + TWO_32;
    if unsigned then second
    else
      assert numBits == 32 ==> Wrap64(second - 1) == TWO_64 - 1;
      Wrap64(second - 1)
  }

  /** read_int64: tickcount encoding fails. An unsigned prop is a 32-bit word and a
      second word; a signed one has a sign bit first and negates the result when it
      is set. A width below 32 (33) fails the width assertion. */
  function TakeInt64(r: Reader, prop: SendProp): (g: Result<Got<U64>>)
    ensures Has(prop.flags, ENCODED_AGAINST_TICKCOUNT) ==> g.Err?
    ensures g.Ok? ==> g.value.rest.bits == r.bits && g.value.rest.pos == r.pos + prop.numBits
    ensures g.Ok? && Has(prop.flags, UNSIGNED) ==> 32 <= prop.numBits <= 64
    ensures g.Ok? && !Has(prop.flags, UNSIGNED) ==> 33 <= prop.numBits <= 65
  {
    if Has(prop.flags, ENCODED_AGAINST_TICKCOUNT) then Err(UnsupportedFeature("this sounds scary"))
    else if Has(prop.flags, UNSIGNED) then TakeInt64Words(r, prop.numBits, Int64Width(prop.numBits, true), false)
    else
      var sign :- TakeBits(r, 1);
      TakeInt64Words(sign.rest, prop.numBits, Int64Width(prop.numBits, false), sign.value != 0)
  }

  // ----------------------------------------------------------------- read_prop

  /** read_prop: decodes by the prop's type; a DataTable or unknown type fails. */
  function TakeProp(r: Reader, prop: SendProp): (g: Result<Got<PropValue>>)
    ensures g.Ok? ==> g.value.rest.bits == r.bits && r.pos <= g.value.rest.pos
    ensures prop.kind.DataTable? || prop.kind.Other? ==> g.Err?
    decreases prop, 1, 0
  {
    match prop.kind
    case Int =>
      var v :- TakeInt(r, prop);
      Ok(Got(IntValue(v.value), v.rest))
    case Float =>
      var v :- TakeFloat(r, prop);
      Ok(Got(FloatValue(v.value), v.rest))
    case Vector => TakeVector(r, prop)
    case VectorXY => TakeVectorXY(r, prop)
    case String =>
      var v :- TakeStringProp(r);
      Ok(Got(StringValue(v.value), v.rest))
    case Array => TakeArray(r, prop)
    case Int64 =>
      var v :- TakeInt64(r, prop);
      Ok(Got(Int64Value(v.value), v.rest))
    case _ => Err(FormatViolation("Unknown send prop type"))
  }

  /** The kind of a decoded value follows the prop's type. */
  predicate KindMatches(kind: PropType, value: PropValue) {
    match kind
    case Int => value.IntValue?
    case Float => value.FloatValue?
    case Vector => value.VectorValue?
    case VectorXY => value.VectorXYValue?
    case String => value.StringValue?
    case Array => value.ArrayValue?
    case Int64 => value.Int64Value?
    case _ => false
  }

  /** read_prop builds the Property subclass of the prop's type. */
  lemma {:induction false} PropKind(r: Reader, prop: SendProp)
    requires TakeProp(r, prop).Ok?
    ensures KindMatches(prop.kind, TakeProp(r, prop).value.value)
  {
  }

  // ------------------------------------------------------- the stream decoders

  /** read_int on the stream. */
  method ReadInt(stream: Bitstream, prop: SendProp) returns (r: Result<U32>)
    requires stream.Valid()
    modifies stream
    ensures stream.Valid() && Agrees(r, stream.View(), TakeInt(old(stream.View()), prop))
  {
    if Has(prop.flags, ENCODED_AGAINST_TICKCOUNT) {
      if Has(prop.flags, UNSIGNED) {
        r := stream.ReadVar35();
      } else {
        var value :- stream.ReadVar35();
        r := Ok(ZigZag(value));
      }
    } else {
      var value :- stream.GetBits(prop.numBits);
      if prop.numBits == 0 {
        return Err(UndefinedBehaviour("shift of 0x80000000 by 32"));
      }
      r := Ok(SignExtend(value, prop.numBits, Has(prop.flags, UNSIGNED)));
    }
  }

  /** read_float_coord on the stream. */
  method ReadFloatCoord(stream: Bitstream) returns (r: Result<Float>)
    requires stream.Valid()
    modifies stream
    ensures stream.Valid() && Agrees(r, stream.View(), TakeCoord(old(stream.View())))
  {
    var integer :- stream.GetBits(1);
    var fraction :- stream.GetBits(1);
    if integer == 0 && fraction == 0 {
      return Ok(Coord(None, None, false));
    }
    r := ReadCoordTail(stream, integer != 0, fraction != 0);
  }

  /** The sign and parts of read_float_coord on the stream. */
  method ReadCoordTail(stream: Bitstream, integer: bool, fraction: bool) returns (r: Result<Float>)
    requires stream.Valid()
    modifies stream
    ensures stream.Valid() && Agrees(r, stream.View(), TakeCoordTail(old(stream.View()), integer, fraction))
  {
    var sign :- stream.GetBits(1);
    var i: U32 := 0;
    if integer {
      i :- stream.GetBits(14);
    }
    var f: U32 := 0;
    if fraction {
      f :- stream.GetBits(5);
    }
    r := Ok(Coord(if integer then Some(i + 1) else None, if fraction then Some(f) else None, sign != 0));
  }

  /** read_float_coord_mp on the stream. */
  method ReadFloatCoordMp(stream: Bitstream, kind: FloatType) returns (r: Result<Float>)
    requires stream.Valid()
    modifies stream
    ensures stream.Valid() && Agrees(r, stream.View(), TakeCoordMp(old(stream.View()), kind))
  {
    if kind != FtIntegral {
      var a :- stream.GetBits(1);
      var b :- stream.GetBits(1);
      var c :- stream.GetBits(1);
      return Err(UnsupportedFeature("please no"));
    }
    var a :- stream.GetBits(1);
    var b :- stream.GetBits(1);
    a := a + 2 * b;
    if b == 0 {
      return Ok(CoordMp(0));
    }
    var value :- stream.GetBits(CoordMpWidth(a));
    r := Ok(CoordMp(CoordMpIntegralValue(value)));
  }

  /** read_float_cell_coord on the stream. */
  method ReadFloatCellCoord(stream: Bitstream, kind: FloatType, bits: nat) returns (r: Result<Float>)
    requires stream.Valid()
    modifies stream
    ensures stream.Valid() && Agrees(r, stream.View(), TakeCellCoord(old(stream.View()), kind, bits))
  {
    var value :- stream.GetBits(bits);
    if kind == FtIntegral {
      return Ok(CellCoordIntegral(value));
    }
    var fraction :- stream.GetBits(if kind == FtLowPrecision then 3 else 5);
    r := Ok(CellCoord(value, fraction, kind == FtLowPrecision));
  }

  /** read_float on the stream. */
  method ReadFloat(stream: Bitstream, prop: SendProp) returns (r: Result<Float>)
    requires stream.Valid()
    modifies stream
    ensures stream.Valid() && Agrees(r, stream.View(), TakeFloat(old(stream.View()), prop))
  {
    if Has(prop.flags, COORD) {
      r := ReadFloatCoord(stream);
    } else if Has(prop.flags, COORD_MP) {
      r := ReadFloatCoordMp(stream, FtNone);
    } else if Has(prop.flags, COORD_MP_LOW_PRECISION) {
      r := ReadFloatCoordMp(stream, FtLowPrecision);
    } else if Has(prop.flags, COORD_MP_INTEGRAL) {
      r := ReadFloatCoordMp(stream, FtIntegral);
    } else if Has(prop.flags, NO_SCALE) {
      var raw :- stream.GetBits(32);
      r := Ok(NoScale(raw));
    } else if Has(prop.flags, NORMAL) {
      var sign :- stream.GetBits(1);
      var magnitude :- stream.GetBits(11);
      r := Ok(Normal(sign != 0, magnitude));
    } else if Has(prop.flags, CELL_COORD) {
      r := ReadFloatCellCoord(stream, FtNone, prop.numBits);
    } else if Has(prop.flags, CELL_COORD_LOW_PRECISION) {
      r := ReadFloatCellCoord(stream, FtLowPrecision, prop.numBits);
    } else if Has(prop.flags, CELL_COORD_INTEGRAL) {
      r := ReadFloatCellCoord(stream, FtIntegral, prop.numBits);
    } else {
      var dividend :- stream.GetBits(prop.numBits);
      r := Ok(Scaled(dividend));
    }
  }

  /** read_vector on the stream. */
  method ReadVector(stream: Bitstream, prop: SendProp) returns (r: Result<PropValue>)
    requires stream.Valid()
    modifies stream
    ensures stream.Valid() && Agrees(r, stream.View(), TakeVector(old(stream.View()), prop))
  {
    var x :- ReadFloat(stream, prop);
    var y :- ReadFloat(stream, prop);
    if Has(prop.flags, NORMAL) {
      var sign :- stream.GetBits(1);
      r := Ok(VectorValue(x, y, Derived(sign != 0)));
    } else {
      var z :- ReadFloat(stream, prop);
      r := Ok(VectorValue(x, y, Read(z)));
    }
  }

  /** read_vector_xy on the stream. */
  method ReadVectorXY(stream: Bitstream, prop: SendProp) returns (r: Result<PropValue>)
    requires stream.Valid()
    modifies stream
    ensures stream.Valid() && Agrees(r, stream.View(), TakeVectorXY(old(stream.View()), prop))
  {
    var x :- ReadFloat(stream, prop);
    var y :- ReadFloat(stream, prop);
    r := Ok(VectorXYValue(x, y));
  }

  /** read_string on the stream, with max_length MAX_STRING_LENGTH. */
  method ReadStringProp(stream: Bitstream) returns (r: Result<Bytes>)
    requires stream.Valid()
    modifies stream
    ensures stream.Valid() && Agrees(r, stream.View(), TakeStringProp(old(stream.View())))
  {
    var length :- stream.GetBits(9);
    if length > MAX_STRING_LENGTH {
      return Err(FormatViolation("String too long"));
    }
    r := stream.ReadBits(8 * length);
  }

  /** The elements decoded so far ahead of what the rest of the array decodes. */
  function Joined(done: seq<PropValue>, g: Result<Got<seq<PropValue>>>): Result<Got<seq<PropValue>>> {
    match g
    case Ok(rest) => Ok(Got(done + rest.value, rest.rest))
    case Err(e) => Err(e)
  }

  lemma JoinedEmpty(done: seq<PropValue>, r: Reader)
    ensures Joined(done, Ok(Got([], r))) == Ok(Got(done, r))
  {
    assert done + [] == done;
  }

  lemma {:induction false} JoinedNil(g: Result<Got<seq<PropValue>>>)
    ensures Joined([], g) == g
  {
    if g.Ok? {
      assert [] + g.value.value == g.value.value;
    }
  }

  /** One element of an array that decodes: it joins the prefix. */
  lemma {:induction false} ElementsStep(r: Reader, element: SendProp, left: nat, done: seq<PropValue>,
                                        value: Result<PropValue>, after: Reader, total: Result<Got<seq<PropValue>>>)
    requires left > 0 && value.Ok? && Agrees(value, after, TakeProp(r, element))
    requires total == Joined(done, TakeElements(r, element, left))
    ensures total == Joined(done + [value.value], TakeElements(after, element, left - 1))
  {
    var tail := TakeElements(after, element, left - 1);
    if tail.Ok? {
      assert TakeElements(r, element, left) == Ok(Got([value.value] + tail.value.value, tail.value.rest));
      assert done + ([value.value] + tail.value.value) == done + [value.value] + tail.value.value;
    }
  }

  /** One element of an array that fails: the error ends the decoding. */
  lemma {:induction false} ElementsFail(r: Reader, element: SendProp, left: nat, done: seq<PropValue>,
                                        value: Result<PropValue>, after: Reader, total: Result<Got<seq<PropValue>>>)
    requires left > 0 && value.Err? && Agrees(value, after, TakeProp(r, element))
    requires total == Joined(done, TakeElements(r, element, left))
    ensures total == Err(value.error)
  {
  }

  /** The element loop of read_array: `count` values appended one by one. */
  method ReadElements(stream: Bitstream, element: SendProp, count: nat) returns (r: Result<seq<PropValue>>)
    requires stream.Valid()
    modifies stream
    ensures stream.Valid() && Agrees(r, stream.View(), TakeElements(old(stream.View()), element, count))
    decreases element, 2
  {
    ghost var total := TakeElements(stream.View(), element, count);
    ghost var cursor := stream.View();
    var elements: seq<PropValue> := [];
    JoinedNil(total);
    for i := 0 to count
      invariant stream.Valid() && cursor == stream.View()
      invariant total == Joined(elements, TakeElements(cursor, element, count - i))
    {
      var value, _ := ReadProp(stream, element);
      if value.Err? {
        ElementsFail(cursor, element, count - i, elements, value, stream.View(), total);
        return Err(value.error);
      }
      ElementsStep(cursor, element, count - i, elements, value, stream.View(), total);
      elements := elements + [value.value];
      cursor := stream.View();
    }
    JoinedEmpty(elements, cursor);
    r := Ok(elements);
  }

  /** read_array on the stream: the count, then the elements. */
  method ReadArray(stream: Bitstream, prop: SendProp) returns (r: Result<PropValue>)
    requires stream.Valid()
    modifies stream
    ensures stream.Valid() && Agrees(r, stream.View(), TakeArray(old(stream.View()), prop))
    decreases prop, 0
  {
    if prop.arrayProp.None? {
      return Err(FormatViolation("Array prop has no inner prop."));
    }
    var element := prop.arrayProp.value;
    var width := ArrayLengthBits(prop);
    var count :- stream.GetBits(width);
    var elements :- ReadElements(stream, element, count);
    r := Ok(ArrayValue(elements, element.kind));
  }

  /** The two words of read_int64 on the stream. */
  method ReadInt64Words(stream: Bitstream, numBits: U32, second: U64, negate: bool) returns (r: Result<U64>)
    requires stream.Valid()
    modifies stream
    ensures stream.Valid() && Agrees(r, stream.View(), TakeInt64Words(old(stream.View()), numBits, second, negate))
  {
    if numBits < second {
      return Err(FormatViolation("Invalid number of bits"));
    }
    var a :- stream.GetBits(32);
    var b :- stream.GetBits(second);
    r := Ok(Int64Of(a, b, negate));
  }

  /** read_int64 on the stream. */
  method ReadInt64(stream: Bitstream, prop: SendProp) returns (r: Result<U64>)
    requires stream.Valid()
    modifies stream
    ensures stream.Valid() && Agrees(r, stream.View(), TakeInt64(old(stream.View()), prop))
  {
    if Has(prop.flags, ENCODED_AGAINST_TICKCOUNT) {
      return Err(UnsupportedFeature("this sounds scary"));
    }
    var negate := false;
    if !Has(prop.flags, UNSIGNED) {
      var sign :- stream.GetBits(1);
      if sign != 0 {
        negate := true;
      }
    }
    r := ReadInt64Words(stream, prop.numBits, Int64Width(prop.numBits, Has(prop.flags, UNSIGNED)), negate);
  }

  /** read_prop on the stream: the value, decoded by the prop's type, and the name. */
  method ReadProp(stream: Bitstream, prop: SendProp) returns (r: Result<PropValue>, name: string)
    requires stream.Valid()
    modifies stream
    ensures stream.Valid() && Agrees(r, stream.View(), TakeProp(old(stream.View()), prop))
    ensures name == PropName(prop)
    decreases prop, 1
  {
    name := prop.inTable + "." + prop.varName;
    match prop.kind
    case Int =>
      var v := ReadInt(stream, prop);
      r := if v.Ok? then Ok(IntValue(v.value)) else Err(v.error);
    case Float =>
      var v := ReadFloat(stream, prop);
      r := if v.Ok? then Ok(FloatValue(v.value)) else Err(v.error);
    case Vector =>
      r := ReadVector(stream, prop);
    case VectorXY =>
      r := ReadVectorXY(stream, prop);
    case String =>
      var v := ReadStringProp(stream);
      r := if v.Ok? then Ok(StringValue(v.value)) else Err(v.error);
    case Array =>
      r := ReadArray(stream, prop);
    case Int64 =>
      var v := ReadInt64(stream, prop);
      r := if v.Ok? then Ok(Int64Value(v.value)) else Err(v.error);
    case _ =>
      r := Err(FormatViolation("Unknown send prop type"));
  }
}
