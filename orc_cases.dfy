/**
 * The unit cases of the ORC kernels, over ten elements: each in-place
 * add/mul with a constant, each conversion from one element type to all
 * eight, and the add-mul-convert sequence on a buffer of zeros.
 */
module OrcCases {
  import opened TensorTypes
  import opened OrcKernels

  /** Every element of xs converts from `from` to `to`, giving ys. */
  predicate ConvertsTo(from: ElementType, to: ElementType, xs: seq<int>, ys: seq<int>) {
    && (forall k :: 0 <= k < |xs| ==> Convertible(from, to, xs[k]))
    && ConvSeq(from, to, xs) == ys
  }

  /** Adding p to values for which no element overflows adds p exactly. */
  lemma AddExact(t: ElementType, xs: seq<int>, p: int)
    requires IsInteger(t)
    requires forall k :: 0 <= k < |xs| ==> InRange(t, xs[k] + p)
    ensures AddConst(t, xs, p, |xs|) == seq(|xs|, k requires 0 <= k < |xs| => xs[k] + p)
  {
    forall k | 0 <= k < |xs|
      ensures AddConst(t, xs, p, |xs|)[k] == xs[k] + p
    {
      AddConstSpec(t, xs, p, |xs|, k);
    }
  }

  /** Multiplying by p values for which no element overflows multiplies exactly. */
  lemma MulExact(t: ElementType, xs: seq<int>, p: int)
    requires IsInteger(t)
    requires forall k :: 0 <= k < |xs| ==> InRange(t, xs[k] * p)
    ensures MulConst(t, xs, p, |xs|) == seq(|xs|, k requires 0 <= k < |xs| => xs[k] * p)
  {
    forall k | 0 <= k < |xs|
      ensures MulConst(t, xs, p, |xs|)[k] == xs[k] * p
    {
      MulConstSpec(t, xs, p, |xs|, k);
    }
  }

  /** orc_add, s8: adding a constant to ten elements. */
  lemma OrcAddS8()
    ensures AddConst(Int8, seq(10, i => i - 1), -20, 10) == seq(10, i => i - 1 - 20)
    ensures AddConst(Int8, seq(10, i => i + 1), 20, 10) == seq(10, i => i + 1 + 20)
  {
    AddExact(Int8, seq(10, i => i - 1), -20);
    AddExact(Int8, seq(10, i => i + 1), 20);
  }

  /** orc_add, u8: adding a constant to ten elements. */
  lemma OrcAddU8()
    ensures AddConst(UInt8, seq(10, i => i + 1), 3, 10) == seq(10, i => i + 1 + 3)
  {
    AddExact(UInt8, seq(10, i => i + 1), 3);
  }

  /** orc_add, s16: adding a constant to ten elements. */
  lemma OrcAddS16()
    ensures AddConst(Int16, seq(10, i => i - 1), -16, 10) == seq(10, i => i - 1 - 16)
    ensures AddConst(Int16, seq(10, i => i + 1), 16, 10) == seq(10, i => i + 1 + 16)
  {
    AddExact(Int16, seq(10, i => i - 1), -16);
    AddExact(Int16, seq(10, i => i + 1), 16);
  }

  /** orc_add, u16: adding a constant to ten elements. */
  lemma OrcAddU16()
    ensures AddConst(UInt16, seq(10, i => i + 1), 17, 10) == seq(10, i => i + 1 + 17)
  {
    AddExact(UInt16, seq(10, i => i + 1), 17);
  }

  /** orc_add, s32: adding a constant to ten elements. */
  lemma OrcAddS32()
    ensures AddConst(Int32, seq(10, i => i + 1), -32, 10) == seq(10, i => i + 1 - 32)
    ensures AddConst(Int32, seq(10, i => i + 1), 32, 10) == seq(10, i => i + 1 + 32)
  {
    AddExact(Int32, seq(10, i => i + 1), -32);
    AddExact(Int32, seq(10, i => i + 1), 32);
  }

  /** orc_add, u32: adding a constant to ten elements. */
  lemma OrcAddU32()
    ensures AddConst(UInt32, seq(10, i => i + 1), 33, 10) == seq(10, i => i + 1 + 33)
  {
    AddExact(UInt32, seq(10, i => i + 1), 33);
  }

  /** orc_mul, s8: multiplying ten elements by a constant. */
  lemma OrcMulS8()
    ensures MulConst(Int8, seq(10, i => i + 1), -3, 10) == seq(10, i => (i + 1) * -3)
    ensures MulConst(Int8, seq(10, i => i + 1), 5, 10) == seq(10, i => (i + 1) * 5)
  {
    MulExact(Int8, seq(10, i => i + 1), -3);
    MulExact(Int8, seq(10, i => i + 1), 5);
  }

  /** orc_mul, u8: multiplying ten elements by a constant. */
  lemma OrcMulU8()
    ensures MulConst(UInt8, seq(10, i => i + 1), 3, 10) == seq(10, i => (i + 1) * 3)
  {
    MulExact(UInt8, seq(10, i => i + 1), 3);
  }

  /** orc_mul, s16: multiplying ten elements by a constant. */
  lemma OrcMulS16()
    ensures MulConst(Int16, seq(10, i => i + 1), -16, 10) == seq(10, i => (i + 1) * -16)
    ensures MulConst(Int16, seq(10, i => i + 1), 16, 10) == seq(10, i => (i + 1) * 16)
  {
    MulExact(Int16, seq(10, i => i + 1), -16);
    MulExact(Int16, seq(10, i => i + 1), 16);
  }

  /** orc_mul, u16: multiplying ten elements by a constant. */
  lemma OrcMulU16()
    ensures MulConst(UInt16, seq(10, i => i + 1), 17, 10) == seq(10, i => (i + 1) * 17)
  {
    MulExact(UInt16, seq(10, i => i + 1), 17);
  }

  /** orc_mul, s32: multiplying ten elements by a constant. */
  lemma OrcMulS32()
    ensures MulConst(Int32, seq(10, i => i + 1), -32, 10) == seq(10, i => (i + 1) * -32)
    ensures MulConst(Int32, seq(10, i => i + 1), 32, 10) == seq(10, i => (i + 1) * 32)
  {
    MulExact(Int32, seq(10, i => i + 1), -32);
    MulExact(Int32, seq(10, i => i + 1), 32);
  }

  /** orc_mul, u32: multiplying ten elements by a constant. */
  lemma OrcMulU32()
    ensures MulConst(UInt32, seq(10, i => i + 1), 33, 10) == seq(10, i => (i + 1) * 33)
  {
    MulExact(UInt32, seq(10, i => i + 1), 33);
  }

  /** Conversion to an integer type shifts each value by j windows of the target. */
  lemma IntegerTarget(from: ElementType, to: ElementType, xs: seq<int>, j: int, ys: seq<int>)
    requires IsInteger(to) && |ys| == |xs|
    requires forall k :: 0 <= k < |xs| ==> InRange(from, xs[k])
    requires forall k :: 0 <= k < |xs| ==> ys[k] == xs[k] + Modulus(to) * j && InRange(to, ys[k])
    requires IsFloat(from) ==> forall k :: 0 <= k < |xs| ==> InRange(SignedOf(to), xs[k])
    ensures ConvertsTo(from, to, xs, ys)
  {
    assert forall k :: 0 <= k < |xs| ==> Convertible(from, to, xs[k]);
    var zs := ConvSeq(from, to, xs);
    forall k | 0 <= k < |xs|
      ensures zs[k] == ys[k]
    {
      assert zs[k] == Wrap(to, xs[k]);
      WrapShift(to, xs[k], j);
    }
    assert zs == ys;
  }

  /** Conversion to a floating type keeps each value (a uint32 is read as int32 first). */
  lemma FloatTarget(from: ElementType, to: ElementType, xs: seq<int>, ys: seq<int>)
    requires IsFloat(to) && |ys| == |xs|
    requires forall k :: 0 <= k < |xs| ==> InRange(from, xs[k]) && InRange(to, ys[k])
    requires forall k :: 0 <= k < |xs| ==>
      ys[k] == if from == UInt32 && xs[k] >= 0x8000_0000 then xs[k] - 0x1_0000_0000 else xs[k]
    ensures ConvertsTo(from, to, xs, ys)
  {
    forall k | 0 <= k < |xs|
      ensures FloatSource(from, xs[k]) == ys[k]
    {
      if from == UInt32 {
        WrapShift(Int32, xs[k], if xs[k] >= 0x8000_0000 then -1 else 0);
      }
    }
  }

  /** The source values of the signed and floating conversion cases: -(i + 1). */
  function NegativeSource(): seq<int> {
    seq(10, i => -(i + 1))
  }

  /** What -(i + 1) converts to: itself, except that an unsigned N-bit target wraps to 2^N - (i + 1). */
  function FromNegative(to: ElementType): seq<int> {
    if to == UInt8 then seq(10, i => 0x100 - (i + 1))
    else if to == UInt16 then seq(10, i => 0x1_0000 - (i + 1))
    else if to == UInt32 then seq(10, i => 0x1_0000_0000 - (i + 1))
    else NegativeSource()
  }

  /** The source values of the unsigned conversion case of a type: its maximum minus i. */
  function MaxSource(from: ElementType): seq<int>
    requires IsInteger(from)
  {
    seq(10, i => MaxValue(from) - i)
  }

  /** What 255 - i converts to: itself, except -1 - i in int8. */
  function FromMaxUInt8(to: ElementType): seq<int> {
    if to == Int8 then seq(10, i => -1 - i) else seq(10, i => 0xFF - i)
  }

  /** What 65535 - i converts to: -1 - i in the signed types of 8 and 16 bits, 255 - i in uint8, itself otherwise. */
  function FromMaxUInt16(to: ElementType): seq<int> {
    if to == Int8 then seq(10, i => -1 - i)
    else if to == UInt8 then seq(10, i => 0xFF - i)
    else if to == Int16 then seq(10, i => -1 - i)
    else seq(10, i => 0xFFFF - i)
  }

  /**
   * What 2^32 - 1 - i converts to: -1 - i in each signed type, 2^N - 1 - i in
   * each unsigned N-bit type, and -(i + 1) in a floating type, since it is
   * read as int32 first.
   */
  function FromMaxUInt32(to: ElementType): seq<int> {
    if to == Int8 then seq(10, i => -1 - i)
    else if to == UInt8 then seq(10, i => 0xFF - i)
    else if to == Int16 then seq(10, i => -1 - i)
    else if to == UInt16 then seq(10, i => 0xFFFF - i)
    else if to == Int32 then seq(10, i => -1 - i)
    else if to == Float32 then seq(10, i => -(i + 1))
    else if to == Float64 then seq(10, i => -(i + 1))
    else seq(10, i => 0xFFFF_FFFF - i)
  }

  /** orc_conv_s8: -(i + 1), for i < 10, to each 8-, 16- and 32-bit and floating type. */
  lemma OrcConvS8(to: ElementType)
    requires to != Int64 && to != UInt64
    ensures ConvertsTo(Int8, to, NegativeSource(), FromNegative(to))
  {
    var xs := NegativeSource();
    match to
    case Int8 => IntegerTarget(Int8, Int8, xs, 0, FromNegative(to));
    case UInt8 => IntegerTarget(Int8, UInt8, xs, 1, FromNegative(to));
    case Int16 => IntegerTarget(Int8, Int16, xs, 0, FromNegative(to));
    case UInt16 => IntegerTarget(Int8, UInt16, xs, 1, FromNegative(to));
    case Int32 => IntegerTarget(Int8, Int32, xs, 0, FromNegative(to));
    case UInt32 => IntegerTarget(Int8, UInt32, xs, 1, FromNegative(to));
    case Float32 => FloatTarget(Int8, Float32, xs, FromNegative(to));
    case Float64 => FloatTarget(Int8, Float64, xs, FromNegative(to));
  }

  /** orc_conv_u8: 255 - i, for i < 10, to each 8-, 16- and 32-bit and floating type. */
  lemma OrcConvU8(to: ElementType)
    requires to != Int64 && to != UInt64
    ensures ConvertsTo(UInt8, to, MaxSource(UInt8), FromMaxUInt8(to))
  {
    var xs := MaxSource(UInt8);
    match to
    case Int8 => IntegerTarget(UInt8, Int8, xs, -1, FromMaxUInt8(to));
    case UInt8 => IntegerTarget(UInt8, UInt8, xs, 0, FromMaxUInt8(to));
    case Int16 => IntegerTarget(UInt8, Int16, xs, 0, FromMaxUInt8(to));
    case UInt16 => IntegerTarget(UInt8, UInt16, xs, 0, FromMaxUInt8(to));
    case Int32 => IntegerTarget(UInt8, Int32, xs, 0, FromMaxUInt8(to));
    case UInt32 => IntegerTarget(UInt8, UInt32, xs, 0, FromMaxUInt8(to));
    case Float32 => FloatTarget(UInt8, Float32, xs, FromMaxUInt8(to));
    case Float64 => FloatTarget(UInt8, Float64, xs, FromMaxUInt8(to));
  }

  /** orc_conv_s16: -(i + 1), for i < 10, to each 8-, 16- and 32-bit and floating type. */
  lemma OrcConvS16(to: ElementType)
    requires to != Int64 && to != UInt64
    ensures ConvertsTo(Int16, to, NegativeSource(), FromNegative(to))
  {
    var xs := NegativeSource();
    match to
    case Int8 => IntegerTarget(Int16, Int8, xs, 0, FromNegative(to));
    case UInt8 => IntegerTarget(Int16, UInt8, xs, 1, FromNegative(to));
    case Int16 => IntegerTarget(Int16, Int16, xs, 0, FromNegative(to));
    case UInt16 => IntegerTarget(Int16, UInt16, xs, 1, FromNegative(to));
    case Int32 => IntegerTarget(Int16, Int32, xs, 0, FromNegative(to));
    case UInt32 => IntegerTarget(Int16, UInt32, xs, 1, FromNegative(to));
    case Float32 => FloatTarget(Int16, Float32, xs, FromNegative(to));
    case Float64 => FloatTarget(Int16, Float64, xs, FromNegative(to));
  }

  /** orc_conv_u16: 65535 - i, for i < 10, to each 8-, 16- and 32-bit and floating type. */
  lemma OrcConvU16(to: ElementType)
    requires to != Int64 && to != UInt64
    ensures ConvertsTo(UInt16, to, MaxSource(UInt16), FromMaxUInt16(to))
  {
    var xs := MaxSource(UInt16);
    match to
    case Int8 => IntegerTarget(UInt16, Int8, xs, -0x100, FromMaxUInt16(to));
    case UInt8 => IntegerTarget(UInt16, UInt8, xs, -0xFF, FromMaxUInt16(to));
    case Int16 => IntegerTarget(UInt16, Int16, xs, -1, FromMaxUInt16(to));
    case UInt16 => IntegerTarget(UInt16, UInt16, xs, 0, FromMaxUInt16(to));
    case Int32 => IntegerTarget(UInt16, Int32, xs, 0, FromMaxUInt16(to));
    case UInt32 => IntegerTarget(UInt16, UInt32, xs, 0, FromMaxUInt16(to));
    case Float32 => FloatTarget(UInt16, Float32, xs, FromMaxUInt16(to));
    case Float64 => FloatTarget(UInt16, Float64, xs, FromMaxUInt16(to));
  }

  /** orc_conv_s32: -(i + 1), for i < 10, to each 8-, 16- and 32-bit and floating type. */
  lemma OrcConvS32(to: ElementType)
    requires to != Int64 && to != UInt64
    ensures ConvertsTo(Int32, to, NegativeSource(), FromNegative(to))
  {
    var xs := NegativeSource();
    match to
    case Int8 => IntegerTarget(Int32, Int8, xs, 0, FromNegative(to));
    case UInt8 => IntegerTarget(Int32, UInt8, xs, 1, FromNegative(to));
    case Int16 => IntegerTarget(Int32, Int16, xs, 0, FromNegative(to));
    case UInt16 => IntegerTarget(Int32, UInt16, xs, 1, FromNegative(to));
    case Int32 => IntegerTarget(Int32, Int32, xs, 0, FromNegative(to));
    case UInt32 => IntegerTarget(Int32, UInt32, xs, 1, FromNegative(to));
    case Float32 => FloatTarget(Int32, Float32, xs, FromNegative(to));
    case Float64 => FloatTarget(Int32, Float64, xs, FromNegative(to));
  }

  /** orc_conv_u32: 2^32 - 1 - i, for i < 10, to each 8-, 16- and 32-bit and floating type. */
  lemma OrcConvU32(to: ElementType)
    requires to != Int64 && to != UInt64
    ensures ConvertsTo(UInt32, to, MaxSource(UInt32), FromMaxUInt32(to))
  {
    var xs := MaxSource(UInt32);
    match to
    case Int8 => IntegerTarget(UInt32, Int8, xs, -0x100_0000, FromMaxUInt32(to));
    case UInt8 => IntegerTarget(UInt32, UInt8, xs, -0xFF_FFFF, FromMaxUInt32(to));
    case Int16 => IntegerTarget(UInt32, Int16, xs, -0x1_0000, FromMaxUInt32(to));
    case UInt16 => IntegerTarget(UInt32, UInt16, xs, -0xFFFF, FromMaxUInt32(to));
    case Int32 => IntegerTarget(UInt32, Int32, xs, -1, FromMaxUInt32(to));
    case UInt32 => IntegerTarget(UInt32, UInt32, xs, 0, FromMaxUInt32(to));
    case Float32 => FloatTarget(UInt32, Float32, xs, FromMaxUInt32(to));
    case Float64 => FloatTarget(UInt32, Float64, xs, FromMaxUInt32(to));
  }

  /** orc_conv_f32: -(i + 1), for i < 10, to each 8-, 16- and 32-bit and floating type. */
  lemma OrcConvF32(to: ElementType)
    requires to != Int64 && to != UInt64
    ensures ConvertsTo(Float32, to, NegativeSource(), FromNegative(to))
  {
    var xs := NegativeSource();
    match to
    case Int8 => IntegerTarget(Float32, Int8, xs, 0, FromNegative(to));
    case UInt8 => IntegerTarget(Float32, UInt8, xs, 1, FromNegative(to));
    case Int16 => IntegerTarget(Float32, Int16, xs, 0, FromNegative(to));
    case UInt16 => IntegerTarget(Float32, UInt16, xs, 1, FromNegative(to));
    case Int32 => IntegerTarget(Float32, Int32, xs, 0, FromNegative(to));
    case UInt32 => IntegerTarget(Float32, UInt32, xs, 1, FromNegative(to));
    case Float32 => FloatTarget(Float32, Float32, xs, FromNegative(to));
    case Float64 => FloatTarget(Float32, Float64, xs, FromNegative(to));
  }

  /** orc_conv_f64: -(i + 1), for i < 10, to each 8-, 16- and 32-bit and floating type. */
  lemma OrcConvF64(to: ElementType)
    requires to != Int64 && to != UInt64
    ensures ConvertsTo(Float64, to, NegativeSource(), FromNegative(to))
  {
    var xs := NegativeSource();
    match to
    case Int8 => IntegerTarget(Float64, Int8, xs, 0, FromNegative(to));
    case UInt8 => IntegerTarget(Float64, UInt8, xs, 1, FromNegative(to));
    case Int16 => IntegerTarget(Float64, Int16, xs, 0, FromNegative(to));
    case UInt16 => IntegerTarget(Float64, UInt16, xs, 1, FromNegative(to));
    case Int32 => IntegerTarget(Float64, Int32, xs, 0, FromNegative(to));
    case UInt32 => IntegerTarget(Float64, UInt32, xs, 1, FromNegative(to));
    case Float32 => FloatTarget(Float64, Float32, xs, FromNegative(to));
    case Float64 => FloatTarget(Float64, Float64, xs, FromNegative(to));
  }

  /**
   * orc_performance, integer part: on n zero bytes, the kernel and the plain
   * loop each add 2, then each multiply by 2, giving 16 in every element,
   * which converts to 16 in float32.
   */
  lemma OrcPerformance(n: nat)
    ensures var zeros := seq(n, i => 0);
      var added := AddConst(UInt8, AddConst(UInt8, zeros, 2, n), 2, n);
      var scaled := MulConst(UInt8, MulConst(UInt8, added, 2, n), 2, n);
      && AddConst(UInt8, zeros, 2, n) == seq(n, i => 2)
      && added == seq(n, i => 4)
      && MulConst(UInt8, added, 2, n) == seq(n, i => 8)
      && scaled == seq(n, i => 16)
      && ConvertsTo(UInt8, Float32, scaled, seq(n, i => 16))
  {
    var zeros := seq(n, i => 0);
    AddExact(UInt8, zeros, 2);
    AddExact(UInt8, seq(n, i => 2), 2);
    assert AddConst(UInt8, zeros, 2, n) == seq(n, i => 2);
    var added := AddConst(UInt8, seq(n, i => 2), 2, n);
    assert added == seq(n, i => 4);
    MulExact(UInt8, added, 2);
    assert MulConst(UInt8, added, 2, n) == seq(n, i => 8);
    MulExact(UInt8, seq(n, i => 8), 2);
    assert MulConst(UInt8, seq(n, i => 8), 2, n) == seq(n, i => 16);
    FloatTarget(UInt8, Float32, seq(n, i => 16), seq(n, i => 16));
  }
}
