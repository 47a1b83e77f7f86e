/**
 * The typecast and arithmetic cases of tensor_transform: each input is a
 * tensor of dimension "5" (five elements), pushed as three buffers whose
 * values are (i + 1) * (b + 1), optionally negated, so every value lies in
 * 1..15 or -15..-1.
 */
module TransformCases {
  import opened TensorTypes
  import opened OrcKernels
  import opened Dimension
  import opened TensorTransform

  /** The dimension every case declares: "5". */
  const Five: seq<nat> := [5, 1, 1, 1]

  /** Typecast mode from inType to target keeps every value of lo..hi, in a buffer of the target's width. */
  predicate TypecastCase(inType: ElementType, target: ElementType, lo: int, hi: int) {
    && OutputType(TypecastMode(target), inType) == target
    && ByteSize(target, Five) == 5 * Size(target)
    && forall v :: lo <= v <= hi ==>
         Defined(Effective(TypecastMode(target)), inType, v) && TransformElem(TypecastMode(target), inType, v) == v
  }

  lemma TypecastRange(inType: ElementType, target: ElementType, lo: int, hi: int)
    requires forall v :: lo <= v <= hi ==> InRange(inType, v) && InRange(target, v)
    requires IsFloat(inType) && IsInteger(target) ==> forall v :: lo <= v <= hi ==> InRange(SignedOf(target), v)
    requires inType == UInt32 && IsFloat(target) ==> hi < 0x8000_0000
    ensures TypecastCase(inType, target, lo, hi)
  {
    forall v | lo <= v <= hi
      ensures Defined(Effective(TypecastMode(target)), inType, v) && TransformElem(TypecastMode(target), inType, v) == v
    {
      TypecastKeepsValue(inType, target, v);
    }
    OutputTypeFirst(TypecastMode(target), 0, inType);
    ParseFive();
  }

  /** typecast_1: uint8 to uint32, 20 output bytes. */
  lemma Typecast1()
    ensures TypecastCase(UInt8, UInt32, 1, 15) && ByteSize(UInt32, Five) == 20
  {
    TypecastRange(UInt8, UInt32, 1, 15);
  }

  /** typecast_2: uint32 to float64, 40 output bytes. */
  lemma Typecast2()
    ensures TypecastCase(UInt32, Float64, 1, 15) && ByteSize(Float64, Five) == 40
  {
    TypecastRange(UInt32, Float64, 1, 15);
  }

  /** typecast_3: negative int32 to float32. */
  lemma Typecast3()
    ensures TypecastCase(Int32, Float32, -15, -1) && ByteSize(Float32, Five) == 20
  {
    TypecastRange(Int32, Float32, -15, -1);
  }

  /** typecast_4: negative int8 to float32. */
  lemma Typecast4()
    ensures TypecastCase(Int8, Float32, -15, -1)
  {
    TypecastRange(Int8, Float32, -15, -1);
  }

  /** typecast_5: uint8 to float32. */
  lemma Typecast5()
    ensures TypecastCase(UInt8, Float32, 1, 15)
  {
    TypecastRange(UInt8, Float32, 1, 15);
  }

  /** typecast_6: negative int16 to float32. */
  lemma Typecast6()
    ensures TypecastCase(Int16, Float32, -15, -1)
  {
    TypecastRange(Int16, Float32, -15, -1);
  }

  /** typecast_7: uint16 to float32. */
  lemma Typecast7()
    ensures TypecastCase(UInt16, Float32, 1, 15)
  {
    TypecastRange(UInt16, Float32, 1, 15);
  }

  /** arithmetic_1 and arithmetic_2: a chain without a typecast keeps the input type and size. */
  lemma ArithmeticKeepsType()
    ensures OutputType([Arith(Add, 0.5)], Float32) == Float32
    ensures OutputType([Arith(Mul, 0.5)], Float64) == Float64
  {
    OutputTypeNoTypecast([Arith(Add, 0.5)], Float32);
    OutputTypeNoTypecast([Arith(Mul, 0.5)], Float64);
  }

  /** arithmetic_3: "typecast:float32,add:.5,mul:0.2" on uint8 yields float32, 20 bytes. */
  lemma Arithmetic3()
    ensures var steps := [Typecast(Float32), Arith(Add, 0.5), Arith(Mul, 0.2)];
      OutputType(steps, UInt8) == Float32 && ByteSize(OutputType(steps, UInt8), Five) == 20
  {
    OutputTypeFirst([Typecast(Float32), Arith(Add, 0.5), Arith(Mul, 0.2)], 0, UInt8);
    ParseFive();
  }

  /**
   * arithmetic_4: "typecast:float64,add:0.2,add:0.1,typecast:uint16" on uint8
   * yields float64, 40 bytes: the second typecast is dropped.
   */
  lemma Arithmetic4()
    ensures var steps := [Typecast(Float64), Arith(Add, 0.2), Arith(Add, 0.1), Typecast(UInt16)];
      && OutputType(steps, UInt8) == Float64
      && Effective(steps) == steps[..3]
      && ByteSize(OutputType(steps, UInt8), Five) == 40
  {
    var steps := [Typecast(Float64), Arith(Add, 0.2), Arith(Add, 0.1), Typecast(UInt16)];
    OutputTypeFirst(steps, 0, UInt8);
    DropsLaterTypecast();
    ParseFive();
    assert ByteSize(Float64, Five) == 5 * 8;
  }

  /** The typecast at the end of the arithmetic_4 chain takes no effect. */
  lemma DropsLaterTypecast()
    ensures var steps := [Typecast(Float64), Arith(Add, 0.2), Arith(Add, 0.1), Typecast(UInt16)];
      Effective(steps) == steps[..3]
  {
    var steps := [Typecast(Float64), Arith(Add, 0.2), Arith(Add, 0.1), Typecast(UInt16)];
    var rest := steps[1..];
    assert rest == [Arith(Add, 0.2), Arith(Add, 0.1), Typecast(UInt16)];
    assert rest[1..] == [Arith(Add, 0.1), Typecast(UInt16)];
    assert rest[1..][1..] == [Typecast(UInt16)];
    assert Arithmetic(rest[1..][1..]) == [] by {
      assert rest[1..][1..][1..] == [];
    }
    assert Arithmetic(rest) == [Arith(Add, 0.2), Arith(Add, 0.1)];
    assert Effective(steps) == [steps[0]] + Arithmetic(rest);
  }

  /** The arithmetic part of arithmetic_5 on int32: x * 2 / 2 - 1. */
  lemma MulDivAddInt32(x: int)
    requires 0 <= x <= 0xFF
    ensures var arith := [Arith(Mul, 2.0), Arith(Div, 2.0), Arith(Add, -1.0)];
      Defined(arith, Int32, x) && RunValue(arith, Int32, x) == x - 1
  {
    var arith := [Arith(Mul, 2.0), Arith(Div, 2.0), Arith(Add, -1.0)];
    assert OperandOf(Int32, 2.0) == 2 by {
      WrapIdentity(Int32, 2);
    }
    assert OperandOf(Int32, -1.0) == -1 by {
      WrapIdentity(Int32, -1);
    }
    var last := [Arith(Add, -1.0)];
    assert RunValue(last, Int32, x) == x - 1 && Defined(last, Int32, x) by {
      WrapIdentity(Int32, x - 1);
      assert StepValue(last[0], Int32, x) == x - 1;
      assert last[1..] == [];
    }
    var halve := [Arith(Div, 2.0)] + last;
    assert RunValue(halve, Int32, x * 2) == x - 1 && Defined(halve, Int32, x * 2) by {
      WrapIdentity(Int32, x);
      assert TruncDiv(x * 2, 2) == x;
      assert StepValue(halve[0], Int32, x * 2) == x;
      assert halve[1..] == last;
    }
    assert arith == [Arith(Mul, 2.0)] + halve;
    WrapIdentity(Int32, x * 2);
    assert StepValue(arith[0], Int32, x) == x * 2;
    assert arith[1..] == halve;
  }

  /**
   * arithmetic_5: "typecast:int32,mul:2,div:2,add:-1" on uint8 yields int32,
   * 20 bytes, and every byte x becomes x - 1.
   */
  lemma Arithmetic5(x: int)
    requires InRange(UInt8, x)
    ensures var steps := [Typecast(Int32), Arith(Mul, 2.0), Arith(Div, 2.0), Arith(Add, -1.0)];
      && OutputType(steps, UInt8) == Int32
      && ByteSize(OutputType(steps, UInt8), Five) == 20
      && Defined(Effective(steps), UInt8, x)
      && TransformElem(steps, UInt8, x) == x - 1
  {
    var arith := [Arith(Mul, 2.0), Arith(Div, 2.0), Arith(Add, -1.0)];
    var steps := [Typecast(Int32)] + arith;
    OutputTypeFirst(steps, 0, UInt8);
    assert steps[1..] == arith;
    assert Effective(steps) == steps by {
      assert Arithmetic(arith) == arith;
    }
    ConvWidenUnsigned(UInt8, Int32, x);
    MulDivAddInt32(x);
    ParseFive();
  }
}
