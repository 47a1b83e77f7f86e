/**
 * The operation chains of the tensor transform element: "typecast" mode
 * (one conversion) and "arithmetic" mode (an ordered list of typecast, add,
 * mul and div steps).  The output element type is fixed by the first
 * typecast of the chain; later typecasts are ignored.
 */
module TensorTransform {
  import opened TensorTypes
  import opened OrcKernels
  import opened Dimension

  datatype Operator = Add | Mul | Div

  /** One step of a chain; an arithmetic operand is a decimal literal, hence a real. */
  datatype Step = Typecast(target: ElementType) | Arith(op: Operator, operand: real)

  /** The chain of typecast mode with the given target type. */
  function TypecastMode(target: ElementType): (steps: seq<Step>)
    ensures FirstTypecastAt(steps, 0) && steps[0].target == target
    ensures forall t :: OutputType(steps, t) == target
  {
    [Typecast(target)]
  }

  predicate NoTypecast(steps: seq<Step>) {
    forall k :: 0 <= k < |steps| ==> !steps[k].Typecast?
  }

  /** Step k is the first typecast of the chain. */
  predicate FirstTypecastAt(steps: seq<Step>, k: nat) {
    k < |steps| && steps[k].Typecast? && NoTypecast(steps[..k])
  }

  /** The output element type: the target of the first typecast, or the input type. */
  function OutputType(steps: seq<Step>, inType: ElementType): (r: ElementType)
    ensures r == inType || exists k :: 0 <= k < |steps| && steps[k] == Typecast(r)
  {
    if steps == [] then inType
    else if steps[0].Typecast? then steps[0].target
    else OutputType(steps[1..], inType)
  }

  /** Without a typecast the output type is the input type. */
  lemma {:induction false} OutputTypeNoTypecast(steps: seq<Step>, inType: ElementType)
    requires NoTypecast(steps)
    ensures OutputType(steps, inType) == inType
  {
    if steps != [] {
      OutputTypeNoTypecast(steps[1..], inType);
    }
  }

  /** The output type is the target of the first typecast, whatever follows it. */
  lemma {:induction false} OutputTypeFirst(steps: seq<Step>, k: nat, inType: ElementType)
    requires FirstTypecastAt(steps, k)
    ensures OutputType(steps, inType) == steps[k].target
  {
    if k > 0 {
      assert steps[1..][..k - 1] == steps[1..k];
      assert !steps[..k][0].Typecast?;
      OutputTypeFirst(steps[1..], k - 1, inType);
    }
  }

  /** The arithmetic steps of a chain, in order. */
  function Arithmetic(steps: seq<Step>): (a: seq<Step>)
    ensures NoTypecast(a) && |a| <= |steps|
  {
    if steps == [] then []
    else if steps[0].Typecast? then Arithmetic(steps[1..])
    else [steps[0]] + Arithmetic(steps[1..])
  }

  /** The steps that take effect: every arithmetic step, and the first typecast only. */
  function Effective(steps: seq<Step>): (e: seq<Step>)
    ensures |e| <= |steps|
    ensures NoTypecast(steps) ==> e == steps
  {
    if steps == [] then []
    else if steps[0].Typecast? then [steps[0]] + Arithmetic(steps[1..])
    else [steps[0]] + Effective(steps[1..])
  }

  /** The chain that takes effect keeps every arithmetic step in order, and the output type. */
  lemma {:induction false} EffectiveKeeps(steps: seq<Step>, inType: ElementType)
    ensures Arithmetic(Effective(steps)) == Arithmetic(steps)
    ensures OutputType(Effective(steps), inType) == OutputType(steps, inType)
  {
    if steps != [] {
      if steps[0].Typecast? {
        var e := Effective(steps);
        assert e[0] == steps[0] && e[1..] == Arithmetic(steps[1..]);
        ArithmeticIdempotent(steps[1..]);
      } else {
        var e := Effective(steps);
        assert e[0] == steps[0] && e[1..] == Effective(steps[1..]);
        EffectiveKeeps(steps[1..], inType);
      }
    }
  }

  /** The chain that takes effect holds at most one typecast, and it comes first among typecasts. */
  lemma {:induction false} EffectiveOneTypecast(steps: seq<Step>, k: nat, j: nat)
    requires k < j < |Effective(steps)|
    requires Effective(steps)[k].Typecast?
    ensures !Effective(steps)[j].Typecast?
  {
    if steps[0].Typecast? {
      var a := Arithmetic(steps[1..]);
      assert Effective(steps)[j] == a[j - 1];
    } else {
      EffectiveOneTypecast(steps[1..], k - 1, j - 1);
    }
  }

  lemma {:induction false} ArithmeticIdempotent(steps: seq<Step>)
    ensures Arithmetic(Arithmetic(steps)) == Arithmetic(steps)
  {
    if steps != [] {
      var a := Arithmetic(steps);
      ArithmeticIdempotent(steps[1..]);
      if !steps[0].Typecast? {
        assert a[0] == steps[0] && a[1..] == Arithmetic(steps[1..]);
      }
    }
  }

  /** C integer division, truncating toward zero. */
  function TruncDiv(a: int, b: int): (q: int)
    requires b != 0
    ensures a >= 0 && b > 0 ==> q == a / b
    ensures a >= 0 ==> 0 <= a - q * b < (if b < 0 then -b else b)
    ensures a < 0 ==> -(if b < 0 then -b else b) < a - q * b <= 0
  {
    var n := if a < 0 then -a else a;
    var d := if b < 0 then -b else b;
    var r := if (a < 0) == (b < 0) then n / d else -(n / d);
    assert n == d * (n / d) + n % d && 0 <= n % d < d;
    assert a - r * b == (if a < 0 then -(n % d) else n % d) by {
      if a < 0 && b < 0 {
        assert r * b == -(d * (n / d));
      } else if a < 0 {
        assert r * b == -(d * (n / d));
      } else if b < 0 {
        assert r * b == d * (n / d);
      } else {
        assert r * b == d * (n / d);
      }
    }
    r
  }

  /** The operand as a value of the working integer type. */
  function OperandOf(t: ElementType, c: real): int
    requires IsInteger(t)
  {
    Wrap(t, c.Floor)
  }

  /**
   * The steps the model evaluates from (t, v): a typecast in the domain of
   * the conversion; an arithmetic step in an integer working type with an
   * integral operand, and a non-zero divisor.
   */
  predicate StepDefined(s: Step, t: ElementType, v: int) {
    match s
    case Typecast(u) => Convertible(t, u, v)
    case Arith(op, c) =>
      && IsInteger(t) && InRange(t, v) && c == c.Floor as real
      && (op == Div ==> OperandOf(t, c) != 0)
  }

  /** The working type after a step. */
  function StepType(s: Step, t: ElementType): ElementType {
    if s.Typecast? then s.target else t
  }

  /** The working value after a step, stored back at the working width. */
  function StepValue(s: Step, t: ElementType, v: int): (r: int)
    requires StepDefined(s, t, v)
    ensures InRange(StepType(s, t), r)
  {
    match s
    case Typecast(u) => ConvElem(t, u, v)
    case Arith(Add, c) => Wrap(t, v + OperandOf(t, c))
    case Arith(Mul, c) => Wrap(t, v * OperandOf(t, c))
    case Arith(Div, c) => Wrap(t, TruncDiv(v, OperandOf(t, c)))
  }

  predicate Defined(steps: seq<Step>, t: ElementType, v: int) {
    if steps == [] then InRange(t, v)
    else StepDefined(steps[0], t, v) && Defined(steps[1..], StepType(steps[0], t), StepValue(steps[0], t, v))
  }

  /** The working type after running steps from type t. */
  function RunType(steps: seq<Step>, t: ElementType): (r: ElementType)
    ensures r == t || exists k :: 0 <= k < |steps| && steps[k] == Typecast(r)
  {
    if steps == [] then t else RunType(steps[1..], StepType(steps[0], t))
  }

  /** The working value after running steps, left to right, from (t, v). */
  function RunValue(steps: seq<Step>, t: ElementType, v: int): (r: int)
    requires Defined(steps, t, v)
    ensures InRange(RunType(steps, t), r)
  {
    if steps == [] then v
    else RunValue(steps[1..], StepType(steps[0], t), StepValue(steps[0], t, v))
  }

  /** Running a concatenation is running its parts one after the other. */
  lemma {:induction false} RunAppend(a: seq<Step>, b: seq<Step>, t: ElementType, v: int)
    requires Defined(a + b, t, v)
    ensures Defined(a, t, v)
    ensures Defined(b, RunType(a, t), RunValue(a, t, v))
    ensures RunType(a + b, t) == RunType(b, RunType(a, t))
    ensures RunValue(a + b, t, v) == RunValue(b, RunType(a, t), RunValue(a, t, v))
  {
    if a == [] {
      assert a + b == b;
    } else {
      assert (a + b)[0] == a[0] && (a + b)[1..] == a[1..] + b;
      RunAppend(a[1..], b, StepType(a[0], t), StepValue(a[0], t, v));
    }
  }

  /** Arithmetic steps keep the working type. */
  lemma {:induction false} RunTypeNoTypecast(steps: seq<Step>, t: ElementType)
    requires NoTypecast(steps)
    ensures RunType(steps, t) == t
  {
    if steps != [] {
      RunTypeNoTypecast(steps[1..], t);
    }
  }

  /**
   * The element type of the values the chain produces is the negotiated
   * output type: executing the effective steps ends in OutputType.
   */
  lemma {:induction false} RunTypeIsOutputType(steps: seq<Step>, t: ElementType)
    ensures RunType(Effective(steps), t) == OutputType(steps, t)
  {
    if steps != [] {
      if steps[0].Typecast? {
        RunTypeNoTypecast(Arithmetic(steps[1..]), steps[0].target);
      } else {
        RunTypeIsOutputType(steps[1..], t);
      }
    }
  }

  /** One element of the transform: the effective steps run from the input type. */
  function TransformElem(steps: seq<Step>, inType: ElementType, v: int): (r: int)
    requires Defined(Effective(steps), inType, v)
    ensures InRange(OutputType(steps, inType), r)
  {
    RunTypeIsOutputType(steps, inType);
    RunValue(Effective(steps), inType, v)
  }

  /** The transform of a whole buffer, element by element. */
  function TransformBuffer(steps: seq<Step>, inType: ElementType, xs: seq<int>): (ys: seq<int>)
    requires forall k :: 0 <= k < |xs| ==> Defined(Effective(steps), inType, xs[k])
    ensures |ys| == |xs|
    ensures forall k :: 0 <= k < |ys| ==> InRange(OutputType(steps, inType), ys[k])
  {
    seq(|xs|, k requires 0 <= k < |xs| => TransformElem(steps, inType, xs[k]))
  }

  /**
   * The output buffer holds one in-range element of the output type per input
   * element: for a tensor of a dimension, the byte size of that dimension in
   * the output type.
   */
  lemma TransformBufferSize(steps: seq<Step>, inType: ElementType, xs: seq<int>, dims: seq<nat>)
    requires forall k :: 0 <= k < |xs| ==> Defined(Effective(steps), inType, xs[k])
    requires |xs| == Dimension.ElementCount(dims)
    ensures |TransformBuffer(steps, inType, xs)| * Size(OutputType(steps, inType))
            == Dimension.ByteSize(OutputType(steps, inType), dims)
    ensures forall k :: 0 <= k < |xs| ==> InRange(OutputType(steps, inType), TransformBuffer(steps, inType, xs)[k])
  {
  }

  /** Typecast mode outputs the target type and keeps every value both types hold. */
  lemma TypecastKeepsValue(inType: ElementType, target: ElementType, v: int)
    requires InRange(inType, v) && InRange(target, v)
    requires IsFloat(inType) && IsInteger(target) ==> InRange(SignedOf(target), v)
    requires inType == UInt32 && IsFloat(target) ==> v < 0x8000_0000
    ensures OutputType(TypecastMode(target), inType) == target
    ensures Defined(Effective(TypecastMode(target)), inType, v)
    ensures TransformElem(TypecastMode(target), inType, v) == v
  {
    var steps := TypecastMode(target);
    assert Effective(steps) == steps;
    if inType == UInt32 && IsFloat(target) {
      WrapIdentity(Int32, v);
    }
    if IsInteger(target) {
      WrapIdentity(target, v);
    }
    assert StepDefined(steps[0], inType, v);
    assert ConvElem(inType, target, v) == v;
    assert RunValue(steps, inType, v) == RunValue(steps[1..], target, ConvElem(inType, target, v));
  }
}
