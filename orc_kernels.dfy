/**
 * The element kernels of the tensor transform engine: conversion of an array
 * of one element type into another (nns_orc_conv_X_to_Y) and in-place
 * addition or multiplication by a constant (nns_orc_add_c_X, nns_orc_mul_c_X).
 * Values are integers; see TensorTypes for how floating values are represented.
 */
module OrcKernels {
  import opened TensorTypes

  /** The value a conversion into a floating type starts from: uint32 is read as int32 first. */
  function FloatSource(from: ElementType, v: int): int {
    if from == UInt32 then Wrap(Int32, v) else v
  }

  /**
   * The inputs on which the model determines a conversion: a value of the
   * source type; into a floating type, a result that is exact; from a
   * floating type into an integer type, a value of the signed type of the
   * target's width (the engine converts through it; anything else is
   * undefined behaviour of the C cast).
   */
  predicate Convertible(from: ElementType, to: ElementType, v: int) {
    && InRange(from, v)
    && (IsFloat(to) ==> InRange(to, FloatSource(from, v)))
    && (IsFloat(from) && IsInteger(to) ==> InRange(SignedOf(to), v))
  }

  /** One element of nns_orc_conv_X_to_Y. */
  function ConvElem(from: ElementType, to: ElementType, v: int): (r: int)
    requires Convertible(from, to, v)
    ensures InRange(to, r)
  {
    if IsFloat(to) then FloatSource(from, v) else Wrap(to, v)
  }

  /** The reference meaning of the C cast into an integer type t: the value of t congruent to v modulo 2^width. */
  function CCast(t: ElementType, v: int, r: int): (b: bool)
    requires IsInteger(t)
    ensures b && InRange(t, v) ==> r == v
  {
    var b := InRange(t, r) && (r - v) % Modulus(t) == 0;
    if b && InRange(t, v) then
      WrapUnique(t, v, r);
      WrapIdentity(t, v);
      b
    else b
  }

  /** Integer-to-integer conversion is the C cast, and the C cast has no other result. */
  lemma ConvIsCCast(from: ElementType, to: ElementType, v: int, r: int)
    requires IsInteger(from) && IsInteger(to) && InRange(from, v)
    ensures CCast(to, v, ConvElem(from, to, v))
    ensures CCast(to, v, r) ==> r == ConvElem(from, to, v)
  {
    assert ConvElem(from, to, v) == Wrap(to, v);
    if CCast(to, v, r) {
      WrapUnique(to, v, r);
    }
  }

  /** Converting to the same type is the identity. */
  lemma ConvSameType(t: ElementType, v: int)
    requires InRange(t, v)
    ensures Convertible(t, t, v) && ConvElem(t, t, v) == v
  {
    if IsInteger(t) {
      WrapIdentity(t, v);
    }
  }

  /** Widening an integer keeps every value of the source type's range that the target type also holds. */
  lemma ConvPreservesCommonValues(from: ElementType, to: ElementType, v: int)
    requires IsInteger(from) && IsInteger(to) && InRange(from, v) && InRange(to, v)
    ensures ConvElem(from, to, v) == v
  {
    WrapIdentity(to, v);
  }

  /** Widening an unsigned source zero-extends: the value is kept. */
  lemma ConvWidenUnsigned(from: ElementType, to: ElementType, v: int)
    requires IsInteger(from) && !IsSigned(from) && IsInteger(to) && Size(from) < Size(to)
    requires InRange(from, v)
    ensures ConvElem(from, to, v) == v
  {
    WidthOrder(from, to);
    WrapIdentity(to, v);
  }

  /**
   * Widening a signed source sign-extends: the value is kept in a signed
   * target, and a negative value becomes v + 2^width in an unsigned target
   * (all the new high bits are ones).
   */
  lemma ConvWidenSigned(from: ElementType, to: ElementType, v: int)
    requires IsSigned(from) && IsInteger(to) && Size(from) < Size(to)
    requires InRange(from, v)
    ensures ConvElem(from, to, v) == if IsSigned(to) || v >= 0 then v else v + Modulus(to)
  {
    WidthOrder(from, to);
    if IsSigned(to) || v >= 0 {
      WrapIdentity(to, v);
    } else {
      WrapUnique(to, v, v + Modulus(to));
    }
  }

  /** A wider integer type holds every value of a narrower one. */
  lemma WidthOrder(a: ElementType, b: ElementType)
    requires IsInteger(a) && IsInteger(b) && Size(a) < Size(b)
    ensures 2 * Modulus(a) <= Modulus(b)
    ensures !IsSigned(a) ==> MinValue(b) <= MinValue(a) && MaxValue(a) <= MaxValue(b)
    ensures IsSigned(a) && IsSigned(b) ==> MinValue(b) <= MinValue(a) && MaxValue(a) <= MaxValue(b)
  {
  }

  /** uint32 into a floating type is reinterpreted as int32 first: values above 2^31 - 1 come out negative. */
  lemma ConvUInt32ToFloat(to: ElementType, v: int)
    requires IsFloat(to) && InRange(UInt32, v) && Convertible(UInt32, to, v)
    ensures ConvElem(UInt32, to, v) == if v < 0x8000_0000 then v else v - 0x1_0000_0000
  {
    if v < 0x8000_0000 {
      WrapIdentity(Int32, v);
    } else {
      WrapUnique(Int32, v, v - 0x1_0000_0000);
    }
  }

  /** Every uint32 reinterpreted as int32 is exact in float64, so u32 -> f64 is always determined. */
  lemma UInt32ToFloat64Defined(v: int)
    requires InRange(UInt32, v)
    ensures Convertible(UInt32, Float64, v)
  {
  }

  /** A floating value into an unsigned type goes through the signed type of that width: -1.0 becomes 2^width - 1. */
  lemma ConvFloatToUnsigned(from: ElementType, to: ElementType, v: int)
    requires IsFloat(from) && IsInteger(to) && !IsSigned(to)
    requires Convertible(from, to, v)
    ensures ConvElem(from, to, v) == if v < 0 then v + Modulus(to) else v
  {
    if v < 0 {
      WrapUnique(to, v, v + Modulus(to));
    } else {
      WrapIdentity(to, v);
    }
  }

  /** A floating value into a signed type is kept. */
  lemma ConvFloatToSigned(from: ElementType, to: ElementType, v: int)
    requires IsFloat(from) && IsSigned(to) && Convertible(from, to, v)
    ensures ConvElem(from, to, v) == v
  {
    WrapIdentity(to, v);
  }

  /** The conversion of the first n elements of a sequence. */
  function ConvSeq(from: ElementType, to: ElementType, xs: seq<int>): (ys: seq<int>)
    requires forall k :: 0 <= k < |xs| ==> Convertible(from, to, xs[k])
    ensures |ys| == |xs|
    ensures forall k :: 0 <= k < |ys| ==> InRange(to, ys[k])
  {
    seq(|xs|, k requires 0 <= k < |xs| => ConvElem(from, to, xs[k]))
  }

  /**
   * nns_orc_conv_X_to_Y (d, s, n): d[k] receives the conversion of s[k] for
   * every k < n; the rest of d is untouched.  d and s may be the same array.
   */
  method Convert(d: array<int>, s: array<int>, from: ElementType, to: ElementType, n: nat)
    requires n <= d.Length && n <= s.Length
    requires forall k :: 0 <= k < n ==> Convertible(from, to, s[k])
    modifies d
    ensures d[..n] == ConvSeq(from, to, old(s[..n]))
    ensures d[n..] == old(d[n..])
  {
    ghost var src := s[..n];
    var i := 0;
    while i < n
      invariant 0 <= i <= n
      invariant forall k :: 0 <= k < i ==> d[k] == ConvElem(from, to, src[k])
      invariant forall k :: i <= k < d.Length ==> d[k] == old(d[k])
      invariant forall k :: i <= k < n ==> s[k] == src[k]
    {
      d[i] := ConvElem(from, to, s[i]);
      i := i + 1;
    }
  }

  /** The first n elements each increased by p, in the arithmetic of t (wrapping). */
  function AddConst(t: ElementType, xs: seq<int>, p: int, n: nat): (ys: seq<int>)
    requires IsInteger(t) && n <= |xs|
    ensures |ys| == |xs|
    ensures forall k {:trigger ys[k]} :: 0 <= k < n ==> InRange(t, ys[k])
    ensures forall k {:trigger ys[k]} :: n <= k < |xs| ==> ys[k] == xs[k]
  {
    seq(|xs|, k requires 0 <= k < |xs| => if k < n then Wrap(t, xs[k] + p) else xs[k])
  }

  /** The first n elements each multiplied by p, in the arithmetic of t (low bits kept). */
  function MulConst(t: ElementType, xs: seq<int>, p: int, n: nat): (ys: seq<int>)
    requires IsInteger(t) && n <= |xs|
    ensures |ys| == |xs|
    ensures forall k {:trigger ys[k]} :: 0 <= k < n ==> InRange(t, ys[k])
    ensures forall k {:trigger ys[k]} :: n <= k < |xs| ==> ys[k] == xs[k]
  {
    seq(|xs|, k requires 0 <= k < |xs| => if k < n then Wrap(t, xs[k] * p) else xs[k])
  }

  /** A sequence holding the wrapped sums over the first n elements and xs beyond is AddConst. */
  lemma AddConstOf(t: ElementType, xs: seq<int>, p: int, n: nat, ys: seq<int>)
    requires IsInteger(t) && n <= |xs| && |ys| == |xs|
    requires forall k :: 0 <= k < n ==> ys[k] == Wrap(t, xs[k] + p)
    requires forall k :: n <= k < |xs| ==> ys[k] == xs[k]
    ensures ys == AddConst(t, xs, p, n)
  {
    var zs := AddConst(t, xs, p, n);
    forall k | 0 <= k < |xs|
      ensures ys[k] == zs[k]
    {
    }
  }

  /** A sequence holding the wrapped products over the first n elements and xs beyond is MulConst. */
  lemma MulConstOf(t: ElementType, xs: seq<int>, p: int, n: nat, ys: seq<int>)
    requires IsInteger(t) && n <= |xs| && |ys| == |xs|
    requires forall k :: 0 <= k < n ==> ys[k] == Wrap(t, xs[k] * p)
    requires forall k :: n <= k < |xs| ==> ys[k] == xs[k]
    ensures ys == MulConst(t, xs, p, n)
  {
    var zs := MulConst(t, xs, p, n);
    forall k | 0 <= k < |xs|
      ensures ys[k] == zs[k]
    {
    }
  }

  /** nns_orc_add_c_X (d, p, n): in-place addition of a constant to the first n elements. */
  method AddC(d: array<int>, t: ElementType, p: int, n: nat)
    requires IsInteger(t) && n <= d.Length
    modifies d
    ensures d[..] == AddConst(t, old(d[..]), p, n)
  {
    var i := 0;
    while i < n
      invariant 0 <= i <= n
      invariant forall k :: 0 <= k < i ==> d[k] == Wrap(t, old(d[k]) + p)
      invariant forall k :: i <= k < d.Length ==> d[k] == old(d[k])
    {
      d[i] := Wrap(t, d[i] + p);
      i := i + 1;
    }
    AddConstOf(t, old(d[..]), p, n, d[..]);
  }

  /** nns_orc_mul_c_X (d, p, n): in-place multiplication of the first n elements by a constant. */
  method MulC(d: array<int>, t: ElementType, p: int, n: nat)
    requires IsInteger(t) && n <= d.Length
    modifies d
    ensures d[..] == MulConst(t, old(d[..]), p, n)
  {
    var i := 0;
    while i < n
      invariant 0 <= i <= n
      invariant forall k :: 0 <= k < i ==> d[k] == Wrap(t, old(d[k]) * p)
      invariant forall k :: i <= k < d.Length ==> d[k] == old(d[k])
    {
      d[i] := Wrap(t, d[i] * p);
      i := i + 1;
    }
    MulConstOf(t, old(d[..]), p, n, d[..]);
  }

  /** Element k of an addition: the wrapped sum within the first n elements, untouched beyond. */
  lemma AddConstAt(t: ElementType, xs: seq<int>, p: int, n: nat, k: nat)
    requires IsInteger(t) && n <= |xs| && k < |xs|
    ensures AddConst(t, xs, p, n)[k] == if k < n then Wrap(t, xs[k] + p) else xs[k]
  {
  }

  /** add_c keeps the length and the element type, and adds exactly when the sum is a value of t. */
  lemma AddConstSpec(t: ElementType, xs: seq<int>, p: int, n: nat, k: nat)
    requires IsInteger(t) && n <= |xs| && k < |xs|
    ensures |AddConst(t, xs, p, n)| == |xs|
    ensures k < n ==> InRange(t, AddConst(t, xs, p, n)[k])
    ensures k < n && InRange(t, xs[k] + p) ==> AddConst(t, xs, p, n)[k] == xs[k] + p
    ensures k >= n ==> AddConst(t, xs, p, n)[k] == xs[k]
  {
    var ys := AddConst(t, xs, p, n);
    assert |ys| == |xs|;
    if k < n {
      var w := Wrap(t, xs[k] + p);
      assert ys[k] == w;
      if InRange(t, xs[k] + p) {
        WrapIdentity(t, xs[k] + p);
      }
    } else {
      assert ys[k] == xs[k];
    }
  }

  /** mul_c keeps the length and the element type, and multiplies exactly when the product is a value of t. */
  lemma MulConstSpec(t: ElementType, xs: seq<int>, p: int, n: nat, k: nat)
    requires IsInteger(t) && n <= |xs| && k < |xs|
    ensures |MulConst(t, xs, p, n)| == |xs|
    ensures k < n ==> InRange(t, MulConst(t, xs, p, n)[k])
    ensures k < n && InRange(t, xs[k] * p) ==> MulConst(t, xs, p, n)[k] == xs[k] * p
    ensures k >= n ==> MulConst(t, xs, p, n)[k] == xs[k]
  {
    if k < n && InRange(t, xs[k] * p) {
      WrapIdentity(t, xs[k] * p);
    }
  }

  /** Element k of two additions in a row is element k of one addition of the sum. */
  lemma AddConstComposeAt(t: ElementType, xs: seq<int>, p: int, q: int, n: nat, k: nat)
    requires IsInteger(t) && n <= |xs| && k < |xs|
    ensures AddConst(t, AddConst(t, xs, p, n), q, n)[k] == AddConst(t, xs, p + q, n)[k]
  {
    var mid := AddConst(t, xs, p, n);
    var lhs := AddConst(t, mid, q, n);
    var rhs := AddConst(t, xs, p + q, n);
    if k < n {
      var x := xs[k];
      assert mid[k] == Wrap(t, x + p) by { AddConstAt(t, xs, p, n, k); }
      assert lhs[k] == Wrap(t, Wrap(t, x + p) + q) by { AddConstAt(t, mid, q, n, k); }
      assert rhs[k] == Wrap(t, x + p + q) by { AddConstAt(t, xs, p + q, n, k); }
      WrapAddAssoc(t, x, p, q);
    } else {
      AddConstAt(t, xs, p, n, k);
      AddConstAt(t, mid, q, n, k);
      AddConstAt(t, xs, p + q, n, k);
    }
  }

  /** Two in-place additions on the same elements add up, modulo 2^width. */
  lemma AddConstCompose(t: ElementType, xs: seq<int>, p: int, q: int, n: nat)
    requires IsInteger(t) && n <= |xs|
    ensures AddConst(t, AddConst(t, xs, p, n), q, n) == AddConst(t, xs, p + q, n)
  {
    var lhs := AddConst(t, AddConst(t, xs, p, n), q, n);
    var rhs := AddConst(t, xs, p + q, n);
    forall k | 0 <= k < |xs|
      ensures lhs[k] == rhs[k]
    {
      AddConstComposeAt(t, xs, p, q, n, k);
    }
  }
}
