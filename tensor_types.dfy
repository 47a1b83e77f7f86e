/**
 * The tensor element types: their byte widths, canonical names, and the
 * value range each integer type holds.  Values of every type are modelled as
 * mathematical integers; a floating type holds only the integral values it
 * represents exactly (|v| <= 2^24 for float32, |v| <= 2^53 for float64).
 */
module TensorTypes {

  /** The element types, in the order of the C enum; End is the "unset" sentinel _NNS_END. */
  datatype TensorType =
    | Int32 | UInt32 | Int16 | UInt16 | Int8 | UInt8 | Float64 | Float32 | Int64 | UInt64
    | End

  /** A real element type (not the sentinel). */
  type ElementType = t: TensorType | t != End witness UInt8

  const AllTypes: seq<ElementType> :=
    [Int32, UInt32, Int16, UInt16, Int8, UInt8, Float64, Float32, Int64, UInt64]

  predicate IsInteger(t: TensorType) {
    t != End && t != Float32 && t != Float64
  }

  predicate IsFloat(t: TensorType) {
    t == Float32 || t == Float64
  }

  predicate IsSigned(t: TensorType) {
    t == Int8 || t == Int16 || t == Int32 || t == Int64
  }

  /** Byte width of one element. */
  function Size(t: ElementType): nat {
    match t
    case Int8 | UInt8 => 1
    case Int16 | UInt16 => 2
    case Int32 | UInt32 | Float32 => 4
    case Int64 | UInt64 | Float64 => 8
  }

  /** Canonical lowercase name of a type (the element type name table). */
  function Name(t: ElementType): string {
    match t
    case Int32 => "int32"
    case UInt32 => "uint32"
    case Int16 => "int16"
    case UInt16 => "uint16"
    case Int8 => "int8"
    case UInt8 => "uint8"
    case Float64 => "float64"
    case Float32 => "float32"
    case Int64 => "int64"
    case UInt64 => "uint64"
  }

  /** Case-sensitive lookup of a type name; End when the name is not in the table. */
  function ParseType(s: string): (t: TensorType)
    ensures t != End ==> Name(t) == s
  {
    if s == "int32" then Int32
    else if s == "uint32" then UInt32
    else if s == "int16" then Int16
    else if s == "uint16" then UInt16
    else if s == "int8" then Int8
    else if s == "uint8" then UInt8
    else if s == "float64" then Float64
    else if s == "float32" then Float32
    else if s == "int64" then Int64
    else if s == "uint64" then UInt64
    else End
  }

  /** Every canonical name parses back to its type. */
  lemma ParseName(t: ElementType)
    ensures ParseType(Name(t)) == t
  {
    match t
    case Int32 =>
    case UInt32 =>
    case Int16 =>
    case UInt16 =>
    case Int8 =>
    case UInt8 =>
    case Float64 =>
    case Float32 =>
    case Int64 =>
    case UInt64 =>
  }

  /** A name is accepted exactly when it is one of the ten canonical names. */
  lemma ParseTypeAccepts(s: string)
    ensures ParseType(s) != End <==> exists t: ElementType :: Name(t) == s
  {
    if exists t: ElementType :: Name(t) == s {
      var t: ElementType :| Name(t) == s;
      ParseName(t);
    }
  }

  /** The signed integer type of the same width as an integer type. */
  function SignedOf(t: TensorType): (s: TensorType)
    requires IsInteger(t)
    ensures IsSigned(s) && Size(s) == Size(t)
  {
    match t
    case Int8 | UInt8 => Int8
    case Int16 | UInt16 => Int16
    case Int32 | UInt32 => Int32
    case Int64 | UInt64 => Int64
  }

  /** Number of distinct values of an integer type: 2^(8 * width). */
  function Modulus(t: TensorType): (m: nat)
    requires IsInteger(t)
    ensures m >= 0x100 && m % 2 == 0
  {
    match t
    case Int8 | UInt8 => 0x100
    case Int16 | UInt16 => 0x1_0000
    case Int32 | UInt32 => 0x1_0000_0000
    case Int64 | UInt64 => 0x1_0000_0000_0000_0000
  }

  function MinValue(t: TensorType): int
    requires IsInteger(t)
  {
    if IsSigned(t) then -(Modulus(t) / 2) else 0
  }

  /** Largest value of an integer type. */
  function MaxValue(t: TensorType): int
    requires IsInteger(t)
  {
    MinValue(t) + Modulus(t) - 1
  }

  /** Largest magnitude up to which every integer is exact in a floating type. */
  function ExactLimit(t: TensorType): nat
    requires IsFloat(t)
  {
    if t == Float32 then 0x100_0000 else 0x20_0000_0000_0000
  }

  /** v is a value of type t (for a floating type: an exactly representable integral value). */
  predicate InRange(t: ElementType, v: int) {
    if IsInteger(t) then MinValue(t) <= v <= MaxValue(t)
    else -(ExactLimit(t) as int) <= v <= ExactLimit(t)
  }

  /**
   * The C conversion of an integer to a fixed-width integer type: the value
   * modulo 2^width, read as signed or unsigned.  The result is the unique
   * value of t congruent to v (see WrapUnique).
   */
  function Wrap(t: TensorType, v: int): (r: int)
    requires IsInteger(t)
    ensures InRange(t, r)
    ensures (r - v) % Modulus(t) == 0
  {
    var m := Modulus(t);
    var low := v % m;
    WrapWindow(m, v, IsSigned(t));
    if IsSigned(t) && low >= m / 2 then low - m else low
  }

  /** Reduction modulo an even m lands in the signed or unsigned window of width m, congruent to v. */
  lemma WrapWindow(m: nat, v: int, signed: bool)
    requires m > 0 && m % 2 == 0
    ensures var low := v % m;
            var r := if signed && low >= m / 2 then low - m else low;
            var lo := if signed then -(m / 2) else 0;
            lo <= r <= lo + m - 1 && (r - v) % m == 0
  {
    var low := v % m;
    var q := v / m;
    assert v == m * q + low;
    if signed && low >= m / 2 {
      assert low - m - v == m * (-q - 1);
      ModOfMultiple(m, -q - 1);
    } else {
      assert low - v == m * (-q);
      ModOfMultiple(m, -q);
    }
  }

  /** A value of a type is its own conversion. */
  lemma WrapIdentity(t: TensorType, v: int)
    requires IsInteger(t) && InRange(t, v)
    ensures Wrap(t, v) == v
  {
    WrapUnique(t, v, v);
  }

  /** Wrap is the only value of t congruent to v modulo 2^width. */
  lemma WrapUnique(t: TensorType, v: int, r: int)
    requires IsInteger(t) && InRange(t, r)
    requires (r - v) % Modulus(t) == 0
    ensures r == Wrap(t, v)
  {
    var w := Wrap(t, v);
    var m := Modulus(t);
    CongruentDiff(r, v, m);
    CongruentDiff(w, v, m);
    var k := (r - v) / m - (w - v) / m;
    assert r - w == m * k;
    SameWindow(r, w, m, MinValue(t), k);
  }

  lemma CongruentDiff(a: int, b: int, m: nat)
    requires m > 0 && (a - b) % m == 0
    ensures a - b == m * ((a - b) / m)
  {
  }

  /** Two values of one window of width m that differ by a multiple of m are equal. */
  lemma SameWindow(a: int, b: int, m: nat, lo: int, k: int)
    requires m > 0
    requires lo <= a < lo + m && lo <= b < lo + m
    requires a - b == m * k
    ensures a == b
  {
    MulBound(m, k);
  }

  lemma MulBound(m: nat, k: int)
    ensures k >= 1 ==> m * k >= m
    ensures k <= -1 ==> m * k <= -(m as int)
  {
  }

  /** Converting twice to the same integer type is converting once. */
  lemma WrapIdempotent(t: TensorType, v: int)
    requires IsInteger(t)
    ensures Wrap(t, Wrap(t, v)) == Wrap(t, v)
  {
    WrapIdentity(t, Wrap(t, v));
  }

  /** A multiple of 2^width is congruent to 0. */
  lemma MultipleOfModulus(t: TensorType, a: int, j: int)
    requires IsInteger(t) && a == Modulus(t) * j
    ensures a % Modulus(t) == 0
  {
    ModOfMultiple(Modulus(t), j);
  }

  /** Euclidean division leaves no remainder on a multiple of the divisor. */
  lemma ModOfMultiple(m: nat, j: int)
    requires m > 0
    ensures (m * j) % m == 0
  {
    var q := (m * j) / m;
    var r := (m * j) % m;
    assert m * j == m * q + r && 0 <= r < m;
    assert r == m * (j - q);
    MulBound(m, j - q);
  }

  /** A value j windows away from a value of t converts to that value. */
  lemma WrapShift(t: TensorType, v: int, j: int)
    requires IsInteger(t) && InRange(t, v + Modulus(t) * j)
    ensures Wrap(t, v) == v + Modulus(t) * j
  {
    var r := v + Modulus(t) * j;
    assert r - v == Modulus(t) * j;
    MultipleOfModulus(t, r - v, j);
    WrapUnique(t, v, r);
  }

  /** Wrapping after each of two additions is wrapping once after both. */
  lemma WrapAddAssoc(t: TensorType, x: int, p: int, q: int)
    requires IsInteger(t)
    ensures Wrap(t, Wrap(t, x + p) + q) == Wrap(t, x + p + q)
  {
    var m := Modulus(t);
    var w := Wrap(t, x + p);
    var r := Wrap(t, w + q);
    CongruentDiff(w, x + p, m);
    CongruentDiff(r, w + q, m);
    var j := (w - (x + p)) / m + (r - (w + q)) / m;
    assert r - (x + p + q) == m * j;
    MultipleOfModulus(t, r - (x + p + q), j);
    WrapUnique(t, x + p + q, r);
  }
}
