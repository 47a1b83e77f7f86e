/**
 * Tensor dimensions: four axes, innermost first, written "d1:d2:d3:d4" with
 * trailing axes optional (they default to 1).  Also the rank of a dimension
 * and the byte size of a tensor.
 */
module Dimension {
  import opened Wrappers
  import opened TensorTypes

  /** NNS_TENSOR_RANK_LIMIT: the number of axes of every dimension. */
  const RankLimit: nat := 4

  /** Largest value of one axis. */
  const MaxAxis: nat := 65535

  datatype DimError = TooManyAxes | InvalidAxis(field: string)

  /** A parsed dimension string: the number of axes written, and all four axes. */
  datatype Parsed = Parsed(rank: nat, dims: seq<nat>)

  /** A well-formed parse: 1..4 axes written, each in [1, 65535], the unwritten ones 1. */
  predicate ValidParsed(p: Parsed) {
    && 1 <= p.rank <= RankLimit
    && |p.dims| == RankLimit
    && (forall i :: 0 <= i < RankLimit ==> 1 <= p.dims[i] <= MaxAxis)
    && (forall i :: p.rank <= i < RankLimit ==> p.dims[i] == 1)
  }

  /** The fields of s between occurrences of sep (g_strsplit without a limit). */
  function Split(s: string, sep: char): (fields: seq<string>)
    ensures |fields| >= 1
    ensures forall k :: 0 <= k < |fields| ==> sep !in fields[k]
  {
    if s == [] then [[]]
    else
      var rest := Split(s[1..], sep);
      if s[0] == sep then [[]] + rest else [[s[0]] + rest[0]] + rest[1..]
  }

  /** The fields joined with sep between them. */
  function Join(fields: seq<string>, sep: char): string
    requires |fields| >= 1
  {
    if |fields| == 1 then fields[0] else fields[0] + [sep] + Join(fields[1..], sep)
  }

  /** A field without the separator glues onto the first field of what follows. */
  lemma {:induction false} SplitPrefix(f: string, tail: string, sep: char)
    requires sep !in f
    ensures Split(f + tail, sep) == [f + Split(tail, sep)[0]] + Split(tail, sep)[1..]
  {
    if f != [] {
      assert (f + tail)[1..] == f[1..] + tail;
      SplitPrefix(f[1..], tail, sep);
      assert [f[0]] + (f[1..] + Split(tail, sep)[0]) == f + Split(tail, sep)[0];
    } else {
      var rest := Split(tail, sep);
      assert f + tail == tail;
      assert f + rest[0] == rest[0];
      assert [rest[0]] + rest[1..] == rest;
    }
  }

  /** Splitting undoes joining, when no field contains the separator. */
  lemma {:induction false} SplitJoin(fields: seq<string>, sep: char)
    requires |fields| >= 1
    requires forall k :: 0 <= k < |fields| ==> sep !in fields[k]
    ensures Split(Join(fields, sep), sep) == fields
  {
    if |fields| == 1 {
      SplitPrefix(fields[0], [], sep);
      assert fields[0] + [] == fields[0];
    } else {
      var j := Join(fields[1..], sep);
      SplitJoin(fields[1..], sep);
      assert fields[0] + [sep] + j == fields[0] + ([sep] + j);
      SplitPrefix(fields[0], [sep] + j, sep);
      assert ([sep] + j)[1..] == j;
      assert fields[0] + [] == fields[0];
      assert [fields[0]] + fields[1..] == fields;
    }
  }

  predicate IsDigit(c: char) {
    '0' <= c <= '9'
  }

  predicate AllDigits(s: string) {
    forall k :: 0 <= k < |s| ==> IsDigit(s[k])
  }

  /** The value of a string of decimal digits, most significant first. */
  function DecimalValue(s: string): nat
    requires AllDigits(s)
  {
    if s == [] then 0
    else 10 * DecimalValue(s[..|s| - 1]) + (s[|s| - 1] as int - '0' as int)
  }

  /** The decimal digits of n, without leading zeros. */
  function Decimal(n: nat): (s: string)
    ensures |s| >= 1 && AllDigits(s)
  {
    var d := ('0' as int + n % 10) as char;
    if n < 10 then [d] else Decimal(n / 10) + [d]
  }

  lemma {:induction false} DecimalRoundTrip(n: nat)
    ensures DecimalValue(Decimal(n)) == n
  {
    var s := Decimal(n);
    if n >= 10 {
      DecimalRoundTrip(n / 10);
      assert s[..|s| - 1] == Decimal(n / 10);
    }
  }

  /** One axis: a non-empty run of digits with a value in [1, 65535]. */
  function ParseAxis(f: string): (r: Result<nat, DimError>)
    ensures r.Ok? ==> 1 <= r.value <= MaxAxis
    ensures r.Ok? ==> AllDigits(f) && r.value == DecimalValue(f)
  {
    if f == [] || !AllDigits(f) then Err(InvalidAxis(f))
    else
      var v := DecimalValue(f);
      if 1 <= v <= MaxAxis then Ok(v) else Err(InvalidAxis(f))
  }

  /** The axes of the given fields, followed by 1 up to four axes. */
  function ParseAxes(fields: seq<string>): (r: Result<seq<nat>, DimError>)
    requires |fields| <= RankLimit
    ensures r.Ok? ==> |r.value| == RankLimit
    ensures r.Ok? ==> forall i :: 0 <= i < RankLimit ==> 1 <= r.value[i] <= MaxAxis
    ensures r.Ok? ==> forall i :: |fields| <= i < RankLimit ==> r.value[i] == 1
    ensures r.Ok? ==> forall i :: 0 <= i < |fields| ==> ParseAxis(fields[i]) == Ok(r.value[i])
    decreases |fields|
  {
    if |fields| == 0 then Ok([1, 1, 1, 1])
    else
      match ParseAxis(fields[0])
      case Err(e) => Err(e)
      case Ok(v) =>
        match ParseAxes(fields[1..])
        case Err(e) => Err(e)
        case Ok(rest) => Ok([v] + rest[..RankLimit - 1])
  }

  /**
   * The dimension string "d1:d2:d3:d4": up to four colon-separated axes, the
   * missing trailing ones set to 1; rank is the number of axes written.
   */
  function ParseDimension(s: string): (r: Result<Parsed, DimError>)
    ensures r.Ok? ==> ValidParsed(r.value)
  {
    var fields := Split(s, ':');
    if |fields| > RankLimit then Err(TooManyAxes)
    else
      match ParseAxes(fields)
      case Err(e) => Err(e)
      case Ok(dims) => Ok(Parsed(|fields|, dims))
  }

  /** The canonical string of a parse: its written axes in decimal, joined by ':'. */
  function Format(p: Parsed): (s: string)
    requires ValidParsed(p)
  {
    Join(seq(p.rank, i requires 0 <= i < p.rank => Decimal(p.dims[i])), ':')
  }

  /** Parsing the canonical string of a well-formed parse gives it back. */
  lemma ParseFormat(p: Parsed)
    requires ValidParsed(p)
    ensures ParseDimension(Format(p)) == Ok(p)
  {
    var fields := seq(p.rank, i requires 0 <= i < p.rank => Decimal(p.dims[i]));
    forall k | 0 <= k < |fields|
      ensures ':' !in fields[k]
    {
      assert AllDigits(fields[k]);
    }
    SplitJoin(fields, ':');
    forall i | 0 <= i < p.rank
      ensures ParseAxis(fields[i]) == Ok(p.dims[i])
    {
      DecimalRoundTrip(p.dims[i]);
    }
    ParseAxesOf(fields, p.dims);
  }

  /** ParseAxes succeeds on fields that each parse to the matching axis. */
  lemma {:induction false} ParseAxesOf(fields: seq<string>, dims: seq<nat>)
    requires |fields| <= RankLimit && |dims| == RankLimit
    requires forall i :: 0 <= i < |fields| ==> ParseAxis(fields[i]) == Ok(dims[i])
    requires forall i :: |fields| <= i < RankLimit ==> dims[i] == 1
    ensures ParseAxes(fields) == Ok(dims)
    decreases |fields|
  {
    if |fields| == 0 {
      assert dims == [1, 1, 1, 1];
    } else {
      var shifted := dims[1..] + [1];
      forall i | 0 <= i < |fields| - 1
        ensures ParseAxis(fields[1..][i]) == Ok(shifted[i])
      {
        assert fields[1..][i] == fields[i + 1];
      }
      ParseAxesOf(fields[1..], shifted);
      assert [dims[0]] + shifted[..RankLimit - 1] == dims;
    }
  }

  /**
   * The rank of a dimension: the 1-based index of the outermost axis greater
   * than 1, and 1 when every axis is 1.
   */
  function RankOf(dims: seq<int>): (r: nat)
    requires |dims| == RankLimit
    ensures 1 <= r <= RankLimit
    ensures forall i :: r <= i < RankLimit ==> dims[i] <= 1
    ensures r > 1 ==> dims[r - 1] > 1
  {
    if dims[3] > 1 then 4 else if dims[2] > 1 then 3 else if dims[1] > 1 then 2 else 1
  }

  /** The number of elements: the product of the axes. */
  function ElementCount(dims: seq<nat>): nat {
    if dims == [] then 1 else dims[0] * ElementCount(dims[1..])
  }

  /** gst_tensor_info_get_size: element count times the width of the element type. */
  function ByteSize(t: ElementType, dims: seq<nat>): nat {
    ElementCount(dims) * Size(t)
  }

  /** Axes that are all 1 beyond the first contribute nothing to the element count. */
  lemma SingleAxisCount(p: Parsed)
    requires ValidParsed(p) && p.rank == 1
    ensures ElementCount(p.dims) == p.dims[0]
  {
    assert p.dims == [p.dims[0], 1, 1, 1];
    assert p.dims[1..] == [1, 1, 1];
    assert ElementCount([1, 1, 1]) == 1 by {
      assert [1, 1, 1][1..] == [1, 1];
      assert [1, 1][1..] == [1];
      assert [1][1..] == [];
    }
  }

  /** "5" is one axis of 5: rank 1, dimension [5, 1, 1, 1], five elements. */
  lemma ParseFive()
    ensures ParseDimension("5") == Ok(Parsed(1, [5, 1, 1, 1]))
    ensures ElementCount([5, 1, 1, 1]) == 5 && RankOf([5, 1, 1, 1]) == 1
  {
    var p := Parsed(1, [5, 1, 1, 1]);
    assert Format(p) == Decimal(5);
    ParseFormat(p);
  }
}
