/**
 * The tensor_filter element: its configuration fields, updated in place by
 * set_property and read by get_property.  Each method is proved to perform
 * the corresponding transition of FilterModel on the element's state.
 */
module TensorFilter {
  import opened Wrappers
  import opened TensorTypes
  import Dimension
  import opened FilterModel

  /**
   * gst_tensor_filter_get_rank as written: it fails on an axis that is not
   * positive, and otherwise yields 4 whatever the axes are.
   */
  method GetRankAsWritten(dimension: seq<int>) returns (rank: Option<int>)
    requires |dimension| == Dimension.RankLimit
    ensures rank != None <==> AllPositive(dimension)
    ensures rank != None ==> rank.value == Dimension.RankLimit
  {
    var r := 0;
    var i := 0;
    while i < Dimension.RankLimit
      invariant 0 <= i <= Dimension.RankLimit
      invariant forall k :: 0 <= k < i ==> dimension[k] > 0
      invariant r == if i > 2 then i else 0
    {
      if dimension[i] <= 0 {
        return None;
      }
      if i > 1 {
        r := i + 1;
      }
      i := i + 1;
    }
    return Some(r);
  }

  /**
   * The corrected (intended) rank computation: the 1-based index of the
   * outermost axis greater than 1 (1 when all axes are 1), failing on an
   * axis that is not positive.  FixCaps uses GetRankAsWritten, as the
   * program does.
   */
  method GetRank(dimension: seq<int>) returns (rank: Option<int>)
    requires |dimension| == Dimension.RankLimit
    ensures rank == if AllPositive(dimension) then Some(Dimension.RankOf(dimension)) else None
  {
    var r := 1;
    var i := 0;
    while i < Dimension.RankLimit
      invariant 0 <= i <= Dimension.RankLimit
      invariant forall k :: 0 <= k < i ==> dimension[k] > 0
      invariant 1 <= r <= Dimension.RankLimit && (r > 1 ==> r <= i && dimension[r - 1] > 1)
      invariant forall k :: r <= k < i ==> dimension[k] <= 1
    {
      if dimension[i] <= 0 {
        return None;
      }
      if dimension[i] > 1 {
        r := i + 1;
      }
      i := i + 1;
    }
    return Some(r);
  }

  /** A four-axis dimension where get_rank as written and the intended rank differ. */
  lemma GetRankDiscrepancy()
    ensures AllPositive([5, 1, 1, 1]) && Dimension.RankOf([5, 1, 1, 1]) == 1 != Dimension.RankLimit
  {
  }

  /**
   * gst_tensor_filter_fix_caps: build the caps of a type and a dimension and
   * have the pad of the direction take them.
   */
  method FixCaps(d: Direction, t: ElementType, dimension: seq<int>, env: Env) returns (r: Result<TensorCaps, Rejection>)
    requires |dimension| == Dimension.RankLimit
    ensures r == FixCapsResult(d, t, dimension, env)
  {
    var rank := GetRankAsWritten(dimension);
    if rank == None {
      return Err(NonPositiveAxis);
    }
    var caps := TensorCaps(rank.value, Name(t), dimension);
    if !env.padAccepts(d, caps) {
      return Err(CapsRejected);
    }
    return Ok(caps);
  }

  /** Write the four axes get_tensor_dimension produced into a dimension array. */
  method CopyAxes(a: array<int>, dims: seq<int>)
    requires a.Length == |dims|
    modifies a
    ensures a[..] == dims
  {
    for i := 0 to a.Length
      invariant a[..i] == dims[..i]
    {
      a[i] := dims[i];
    }
  }

  class Filter {
    var silent: bool
    var debug: bool
    var nnfw: Framework
    var fw: Option<Subplugin>
    var modelFilename: Option<string>
    var inputConfigured: bool
    var outputConfigured: bool
    const inputDimension: array<int>
    const outputDimension: array<int>
    var inputType: TensorType
    var outputType: TensorType
    /** The caps applied to the pads so far, in order. */
    var capsFixed: seq<CapsEvent>

    /** The element's configuration as a value. */
    ghost function State(): FilterState
      reads this, inputDimension, outputDimension
    {
      FilterState(silent, debug, nnfw, fw, modelFilename,
        Port(inputConfigured, inputDimension[..], inputType),
        Port(outputConfigured, outputDimension[..], outputType),
        capsFixed)
    }

    ghost predicate Valid()
      reads this, inputDimension, outputDimension
    {
      && inputDimension.Length == Dimension.RankLimit
      && outputDimension.Length == Dimension.RankLimit
      && inputDimension != outputDimension
      && Inv(State())
    }

    /** The dimension array of a direction. */
    function DimensionArray(d: Direction): array<int> {
      if d == Input then inputDimension else outputDimension
    }

    /** gst_tensor_filter_init. */
    constructor ()
      ensures Valid() && State() == InitialState()
      ensures fresh(inputDimension) && fresh(outputDimension)
    {
      silent := false;
      debug := false;
      nnfw := Undefined;
      fw := None;
      modelFilename := None;
      inputConfigured := false;
      outputConfigured := false;
      inputDimension := new int[4] [1, 1, 1, 1];
      outputDimension := new int[4] [1, 1, 1, 1];
      inputType := End;
      outputType := End;
      capsFixed := [];
      new;
      assert inputDimension[..] == UnitDims;
      assert outputDimension[..] == UnitDims;
    }

    /** PROP_SILENT. */
    method SetSilent(b: bool)
      requires Valid()
      modifies this
      ensures Valid() && Transition(Accepted, State()) == FilterModel.SetSilent(old(State()), b)
    {
      silent := b;
    }

    /** PROP_DEBUG. */
    method SetDebug(b: bool)
      requires Valid()
      modifies this
      ensures Valid() && Transition(Accepted, State()) == FilterModel.SetDebug(old(State()), b)
    {
      debug := b;
    }

    /** PROP_FRAMEWORK. */
    method SetFramework(name: string, env: Env) returns (out: Outcome)
      requires Valid()
      modifies this
      ensures Valid() && Transition(out, State()) == FilterModel.SetFramework(old(State()), name, env)
    {
      ghost var s := State();
      if nnfw != Undefined {
        return Rejected(AlreadySet);
      }
      var i := FindKey(NnfwNames, name);
      if i == -1 {
        return Rejected(UnknownFramework);
      }
      var f := FrameworkAt(i);
      if f == Undefined {
        return Rejected(UndefinedFramework);
      }
      if !env.supportStatus(f) {
        return Rejected(FrameworkNotBuilt);
      }
      var sub := Supported(f);
      if sub == None {
        return Rejected(NoSubplugin);
      }
      nnfw := f;
      fw := sub;
      assert State() == s.(nnfw := f, fw := sub);
      SetFrameworkInv(s, name, env);
      return Accepted;
    }

    /** PROP_MODEL. */
    method SetModel(path: string, env: Env) returns (out: Outcome)
      requires Valid()
      modifies this
      ensures Valid() && Transition(out, State()) == FilterModel.SetModel(old(State()), path, env)
    {
      if modelFilename != None {
        return Rejected(AlreadySet);
      }
      if path !in env.regularFiles {
        return Rejected(NotRegularFile);
      }
      modelFilename := Some(path);
      return Accepted;
    }

    /** Mark the dimension of a direction set, write its axes, and log the caps applied. */
    method CommitDimension(d: Direction, dims: seq<int>, events: seq<CapsEvent>)
      requires inputDimension.Length == Dimension.RankLimit && outputDimension.Length == Dimension.RankLimit
      requires inputDimension != outputDimension && |dims| == Dimension.RankLimit
      modifies this, DimensionArray(d)
      ensures State() == WithPort(old(State()), d, PortOf(old(State()), d).(configured := true, dims := dims))
                           .(capsFixed := old(State()).capsFixed + events)
    {
      CopyAxes(DimensionArray(d), dims);
      if d == Input {
        inputConfigured := true;
      } else {
        outputConfigured := true;
      }
      capsFixed := capsFixed + events;
    }

    /** Set the type of a direction and log the caps applied. */
    method CommitType(d: Direction, t: TensorType, events: seq<CapsEvent>)
      modifies this
      ensures State() == WithPort(old(State()), d, PortOf(old(State()), d).(ttype := t))
                           .(capsFixed := old(State()).capsFixed + events)
    {
      if d == Input {
        inputType := t;
      } else {
        outputType := t;
      }
      capsFixed := capsFixed + events;
    }

    /** PROP_INPUT / PROP_OUTPUT, given what get_tensor_dimension yields for the string. */
    method SetDimension(d: Direction, parsed: DimensionResult, env: Env) returns (out: Outcome)
      requires Valid() && WellFormedDims(parsed.dims)
      modifies this, DimensionArray(d)
      ensures Valid() && Transition(out, State()) == FilterModel.SetDimension(old(State()), d, parsed, env)
    {
      ghost var s := State();
      var configured := if d == Input then inputConfigured else outputConfigured;
      var t := if d == Input then inputType else outputType;
      assert configured == PortOf(s, d).configured && t == PortOf(s, d).ttype;
      if configured {
        return Rejected(AlreadySet);
      }
      if !(0 < parsed.rank <= Dimension.RankLimit) {
        return Rejected(RankOutOfRange);
      }
      var events: seq<CapsEvent> := [];
      if t != End {
        var caps := FixCaps(d, t, parsed.dims, env);
        if caps.Err? {
          return Rejected(caps.error);
        }
        events := [CapsEvent(d, caps.value)];
      }
      CommitDimension(d, parsed.dims, events);
      SetDimensionInv(s, d, parsed, env);
      return Accepted;
    }

    /** PROP_INPUTTYPE / PROP_OUTPUTTYPE. */
    method SetType(d: Direction, name: string, env: Env) returns (out: Outcome)
      requires Valid()
      modifies this
      ensures Valid() && Transition(out, State()) == FilterModel.SetType(old(State()), d, name, env)
    {
      ghost var s := State();
      var configured := if d == Input then inputConfigured else outputConfigured;
      var current := if d == Input then inputType else outputType;
      var dims := DimensionArray(d)[..];
      assert configured == PortOf(s, d).configured && current == PortOf(s, d).ttype && dims == PortOf(s, d).dims;
      if current != End {
        return Rejected(AlreadySet);
      }
      var t := ParseType(name);
      if t == End {
        return Rejected(UnknownType);
      }
      var events: seq<CapsEvent> := [];
      if configured {
        var caps := FixCaps(d, t, dims, env);
        if caps.Err? {
          return Rejected(caps.error);
        }
        events := [CapsEvent(d, caps.value)];
      }
      CommitType(d, t, events);
      SetTypeInv(s, d, name, env);
      return Accepted;
    }

    /** gst_tensor_filter_set_property: dispatch on the property. */
    method SetProperty(c: Command, env: Env) returns (out: Outcome)
      requires Valid() && CommandOk(c)
      modifies this, inputDimension, outputDimension
      ensures Valid() && Transition(out, State()) == Apply(old(State()), c, env)
    {
      match c
      case SilentCmd(b) =>
        SetSilent(b);
        out := Accepted;
      case DebugCmd(b) =>
        SetDebug(b);
        out := Accepted;
      case FrameworkCmd(name) =>
        out := SetFramework(name, env);
      case ModelCmd(path) =>
        out := SetModel(path, env);
      case DimensionCmd(d, parsed) =>
        out := SetDimension(d, parsed, env);
      case TypeCmd(d, name) =>
        out := SetType(d, name, env);
    }

    /** gst_tensor_filter_get_property. */
    method GetProperty(prop: Property) returns (v: Value)
      requires Valid()
      ensures v == PropertyValue(State(), prop)
    {
      match prop
      case SilentProp =>
        v := BoolValue(silent);
      case DebugProp =>
        v := BoolValue(debug);
      case FrameworkProp =>
        v := StringValue(Some(NnfwNames[Index(nnfw)]));
      case ModelProp =>
        v := StringValue(modelFilename);
      case DimensionProp(d) =>
        var a := DimensionArray(d);
        var axes: seq<int> := [];
        for i := 0 to Dimension.RankLimit
          invariant axes == a[..i]
        {
          axes := axes + [a[i]];
        }
        v := AxesValue(axes);
      case TypeProp(d) =>
        var t := if d == Input then inputType else outputType;
        v := StringValue(if t == End then None else Some(Name(t)));
    }
  }
}
