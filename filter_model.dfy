/**
 * The framework registry of tensor_filter and its write-once configuration
 * protocol, as a state machine over values.  The class TensorFilter.Filter
 * implements each transition in place and is proved equal to it.
 *
 * A failed g_assert of the source aborts; here it is a rejected call that
 * leaves the state unchanged.
 */
module FilterModel {
  import opened Wrappers
  import opened TensorTypes
  import Dimension

  /** The framework identifiers, in the order of their table slots. */
  datatype Framework = Undefined | Custom | TensorflowLite | Tensorflow | Caffe2

  /** The sub-plugin descriptors the supported table points at. */
  datatype Subplugin = SupportCustom | SupportTensorflowLite

  /** The slot of a framework in nnfw_names and tensor_filter_supported. */
  function Index(f: Framework): nat {
    match f
    case Undefined => 0
    case Custom => 1
    case TensorflowLite => 2
    case Tensorflow => 3
    case Caffe2 => 4
  }

  /** The framework of a slot. */
  function FrameworkAt(i: nat): (f: Framework)
    requires i < |NnfwNames|
    ensures Index(f) == i
  {
    [Undefined, Custom, TensorflowLite, Tensorflow, Caffe2][i]
  }

  /** nnfw_names: the name of each framework slot. */
  const NnfwNames: seq<string> := ["Not supported", "custom", "tensorflow-lite", "tensorflow", "caffe2"]

  /** tensor_filter_supported: the descriptor of each framework, None for a NULL slot. */
  function Supported(f: Framework): Option<Subplugin> {
    match f
    case Custom => Some(SupportCustom)
    case TensorflowLite => Some(SupportTensorflowLite)
    case _ => None
  }

  /** find_key_strv: the first slot holding key, or -1; names are compared exactly. */
  function FindKey(strv: seq<string>, key: string): (i: int)
    ensures -1 <= i < |strv|
    ensures i >= 0 ==> strv[i] == key && forall j :: 0 <= j < i ==> strv[j] != key
    ensures i == -1 ==> forall j :: 0 <= j < |strv| ==> strv[j] != key
  {
    if strv == [] then -1
    else if strv[0] == key then 0
    else
      var r := FindKey(strv[1..], key);
      if r < 0 then -1 else r + 1
  }

  /** Why a configuration call is rejected (each is a g_assert of the source). */
  datatype Rejection =
    | AlreadySet          // the write-once field is already set
    | UnknownFramework    // the name is not in nnfw_names
    | UndefinedFramework  // the name is that of the _T_F_UNDEFINED slot
    | FrameworkNotBuilt   // nnfw_support_status is FALSE for it
    | NoSubplugin         // its tensor_filter_supported slot is NULL
    | NotRegularFile      // the model path is not a regular file
    | RankOutOfRange      // the parsed rank is not in 1..4
    | UnknownType         // the type name is not an element type
    | NonPositiveAxis     // get_rank found an axis that is not positive
    | CapsRejected        // the pad refused the computed caps

  datatype Outcome = Accepted | Rejected(reason: Rejection)

  datatype Direction = Input | Output

  /** The caps the fix-caps step computes for a direction: rank, type name and the four axes. */
  datatype TensorCaps = TensorCaps(rank: nat, typeName: string, dims: seq<int>)

  /** One application of caps to a pad (sink pad for Input, source pad for Output). */
  datatype CapsEvent = CapsEvent(dir: Direction, caps: TensorCaps)

  /**
   * What the configuration depends on outside the element: which frameworks
   * the build supports (nnfw_support_status), which paths are regular files
   * (g_file_test), and whether a pad takes the caps it is given
   * (the intersection with its current caps and gst_pad_set_caps).
   */
  datatype Env = Env(
    supportStatus: Framework -> bool,
    regularFiles: set<string>,
    padAccepts: (Direction, TensorCaps) -> bool)

  /** What get_tensor_dimension yields: its return value and the four axes it wrote. */
  datatype DimensionResult = DimensionResult(rank: int, dims: seq<int>)

  const MaxUInt32: int := 0xFFFF_FFFF

  /** Four uint32 axes. */
  predicate WellFormedDims(dims: seq<int>) {
    |dims| == Dimension.RankLimit && forall i :: 0 <= i < |dims| ==> 0 <= dims[i] <= MaxUInt32
  }

  /** The configuration of one direction: dimension set, dimension, element type. */
  datatype Port = Port(configured: bool, dims: seq<int>, ttype: TensorType)

  /** Every field of the element that configuration touches. */
  datatype FilterState = FilterState(
    silent: bool,
    debug: bool,
    nnfw: Framework,
    fw: Option<Subplugin>,
    model: Option<string>,
    input: Port,
    output: Port,
    capsFixed: seq<CapsEvent>)

  const UnitDims: seq<int> := [1, 1, 1, 1]

  /**
   * gst_tensor_filter_init: nothing is configured, every dimension is 1:1:1:1
   * and every type unset, and no caps have been applied.
   */
  function InitialState(): (s: FilterState)
    ensures PropertyValue(s, SilentProp) == BoolValue(false) && PropertyValue(s, DebugProp) == BoolValue(false)
    ensures PropertyValue(s, FrameworkProp) == StringValue(Some("Not supported"))
    ensures PropertyValue(s, ModelProp) == StringValue(None)
    ensures forall d :: PropertyValue(s, DimensionProp(d)) == AxesValue([1, 1, 1, 1])
    ensures forall d :: PropertyValue(s, TypeProp(d)) == StringValue(None)
    ensures forall d :: !PortOf(s, d).configured && s.capsFixed == []
  {
    FilterState(false, false, Undefined, None, None, Port(false, UnitDims, End), Port(false, UnitDims, End), [])
  }

  function PortOf(s: FilterState, d: Direction): Port {
    if d == Input then s.input else s.output
  }

  function WithPort(s: FilterState, d: Direction, p: Port): FilterState {
    if d == Input then s.(input := p) else s.(output := p)
  }

  function Other(d: Direction): Direction {
    if d == Input then Output else Input
  }

  /** Both the type and the dimension of a direction are set. */
  predicate Complete(p: Port) {
    p.configured && p.ttype != End
  }

  predicate AllPositive(dims: seq<int>) {
    forall i :: 0 <= i < |dims| ==> dims[i] > 0
  }

  /**
   * The caps fix_caps builds from a type and a dimension: the rank is what
   * gst_tensor_filter_get_rank as written yields for positive axes, which is
   * 4 whatever the axes are.
   */
  function CapsOf(t: ElementType, dims: seq<int>): (c: TensorCaps)
    requires |dims| == Dimension.RankLimit
    ensures c.rank == Dimension.RankLimit && c.dims == dims
    ensures ParseType(c.typeName) == t
  {
    ParseName(t);
    TensorCaps(Dimension.RankLimit, Name(t), dims)
  }

  /** The caps with the rank get_rank is evidently meant to compute. */
  function IntendedCapsOf(t: ElementType, dims: seq<int>): (c: TensorCaps)
    requires |dims| == Dimension.RankLimit
    ensures 1 <= c.rank <= Dimension.RankLimit && c.dims == dims
    ensures c.rank == Dimension.RankLimit <==> dims[Dimension.RankLimit - 1] > 1
    ensures ParseType(c.typeName) == t
  {
    ParseName(t);
    TensorCaps(Dimension.RankOf(dims), Name(t), dims)
  }

  /** The two caps agree exactly when the outermost axis is greater than 1. */
  lemma CapsAgree(t: ElementType, dims: seq<int>)
    requires |dims| == Dimension.RankLimit
    ensures CapsOf(t, dims) == IntendedCapsOf(t, dims) <==> dims[Dimension.RankLimit - 1] > 1
  {
  }

  /** On 5:1:1:1 the caps carry rank 4 where rank 1 is meant. */
  lemma CapsDiscrepancy()
    ensures CapsOf(UInt8, [5, 1, 1, 1]).rank == 4
    ensures IntendedCapsOf(UInt8, [5, 1, 1, 1]).rank == 1
  {
  }

  /** gst_tensor_filter_fix_caps: the caps set on the pad, or why the step fails. */
  function FixCapsResult(d: Direction, t: ElementType, dims: seq<int>, env: Env): (r: Result<TensorCaps, Rejection>)
    requires |dims| == Dimension.RankLimit
    ensures r.Ok? <==> AllPositive(dims) && env.padAccepts(d, CapsOf(t, dims))
    ensures r.Ok? ==> r.value == CapsOf(t, dims)
    ensures r == Err(NonPositiveAxis) <==> !AllPositive(dims)
  {
    if !AllPositive(dims) then Err(NonPositiveAxis)
    else if !env.padAccepts(d, CapsOf(t, dims)) then Err(CapsRejected)
    else Ok(CapsOf(t, dims))
  }

  /** Number of caps applications to the pad of direction d. */
  function CapsCount(events: seq<CapsEvent>, d: Direction): nat {
    if events == [] then 0
    else CapsCount(events[..|events| - 1], d) + (if events[|events| - 1].dir == d then 1 else 0)
  }

  lemma CapsCountAppend(events: seq<CapsEvent>, e: CapsEvent, d: Direction)
    ensures CapsCount(events + [e], d) == CapsCount(events, d) + (if e.dir == d then 1 else 0)
  {
    assert (events + [e])[..|events|] == events;
  }

  /** The caps step ran once for a direction exactly when it is complete, with the caps of its current type and dimension. */
  predicate CapsConsistent(s: FilterState, d: Direction)
    requires |PortOf(s, d).dims| == Dimension.RankLimit
  {
    var p := PortOf(s, d);
    && CapsCount(s.capsFixed, d) == (if Complete(p) then 1 else 0)
    && (Complete(p) ==> AllPositive(p.dims))
    && forall k :: 0 <= k < |s.capsFixed| && s.capsFixed[k].dir == d ==>
         Complete(p) && s.capsFixed[k].caps == CapsOf(p.ttype, p.dims)
  }

  predicate PortInv(p: Port) {
    WellFormedDims(p.dims) && (!p.configured ==> p.dims == UnitDims)
  }

  /** The invariant of the element's configuration. */
  predicate Inv(s: FilterState) {
    && PortInv(s.input) && PortInv(s.output)
    && (s.nnfw == Undefined <==> s.fw == None)
    && (s.fw != None ==> s.fw == Supported(s.nnfw))
    && CapsConsistent(s, Input) && CapsConsistent(s, Output)
  }

  datatype Transition = Transition(out: Outcome, next: FilterState)

  function Reject(s: FilterState, r: Rejection): Transition {
    Transition(Rejected(r), s)
  }

  /** The framework a name selects, or the assertion it fails. */
  function LookupFramework(name: string, env: Env): (r: Result<Framework, Rejection>)
    ensures r.Ok? ==> NnfwNames[Index(r.value)] == name
    ensures r.Ok? ==> r.value != Undefined && env.supportStatus(r.value) && Supported(r.value) != None
    ensures name !in NnfwNames ==> r == Err(UnknownFramework)
  {
    var i := FindKey(NnfwNames, name);
    if i == -1 then Err(UnknownFramework)
    else
      var f := FrameworkAt(i);
      if f == Undefined then Err(UndefinedFramework)
      else if !env.supportStatus(f) then Err(FrameworkNotBuilt)
      else if Supported(f) == None then Err(NoSubplugin)
      else Ok(f)
  }

  /** PROP_SILENT. */
  function SetSilent(s: FilterState, b: bool): Transition {
    Transition(Accepted, s.(silent := b))
  }

  /** PROP_DEBUG. */
  function SetDebug(s: FilterState, b: bool): Transition {
    Transition(Accepted, s.(debug := b))
  }

  /** PROP_FRAMEWORK: write-once, by name. */
  function SetFramework(s: FilterState, name: string, env: Env): (t: Transition)
    ensures t.out != Accepted ==> t.next == s
    ensures t.out == Accepted ==>
      && s.nnfw == Undefined && FrameworkName(t.next) == name && t.next.fw != None
      && t.next == s.(nnfw := t.next.nnfw, fw := t.next.fw)
  {
    if s.nnfw != Undefined then Reject(s, AlreadySet)
    else
      match LookupFramework(name, env)
      case Err(r) => Reject(s, r)
      case Ok(f) => Transition(Accepted, s.(nnfw := f, fw := Supported(f)))
  }

  /** PROP_MODEL: write-once; the path must be a regular file. */
  function SetModel(s: FilterState, path: string, env: Env): (t: Transition)
    ensures t.out != Accepted ==> t.next == s
    ensures t.out == Accepted ==>
      && s.model == None && path in env.regularFiles
      && PropertyValue(t.next, ModelProp) == StringValue(Some(path))
      && t.next == s.(model := t.next.model)
  {
    if s.model != None then Reject(s, AlreadySet)
    else if path !in env.regularFiles then Reject(s, NotRegularFile)
    else Transition(Accepted, s.(model := Some(path)))
  }

  /** PROP_INPUT / PROP_OUTPUT: write-once dimension; fixes the caps when the type is already set. */
  function SetDimension(s: FilterState, d: Direction, parsed: DimensionResult, env: Env): (t: Transition)
    requires WellFormedDims(parsed.dims)
    ensures t.out != Accepted ==> t.next == s
    ensures t.out == Accepted ==>
      && !PortOf(s, d).configured && PropertyValue(t.next, DimensionProp(d)) == AxesValue(parsed.dims)
      && PortOf(t.next, Other(d)) == PortOf(s, Other(d))
      && s.capsFixed <= t.next.capsFixed
      && |t.next.capsFixed| == |s.capsFixed| + (if PortOf(s, d).ttype == End then 0 else 1)
  {
    var p := PortOf(s, d);
    if p.configured then Reject(s, AlreadySet)
    else if !(0 < parsed.rank <= Dimension.RankLimit) then Reject(s, RankOutOfRange)
    else
      var q := p.(configured := true, dims := parsed.dims);
      if p.ttype == End then Transition(Accepted, WithPort(s, d, q))
      else
        match FixCapsResult(d, p.ttype, parsed.dims, env)
        case Err(r) => Reject(s, r)
        case Ok(caps) => Transition(Accepted, WithPort(s, d, q).(capsFixed := s.capsFixed + [CapsEvent(d, caps)]))
  }

  /** PROP_INPUTTYPE / PROP_OUTPUTTYPE: write-once type; fixes the caps when the dimension is already set. */
  function SetType(s: FilterState, d: Direction, name: string, env: Env): (t: Transition)
    requires PortInv(PortOf(s, d))
    ensures t.out != Accepted ==> t.next == s
    ensures t.out == Accepted ==>
      && PortOf(s, d).ttype == End && PropertyValue(t.next, TypeProp(d)) == StringValue(Some(name))
      && PortOf(t.next, Other(d)) == PortOf(s, Other(d))
      && s.capsFixed <= t.next.capsFixed
      && |t.next.capsFixed| == |s.capsFixed| + (if PortOf(s, d).configured then 1 else 0)
  {
    var p := PortOf(s, d);
    var t := ParseType(name);
    if p.ttype != End then Reject(s, AlreadySet)
    else if t == End then Reject(s, UnknownType)
    else
      var q := p.(ttype := t);
      if !p.configured then Transition(Accepted, WithPort(s, d, q))
      else
        match FixCapsResult(d, t, p.dims, env)
        case Err(r) => Reject(s, r)
        case Ok(caps) => Transition(Accepted, WithPort(s, d, q).(capsFixed := s.capsFixed + [CapsEvent(d, caps)]))
  }

  /** A call of set_property. */
  datatype Command =
    | SilentCmd(b: bool)
    | DebugCmd(b: bool)
    | FrameworkCmd(name: string)
    | ModelCmd(path: string)
    | DimensionCmd(d: Direction, parsed: DimensionResult)
    | TypeCmd(d: Direction, name: string)

  predicate CommandOk(c: Command) {
    c.DimensionCmd? ==> WellFormedDims(c.parsed.dims)
  }

  /** gst_tensor_filter_set_property: dispatch on the property. */
  function Apply(s: FilterState, c: Command, env: Env): (t: Transition)
    requires Inv(s) && CommandOk(c)
    ensures t.out != Accepted ==> t.next == s
    ensures s.capsFixed <= t.next.capsFixed && |t.next.capsFixed| <= |s.capsFixed| + 1
  {
    match c
    case SilentCmd(b) => SetSilent(s, b)
    case DebugCmd(b) => SetDebug(s, b)
    case FrameworkCmd(name) => SetFramework(s, name, env)
    case ModelCmd(path) => SetModel(s, path, env)
    case DimensionCmd(d, parsed) => SetDimension(s, d, parsed, env)
    case TypeCmd(d, name) => SetType(s, d, name, env)
  }

  /** get_property of "framework": the name of the framework slot. */
  function FrameworkName(s: FilterState): string {
    NnfwNames[Index(s.nnfw)]
  }

  /** get_property of "inputtype" / "outputtype": the type name, None (NULL) while unset. */
  function TypeName(s: FilterState, d: Direction): (n: Option<string>)
    ensures n == None <==> PortOf(s, d).ttype == End
    ensures n != None ==> ParseType(n.value) == PortOf(s, d).ttype
  {
    var t := PortOf(s, d).ttype;
    if t == End then None
    else
      ParseName(t);
      Some(Name(t))
  }

  /** The properties of the element. */
  datatype Property = SilentProp | DebugProp | FrameworkProp | ModelProp | DimensionProp(d: Direction) | TypeProp(d: Direction)

  /** The value get_property hands back; None stands for a NULL string. */
  datatype Value = BoolValue(b: bool) | StringValue(str: Option<string>) | AxesValue(axes: seq<int>)

  /** gst_tensor_filter_get_property. */
  function PropertyValue(s: FilterState, prop: Property): (v: Value)
    ensures prop.FrameworkProp? ==> v.StringValue? && v.str != None && v.str.value in NnfwNames
    ensures prop.TypeProp? ==> v.StringValue? && (v.str == None <==> PortOf(s, prop.d).ttype == End)
    ensures prop.TypeProp? && v.str != None ==> ParseType(v.str.value) == PortOf(s, prop.d).ttype
  {
    match prop
    case SilentProp => BoolValue(s.silent)
    case DebugProp => BoolValue(s.debug)
    case FrameworkProp => StringValue(Some(FrameworkName(s)))
    case ModelProp => StringValue(s.model)
    case DimensionProp(d) => AxesValue(PortOf(s, d).dims)
    case TypeProp(d) => StringValue(TypeName(s, d))
  }

  /** The property a command sets. */
  function PropertyOf(c: Command): Property {
    match c
    case SilentCmd(_) => SilentProp
    case DebugCmd(_) => DebugProp
    case FrameworkCmd(_) => FrameworkProp
    case ModelCmd(_) => ModelProp
    case DimensionCmd(d, _) => DimensionProp(d)
    case TypeCmd(d, _) => TypeProp(d)
  }

  /** The value a command writes. */
  function WrittenValue(c: Command): Value {
    match c
    case SilentCmd(b) => BoolValue(b)
    case DebugCmd(b) => BoolValue(b)
    case FrameworkCmd(name) => StringValue(Some(name))
    case ModelCmd(path) => StringValue(Some(path))
    case DimensionCmd(_, parsed) => AxesValue(parsed.dims)
    case TypeCmd(_, name) => StringValue(Some(name))
  }

  /* ---------------- Properties of the configuration protocol ---------------- */

  /** The initial state satisfies the invariant and reads back as unset. */
  lemma InitialState_Inv()
    ensures Inv(InitialState())
    ensures FrameworkName(InitialState()) == "Not supported"
    ensures TypeName(InitialState(), Input) == None && TypeName(InitialState(), Output) == None
  {
  }

  /** Only "custom" and "tensorflow-lite" select a framework, and only when the build supports it. */
  lemma LookupFrameworkSpec(name: string, env: Env)
    ensures LookupFramework(name, env).Ok? <==>
      (name == "custom" && env.supportStatus(Custom)) || (name == "tensorflow-lite" && env.supportStatus(TensorflowLite))
    ensures LookupFramework(name, env).Ok? ==> NnfwNames[Index(LookupFramework(name, env).value)] == name
    ensures (forall k :: 0 <= k < |NnfwNames| ==> NnfwNames[k] != name) ==> LookupFramework(name, env) == Err(UnknownFramework)
  {
    var i := FindKey(NnfwNames, name);
    if 0 <= i {
      assert NnfwNames[i] == name;
      if i == 1 {
        assert name != NnfwNames[0];
      } else if i == 2 {
        assert name != NnfwNames[0] && name != NnfwNames[1];
      }
    } else {
      assert name != NnfwNames[1] && name != NnfwNames[2];
    }
  }

  /** PROP_FRAMEWORK succeeds exactly once, reads back as the name given, and changes nothing else. */
  lemma SetFrameworkSpec(s: FilterState, name: string, env: Env)
    ensures SetFramework(s, name, env).out == Accepted <==>
      s.nnfw == Undefined && ((name == "custom" && env.supportStatus(Custom)) || (name == "tensorflow-lite" && env.supportStatus(TensorflowLite)))
    ensures SetFramework(s, name, env).out == Accepted ==>
      var n := SetFramework(s, name, env).next;
      FrameworkName(n) == name && n.fw != None && n == s.(nnfw := n.nnfw, fw := n.fw)
    ensures SetFramework(s, name, env).out != Accepted ==> SetFramework(s, name, env).next == s
  {
    LookupFrameworkSpec(name, env);
  }

  /** PROP_MODEL succeeds exactly once, for a regular file, and reads back as the path given. */
  lemma SetModelSpec(s: FilterState, path: string, env: Env)
    ensures SetModel(s, path, env).out == Accepted <==> s.model == None && path in env.regularFiles
    ensures SetModel(s, path, env).out == Accepted ==> SetModel(s, path, env).next == s.(model := Some(path))
    ensures SetModel(s, path, env).out != Accepted ==> SetModel(s, path, env).next == s
  {
  }

  /**
   * PROP_INPUT / PROP_OUTPUT succeeds exactly when the dimension is unset, the
   * rank is in range, and, if the type is already set, the caps step passes;
   * the dimension then reads back as parsed and the other direction is untouched.
   */
  lemma SetDimensionSpec(s: FilterState, d: Direction, parsed: DimensionResult, env: Env)
    requires WellFormedDims(parsed.dims)
    ensures var p := PortOf(s, d);
      SetDimension(s, d, parsed, env).out == Accepted <==>
        && !p.configured
        && 0 < parsed.rank <= Dimension.RankLimit
        && (p.ttype != End ==> AllPositive(parsed.dims) && env.padAccepts(d, CapsOf(p.ttype, parsed.dims)))
    ensures SetDimension(s, d, parsed, env).out == Accepted ==>
      var n := SetDimension(s, d, parsed, env).next;
      && PortOf(n, d) == PortOf(s, d).(configured := true, dims := parsed.dims)
      && PortOf(n, Other(d)) == PortOf(s, Other(d))
      && n.(input := s.input, output := s.output, capsFixed := s.capsFixed) == s
    ensures SetDimension(s, d, parsed, env).out != Accepted ==> SetDimension(s, d, parsed, env).next == s
  {
  }

  /**
   * PROP_INPUTTYPE / PROP_OUTPUTTYPE succeeds exactly when the type is unset,
   * the name is an element type, and, if the dimension is already set, the
   * caps step passes; the type then reads back as the name given.
   */
  lemma SetTypeSpec(s: FilterState, d: Direction, name: string, env: Env)
    requires PortInv(PortOf(s, d))
    ensures var p := PortOf(s, d);
      SetType(s, d, name, env).out == Accepted <==>
        && p.ttype == End
        && ParseType(name) != End
        && (p.configured ==> AllPositive(p.dims) && env.padAccepts(d, CapsOf(ParseType(name), p.dims)))
    ensures SetType(s, d, name, env).out == Accepted ==>
      var n := SetType(s, d, name, env).next;
      && TypeName(n, d) == Some(name)
      && PortOf(n, d) == PortOf(s, d).(ttype := ParseType(name))
      && PortOf(n, Other(d)) == PortOf(s, Other(d))
      && n.(input := s.input, output := s.output, capsFixed := s.capsFixed) == s
    ensures SetType(s, d, name, env).out != Accepted ==> SetType(s, d, name, env).next == s
  {
  }

  /** A direction becomes complete in this step. */
  predicate JustCompleted(s: FilterState, n: FilterState, d: Direction) {
    !Complete(PortOf(s, d)) && Complete(PortOf(n, d))
  }

  /** The caps events a step adds: one for each direction it completes. */
  function FixedNow(s: FilterState, n: FilterState): seq<CapsEvent>
    requires |n.input.dims| == Dimension.RankLimit && |n.output.dims| == Dimension.RankLimit
  {
    (if JustCompleted(s, n, Input) then [CapsEvent(Input, CapsOf(n.input.ttype, n.input.dims))] else [])
    + (if JustCompleted(s, n, Output) then [CapsEvent(Output, CapsOf(n.output.ttype, n.output.dims))] else [])
  }

  /**
   * A step that changes only the configuration of direction d keeps the
   * invariant, provided it adds the caps event of d exactly when it completes d.
   */
  lemma PortStep(s: FilterState, n: FilterState, d: Direction)
    requires Inv(s) && PortInv(PortOf(n, d))
    requires PortOf(n, Other(d)) == PortOf(s, Other(d))
    requires n.(input := s.input, output := s.output, capsFixed := s.capsFixed) == s
    requires Complete(PortOf(n, d)) ==> AllPositive(PortOf(n, d).dims)
    requires Complete(PortOf(s, d)) ==> PortOf(n, d) == PortOf(s, d)
    requires n.capsFixed == s.capsFixed + FixedNow(s, n)
    ensures Inv(n)
  {
    var p := PortOf(n, d);
    assert !JustCompleted(s, n, Other(d));
    if JustCompleted(s, n, d) {
      var e := CapsEvent(d, CapsOf(p.ttype, p.dims));
      assert FixedNow(s, n) == [e];
      CapsCountAppend(s.capsFixed, e, Input);
      CapsCountAppend(s.capsFixed, e, Output);
    } else {
      assert FixedNow(s, n) == [];
      assert n.capsFixed == s.capsFixed;
      assert Complete(PortOf(n, d)) == Complete(PortOf(s, d));
    }
  }

  /** A step that changes no configuration of a direction keeps the invariant and fixes no caps. */
  lemma ScalarStep(s: FilterState, n: FilterState)
    requires Inv(s)
    requires n.input == s.input && n.output == s.output && n.capsFixed == s.capsFixed
    requires (n.nnfw == Undefined <==> n.fw == None) && (n.fw != None ==> n.fw == Supported(n.nnfw))
    ensures Inv(n) && n.capsFixed == s.capsFixed + FixedNow(s, n)
  {
    assert FixedNow(s, n) == [];
  }

  /** A rejected call leaves the state, and so the invariant, as it was. */
  lemma Unchanged(s: FilterState)
    requires Inv(s)
    ensures Inv(s) && s.capsFixed == s.capsFixed + FixedNow(s, s)
  {
    assert FixedNow(s, s) == [];
  }

  /** Writing direction d's configuration as q, logging events, keeps the invariant when the events are those of completing d. */
  lemma PortWrite(s: FilterState, d: Direction, q: Port, events: seq<CapsEvent>)
    requires Inv(s) && PortInv(q) && !Complete(PortOf(s, d))
    requires Complete(q) ==> AllPositive(q.dims)
    requires events == if Complete(q) then [CapsEvent(d, CapsOf(q.ttype, q.dims))] else []
    ensures var n := WithPort(s, d, q).(capsFixed := s.capsFixed + events);
      Inv(n) && n.capsFixed == s.capsFixed + FixedNow(s, n)
  {
    var n := WithPort(s, d, q).(capsFixed := s.capsFixed + events);
    assert PortOf(n, d) == q && PortOf(n, Other(d)) == PortOf(s, Other(d));
    assert FixedNow(s, n) == events by {
      assert !JustCompleted(s, n, Other(d));
      assert JustCompleted(s, n, d) == Complete(q);
    }
    PortStep(s, n, d);
  }

  lemma SetFrameworkInv(s: FilterState, name: string, env: Env)
    requires Inv(s)
    ensures Inv(SetFramework(s, name, env).next)
    ensures SetFramework(s, name, env).next.capsFixed == s.capsFixed + FixedNow(s, SetFramework(s, name, env).next)
  {
    var n := SetFramework(s, name, env).next;
    SetFrameworkSpec(s, name, env);
    assert n.nnfw == Undefined ==> n == s;
    assert n.nnfw != Undefined ==> n.fw == Supported(n.nnfw) && n.fw != None;
    ScalarStep(s, n);
  }

  lemma SetDimensionInv(s: FilterState, d: Direction, parsed: DimensionResult, env: Env)
    requires Inv(s) && WellFormedDims(parsed.dims)
    ensures Inv(SetDimension(s, d, parsed, env).next)
    ensures SetDimension(s, d, parsed, env).next.capsFixed == s.capsFixed + FixedNow(s, SetDimension(s, d, parsed, env).next)
  {
    var p := PortOf(s, d);
    var q := p.(configured := true, dims := parsed.dims);
    if p.configured || !(0 < parsed.rank <= Dimension.RankLimit) {
      Unchanged(s);
    } else if p.ttype == End {
      PortWrite(s, d, q, []);
      assert SetDimension(s, d, parsed, env).next == WithPort(s, d, q).(capsFixed := s.capsFixed + []);
    } else {
      var r := FixCapsResult(d, p.ttype, parsed.dims, env);
      if r.Err? {
        Unchanged(s);
      } else {
        PortWrite(s, d, q, [CapsEvent(d, r.value)]);
      }
    }
  }

  lemma SetTypeInv(s: FilterState, d: Direction, name: string, env: Env)
    requires Inv(s)
    ensures Inv(SetType(s, d, name, env).next)
    ensures SetType(s, d, name, env).next.capsFixed == s.capsFixed + FixedNow(s, SetType(s, d, name, env).next)
  {
    var p := PortOf(s, d);
    var tt := ParseType(name);
    var q := p.(ttype := tt);
    if p.ttype != End || tt == End {
      Unchanged(s);
    } else if !p.configured {
      PortWrite(s, d, q, []);
      assert SetType(s, d, name, env).next == WithPort(s, d, q).(capsFixed := s.capsFixed + []);
    } else {
      var r := FixCapsResult(d, tt, p.dims, env);
      if r.Err? {
        Unchanged(s);
      } else {
        PortWrite(s, d, q, [CapsEvent(d, r.value)]);
      }
    }
  }

  /**
   * Every command keeps the invariant; the caps of a direction are fixed by
   * exactly the command that sets the second of its type and dimension, with
   * the caps of that type and dimension, and by no other command.
   */
  lemma ApplyPreservesInv(s: FilterState, c: Command, env: Env)
    requires Inv(s) && CommandOk(c)
    ensures Inv(Apply(s, c, env).next)
    ensures Apply(s, c, env).next.capsFixed == s.capsFixed + FixedNow(s, Apply(s, c, env).next)
  {
    match c
    case SilentCmd(b) =>
      ScalarStep(s, s.(silent := b));
    case DebugCmd(b) =>
      ScalarStep(s, s.(debug := b));
    case FrameworkCmd(name) =>
      SetFrameworkInv(s, name, env);
    case ModelCmd(path) =>
      ScalarStep(s, SetModel(s, path, env).next);
    case DimensionCmd(d, parsed) =>
      SetDimensionInv(s, d, parsed, env);
    case TypeCmd(d, name) =>
      SetTypeInv(s, d, name, env);
  }

  /** No command changes a write-once field that is already set. */
  lemma WriteOnce(s: FilterState, c: Command, env: Env)
    requires Inv(s) && CommandOk(c)
    ensures KeepsWriteOnce(s, Apply(s, c, env).next)
  {
    match c
    case DimensionCmd(d, parsed) =>
      DimensionWriteOnce(s, d, parsed, env);
    case TypeCmd(d, name) =>
      TypeWriteOnce(s, d, name, env);
    case FrameworkCmd(name) =>
      FrameworkWriteOnce(s, name, env);
    case ModelCmd(path) =>
      ModelWriteOnce(s, path, env);
    case SilentCmd(b) =>
      FlagWriteOnce(s, s.(silent := b));
    case DebugCmd(b) =>
      FlagWriteOnce(s, s.(debug := b));
  }

  lemma ModelWriteOnce(s: FilterState, path: string, env: Env)
    ensures KeepsWriteOnce(s, SetModel(s, path, env).next)
  {
    var n := SetModel(s, path, env).next;
    assert n == s || (s.model == None && n == s.(model := n.model));
  }

  /** A step that changes at most the silent and debug flags keeps every write-once field. */
  lemma FlagWriteOnce(s: FilterState, n: FilterState)
    requires n == s.(silent := n.silent, debug := n.debug)
    ensures KeepsWriteOnce(s, n)
  {
  }

  lemma DimensionWriteOnce(s: FilterState, d: Direction, parsed: DimensionResult, env: Env)
    requires WellFormedDims(parsed.dims)
    ensures KeepsWriteOnce(s, SetDimension(s, d, parsed, env).next)
  {
    SetDimensionSpec(s, d, parsed, env);
    PortWriteOnce(s, SetDimension(s, d, parsed, env).next, d);
  }

  lemma TypeWriteOnce(s: FilterState, d: Direction, name: string, env: Env)
    requires PortInv(PortOf(s, d))
    ensures KeepsWriteOnce(s, SetType(s, d, name, env).next)
  {
    SetTypeSpec(s, d, name, env);
    PortWriteOnce(s, SetType(s, d, name, env).next, d);
  }

  lemma FrameworkWriteOnce(s: FilterState, name: string, env: Env)
    ensures KeepsWriteOnce(s, SetFramework(s, name, env).next)
  {
    var n := SetFramework(s, name, env).next;
    assert n == s || (s.nnfw == Undefined && n == s.(nnfw := n.nnfw, fw := n.fw));
  }

  /** The write-once fields that are set in s keep their values in n. */
  predicate KeepsWriteOnce(s: FilterState, n: FilterState) {
    && (s.nnfw != Undefined ==> n.nnfw == s.nnfw && n.fw == s.fw)
    && (s.model != None ==> n.model == s.model)
    && (forall d: Direction :: PortOf(s, d).configured ==>
          PortOf(n, d).configured && PortOf(n, d).dims == PortOf(s, d).dims)
    && (forall d: Direction :: PortOf(s, d).ttype != End ==> PortOf(n, d).ttype == PortOf(s, d).ttype)
  }

  /** A step confined to direction d that keeps d's set fields keeps every write-once field. */
  lemma PortWriteOnce(s: FilterState, n: FilterState, d: Direction)
    requires n == s || (n.(input := s.input, output := s.output, capsFixed := s.capsFixed) == s && PortOf(n, Other(d)) == PortOf(s, Other(d)))
    requires PortOf(s, d).configured ==> PortOf(n, d).configured && PortOf(n, d).dims == PortOf(s, d).dims
    requires PortOf(s, d).ttype != End ==> PortOf(n, d).ttype == PortOf(s, d).ttype
    ensures KeepsWriteOnce(s, n)
  {
    assert n.nnfw == s.nnfw && n.fw == s.fw && n.model == s.model;
    forall e: Direction
      ensures PortOf(s, e).configured ==> PortOf(n, e).configured && PortOf(n, e).dims == PortOf(s, e).dims
      ensures PortOf(s, e).ttype != End ==> PortOf(n, e).ttype == PortOf(s, e).ttype
    {
      if e != d {
        assert e == Other(d);
      }
    }
  }

  /**
   * Setting the type and then the dimension of a direction, or the dimension
   * and then the type, succeeds in both orders or in neither, and ends in the
   * same state with the caps fixed once.
   */
  lemma ConfigurationOrder(s: FilterState, d: Direction, parsed: DimensionResult, name: string, env: Env)
    requires Inv(s) && WellFormedDims(parsed.dims)
    requires !PortOf(s, d).configured && PortOf(s, d).ttype == End
    requires 0 < parsed.rank <= Dimension.RankLimit && ParseType(name) != End
    ensures var a1 := SetType(s, d, name, env);
      var b1 := SetDimension(s, d, parsed, env);
      PortInv(PortOf(b1.next, d))
      && var a2 := SetDimension(a1.next, d, parsed, env);
      var b2 := SetType(b1.next, d, name, env);
      && (a1.out == Accepted && a2.out == Accepted <==> b1.out == Accepted && b2.out == Accepted)
      && (a1.out == Accepted && a2.out == Accepted ==>
            a2.next == b2.next
            && a2.next.capsFixed == s.capsFixed + [CapsEvent(d, CapsOf(ParseType(name), parsed.dims))])
  {
    var t := ParseType(name);
    var a1 := SetType(s, d, name, env);
    var b1 := SetDimension(s, d, parsed, env);
    assert a1.out == Accepted && a1.next == WithPort(s, d, PortOf(s, d).(ttype := t));
    assert b1.out == Accepted && b1.next == WithPort(s, d, PortOf(s, d).(configured := true, dims := parsed.dims));
    assert PortOf(b1.next, d).dims == parsed.dims;
  }

  /** A dimension string that parses passes both dimension guards, so only the pad can still refuse it. */
  lemma ParsedDimensionAccepted(str: string, s: FilterState, d: Direction, env: Env)
    requires Dimension.ParseDimension(str).Ok?
    requires !PortOf(s, d).configured
    ensures var p := Dimension.ParseDimension(str).value;
      var r := DimensionResult(p.rank, p.dims);
      WellFormedDims(r.dims)
      && (SetDimension(s, d, r, env).out == Accepted <==>
            PortOf(s, d).ttype == End || env.padAccepts(d, CapsOf(PortOf(s, d).ttype, r.dims)))
  {
    var p := Dimension.ParseDimension(str).value;
    assert forall i :: 0 <= i < |p.dims| ==> 0 < p.dims[i] <= MaxUInt32;
    SetDimensionSpec(s, d, DimensionResult(p.rank, p.dims), env);
  }

  /** A step that changes at most direction d leaves every property of the rest of the element as it was. */
  lemma PortFrame(s: FilterState, n: FilterState, d: Direction)
    requires n.(input := s.input, output := s.output, capsFixed := s.capsFixed) == s
    requires PortOf(n, Other(d)) == PortOf(s, Other(d))
    ensures forall prop :: prop != DimensionProp(d) && prop != TypeProp(d) ==> PropertyValue(n, prop) == PropertyValue(s, prop)
  {
    assert n.silent == s.silent && n.debug == s.debug && n.nnfw == s.nnfw && n.model == s.model;
    forall prop | prop != DimensionProp(d) && prop != TypeProp(d)
      ensures PropertyValue(n, prop) == PropertyValue(s, prop)
    {
      if prop.DimensionProp? || prop.TypeProp? {
        assert prop.d == Other(d);
      }
    }
  }

  /** An accepted dimension reads back as written; every other property reads as before. */
  lemma ReadBackDimension(s: FilterState, d: Direction, parsed: DimensionResult, env: Env)
    requires WellFormedDims(parsed.dims) && SetDimension(s, d, parsed, env).out == Accepted
    ensures var n := SetDimension(s, d, parsed, env).next;
      && PropertyValue(n, DimensionProp(d)) == AxesValue(parsed.dims)
      && forall prop :: prop != DimensionProp(d) ==> PropertyValue(n, prop) == PropertyValue(s, prop)
  {
    var n := SetDimension(s, d, parsed, env).next;
    SetDimensionSpec(s, d, parsed, env);
    PortFrame(s, n, d);
    assert PortOf(n, d).ttype == PortOf(s, d).ttype;
    assert PropertyValue(n, TypeProp(d)) == PropertyValue(s, TypeProp(d));
  }

  /** An accepted type reads back as written; every other property reads as before. */
  lemma ReadBackType(s: FilterState, d: Direction, name: string, env: Env)
    requires PortInv(PortOf(s, d)) && SetType(s, d, name, env).out == Accepted
    ensures var n := SetType(s, d, name, env).next;
      && PropertyValue(n, TypeProp(d)) == StringValue(Some(name))
      && forall prop :: prop != TypeProp(d) ==> PropertyValue(n, prop) == PropertyValue(s, prop)
  {
    var n := SetType(s, d, name, env).next;
    SetTypeSpec(s, d, name, env);
    PortFrame(s, n, d);
    assert PortOf(n, d).dims == PortOf(s, d).dims;
    assert PropertyValue(n, DimensionProp(d)) == PropertyValue(s, DimensionProp(d));
  }

  /** An accepted framework reads back as written; every other property reads as before. */
  lemma ReadBackFramework(s: FilterState, name: string, env: Env)
    requires SetFramework(s, name, env).out == Accepted
    ensures var n := SetFramework(s, name, env).next;
      && PropertyValue(n, FrameworkProp) == StringValue(Some(name))
      && forall prop :: prop != FrameworkProp ==> PropertyValue(n, prop) == PropertyValue(s, prop)
  {
    var n := SetFramework(s, name, env).next;
    SetFrameworkSpec(s, name, env);
    assert n.silent == s.silent && n.debug == s.debug && n.model == s.model;
    assert n.input == s.input && n.output == s.output;
  }

  /**
   * Reading a property back after it was set yields the value written, and an
   * accepted command changes no other property (the caps log aside).
   */
  lemma ReadBack(s: FilterState, c: Command, env: Env)
    requires Inv(s) && CommandOk(c)
    requires Apply(s, c, env).out == Accepted
    ensures PropertyValue(Apply(s, c, env).next, PropertyOf(c)) == WrittenValue(c)
    ensures forall prop :: prop != PropertyOf(c) ==> PropertyValue(Apply(s, c, env).next, prop) == PropertyValue(s, prop)
  {
    match c
    case FrameworkCmd(name) =>
      ReadBackFramework(s, name, env);
    case DimensionCmd(d, parsed) =>
      ReadBackDimension(s, d, parsed, env);
    case TypeCmd(d, name) =>
      ReadBackType(s, d, name, env);
    case SilentCmd(b) =>
      ReadBackFlags(s, SilentProp, s.(silent := b));
    case DebugCmd(b) =>
      ReadBackFlags(s, DebugProp, s.(debug := b));
    case ModelCmd(path) =>
      ReadBackModel(s, path, env);
  }

  /** Setting one flag leaves every other property as it was. */
  lemma ReadBackFlags(s: FilterState, flag: Property, n: FilterState)
    requires flag == SilentProp || flag == DebugProp
    requires n == (if flag == SilentProp then s.(silent := n.silent) else s.(debug := n.debug))
    ensures forall prop :: prop != flag ==> PropertyValue(n, prop) == PropertyValue(s, prop)
  {
  }

  /** An accepted model path reads back as written; every other property reads as before. */
  lemma ReadBackModel(s: FilterState, path: string, env: Env)
    requires SetModel(s, path, env).out == Accepted
    ensures var n := SetModel(s, path, env).next;
      && PropertyValue(n, ModelProp) == StringValue(Some(path))
      && forall prop :: prop != ModelProp ==> PropertyValue(n, prop) == PropertyValue(s, prop)
  {
    assert SetModel(s, path, env).next == s.(model := Some(path));
  }

  /**
   * A typical set-up: framework "custom", a model file, input type "uint8",
   * then input dimension "5".  Every call is accepted and the sink caps are
   * fixed once, by the last call, with rank 4 (what get_rank as written
   * returns) and the axes 5:1:1:1.
   */
  lemma ConfigureInput(env: Env, path: string)
    requires env.supportStatus(Custom) && path in env.regularFiles
    requires env.padAccepts(Input, TensorCaps(4, "uint8", [5, 1, 1, 1]))
    ensures Dimension.ParseDimension("5") == Ok(Dimension.Parsed(1, [5, 1, 1, 1]))
    ensures var s1 := SetFramework(InitialState(), "custom", env);
      var s2 := SetModel(s1.next, path, env);
      var s3 := SetType(s2.next, Input, "uint8", env);
      var s4 := SetDimension(s3.next, Input, DimensionResult(1, [5, 1, 1, 1]), env);
      && s1.out == Accepted && s2.out == Accepted && s3.out == Accepted && s4.out == Accepted
      && s3.next.capsFixed == []
      && s4.next.capsFixed == [CapsEvent(Input, TensorCaps(4, "uint8", [5, 1, 1, 1]))]
  {
    Dimension.ParseFive();
    SetFrameworkSpec(InitialState(), "custom", env);
    ParseName(UInt8);
  }
}
