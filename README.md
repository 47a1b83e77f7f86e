# tensor_filter configuration and tensor_transform kernels, in Dafny

This project models two parts of NNStreamer, a set of GStreamer elements for neural-network pipelines.

1. **The configuration protocol of the `tensor_filter` element.** This covers:
   - the framework registry (the `nnfw_names` table and the sub-plugin table);
   - the write-once properties (framework, model, input and output dimension, input and output type);
   - the caps-fixing step, which runs when both the type and the dimension of a direction are known; it uses `gst_tensor_filter_get_rank` as the program has it, so the caps always carry rank 4 (the intended rank is kept apart, see "## Findings");
   - `get_property`.

   The element is a class, `TensorFilter.Filter`. Its methods update its fields and its two dimension arrays in place. Each method is proved to perform one transition of a state machine over values, `FilterModel`. The protocol's properties are proved about that state machine:
   - the invariant every call keeps;
   - that a write-once field never changes once set;
   - that the caps are fixed exactly once per direction, by whichever of the two setters runs second;
   - that setting type and dimension gives the same result in either order;
   - that each property reads back as written;
   - the exact acceptance condition of every setter, in both directions.

2. **The element-wise kernels of `tensor_transform` and its typecast/arithmetic chains, as the unit tests pin them down.** This covers:
   - in-place add and multiply by a constant, on integer arrays, exact where no element overflows (overflow is taken to wrap around, see "## Left out");
   - conversion between element types, following C cast semantics;
   - the output type and byte size of a typecast or arithmetic chain;
   - left-to-right evaluation of the chain's steps.

   Every integer case of the unit tests is restated as a lemma and proved.

Values are mathematical integers. The fixed-width behaviour of C is written out:
- `TensorTypes.Wrap` is reduction modulo 2^width, read as signed or unsigned.
- `TensorTransform.TruncDiv` is division truncating toward zero.

Floating-point values appear only where they are integers that the type represents exactly (`TensorTypes.InRange`).

The environment of the filter is a parameter, `FilterModel.Env`. It holds:
- which frameworks the build supports;
- which paths are regular files;
- whether a pad takes the caps it is given.

A failed `g_assert` of the C code aborts the process. Here it is a `Rejected(reason)` outcome that leaves the element's state unchanged.

Modules, in dependency order: `Wrappers`, `TensorTypes`, `Dimension`, `OrcKernels`, `TensorTransform`, `FilterModel`, `TensorFilter`, `OrcCases`, `TransformCases`.

## Model

| member | source | states |
|---|---|---|
| `FilterModel.FrameworkAt` | tensor_filter/tensor_filter.c:85-104 | the framework of a table slot is the one whose slot index (shared by the name table and the sub-plugin table) is that slot |
| `FilterModel.FindKey` | tensor_filter/tensor_filter.c:375 | the framework lookup returns the first slot holding the name (compared exactly), or -1 exactly when no slot holds it |
| `FilterModel.InitialState` | tensor_filter/tensor_filter.c:245-268 | after init silent and debug are off, the framework reads "Not supported", the model and both types read NULL, both dimensions read 1:1:1:1, neither dimension is set and no caps are applied |
| `FilterModel.LookupFramework` | tensor_filter/tensor_filter.c:372-381 | a framework the lookup selects has the given name in the table, is not the undefined slot, is supported by the build and has a sub-plugin; a name missing from the table is rejected as unknown |
| `FilterModel.SetFramework` | tensor_filter/tensor_filter.c:372-381 | a rejected PROP_FRAMEWORK changes nothing; an accepted one needs the framework unset, reads back as the name, attaches a sub-plugin and changes no other field |
| `FilterModel.SetModel` | tensor_filter/tensor_filter.c:382-387 | a rejected PROP_MODEL changes nothing; an accepted one needs the model unset and a regular file, and then only the model changes, reading back as the path |
| `FilterModel.SetDimension` | tensor_filter/tensor_filter.c:388-410 | a rejected PROP_INPUT/PROP_OUTPUT changes nothing; an accepted one needs the dimension unset, reads back as the parsed axes, leaves the other direction alone, and applies one caps event exactly when the type is already set |
| `FilterModel.SetType` | tensor_filter/tensor_filter.c:411-426 | a rejected PROP_INPUTTYPE/PROP_OUTPUTTYPE changes nothing; an accepted one needs the type unset, reads back as the name, leaves the other direction alone, and applies one caps event exactly when the dimension is already set |
| `FilterModel.Apply` | tensor_filter/tensor_filter.c:355-431 | a rejected set_property changes nothing, and every call only appends to the caps log, at most one event |
| `FilterModel.CapsOf` | tensor_filter/tensor_filter.c:333-341 | the caps fix_caps builds carry rank 4 (get_rank as written), the four axes, and a type name that parses back to the type |
| `FilterModel.IntendedCapsOf` | tensor_filter/tensor_filter.c:275-286 | the caps of the intended rank: a rank in 1..4 that is 4 exactly when the outermost axis exceeds 1, the four axes, and a type name that parses back to the type |
| `FilterModel.CapsAgree` | tensor_filter/tensor_filter.c:275-286 | the caps of the program and the caps of the intended rank agree exactly when the outermost axis exceeds 1 |
| `FilterModel.CapsDiscrepancy` | tensor_filter/tensor_filter.c:282-283 | on 5:1:1:1 the program's caps carry rank 4 where the intended caps carry rank 1 |
| `FilterModel.FixCapsResult` | tensor_filter/tensor_filter.c:311-353 | the caps step succeeds iff every axis is positive and the pad takes the caps, it then yields those caps, and it fails for a non-positive axis exactly when one exists |
| `FilterModel.TypeName` | tensor_filter/tensor_filter.c:474-479 | a type reads as NULL exactly while unset, and a name read back parses to the type set |
| `FilterModel.PropertyValue` | tensor_filter/tensor_filter.c:433-484 | get_property of the framework is always a name from the table; of a type, NULL exactly while the type is unset, and otherwise a name that parses back to that type |
| `FilterModel.LookupFrameworkSpec` | tensor_filter/tensor_filter.c:372-381 | a name selects a framework iff it is "custom" or "tensorflow-lite" and the build supports it; the selected slot's name is the name given; an unknown name is rejected as unknown |
| `FilterModel.SetFrameworkSpec` | tensor_filter/tensor_filter.c:372-381 | PROP_FRAMEWORK is accepted iff no framework is set yet and the lookup succeeds; the framework then reads back as the name, a sub-plugin is attached, and nothing else changes; a rejection changes nothing |
| `FilterModel.SetModelSpec` | tensor_filter/tensor_filter.c:382-387 | PROP_MODEL is accepted iff no model is set and the path is a regular file; only the model field changes; a rejection changes nothing |
| `FilterModel.SetDimensionSpec` | tensor_filter/tensor_filter.c:388-410 | PROP_INPUT/PROP_OUTPUT is accepted iff the dimension is unset, the rank is in 1..4 and, when the type is already set, every axis is positive and the pad takes the rank-4 caps of `FilterModel.CapsOf`; then the dimension reads back as parsed and the other direction is untouched |
| `FilterModel.SetTypeSpec` | tensor_filter/tensor_filter.c:411-426 | PROP_INPUTTYPE/PROP_OUTPUTTYPE is accepted iff the type is unset, the name is an element type and, when the dimension is already set, every axis is positive and the pad takes the rank-4 caps of `FilterModel.CapsOf`; then the type reads back as the name |
| `FilterModel.InitialState_Inv` | tensor_filter/tensor_filter.c:245-268 | the initial state satisfies the invariant, the framework reads "Not supported", and both types read as unset |
| `FilterModel.CapsCountAppend` | tensor_filter/tensor_filter.c:311-353 | logging one caps application adds one to the count of its own pad, and nothing to the count of the other pad |
| `FilterModel.PortStep` | tensor_filter/tensor_filter.c:387-426 | a step that changes only one direction and logs that direction's caps exactly when it completes keeps the invariant |
| `FilterModel.ScalarStep` | tensor_filter/tensor_filter.c:366-387 | a step that changes neither direction keeps the invariant and fixes no caps |
| `FilterModel.SetFrameworkInv` | tensor_filter/tensor_filter.c:372-381 | setting the framework keeps the invariant, in particular that a sub-plugin is attached exactly when a framework is selected, and fixes no caps |
| `FilterModel.SetDimensionInv` | tensor_filter/tensor_filter.c:388-410 | setting a dimension keeps the invariant and logs caps only for the direction it completes |
| `FilterModel.SetTypeInv` | tensor_filter/tensor_filter.c:411-426 | setting a type keeps the invariant and logs caps only for the direction it completes |
| `FilterModel.ApplyPreservesInv` | tensor_filter/tensor_filter.c:355-431 | every set_property call keeps the invariant; the caps log grows by exactly the events of the directions the call completes, with the caps of their type and dimension at the rank get_rank as written gives (4) |
| `FilterModel.WriteOnce` | tensor_filter/tensor_filter.c:372-426 | once the framework, the model, a dimension or a type is set, no call changes it |
| `FilterModel.FrameworkWriteOnce` | tensor_filter/tensor_filter.c:372-381 | PROP_FRAMEWORK changes a set framework, model, dimension or type never |
| `FilterModel.ModelWriteOnce` | tensor_filter/tensor_filter.c:382-387 | PROP_MODEL changes a set framework, model, dimension or type never |
| `FilterModel.DimensionWriteOnce` | tensor_filter/tensor_filter.c:388-410 | PROP_INPUT/PROP_OUTPUT changes a set framework, model, dimension or type never |
| `FilterModel.TypeWriteOnce` | tensor_filter/tensor_filter.c:411-426 | PROP_INPUTTYPE/PROP_OUTPUTTYPE changes a set framework, model, dimension or type never |
| `FilterModel.ConfigurationOrder` | tensor_filter/tensor_filter.c:388-426 | setting the type and then the dimension succeeds iff setting them in the other order does, and both orders reach the same state with the same caps, of rank 4, fixed once |
| `FilterModel.ParsedDimensionAccepted` | tensor_filter/tensor_filter.c:388-398 | a dimension string that parses always passes the rank and positive-axis guards, so only the pad can still refuse it |
| `FilterModel.ReadBackFramework` | tensor_filter/tensor_filter.c:450-452 | after an accepted PROP_FRAMEWORK the framework reads back as the name given, and no other property changes |
| `FilterModel.ReadBackModel` | tensor_filter/tensor_filter.c:453-455 | after an accepted PROP_MODEL the model reads back as the path given, and no other property changes |
| `FilterModel.ReadBackDimension` | tensor_filter/tensor_filter.c:456-473 | after an accepted PROP_INPUT/PROP_OUTPUT the dimension reads back as the four axes parsed, and no other property changes |
| `FilterModel.ReadBackType` | tensor_filter/tensor_filter.c:474-479 | after an accepted PROP_INPUTTYPE/PROP_OUTPUTTYPE the type reads back as the name given, and no other property changes |
| `FilterModel.ReadBack` | tensor_filter/tensor_filter.c:433-484 | after an accepted set_property, get_property of that property returns the value written, and every other property reads as before |
| `FilterModel.ConfigureInput` | tensor_filter/tensor_filter.c:355-431 | framework "custom", a model, type "uint8" and dimension "5" are all accepted, and the last call alone fixes the sink caps, with rank 4 (what get_rank as written returns) and axes 5:1:1:1 |
| `TensorFilter.GetRankAsWritten` | tensor_filter/tensor_filter.c:275-286 | the loop as written fails iff some axis is not positive, and otherwise returns 4 whatever the axes |
| `TensorFilter.GetRank` | tensor_filter/tensor_filter.c:275-286 | the corrected loop fails iff some axis is not positive, and otherwise returns the intended rank `Dimension.RankOf` |
| `TensorFilter.GetRankDiscrepancy` | tensor_filter/tensor_filter.c:282-283 | for the positive dimension 5:1:1:1 the intended rank is 1, not the 4 the loop as written returns |
| `TensorFilter.FixCaps` | tensor_filter/tensor_filter.c:311-353 | the caps step, calling get_rank as written, fails on a non-positive axis or a refusing pad, and otherwise yields the caps of rank 4, the type name and the four axes |
| `TensorFilter.CopyAxes` | tensor_filter/tensor_filter.c:392 | the dimension array holds exactly the four parsed axes |
| `TensorFilter.Filter.constructor` | tensor_filter/tensor_filter.c:245-268 | the new element is in the initial state: nothing set, all axes 1, both types unset |
| `TensorFilter.Filter.SetSilent` | tensor_filter/tensor_filter.c:366-368 | always accepted; only the silent flag changes |
| `TensorFilter.Filter.SetDebug` | tensor_filter/tensor_filter.c:369-371 | always accepted; only the debug flag changes |
| `TensorFilter.Filter.SetFramework` | tensor_filter/tensor_filter.c:372-381 | the in-place update performs the framework transition, outcome and new state alike |
| `TensorFilter.Filter.SetModel` | tensor_filter/tensor_filter.c:382-387 | the in-place update performs the model transition |
| `TensorFilter.Filter.CommitDimension` | tensor_filter/tensor_filter.c:388-410 | writes the axes into that direction's array, marks the dimension set, and appends the caps events, leaving everything else |
| `TensorFilter.Filter.CommitType` | tensor_filter/tensor_filter.c:411-426 | sets that direction's type and appends the caps events, leaving everything else |
| `TensorFilter.Filter.SetDimension` | tensor_filter/tensor_filter.c:388-410 | the in-place update, including the dimension array written in place and the caps of rank 4 when the type is set, performs the dimension transition and keeps the invariant |
| `TensorFilter.Filter.SetType` | tensor_filter/tensor_filter.c:411-426 | the in-place update, including the caps of rank 4 when the dimension is set, performs the type transition and keeps the invariant |
| `TensorFilter.Filter.SetProperty` | tensor_filter/tensor_filter.c:355-431 | dispatch on the property performs that property's transition |
| `TensorFilter.Filter.GetProperty` | tensor_filter/tensor_filter.c:433-484 | returns the property's value; a dimension comes back as its four axes, copied by a loop; an unset type comes back as NULL |
| `TensorTypes.ParseType` | tensor_filter/tensor_filter.c:411-426 | a name that parses is the canonical name of the type it gives |
| `TensorTypes.ParseName` | tensor_filter/tensor_filter.c:411-426 | the canonical name of every element type parses back to that type |
| `TensorTypes.ParseTypeAccepts` | tensor_filter/tensor_filter.c:414-415 | a name is accepted iff it is the name of some element type |
| `TensorTypes.Wrap` | tests/nnstreamer_plugins/unittest_plugins.cpp:2163-2680 | the C conversion to an integer type lies in the type's range and is congruent to the value modulo 2^width |
| `TensorTypes.WrapUnique` | tests/nnstreamer_plugins/unittest_plugins.cpp:2163-2680 | that conversion is the only in-range value congruent to the source |
| `TensorTypes.WrapIdentity` | tests/nnstreamer_plugins/unittest_plugins.cpp:2163-2680 | a value of a type converts to itself |
| `TensorTypes.WrapIdempotent` | tests/nnstreamer_plugins/unittest_plugins.cpp:2163-2680 | converting twice to one type is converting once |
| `TensorTypes.WrapShift` | tests/nnstreamer_plugins/unittest_plugins.cpp:2163-2680 | a value a whole number of 2^width windows away from a value of the type converts to that value |
| `TensorTypes.WrapAddAssoc` | tests/nnstreamer_plugins/unittest_plugins.cpp:2865-2920 | wrapping after each of two additions equals wrapping once after both |
| `OrcKernels.ConvElem` | tests/nnstreamer_plugins/unittest_plugins.cpp:2163-2860 | every conversion result lies in the target type |
| `OrcKernels.CCast` | tests/nnstreamer_plugins/unittest_plugins.cpp:2163-2680 | the reference C cast into an integer type: the in-range value congruent modulo 2^width; it keeps a value the type already holds |
| `OrcKernels.ConvIsCCast` | tests/nnstreamer_plugins/unittest_plugins.cpp:2163-2680 | between integer types, a conversion is exactly the C cast, in both directions: the result is the cast, and any value that is the cast is the result |
| `OrcKernels.ConvSameType` | tests/nnstreamer_plugins/unittest_plugins.cpp:2163-2860 | converting to the same type keeps the value |
| `OrcKernels.ConvPreservesCommonValues` | tests/nnstreamer_plugins/unittest_plugins.cpp:2163-2680 | a value both integer types hold is kept |
| `OrcKernels.ConvWidenUnsigned` | tests/nnstreamer_plugins/unittest_plugins.cpp:2250-2332 | widening an unsigned value keeps it |
| `OrcKernels.ConvWidenSigned` | tests/nnstreamer_plugins/unittest_plugins.cpp:2163-2245 | widening a signed value keeps it, except that a negative value going to an unsigned type gains 2^width |
| `OrcKernels.WidthOrder` | tests/nnstreamer_plugins/unittest_plugins.cpp:2163-2680 | a wider integer type has at least twice the modulus of a narrower one, and holds all of its range when the narrower one is unsigned or both are signed |
| `OrcKernels.ConvUInt32ToFloat` | tests/nnstreamer_plugins/unittest_plugins.cpp:2663-2679 | uint32 to a floating type is read as int32 first: values from 2^31 lose 2^32 |
| `OrcKernels.UInt32ToFloat64Defined` | tests/nnstreamer_plugins/unittest_plugins.cpp:2672-2679 | every uint32 value converts to float64 |
| `OrcKernels.ConvFloatToUnsigned` | tests/nnstreamer_plugins/unittest_plugins.cpp:2685-2860 | a floating value goes to an unsigned type through the signed type of the same width: negatives gain 2^width |
| `OrcKernels.ConvFloatToSigned` | tests/nnstreamer_plugins/unittest_plugins.cpp:2685-2860 | a floating value in range converts to a signed type unchanged |
| `OrcKernels.ConvSeq` | tests/nnstreamer_plugins/unittest_plugins.cpp:2163-2860 | converting a buffer keeps its length and puts every element in the target type |
| `OrcKernels.Convert` | tests/nnstreamer_plugins/unittest_plugins.cpp:2163-2860 | the conversion kernel writes the converted first n source elements into the destination and leaves the rest of it; source and destination may be the same array |
| `OrcKernels.AddC` | tests/nnstreamer_plugins/unittest_plugins.cpp:1782-1940 | the in-place add-constant kernel leaves the array equal to the wrapped sums over the first n elements |
| `OrcKernels.MulC` | tests/nnstreamer_plugins/unittest_plugins.cpp:1945-2103 | the in-place multiply-constant kernel leaves the array equal to the wrapped products over the first n elements |
| `OrcKernels.AddConst` | tests/nnstreamer_plugins/unittest_plugins.cpp:1782-1940 | adding a constant to the first n elements keeps the length, keeps those elements in the type's range, and leaves the elements past n alone |
| `OrcKernels.MulConst` | tests/nnstreamer_plugins/unittest_plugins.cpp:1945-2103 | multiplying the first n elements by a constant keeps the length, keeps those elements in the type's range, and leaves the elements past n alone |
| `OrcKernels.AddConstOf` | tests/nnstreamer_plugins/unittest_plugins.cpp:1782-1940 | a buffer holding the wrapped sums over the first n elements, and the source beyond, is the result of the addition |
| `OrcKernels.MulConstOf` | tests/nnstreamer_plugins/unittest_plugins.cpp:1945-2103 | a buffer holding the wrapped products over the first n elements, and the source beyond, is the result of the multiplication |
| `OrcKernels.AddConstSpec` | tests/nnstreamer_plugins/unittest_plugins.cpp:1782-1940 | adding keeps the length, keeps elements in range, is exact when no element overflows, and leaves elements past n alone |
| `OrcKernels.MulConstSpec` | tests/nnstreamer_plugins/unittest_plugins.cpp:1945-2103 | multiplying keeps the length, keeps elements in range, is exact when no element overflows, and leaves elements past n alone |
| `OrcKernels.AddConstComposeAt` | tests/nnstreamer_plugins/unittest_plugins.cpp:2875-2895 | element by element, adding p and then q equals adding p + q, modulo 2^width |
| `OrcKernels.AddConstCompose` | tests/nnstreamer_plugins/unittest_plugins.cpp:2875-2895 | adding p and then q equals adding p + q, modulo 2^width |
| `OrcCases.AddExact` | tests/nnstreamer_plugins/unittest_plugins.cpp:1782-1940 | with no overflow, the add kernel adds the constant to every element |
| `OrcCases.MulExact` | tests/nnstreamer_plugins/unittest_plugins.cpp:1945-2103 | with no overflow, the multiply kernel multiplies every element by the constant |
| `OrcCases.OrcAddS8` | tests/nnstreamer_plugins/unittest_plugins.cpp:1787-1809 | the s8 cases: i - 1 plus -20, and i + 1 plus 20 |
| `OrcCases.OrcAddU8` | tests/nnstreamer_plugins/unittest_plugins.cpp:1810-1822 | the u8 case: i + 1 plus 3 |
| `OrcCases.OrcAddS16` | tests/nnstreamer_plugins/unittest_plugins.cpp:1823-1845 | the s16 cases: i - 1 plus -16, and i + 1 plus 16 |
| `OrcCases.OrcAddU16` | tests/nnstreamer_plugins/unittest_plugins.cpp:1846-1858 | the u16 case: i + 1 plus 17 |
| `OrcCases.OrcAddS32` | tests/nnstreamer_plugins/unittest_plugins.cpp:1859-1881 | the s32 cases: i + 1 plus -32, and i + 1 plus 32 |
| `OrcCases.OrcAddU32` | tests/nnstreamer_plugins/unittest_plugins.cpp:1882-1894 | the u32 case: i + 1 plus 33 |
| `OrcCases.OrcMulS8` | tests/nnstreamer_plugins/unittest_plugins.cpp:1950-1972 | the s8 cases: i + 1 times -3, and times 5 |
| `OrcCases.OrcMulU8` | tests/nnstreamer_plugins/unittest_plugins.cpp:1973-1985 | the u8 case: i + 1 times 3 |
| `OrcCases.OrcMulS16` | tests/nnstreamer_plugins/unittest_plugins.cpp:1986-2008 | the s16 cases: i + 1 times -16, and times 16 |
| `OrcCases.OrcMulU16` | tests/nnstreamer_plugins/unittest_plugins.cpp:2009-2021 | the u16 case: i + 1 times 17 |
| `OrcCases.OrcMulS32` | tests/nnstreamer_plugins/unittest_plugins.cpp:2022-2044 | the s32 cases: i + 1 times -32, and times 32 |
| `OrcCases.OrcMulU32` | tests/nnstreamer_plugins/unittest_plugins.cpp:2045-2057 | the u32 case: i + 1 times 33 |
| `OrcCases.IntegerTarget` | tests/nnstreamer_plugins/unittest_plugins.cpp:2163-2860 | a buffer converts to an integer type as the given values when each is its source shifted by whole 2^width windows and lies in the target |
| `OrcCases.FloatTarget` | tests/nnstreamer_plugins/unittest_plugins.cpp:2163-2860 | a buffer converts to a floating type as its own values, with uint32 read as int32 |
| `OrcCases.OrcConvS8` | tests/nnstreamer_plugins/unittest_plugins.cpp:2163-2245 | -(i + 1) as s8 converts to itself in every signed and floating type, and to 2^N - (i + 1) in each unsigned N-bit type |
| `OrcCases.OrcConvU8` | tests/nnstreamer_plugins/unittest_plugins.cpp:2250-2332 | 255 - i converts to -1 - i in s8 and to itself in every other type |
| `OrcCases.OrcConvS16` | tests/nnstreamer_plugins/unittest_plugins.cpp:2337-2419 | -(i + 1) as s16: as for s8 |
| `OrcCases.OrcConvU16` | tests/nnstreamer_plugins/unittest_plugins.cpp:2424-2506 | 65535 - i converts to -1 - i in s8 and s16, to 255 - i in u8, and to itself elsewhere |
| `OrcCases.OrcConvS32` | tests/nnstreamer_plugins/unittest_plugins.cpp:2511-2593 | -(i + 1) as s32: as for s8 |
| `OrcCases.OrcConvU32` | tests/nnstreamer_plugins/unittest_plugins.cpp:2598-2680 | 2^32 - 1 - i converts to -1 - i in each signed type, 2^N - 1 - i in each unsigned type, and -(i + 1) in each floating type |
| `OrcCases.OrcConvF32` | tests/nnstreamer_plugins/unittest_plugins.cpp:2685-2770 | -(i + 1) as f32 converts to itself in every signed and floating type, and to 2^N - (i + 1) in each unsigned type |
| `OrcCases.OrcConvF64` | tests/nnstreamer_plugins/unittest_plugins.cpp:2775-2860 | -(i + 1) as f64: as for f32 |
| `OrcCases.OrcPerformance` | tests/nnstreamer_plugins/unittest_plugins.cpp:2865-2929 | on n zero bytes, the kernel's addition of 2 gives 2 and the loop's gives 4; the kernel's multiplication by 2 gives 8 and the loop's 16; the conversion to float32 gives 16 |
| `Dimension.Split` | tensor_filter/tensor_filter.c:392 | splitting yields at least one field and no field holds the separator |
| `Dimension.SplitJoin` | tensor_filter/tensor_filter.c:392 | splitting the join of separator-free fields gives back the fields |
| `Dimension.DecimalRoundTrip` | tensor_filter/tensor_filter.c:392 | the decimal digits of a number read back as that number |
| `Dimension.ParseAxis` | tensor_filter/tensor_filter.c:392 | an accepted axis is all digits and lies in 1..65535 |
| `Dimension.ParseAxes` | tensor_filter/tensor_filter.c:392 | accepted axes become four values in 1..65535, with the axes not written set to 1 |
| `Dimension.ParseDimension` | tensor_filter/tensor_filter.c:392-393 | an accepted dimension string has 1..4 axes written, each in range, the rest 1 |
| `Dimension.ParseFormat` | tensor_filter/tensor_filter.c:392-393 | formatting a well-formed dimension and parsing it back gives the same dimension |
| `Dimension.RankOf` | tensor_filter/tensor_filter.c:275-286 | the intended rank lies in 1..4, every axis from the rank on is at most 1, and when the rank exceeds 1 the axis just below it is greater than 1 |
| `Dimension.SingleAxisCount` | tests/nnstreamer_plugins/unittest_plugins.cpp:53-58 | a one-axis dimension has as many elements as that axis |
| `Dimension.ParseFive` | tests/nnstreamer_plugins/unittest_plugins.cpp:53 | "5" parses to rank 1, axes 5:1:1:1, five elements, intended rank 1 |
| `TensorTransform.TypecastMode` | tests/nnstreamer_plugins/unittest_plugins.cpp:33-977 | typecast mode is a chain whose first step is the typecast, and its output type is the target whatever the input type |
| `TensorTransform.OutputType` | tests/nnstreamer_plugins/unittest_plugins.cpp:1055-1552 | the output type of a chain is the input type or the target of one of its typecasts |
| `TensorTransform.Effective` | tests/nnstreamer_plugins/unittest_plugins.cpp:1483-1552 | dropping the later typecasts never lengthens a chain, and changes nothing in a chain without a typecast |
| `TensorTransform.RunType` | tests/nnstreamer_plugins/unittest_plugins.cpp:1335-1700 | the working type after a chain is the starting type or the target of one of its typecasts |
| `TensorTransform.TransformBuffer` | tests/nnstreamer_plugins/unittest_plugins.cpp:33-1700 | the transformed buffer has one element per input element, each in the output type |
| `TensorTransform.OutputTypeNoTypecast` | tests/nnstreamer_plugins/unittest_plugins.cpp:1055-1260 | a chain without a typecast keeps the input type |
| `TensorTransform.OutputTypeFirst` | tests/nnstreamer_plugins/unittest_plugins.cpp:1335-1552 | the output type of a chain is the target of its first typecast |
| `TensorTransform.Arithmetic` | tests/nnstreamer_plugins/unittest_plugins.cpp:1483-1552 | the arithmetic steps of a chain hold no typecast |
| `TensorTransform.EffectiveKeeps` | tests/nnstreamer_plugins/unittest_plugins.cpp:1483-1552 | dropping the later typecasts keeps both the arithmetic steps and the output type |
| `TensorTransform.EffectiveOneTypecast` | tests/nnstreamer_plugins/unittest_plugins.cpp:1483-1552 | after dropping, at most one typecast is left |
| `TensorTransform.ArithmeticIdempotent` | tests/nnstreamer_plugins/unittest_plugins.cpp:1483-1552 | taking the arithmetic steps twice is taking them once |
| `TensorTransform.TruncDiv` | tests/nnstreamer_plugins/unittest_plugins.cpp:1631-1700 | C division truncates toward zero: the remainder a - q·b has the sign of the dividend and is smaller than the divisor in magnitude, and for non-negative operands this is ordinary division |
| `TensorTransform.StepValue` | tests/nnstreamer_plugins/unittest_plugins.cpp:1631-1700 | a step's result is stored back at the width of its working type |
| `TensorTransform.RunValue` | tests/nnstreamer_plugins/unittest_plugins.cpp:1631-1700 | a chain's result lies in the chain's final working type |
| `TensorTransform.RunAppend` | tests/nnstreamer_plugins/unittest_plugins.cpp:1631-1700 | running a concatenation of two chains is running them one after the other, in type and in value |
| `TensorTransform.RunTypeNoTypecast` | tests/nnstreamer_plugins/unittest_plugins.cpp:1055-1260 | arithmetic steps never change the working type |
| `TensorTransform.RunTypeIsOutputType` | tests/nnstreamer_plugins/unittest_plugins.cpp:1335-1700 | the working type at the end of the effective chain is the declared output type |
| `TensorTransform.TransformElem` | tests/nnstreamer_plugins/unittest_plugins.cpp:1335-1700 | every transformed element lies in the output type |
| `TensorTransform.TransformBufferSize` | tests/nnstreamer_plugins/unittest_plugins.cpp:33-1700 | the output buffer's byte size is the byte size of the dimension in the output type, and every element lies in that type |
| `TensorTransform.TypecastKeepsValue` | tests/nnstreamer_plugins/unittest_plugins.cpp:33-977 | typecast mode outputs the target type and keeps every value both types hold |
| `TransformCases.TypecastRange` | tests/nnstreamer_plugins/unittest_plugins.cpp:33-977 | typecast mode keeps every value of a range both types hold, and five elements take five target widths |
| `TransformCases.Typecast1` | tests/nnstreamer_plugins/unittest_plugins.cpp:33-101 | uint8 1..15 to uint32 keeps the values, in 20 bytes |
| `TransformCases.Typecast2` | tests/nnstreamer_plugins/unittest_plugins.cpp:179-247 | uint32 1..15 to float64 keeps the values, in 40 bytes |
| `TransformCases.Typecast3` | tests/nnstreamer_plugins/unittest_plugins.cpp:325-393 | int32 -15..-1 to float32 keeps the values, in 20 bytes |
| `TransformCases.Typecast4` | tests/nnstreamer_plugins/unittest_plugins.cpp:471-539 | int8 -15..-1 to float32 keeps the values |
| `TransformCases.Typecast5` | tests/nnstreamer_plugins/unittest_plugins.cpp:617-685 | uint8 1..15 to float32 keeps the values |
| `TransformCases.Typecast6` | tests/nnstreamer_plugins/unittest_plugins.cpp:763-831 | int16 -15..-1 to float32 keeps the values |
| `TransformCases.Typecast7` | tests/nnstreamer_plugins/unittest_plugins.cpp:909-977 | uint16 1..15 to float32 keeps the values |
| `TransformCases.ArithmeticKeepsType` | tests/nnstreamer_plugins/unittest_plugins.cpp:1055-1260 | "add:.5" on float32 and "mul:.5" on float64 keep the input type |
| `TransformCases.Arithmetic3` | tests/nnstreamer_plugins/unittest_plugins.cpp:1335-1404 | "typecast:float32,add:.5,mul:0.2" on uint8 yields float32, 20 bytes |
| `TransformCases.Arithmetic4` | tests/nnstreamer_plugins/unittest_plugins.cpp:1483-1552 | "typecast:float64,add:0.2,add:0.1,typecast:uint16" on uint8 yields float64, 40 bytes; the second typecast is dropped |
| `TransformCases.MulDivAddInt32` | tests/nnstreamer_plugins/unittest_plugins.cpp:1646-1647 | on int32, x * 2 / 2 - 1 is x - 1 for every byte value x |
| `TransformCases.Arithmetic5` | tests/nnstreamer_plugins/unittest_plugins.cpp:1631-1700 | "typecast:int32,mul:2,div:2,add:-1" on uint8 yields int32, 20 bytes, and maps every byte x to x - 1 |

## Left out

- Floating-point arithmetic is not modelled. This covers the float cases of `orc_add` and `orc_mul`, all of `orc_div` (it has float cases only), and the values of `arithmetic_1` to `arithmetic_4`. It also covers the float division, multiplication and addition steps of `orc_performance` and its combined typecast-add-multiply step. Dafny has no IEEE arithmetic to state them in. For these tests the model states only the output type and the byte size.
- OrcKernels.ConvElem: defined only where the source value is an integer that both types represent exactly. A floating source going to an integer type must also fit the signed type of the target's width. Outside that domain the C conversion rounds, or is undefined behaviour, so no value is modelled there. `OrcKernels.Convert`, `TensorTransform.StepValue` and `TensorTransform.TransformElem` inherit this domain.
- TensorTransform.StepValue: arithmetic steps are modelled on integer working types, with integral operands, only. A non-integral operand, division by zero, and the floating working types are left out.
- TensorTransform.OutputType: the chain is given as a sequence of steps. The parsing of the `mode`/`option` strings is not modelled. `tensor_transform`'s own source is not part of this model, so its chain semantics come from what the unit tests expect.
- OrcKernels.AddC / OrcKernels.MulC: no unit test makes an element overflow (every expected value is in range), so what the kernels do on overflow is not pinned down; wrap-around modulo 2^width is assumed. The kernels' own source is not part of this model, and they might saturate instead. `OrcKernels.AddConst`, `OrcKernels.MulConst` and `OrcKernels.AddConstCompose` share this assumption.
- The 64-bit element types have conversions and arithmetic in the model, but no unit test exercises them. The conversion cases therefore exclude 64-bit targets.
- The timing measurements and log output of `orc_performance` are not modelled. Time and printing are outside the model.
- FilterModel.Env stands in for three things:
  - the build's `nnfw_support_status` table, which is not part of this model;
  - `g_file_test`, which becomes a set of regular-file paths;
  - the pad's side of the caps step, which becomes an oracle on the computed caps. That side is `gst_pad_get_current_caps`, the intersection with the pad's current caps, and `gst_pad_set_caps`.
- The caps log records the caps the element computes. It does not record their intersection with the pad's current caps.
- `get_tensor_dimension`, `get_tensor_type` and `tensor_element_typename` are not part of this model; they come from the common tensor library.
  - The dimension setter takes what `get_tensor_dimension` returns as a value (`FilterModel.DimensionResult`), so every rank and axis the guards can meet is reachable.
  - `Dimension.ParseDimension` is a parser for the documented "d1:d2:d3:d4" format, linked to the setter by `FilterModel.ParsedDimensionAccepted`.
  - The type-name table is the set of canonical names `TensorTypes.Name`.
  - The name of the unset type (`_NNS_END`) is modelled as NULL.
- FilterModel.FindKey / TensorTypes.ParseType: the framework name and the type name are matched exactly, including case. `find_key_strv` and `get_tensor_type` are not part of this model, and the common tensor library may compare names ignoring ASCII case. Such a helper would also accept other casings, such as "CUSTOM" or "UINT8", and get_property would then read back the canonical name from `nnfw_names` or the type-name table, not the string given. `FilterModel.LookupFrameworkSpec`, `FilterModel.ReadBackFramework`, `FilterModel.ReadBackType` and `FilterModel.ReadBack` rest on this exact matching.
- A failed `g_assert` is modelled as a rejected call that changes nothing. The C code writes some fields before asserting, and a failed assertion then aborts the process.
- The `value != NULL` halves of the setter assertions, the `g_printerr` debug output, and the `G_OBJECT_WARN_INVALID_PROPERTY_ID` default branch are left out. `FilterModel.Command` has one constructor per valid property only.
- The stubbed callbacks are not modelled: `configure_tensor`, the transform callbacks, and `privateData`.
- The element registration, pad templates and GObject class set-up are not modelled.
- The typecast tests push three buffers of five values (i + 1)(b + 1). The model states each case for every value of the range those products cover (1..15, or -15..-1), rather than buffer by buffer.
- The model follows the unit tests on two points:
  - in mode `arithmetic` the option string names a typecast step with a `typecast:TYPE` token, while in mode `typecast` the option is the bare type name (`typecast_1` sets option "uint32");
  - a typecast after the first is ignored in values as well as in the type. `arithmetic_4` expects 1.3 read as float64, so the trailing `typecast:uint16` cannot have truncated the values.

## Findings

| source | as written | input that shows it | evidently intended | confidence | as-written member | corrected member |
|---|---|---|---|---|---|---|
| tensor_filter/tensor_filter.c:282-283 | the rank is set to i + 1 whenever the loop index i exceeds 1, so every dimension with positive axes has rank 4 | dimension "5" (axes 5:1:1:1): the loop returns 4 | the rank is the index of the outermost axis greater than 1 (here 1); the test is meant to be `dimension[i] > 1`, with at least rank 1 | not executed | `TensorFilter.GetRankAsWritten` (with `TensorFilter.GetRankDiscrepancy`) | `TensorFilter.GetRank` (proved equal to `Dimension.RankOf`) and `FilterModel.IntendedCapsOf`, related to the program's caps by `FilterModel.CapsAgree` and `FilterModel.CapsDiscrepancy`; the state machine and `TensorFilter.FixCaps` keep the rank as written, as the program does |
