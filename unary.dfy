/** Unary, Clip and Cast: element-wise operators whose output shape is their
    first input's shape, and the cast operator's output data type. */
module Unary {
  import opened Util
  import opened Types

  /** The conversions a cast operator can be asked for, spelled
      source-2-target; `Unlisted` stands for any enumerator the output-type
      table does not handle. */
  datatype CastType =
    | Float2Float16 | Float2Int64 | Float2Int32 | Float2Int16 | Float2Int8
    | Int322Float | Int322Int8 | Int322Int16
    | Int162Float | Int162Int32
    | Int82Float | Int82Int16 | Int82Int32
    | Uint82Float | Uint82Int32 | Uint82Int64
    | Int322Int64
    | Int642Int32 | Int642Uint32 | Int642Float
    | Uint322Int64
    | Float162Float | BFloat162Float | Float2BFloat16 | Float2Float
    | Unlisted

  /** Output shapes of a unary (element-wise) operator: its input's shape. */
  function UnaryShape(inputs: seq<Shape>): seq<Shape>
    requires |inputs| >= 1
  {
    [inputs[0]]
  }

  /** Output shapes of Clip: the shape of inputs[0] only, however many inputs
      (bound tensors) are present. */
  function ClipShape(inputs: seq<Shape>): seq<Shape>
    requires |inputs| >= 1
  {
    [inputs[0]]
  }

  /** Output shapes of Cast: its input's shape. */
  function CastShape(inputs: seq<Shape>): seq<Shape>
    requires |inputs| >= 1
  {
    [inputs[0]]
  }

  /** getOutputDataType: the table from conversion to target data type;
      an enumerator the table does not list halts. */
  function OutputDataType(c: CastType): (r: Result<DataType>)
    ensures r.Failure? <==> c == Unlisted
    ensures r.Failure? ==> r.error == UnsupportedCast
  {
    match c
    case Float2Float16 => Success(Float16)
    case Float2Int64 => Success(Int64)
    case Float2Int32 => Success(Int32)
    case Float2Int16 => Success(Int16)
    case Float2Int8 => Success(Int8)
    case Int322Float => Success(Float32)
    case Int322Int8 => Success(Int8)
    case Int322Int16 => Success(Int16)
    case Int162Float => Success(Float32)
    case Int162Int32 => Success(Int32)
    case Int82Float => Success(Float32)
    case Int82Int16 => Success(Int16)
    case Int82Int32 => Success(Int32)
    case Uint82Float => Success(Float32)
    case Uint82Int32 => Success(Int32)
    case Uint82Int64 => Success(Int64)
    case Int322Int64 => Success(Int64)
    case Int642Int32 => Success(Int32)
    case Int642Uint32 => Success(UInt32)
    case Int642Float => Success(Float32)
    case Uint322Int64 => Success(Int64)
    case Float162Float => Success(Float32)
    case BFloat162Float => Success(Float32)
    case Float2BFloat16 => Success(BFloat16)
    case Float2Float => Success(Float32)
    case Unlisted => Failure(UnsupportedCast)
  }

  /** inferDataType: one output, of the table's type. */
  function CastDataTypes(c: CastType): (r: Result<seq<DataType>>)
    ensures r.Success? ==> |r.value| == 1
    ensures r.Failure? <==> c == Unlisted
  {
    match OutputDataType(c)
    case Success(t) => Success([t])
    case Failure(e) => Failure(e)
  }

  /** The (source, target) pair each conversion's name spells, read off the
      name alone ("Float" alone means Float32, "Uint" means unsigned). */
  function Spelled(c: CastType): Option<(DataType, DataType)> {
    match c
    case Float2Float16 => Some((Float32, Float16))
    case Float2Int64 => Some((Float32, Int64))
    case Float2Int32 => Some((Float32, Int32))
    case Float2Int16 => Some((Float32, Int16))
    case Float2Int8 => Some((Float32, Int8))
    case Int322Float => Some((Int32, Float32))
    case Int322Int8 => Some((Int32, Int8))
    case Int322Int16 => Some((Int32, Int16))
    case Int162Float => Some((Int16, Float32))
    case Int162Int32 => Some((Int16, Int32))
    case Int82Float => Some((Int8, Float32))
    case Int82Int16 => Some((Int8, Int16))
    case Int82Int32 => Some((Int8, Int32))
    case Uint82Float => Some((UInt8, Float32))
    case Uint82Int32 => Some((UInt8, Int32))
    case Uint82Int64 => Some((UInt8, Int64))
    case Int322Int64 => Some((Int32, Int64))
    case Int642Int32 => Some((Int64, Int32))
    case Int642Uint32 => Some((Int64, UInt32))
    case Int642Float => Some((Int64, Float32))
    case Uint322Int64 => Some((UInt32, Int64))
    case Float162Float => Some((Float16, Float32))
    case BFloat162Float => Some((BFloat16, Float32))
    case Float2BFloat16 => Some((Float32, BFloat16))
    case Float2Float => Some((Float32, Float32))
    case Unlisted => None
  }

  /** The table agrees with the names: every listed conversion yields the
      target its name spells, and only unlisted ones fail. */
  lemma TableMatchesNames(c: CastType)
    ensures OutputDataType(c).Success? <==> Spelled(c).Some?
    ensures Spelled(c).Some? ==> OutputDataType(c) == Success(Spelled(c).value.1)
    ensures Spelled(c).None? ==> OutputDataType(c) == Failure(UnsupportedCast)
  {
  }

  /** Every conversion into Float32 (the X2Float family) gives Float32, and
      Int642Uint32 gives UInt32. */
  lemma ToFloatGivesFloat32(c: CastType)
    requires Spelled(c).Some? && Spelled(c).value.1 == Float32
    ensures OutputDataType(c) == Success(Float32)
    ensures OutputDataType(Int642Uint32) == Success(UInt32)
  {
    TableMatchesNames(c);
  }

  /** Cast's data-type inference yields exactly one type, the table's. */
  lemma CastDataTypesSingle(c: CastType)
    ensures CastDataTypes(c).Success? <==> OutputDataType(c).Success?
    ensures CastDataTypes(c).Success? ==>
      |CastDataTypes(c).value| == 1 && Success(CastDataTypes(c).value[0]) == OutputDataType(c)
  {
  }

  /** Unary, Clip and Cast each infer exactly one shape, the first input's,
      whatever else is passed. */
  lemma ElementwiseKeepShape(inputs: seq<Shape>)
    requires |inputs| >= 1
    ensures UnaryShape(inputs) == [inputs[0]] && ClipShape(inputs) == [inputs[0]] && CastShape(inputs) == [inputs[0]]
    ensures ClipShape(inputs) == ClipShape(inputs[..1])
  {
  }
}
