/** The value types every operator and the graph share: tensor shapes and
    element data types. */
module Types {

  /** A tensor shape: one extent per axis, outermost first (a vector of int). */
  type Shape = seq<int>

  /** The element data types the cast table names. */
  datatype DataType =
    | Float32
    | Float16
    | BFloat16
    | Int8
    | Int16
    | Int32
    | Int64
    | UInt8
    | UInt32

  function Max(x: int, y: int): int { if x >= y then x else y }
}
