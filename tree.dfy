/**
 * A resource's decoded document, as the versioner receives it from the
 * pipeline: a tree of mappings, lists and scalars.
 */
module Tree {

  datatype Value =
    | Str(s: string)
    | List(items: seq<Value>)
    | Obj(fields: map<string, Value>)
    | Num(n: int)
    | Bool(b: bool)
    | Null

  /** The outcome of an operation that may fail with an `E`. */
  datatype Result<+T, +E> = Ok(value: T) | Err(error: E)
}
