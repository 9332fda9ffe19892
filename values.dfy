/** The Python values handed to the database layer as bound parameters,
    connection options and fetched columns (typed `Any` in the source). */
module Values {

  datatype Value =
    | Null
    | Bool(b: bool)
    | Int(i: int)
    | Str(s: string)
    | List(items: seq<Value>)   // a sequence value, as bound for IN / NOT IN

  /** One fetched row. */
  type Row = seq<Value>
}
