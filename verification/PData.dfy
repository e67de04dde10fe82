/** The value trees that the collector passes around: a log body, an attribute value, a resource attribute map.
    A pdata map is modelled as a Dafny map: its keys are unique and their order carries no meaning. */
module PData {
  datatype Option<+T> = None | Some(value: T)

  datatype Value =
    | Empty
    | Str(s: string)
    | Bool(b: bool)
    | Int(i: int)
    | Double(r: real)
    | Bytes(raw: seq<bv8>)
    | Slice(elems: seq<Value>)
    | Map(m: map<string, Value>)
}
