/** Values, statuses and types shared by the workflow engine modules. */
module Values {

  datatype Option<+T> = None | Some(value: T)

  /** The strings a process reports; `Unreported` is the empty string used by loop steps. */
  datatype Status = Success | Skipped | TemporaryFail | PermanentFail | Unreported

  /** A JSON value as it flows between steps. */
  datatype Value =
    | Null
    | Bool(b: bool)
    | Num(r: real)
    | Str(s: string)
    | Array(elems: seq<Value>)
    | Record(fields: map<string, Value>)

  /** Input and output objects, keyed by parameter id. */
  type Object = map<string, Value>

  /** Parameter types; a union is a list of alternatives. */
  datatype CwlType = Named(name: string) | ArrayOf(items: CwlType) | Union(alts: seq<CwlType>)

  /** The statuses after which a step's outputs may be consumed. */
  predicate Usable(status: Status) {
    status == Success || status == Skipped
  }
}
