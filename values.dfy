/**
 * The values the registry stores. Core/db.py writes every value through
 * json.dumps and reads it back through json.loads; for the shapes below that
 * round trip is the identity, so a stored Value is returned unchanged.
 */
module Values {

  datatype Value =
    | Str(s: string)
    | Int(i: int)
    | Bool(b: bool)
    | Null
    | Dict(entries: map<string, Value>)

  /** Python's bool(v): empty strings, 0, False, None and {} are falsy. */
  predicate Truthy(v: Value) {
    match v
    case Str(s) => s != ""
    case Int(i) => i != 0
    case Bool(b) => b
    case Null => false
    case Dict(e) => e != map[]
  }

  /** The entries of a mapping value; any other value has none. */
  function EntriesOf(v: Value): map<string, Value> {
    if v.Dict? then v.entries else map[]
  }
}
