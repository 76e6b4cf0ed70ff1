/** Configuration values: what JSON and YAML files hold. */
module Json {

  datatype Value =
    | Null
    | Bool(b: bool)
    | Num(n: real)
    | Str(s: string)
    | List(items: seq<Value>)
    | Dict(fields: map<string, Value>)

  /** Python's truth value. */
  predicate Truthy(v: Value) {
    match v
    case Null => false
    case Bool(b) => b
    case Num(n) => n != 0.0
    case Str(s) => s != ""
    case List(items) => items != []
    case Dict(fields) => fields != map[]
  }

  /** Six values are false, one of each kind. */
  lemma FalsyExactly(v: Value)
    ensures !Truthy(v) <==>
            v == Null || v == Bool(false) || v == Num(0.0) || v == Str("") || v == List([]) || v == Dict(map[])
  {
  }

  type Config = map<string, Value>

  /** The settings of a section; none if it is missing or no dictionary. */
  function Fields(cfg: Config, s: string): map<string, Value> {
    if s in cfg && cfg[s].Dict? then cfg[s].fields else map[]
  }

  lemma SameConfig(a: Config, b: Config)
    requires forall s :: (s in a <==> s in b) && (s in a ==> a[s] == b[s])
    ensures a == b
  {
    assert a.Keys == b.Keys;
  }
}
