/** The untyped objects (`GenericObject`, `{ [key: string]: any }`) that the
    comparison and sorting helpers work on: JSON-like values whose objects map
    string keys to values. Arrays, functions, symbols and `NaN` are not modelled,
    and neither are the properties inherited from `Object.prototype`. */
module GenericObjects {

  datatype Value =
    | Undefined
    | Null
    | Bool(b: bool)
    | Num(n: real)
    | Str(s: string)
    | Obj(fields: map<string, Value>)

  /** `obj[key]`: the value under the own key `key`, or `undefined` when there
      is none. */
  function Lookup(fields: map<string, Value>, key: string): (v: Value)
    ensures key !in fields ==> v == Undefined
    ensures key in fields ==> v == fields[key]
  {
    if key in fields then fields[key] else Undefined
  }

  /** `v` contains no `undefined`, at any depth. */
  predicate NoUndefined(v: Value)
    decreases v
  {
    match v
    case Undefined => false
    case Obj(f) => forall k | k in f :: NoUndefined(f[k])
    case _ => true
  }
}
