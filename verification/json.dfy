/** The value `JSON.parse` hands back, and the two JavaScript notions the
    load filter applies to it: truthiness and property access. */
module Json {
  import opened Seqs

  /** A parsed JSON value. Numbers are reals (JSON text cannot spell NaN). */
  datatype Value =
    | JNull
    | JBool(b: bool)
    | JNum(n: real)
    | JStr(s: string)
    | JArr(items: seq<Value>)
    | JObj(props: map<string, Value>)

  /** JavaScript truthiness (the ToBoolean conversion of ECMA-262). */
  predicate Truthy(v: Value) {
    match v
    case JNull => false
    case JBool(b) => b
    case JNum(n) => n != 0.0
    case JStr(s) => s != []
    case JArr(_) => true
    case JObj(_) => true
  }

  /** Property access `v[key]` on a non-null value; `None` is `undefined`.
      Only objects carry own properties of the names the widget reads. */
  function Prop(v: Value, key: string): (r: Option<Value>)
    ensures r.Some? <==> v.JObj? && key in v.props
  {
    if v.JObj? && key in v.props then Some(v.props[key]) else None
  }

  /** `v[key]` is truthy (`undefined` is falsy). */
  predicate PropTruthy(v: Value, key: string) {
    var p := Prop(v, key);
    p.Some? && Truthy(p.value)
  }
}
