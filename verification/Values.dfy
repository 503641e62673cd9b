/** The option type and the dynamic values that flow through the engine:
    workflow contexts, node data, request bodies. */
module Values {

  datatype Option<+T> = None | Some(value: T)

  /** A float64, up to the sign of zero. */
  datatype Float = NaN | Inf(negative: bool) | Finite(r: real)

  /** The Go integer types that the condition evaluator tells apart. */
  datatype IntType = GoInt | GoInt32 | GoInt64

  /** A value of type `any` as the engine sees it: decoded JSON, plus the typed
      numbers that executors may put into their results. */
  datatype Value =
    | Null
    | Bool(b: bool)
    | Float64(f: Float)
    | Float32(f: Float)
    | Integer(i: int, kind: IntType)
    | Str(s: string)
    | Obj(fields: map<string, Value>)
    | Arr(items: seq<Value>)

  type Object = map<string, Value>

  /** The `data[key].(string)` idiom: the empty string when absent or not a string. */
  function StringField(data: Object, key: string): string {
    if key in data && data[key].Str? then data[key].s else ""
  }

  /** Walks nested objects along `path`; None as soon as a step is missing. */
  function Lookup(v: Value, path: seq<string>): Option<Value> {
    if path == [] then Some(v)
    else if v.Obj? && path[0] in v.fields then Lookup(v.fields[path[0]], path[1..])
    else None
  }

  /** What happens around one write to a stored record: another writer may have replaced the record just
      before it, and the database may refuse it, in which case nothing is written. */
  datatype Weather<T> = Weather(intruder: Option<T>, fails: bool)

  datatype WriteOutcome = Applied | Conflict | NotFound | Broken

  /** `bigger` has every key of `smaller`, with the same value. */
  ghost predicate Extends(bigger: Object, smaller: Object) {
    forall k :: k in smaller ==> k in bigger && bigger[k] == smaller[k]
  }
}
