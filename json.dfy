/** The JavaScript values the plugin passes around. Claim sets, upstream user
    records and decoded tokens are plain objects, modelled as maps from
    property names to values; a property that is absent reads as `undefined`. */
module Json {

  datatype Option<+T> = None | Some(value: T)

  /** A JavaScript value. Numbers are integers: the only numbers the core
      handles are unix timestamps in seconds. */
  datatype Value =
    | Undefined
    | Null
    | Bool(b: bool)
    | Num(n: int)
    | Str(s: string)
    | Arr(items: seq<Value>)
    | Obj(fields: map<string, Value>)

  /** A plain object. */
  type Record = map<string, Value>

  /** Property access `o.k` on a plain object. */
  function Get(o: Record, k: string): Value
  {
    if k in o then o[k] else Undefined
  }

  /** The own properties of a value, as `pick` and object spread see them:
      an object's fields, and none for any other value. */
  function Fields(v: Value): Record
  {
    if v.Obj? then v.fields else map[]
  }

  /** JavaScript truthiness, the test `if (x)` applies. */
  predicate Truthy(v: Value)
  {
    match v
    case Undefined => false
    case Null => false
    case Bool(b) => b
    case Num(n) => n != 0
    case Str(s) => s != ""
    case Arr(_) => true
    case Obj(_) => true
  }

  /** The numeric conversion a relational comparison applies to its operand;
      `None` stands for NaN, against which every comparison is false. */
  function ToNumber(v: Value): Option<int>
  {
    match v
    case Null => Some(0)
    case Bool(b) => Some(if b then 1 else 0)
    case Num(n) => Some(n)
    case _ => None
  }

  /** `v > now` for a numeric `now`. */
  predicate Greater(v: Value, now: int)
  {
    ToNumber(v).Some? && ToNumber(v).value > now
  }

  /** `v <= now` for a numeric `now`. It is not the negation of `Greater`:
      both are false when `v` converts to NaN. */
  predicate AtMost(v: Value, now: int)
  {
    ToNumber(v).Some? && ToNumber(v).value <= now
  }
}
