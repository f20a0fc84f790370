/**
 * JavaScript values as the coins dashboard handles them: the records fetched
 * from the asset endpoint, the Redux slice state, and the edit draft are all
 * plain JSON-like objects.
 */
module JsValue {

  datatype Option<T> = None | Some(value: T)

  /** A JSON-like value. Numbers are modelled as integers only. */
  datatype Value =
    | Null
    | Bool(b: bool)
    | Num(n: int)
    | Str(s: string)
    | Arr(elems: seq<Value>)
    | Obj(fields: map<string, Value>)

  /** A coin record is a plain object: a map from property names to values. */
  type Coin = map<string, Value>

  /** The one exception the view code can raise: calling a method a value does not have. */
  datatype JsError = TypeError

  /** The outcome of an expression that may throw. */
  datatype Result<T> = Ok(value: T) | Err(error: JsError)

  /** Property access `c[key]`: a missing property reads as `undefined` (None). */
  function Get(c: Coin, key: string): Option<Value>
  {
    if key in c then Some(c[key]) else None
  }

  /** JavaScript truthiness of a present value. */
  predicate Truthy(v: Value)
  {
    match v
    case Null => false
    case Bool(b) => b
    case Num(n) => n != 0
    case Str(s) => s != ""
    case Arr(_) => true
    case Obj(_) => true
  }

  /**
   * Strict equality `===` on two possibly-undefined values. Primitives compare
   * by value and `undefined === undefined`; arrays and objects compare by
   * reference, and two records built independently are never the same object.
   */
  predicate StrictEquals(a: Option<Value>, b: Option<Value>)
  {
    match (a, b)
    case (None, None) => true
    case (Some(Null), Some(Null)) => true
    case (Some(Bool(x)), Some(Bool(y))) => x == y
    case (Some(Num(x)), Some(Num(y))) => x == y
    case (Some(Str(x)), Some(Str(y))) => x == y
    case _ => false
  }
}
