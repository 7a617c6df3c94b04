/**
 * JavaScript values as the binding sees them: the results of mappers and
 * selectors, the props records and the store's state. Strict equality
 * (`===`) is Dafny's equality on this datatype: primitives compare by value,
 * objects and functions by identity (their address).
 */
module Values {

  datatype Value =
    | Undefined
    | Null
    | Bool(b: bool)
    | Num(n: int)
    | Str(s: string)
    | Obj(addr: nat)   // any object, array or function, identified by its address

  /** A plain JavaScript object used as a record: own enumerable keys to values. */
  type Record = map<string, Value>

  /** Reading `r[k]`: a key that is absent reads as `undefined`. */
  function Get(r: Record, k: string): (v: Value)
    ensures k !in r ==> v == Undefined
    ensures k in r ==> v == r[k]
  {
    if k in r then r[k] else Undefined
  }

  /**
   * JavaScript truthiness (`if (v)`, `!v`, `v || w`, `v ? a : b`): the falsy
   * values are exactly `undefined`, `null`, `false`, `0` and `""`.
   */
  predicate Truthy(v: Value): (t: bool)
    ensures !t <==> v in {Undefined, Null, Bool(false), Num(0), Str("")}
  {
    match v
    case Undefined => false
    case Null => false
    case Bool(b) => b
    case Num(n) => n != 0
    case Str(s) => s != ""
    case Obj(_) => true
  }

  /** The errors the binding raises. */
  datatype Failure =
    | MissingContext   // thrown by useStore when no Provider supplies a store
    | StoreTypeError   // TypeError: a member of a store that is not an object was read

  /**
   * The message each error is thrown with: useStore's own text, or none for
   * the TypeError, whose wording belongs to the JavaScript engine.
   */
  function Message(f: Failure): Option<string> {
    match f
    case MissingContext => Some("Missing context. Ensure you've rendered a Provider.")
    case StoreTypeError => None
  }

  datatype Result<+T> = Ok(value: T) | Err(error: Failure)

  datatype Outcome = Pass | Fail(error: Failure)

  datatype Option<+T> = None | Some(value: T)
}
