/** The slice of JavaScript's value model that the cache touches: plain
    objects as field maps, truthiness, the `||` operator and conversion to
    text for string concatenation. */
module JsValues {

  datatype Option<+T> = None | Some(value: T)
  {
    function GetOr(default: T): T
    {
      match this
      case Some(v) => v
      case None => default
    }
  }

  datatype Result<+T, +E> = Ok(value: T) | Err(error: E)
  {
    predicate IsFailure()
    {
      Err?
    }

    function PropagateFailure<U>(): Result<U, E>
      requires Err?
    {
      Err(error)
    }

    function Extract(): T
      requires Ok?
    {
      value
    }
  }

  /** A JavaScript value. `ColRef` stands for a LokiJS collection object,
      identified by the name it was registered under. */
  datatype Value =
    | Undefined
    | Null
    | Bool(b: bool)
    | Num(n: int)
    | Str(s: string)
    | Obj(fields: Fields)
    | ColRef(name: string)

  /** A plain object: its own enumerable properties. */
  type Fields = map<string, Value>

  /** Property read `o[f]`: a missing property reads as `undefined`. */
  function Prop(o: Fields, f: string): (v: Value)
    ensures f in o ==> v == o[f]
    ensures f !in o ==> v == Undefined
  {
    if f in o then o[f] else Undefined
  }

  /** JavaScript truthiness. */
  predicate Truthy(v: Value)
  {
    match v
    case Undefined => false
    case Null => false
    case Bool(b) => b
    case Num(n) => n != 0
    case Str(s) => s != ""
    case Obj(_) => true
    case ColRef(_) => true
  }

  /** `Number(v)` for the values whose conversion the model covers: a
      number, null (0), a boolean (0 or 1) and the empty string (0).
      `None` stands for NaN and for the strings this model does not parse. */
  function ToNumber(v: Value): Option<int>
  {
    match v
    case Num(n) => Some(n)
    case Null => Some(0)
    case Bool(b) => Some(if b then 1 else 0)
    case Str(s) => if s == "" then Some(0) else None
    case _ => None
  }

  /** `a || b`: the left operand when it is truthy, else the right one. */
  function Or(a: Value, b: Value): (r: Value)
    ensures Truthy(a) ==> r == a
    ensures !Truthy(a) ==> r == b
  {
    if Truthy(a) then a else b
  }

  function DigitChar(d: nat): (c: char)
    requires d < 10
    ensures '0' <= c <= '9'
  {
    "0123456789"[d]
  }

  /** Decimal digits of a natural number, most significant first. */
  function Digits(n: nat): (s: string)
    ensures |s| > 0
    ensures forall i :: 0 <= i < |s| ==> '0' <= s[i] <= '9'
    decreases n
  {
    if n < 10 then [DigitChar(n)] else Digits(n / 10) + [DigitChar(n % 10)]
  }

  /** `String(n)` for an integer `n`. */
  function Decimal(n: int): string
  {
    if n < 0 then "-" + Digits(-n) else Digits(n)
  }

  /** The text a value turns into when it is concatenated with a string. */
  function ToText(v: Value): string
  {
    match v
    case Undefined => "undefined"
    case Null => "null"
    case Bool(b) => if b then "true" else "false"
    case Num(n) => Decimal(n)
    case Str(s) => s
    case Obj(_) => "[object Object]"
    case ColRef(_) => "[object Object]"
  }
}
