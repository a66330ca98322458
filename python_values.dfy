/** Python runtime notions the resolver relies on: `None`, truthiness,
    `dict.get` and the exceptions the source can raise. */
module PyValues {

  datatype Option<+T> = None | Some(value: T)

  /** The exceptions raised by the modelled code, plus `Unmodelled`, which marks
      the points where a computation leaves what this model covers (float
      arithmetic, regular-expression metacharacters, `str.format` braces). */
  datatype Failure =
    | ValueError
    | TypeError
    | AttributeError
    | IndexError
    | OverflowError
    | SetException
    | Unmodelled(what: string)

  datatype Result<+T> = Ok(value: T) | Err(failure: Failure) {
    predicate IsFailure() { Err? }

    function PropagateFailure<U>(): Result<U>
      requires Err?
    {
      Err(failure)
    }

    function Extract(): T
      requires Ok?
    {
      value
    }
  }

  /** Two computations of lists in sequence: the first failure wins,
      otherwise both lists, in order. */
  function Then<T>(x: Result<seq<T>>, y: Result<seq<T>>): Result<seq<T>> {
    match x
    case Err(e) => Err(e)
    case Ok(u) => match y case Err(e) => Err(e) case Ok(v) => Ok(u + v)
  }

  lemma ConcatAssoc<T>(x: seq<T>, y: seq<T>, z: seq<T>)
    ensures x + (y + z) == (x + y) + z
  {
  }

  /** A value as it appears in a submitted value map or a decoded option.
      `Float(literal)` is the float that `float(literal)` yields; its numeric
      value is not modelled. */
  datatype PyValue =
    | Null
    | Int(i: int)
    | Bool(b: bool)
    | Str(s: string)
    | Float(literal: string)

  predicate IsDigit(c: char) {
    '0' <= c <= '9'
  }

  /** The mantissa of a float literal: everything before its exponent marker. */
  function Mantissa(literal: string): (m: string)
    ensures |m| <= |literal| && m == literal[..|m|]
    ensures forall i :: 0 <= i < |m| ==> m[i] != 'e' && m[i] != 'E'
    ensures |m| < |literal| ==> literal[|m|] == 'e' || literal[|m|] == 'E'
  {
    if literal == [] || literal[0] == 'e' || literal[0] == 'E' then []
    else [literal[0]] + Mantissa(literal[1..])
  }

  /** A float literal denotes zero exactly when every digit of its mantissa is 0. */
  predicate FloatIsZero(literal: string) {
    var m := Mantissa(literal);
    forall i :: 0 <= i < |m| ==> !IsDigit(m[i]) || m[i] == '0'
  }

  /** Python truthiness: `None`, `0`, `0.0`, `''` and `False` are falsy. */
  predicate Truthy(v: PyValue) {
    match v
    case Null => false
    case Int(i) => i != 0
    case Bool(b) => b
    case Str(s) => s != []
    case Float(literal) => !FloatIsZero(literal)
  }

  /** `values.get(key)`: the submitted value, or `None` when the key is absent. */
  function Lookup(values: map<string, PyValue>, key: string): PyValue {
    if key in values then values[key] else Null
  }
}
