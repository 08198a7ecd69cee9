/** Runtime values of the interpreter and the small wrapper types shared by every module. */
module Values {

  datatype Option<+T> = None | Some(value: T)

  datatype Result<+T, +E> = Ok(value: T) | Err(error: E)

  /** A value the running program manipulates: a Python int, float, bool or str.
      Floats are modelled as exact reals. */
  datatype Value =
    | Int(i: int)
    | Real(r: real)
    | Bool(b: bool)
    | Str(s: string)

  /** The runtime type the store records beside each value (Python's `type(value)`). */
  datatype DataType = IntType | FloatType | BoolType | StrType

  /** `type(value)`: the kind of a value. */
  function TypeOf(v: Value): (t: DataType)
    ensures t == IntType <==> v.Int?
    ensures t == FloatType <==> v.Real?
    ensures t == BoolType <==> v.Bool?
    ensures t == StrType <==> v.Str?
  {
    match v
    case Int(_) => IntType
    case Real(_) => FloatType
    case Bool(_) => BoolType
    case Str(_) => StrType
  }

  /** Python truthiness, as `if` and `while` read it: a bool is itself, a number is true
      when non-zero, a string when non-empty. */
  predicate Truthy(v: Value) {
    match v
    case Bool(b) => b
    case Int(i) => i != 0
    case Real(r) => r != 0.0
    case Str(s) => |s| > 0
  }

  /** The values `if` and `while` treat as false are exactly the zero or empty value of each
      type. */
  lemma FalsyValues(v: Value)
    ensures !Truthy(v) <==> v in {Bool(false), Int(0), Real(0.0), Str("")}
  {
  }

  predicate IsNumeric(v: Value) {
    v.Int? || v.Real?
  }

  /** The numeric value of an int or float, as an exact real. */
  function AsReal(v: Value): real
    requires IsNumeric(v)
  {
    if v.Int? then v.i as real else v.r
  }
}
