/// The protocol messages the encoder builds (Mysqlx.Datatypes.Scalar and Any,
/// Mysqlx.Expr.Expr, Mysqlx.Crud.Collection), as plain values. Each message keeps
/// the fields the encoder can set; an optional protobuf field is an Option.
module Mysqlx {
  import opened Wrappers
  import opened Utf8

  newtype int64 = x: int | -0x8000_0000_0000_0000 <= x < 0x8000_0000_0000_0000
  newtype uint64 = x: int | 0 <= x < 0x1_0000_0000_0000_0000

  /** A 64-bit IEEE-754 value, carried as its bit pattern and never computed with. */
  datatype Float64 = Float64(bits: bv64)

  /** A 32-bit IEEE-754 value, carried as its bit pattern and never computed with. */
  datatype Float32 = Float32(bits: bv32)

  /** Scalar.Type: which payload field of a Scalar is meant. */
  datatype ScalarType = V_SINT | V_UINT | V_NULL | V_OCTETS | V_DOUBLE | V_FLOAT | V_BOOL | V_STRING

  /** Scalar.String: the bytes of a string and an optional collation. */
  datatype ScalarString = ScalarString(value: Bytes, collation: Option<uint64>)

  /** Scalar: a type tag and one optional field per payload kind. */
  datatype Scalar = Scalar(
    tag: ScalarType,
    vSignedInt: Option<int64>,
    vUnsignedInt: Option<uint64>,
    vOpaque: Option<Bytes>,
    vDouble: Option<Float64>,
    vFloat: Option<Float32>,
    vBool: Option<bool>,
    vString: Option<ScalarString>)

  /** Expr.Type. */
  datatype ExprType = IDENT | LITERAL | VARIABLE | FUNC_CALL | OPERATOR | PLACEHOLDER | OBJECT | ARRAY

  /**
   * Expr: a type tag and the literal field. The identifier, variable, function
   * call, operator, position, object and array fields are never set by the
   * encoder and are not part of this model.
   */
  datatype Expr = Expr(tag: ExprType, literal: Option<Scalar>) {
    /** The protobuf getter: the literal, or the default Scalar when the field is unset. */
    function Literal(): Scalar {
      GetOrDefault(literal, DefaultScalar)
    }
  }

  /** Any.Type. */
  datatype AnyType = SCALAR | OBJ | ARR

  /** Any: a type tag and the scalar field (the object and array fields are never set). */
  datatype Any = Any(tag: AnyType, scalar: Option<Scalar>)

  /** Mysqlx.Crud.Collection: a collection name and its schema. */
  datatype Collection = Collection(name: string, schema: string)

  /** The default instance of Scalar: its tag is the first enumerator and no field is set. */
  const DefaultScalar := Scalar(V_SINT, None, None, None, None, None, None, None)

  /** An Option holding the default when it is unset. */
  function GetOrDefault<T>(o: Option<T>, d: T): T {
    if o.Some? then o.value else d
  }

  /** The values a well-formed scalar can carry, as the application sees them. */
  datatype Value =
    | NullValue
    | BoolValue(b: bool)
    | SIntValue(l: int64)
    | DoubleValue(d: Float64)
    | StringValue(s: string)
    | OctetsValue(bytes: Bytes)

  /** The number of payload fields that are set. */
  function PayloadCount(s: Scalar): nat {
    (if s.vSignedInt.Some? then 1 else 0) + (if s.vUnsignedInt.Some? then 1 else 0)
    + (if s.vOpaque.Some? then 1 else 0) + (if s.vDouble.Some? then 1 else 0)
    + (if s.vFloat.Some? then 1 else 0) + (if s.vBool.Some? then 1 else 0)
    + (if s.vString.Some? then 1 else 0)
  }

  /** The payload field that the tag names and no other is set; V_NULL has none. */
  predicate WellFormed(s: Scalar) {
    match s.tag
    case V_NULL => PayloadCount(s) == 0
    case V_SINT => s.vSignedInt.Some? && PayloadCount(s) == 1
    case V_UINT => s.vUnsignedInt.Some? && PayloadCount(s) == 1
    case V_OCTETS => s.vOpaque.Some? && PayloadCount(s) == 1
    case V_DOUBLE => s.vDouble.Some? && PayloadCount(s) == 1
    case V_FLOAT => s.vFloat.Some? && PayloadCount(s) == 1
    case V_BOOL => s.vBool.Some? && PayloadCount(s) == 1
    case V_STRING => s.vString.Some? && PayloadCount(s) == 1
  }

  /**
   * What a receiver reads out of a scalar: the value its tag names, or None
   * when the scalar is not well formed, its string bytes are not UTF-8, or it
   * carries a kind (unsigned, float) the encoder never produces.
   */
  function ScalarValue(s: Scalar): (r: Option<Value>)
    ensures r.Some? ==> WellFormed(s)
  {
    if !WellFormed(s) then None
    else
      match s.tag
      case V_NULL => Some(NullValue)
      case V_BOOL => Some(BoolValue(s.vBool.value))
      case V_SINT => Some(SIntValue(s.vSignedInt.value))
      case V_DOUBLE => Some(DoubleValue(s.vDouble.value))
      case V_OCTETS => Some(OctetsValue(s.vOpaque.value))
      case V_STRING =>
        (match Decode(s.vString.value.value)
         case Some(str) => Some(StringValue(str))
         case None => None)
      case V_UINT => None
      case V_FLOAT => None
  }

  /** What a receiver reads out of an expression: the value of its literal, if it is one. */
  function LiteralValue(e: Expr): Option<Value> {
    if e.tag == LITERAL && e.literal.Some? then ScalarValue(e.literal.value) else None
  }
}
