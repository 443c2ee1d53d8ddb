/// The literal and value builders of MySql.Protocol.X.ExprUtil: each turns an
/// application value into a protocol Scalar, Expr, Any or Collection message.
/// C# overloads get one name per argument type (ScalarOf(long) is ScalarOfLong).
module ExprUtil {
  import opened Wrappers
  import opened Utf8
  import opened Mysqlx

  newtype int16 = x: int | -0x8000 <= x < 0x8000
  newtype int32 = x: int | -0x8000_0000 <= x < 0x8000_0000

  /**
   * The runtime categories a `System.Object` argument can have: the null
   * reference, a boxed value of one of the listed types, or a value of any
   * other type, known by its type name.
   */
  datatype Boxed =
    | Null
    | Bool(b: bool)
    | Byte(u8: uint8)
    | Short(i16: int16)
    | Int(i32: int32)
    | Long(i64: int64)
    | Float(f32: Float32)
    | Double(f64: Float64)
    | String(s: string)
    | Other(typeName: string)

  /** The two exceptions ArgObjectToExpr can throw. */
  datatype Exception =
    | NotSupportedException(message: string)
    | InvalidCastException(fromType: string, toType: string)

  /** The name `GetType()` reports for a non-null boxed value. */
  function TypeName(v: Boxed): (r: string)
    requires !v.Null?
    ensures v.Other? ==> r == v.typeName
    ensures !v.Other? ==> |r| > 7 && r[..7] == "System."
  {
    match v
    case Bool(_) => "System.Boolean"
    case Byte(_) => "System.Byte"
    case Short(_) => "System.Int16"
    case Int(_) => "System.Int32"
    case Long(_) => "System.Int64"
    case Float(_) => "System.Single"
    case Double(_) => "System.Double"
    case String(_) => "System.String"
    case Other(t) => t
  }

  /** A Scalar with only its tag set. */
  function NullScalar(): (r: Scalar)
    ensures r.tag == V_NULL && PayloadCount(r) == 0
    ensures ScalarValue(r) == Some(NullValue)
  {
    Scalar(V_NULL, None, None, None, None, None, None, None)
  }

  function ScalarOfDouble(d: Float64): (r: Scalar)
    ensures r.tag == V_DOUBLE && ScalarValue(r) == Some(DoubleValue(d))
  {
    Scalar(V_DOUBLE, None, None, None, Some(d), None, None, None)
  }

  function ScalarOfLong(l: int64): (r: Scalar)
    ensures r.tag == V_SINT && ScalarValue(r) == Some(SIntValue(l))
  {
    Scalar(V_SINT, Some(l), None, None, None, None, None, None)
  }

  /** A V_STRING scalar holding the UTF-8 bytes of `str`, with no collation. */
  function ScalarOfString(str: string): (r: Scalar)
    ensures r.tag == V_STRING && ScalarValue(r) == Some(StringValue(str))
    ensures r.vString == Some(ScalarString(Encode(str), None))
  {
    DecodeEncode(str);
    Scalar(V_STRING, None, None, None, None, None, None, Some(ScalarString(Encode(str), None)))
  }

  /** A V_OCTETS scalar holding a copy of `bytes`. */
  function ScalarOfOctets(bytes: Bytes): (r: Scalar)
    ensures r.tag == V_OCTETS && ScalarValue(r) == Some(OctetsValue(bytes))
  {
    Scalar(V_OCTETS, None, None, Some(bytes), None, None, None, None)
  }

  function ScalarOfBool(b: bool): (r: Scalar)
    ensures r.tag == V_BOOL && ScalarValue(r) == Some(BoolValue(b))
  {
    Scalar(V_BOOL, None, None, None, None, None, Some(b), None)
  }

  /** Wraps a scalar, unchanged, in a LITERAL expression. */
  function BuildLiteralExpr(scalar: Scalar): (r: Expr)
    ensures r.tag == LITERAL && r.literal == Some(scalar) && r.Literal() == scalar
    ensures LiteralValue(r) == ScalarValue(scalar)
  {
    Expr(LITERAL, Some(scalar))
  }

  function BuildLiteralNullScalar(): (r: Expr)
    ensures r.tag == LITERAL && r.Literal().tag == V_NULL && PayloadCount(r.Literal()) == 0
    ensures LiteralValue(r) == Some(NullValue)
  {
    BuildLiteralExpr(NullScalar())
  }

  function BuildLiteralDouble(d: Float64): (r: Expr)
    ensures r.tag == LITERAL && LiteralValue(r) == Some(DoubleValue(d))
  {
    BuildLiteralExpr(ScalarOfDouble(d))
  }

  function BuildLiteralLong(l: int64): (r: Expr)
    ensures r.tag == LITERAL && LiteralValue(r) == Some(SIntValue(l))
  {
    BuildLiteralExpr(ScalarOfLong(l))
  }

  function BuildLiteralString(str: string): (r: Expr)
    ensures r.tag == LITERAL && LiteralValue(r) == Some(StringValue(str))
    ensures r.literal == Some(ScalarOfString(str))
  {
    BuildLiteralExpr(ScalarOfString(str))
  }

  function BuildLiteralOctets(bytes: Bytes): (r: Expr)
    ensures r.tag == LITERAL && LiteralValue(r) == Some(OctetsValue(bytes))
  {
    BuildLiteralExpr(ScalarOfOctets(bytes))
  }

  function BuildLiteralBool(b: bool): (r: Expr)
    ensures r.tag == LITERAL && LiteralValue(r) == Some(BoolValue(b))
  {
    BuildLiteralExpr(ScalarOfBool(b))
  }

  /** An Any of type SCALAR holding a V_STRING scalar, built inline just as ScalarOfString builds it. */
  function BuildAnyString(str: string): (r: Any)
    ensures r.tag == SCALAR && r.scalar == Some(ScalarOfString(str))
  {
    var sstr := ScalarString(Encode(str), None);
    var s := Scalar(V_STRING, None, None, None, None, None, None, Some(sstr));
    Any(SCALAR, Some(s))
  }

  function BuildAnyBool(b: bool): (r: Any)
    ensures r.tag == SCALAR && r.scalar.Some? && ScalarValue(r.scalar.value) == Some(BoolValue(b))
  {
    Any(SCALAR, Some(ScalarOfBool(b)))
  }

  /** A Collection message naming `collectionName` in `schemaName`; any two strings are accepted. */
  function BuildCollection(schemaName: string, collectionName: string): (r: Collection)
    ensures r.schema == schemaName && r.name == collectionName
  {
    Collection(collectionName, schemaName)
  }

  /** The `is byte || is short || is int || is long` test. */
  predicate IsIntegral(v: Boxed) {
    v.Byte? || v.Short? || v.Int? || v.Long?
  }

  /** The `is float || is double` test. */
  predicate IsFloating(v: Boxed) {
    v.Float? || v.Double?
  }

  /** The unboxing cast `(long)v`: it succeeds only on a boxed long. */
  function UnboxLong(v: Boxed): (r: Result<int64, Exception>)
    requires !v.Null?
    ensures r.Ok? <==> v.Long?
    ensures r.Ok? ==> r.value == v.i64
    ensures r.Err? ==> r.error == InvalidCastException(TypeName(v), "System.Int64")
  {
    if v.Long? then Ok(v.i64) else Err(InvalidCastException(TypeName(v), "System.Int64"))
  }

  /** The unboxing cast `(double)v`: it succeeds only on a boxed double. */
  function UnboxDouble(v: Boxed): (r: Result<Float64, Exception>)
    requires !v.Null?
    ensures r.Ok? <==> v.Double?
    ensures r.Ok? ==> r.value == v.f64
    ensures r.Err? ==> r.error == InvalidCastException(TypeName(v), "System.Double")
  {
    if v.Double? then Ok(v.f64) else Err(InvalidCastException(TypeName(v), "System.Double"))
  }

  /** The value a supported boxed argument stands for; None for every other category. */
  function ValueOf(v: Boxed): Option<Value> {
    match v
    case Null => Some(NullValue)
    case Bool(b) => Some(BoolValue(b))
    case Long(l) => Some(SIntValue(l))
    case Double(d) => Some(DoubleValue(d))
    case String(s) => Some(StringValue(s))
    case _ => None
  }

  /**
   * Dispatch on the runtime type of `value`. Byte, short, int and float pass
   * the type tests but fail at the unboxing cast that follows them;
   * `allowRelationalColumns` is not consulted.
   */
  function ArgObjectToExpr(value: Boxed, allowRelationalColumns: bool): (r: Result<Expr, Exception>)
    ensures r.Ok? <==> ValueOf(value).Some?
    ensures r.Ok? ==> r.value.tag == LITERAL && LiteralValue(r.value) == ValueOf(value)
    ensures value.Byte? || value.Short? || value.Int? ==>
              r == Err(InvalidCastException(TypeName(value), "System.Int64"))
    ensures value.Float? ==> r == Err(InvalidCastException("System.Single", "System.Double"))
    ensures value.Other? ==>
              r == Err(NotSupportedException("Value of type " + value.typeName + " is not currently supported."))
    ensures value.Null? ==> r == Ok(BuildLiteralExpr(NullScalar()))
    ensures value.Bool? ==> r == Ok(BuildLiteralExpr(ScalarOfBool(value.b)))
    ensures value.Long? ==> r == Ok(BuildLiteralExpr(ScalarOfLong(value.i64)))
    ensures value.Double? ==> r == Ok(BuildLiteralExpr(ScalarOfDouble(value.f64)))
    ensures value.String? ==> r == Ok(BuildLiteralExpr(ScalarOfString(value.s)))
  {
    if value.Null? then
      Ok(BuildLiteralNullScalar())
    else if value.Bool? then
      Ok(BuildLiteralBool(value.b))
    else if IsIntegral(value) then
      match UnboxLong(value)
      case Ok(l) => Ok(BuildLiteralLong(l))
      case Err(e) => Err(e)
    else if IsFloating(value) then
      match UnboxDouble(value)
      case Ok(d) => Ok(BuildLiteralDouble(d))
      case Err(e) => Err(e)
    else if value.String? then
      Ok(BuildLiteralString(value.s))
    else
      Err(NotSupportedException("Value of type " + TypeName(value) + " is not currently supported."))
  }

  /** The literal of ArgObjectToExpr(value, false); it throws exactly what that call throws. */
  function ArgObjectToScalar(value: Boxed): (r: Result<Scalar, Exception>)
    ensures r.Ok? <==> ArgObjectToExpr(value, false).Ok?
    ensures r.Err? ==> r.error == ArgObjectToExpr(value, false).error
    ensures r.Ok? ==> ScalarValue(r.value) == ValueOf(value)
    ensures r.Ok? ==> r.value == ArgObjectToExpr(value, false).value.Literal()
  {
    match ArgObjectToExpr(value, false)
    case Ok(e) => Ok(e.Literal())
    case Err(x) => Err(x)
  }

  /** The result of the dispatch does not depend on `allowRelationalColumns`. */
  lemma RelationalColumnsIgnored(value: Boxed, a: bool, b: bool)
    ensures ArgObjectToExpr(value, a) == ArgObjectToExpr(value, b)
  {
  }
}
