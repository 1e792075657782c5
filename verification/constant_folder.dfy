/** `translateConstant`: the type-directed encoding of a resolved constant
    as a JavaScript literal, or `None` when the value has no literal form. */
module ConstantFolder {
  import opened Wrappers
  import opened Numerics
  import opened Kotlin
  import opened JsAst

  /** The encoders `translateConstant` calls but does not define. */
  datatype LiteralEncoders = LiteralEncoders(
    /** `JsAstUtils.newLong`: the runtime's 64-bit integer construction. */
    newLong: Int64 -> JsExpr,
    /** The widening conversion `(double) f`. */
    widenFloat: Float32 -> Float64,
    /** `Double.parseDouble(Float.toString(f))`. */
    floatViaDecimal: Float32 -> Float64)

  /** The value a Kotlin constant has at run time in Kotlin/JS, for the kinds
      that are represented by a plain JavaScript value: integers up to `Int`
      and characters are numbers (a `Char` by its code), `Boolean` and
      `String` are themselves, `null` is `null`. */
  function RuntimeValue(v: ConstantValue): Option<JsValue> {
    match v
    case NullValue => Some(JsNull)
    case IntValue(i) => Some(JsNumber(i))
    case ShortValue(s) => Some(JsNumber(s))
    case ByteValue(b) => Some(JsNumber(b))
    case BooleanValue(b) => Some(JsBoolean(b))
    case StringValue(s) => Some(JsString(s))
    case CharValue(c) => Some(JsNumber(c))
    case _ => None
  }

  function TranslateConstant(enc: LiteralEncoders, v: ConstantValue): (r: Option<JsExpr>)
    // "not representable" exactly for the payload kinds outside the case table
    ensures r.None? <==> v.OtherValue?
    // a plainly represented value becomes a literal that evaluates to it
    ensures RuntimeValue(v).Some? ==> r.Some? && LiteralValue(r.value) == RuntimeValue(v)
    // integers up to Int and chars become int number literals
    ensures v.IntValue? || v.ShortValue? || v.ByteValue? || v.CharValue? ==> r.Some? && r.value.IntLiteral?
    // a Long goes to the 64-bit encoder, never to a number literal
    ensures v.LongValue? ==> r == Some(enc.newLong(v.int64))
    // a finite Float goes through its decimal text; infinities and NaN are widened
    ensures v.FloatValue? ==>
              r.Some? && r.value.DoubleLiteral? &&
              r.value.d == (if v.f32.IsInfiniteOrNaN() then enc.widenFloat(v.f32) else enc.floatViaDecimal(v.f32))
    ensures v.DoubleValue? ==> r == Some(DoubleLiteral(v.f64))
  {
    match v
    case NullValue => Some(NullLiteral)
    case IntValue(i) => Some(IntLiteral(i))
    case ShortValue(s) => Some(IntLiteral(s))
    case ByteValue(b) => Some(IntLiteral(b))
    case LongValue(l) => Some(enc.newLong(l))
    case FloatValue(f) =>
      var d := if f.IsInfiniteOrNaN() then enc.widenFloat(f) else enc.floatViaDecimal(f);
      Some(DoubleLiteral(d))
    case DoubleValue(d) => Some(DoubleLiteral(d))
    case BooleanValue(b) => Some(BooleanLiteral(b))
    case StringValue(s) => Some(StringLiteral(s))
    case CharValue(c) => Some(IntLiteral(c))
    case OtherValue(_) => None
  }

  /** Encoding is faithful and loses nothing: two plainly represented
      constants get the same literal only when they have the same run-time
      value. */
  lemma SameLiteralSameValue(enc: LiteralEncoders, v: ConstantValue, w: ConstantValue)
    requires RuntimeValue(v).Some? && RuntimeValue(w).Some?
    requires TranslateConstant(enc, v) == TranslateConstant(enc, w)
    ensures RuntimeValue(v) == RuntimeValue(w)
  {
  }
}
