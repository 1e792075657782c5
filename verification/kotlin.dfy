/** The resolved Kotlin side: expressions, declarations and files by identity,
    the static types the front door tests, the constant values it encodes,
    and the binding-context lookups it consults. */
module Kotlin {
  import opened Wrappers
  import opened Numerics

  datatype Classifier = LongClass | IntClass | CharClass | OtherClass(fqName: string)

  datatype KotlinType = KotlinType(classifier: Classifier, nullable: bool) {
    /** `KotlinBuiltIns.isLong`: exactly `Long`, not `Long?`. */
    predicate IsLong() { classifier == LongClass && !nullable }
    /** `KotlinBuiltIns.isInt`: exactly `Int`, not `Int?`. */
    predicate IsInt() { classifier == IntClass && !nullable }
    /** `KotlinBuiltIns.isCharOrNullableChar`. */
    predicate IsCharOrNullableChar() { classifier == CharClass }
  }

  /** A compile-time constant after `toConstantValue(expectedType)`, by the
      Java class of its payload. */
  datatype ConstantValue =
    | NullValue
    | IntValue(int32: Int32)
    | ShortValue(int16: Int16)
    | ByteValue(int8: Int8)
    | LongValue(int64: Int64)
    | FloatValue(f32: Float32)
    | DoubleValue(f64: Float64)
    | BooleanValue(boolean: bool)
    | StringValue(str: string)
    | CharValue(code: Char16)
    /** Enum entries, arrays, class literals and every other payload kind. */
    | OtherValue(kind: string)

  /** A source expression: its identity and whether it is a `KtUnaryExpression`. */
  datatype KtExpression = KtExpression(id: int, isUnary: bool)

  datatype KtDeclaration = KtDeclaration(id: int)

  datatype KtFile = KtFile(id: int, declarations: seq<KtDeclaration>)

  /** The binding-context and constant-evaluator lookups, keyed by expression id. */
  datatype BindingContext = BindingContext(
    types: map<int, KotlinType>,
    constants: map<int, ConstantValue>,
    usedAsExpression: set<int>)
  {
    function TypeOf(e: KtExpression): Option<KotlinType> {
      if e.id in types then Some(types[e.id]) else None
    }
  }
}
