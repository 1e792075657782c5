/** The exceptions the front door catches, wraps or lets through, and its
    two wrapping policies: the per-expression / per-file catch blocks and the
    top-level catch of `generateAst`. */
module Errors {

  /** The source element a `TranslationRuntimeException` is attached to. */
  datatype Location = AtExpression(expressionId: int) | AtFile(fileId: int)

  /** The Java throwables that matter here, with their place in the hierarchy:
      the first three are `RuntimeException`s, `AssertionError` and
      `OtherError` are `Error`s, `UnsupportedFeatureException` is a checked
      `TranslationException`. */
  datatype Throwable =
    | TranslationRuntimeException(location: Location, cause: Throwable)
    | UnsupportedOperationException(message: string)
    | OtherRuntimeException(message: string)
    | AssertionError(message: string)
    | OtherError(message: string)
    | UnsupportedFeatureException(message: string, cause: Throwable)

  predicate IsRuntimeException(t: Throwable) {
    t.TranslationRuntimeException? || t.UnsupportedOperationException? || t.OtherRuntimeException?
  }

  /** The catch blocks around a dispatch to a visitor: a
      `TranslationRuntimeException` is rethrown as is, any other
      `RuntimeException` or an `AssertionError` is wrapped at `loc`, and
      anything else is not caught. */
  function WrapAt(loc: Location, t: Throwable): (r: Throwable)
    ensures r.TranslationRuntimeException? <==> IsRuntimeException(t) || t.AssertionError?
    ensures t.TranslationRuntimeException? ==> r == t
    ensures r != t ==> r == TranslationRuntimeException(loc, t) && !t.TranslationRuntimeException?
  {
    if t.TranslationRuntimeException? then t
    else if IsRuntimeException(t) || t.AssertionError? then TranslationRuntimeException(loc, t)
    else t
  }

  /** Wrapping twice, at any two locations, is wrapping once. */
  lemma WrapIsIdempotent(outer: Location, inner: Location, t: Throwable)
    ensures WrapAt(outer, WrapAt(inner, t)) == WrapAt(inner, t)
  {
  }

  /** The exception seen after passing through the catch blocks at `locs`,
      innermost first. */
  function WrapThrough(locs: seq<Location>, t: Throwable): Throwable
    decreases |locs|
  {
    if |locs| == 0 then t else WrapAt(locs[|locs| - 1], WrapThrough(locs[..|locs| - 1], t))
  }

  /** However many catch layers an exception crosses, it is wrapped at most
      once, and then with the innermost layer's location. */
  lemma {:induction false} InnermostLocationWins(locs: seq<Location>, t: Throwable)
    requires |locs| > 0
    ensures WrapThrough(locs, t) == WrapAt(locs[0], t)
    decreases |locs|
  {
    if |locs| > 1 {
      var prefix := locs[..|locs| - 1];
      InnermostLocationWins(prefix, t);
      assert prefix[0] == locs[0];
      WrapIsIdempotent(locs[|locs| - 1], locs[0], t);
    }
  }

  /** The catch blocks of `generateAst`: an `UnsupportedOperationException`
      becomes an `UnsupportedFeatureException` carrying it; every other
      throwable is rethrown unchanged. */
  function ReportAtTopLevel(t: Throwable): (r: Throwable)
    ensures t.UnsupportedOperationException? ==> r == UnsupportedFeatureException("Unsupported feature used.", t)
    ensures !t.UnsupportedOperationException? ==> r == t
    ensures !r.UnsupportedOperationException?
  {
    if t.UnsupportedOperationException? then UnsupportedFeatureException("Unsupported feature used.", t)
    else t
  }
}
