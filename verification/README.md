# Kotlin/JS translation front door, modelled in Dafny

This project models the decision logic of `Translation.java`, the class every
Kotlin→JavaScript translator calls back into. It covers five things:

- **Constant encoding** (`translateConstant`). A resolved constant becomes a
  JavaScript literal, chosen by type. The result is `None` when the value has
  no literal form.
- **Expression translation** (`translateExpression`). A registered alias wins.
  Otherwise a constant is folded only for a `Long` expression, or for an `Int`
  unary expression. Otherwise the expression visitor runs in an inner context,
  and its statements are appended to the caller's block.
- **Expression/statement reconciliation** (`translateAsExpression`,
  `translateAsStatement`, `translateAsStatementAndMergeInBlockIfNeeded`).
  A boxed `Char` is unboxed. A statement whose value is used is captured in a
  fresh temporary. A statement whose value is unused is appended, and `null`
  stands in for its value.
- **Error wrapping** (`doTranslateExpression`, `translateFile`,
  `generateAst`). Errors are wrapped once, with the location where they were
  first caught. An `UnsupportedOperationException` that reaches the top level
  becomes an `UnsupportedFeatureException`.
- **Program assembly** (`doGenerateAst`, `isBuiltinModule`, `defineModule`).
  Files become fragments in order, with predefined declarations skipped. The
  builtin-module test runs over all fragments. The root body starts with
  `"use strict"`, has an optional `defineModule` call, and ends with the
  `return` of the root package.

Translation is modelled as pure functions. Each one takes the caller's block
(the statements emitted so far) and the context, and returns a value, the
extended block and the updated context. A thrown exception is modelled as an
`Err` value. Code that this class calls but does not define is passed in as
function-typed fields of two records, `Orchestrator.Collaborators` and
`Assembly.AssemblyCollaborators`. That covers the expression and declaration
visitors, the merger (`addFragment`, called after each file, and `merge`),
the module wrapper, `newLong`, `boxedCharToChar`,
`mutateLastExpression`, the naming of temporaries,
`mergeStatementInBlockIfNeeded`, `Namer.kotlin` and the root package name.
The binding-context lookups (types, constants, "used as expression") are
given as maps and sets.

Files: `wrappers.dfy` (Option, Result), `numerics.dfy` (JVM integer ranges,
float bit patterns), `js_ast.dfy` (JavaScript nodes, fragments, program),
`kotlin.dfy` (types, constant values, expressions, files, binding context),
`errors.dfy`, `constant_folder.dfy`, `orchestrator.dfy`, `assembly.dfy`.

Three behaviours of the code worth noting:

- The top-level catch turns an `UnsupportedOperationException` into an
  unsupported feature only when nothing caught it first. `translateFile`
  already wraps a `RuntimeException` thrown while translating a file, and
  that includes an unsupported operation. So only one raised outside file
  translation, for example by the merger, reaches the top-level catch
  unwrapped (`Assembly.GenerateAst`, `Assembly.FileFailureIsReportedUnchanged`).
- `defineModule` adds the registration only if the root package name is
  already in the program scope when it looks the name up, which is before
  the root function's parameter is declared. When the root package name is
  `"_"`, the name line 264 declares, every run that is not builtin registers
  (`Assembly.RootPackageUnderscoreAlwaysRegisters`).
- The unboxing step of `translateAsExpression` runs after the alias
  short-circuit. So an alias of `Char` type that is a name reference comes
  back unboxed.

## Model

| member | source | states |
|---|---|---|
| Errors.WrapAt | js/js.translator/src/org/jetbrains/kotlin/js/translate/general/Translation.java:164-177 | The result is a `TranslationRuntimeException` exactly when the input is a `RuntimeException` or an `AssertionError`. A `TranslationRuntimeException` passes through unchanged. Anything that is changed is wrapped once, at the given location. |
| Errors.WrapIsIdempotent | js/js.translator/src/org/jetbrains/kotlin/js/translate/general/Translation.java:168-176 | Wrapping at two locations gives the same result as wrapping at the inner one alone, so nothing is ever double-wrapped. |
| Errors.InnermostLocationWins | js/js.translator/src/org/jetbrains/kotlin/js/translate/general/Translation.java:340-348 | Pass an exception through any number of catch layers (an expression's, then a file's, and so on). The result is the exception wrapped once, at the innermost location. |
| Errors.ReportAtTopLevel | js/js.translator/src/org/jetbrains/kotlin/js/translate/general/Translation.java:243-251 | An unsupported operation becomes `UnsupportedFeatureException("Unsupported feature used.", <that operation>)`. Every other throwable is rethrown unchanged. No bare unsupported operation escapes. |
| ConstantFolder.TranslateConstant | js/js.translator/src/org/jetbrains/kotlin/js/translate/general/Translation.java:116-161 | The result is "not representable" exactly for payload kinds outside the case table. A null, `Int`, `Short`, `Byte`, `Char`, `Boolean` or `String` constant becomes a literal that evaluates to its Kotlin/JS runtime value, and the integer kinds and `Char` become int number literals. A `Long` goes to the 64-bit encoder. A `Float` goes through its decimal text unless it is infinite or NaN. A `Double` is used as is. |
| ConstantFolder.SameLiteralSameValue | js/js.translator/src/org/jetbrains/kotlin/js/translate/general/Translation.java:124-158 | Two plainly represented constants get the same literal only if they have the same runtime value. |
| Orchestrator.Fold | js/js.translator/src/org/jetbrains/kotlin/js/translate/general/Translation.java:97-105 | A literal is produced only if the expression has a constant and a type, and the type is exactly `Long`, or exactly `Int` on a unary expression. Conversely, whenever that gate is open, the result is the constant's encoding (so a literal exactly when the constant is representable). |
| Orchestrator.Dispatch | js/js.translator/src/org/jetbrains/kotlin/js/translate/general/Translation.java:108-113 | Dispatch fails exactly when the visitor fails, with the failure wrapped at the expression. On success, the caller's statements come first, then the inner block's statements in order. The inner context's temporaries are added to the caller's context. |
| Orchestrator.TranslateExpression | js/js.translator/src/org/jetbrains/kotlin/js/translate/general/Translation.java:90-114 | An alias is returned as is, with nothing appended and nothing declared. Otherwise a folded constant is returned as its literal, without consulting the visitor, with nothing appended and nothing declared. Otherwise (no constant, no type, a closed gate, or an unrepresentable constant) the result is exactly the dispatch path. In every case the caller's block and temporaries are only appended to, and the lookups are left unchanged. The only possible failure is the visitor's, wrapped at the expression. |
| Orchestrator.FoldOnlyThroughGate | js/js.translator/src/org/jetbrains/kotlin/js/translate/general/Translation.java:97-106 | With no alias and a closed gate (no type, or a type that is not `Long` and not `Int` on a unary expression), translation is exactly the dispatch path, even when a constant exists. |
| Orchestrator.UnrepresentableFallsThrough | js/js.translator/src/org/jetbrains/kotlin/js/translate/general/Translation.java:102-103 | A constant with no literal form falls through to dispatch, even when the gate is open. |
| Orchestrator.LongConstantUsesLongEncoder | js/js.translator/src/org/jetbrains/kotlin/js/translate/general/Translation.java:99-132 | Take an un-aliased expression of type exactly `Long` whose constant is any 64-bit n (for example `val x: Long = 5`). It translates to the 64-bit encoder's node for n. The visitor is not consulted and nothing is emitted. |
| Orchestrator.BlockIsOnlyAppended | js/js.translator/src/org/jetbrains/kotlin/js/translate/general/Translation.java:108-113 | Translating into a caller's block gives the same result as translating into an empty block and appending what it emitted. The caller's statements never influence the outcome. |
| Orchestrator.TranslateAsExpression | js/js.translator/src/org/jetbrains/kotlin/js/translate/general/Translation.java:184-210 | It fails exactly when `translateExpression` fails. An expression result appends nothing, and it is unboxed exactly when it is typed `Char`/`Char?` and is an invocation, name reference or array access. A used statement appends exactly one statement, the mutated one that assigns into a fresh temporary, and returns that temporary's reference. An unused statement is appended as is, and `null` is returned. |
| Orchestrator.AliasOfCharIsUnboxed | js/js.translator/src/org/jetbrains/kotlin/js/translate/general/Translation.java:190-197 | An alias of `Char` type that is a name reference comes back unboxed, with nothing appended. |
| Orchestrator.FoldedLiteralIsReturned | js/js.translator/src/org/jetbrains/kotlin/js/translate/general/Translation.java:191-197 | A folded literal of any shape, the 64-bit encoder's invocation included, is returned as the expression's value, never unboxed, with nothing appended. |
| Orchestrator.TranslateAsStatement | js/js.translator/src/org/jetbrains/kotlin/js/translate/general/Translation.java:217-223 | It has the same failure, block and context as `translateExpression`. A statement result is returned as is, and an expression result becomes an expression statement. |
| Orchestrator.UnusedStatementAgreesWithAsStatement | js/js.translator/src/org/jetbrains/kotlin/js/translate/general/Translation.java:207-209 | Take a statement whose value is unused. As an expression, it appends exactly what `translateAsStatement` returns, after exactly the block `translateAsStatement` leaves. |
| Orchestrator.TranslateAsStatementAndMergeInBlockIfNeeded | js/js.translator/src/org/jetbrains/kotlin/js/translate/general/Translation.java:225-233 | It has the same failure as translating as a statement into an empty block. On success, the merge receives that statement and exactly the statements collected in the new block. |
| Orchestrator.MergeSeesWhatWouldBeAppended | js/js.translator/src/org/jetbrains/kotlin/js/translate/general/Translation.java:229-232 | For any caller's block, the merge receives the statement `translateAsStatement` would return and the statements it would append. |
| Assembly.TranslateFile | js/js.translator/src/org/jetbrains/kotlin/js/translate/general/Translation.java:330-349 | The single skipping loop equals the reference definition: visit exactly the non-predefined declarations, in file order, from an empty fragment, stopping at the first failure. That failure is wrapped at the file. |
| Assembly.PredefinedDeclarationIsSkipped | js/js.translator/src/org/jetbrains/kotlin/js/translate/general/Translation.java:334-338 | Removing a declaration flagged predefined changes neither the file's fragment nor its failure. |
| Assembly.TranslateFiles | js/js.translator/src/org/jetbrains/kotlin/js/translate/general/Translation.java:267-274 | The file loop: each file is translated and its fragment added to the merger before the next file. On success there is one fragment per file, in input order, and fragment i is file i's translation. |
| Assembly.IsBuiltinModule | js/js.translator/src/org/jetbrains/kotlin/js/translate/general/Translation.java:319-328 | True exactly when some single fragment has a binding keyed `kotlin$Enum` and does not list `kotlin$Enum` among its own imports. |
| Assembly.BuiltinIsDecidedPerFragment | js/js.translator/src/org/jetbrains/kotlin/js/translate/general/Translation.java:320-324 | The test looks at each fragment on its own. A fragment binding the marker without importing it makes the run builtin, whatever other fragments import. Binding and importing it in the same fragment does not. |
| Assembly.DefineModule | js/js.translator/src/org/jetbrains/kotlin/js/translate/general/Translation.java:351-358 | At most one statement, present exactly when the root package name is in scope. It is the call `kotlin.defineModule(moduleId, <root package>)`. |
| Assembly.RootPackageUnderscoreAlwaysRegisters | js/js.translator/src/org/jetbrains/kotlin/js/translate/general/Translation.java:262-289 | `"_"` is declared before the lookup. So when the root package name is `"_"`, the registration is always present. |
| Assembly.DoGenerateAst | js/js.translator/src/org/jetbrains/kotlin/js/translate/general/Translation.java:254-317 | It fails exactly when a file's translation, an `addFragment` or the merge fails, with the first failure in loop order. On success, the root function's only parameter is the root package. Its body is exactly `"use strict"`, the merged body, the registration when the run is not builtin, then `return` of the root package; so the registration is present exactly when the run is not builtin and the root package name is in scope. The global block is the wrapper's output for that function. |
| Assembly.GenerateAst | js/js.translator/src/org/jetbrains/kotlin/js/translate/general/Translation.java:235-252 | It fails exactly when the run fails, reporting the run's failure through the top-level catch: an unsupported operation (which can only come from the merger) becomes `UnsupportedFeatureException("Unsupported feature used.", <that operation>)`, and every other failure is reported unchanged. On success the program is the one `doGenerateAst` assembles. |
| Assembly.RunStopsAtFirstFailure | js/js.translator/src/org/jetbrains/kotlin/js/translate/general/Translation.java:268-274 | A failed run failed at some file k: every earlier file was translated and added to the merger, and the failure is file k's translation failure or the merger's refusal of its fragment. No later file is translated. |
| Assembly.BuiltinRunIsNotRegistered | js/js.translator/src/org/jetbrains/kotlin/js/translate/general/Translation.java:283-286 | In a builtin run the root body is only `"use strict"`, the merged body and the `return`: no registration and nothing else. |
| Assembly.FileFailureIsReportedUnchanged | js/js.translator/src/org/jetbrains/kotlin/js/translate/general/Translation.java:340-348 | A file's translation failure is never a bare unsupported operation, because the catch in `translateFile` wraps it at the file; so `generateAst` reports it unchanged. |

## Left out

- The float branch's numerics. Widening `(double) f` and `Double.parseDouble(Float.toString(f))` are functions passed in. Only the infinite-or-NaN test is modelled, on the IEEE 754 bit pattern. No float round-trip law is claimed.
- `JsAstUtils.newLong`, `boxedCharToChar`, `mutateLastExpression`, `mergeStatementInBlockIfNeeded`, `Merger`, `ModuleWrapperTranslation.wrapIfNecessary`, `Namer`, `ExpressionVisitor` and `FileDeclarationVisitor` are not part of this model. Each is a function passed in, because their code is not available. So no `Long` round-trip law, no uniqueness of temporary names, and no shape of the AMD/CommonJS/UMD wrappers is claimed.
- `convertToStatement` is modelled as the two-case conversion (an expression becomes an expression statement, a statement is kept). Its own code is not part of this model.
- Every collaborator other than the two visitors, `addFragment` and `merge` is a total function that cannot throw. This drops these throw points of the source: the constant and type lookups and `translateConstant` (with `toConstantValue` and `newLong`) at lines 97-103, which run outside `doTranslateExpression`'s try, so their failure would escape unwrapped; the descriptor lookup at line 335, whose failure would be wrapped at the file; and `StaticContext`, `Namer`, `declareName` and `wrapIfNecessary` at lines 269-272 and 283-313, which only the top-level catch sees. The failure statements of `Orchestrator.TranslateExpression`, `Assembly.DoGenerateAst` and `Assembly.GenerateAst` hold under this assumption.
- `addFragment` and `merge` are assumed not to change a fragment. In the source the same mutable fragment object is both kept in the list `isBuiltinModule` reads (line 272) and handed to the merger (line 273), and that test runs after the merge. The model runs the builtin test on the fragments as the file translation left them, so it assumes the merger does not change their binding keys or imports.
- The visitor's effect on the context is limited to the statements it emits and the temporaries it declares. Alias registrations made inside a nested translation are not modelled.
- `toConstantValue(expectedType)` and `ConstantExpressionEvaluator.getConstant` are folded into the binding context's constant map. That map holds the already-converted value.
- The overloads at lines 85-88, 179-182 and 212-215 only pass the context's current block. They are the modelled operations with that block as argument.
- `patternTranslator` (lines 80-83) is a one-line factory and is left out.
- The commented-out imported-module and main-call code (lines 296-308) is left out, and so are `mayBeGenerateTests` and `generateCallToMain` (lines 360-383). None of them can be reached from `generateAst`. The always-empty imported-module list is not passed to the wrapper.
- `mainCallParameters`, `moduleDescriptor` and the binding trace are not parameters of the model. Only the collaborators use them.
- The assertion at line 200 cannot fail in the model, because a node is either an expression or a statement.
- Names in the program scope are strings, not `JsName` objects.
- `Assembly.GenerateAst`: `ExceptionUtilsKt.rethrow` is modelled as rethrowing its argument unchanged. Its own code is not part of this model.
