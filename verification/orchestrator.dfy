/** The re-entrant entry points every translator calls back into:
    `translateExpression`, `translateAsExpression`, `translateAsStatement`
    and `translateAsStatementAndMergeInBlockIfNeeded`. A translation takes
    the caller's block (the statements emitted so far) and context, and
    yields a value, the caller's block with statements appended, and the
    context with any temporaries declared. */
module Orchestrator {
  import opened Wrappers
  import opened Numerics
  import opened Kotlin
  import opened JsAst
  import opened Errors
  import opened ConstantFolder

  /** The translation context as far as the front door reads or changes it:
      binding lookups, the alias table, and the temporaries declared in the
      enclosing function scope. */
  datatype Ctx = Ctx(binding: BindingContext, aliases: map<int, JsExpr>, vars: seq<string>)

  /** What the expression visitor produced in the inner context: its node,
      the statements it emitted into the inner block, and the temporaries it
      declared there. */
  datatype Visited = Visited(node: JsNode, emitted: seq<JsStmt>, declared: seq<string>)

  datatype Translated<T> = Translated(result: T, block: seq<JsStmt>, ctx: Ctx)

  /** The collaborators the front door calls but does not define. */
  datatype Collaborators = Collaborators(
    encoders: LiteralEncoders,
    /** `expression.accept(new ExpressionVisitor(), innerContext)`. */
    visit: (KtExpression, Ctx) -> Result<Visited, Throwable>,
    /** `JsAstUtils.boxedCharToChar`. */
    boxedCharToChar: JsExpr -> JsExpr,
    /** `mutateLastExpression(node, new AssignToExpressionMutator(ref))`. */
    assignLastTo: (JsStmt, JsExpr) -> JsStmt,
    /** The name `declareTemporary` picks for a fresh temporary. */
    temporaryName: Ctx -> string,
    /** `JsAstUtils.mergeStatementInBlockIfNeeded`. */
    mergeInBlock: (JsStmt, seq<JsStmt>) -> JsStmt)

  /** Constant folding is tried only for an expression of type exactly
      `Long`, or of type exactly `Int` that is a unary expression. */
  predicate FoldGate(ty: KotlinType, e: KtExpression) {
    ty.IsLong() || (ty.IsInt() && e.isUnary)
  }

  /** The literal the fold path yields: `None` when there is no constant,
      no type, the gate is shut, or the constant has no literal form. */
  function Fold(enc: LiteralEncoders, b: BindingContext, e: KtExpression): (r: Option<JsExpr>)
    ensures r.Some? ==> e.id in b.constants && e.id in b.types && FoldGate(b.types[e.id], e)
    ensures r.Some? ==> r == TranslateConstant(enc, b.constants[e.id])
    // with the gate open, the literal is the constant's encoding, if it has one
    ensures e.id in b.constants && e.id in b.types && FoldGate(b.types[e.id], e) ==>
              r == TranslateConstant(enc, b.constants[e.id])
  {
    if e.id in b.constants && e.id in b.types && FoldGate(b.types[e.id], e) then
      TranslateConstant(enc, b.constants[e.id])
    else
      None
  }

  /** Dispatch in an inner context: the visitor writes into a fresh block,
      its statements are then appended to the caller's block and its
      temporaries moved into the caller's context; a visitor failure is
      wrapped at the expression. */
  function Dispatch(c: Collaborators, e: KtExpression, ctx: Ctx, block: seq<JsStmt>): (r: Result<Translated<JsNode>, Throwable>)
    ensures r.Err? <==> c.visit(e, ctx).Err?
    ensures r.Err? ==> r.error == WrapAt(AtExpression(e.id), c.visit(e, ctx).error)
    ensures r.Ok? ==>
              var v := c.visit(e, ctx).value;
              && r.value.result == v.node
              && |block| <= |r.value.block|
              && r.value.block[..|block|] == block
              && r.value.block[|block|..] == v.emitted
              && r.value.ctx == ctx.(vars := ctx.vars + v.declared)
  {
    match c.visit(e, ctx)
    case Err(t) => Err(WrapAt(AtExpression(e.id), t))
    case Ok(v) => Ok(Translated(v.node, block + v.emitted, ctx.(vars := ctx.vars + v.declared)))
  }

  /** `translateExpression`: a registered alias wins; else a gated constant
      is folded to a literal; else the visitor is dispatched. */
  function TranslateExpression(c: Collaborators, e: KtExpression, ctx: Ctx, block: seq<JsStmt>): (r: Result<Translated<JsNode>, Throwable>)
    // an alias is returned as is, with nothing appended and nothing declared
    ensures e.id in ctx.aliases ==> r == Ok(Translated(ExprNode(ctx.aliases[e.id]), block, ctx))
    // otherwise a folded constant is returned as its literal, bypassing the
    // visitor, with nothing appended and nothing declared
    ensures e.id !in ctx.aliases && Fold(c.encoders, ctx.binding, e).Some? ==>
              r == Ok(Translated(ExprNode(Fold(c.encoders, ctx.binding, e).value), block, ctx))
    // with no alias and no literal (no constant, no type, a closed gate or an
    // unrepresentable constant) the expression goes to the visitor
    ensures e.id !in ctx.aliases && Fold(c.encoders, ctx.binding, e).None? ==>
              r == Dispatch(c, e, ctx, block)
    // the caller's statements are kept and only appended to; lookups are untouched
    ensures r.Ok? ==>
              && |block| <= |r.value.block|
              && r.value.block[..|block|] == block
              && r.value.ctx.binding == ctx.binding
              && r.value.ctx.aliases == ctx.aliases
              && |ctx.vars| <= |r.value.ctx.vars|
              && r.value.ctx.vars[..|ctx.vars|] == ctx.vars
    // only a visitor failure is reported, wrapped at the expression
    ensures r.Err? ==> c.visit(e, ctx).Err? && r.error == WrapAt(AtExpression(e.id), c.visit(e, ctx).error)
  {
    if e.id in ctx.aliases then
      Ok(Translated(ExprNode(ctx.aliases[e.id]), block, ctx))
    else
      match Fold(c.encoders, ctx.binding, e)
      case Some(literal) => Ok(Translated(ExprNode(literal), block, ctx))
      case None => Dispatch(c, e, ctx, block)
  }

  /** Anything other than the dispatch path needs an alias or an open gate:
      an `Int` expression that is not unary, a `Char`, a `Short` or a
      nullable `Long` is always handed to the visitor, constant or not. */
  lemma FoldOnlyThroughGate(c: Collaborators, e: KtExpression, ctx: Ctx, block: seq<JsStmt>)
    requires e.id !in ctx.aliases
    requires e.id !in ctx.binding.types || !FoldGate(ctx.binding.types[e.id], e)
    ensures TranslateExpression(c, e, ctx, block) == Dispatch(c, e, ctx, block)
  {
  }

  /** A constant the folder cannot represent falls through to dispatch even
      when the gate is open. */
  lemma UnrepresentableFallsThrough(c: Collaborators, e: KtExpression, ctx: Ctx, block: seq<JsStmt>)
    requires e.id !in ctx.aliases
    requires e.id in ctx.binding.constants && ctx.binding.constants[e.id].OtherValue?
    ensures TranslateExpression(c, e, ctx, block) == Dispatch(c, e, ctx, block)
  {
  }

  /** A `Long` constant, such as the initializer of `val x: Long = 5`, is
      folded through the 64-bit encoder: the visitor is not consulted and
      nothing is emitted. */
  lemma LongConstantUsesLongEncoder(c: Collaborators, e: KtExpression, ctx: Ctx, block: seq<JsStmt>, n: Int64)
    requires e.id !in ctx.aliases
    requires e.id in ctx.binding.types && ctx.binding.types[e.id] == KotlinType(LongClass, false)
    requires e.id in ctx.binding.constants && ctx.binding.constants[e.id] == LongValue(n)
    ensures TranslateExpression(c, e, ctx, block) == Ok(Translated(ExprNode(c.encoders.newLong(n)), block, ctx))
  {
  }

  /** Translating into a block is translating into an empty block and
      appending what that emitted: the caller's statements never influence
      the result. */
  lemma BlockIsOnlyAppended(c: Collaborators, e: KtExpression, ctx: Ctx, block: seq<JsStmt>)
    ensures var alone := TranslateExpression(c, e, ctx, []);
            var r := TranslateExpression(c, e, ctx, block);
            && (r.Ok? <==> alone.Ok?)
            && (r.Err? ==> r.error == alone.error)
            && (r.Ok? ==> r.value == alone.value.(block := block + alone.value.block))
  {
  }

  /** The unboxing condition of `translateAsExpression`: a `Char` or `Char?`
      typed expression whose node is an invocation, name reference or array
      access holds a boxed character. */
  predicate NeedsCharUnboxing(b: BindingContext, e: KtExpression, x: JsExpr) {
    e.id in b.types && b.types[e.id].IsCharOrNullableChar() &&
    (x.Invocation? || x.NameRef? || x.ArrayAccess?)
  }

  /** `translateAsExpression`: an expression is returned (unboxed if it is a
      boxed character); a statement whose value is used is made to assign
      its last expression to a fresh temporary, whose reference is returned;
      a statement whose value is unused is appended and `null` returned. */
  function TranslateAsExpression(c: Collaborators, e: KtExpression, ctx: Ctx, block: seq<JsStmt>): (r: Result<Translated<JsExpr>, Throwable>)
    ensures var t := TranslateExpression(c, e, ctx, block);
            && (r.Ok? <==> t.Ok?)
            && (r.Err? ==> r.error == t.error)
    // an expression result: no statement appended, unboxed exactly when needed
    ensures var t := TranslateExpression(c, e, ctx, block);
            t.Ok? && t.value.result.ExprNode? ==>
              var x := t.value.result.expr;
              && r.value.block == t.value.block
              && r.value.ctx == t.value.ctx
              && (NeedsCharUnboxing(ctx.binding, e, x) ==> r.value.result == c.boxedCharToChar(x))
              && (!NeedsCharUnboxing(ctx.binding, e, x) ==> r.value.result == x)
    // a statement result whose value is used: exactly one statement, the
    // mutated one, is appended, and the fresh temporary is returned
    ensures var t := TranslateExpression(c, e, ctx, block);
            t.Ok? && t.value.result.StmtNode? && e.id in ctx.binding.usedAsExpression ==>
              var tmp := c.temporaryName(t.value.ctx);
              && r.value.result == NameRef(tmp, None)
              && r.value.block == t.value.block + [c.assignLastTo(t.value.result.stmt, r.value.result)]
              && r.value.ctx == t.value.ctx.(vars := t.value.ctx.vars + [tmp])
    // a statement result whose value is unused: it is appended as is and
    // the null literal stands in for its value
    ensures var t := TranslateExpression(c, e, ctx, block);
            t.Ok? && t.value.result.StmtNode? && e.id !in ctx.binding.usedAsExpression ==>
              && r.value.result == NullLiteral
              && r.value.block == t.value.block + [t.value.result.stmt]
              && r.value.ctx == t.value.ctx
  {
    match TranslateExpression(c, e, ctx, block)
    case Err(t) => Err(t)
    case Ok(Translated(ExprNode(x), b, ctx1)) =>
      var x' := if NeedsCharUnboxing(ctx.binding, e, x) then c.boxedCharToChar(x) else x;
      Ok(Translated(x', b, ctx1))
    case Ok(Translated(StmtNode(s), b, ctx1)) =>
      if e.id in ctx.binding.usedAsExpression then
        var tmp := c.temporaryName(ctx1);
        var ref := NameRef(tmp, None);
        Ok(Translated(ref, b + [c.assignLastTo(s, ref)], ctx1.(vars := ctx1.vars + [tmp])))
      else
        Ok(Translated(NullLiteral, b + [ConvertToStatement(StmtNode(s))], ctx1))
  }

  /** The unboxing step also applies to an alias: a `Char` typed expression
      whose alias is a name reference comes back unboxed, and nothing is
      appended. */
  lemma AliasOfCharIsUnboxed(c: Collaborators, e: KtExpression, ctx: Ctx, block: seq<JsStmt>, name: string)
    requires e.id in ctx.aliases && ctx.aliases[e.id] == NameRef(name, None)
    requires e.id in ctx.binding.types && ctx.binding.types[e.id].classifier == CharClass
    ensures TranslateAsExpression(c, e, ctx, block) == Ok(Translated(c.boxedCharToChar(NameRef(name, None)), block, ctx))
  {
  }

  /** A folded literal is never unboxed, whatever its shape (the 64-bit
      encoder's output included): folding needs a `Long` or `Int` type,
      never a `Char` one. */
  lemma FoldedLiteralIsReturned(c: Collaborators, e: KtExpression, ctx: Ctx, block: seq<JsStmt>)
    requires e.id !in ctx.aliases && Fold(c.encoders, ctx.binding, e).Some?
    ensures TranslateAsExpression(c, e, ctx, block) == Ok(Translated(Fold(c.encoders, ctx.binding, e).value, block, ctx))
  {
  }

  /** `translateAsStatement`: the node, made a statement. */
  function TranslateAsStatement(c: Collaborators, e: KtExpression, ctx: Ctx, block: seq<JsStmt>): (r: Result<Translated<JsStmt>, Throwable>)
    ensures var t := TranslateExpression(c, e, ctx, block);
            && (r.Ok? <==> t.Ok?)
            && (r.Err? ==> r.error == t.error)
            && (r.Ok? ==> r.value.block == t.value.block && r.value.ctx == t.value.ctx)
            && (r.Ok? && t.value.result.StmtNode? ==> r.value.result == t.value.result.stmt)
            && (r.Ok? && t.value.result.ExprNode? ==> r.value.result == ExprStmt(t.value.result.expr))
  {
    match TranslateExpression(c, e, ctx, block)
    case Err(t) => Err(t)
    case Ok(Translated(n, b, ctx1)) => Ok(Translated(ConvertToStatement(n), b, ctx1))
  }

  /** For a statement whose value is unused, translating it as an expression
      appends exactly the statement `translateAsStatement` returns, after
      exactly the statements `translateAsStatement` leaves in the block. */
  lemma UnusedStatementAgreesWithAsStatement(c: Collaborators, e: KtExpression, ctx: Ctx, block: seq<JsStmt>)
    requires e.id !in ctx.binding.usedAsExpression
    requires TranslateExpression(c, e, ctx, block).Ok?
    requires TranslateExpression(c, e, ctx, block).value.result.StmtNode?
    ensures var s := TranslateAsStatement(c, e, ctx, block).value;
            var x := TranslateAsExpression(c, e, ctx, block).value;
            x.block == s.block + [s.result] && x.ctx == s.ctx && x.result == NullLiteral
  {
  }

  /** `translateAsStatementAndMergeInBlockIfNeeded`: translate into a new,
      empty block and merge the resulting statement with what that block
      collected. */
  function TranslateAsStatementAndMergeInBlockIfNeeded(c: Collaborators, e: KtExpression, ctx: Ctx): (r: Result<(JsStmt, Ctx), Throwable>)
    ensures var s := TranslateAsStatement(c, e, ctx, []);
            && (r.Ok? <==> s.Ok?)
            && (r.Err? ==> r.error == s.error)
            && (r.Ok? ==> r.value == (c.mergeInBlock(s.value.result, s.value.block), s.value.ctx))
  {
    var block: seq<JsStmt> := [];
    match TranslateExpression(c, e, ctx, block)
    case Err(t) => Err(t)
    case Ok(Translated(n, b, ctx1)) => Ok((c.mergeInBlock(ConvertToStatement(n), b), ctx1))
  }

  /** The merge sees exactly the statements the translation would have
      appended to any caller's block, and the statement that would have been
      returned. */
  lemma MergeSeesWhatWouldBeAppended(c: Collaborators, e: KtExpression, ctx: Ctx, block: seq<JsStmt>)
    requires TranslateAsStatement(c, e, ctx, block).Ok?
    ensures var s := TranslateAsStatement(c, e, ctx, block).value;
            TranslateAsStatementAndMergeInBlockIfNeeded(c, e, ctx)
              == Ok((c.mergeInBlock(s.result, s.block[|block|..]), s.ctx))
  {
  }
}
