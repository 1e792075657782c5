/** `generateAst` / `doGenerateAst`: translate every file into a fragment,
    merge the fragments into the root function, frame its body with
    `"use strict"`, the optional `defineModule` call and the final `return`,
    and hand it to the module wrapper. */
module Assembly {
  import opened Wrappers
  import opened Kotlin
  import opened JsAst
  import opened Errors

  /** The runtime's own `Enum` binding key: a fragment that binds it without
      importing it is the builtin module. */
  const EnumSignature := "kotlin$Enum"

  /** The name declared in the program scope before merging (`"_"`). */
  const InternalModuleName := "_"

  const UseStrict := ExprStmt(StringLiteral("use strict"))

  datatype ModuleKind = Plain | Amd | CommonJs | Umd

  datatype Config = Config(moduleId: string, moduleKind: ModuleKind)

  /** What the merger leaves behind: the root function's body and the names
      it declared in the program scope. */
  datatype Merged = Merged(body: seq<JsStmt>, scopeNames: set<string>)

  /** The merger's internal state, whose contents only the merger reads. */
  datatype MergerState = MergerState(tag: int)

  /** The files translated so far: their fragments, in order, and the merger
      they have been added to. */
  datatype Added = Added(fragments: seq<Fragment>, merger: MergerState)

  /** The collaborators `doGenerateAst` and `translateFile` call but do not
      define. */
  datatype AssemblyCollaborators = AssemblyCollaborators(
    /** `AnnotationsUtils.isPredefinedObject` of the declaration's descriptor. */
    isPredefined: KtDeclaration -> bool,
    /** `declaration.accept(fileVisitor, context)`, as a change to the
        fragment the file's static context is building. */
    visitDeclaration: (KtDeclaration, Fragment) -> Result<Fragment, Throwable>,
    /** `new Merger(rootFunction, internalModuleName)`. */
    initialMerger: MergerState,
    /** `Merger.addFragment`. */
    addFragment: (MergerState, Fragment) -> Result<MergerState, Throwable>,
    /** `Merger.merge()`. */
    merge: MergerState -> Result<Merged, Throwable>,
    /** `Namer.kotlin(name)`: a reference to a member of the runtime object. */
    kotlinRef: string -> JsExpr,
    /** `Namer.getRootPackageName()`. */
    rootPackageName: string,
    /** `ModuleWrapperTranslation.wrapIfNecessary`. */
    wrapIfNecessary: (string, JsFunction, ModuleKind) -> seq<JsStmt>)

  // ---------------------------------------------------------------------
  // translateFile

  /** The declarations of a file that are emitted, in file order. */
  function NonPredefined(isPredefined: KtDeclaration -> bool, ds: seq<KtDeclaration>): seq<KtDeclaration>
    decreases |ds|
  {
    if |ds| == 0 then []
    else
      var last := ds[|ds| - 1];
      NonPredefined(isPredefined, ds[..|ds| - 1]) + (if isPredefined(last) then [] else [last])
  }

  lemma {:induction false} NonPredefinedAppend(isPredefined: KtDeclaration -> bool, xs: seq<KtDeclaration>, ys: seq<KtDeclaration>)
    ensures NonPredefined(isPredefined, xs + ys) == NonPredefined(isPredefined, xs) + NonPredefined(isPredefined, ys)
    decreases |ys|
  {
    if |ys| > 0 {
      var ys' := ys[..|ys| - 1];
      assert (xs + ys)[..|xs + ys| - 1] == xs + ys';
      NonPredefinedAppend(isPredefined, xs, ys');
    } else {
      assert xs + ys == xs;
    }
  }

  /** Visiting declarations in order, from the empty fragment, stopping at
      the first failure. */
  function VisitAll(c: AssemblyCollaborators, ds: seq<KtDeclaration>): Result<Fragment, Throwable>
    decreases |ds|
  {
    if |ds| == 0 then Ok(EmptyFragment)
    else
      match VisitAll(c, ds[..|ds| - 1])
      case Err(t) => Err(t)
      case Ok(f) => c.visitDeclaration(ds[|ds| - 1], f)
  }

  /** The reference meaning of `translateFile`: visit exactly the
      non-predefined declarations, in file order; a failure is wrapped at
      the file unless it already is a `TranslationRuntimeException`. */
  function FileFragment(c: AssemblyCollaborators, file: KtFile): Result<Fragment, Throwable> {
    match VisitAll(c, NonPredefined(c.isPredefined, file.declarations))
    case Err(t) => Err(WrapAt(AtFile(file.id), t))
    case Ok(f) => Ok(f)
  }

  /** `translateFile`: one pass over the file's declarations that skips the
      predefined ones. */
  method TranslateFile(c: AssemblyCollaborators, file: KtFile) returns (r: Result<Fragment, Throwable>)
    ensures r == FileFragment(c, file)
  {
    var ds := file.declarations;
    var fragment := EmptyFragment;
    var i := 0;
    while i < |ds|
      invariant 0 <= i <= |ds|
      invariant VisitAll(c, NonPredefined(c.isPredefined, ds[..i])) == Ok(fragment)
    {
      assert ds[..i + 1][..i] == ds[..i];
      var kept := NonPredefined(c.isPredefined, ds[..i]);
      assert NonPredefined(c.isPredefined, ds[..i + 1])
               == kept + (if c.isPredefined(ds[i]) then [] else [ds[i]]);
      assert (kept + [ds[i]])[..|kept|] == kept;
      if !c.isPredefined(ds[i]) {
        match c.visitDeclaration(ds[i], fragment)
        case Err(t) =>
          NonPredefinedAppend(c.isPredefined, ds[..i + 1], ds[i + 1..]);
          assert ds[..i + 1] + ds[i + 1..] == ds;
          VisitAllStopsAtFailure(c, NonPredefined(c.isPredefined, ds[..i + 1]), NonPredefined(c.isPredefined, ds[i + 1..]));
          return Err(WrapAt(AtFile(file.id), t));
        case Ok(f) =>
          assert VisitAll(c, kept + [ds[i]]) == Ok(f);
          fragment := f;
      } else {
        assert kept + [] == kept;
      }
      i := i + 1;
    }
    assert ds[..i] == ds;
    return Ok(fragment);
  }

  /** Once a visit fails, the declarations after it do not matter. */
  lemma {:induction false} VisitAllStopsAtFailure(c: AssemblyCollaborators, xs: seq<KtDeclaration>, ys: seq<KtDeclaration>)
    requires VisitAll(c, xs).Err?
    ensures VisitAll(c, xs + ys) == VisitAll(c, xs)
    decreases |ys|
  {
    if |ys| > 0 {
      var ys' := ys[..|ys| - 1];
      assert (xs + ys)[..|xs + ys| - 1] == xs + ys';
      VisitAllStopsAtFailure(c, xs, ys');
    } else {
      assert xs + ys == xs;
    }
  }

  /** A declaration flagged predefined contributes nothing: the file's
      fragment, or its failure, is the same with the declaration removed. */
  lemma {:induction false} PredefinedDeclarationIsSkipped(c: AssemblyCollaborators, file: KtFile, i: nat)
    requires i < |file.declarations| && c.isPredefined(file.declarations[i])
    ensures FileFragment(c, file)
              == FileFragment(c, file.(declarations := file.declarations[..i] + file.declarations[i + 1..]))
  {
    var p := c.isPredefined;
    var ds := file.declarations;
    var before, after := ds[..i], ds[i + 1..];
    assert ds == (before + [ds[i]]) + after;
    NonPredefinedAppend(p, before + [ds[i]], after);
    NonPredefinedAppend(p, before, [ds[i]]);
    NonPredefinedAppend(p, before, after);
    assert NonPredefined(p, [ds[i]]) == [] by {
      assert [ds[i]][..0] == [];
    }
    assert NonPredefined(p, ds) == NonPredefined(p, before + after);
  }

  // ---------------------------------------------------------------------
  // The files of a run

  /** One turn of the file loop: translate the file, then add its fragment
      to the merger. */
  function Step(c: AssemblyCollaborators, a: Added, file: KtFile): Result<Added, Throwable> {
    match FileFragment(c, file)
    case Err(t) => Err(t)
    case Ok(f) =>
      match c.addFragment(a.merger, f)
      case Err(t) => Err(t)
      case Ok(m) => Ok(Added(a.fragments + [f], m))
  }

  /** The file loop of `doGenerateAst`: every file becomes one fragment, in
      input order, and is added to the merger before the next file is
      translated. */
  function TranslateFiles(c: AssemblyCollaborators, files: seq<KtFile>): (r: Result<Added, Throwable>)
    ensures r.Ok? ==>
              && |r.value.fragments| == |files|
              && forall i :: 0 <= i < |files| ==> FileFragment(c, files[i]) == Ok(r.value.fragments[i])
    decreases |files|
  {
    if |files| == 0 then Ok(Added([], c.initialMerger))
    else
      match TranslateFiles(c, files[..|files| - 1])
      case Err(t) => Err(t)
      case Ok(a) => Step(c, a, files[|files| - 1])
  }

  /** A failed run failed at one file k: every file before it was
      translated and added, and the failure is file k's own translation
      failure or the merger's refusal of file k's fragment. No later file is
      looked at. */
  lemma {:induction false} RunStopsAtFirstFailure(c: AssemblyCollaborators, files: seq<KtFile>)
    requires TranslateFiles(c, files).Err?
    ensures exists k :: 0 <= k < |files| && TranslateFiles(c, files[..k]).Ok? &&
                        Step(c, TranslateFiles(c, files[..k]).value, files[k]) == TranslateFiles(c, files)
    decreases |files|
  {
    var n := |files|;
    var init := files[..n - 1];
    if TranslateFiles(c, init).Err? {
      RunStopsAtFirstFailure(c, init);
      var k :| 0 <= k < |init| && TranslateFiles(c, init[..k]).Ok? &&
               Step(c, TranslateFiles(c, init[..k]).value, init[k]) == TranslateFiles(c, init);
      assert init[..k] == files[..k];
      assert init[k] == files[k];
    } else {
      assert files[..n - 1] == init;
    }
  }

  // ---------------------------------------------------------------------
  // isBuiltinModule

  /** Some single fragment binds the `Enum` key without importing it. */
  ghost predicate DefinesEnumWithoutImport(fragments: seq<Fragment>) {
    exists k, j :: 0 <= k < |fragments| && 0 <= j < |fragments[k].nameBindings| &&
                   fragments[k].nameBindings[j].key == EnumSignature &&
                   EnumSignature !in fragments[k].imports
  }

  /** `isBuiltinModule`. */
  method IsBuiltinModule(fragments: seq<Fragment>) returns (b: bool)
    ensures b <==> DefinesEnumWithoutImport(fragments)
  {
    for k := 0 to |fragments|
      invariant forall k', j :: 0 <= k' < k && 0 <= j < |fragments[k'].nameBindings| ==>
                  !(fragments[k'].nameBindings[j].key == EnumSignature && EnumSignature !in fragments[k'].imports)
    {
      var bindings := fragments[k].nameBindings;
      for j := 0 to |bindings|
        invariant forall j' :: 0 <= j' < j ==>
                    !(bindings[j'].key == EnumSignature && EnumSignature !in fragments[k].imports)
      {
        if bindings[j].key == EnumSignature && EnumSignature !in fragments[k].imports {
          return true;
        }
      }
    }
    return false;
  }

  /** The test is per fragment: a fragment that binds the marker without
      importing it makes the run builtin even when another fragment imports
      the marker; and binding and importing it in the same fragment does not. */
  lemma {:induction false} BuiltinIsDecidedPerFragment(f: Fragment, g: Fragment, j: nat)
    requires j < |f.nameBindings| && f.nameBindings[j].key == EnumSignature
    ensures EnumSignature !in f.imports ==> DefinesEnumWithoutImport([g, f])
    ensures EnumSignature in f.imports && EnumSignature in g.imports ==> !DefinesEnumWithoutImport([g, f])
  {
    if EnumSignature !in f.imports {
      assert [g, f][1].nameBindings[j].key == EnumSignature;
    }
  }

  // ---------------------------------------------------------------------
  // The root body

  /** `defineModule`: the registration call, present only when the root
      package name is already declared in the program scope. */
  function DefineModule(c: AssemblyCollaborators, scope: set<string>, moduleId: string): (r: seq<JsStmt>)
    ensures |r| <= 1
    ensures |r| == 1 <==> c.rootPackageName in scope
    ensures |r| == 1 ==>
              r[0] == ExprStmt(Invocation(c.kotlinRef("defineModule"),
                                          [StringLiteral(moduleId), NameRef(c.rootPackageName, None)]))
  {
    if c.rootPackageName in scope then
      [ExprStmt(Invocation(c.kotlinRef("defineModule"), [StringLiteral(moduleId), NameRef(c.rootPackageName, None)]))]
    else
      []
  }

  /** The program scope when `defineModule` looks the root package name up:
      the internal module name and what the merger declared. The root
      package name itself is declared only afterwards. */
  function ScopeAtDefineModule(m: Merged): set<string> {
    {InternalModuleName} + m.scopeNames
  }

  /** The failure that aborts a run, if any: the first failing file's, or
      else the merge's. */
  function RunFailure(c: AssemblyCollaborators, files: seq<KtFile>): Option<Throwable> {
    match TranslateFiles(c, files)
    case Err(t) => Some(t)
    case Ok(added) =>
      match c.merge(added.merger)
      case Err(t) => Some(t)
      case Ok(_) => None
  }

  /** The shape of an assembled program. The root function takes one
      parameter, the root package, and its body is exactly `"use strict"`,
      the merged body, the `defineModule` registration when the run is not
      builtin, and the `return` of the root package; the global block is the
      wrapper's output for that root function. */
  ghost predicate AssembledAs(c: AssemblyCollaborators, files: seq<KtFile>, config: Config, p: JsProgram) {
    && TranslateFiles(c, files).Ok?
    && c.merge(TranslateFiles(c, files).value.merger).Ok?
    && var fragments := TranslateFiles(c, files).value.fragments;
       var merged := c.merge(TranslateFiles(c, files).value.merger).value;
       var registration := if DefinesEnumWithoutImport(fragments) then []
                           else DefineModule(c, ScopeAtDefineModule(merged), config.moduleId);
       var root := p.rootFunction;
       var body := root.body;
       && root.parameters == [c.rootPackageName]
       && body == [UseStrict] + merged.body + registration + [Return(NameRef(c.rootPackageName, None))]
       // the registration is there exactly when the run is not builtin and
       // the root package name is already in scope
       && (|body| == |merged.body| + 3 <==>
             !DefinesEnumWithoutImport(fragments) && c.rootPackageName in ScopeAtDefineModule(merged))
       && p.globalBlock == c.wrapIfNecessary(config.moduleId, root, config.moduleKind)
  }

  /** The internal module name is declared before `defineModule` looks the
      root package name up, so when the two names coincide every run that is
      not builtin registers its module. */
  lemma RootPackageUnderscoreAlwaysRegisters(c: AssemblyCollaborators, m: Merged, moduleId: string)
    requires c.rootPackageName == InternalModuleName
    ensures |DefineModule(c, ScopeAtDefineModule(m), moduleId)| == 1
  {
  }

  /** `doGenerateAst`. */
  method DoGenerateAst(c: AssemblyCollaborators, files: seq<KtFile>, config: Config) returns (r: Result<JsProgram, Throwable>)
    // fails exactly when a file or the merge fails, with the first failure
    ensures r.Err? <==> RunFailure(c, files).Some?
    ensures r.Err? ==> r.error == RunFailure(c, files).value
    ensures r.Ok? ==> AssembledAs(c, files, config, r.value)
  {
    var fragments: seq<Fragment> := [];
    var merger := c.initialMerger;
    for i := 0 to |files|
      invariant TranslateFiles(c, files[..i]) == Ok(Added(fragments, merger))
    {
      assert files[..i + 1][..i] == files[..i];
      var f := TranslateFile(c, files[i]);
      if f.Err? {
        FirstFailureStops(c, files, i + 1);
        return Err(f.error);
      }
      var m := c.addFragment(merger, f.value);
      if m.Err? {
        FirstFailureStops(c, files, i + 1);
        return Err(m.error);
      }
      fragments := fragments + [f.value];
      merger := m.value;
    }
    assert files[..|files|] == files;
    var merged := c.merge(merger);
    if merged.Err? {
      return Err(merged.error);
    }
    var statements := [UseStrict] + merged.value.body;
    var builtin := IsBuiltinModule(fragments);
    if !builtin {
      statements := statements + DefineModule(c, ScopeAtDefineModule(merged.value), config.moduleId);
    }
    statements := statements + [Return(NameRef(c.rootPackageName, None))];
    var root := JsFunction([c.rootPackageName], statements);
    return Ok(JsProgram(c.wrapIfNecessary(config.moduleId, root, config.moduleKind), root));
  }

  /** A builtin run never registers itself: its root body is just
      `"use strict"`, the merged body and the `return`. */
  lemma BuiltinRunIsNotRegistered(c: AssemblyCollaborators, files: seq<KtFile>, config: Config, p: JsProgram)
    requires AssembledAs(c, files, config, p)
    requires DefinesEnumWithoutImport(TranslateFiles(c, files).value.fragments)
    ensures p.rootFunction.body
              == [UseStrict] + c.merge(TranslateFiles(c, files).value.merger).value.body
                 + [Return(NameRef(c.rootPackageName, None))]
  {
  }

  /** A failing prefix of the files decides the whole run's failure. */
  lemma {:induction false} FirstFailureStops(c: AssemblyCollaborators, files: seq<KtFile>, n: nat)
    requires n <= |files| && TranslateFiles(c, files[..n]).Err?
    ensures TranslateFiles(c, files) == TranslateFiles(c, files[..n])
    decreases |files| - n
  {
    if n < |files| {
      assert files[..n + 1][..n] == files[..n];
      FirstFailureStops(c, files, n + 1);
    } else {
      assert files[..n] == files;
    }
  }

  /** `generateAst`: `doGenerateAst` with an `UnsupportedOperationException`
      reported as an unsupported feature. */
  method GenerateAst(c: AssemblyCollaborators, files: seq<KtFile>, config: Config) returns (r: Result<JsProgram, Throwable>)
    ensures r.Err? <==> RunFailure(c, files).Some?
    ensures r.Err? ==> r.error == ReportAtTopLevel(RunFailure(c, files).value)
    ensures r.Err? ==> !r.error.UnsupportedOperationException?
    ensures r.Ok? ==> AssembledAs(c, files, config, r.value)
  {
    var p := DoGenerateAst(c, files, config);
    match p
    case Err(t) =>
      return Err(ReportAtTopLevel(t));
    case Ok(program) =>
      return Ok(program);
  }

  /** A file's translation failure is never a bare
      `UnsupportedOperationException` (the catch in `translateFile` wraps it
      at the file), so `generateAst` reports it unchanged; only one raised
      by the merger becomes an unsupported feature. */
  lemma FileFailureIsReportedUnchanged(c: AssemblyCollaborators, file: KtFile)
    requires FileFragment(c, file).Err?
    ensures !FileFragment(c, file).error.UnsupportedOperationException?
    ensures ReportAtTopLevel(FileFragment(c, file).error) == FileFragment(c, file).error
  {
  }
}
