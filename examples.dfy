/** The enums of the crate's own tests, and the two inputs on which the
    generated code as written does not compile. */
module Examples {
  import opened Wrappers
  import opened Syntax
  import opened Levels
  import opened Variants
  import Attributes
  import opened Expand
  import opened Dispatch
  import Log

  /** A one-segment path `id`. */
  function IdentPath(id: Ident, at: nat): Path
  {
    Path(false, [PathSegment(id, NoArguments, Site(at))])
  }

  /** `#[report(keyword)]` */
  function Report(keyword: Ident): Attribute
  {
    Parsed(List(MetaList(IdentPath("report", 0), [MetaItem(PathMeta(IdentPath(keyword, 0)))])))
  }

  /** `#[level(keyword)]`, an attribute the derive does not register. */
  function LevelAttr(keyword: Ident): Attribute
  {
    Parsed(List(MetaList(IdentPath("level", 0), [MetaItem(PathMeta(IdentPath(keyword, 0)))])))
  }

  /** A variant with one unnamed field of type `ty`. */
  function Newtype(id: Ident, ty: Type, at: nat): Variant
  {
    Variant([], id, Unnamed([Field(ty)]), Site(at))
  }

  /** `enum OuterError { #[report(Info)] Error0 }` */
  const OuterError := DeriveInput("OuterError", Enum([Variant([Report("Info")], "Error0", Unit, Site(1))]))

  /** `enum Error { #[report(Info)] Error00 }` inside `mod example_mod`. */
  const ModError := DeriveInput("Error", Enum([Variant([Report("Info")], "Error00", Unit, Site(2))]))

  /** `enum CustomError { #[report(Warn)] ErrorA, #[report(Info)] ErrorB, #[report(No)] ErrorC, ErrorD(payload) }` */
  function CustomError(payload: Path): DeriveInput
  {
    DeriveInput("CustomError", Enum([
      Variant([Report("Warn")], "ErrorA", Unit, Site(10)),
      Variant([Report("Info")], "ErrorB", Unit, Site(11)),
      Variant([Report("No")], "ErrorC", Unit, Site(12)),
      Newtype("ErrorD", TypePath(payload), 13)]))
  }

  /** `example_mod::Error`, a path of two segments. */
  const ModErrorPath := Path(false, [PathSegment("example_mod", NoArguments, Site(20)),
                                     PathSegment("Error", NoArguments, Site(21))])

  /** A variant whose only attribute is `#[report(<keyword of level>)]` is marked with `level`. */
  lemma {:induction false} ReportedVariant(level: Level, id: Ident, fields: Fields, at: nat, join: Joiner)
    ensures Classify(Variant([Report(Keyword(level))], id, fields, Site(at)), join) == Ok(Explicit(level))
  {
    var v := Variant([Report(Keyword(level))], id, fields, Site(at));
    FromIdentKeyword(level);
    ReportAlwaysMarked(v, join, 0);
  }

  /** A variant without attributes whose one field has a path type delegates. */
  lemma {:induction false} PathNewtype(id: Ident, p: Path, at: nat, join: Joiner)
    ensures Classify(Newtype(id, TypePath(p), at), join) == Ok(Delegated(Payload.HandlePath(p, join)))
  {
    UnreportedVariant(Newtype(id, TypePath(p), at), join);
  }

  lemma {:induction false} CustomErrorClasses(payload: Path, join: Joiner)
    ensures var vs := CustomError(payload).data.variants;
            && Classify(vs[0], join) == Ok(Explicit(Warn))
            && Classify(vs[1], join) == Ok(Explicit(Info))
            && Classify(vs[2], join) == Ok(Explicit(No))
            && Classify(vs[3], join) == Ok(Delegated(Payload.HandlePath(payload, join)))
  {
    var vs := CustomError(payload).data.variants;
    assert Keyword(Warn) == "Warn" && Keyword(Info) == "Info" && Keyword(No) == "No";
    ReportedVariant(Warn, "ErrorA", Unit, 10, join);
    ReportedVariant(Info, "ErrorB", Unit, 11, join);
    ReportedVariant(No, "ErrorC", Unit, 12, join);
    PathNewtype("ErrorD", payload, 13, join);
  }

  lemma {:induction false} CustomErrorDistinct(payload: Path)
    ensures DistinctIdents(CustomError(payload).data.variants)
  {
    var vs := CustomError(payload).data.variants;
    assert vs[0].ident == "ErrorA" && vs[1].ident == "ErrorB";
    assert vs[2].ident == "ErrorC" && vs[3].ident == "ErrorD";
  }

  lemma {:induction false} CustomErrorSplit(payload: Path, join: Joiner)
    ensures Split(CustomError(payload).data.variants, join).Ok?
    ensures Split(CustomError(payload).data.variants, join).value.errs == []
  {
    var vs := CustomError(payload).data.variants;
    CustomErrorClasses(payload, join);
    forall i | 0 <= i < |vs|
      ensures Classify(vs[i], join).Ok? && !Classify(vs[i], join).value.Invalid?
    {
      assert i == 0 || i == 1 || i == 2 || i == 3;
    }
    SplitOkIff(vs, join);
    ErrsEmptyIff(vs, join);
  }

  lemma {:induction false} CustomErrorBuilds(payload: Path, join: Joiner)
    ensures ImplErrorLevelMacroAsWritten(CustomError(payload), join).Ok?
    ensures Builds(CustomError(payload).data.variants, ImplErrorLevelMacroAsWritten(CustomError(payload), join).value)
  {
    var vs := CustomError(payload).data.variants;
    CustomErrorDistinct(payload);
    CustomErrorSplit(payload, join);
    CustomErrorClasses(payload, join);
    BuildsIff(CustomError(payload), join, UnitPattern, SinglePayload);
    forall i | 0 <= i < |vs| ensures Accepts(vs[i], join, UnitPattern, SinglePayload) {
      assert i == 0 || i == 1 || i == 2 || i == 3;
    }
  }

  /** `CustomError`'s generated `error_level`: `Warn`, `Info` and no report for
      the three marked variants, and the payload's own answer for `ErrorD`. */
  lemma {:induction false} CustomErrorDispatch(payload: Path, impls: map<Ident, Impl>, d: Value, join: Joiner)
    requires ImplErrorLevelMacroAsWritten(CustomError(payload), join).Ok?
    requires "CustomError" in impls && impls["CustomError"] == ImplErrorLevelMacroAsWritten(CustomError(payload), join).value
    ensures ErrorLevel(impls, Value("CustomError", "ErrorA", [])) == Reports(Some(Log.Warn))
    ensures ErrorLevel(impls, Value("CustomError", "ErrorB", [])) == Reports(Some(Log.Info))
    ensures ErrorLevel(impls, Value("CustomError", "ErrorC", [])) == Reports(None)
    ensures ErrorLevel(impls, Value("CustomError", "ErrorD", [d])) == ErrorLevel(impls, d)
  {
    var ast := CustomError(payload);
    CustomErrorDistinct(payload);
    CustomErrorClasses(payload, join);
    MarkedDispatch(ast, join, UnitPattern, SinglePayload, impls, 0, []);
    MarkedDispatch(ast, join, UnitPattern, SinglePayload, impls, 1, []);
    MarkedDispatch(ast, join, UnitPattern, SinglePayload, impls, 2, []);
    DelegatedDispatch(ast, join, UnitPattern, SinglePayload, impls, 3, [d]);
  }

  /** A one-variant enum whose variant is marked `#[report(Info)]` reports `Info`. */
  lemma {:induction false} InfoEnumDispatch(ast: DeriveInput, impls: map<Ident, Impl>, join: Joiner)
    requires ast == OuterError || ast == ModError
    requires ImplErrorLevelMacroAsWritten(ast, join).Ok?
    requires ast.ident in impls && impls[ast.ident] == ImplErrorLevelMacroAsWritten(ast, join).value
    ensures ErrorLevel(impls, Value(ast.ident, ast.data.variants[0].ident, [])) == Reports(Some(Log.Info))
  {
    var v := ast.data.variants[0];
    ReportedVariant(Info, v.ident, Unit, if ast == OuterError then 1 else 2, join);
    MarkedDispatch(ast, join, UnitPattern, SinglePayload, impls, 0, []);
  }

  /** The derive accepts a one-variant enum marked `#[report(Info)]`, and the
      impl it emits compiles. */
  lemma {:induction false} InfoEnumBuilds(ast: DeriveInput, join: Joiner)
    requires ast == OuterError || ast == ModError
    ensures Classify(ast.data.variants[0], join) == Ok(Explicit(Info))
    ensures ImplErrorLevelMacroAsWritten(ast, join).Ok?
    ensures Builds(ast.data.variants, ImplErrorLevelMacroAsWritten(ast, join).value)
  {
    var vs := ast.data.variants;
    ReportedVariant(Info, vs[0].ident, Unit, if ast == OuterError then 1 else 2, join);
    assert vs[..0] == [];
    SplitSnoc(vs, join, Partition([], [], []), Explicit(Info));
    BuildsIff(ast, join, UnitPattern, SinglePayload);
    assert Accepts(vs[0], join, UnitPattern, SinglePayload);
  }

  /** The two tests of tests/should_work.rs, for an inner enum `inner` whose one
      variant is marked `#[report(Info)]` and an outer `CustomError` whose `ErrorD`
      carries it under the path `payload`. */
  lemma {:induction false} DelegationTest(inner: DeriveInput, payload: Path, join: Joiner)
    requires inner == OuterError || inner == ModError
    ensures ImplErrorLevelMacroAsWritten(inner, join).Ok?
    ensures ImplErrorLevelMacroAsWritten(CustomError(payload), join).Ok?
    ensures Builds(inner.data.variants, ImplErrorLevelMacroAsWritten(inner, join).value)
    ensures Builds(CustomError(payload).data.variants, ImplErrorLevelMacroAsWritten(CustomError(payload), join).value)
    ensures var impls := map[inner.ident := ImplErrorLevelMacroAsWritten(inner, join).value,
                             "CustomError" := ImplErrorLevelMacroAsWritten(CustomError(payload), join).value];
            && ErrorLevel(impls, Value("CustomError", "ErrorA", [])) == Reports(Some(Log.Warn))
            && ErrorLevel(impls, Value("CustomError", "ErrorB", [])) == Reports(Some(Log.Info))
            && ErrorLevel(impls, Value("CustomError", "ErrorC", [])) == Reports(None)
            && ErrorLevel(impls, Value("CustomError", "ErrorD", [Value(inner.ident, inner.data.variants[0].ident, [])]))
               == Reports(Some(Log.Info))
  {
    InfoEnumBuilds(inner, join);
    CustomErrorBuilds(payload, join);
    var impls := map[inner.ident := ImplErrorLevelMacroAsWritten(inner, join).value,
                     "CustomError" := ImplErrorLevelMacroAsWritten(CustomError(payload), join).value];
    assert inner.ident != "CustomError";
    CustomErrorDispatch(payload, impls, Value(inner.ident, inner.data.variants[0].ident, []), join);
    InfoEnumDispatch(inner, impls, join);
  }

  /** Test `simple`: `ErrorD(OuterError::Error0)` reports `Info` through delegation. */
  lemma {:induction false} SimpleTest(join: Joiner)
    ensures ImplErrorLevelMacroAsWritten(OuterError, join).Ok?
    ensures ImplErrorLevelMacroAsWritten(CustomError(IdentPath("OuterError", 3)), join).Ok?
    ensures var impls := map["OuterError" := ImplErrorLevelMacroAsWritten(OuterError, join).value,
                             "CustomError" := ImplErrorLevelMacroAsWritten(CustomError(IdentPath("OuterError", 3)), join).value];
            ErrorLevel(impls, Value("CustomError", "ErrorD", [Value("OuterError", "Error0", [])]))
            == Reports(Some(Log.Info))
  {
    DelegationTest(OuterError, IdentPath("OuterError", 3), join);
  }

  /** Test `with_path_seperator`: the payload type `example_mod::Error` is a path of
      two segments and delegation still reaches its `Info`. */
  lemma {:induction false} WithPathSeparatorTest(join: Joiner)
    ensures ImplErrorLevelMacroAsWritten(ModError, join).Ok?
    ensures ImplErrorLevelMacroAsWritten(CustomError(ModErrorPath), join).Ok?
    ensures var impls := map["Error" := ImplErrorLevelMacroAsWritten(ModError, join).value,
                             "CustomError" := ImplErrorLevelMacroAsWritten(CustomError(ModErrorPath), join).value];
            ErrorLevel(impls, Value("CustomError", "ErrorD", [Value("Error", "Error00", [])]))
            == Reports(Some(Log.Info))
  {
    DelegationTest(ModError, ModErrorPath, join);
  }

  /** `(String, String)` */
  const StringPair := Tuple([TypePath(IdentPath("String", 30)), TypePath(IdentPath("String", 31))], Site(32))

  /** The enum of test `missing_attributes` in tests/should_fail.rs. */
  const MissingAttributes := DeriveInput("CustomError", Enum([
    Variant([LevelAttr("Warn")], "ErrorA", Unit, Site(40)),
    Variant([LevelAttr("Info")], "ErrorB", Unit, Site(41)),
    Variant([], "ErrorC", Unit, Site(42)),
    Newtype("ErrorD", StringPair, 43)]))

  lemma {:induction false} MissingAttributesClasses(join: Joiner)
    ensures var vs := MissingAttributes.data.variants;
            && Classify(vs[0], join) == Ok(Invalid(CompileError(Site(40), NeedsReport)))
            && Classify(vs[1], join) == Ok(Invalid(CompileError(Site(41), NeedsReport)))
            && Classify(vs[2], join) == Ok(Invalid(CompileError(Site(42), NeedsReport)))
            && Classify(vs[3], join) == Ok(Invalid(CompileError(Site(32), NoImplementation)))
  {
    var vs := MissingAttributes.data.variants;
    UnreportedVariant(vs[0], join);
    UnreportedVariant(vs[1], join);
    UnreportedVariant(vs[2], join);
    UnreportedVariant(vs[3], join);
  }

  /** Test `missing_attributes`: `#[level(..)]` is not the derive's attribute, so
      the first three variants each get one "Needs 'report' attribute" error at the
      variant, and the tuple payload one "variant content" error at the tuple;
      nothing is marked or delegated and the impl does not compile. */
  lemma {:induction false} MissingAttributesTest(join: Joiner)
    ensures Split(MissingAttributes.data.variants, join)
            == Ok(Partition([], [], [CompileError(Site(40), NeedsReport), CompileError(Site(41), NeedsReport),
                                     CompileError(Site(42), NeedsReport), CompileError(Site(32), NoImplementation)]))
    ensures ImplErrorLevelMacroAsWritten(MissingAttributes, join).Ok?
    ensures !Builds(MissingAttributes.data.variants, ImplErrorLevelMacroAsWritten(MissingAttributes, join).value)
  {
    var vs := MissingAttributes.data.variants;
    var e0, e1, e2 := CompileError(Site(40), NeedsReport), CompileError(Site(41), NeedsReport), CompileError(Site(42), NeedsReport);
    var e3 := CompileError(Site(32), NoImplementation);
    MissingAttributesClasses(join);
    var cs := [Invalid(e0), Invalid(e1), Invalid(e2), Invalid(e3)];
    forall i | 0 <= i < |vs| ensures Classify(vs[i], join) == Ok(cs[i]) {
      assert i == 0 || i == 1 || i == 2 || i == 3;
    }
    SplitClassified(vs, join, cs);
    PlacedFour(vs, cs);
    assert Placed(vs, cs) == Partition([], [], [e0, e1, e2, e3]);
  }

  /** The enum of test `does_not_implement_ErrorLevel` in tests/should_fail.rs. */
  const WithoutImpl := DeriveInput("CustomError", Enum([
    Variant([LevelAttr("Warn")], "ErrorA", Unit, Site(70)),
    Variant([LevelAttr("Info")], "ErrorB", Unit, Site(71)),
    Variant([LevelAttr("No")], "ErrorC", Unit, Site(72)),
    Newtype("ErrorD", TypePath(IdentPath("ErrorWithoutImpl", 73)), 74)]))

  lemma {:induction false} WithoutImplClasses(join: Joiner)
    ensures var vs := WithoutImpl.data.variants;
            && Classify(vs[0], join) == Ok(Invalid(CompileError(Site(70), NeedsReport)))
            && Classify(vs[1], join) == Ok(Invalid(CompileError(Site(71), NeedsReport)))
            && Classify(vs[2], join) == Ok(Invalid(CompileError(Site(72), NeedsReport)))
            && Classify(vs[3], join) == Ok(Delegated(Site(73)))
  {
    var vs := WithoutImpl.data.variants;
    UnreportedVariant(vs[0], join);
    UnreportedVariant(vs[1], join);
    UnreportedVariant(vs[2], join);
    UnreportedVariant(vs[3], join);
  }

  lemma {:induction false} WithoutImplSplit(join: Joiner)
    ensures Split(WithoutImpl.data.variants, join)
            == Ok(Partition([], [WithInner(Site(73), "ErrorD")],
                            [CompileError(Site(70), NeedsReport), CompileError(Site(71), NeedsReport),
                             CompileError(Site(72), NeedsReport)]))
  {
    var vs := WithoutImpl.data.variants;
    var e0, e1, e2 := CompileError(Site(70), NeedsReport), CompileError(Site(71), NeedsReport), CompileError(Site(72), NeedsReport);
    WithoutImplClasses(join);
    var cs := [Invalid(e0), Invalid(e1), Invalid(e2), Delegated(Site(73))];
    forall i | 0 <= i < |vs| ensures Classify(vs[i], join) == Ok(cs[i]) {
      assert i == 0 || i == 1 || i == 2 || i == 3;
    }
    SplitClassified(vs, join, cs);
    PlacedFour(vs, cs);
    assert Placed(vs, cs) == Partition([], [WithInner(Site(73), "ErrorD")], [e0, e1, e2]);
  }

  lemma {:induction false} WithoutImplDistinct()
    ensures DistinctIdents(WithoutImpl.data.variants)
  {
    var vs := WithoutImpl.data.variants;
    assert vs[0].ident == "ErrorA" && vs[1].ident == "ErrorB";
    assert vs[2].ident == "ErrorC" && vs[3].ident == "ErrorD";
  }

  /** Test `does_not_implement_ErrorLevel`: the derive itself delegates `ErrorD`
      (it never checks that `ErrorWithoutImpl` has an `error_level`), so the only
      failures it reports are the three unregistered `#[level(..)]` variants; the
      delegated call has nothing to call. */
  lemma {:induction false} DoesNotImplementTest(join: Joiner)
    ensures Classify(WithoutImpl.data.variants[3], join) == Ok(Delegated(Site(73)))
    ensures ImplErrorLevelMacroAsWritten(WithoutImpl, join).Ok?
    ensures |ImplErrorLevelMacroAsWritten(WithoutImpl, join).value.errs| == 3
    ensures ErrorLevel(map["CustomError" := ImplErrorLevelMacroAsWritten(WithoutImpl, join).value],
                       Value("CustomError", "ErrorD", [Value("ErrorWithoutImpl", "Error1", [])])) == Stuck
  {
    WithoutImplClasses(join);
    WithoutImplSplit(join);
    WithoutImplDistinct();
    var impls := map["CustomError" := ImplErrorLevelMacroAsWritten(WithoutImpl, join).value];
    DelegatedDispatch(WithoutImpl, join, UnitPattern, SinglePayload, impls, 3, [Value("ErrorWithoutImpl", "Error1", [])]);
  }

  /** An unknown keyword aborts the expansion; in particular the lower-case
      spelling of a level is not accepted. */
  lemma {:induction false} UnknownKeywordPanics(keyword: Ident, join: Joiner)
    requires keyword !in Keywords
    ensures ImplErrorLevelMacroAsWritten(DeriveInput("E", Enum([Variant([Report(keyword)], "A", Unit, Site(50))])), join)
            == Panic(UnknownLevel)
  {
    var v := Variant([Report(keyword)], "A", Unit, Site(50));
    Attributes.FirstReportWins(v.attrs, 0);
    assert Attributes.ReportLevel(v.attrs[0].meta.list) == FromIdent(keyword) == Panic(UnknownLevel);
    assert Classify(v, join) == Panic(UnknownLevel);
    assert [v][..0] == [];
    assert Split([v], join) == Panic(UnknownLevel);
  }

  /** An enum without variants expands to an impl without arms and without
      errors, which does not compile: `match self {}` on `&Name` is not exhaustive. */
  lemma {:induction false} EmptyEnumDoesNotBuild(name: Ident, join: Joiner)
    ensures ImplErrorLevelMacroAsWritten(DeriveInput(name, Enum([])), join) == Ok(Impl(name, [], []))
    ensures !Builds([], ImplErrorLevelMacroAsWritten(DeriveInput(name, Enum([])), join).value)
  {
    assert Split([], join) == Ok(Partition([], [], []));
  }

  /** A non-enum item is refused with a panic. */
  lemma {:induction false} StructPanics(name: Ident, fields: Fields, join: Joiner)
    ensures ImplErrorLevelMacroAsWritten(DeriveInput(name, Struct(fields)), join) == Panic(NotAnEnum)
  {
  }
}
