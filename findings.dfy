/** Two inputs the classification accepts but on which the `match` emitted as
    written does not compile, and the same inputs under the corrected patterns. */
module Findings {
  import opened Wrappers
  import opened Syntax
  import opened Levels
  import opened Variants
  import opened Expand
  import opened Dispatch
  import opened Examples
  import Log

  /** `enum CustomError { #[report(Info)] ErrorD(OuterError) }`: a level pinned on a
      variant that carries a payload. */
  const ReportedPayload := DeriveInput("CustomError", Enum([
    Variant([Report("Info")], "ErrorD", Unnamed([Field(TypePath(IdentPath("OuterError", 3)))]), Site(60))]))

  /** `enum CustomError { ErrorD(OuterError, u32) }`: delegation to the first of two fields. */
  const TwoFieldPayload := DeriveInput("CustomError", Enum([
    Variant([], "ErrorD", Unnamed([Field(TypePath(IdentPath("OuterError", 3))), Field(TypePath(IdentPath("u32", 4)))]), Site(61))]))

  /** As written, the marked variant gets the arm `CustomError::ErrorD => ..`,
      a unit pattern for a tuple variant, so the impl does not compile although
      no `compile_error!` was emitted. */
  lemma {:induction false} ReportedPayloadAsWritten(join: Joiner)
    ensures ImplErrorLevelMacroAsWritten(ReportedPayload, join).Ok?
    ensures ImplErrorLevelMacroAsWritten(ReportedPayload, join).value.errs == []
    ensures !Builds(ReportedPayload.data.variants, ImplErrorLevelMacroAsWritten(ReportedPayload, join).value)
  {
    var vs := ReportedPayload.data.variants;
    ReportedVariant(Info, "ErrorD", vs[0].fields, 60, join);
    assert vs[..0] == [];
    SplitSnoc(vs, join, Partition([], [], []), Explicit(Info));
    BuildsIff(ReportedPayload, join, UnitPattern, SinglePayload);
    assert !Accepts(vs[0], join, UnitPattern, SinglePayload);
  }

  /** With the arm `CustomError::ErrorD { .. } => ..` the impl compiles and reports
      `Info` whatever the payload holds. */
  lemma {:induction false} ReportedPayloadCorrected(join: Joiner, impls: map<Ident, Impl>, payload: Value)
    requires ImplErrorLevelMacro(ReportedPayload, join).Ok?
    requires "CustomError" in impls && impls["CustomError"] == ImplErrorLevelMacro(ReportedPayload, join).value
    ensures Builds(ReportedPayload.data.variants, impls["CustomError"])
    ensures ErrorLevel(impls, Value("CustomError", "ErrorD", [payload])) == Reports(Some(Log.Info))
  {
    var vs := ReportedPayload.data.variants;
    ReportedVariant(Info, "ErrorD", vs[0].fields, 60, join);
    BuildsIff(ReportedPayload, join, AnyFields, FirstPayload);
    assert Accepts(vs[0], join, AnyFields, FirstPayload);
    MarkedDispatch(ReportedPayload, join, AnyFields, FirstPayload, impls, 0, [payload]);
  }

  /** As written, the delegating variant gets the arm `CustomError::ErrorD(inn_err) => ..`,
      one field for a variant of two, so the impl does not compile. */
  lemma {:induction false} TwoFieldPayloadAsWritten(join: Joiner)
    ensures ImplErrorLevelMacroAsWritten(TwoFieldPayload, join).Ok?
    ensures ImplErrorLevelMacroAsWritten(TwoFieldPayload, join).value.errs == []
    ensures !Builds(TwoFieldPayload.data.variants, ImplErrorLevelMacroAsWritten(TwoFieldPayload, join).value)
  {
    var vs := TwoFieldPayload.data.variants;
    UnreportedVariant(vs[0], join);
    var span := Payload.HandlePath(IdentPath("OuterError", 3), join);
    assert vs[..0] == [];
    SplitSnoc(vs, join, Partition([], [], []), Delegated(span));
    BuildsIff(TwoFieldPayload, join, UnitPattern, SinglePayload);
    assert !Accepts(vs[0], join, UnitPattern, SinglePayload);
  }

  /** With the arm `CustomError::ErrorD(inn_err, ..) => inn_err.error_level()` the
      impl compiles and answers with the first field's own level. */
  lemma {:induction false} TwoFieldPayloadCorrected(join: Joiner, impls: map<Ident, Impl>, first: Value, second: Value)
    requires ImplErrorLevelMacro(TwoFieldPayload, join).Ok?
    requires "CustomError" in impls && impls["CustomError"] == ImplErrorLevelMacro(TwoFieldPayload, join).value
    ensures Builds(TwoFieldPayload.data.variants, impls["CustomError"])
    ensures ErrorLevel(impls, Value("CustomError", "ErrorD", [first, second])) == ErrorLevel(impls, first)
  {
    var vs := TwoFieldPayload.data.variants;
    UnreportedVariant(vs[0], join);
    BuildsIff(TwoFieldPayload, join, AnyFields, FirstPayload);
    assert Accepts(vs[0], join, AnyFields, FirstPayload);
    DelegatedDispatch(TwoFieldPayload, join, AnyFields, FirstPayload, impls, 0, [first, second]);
  }
}
