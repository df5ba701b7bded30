/** What `impl_error_level_macro` generates: the `compile_error!`s of the invalid
    variants, then one `match` arm per marked and per delegated variant. */
module Expand {
  import opened Wrappers
  import opened Syntax
  import opened Levels
  import opened Variants

  /** The pattern an arm uses for its variant `V` of enum `Name`:
      `Name::V` (UnitPattern), `Name::V(inn_err)` (SinglePayload),
      `Name::V { .. }` (AnyFields) or `Name::V(inn_err, ..)` (FirstPayload). */
  datatype Pattern = UnitPattern | SinglePayload | AnyFields | FirstPayload

  /** The right-hand side of an arm: a fixed level, or `inn_err.error_level()`
      spanned at the payload's type. */
  datatype Body = Fixed(level: Level) | Forward(span: Span)

  datatype Arm = Arm(variant: Ident, pattern: Pattern, body: Body)

  /** `impl ErrorLevel for Name { fn error_level(&self) { errs; match self { arms } } }` */
  datatype Impl = Impl(name: Ident, errs: seq<Diagnostic>, arms: seq<Arm>)

  const NotAnEnum := "can only implement error level on enums"

  /** `unwrap_enum`: the variants of an enum; any other item panics. */
  function UnwrapEnum(data: Data): (r: Outcome<seq<Variant>>)
    ensures r.Ok? <==> data.Enum?
    ensures r.Ok? ==> r.value == data.variants
    ensures r.Panic? ==> r.message == NotAnEnum
  {
    if data.Enum? then Ok(data.variants) else Panic(NotAnEnum)
  }

  /** `#(#name::#ident_with_attr => #level_with_attr,)*`: one arm per marked
      variant, in order, answering with that variant's level. */
  function FixedArms(marked: seq<Marked>, pattern: Pattern): (arms: seq<Arm>)
    ensures |arms| == |marked|
    ensures forall k | 0 <= k < |arms| ::
              arms[k].variant == marked[k].variantId && arms[k].pattern == pattern
              && arms[k].body.Fixed? && arms[k].body.level == marked[k].level
  {
    seq(|marked|, k requires 0 <= k < |marked| => Arm(marked[k].variantId, pattern, Fixed(marked[k].level)))
  }

  /** `#(#spanned)*`, one `#name::#ident(inn_err) => inn_err.error_level(),` per entry,
      in order, spanned at the entry's payload type. */
  function ForwardArms(withInner: seq<WithInner>, pattern: Pattern): (arms: seq<Arm>)
    ensures |arms| == |withInner|
    ensures forall k | 0 <= k < |arms| ::
              arms[k].variant == withInner[k].variantId && arms[k].pattern == pattern
              && arms[k].body.Forward? && arms[k].body.span == withInner[k].innerSpan
  {
    seq(|withInner|, k requires 0 <= k < |withInner| =>
      Arm(withInner[k].variantId, pattern, Forward(withInner[k].innerSpan)))
  }

  /** The expansion, with the arm patterns as parameters. */
  function Generate(ast: DeriveInput, join: Joiner, fixed: Pattern, forward: Pattern): (r: Outcome<Impl>)
    ensures r.Ok? <==> ast.data.Enum? && Split(ast.data.variants, join).Ok?
    ensures r.Ok? ==> r.value.name == ast.ident
                      && r.value.errs == Split(ast.data.variants, join).value.errs
                      && |r.value.arms| == |Split(ast.data.variants, join).value.marked|
                                           + |Split(ast.data.variants, join).value.withInner|
    ensures r.Ok? ==> forall k | 0 <= k < |r.value.arms| ::
                        r.value.arms[k].pattern == (if r.value.arms[k].body.Fixed? then fixed else forward)
  {
    match UnwrapEnum(ast.data)
    case Panic(msg) => Panic(msg)
    case Ok(vs) =>
      match Split(vs, join)
      case Panic(msg) => Panic(msg)
      case Ok(p) => Ok(Impl(ast.ident, p.errs, FixedArms(p.marked, fixed) + ForwardArms(p.withInner, forward)))
  }

  /** `impl_error_level_macro` as written: marked variants are matched as
      `Name::V` and delegated ones as `Name::V(inn_err)`. */
  function ImplErrorLevelMacroAsWritten(ast: DeriveInput, join: Joiner): (r: Outcome<Impl>)
    ensures r.Ok? <==> ast.data.Enum? && Split(ast.data.variants, join).Ok?
    ensures r.Ok? ==> r.value.name == ast.ident && r.value.errs == Split(ast.data.variants, join).value.errs
    ensures r.Ok? ==> forall k | 0 <= k < |r.value.arms| ::
                        r.value.arms[k].pattern == (if r.value.arms[k].body.Fixed? then UnitPattern else SinglePayload)
  {
    Generate(ast, join, UnitPattern, SinglePayload)
  }

  /** `impl_error_level_macro` with the patterns its classification calls for:
      a marked variant is matched whatever its fields (`Name::V { .. }`) and a
      delegated one binds its first field (`Name::V(inn_err, ..)`). */
  function ImplErrorLevelMacro(ast: DeriveInput, join: Joiner): (r: Outcome<Impl>)
    ensures r.Ok? <==> ast.data.Enum? && Split(ast.data.variants, join).Ok?
    ensures r.Ok? ==> r.value.name == ast.ident && r.value.errs == Split(ast.data.variants, join).value.errs
    ensures r.Ok? ==> forall k | 0 <= k < |r.value.arms| ::
                        r.value.arms[k].pattern == (if r.value.arms[k].body.Fixed? then AnyFields else FirstPayload)
  {
    Generate(ast, join, AnyFields, FirstPayload)
  }
}
