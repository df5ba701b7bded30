/** The meaning of the generated `error_level`: whether the emitted impl compiles
    against the enum it was derived for, and what it returns for a value,
    following delegation into nested payloads. */
module Dispatch {
  import opened Wrappers
  import opened Syntax
  import opened Levels
  import opened Attributes
  import opened Payload
  import opened Variants
  import opened Expand
  import Log

  /** Whether Rust accepts `pattern` for a variant declared with `fields`: a path
      pattern only for a unit variant, `V(x)` only for exactly one unnamed field,
      `V(x, ..)` for at least one, `V { .. }` for any. */
  predicate Fits(pattern: Pattern, fields: Fields): (b: bool)
    ensures pattern == AnyFields ==> b
    ensures b && pattern == UnitPattern ==> fields.Unit?
    ensures b && (pattern == SinglePayload || pattern == FirstPayload) ==> fields.Unnamed? && |fields.unnamed| > 0
  {
    match pattern
    case UnitPattern => fields.Unit?
    case SinglePayload => fields.Unnamed? && |fields.unnamed| == 1
    case AnyFields => true
    case FirstPayload => fields.Unnamed? && |fields.unnamed| >= 1
  }

  /** The declared variant named `id`. */
  function Lookup(vs: seq<Variant>, id: Ident): (r: Option<Variant>)
    ensures r.Some? ==> r.value.ident == id && r.value in vs
    ensures r.None? ==> forall i | 0 <= i < |vs| :: vs[i].ident != id
  {
    if vs == [] then None
    else if vs[0].ident == id then Some(vs[0])
    else Lookup(vs[1..], id)
  }

  /** The arm a `match` runs for variant `id`: the first one naming it. */
  function SelectArm(arms: seq<Arm>, id: Ident): (r: Option<Arm>)
    ensures r.Some? ==> r.value.variant == id && r.value in arms
    ensures r.None? ==> forall k | 0 <= k < |arms| :: arms[k].variant != id
  {
    if arms == [] then None
    else if arms[0].variant == id then Some(arms[0])
    else SelectArm(arms[1..], id)
  }

  predicate DistinctIdents(vs: seq<Variant>)
  {
    forall i, j | 0 <= i < j < |vs| :: vs[i].ident != vs[j].ident
  }

  /** The generated impl compiles against the enum's variants: no
      `compile_error!` was emitted, every arm's pattern fits its variant, and the
      `match` is exhaustive. A `match` on a reference to an enum without variants
      is not exhaustive, so an empty enum does not build. */
  predicate Builds(vs: seq<Variant>, impl: Impl): (b: bool)
    ensures b ==> |impl.arms| > 0
    ensures b ==> forall i | 0 <= i < |vs| ::
                    && SelectArm(impl.arms, vs[i].ident).Some?
                    && Lookup(vs, vs[i].ident).Some?
                    && Fits(SelectArm(impl.arms, vs[i].ident).value.pattern, Lookup(vs, vs[i].ident).value.fields)
  {
    && |vs| > 0
    && impl.errs == []
    && (forall k | 0 <= k < |impl.arms| ::
          Lookup(vs, impl.arms[k].variant).Some?
          && Fits(impl.arms[k].pattern, Lookup(vs, impl.arms[k].variant).value.fields))
    && (forall i | 0 <= i < |vs| :: SelectArm(impl.arms, vs[i].ident).Some?)
  }

  /** A value of some enum: its type, its variant and its fields in order. */
  datatype Value = Value(ty: Ident, variant: Ident, fields: seq<Value>)

  /** What `error_level()` returns, or `Stuck` where a program that compiles
      could not be (no impl for the type, no arm for the variant, no payload). */
  datatype Verdict = Reports(level: Option<Log.Level>) | Stuck

  /** Some arm of some impl answers with a fixed level that converts to `level`. */
  ghost predicate LevelWritten(impls: map<Ident, Impl>, level: Option<Log.Level>)
  {
    exists t, k | t in impls && 0 <= k < |impls[t].arms| ::
      impls[t].arms[k].body.Fixed? && ToTokens(impls[t].arms[k].body.level) == level
  }

  /** `value.error_level()` under the impls of the program, keyed by type name. */
  function ErrorLevel(impls: map<Ident, Impl>, v: Value): (r: Verdict)
    ensures r.Reports? ==> v.ty in impls && SelectArm(impls[v.ty].arms, v.variant).Some?
    ensures r.Reports? ==> LevelWritten(impls, r.level)
    decreases v
  {
    if v.ty !in impls then Stuck
    else
      match SelectArm(impls[v.ty].arms, v.variant)
      case None => Stuck
      case Some(arm) =>
        match arm.body
        case Fixed(level) => Reports(ToTokens(level))
        case Forward(_) => if |v.fields| == 0 then Stuck else ErrorLevel(impls, v.fields[0])
  }

  lemma {:induction false} SelectArmAt(arms: seq<Arm>, k: nat)
    requires k < |arms|
    requires forall j | 0 <= j < k :: arms[j].variant != arms[k].variant
    ensures SelectArm(arms, arms[k].variant) == Some(arms[k])
    decreases k
  {
    if k > 0 {
      SelectArmAt(arms[1..], k - 1);
    }
  }

  lemma {:induction false} LookupAt(vs: seq<Variant>, i: nat)
    requires i < |vs| && DistinctIdents(vs)
    ensures Lookup(vs, vs[i].ident) == Some(vs[i])
    decreases i
  {
    if i > 0 {
      LookupAt(vs[1..], i - 1);
    }
  }

  /** `arms` lists entry `k` of `marked`, then entry `k` of `w_inner`, with the given patterns. */
  ghost predicate ArmsFor(p: Partition, arms: seq<Arm>, fixed: Pattern, forward: Pattern)
  {
    && |arms| == |p.marked| + |p.withInner|
    && (forall k | 0 <= k < |p.marked| :: arms[k] == Arm(p.marked[k].variantId, fixed, Fixed(p.marked[k].level)))
    && (forall k | 0 <= k < |p.withInner| ::
          arms[|p.marked| + k] == Arm(p.withInner[k].variantId, forward, Forward(p.withInner[k].innerSpan)))
  }

  lemma {:induction false} ArmsOf(ast: DeriveInput, join: Joiner, fixed: Pattern, forward: Pattern)
    requires Generate(ast, join, fixed, forward).Ok?
    ensures ArmsFor(Split(ast.data.variants, join).value, Generate(ast, join, fixed, forward).value.arms, fixed, forward)
  {
    ArmsConcat(Split(ast.data.variants, join).value, fixed, forward);
  }

  /** The fixed arms followed by the forwarding arms list the partition in order. */
  lemma {:induction false} ArmsConcat(p: Partition, fixed: Pattern, forward: Pattern)
    ensures ArmsFor(p, FixedArms(p.marked, fixed) + ForwardArms(p.withInner, forward), fixed, forward)
  {
    var fa, wa := FixedArms(p.marked, fixed), ForwardArms(p.withInner, forward);
    forall k | 0 <= k < |p.withInner|
      ensures (fa + wa)[|p.marked| + k] == Arm(p.withInner[k].variantId, forward, Forward(p.withInner[k].innerSpan))
    {
      assert (fa + wa)[|p.marked| + k] == wa[k];
    }
  }

  lemma {:induction false} SelectedMarked(vs: seq<Variant>, join: Joiner, p: Partition, im: seq<nat>, iw: seq<nat>, ie: seq<nat>,
                       arms: seq<Arm>, fixed: Pattern, forward: Pattern, i: nat, level: Level)
    requires Tracks(vs, join, p, im, iw, ie) && ArmsFor(p, arms, fixed, forward) && DistinctIdents(vs)
    requires i < |vs| && Classify(vs[i], join) == Ok(Explicit(level))
    ensures SelectArm(arms, vs[i].ident) == Some(Arm(vs[i].ident, fixed, Fixed(level)))
  {
    assert i in im || i in iw || i in ie;
    assert i in im;
    var k :| 0 <= k < |im| && im[k] == i;
    forall j | 0 <= j < k
      ensures arms[j].variant != arms[k].variant
    {
      assert im[j] < im[k];
    }
    SelectArmAt(arms, k);
  }

  /** Where arm `j` comes from: the variant declared at index `d`, marked for the
      first `|p.marked|` arms and delegating for the rest. */
  lemma {:induction false} ArmOrigin(vs: seq<Variant>, join: Joiner, p: Partition, im: seq<nat>, iw: seq<nat>, ie: seq<nat>,
                                     arms: seq<Arm>, fixed: Pattern, forward: Pattern, j: nat) returns (d: nat)
    requires Tracks(vs, join, p, im, iw, ie) && ArmsFor(p, arms, fixed, forward)
    requires j < |arms|
    ensures d < |vs| && arms[j].variant == vs[d].ident && Classify(vs[d], join).Ok?
    ensures j < |p.marked| ==> d == im[j] && Classify(vs[d], join).value.Explicit?
    ensures j >= |p.marked| ==> d == iw[j - |p.marked|] && Classify(vs[d], join).value.Delegated?
  {
    var m := |p.marked|;
    if j < m {
      d := im[j];
    } else {
      d := iw[j - m];
    }
  }

  lemma {:induction false} DistinctAt(vs: seq<Variant>, a: nat, b: nat)
    requires DistinctIdents(vs) && a < |vs| && b < |vs| && a != b
    ensures vs[a].ident != vs[b].ident
  {
    if a > b {
      assert vs[b].ident != vs[a].ident;
    }
  }

  lemma {:induction false} SelectedForward(vs: seq<Variant>, join: Joiner, p: Partition, im: seq<nat>, iw: seq<nat>, ie: seq<nat>,
                        arms: seq<Arm>, fixed: Pattern, forward: Pattern, i: nat, span: Span)
    requires Tracks(vs, join, p, im, iw, ie) && ArmsFor(p, arms, fixed, forward) && DistinctIdents(vs)
    requires i < |vs| && Classify(vs[i], join) == Ok(Delegated(span))
    ensures SelectArm(arms, vs[i].ident) == Some(Arm(vs[i].ident, forward, Forward(span)))
  {
    var k := DelegatedIndex(vs, join, p, im, iw, ie, i);
    var m := |p.marked|;
    NoEarlierArm(vs, join, p, im, iw, ie, arms, fixed, forward, k);
    SelectArmAt(arms, m + k);
  }

  /** A delegating variant has an entry in `w_inner`. */
  lemma {:induction false} DelegatedIndex(vs: seq<Variant>, join: Joiner, p: Partition, im: seq<nat>, iw: seq<nat>, ie: seq<nat>,
                                          i: nat) returns (k: nat)
    requires Tracks(vs, join, p, im, iw, ie)
    requires i < |vs| && Classify(vs[i], join).Ok? && Classify(vs[i], join).value.Delegated?
    ensures k < |iw| && iw[k] == i
  {
    assert i in im || i in iw || i in ie;
    assert i in iw;
    k :| 0 <= k < |iw| && iw[k] == i;
  }

  /** No arm before the forwarding arm of `w_inner` entry `k` names the same variant. */
  lemma {:induction false} NoEarlierArm(vs: seq<Variant>, join: Joiner, p: Partition, im: seq<nat>, iw: seq<nat>, ie: seq<nat>,
                                        arms: seq<Arm>, fixed: Pattern, forward: Pattern, k: nat)
    requires Tracks(vs, join, p, im, iw, ie) && ArmsFor(p, arms, fixed, forward) && DistinctIdents(vs)
    requires k < |iw|
    ensures |p.marked| + k < |arms|
    ensures arms[|p.marked| + k] == Arm(vs[iw[k]].ident, forward, Forward(p.withInner[k].innerSpan))
    ensures Classify(vs[iw[k]], join) == Ok(Delegated(p.withInner[k].innerSpan))
    ensures forall j | 0 <= j < |p.marked| + k :: arms[j].variant != arms[|p.marked| + k].variant
  {
    var m := |p.marked|;
    var i := iw[k];
    forall j | 0 <= j < m + k
      ensures arms[j].variant != arms[m + k].variant
    {
      var d := ArmOrigin(vs, join, p, im, iw, ie, arms, fixed, forward, j);
      if j >= m {
        assert iw[j - m] < iw[k];
      }
      DistinctAt(vs, d, i);
    }
  }

  lemma {:induction false} SelectedNone(vs: seq<Variant>, join: Joiner, p: Partition, im: seq<nat>, iw: seq<nat>, ie: seq<nat>,
                     arms: seq<Arm>, fixed: Pattern, forward: Pattern, i: nat)
    requires Tracks(vs, join, p, im, iw, ie) && ArmsFor(p, arms, fixed, forward) && DistinctIdents(vs)
    requires i < |vs| && Classify(vs[i], join).Ok? && Classify(vs[i], join).value.Invalid?
    ensures SelectArm(arms, vs[i].ident) == None
  {
    forall j | 0 <= j < |arms|
      ensures arms[j].variant != vs[i].ident
    {
      var d := ArmOrigin(vs, join, p, im, iw, ie, arms, fixed, forward, j);
      DistinctAt(vs, d, i);
    }
  }

  /** The arm a generated `match` selects for the variant declared at index `i`:
      the fixed level of a marked variant, the forwarding call of a delegated one,
      and none for an invalid one. */
  lemma {:induction false} SelectedArm(ast: DeriveInput, join: Joiner, fixed: Pattern, forward: Pattern, i: nat)
    requires ast.data.Enum? && DistinctIdents(ast.data.variants)
    requires Generate(ast, join, fixed, forward).Ok?
    requires i < |ast.data.variants|
    ensures Classify(ast.data.variants[i], join).Ok?
    ensures var id := ast.data.variants[i].ident;
            var arms := Generate(ast, join, fixed, forward).value.arms;
            match Classify(ast.data.variants[i], join).value
            case Explicit(level) => SelectArm(arms, id) == Some(Arm(id, fixed, Fixed(level)))
            case Delegated(span) => SelectArm(arms, id) == Some(Arm(id, forward, Forward(span)))
            case Invalid(_) => SelectArm(arms, id) == None
  {
    var vs := ast.data.variants;
    SplitOkIff(vs, join);
    var p := Split(vs, join).value;
    var im, iw, ie := SplitOrder(vs, join);
    ArmsOf(ast, join, fixed, forward);
    var arms := Generate(ast, join, fixed, forward).value.arms;
    match Classify(vs[i], join).value
    case Explicit(level) => SelectedMarked(vs, join, p, im, iw, ie, arms, fixed, forward, i, level);
    case Delegated(span) => SelectedForward(vs, join, p, im, iw, ie, arms, fixed, forward, i, span);
    case Invalid(_) => SelectedNone(vs, join, p, im, iw, ie, arms, fixed, forward, i);
  }

  /** Generated dispatch, explicit levels: on a value of a variant whose `report`
      attribute names `level`, `error_level()` returns the `Option<log::Level>` of
      `level`, whatever the value's fields are. This holds for the patterns as
      written and for the corrected ones alike. */
  lemma {:induction false} MarkedDispatch(ast: DeriveInput, join: Joiner, fixed: Pattern, forward: Pattern,
                                          impls: map<Ident, Impl>, i: nat, fields: seq<Value>)
    requires ast.data.Enum? && DistinctIdents(ast.data.variants)
    requires Generate(ast, join, fixed, forward).Ok?
    requires ast.ident in impls && impls[ast.ident] == Generate(ast, join, fixed, forward).value
    requires i < |ast.data.variants| && Classify(ast.data.variants[i], join).Ok?
    requires Classify(ast.data.variants[i], join).value.Explicit?
    ensures ErrorLevel(impls, Value(ast.ident, ast.data.variants[i].ident, fields))
            == Reports(ToTokens(Classify(ast.data.variants[i], join).value.level))
  {
    SelectedArm(ast, join, fixed, forward, i);
  }

  /** Generated dispatch, delegation: on a value of a delegating variant,
      `error_level()` returns the payload's own `error_level()` unchanged, so a
      level is found through any depth of nesting, under either choice of
      patterns. */
  lemma {:induction false} DelegatedDispatch(ast: DeriveInput, join: Joiner, fixed: Pattern, forward: Pattern,
                                          impls: map<Ident, Impl>, i: nat, fields: seq<Value>)
    requires ast.data.Enum? && DistinctIdents(ast.data.variants)
    requires Generate(ast, join, fixed, forward).Ok?
    requires ast.ident in impls && impls[ast.ident] == Generate(ast, join, fixed, forward).value
    requires i < |ast.data.variants| && Classify(ast.data.variants[i], join).Ok?
    requires Classify(ast.data.variants[i], join).value.Delegated?
    requires |fields| > 0
    ensures ErrorLevel(impls, Value(ast.ident, ast.data.variants[i].ident, fields))
            == ErrorLevel(impls, fields[0])
  {
    SelectedArm(ast, join, fixed, forward, i);
  }

  /** A variant the generated code accepts: it is marked and its declaration fits
      the pattern of marked arms, or it delegates and fits the pattern of
      forwarding arms. */
  predicate Accepts(v: Variant, join: Joiner, fixed: Pattern, forward: Pattern)
  {
    match Classify(v, join)
    case Ok(Explicit(_)) => Fits(fixed, v.fields)
    case Ok(Delegated(_)) => Fits(forward, v.fields)
    case _ => false
  }

  lemma {:induction false} BuildsOnlyIfAccepted(ast: DeriveInput, join: Joiner, fixed: Pattern, forward: Pattern, i: nat)
    requires ast.data.Enum? && DistinctIdents(ast.data.variants)
    requires Generate(ast, join, fixed, forward).Ok?
    requires Builds(ast.data.variants, Generate(ast, join, fixed, forward).value)
    requires i < |ast.data.variants|
    ensures Accepts(ast.data.variants[i], join, fixed, forward)
  {
    var vs := ast.data.variants;
    var arms := Generate(ast, join, fixed, forward).value.arms;
    SelectedArm(ast, join, fixed, forward, i);
    LookupAt(vs, i);
    var arm := SelectArm(arms, vs[i].ident).value;
    var k :| 0 <= k < |arms| && arms[k] == arm;
    assert Lookup(vs, arms[k].variant) == Some(vs[i]);
  }

  lemma {:induction false} ArmsFitIfAccepted(ast: DeriveInput, join: Joiner, fixed: Pattern, forward: Pattern, k: nat)
    requires ast.data.Enum? && DistinctIdents(ast.data.variants)
    requires Generate(ast, join, fixed, forward).Ok?
    requires forall i | 0 <= i < |ast.data.variants| :: Accepts(ast.data.variants[i], join, fixed, forward)
    requires k < |Generate(ast, join, fixed, forward).value.arms|
    ensures var arm := Generate(ast, join, fixed, forward).value.arms[k];
            Lookup(ast.data.variants, arm.variant).Some?
            && Fits(arm.pattern, Lookup(ast.data.variants, arm.variant).value.fields)
  {
    var vs := ast.data.variants;
    var p := Split(vs, join).value;
    var im, iw, ie := SplitOrder(vs, join);
    ArmsOf(ast, join, fixed, forward);
    var m := |p.marked|;
    var d := if k < m then im[k] else iw[k - m];
    LookupAt(vs, d);
    assert Accepts(vs[d], join, fixed, forward);
  }

  lemma {:induction false} NoErrsIfAccepted(vs: seq<Variant>, join: Joiner, fixed: Pattern, forward: Pattern)
    requires Split(vs, join).Ok?
    requires forall i | 0 <= i < |vs| :: Accepts(vs[i], join, fixed, forward)
    ensures Split(vs, join).value.errs == []
  {
    ErrsEmptyIff(vs, join);
  }

  /** The generated impl compiles exactly when the enum has a variant and every
      variant is accepted: no variant is invalid, and each marked or delegated
      variant's declaration fits the pattern its arm uses. */
  lemma {:induction false} BuildsIff(ast: DeriveInput, join: Joiner, fixed: Pattern, forward: Pattern)
    requires ast.data.Enum? && DistinctIdents(ast.data.variants)
    requires Generate(ast, join, fixed, forward).Ok?
    ensures Builds(ast.data.variants, Generate(ast, join, fixed, forward).value)
            <==> && |ast.data.variants| > 0
                 && forall i | 0 <= i < |ast.data.variants| :: Accepts(ast.data.variants[i], join, fixed, forward)
  {
    var vs := ast.data.variants;
    var impl := Generate(ast, join, fixed, forward).value;
    if Builds(vs, impl) {
      forall i | 0 <= i < |vs| ensures Accepts(vs[i], join, fixed, forward) {
        BuildsOnlyIfAccepted(ast, join, fixed, forward, i);
      }
    }
    if |vs| > 0 && forall i | 0 <= i < |vs| :: Accepts(vs[i], join, fixed, forward) {
      NoErrsIfAccepted(vs, join, fixed, forward);
      forall k | 0 <= k < |impl.arms|
        ensures Lookup(vs, impl.arms[k].variant).Some?
                && Fits(impl.arms[k].pattern, Lookup(vs, impl.arms[k].variant).value.fields)
      {
        ArmsFitIfAccepted(ast, join, fixed, forward, k);
      }
      forall i | 0 <= i < |vs| ensures SelectArm(impl.arms, vs[i].ident).Some? {
        SelectedArm(ast, join, fixed, forward, i);
        assert Accepts(vs[i], join, fixed, forward);
      }
    }
  }

  /** With the patterns its classification calls for, the generated impl compiles
      exactly when the enum has a variant and no variant is invalid, i.e. when no
      `compile_error!` is emitted. */
  lemma {:induction false} BuildsIffNoErrors(ast: DeriveInput, join: Joiner)
    requires ast.data.Enum? && DistinctIdents(ast.data.variants)
    requires ImplErrorLevelMacro(ast, join).Ok?
    ensures Builds(ast.data.variants, ImplErrorLevelMacro(ast, join).value)
            <==> |ast.data.variants| > 0 && ImplErrorLevelMacro(ast, join).value.errs == []
  {
    var vs := ast.data.variants;
    BuildsIff(ast, join, AnyFields, FirstPayload);
    SplitOkIff(vs, join);
    ErrsEmptyIff(vs, join);
    forall i | 0 <= i < |vs|
      ensures Accepts(vs[i], join, AnyFields, FirstPayload) <==> !IsInvalid(vs[i], join)
    {
      AcceptedUnlessInvalid(vs[i], join);
    }
  }

  /** Under the corrected patterns, a variant that classifies is accepted exactly
      when it is not invalid. */
  lemma {:induction false} AcceptedUnlessInvalid(v: Variant, join: Joiner)
    requires Classify(v, join).Ok?
    ensures Accepts(v, join, AnyFields, FirstPayload) <==> !IsInvalid(v, join)
  {
  }

  /** The impl as written compiles exactly when the corrected one does and, in
      addition, every marked variant is a unit variant and every delegating variant
      has exactly one unnamed field. */
  lemma {:induction false} AsWrittenBuildsIff(ast: DeriveInput, join: Joiner)
    requires ast.data.Enum? && DistinctIdents(ast.data.variants)
    requires ImplErrorLevelMacro(ast, join).Ok?
    ensures ImplErrorLevelMacroAsWritten(ast, join).Ok?
    ensures Builds(ast.data.variants, ImplErrorLevelMacroAsWritten(ast, join).value)
            <==> && Builds(ast.data.variants, ImplErrorLevelMacro(ast, join).value)
                 && forall i | 0 <= i < |ast.data.variants| ::
                      var v := ast.data.variants[i];
                      && (Classify(v, join).Ok? && Classify(v, join).value.Explicit? ==> v.fields.Unit?)
                      && (Classify(v, join).Ok? && Classify(v, join).value.Delegated? ==>
                            v.fields.Unnamed? && |v.fields.unnamed| == 1)
  {
    var vs := ast.data.variants;
    BuildsIff(ast, join, UnitPattern, SinglePayload);
    BuildsIff(ast, join, AnyFields, FirstPayload);
    BuildsIffNoErrors(ast, join);
    ErrsEmptyIff(vs, join);
    SplitOkIff(vs, join);
  }
}
