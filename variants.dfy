/** The classification pass over an enum's variants (`extract_variants`):
    every variant lands in exactly one of `marked`, `w_inner` and `errs`. */
module Variants {
  import opened Wrappers
  import opened Syntax
  import opened Levels
  import opened Attributes
  import opened Payload

  /** A `compile_error!` emitted at a span. */
  datatype Diagnostic = CompileError(span: Span, message: string)

  const NeedsReport := "Needs 'report' attribute"
  const NoImplementation :=
    "Needs 'report' attribute, variant content can not have an 'ErrorLevel' trait implementation"

  /** A variant with an explicit level (`Marked`). */
  datatype Marked = Marked(level: Level, variantId: Ident)

  /** A variant whose payload is asked for its level (`WithInnError`). */
  datatype WithInner = WithInner(innerSpan: Span, variantId: Ident)

  /** The three lists `extract_variants` returns. */
  datatype Partition = Partition(marked: seq<Marked>, withInner: seq<WithInner>, errs: seq<Diagnostic>)

  /** The decision the loop body of `extract_variants` takes for one variant. */
  datatype Class = Explicit(level: Level) | Delegated(innerSpan: Span) | Invalid(error: Diagnostic)

  /** One iteration of `extract_variants`: a level from a `report` attribute wins;
      otherwise an eligible first unnamed field delegates; otherwise the variant
      is an error anchored to the payload type or to the variant. */
  function Classify(v: Variant, join: Joiner): (r: Outcome<Class>)
    ensures r.Ok? && r.value.Explicit? ==> LogLevelOf(v.attrs) == Ok(Some(r.value.level))
    ensures r.Ok? && !r.value.Explicit? ==> forall i | 0 <= i < |v.attrs| :: Skippable(v.attrs[i])
    ensures r.Ok? && r.value.Delegated? ==> v.fields.Unnamed? && |v.fields.unnamed| > 0
  {
    match LogLevelOf(v.attrs)
    case Panic(msg) => Panic(msg)
    case Ok(Some(level)) => Ok(Explicit(level))
    case Ok(None) =>
      NoneIffNoReport(v.attrs);
      match InnerOf(v)
      case Panic(msg) => Panic(msg)
      case Ok(None) => Ok(Invalid(CompileError(v.span, NeedsReport)))
      case Ok(Some(ty)) =>
        match IsValidInner(ty, join)
        case Eligible(span) => Ok(Delegated(span))
        case Ineligible(span) => Ok(Invalid(CompileError(span, NoImplementation)))
  }

  /** Appends a classified variant to the list its class selects. */
  function Place(p: Partition, id: Ident, c: Class): Partition
  {
    match c
    case Explicit(level) => p.(marked := p.marked + [Marked(level, id)])
    case Delegated(span) => p.(withInner := p.withInner + [WithInner(span, id)])
    case Invalid(d) => p.(errs := p.errs + [d])
  }

  /** What `extract_variants` returns: the variants classified in declaration
      order, stopping at the first panic. */
  function Split(vs: seq<Variant>, join: Joiner): (r: Outcome<Partition>)
    ensures r.Ok? ==> |r.value.marked| + |r.value.withInner| + |r.value.errs| == |vs|
    decreases |vs|
  {
    if vs == [] then Ok(Partition([], [], []))
    else
      match Split(vs[..|vs| - 1], join)
      case Panic(msg) => Panic(msg)
      case Ok(p) =>
        match Classify(vs[|vs| - 1], join)
        case Panic(msg) => Panic(msg)
        case Ok(c) => Ok(Place(p, vs[|vs| - 1].ident, c))
  }

  /** The last variant is classified after all earlier ones and placed after them. */
  lemma {:induction false} SplitSnoc(vs: seq<Variant>, join: Joiner, p: Partition, c: Class)
    requires vs != [] && Split(vs[..|vs| - 1], join) == Ok(p) && Classify(vs[|vs| - 1], join) == Ok(c)
    ensures Split(vs, join) == Ok(Place(p, vs[|vs| - 1].ident, c))
  {
  }

  /** The loop of `extract_variants` extends its prefix by one variant. */
  lemma {:induction false} SplitStep(vs: seq<Variant>, i: nat, join: Joiner, p: Partition, c: Class)
    requires i < |vs| && Split(vs[..i], join) == Ok(p) && Classify(vs[i], join) == Ok(c)
    ensures Split(vs[..i + 1], join) == Ok(Place(p, vs[i].ident, c))
  {
    var prefix := vs[..i + 1];
    assert prefix[..i] == vs[..i] && prefix[i] == vs[i];
  }

  /** The partition built by placing each variant by the matching entry of `cs`. */
  function Placed(vs: seq<Variant>, cs: seq<Class>): Partition
    requires |cs| == |vs|
    decreases |vs|
  {
    if vs == [] then Partition([], [], [])
    else Place(Placed(vs[..|vs| - 1], cs[..|vs| - 1]), vs[|vs| - 1].ident, cs[|vs| - 1])
  }

  /** `Placed` on four variants, spelled out. */
  lemma {:induction false} PlacedFour(vs: seq<Variant>, cs: seq<Class>)
    requires |vs| == 4 && |cs| == 4
    ensures Placed(vs, cs)
            == Place(Place(Place(Place(Partition([], [], []), vs[0].ident, cs[0]), vs[1].ident, cs[1]),
                           vs[2].ident, cs[2]), vs[3].ident, cs[3])
  {
    var p0 := Partition([], [], []);
    assert vs[..1][..0] == [] && cs[..1][..0] == [];
    var p1 := Place(p0, vs[0].ident, cs[0]);
    assert Placed(vs[..1], cs[..1]) == p1;
    assert vs[..2][..1] == vs[..1] && cs[..2][..1] == cs[..1];
    var p2 := Place(p1, vs[1].ident, cs[1]);
    assert Placed(vs[..2], cs[..2]) == p2;
    assert vs[..3][..2] == vs[..2] && cs[..3][..2] == cs[..2];
    assert Placed(vs[..3], cs[..3]) == Place(p2, vs[2].ident, cs[2]);
  }

  /** When every variant classifies, the pass places each one by its class. */
  lemma {:induction false} SplitClassified(vs: seq<Variant>, join: Joiner, cs: seq<Class>)
    requires |cs| == |vs| && forall i | 0 <= i < |vs| :: Classify(vs[i], join) == Ok(cs[i])
    ensures Split(vs, join) == Ok(Placed(vs, cs))
    decreases |vs|
  {
    if vs != [] {
      var n := |vs| - 1;
      ClassifiedPrefix(vs, join, cs, n);
      SplitClassified(vs[..n], join, cs[..n]);
      SplitSnoc(vs, join, Placed(vs[..n], cs[..n]), cs[n]);
    }
  }

  lemma {:induction false} ClassifiedPrefix(vs: seq<Variant>, join: Joiner, cs: seq<Class>, n: nat)
    requires |cs| == |vs| && forall i | 0 <= i < |vs| :: Classify(vs[i], join) == Ok(cs[i])
    requires n <= |vs|
    ensures forall i | 0 <= i < n :: Classify(vs[..n][i], join) == Ok(cs[..n][i])
  {
  }

  /** The loop of `extract_variants` stops at the first variant that panics. */
  lemma {:induction false} SplitPanicStep(vs: seq<Variant>, i: nat, join: Joiner)
    requires i < |vs| && Split(vs[..i], join).Ok? && Classify(vs[i], join).Panic?
    ensures Split(vs, join) == Panic(Classify(vs[i], join).message)
  {
    var prefix := vs[..i + 1];
    assert prefix[..i] == vs[..i] && prefix[i] == vs[i];
    SplitPanicPersists(vs, i + 1, join);
  }

  /** Once a prefix of the variants panics, the whole pass panics with that message. */
  lemma {:induction false} SplitPanicPersists(vs: seq<Variant>, i: nat, join: Joiner)
    requires i <= |vs| && Split(vs[..i], join).Panic?
    ensures Split(vs, join) == Split(vs[..i], join)
    decreases |vs|
  {
    if i < |vs| {
      var init := vs[..|vs| - 1];
      assert init[..i] == vs[..i];
      SplitPanicPersists(init, i, join);
    } else {
      assert vs[..i] == vs;
    }
  }

  /** `extract_variants`: one pass over the variants, pushing each onto `marked`,
      `w_inner` or `errs`. */
  method ExtractVariants(variants: seq<Variant>, join: Joiner) returns (r: Outcome<Partition>)
    ensures r == Split(variants, join)
  {
    var marked: seq<Marked> := [];
    var wInner: seq<WithInner> := [];
    var errs: seq<Diagnostic> := [];
    var i := 0;
    while i < |variants|
      invariant i <= |variants|
      invariant Split(variants[..i], join) == Ok(Partition(marked, wInner, errs))
    {
      var v := variants[i];
      var level := WithLogLevel(v);
      if level.Panic? {
        SplitPanicStep(variants, i, join);
        return Panic(level.message);
      }
      if level.value.Some? {
        SplitStep(variants, i, join, Partition(marked, wInner, errs), Explicit(level.value.value));
        marked := marked + [Marked(level.value.value, v.ident)];
      } else {
        AfterNoLevel(v);
        var inner := HasInner(v);
        if inner.Ok? && inner.value.Some? {
          match IsValidInner(inner.value.value, join)
          case Eligible(innerSpan) =>
            SplitStep(variants, i, join, Partition(marked, wInner, errs), Delegated(innerSpan));
            wInner := wInner + [WithInner(innerSpan, v.ident)];
          case Ineligible(span) =>
            SplitStep(variants, i, join, Partition(marked, wInner, errs),
                      Invalid(CompileError(span, NoImplementation)));
            errs := errs + [CompileError(span, NoImplementation)];
        } else {
          SplitStep(variants, i, join, Partition(marked, wInner, errs),
                    Invalid(CompileError(v.span, NeedsReport)));
          errs := errs + [CompileError(v.span, NeedsReport)];
        }
      }
      i := i + 1;
    }
    assert variants[..i] == variants;
    return Ok(Partition(marked, wInner, errs));
  }

  predicate Increasing(s: seq<nat>)
  {
    forall a, b | 0 <= a < b < |s| :: s[a] < s[b]
  }

  /** `im` gives, in order, the declaration index of each entry of `marked`,
      which is what that variant classifies as. */
  ghost predicate MarkedAt(vs: seq<Variant>, join: Joiner, marked: seq<Marked>, im: seq<nat>)
  {
    && |im| == |marked| && Increasing(im)
    && forall k | 0 <= k < |im| ::
         im[k] < |vs| && marked[k].variantId == vs[im[k]].ident
         && Classify(vs[im[k]], join) == Ok(Explicit(marked[k].level))
  }

  /** The same for `w_inner`. */
  ghost predicate InnerAt(vs: seq<Variant>, join: Joiner, withInner: seq<WithInner>, iw: seq<nat>)
  {
    && |iw| == |withInner| && Increasing(iw)
    && forall k | 0 <= k < |iw| ::
         iw[k] < |vs| && withInner[k].variantId == vs[iw[k]].ident
         && Classify(vs[iw[k]], join) == Ok(Delegated(withInner[k].innerSpan))
  }

  /** The same for `errs`. */
  ghost predicate ErrsAt(vs: seq<Variant>, join: Joiner, errs: seq<Diagnostic>, ie: seq<nat>)
  {
    && |ie| == |errs| && Increasing(ie)
    && forall k | 0 <= k < |ie| ::
         ie[k] < |vs| && Classify(vs[ie[k]], join) == Ok(Invalid(errs[k]))
  }

  /** Every index below `n` appears in one of the three index lists. */
  predicate Covers(n: nat, im: seq<nat>, iw: seq<nat>, ie: seq<nat>)
  {
    forall i | 0 <= i < n :: i in im || i in iw || i in ie
  }

  ghost predicate Tracks(vs: seq<Variant>, join: Joiner, p: Partition, im: seq<nat>, iw: seq<nat>, ie: seq<nat>)
  {
    && MarkedAt(vs, join, p.marked, im)
    && InnerAt(vs, join, p.withInner, iw)
    && ErrsAt(vs, join, p.errs, ie)
    && Covers(|vs|, im, iw, ie)
  }

  /** Adding a variant at the end leaves the existing index lists valid. */
  lemma {:induction false} TracksWiden(vs: seq<Variant>, join: Joiner, p: Partition, im: seq<nat>, iw: seq<nat>, ie: seq<nat>)
    requires |vs| > 0 && Tracks(vs[..|vs| - 1], join, p, im, iw, ie)
    ensures MarkedAt(vs, join, p.marked, im)
    ensures InnerAt(vs, join, p.withInner, iw)
    ensures ErrsAt(vs, join, p.errs, ie)
    ensures forall k | 0 <= k < |im| :: im[k] < |vs| - 1
    ensures forall k | 0 <= k < |iw| :: iw[k] < |vs| - 1
    ensures forall k | 0 <= k < |ie| :: ie[k] < |vs| - 1
  {
    var init := vs[..|vs| - 1];
    assert forall j | 0 <= j < |init| :: init[j] == vs[j];
  }

  lemma {:induction false} AppendIncreasing(s: seq<nat>, n: nat)
    requires Increasing(s) && forall k | 0 <= k < |s| :: s[k] < n
    ensures Increasing(s + [n])
  {
  }

  lemma {:induction false} MarkedAtSnoc(vs: seq<Variant>, join: Joiner, marked: seq<Marked>, im: seq<nat>, level: Level)
    requires |vs| > 0 && MarkedAt(vs, join, marked, im)
    requires forall k | 0 <= k < |im| :: im[k] < |vs| - 1
    requires Classify(vs[|vs| - 1], join) == Ok(Explicit(level))
    ensures MarkedAt(vs, join, marked + [Marked(level, vs[|vs| - 1].ident)], im + [|vs| - 1])
  {
    AppendIncreasing(im, |vs| - 1);
  }

  lemma {:induction false} InnerAtSnoc(vs: seq<Variant>, join: Joiner, withInner: seq<WithInner>, iw: seq<nat>, span: Span)
    requires |vs| > 0 && InnerAt(vs, join, withInner, iw)
    requires forall k | 0 <= k < |iw| :: iw[k] < |vs| - 1
    requires Classify(vs[|vs| - 1], join) == Ok(Delegated(span))
    ensures InnerAt(vs, join, withInner + [WithInner(span, vs[|vs| - 1].ident)], iw + [|vs| - 1])
  {
    AppendIncreasing(iw, |vs| - 1);
  }

  lemma {:induction false} ErrsAtSnoc(vs: seq<Variant>, join: Joiner, errs: seq<Diagnostic>, ie: seq<nat>, d: Diagnostic)
    requires |vs| > 0 && ErrsAt(vs, join, errs, ie)
    requires forall k | 0 <= k < |ie| :: ie[k] < |vs| - 1
    requires Classify(vs[|vs| - 1], join) == Ok(Invalid(d))
    ensures ErrsAt(vs, join, errs + [d], ie + [|vs| - 1])
  {
    AppendIncreasing(ie, |vs| - 1);
  }

  /** Partition: each variant is placed in exactly one list (its class decides
      which, and the lengths add up to the number of variants), and each list keeps
      declaration order. */
  lemma {:induction false} SplitOrder(vs: seq<Variant>, join: Joiner) returns (im: seq<nat>, iw: seq<nat>, ie: seq<nat>)
    requires Split(vs, join).Ok?
    ensures Tracks(vs, join, Split(vs, join).value, im, iw, ie)
    decreases |vs|
  {
    if vs == [] {
      return [], [], [];
    }
    var n := |vs| - 1;
    var init := vs[..n];
    var p := Split(init, join).value;
    im, iw, ie := SplitOrder(init, join);
    TracksWiden(vs, join, p, im, iw, ie);
    SplitLast(vs, join);
    var c := Classify(vs[n], join).value;
    SplitSnoc(vs, join, p, c);
    CoversSnoc(n, im, iw, ie);
    match c
    case Explicit(level) =>
      MarkedAtSnoc(vs, join, p.marked, im, level);
      im := im + [n];
    case Delegated(span) =>
      InnerAtSnoc(vs, join, p.withInner, iw, span);
      iw := iw + [n];
    case Invalid(d) =>
      ErrsAtSnoc(vs, join, p.errs, ie, d);
      ie := ie + [n];
  }

  lemma {:induction false} CoversSnoc(n: nat, im: seq<nat>, iw: seq<nat>, ie: seq<nat>)
    requires Covers(n, im, iw, ie)
    ensures Covers(n + 1, im + [n], iw, ie)
    ensures Covers(n + 1, im, iw + [n], ie)
    ensures Covers(n + 1, im, iw, ie + [n])
  {
  }

  /** The pass completes exactly when no variant's classification panics. */
  lemma {:induction false} SplitOkIff(vs: seq<Variant>, join: Joiner)
    ensures Split(vs, join).Ok? <==> forall i | 0 <= i < |vs| :: Classify(vs[i], join).Ok?
  {
    if Split(vs, join).Ok? {
      forall i | 0 <= i < |vs| ensures Classify(vs[i], join).Ok? {
        SplitOkAt(vs, join, i);
      }
    } else {
      var i := SplitPanicAt(vs, join);
    }
  }

  /** A completed pass classified every variant. */
  lemma {:induction false} SplitOkAt(vs: seq<Variant>, join: Joiner, i: nat)
    requires Split(vs, join).Ok? && i < |vs|
    ensures Classify(vs[i], join).Ok?
    decreases |vs|
  {
    var n := |vs| - 1;
    SplitLast(vs, join);
    if i < n {
      SplitOkAt(vs[..n], join, i);
      assert vs[..n][i] == vs[i];
    }
  }

  /** A pass that panics does so at some variant whose classification panics. */
  lemma {:induction false} SplitPanicAt(vs: seq<Variant>, join: Joiner) returns (i: nat)
    requires Split(vs, join).Panic?
    ensures i < |vs| && Classify(vs[i], join).Panic?
    decreases |vs|
  {
    var n := |vs| - 1;
    SplitLast(vs, join);
    if Split(vs[..n], join).Panic? {
      i := SplitPanicAt(vs[..n], join);
      assert vs[..n][i] == vs[i];
    } else {
      i := n;
    }
  }

  /** The pass over a non-empty list completes exactly when the pass over all
      but the last variant does and the last one classifies. */
  lemma {:induction false} SplitLast(vs: seq<Variant>, join: Joiner)
    requires vs != []
    ensures Split(vs, join).Ok? <==>
              Split(vs[..|vs| - 1], join).Ok? && Classify(vs[|vs| - 1], join).Ok?
  {
  }

  /** Attribute precedence: a variant whose first `report` attribute names a level
      is marked with that level, whatever its fields are, and `has_inner` then
      offers no payload. */
  lemma {:induction false} ReportAlwaysMarked(v: Variant, join: Joiner, k: nat)
    requires k < |v.attrs| && IsReport(v.attrs[k])
    requires forall i | 0 <= i < k :: Skippable(v.attrs[i])
    requires ReportLevel(v.attrs[k].meta.list).Ok?
    ensures Classify(v, join) == Ok(Explicit(ReportLevel(v.attrs[k].meta.list).value))
    ensures InnerOf(v) == Ok(None)
  {
    FirstReportWins(v.attrs, k);
    InnerOfPrecedence(v);
  }

  /** A `report` attribute whose contents cannot be read aborts the whole
      expansion: the panic is never downgraded to a default level. */
  lemma {:induction false} MalformedReportPanics(vs: seq<Variant>, join: Joiner, i: nat, k: nat)
    requires i < |vs| && k < |vs[i].attrs| && IsReport(vs[i].attrs[k])
    requires forall j | 0 <= j < k :: Skippable(vs[i].attrs[j])
    requires ReportLevel(vs[i].attrs[k].meta.list).Panic?
    ensures Split(vs, join).Panic?
  {
    FirstReportWins(vs[i].attrs, k);
    SplitOkIff(vs, join);
  }

  /** The three outcomes for a variant without a `report` attribute: no unnamed
      field gives the "Needs 'report' attribute" error at the variant; an
      ineligible first unnamed field gives the "variant content" error at that
      field's type; an eligible one delegates. */
  lemma {:induction false} UnreportedVariant(v: Variant, join: Joiner)
    requires forall i | 0 <= i < |v.attrs| :: Skippable(v.attrs[i])
    ensures !(v.fields.Unnamed? && |v.fields.unnamed| > 0) ==>
              Classify(v, join) == Ok(Invalid(CompileError(v.span, NeedsReport)))
    ensures v.fields.Unnamed? && |v.fields.unnamed| > 0 ==>
              var ty := v.fields.unnamed[0].ty;
              Classify(v, join) ==
                if ty.TypePath? || (ty.Reference? && ty.elem.TypePath?)
                then Ok(Delegated(IsValidInner(ty, join).span))
                else Ok(Invalid(CompileError(ty.span, NoImplementation)))
  {
    NoneIffNoReport(v.attrs);
    InnerOfPrecedence(v);
  }

  /** Only the first unnamed field is ever examined. */
  lemma {:induction false} OnlyFirstFieldExamined(v: Variant, rest: seq<Field>, join: Joiner)
    requires v.fields.Unnamed? && |v.fields.unnamed| > 0
    ensures Classify(v.(fields := Unnamed([v.fields.unnamed[0]] + rest)), join) == Classify(v, join)
  {
  }

  /** A variant that contributes a `compile_error!` and no arm. */
  predicate IsInvalid(v: Variant, join: Joiner)
  {
    Classify(v, join).Ok? && Classify(v, join).value.Invalid?
  }

  /** The pass emits no `compile_error!` exactly when no variant is invalid. */
  lemma {:induction false} ErrsEmptyIff(vs: seq<Variant>, join: Joiner)
    requires Split(vs, join).Ok?
    ensures Split(vs, join).value.errs == [] <==> forall i | 0 <= i < |vs| :: !IsInvalid(vs[i], join)
    decreases |vs|
  {
    if vs != [] {
      var n := |vs| - 1;
      var init := vs[..n];
      ErrsEmptyIff(init, join);
      assert forall j | 0 <= j < n :: init[j] == vs[j];
    }
  }
}
