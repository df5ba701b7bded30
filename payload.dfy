/** Whether a variant's payload can be asked for its own level
    (`is_valid_inner`, `handle_path`, `has_inner`). */
module Payload {
  import opened Wrappers
  import opened Syntax
  import opened Attributes

  /** `Ok(span)` / `Err(span)` of `is_valid_inner`. */
  datatype Eligibility = Eligible(span: Span) | Ineligible(span: Span)

  /** `handle_path`: the span a delegated call is anchored to. A path of several
      segments spans from its first to its last segment (the last one alone when
      the compiler cannot join them); a bare identifier is its own span; any other
      single-segment path gives the call site (the span of nothing). */
  function HandlePath(p: Path, join: Joiner): (s: Span)
    ensures |p.segments| > 1 ==>
              s == (if join(p.segments[0].span, p.segments[|p.segments| - 1].span).Some?
                    then join(p.segments[0].span, p.segments[|p.segments| - 1].span).value
                    else p.segments[|p.segments| - 1].span)
    ensures |p.segments| <= 1 && GetIdent(p).Some? ==> s == p.segments[0].span
    ensures |p.segments| <= 1 && GetIdent(p).None? ==> s == CallSite
  {
    if |p.segments| > 1 then
      match join(p.segments[0].span, p.segments[|p.segments| - 1].span)
      case Some(joined) => joined
      case None => p.segments[|p.segments| - 1].span
    else if GetIdent(p).Some? then p.segments[0].span
    else CallSite
  }

  /** `is_valid_inner`: a payload type is eligible exactly when it is a path type
      (generic ones included) or a reference to one; any other shape, including a
      reference to a non-path type, is not, and the error is anchored to the whole
      payload type. */
  function IsValidInner(ty: Type, join: Joiner): (r: Eligibility)
    ensures r.Eligible? <==> ty.TypePath? || (ty.Reference? && ty.elem.TypePath?)
    ensures r.Eligible? ==>
              r.span == HandlePath(if ty.TypePath? then ty.path else ty.elem.path, join)
    ensures r.Ineligible? ==> r.span == ty.span
  {
    match ty
    case TypePath(p) => Eligible(HandlePath(p, join))
    case Reference(elem, span) =>
      if elem.TypePath? then Eligible(HandlePath(elem.path, join)) else Ineligible(span)
    case _ => Ineligible(ty.span)
  }

  /** The type of the first unnamed field, if the variant has one. */
  function FirstUnnamed(fields: Fields): (r: Option<Type>)
    ensures r.Some? <==> fields.Unnamed? && |fields.unnamed| > 0
    ensures r.Some? ==> r.value == fields.unnamed[0].ty
  {
    if fields.Unnamed? && |fields.unnamed| > 0 then Some(fields.unnamed[0].ty) else None
  }

  /** What `has_inner` computes for a variant. */
  function InnerOf(v: Variant): Outcome<Option<Type>>
  {
    var k := ScanEnd(v.attrs);
    if k < |v.attrs| then
      if v.attrs[k].Unparsable? then Panic(UnwrapErr) else Ok(None)
    else Ok(FirstUnnamed(v.fields))
  }

  /** `has_inner`: no payload to delegate to when a `report` attribute is present;
      otherwise the type of the first unnamed field, if there is one. */
  method HasInner(v: Variant) returns (r: Outcome<Option<Type>>)
    ensures r == InnerOf(v)
  {
    var i := 0;
    while i < |v.attrs|
      invariant i <= |v.attrs|
      invariant forall j | 0 <= j < i :: Skippable(v.attrs[j])
    {
      match v.attrs[i]
      case Unparsable(_) =>
        return Panic(UnwrapErr);
      case Parsed(m) =>
        if m.List? && HasLevelPath(m.list) {
          return Ok(None);
        }
      i := i + 1;
    }
    if v.fields.Unnamed? {
      if |v.fields.unnamed| == 0 {
        return Ok(None);
      }
      return Ok(Some(v.fields.unnamed[0].ty));
    }
    return Ok(None);
  }

  /** A `report` attribute (reached before any attribute that fails to parse)
      hides the payload, whatever the fields are; without one, the payload is the
      first unnamed field, and nothing after it is looked at. */
  lemma {:induction false} InnerOfPrecedence(v: Variant)
    ensures (exists k | 0 <= k < |v.attrs| :: IsReport(v.attrs[k]) && forall i | 0 <= i < k :: Skippable(v.attrs[i]))
            ==> InnerOf(v) == Ok(None)
    ensures (forall i | 0 <= i < |v.attrs| :: Skippable(v.attrs[i]))
            ==> InnerOf(v) == Ok(FirstUnnamed(v.fields))
  {
    if exists k | 0 <= k < |v.attrs| :: IsReport(v.attrs[k]) && forall i | 0 <= i < k :: Skippable(v.attrs[i]) {
      var k :| 0 <= k < |v.attrs| && IsReport(v.attrs[k]) && forall i | 0 <= i < k :: Skippable(v.attrs[i]);
      assert !Skippable(v.attrs[k]);
      assert ScanEnd(v.attrs) == k;
    }
  }

  /** In the order the derive calls them: once `with_log_level` has found no
      level, `has_inner` cannot panic and reads the fields. */
  lemma {:induction false} AfterNoLevel(v: Variant)
    requires LogLevelOf(v.attrs) == Ok(None)
    ensures InnerOf(v) == Ok(FirstUnnamed(v.fields))
  {
  }
}
