/** Finding a variant's `#[report(..)]` attribute and reading the level it names
    (`has_level_path`, `with_log_level`). */
module Attributes {
  import opened Wrappers
  import opened Syntax
  import opened Levels

  /** Panic message of `unwrap_meta` for a literal inside `report(..)`. */
  const LiteralArgument := "nested argument list should not be a rust literal but a structured meta item"

  /** `has_level_path`: the list's path is exactly the one bare identifier `report`. */
  function HasLevelPath(m: MetaList): (b: bool)
    ensures b <==> !m.path.leadingColon && |m.path.segments| == 1
                   && m.path.segments[0].ident == "report"
                   && m.path.segments[0].arguments == NoArguments
  {
    GetIdent(m.path) == Some("report")
  }

  /** An attribute of the form `#[report(..)]`. */
  predicate IsReport(a: Attribute)
  {
    a.Parsed? && a.meta.List? && HasLevelPath(a.meta.list)
  }

  /** An attribute the scan steps over: it parses and is not `#[report(..)]`
      (`#[doc = ".."]`, `#[report]`, `#[level(Warn)]`, ...). */
  predicate Skippable(a: Attribute)
  {
    a.Parsed? && !IsReport(a)
  }

  /** Where a scan of the attributes in order stops: at the first attribute that
      does not parse or is a `report` list, or at the end. */
  function ScanEnd(attrs: seq<Attribute>): (k: nat)
    ensures k <= |attrs|
    ensures forall i | 0 <= i < k :: Skippable(attrs[i])
    ensures k < |attrs| ==> !Skippable(attrs[k])
  {
    if |attrs| == 0 || !Skippable(attrs[0]) then 0 else 1 + ScanEnd(attrs[1..])
  }

  /** The level named by a `report(..)` list (the steps at lines 79-82): the first
      nested item must be a meta item whose path is one identifier, and that
      identifier must be a keyword. Later items are ignored. */
  function ReportLevel(list: MetaList): (r: Outcome<Level>)
    ensures r.Ok? <==> |list.nested| > 0 && list.nested[0].MetaItem?
                       && GetIdent(MetaPath(list.nested[0].meta)).Some?
                       && GetIdent(MetaPath(list.nested[0].meta)).value in Keywords
    ensures r.Ok? ==> GetIdent(MetaPath(list.nested[0].meta)) == Some(Keyword(r.value))
    ensures |list.nested| == 0 ==> r == Panic(UnwrapNone)
    ensures |list.nested| > 0 && list.nested[0].Lit? ==> r == Panic(LiteralArgument)
  {
    if |list.nested| == 0 then Panic(UnwrapNone)
    else match list.nested[0]
      case Lit(_) => Panic(LiteralArgument)
      case MetaItem(meta) =>
        match GetIdent(MetaPath(meta))
        case None => Panic(UnwrapNone)
        case Some(id) => FromIdent(id)
  }

  /** What `with_log_level` computes for a variant's attributes. */
  function LogLevelOf(attrs: seq<Attribute>): Outcome<Option<Level>>
  {
    var k := ScanEnd(attrs);
    if k == |attrs| then Ok(None)
    else if attrs[k].Unparsable? then Panic(UnwrapErr)
    else match ReportLevel(attrs[k].meta.list)
      case Ok(l) => Ok(Some(l))
      case Panic(msg) => Panic(msg)
  }

  /** `with_log_level`: walks the attributes in order, panicking on one that does
      not parse, skipping everything but a `report` list, and returning the level
      of the first `report` list. */
  method WithLogLevel(v: Variant) returns (r: Outcome<Option<Level>>)
    ensures r == LogLevelOf(v.attrs)
  {
    var i := 0;
    while i < |v.attrs|
      invariant i <= |v.attrs|
      invariant forall j | 0 <= j < i :: Skippable(v.attrs[j])
    {
      match v.attrs[i]
      case Unparsable(_) =>
        return Panic(UnwrapErr);
      case Parsed(m) =>
        if m.List? && HasLevelPath(m.list) {
          var level := ReportLevel(m.list);
          if level.Panic? {
            return Panic(level.message);
          }
          return Ok(Some(level.value));
        }
      i := i + 1;
    }
    return Ok(None);
  }

  /** The result is `None` exactly when every attribute parses and none is a
      `report` list; and then no attribute can have made the scan panic. */
  lemma {:induction false} NoneIffNoReport(attrs: seq<Attribute>)
    ensures LogLevelOf(attrs) == Ok(None) <==> forall i | 0 <= i < |attrs| :: Skippable(attrs[i])
  {
    var k := ScanEnd(attrs);
    if k < |attrs| && attrs[k].Parsed? {
      assert IsReport(attrs[k]);
      assert !Skippable(attrs[k]);
    }
  }

  /** The first `report` attribute decides, whatever follows it, once the ones
      before it parse. */
  lemma {:induction false} FirstReportWins(attrs: seq<Attribute>, k: nat)
    requires k < |attrs| && IsReport(attrs[k])
    requires forall i | 0 <= i < k :: Skippable(attrs[i])
    ensures LogLevelOf(attrs) == match ReportLevel(attrs[k].meta.list)
                                 case Ok(l) => Ok(Some(l))
                                 case Panic(msg) => Panic(msg)
  {
    assert !Skippable(attrs[k]);
  }
}
