/** The part of a Rust item's syntax tree, as the `syn` crate hands it to a
    derive macro, that the `ErrorLevel` derive looks at. Source spans are
    opaque values. */
module Syntax {
  import opened Wrappers

  type Ident = string

  /** An opaque source location; `CallSite` is the location of the derive itself. */
  datatype Span = CallSite | Site(id: nat)

  /** `Span::join`, a compiler facility: it may or may not manage to join two spans. */
  type Joiner = (Span, Span) -> Option<Span>

  datatype PathArguments = NoArguments | AngleBracketed | Parenthesized

  datatype PathSegment = PathSegment(ident: Ident, arguments: PathArguments, span: Span)

  /** A path such as `report`, `example_mod::Error` or `::std::vec::Vec<T>`. */
  datatype Path = Path(leadingColon: bool, segments: seq<PathSegment>)

  /** `Path::get_ident`: the identifier, when the path is one bare identifier. */
  function GetIdent(p: Path): Option<Ident>
  {
    if !p.leadingColon && |p.segments| == 1 && p.segments[0].arguments == NoArguments
    then Some(p.segments[0].ident)
    else None
  }

  /** Parsed attribute contents: `#[path]`, `#[path(nested, ...)]`, `#[path = "lit"]`. */
  datatype Meta = PathMeta(path: Path) | List(list: MetaList) | NameValue(path: Path, lit: string)

  datatype MetaList = MetaList(path: Path, nested: seq<NestedMeta>)

  /** An item of a meta list: a structured meta item, or a literal such as `"x"` or `3`. */
  datatype NestedMeta = MetaItem(meta: Meta) | Lit(lit: string)

  /** `Meta::path`. */
  function MetaPath(m: Meta): Path
  {
    match m
    case PathMeta(p) => p
    case List(l) => l.path
    case NameValue(p, _) => p
  }

  /** An attribute on a variant, after `Attribute::parse_meta`: either it parses as a
      `Meta`, or its token stream is not meta syntax. */
  datatype Attribute = Parsed(meta: Meta) | Unparsable(span: Span)

  /** The type shapes of `syn::Type` the derive distinguishes. `Other` stands for the
      remaining ones (function pointers, trait objects, `impl Trait`, `!`, macros, ...). */
  datatype Type =
    | TypePath(path: Path)
    | Reference(elem: Type, span: Span)
    | Tuple(elems: seq<Type>, span: Span)
    | Array(elem: Type, span: Span)
    | Slice(elem: Type, span: Span)
    | Other(span: Span)

  datatype Field = Field(ty: Type)

  /** `V { a: A }`, `V(A, B)` or `V`. */
  datatype Fields = Named(named: seq<Field>) | Unnamed(unnamed: seq<Field>) | Unit

  datatype Variant = Variant(attrs: seq<Attribute>, ident: Ident, fields: Fields, span: Span)

  datatype Data = Enum(variants: seq<Variant>) | Struct(fields: Fields) | Union(named: seq<Field>)

  /** The item the derive is attached to. Generics are not represented. */
  datatype DeriveInput = DeriveInput(ident: Ident, data: Data)
}
