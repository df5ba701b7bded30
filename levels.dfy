/** The severity a `#[report(..)]` attribute names, how its keyword is read
    and what the derive emits for it. */
module Levels {
  import opened Wrappers
  import Log

  datatype Level = No | Trace | Debug | Info | Warn | Error

  /** Panic message for a keyword outside the vocabulary. */
  const UnknownLevel := "options are only: No, Trace, Debug, Info, Warn or Error"

  /** The identifier that selects `l` inside `#[report(..)]`. */
  function Keyword(l: Level): string
  {
    match l
    case No => "No"
    case Trace => "Trace"
    case Debug => "Debug"
    case Info => "Info"
    case Warn => "Warn"
    case Error => "Error"
  }

  const Keywords: set<string> := {"No", "Trace", "Debug", "Info", "Warn", "Error"}

  /** `Level::from_ident`: exactly the six case-sensitive keywords are accepted, each
      for the level it spells; anything else panics rather than defaulting. */
  function FromIdent(id: string): (r: Outcome<Level>)
    ensures r.Ok? <==> id in Keywords
    ensures r.Ok? ==> Keyword(r.value) == id
    ensures r.Panic? ==> r.message == UnknownLevel
  {
    if id == "No" then Ok(No)
    else if id == "Trace" then Ok(Trace)
    else if id == "Debug" then Ok(Debug)
    else if id == "Info" then Ok(Info)
    else if id == "Warn" then Ok(Warn)
    else if id == "Error" then Ok(Error)
    else Panic(UnknownLevel)
  }

  /** The keyword of every level reads back as that level. */
  lemma {:induction false} FromIdentKeyword(l: Level)
    ensures FromIdent(Keyword(l)) == Ok(l)
  {
    match l
    case No =>
    case Trace =>
    case Debug =>
    case Info =>
    case Warn =>
    case Error =>
  }

  /** The vocabulary is case-sensitive: the lower-case spellings are all rejected. */
  lemma {:induction false} LowerCaseRejected(id: string)
    requires id in {"no", "trace", "debug", "info", "warn", "error"}
    ensures FromIdent(id) == Panic(UnknownLevel)
  {
  }

  /** `<Level as ToTokens>::to_tokens`, read as the value the emitted tokens denote:
      `No` is `None`, every other level is `Some` of the log level of the same name. */
  function ToTokens(l: Level): (r: Option<Log.Level>)
    ensures r == None <==> l == No
    ensures r.Some? ==> Log.Name(r.value) == Keyword(l)
  {
    match l
    case No => None
    case Trace => Some(Log.Trace)
    case Debug => Some(Log.Debug)
    case Info => Some(Log.Info)
    case Warn => Some(Log.Warn)
    case Error => Some(Log.Error)
  }

  /** `ToTokens` is one-to-one and reaches every `Option<log::Level>`: the keyword
      `No`, or the name of a log level, parses to the level that denotes it. */
  lemma {:induction false} ToTokensBijective(a: Level, b: Level, o: Option<Log.Level>)
    ensures ToTokens(a) == ToTokens(b) ==> a == b
    ensures var id := if o.None? then "No" else Log.Name(o.value);
            FromIdent(id).Ok? && ToTokens(FromIdent(id).value) == o
  {
    if ToTokens(a) == ToTokens(b) {
      if a != No {
        assert Keyword(a) == Log.Name(ToTokens(a).value) == Keyword(b);
        FromIdentKeyword(a);
        FromIdentKeyword(b);
      }
    }
    if o.Some? {
      match o.value
      case Error =>
      case Warn =>
      case Info =>
      case Debug =>
      case Trace =>
    }
  }
}
