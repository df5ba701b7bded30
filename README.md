# ErrorLevel derive — a Dafny model

`#[derive(ErrorLevel)]` (crate `error_level_derive`) implements the trait
`ErrorLevel { fn error_level(&self) -> Option<log::Level> }` for an enum. It
decides the following for each variant:

- **marked**: its first `#[report(Keyword)]` attribute fixes a level. `No` means
  "never report".
- **delegated**: it has no such attribute, and its first unnamed field has a
  path type or a reference to one. The generated code asks that payload for
  its own `error_level()`.
- **invalid**: anything else. The derive emits a `compile_error!` anchored to
  the variant, or to the offending payload type.

The derive then emits one `impl` with the invalid variants' errors and a
`match` that has one arm per marked or delegated variant.

The model covers each step of the derive:

- It reads the level keyword (`Levels`) and finds the `report` attribute
  (`Attributes`).
- It decides whether a payload can be delegated to (`Payload`) and runs the
  classification loop (`Variants`).
- It assembles the generated impl (`Expand`).
- It gives the generated `error_level` a meaning (`Dispatch`):
  - whether the emitted `match` compiles against the enum;
  - what it returns for a value, following delegation through nested payloads.

Each step that may panic returns `Outcome<T> = Ok(value) | Panic(message)`.
A panic in a derive aborts the whole expansion.

The attribute scan, the payload lookup and the classification loop are
methods with loops, like the Rust loops they model:

- `Attributes.WithLogLevel`
- `Payload.HasInner`
- `Variants.ExtractVariants`

Each method is proved equal to a specification function. Those functions are
`LogLevelOf`, `InnerOf` and `Split`. The lemmas state their properties.

`Expand.ImplErrorLevelMacroAsWritten` is `impl_error_level_macro` as the
crate writes it. `Examples` replays the crate's tests on it, with the enums
those tests declare. The dispatch
lemmas `Dispatch.MarkedDispatch` and `Dispatch.DelegatedDispatch` take the arm
patterns as parameters, so they hold for the impl as written.

`Findings` holds two inputs on which the `match` emitted as written does not
compile. For each input it also shows the corrected patterns of
`Expand.ImplErrorLevelMacro`.

Level keywords are case-sensitive (error_level_derive/src/lib.rs:28-34):

- The PascalCase keywords `No`, `Trace`, `Debug`, `Info`, `Warn` and `Error`
  are accepted.
- Any other identifier, lower-case spellings included, `panic!`s
  (error_level_derive/src/lib.rs:34). The panic aborts the whole expansion, so
  no other variant is processed.

Two lemmas pin this down:

- `Levels.LowerCaseRejected` shows that the lower-case spellings are rejected.
- `Examples.UnknownKeywordPanics` shows that an unknown keyword aborts the
  whole expansion.

Two more facts of the code are kept as they are:

- every path type is eligible for delegation, generic ones included
  (error_level_derive/src/lib.rs:108);
- the scan returns at the first `report` attribute, so that one wins
  (error_level_derive/src/lib.rs:82).

## Model

| member | source | states |
|---|---|---|
| Levels.FromIdent | error_level_derive/src/lib.rs:26-36 | succeeds exactly on the six case-sensitive keywords, returning the level each spells; any other identifier panics with the "options are only" message |
| Levels.FromIdentKeyword | error_level_derive/src/lib.rs:26-36 | the keyword of every level parses back to that level |
| Levels.LowerCaseRejected | error_level_derive/src/lib.rs:26-36 | `no`, `trace`, `debug`, `info`, `warn`, `error` are all rejected with the panic |
| Levels.ToTokens | error_level_derive/src/lib.rs:39-51 | `No` denotes `None`; every other level denotes `Some` of the `log::Level` with the same name |
| Levels.ToTokensBijective | error_level_derive/src/lib.rs:41-48 | distinct levels emit distinct values, and every `Option<log::Level>` is emitted by the level whose keyword names it |
| Attributes.HasLevelPath | error_level_derive/src/lib.rs:59-65 | true exactly when the list's path is the single bare identifier `report` (no leading `::`, no generic arguments) |
| Attributes.ScanEnd | error_level_derive/src/lib.rs:75-84 | the scan stops at the first attribute that fails to parse or is a `report` list; every attribute before it is skipped |
| Attributes.ReportLevel | error_level_derive/src/lib.rs:68-82 | a `report(..)` list yields a level exactly when its first item is a meta item whose path is one identifier that is a keyword; an empty list and a literal first item panic with their messages |
| Attributes.WithLogLevel | error_level_derive/src/lib.rs:67-86 | the loop returns `LogLevelOf` of the variant's attributes: a panic at the first unparsable attribute, the first `report` list's level, or `None` |
| Attributes.NoneIffNoReport | error_level_derive/src/lib.rs:75-85 | the result is `None` exactly when every attribute parses and none is a `report` list |
| Attributes.FirstReportWins | error_level_derive/src/lib.rs:75-83 | once the attributes before it parse and are skipped, the first `report` list decides the result, whatever follows it |
| Payload.HandlePath | error_level_derive/src/lib.rs:96-105 | a multi-segment path is anchored at the join of its first and last segment spans, or at the last one when they cannot be joined; a bare identifier at its own span; any other single segment at the call site |
| Payload.IsValidInner | error_level_derive/src/lib.rs:94-117 | eligible exactly for a path type or a reference to a path type, with the `handle_path` span of that path; otherwise ineligible at the span of the whole type |
| Payload.FirstUnnamed | error_level_derive/src/lib.rs:127-132 | the type of the first unnamed field, present exactly when the variant has unnamed fields and at least one |
| Payload.HasInner | error_level_derive/src/lib.rs:119-133 | the loop returns `InnerOf`: a panic at the first unparsable attribute, no payload once a `report` list is met, else the first unnamed field's type |
| Payload.InnerOfPrecedence | error_level_derive/src/lib.rs:119-133 | a `report` attribute reached by the scan hides the payload whatever the fields are; with no `report` attribute the payload is the first unnamed field |
| Payload.AfterNoLevel | error_level_derive/src/lib.rs:140-146 | once `with_log_level` found no level, `has_inner` cannot panic and returns the first unnamed field |
| Variants.Classify | error_level_derive/src/lib.rs:139-167 | one loop step: an explicit class carries the level `with_log_level` found; a non-explicit one means no attribute is a `report` list; a delegated one has a first unnamed field |
| Variants.Split | error_level_derive/src/lib.rs:135-170 | the three lists together hold exactly one entry per variant |
| Variants.SplitSnoc | error_level_derive/src/lib.rs:139-168 | the last variant is classified after all earlier ones and appended to the list of its class |
| Variants.SplitStep | error_level_derive/src/lib.rs:139-168 | one iteration extends the result for a prefix by the next variant's class |
| Variants.SplitPanicStep | error_level_derive/src/lib.rs:139-140 | the loop stops at the first variant whose classification panics, with that panic |
| Variants.SplitPanicPersists | error_level_derive/src/lib.rs:139-168 | a panic in a prefix is the panic of the whole pass |
| Variants.SplitClassified | error_level_derive/src/lib.rs:135-170 | when every variant classifies, the result places each variant, in order, by its class |
| Variants.ExtractVariants | error_level_derive/src/lib.rs:135-170 | the loop that pushes onto `marked`, `w_inner` and `errs` returns `Split` of the variants |
| Variants.SplitOrder | error_level_derive/src/lib.rs:135-170 | partition: every variant index appears in one of three increasing index lists; each list entry is the variant at its index, with the class that list stands for, so each list keeps declaration order |
| Variants.SplitOkIff | error_level_derive/src/lib.rs:135-170 | the pass completes exactly when no variant's classification panics |
| Variants.ReportAlwaysMarked | error_level_derive/src/lib.rs:119-125 | a variant whose first `report` attribute names a level is marked with it, whatever its fields, and `has_inner` offers no payload |
| Variants.MalformedReportPanics | error_level_derive/src/lib.rs:75-82 | a first `report` attribute that cannot be read aborts the whole pass |
| Variants.UnreportedVariant | error_level_derive/src/lib.rs:146-167 | without a `report` attribute: no unnamed field gives "Needs 'report' attribute" at the variant; an ineligible first field gives the "variant content" error at that type; an eligible one delegates |
| Variants.OnlyFirstFieldExamined | error_level_derive/src/lib.rs:127-129 | replacing the unnamed fields after the first never changes the classification |
| Variants.ErrsEmptyIff | error_level_derive/src/lib.rs:146-167 | `errs` is empty exactly when no variant is invalid |
| Expand.UnwrapEnum | error_level_derive/src/lib.rs:207-213 | an enum yields its variants; any other item panics with "can only implement error level on enums" |
| Expand.Generate | error_level_derive/src/lib.rs:172-205 | the expansion succeeds exactly for an enum whose pass completes; the impl is for the enum's name, carries the pass's errors, and has one arm per marked or delegated variant |
| Expand.FixedArms | error_level_derive/src/lib.rs:179-180 | one arm per marked variant, in the order of `marked`, naming that variant and answering with its level |
| Expand.ForwardArms | error_level_derive/src/lib.rs:184-191 | one forwarding arm per delegated variant, in the order of `w_inner`, spanned at that variant's payload type |
| Expand.ImplErrorLevelMacroAsWritten | error_level_derive/src/lib.rs:172-205 | `impl_error_level_macro`: succeeds exactly for an enum whose pass completes, carries the pass's errors, matches marked variants with the path pattern `Name::V` and delegated ones with `Name::V(inn_err)` |
| Expand.ImplErrorLevelMacro | error_level_derive/src/lib.rs:172-205 | the same expansion with the corrected patterns: `Name::V { .. }` for marked variants and `Name::V(inn_err, ..)` for delegated ones |
| Dispatch.Lookup | error_level_derive/src/lib.rs:197-200 | finds the declared variant an arm names, or shows that none is declared under that name |
| Dispatch.SelectArm | error_level_derive/src/lib.rs:197-200 | the `match` runs the first arm that names the variant, or none names it |
| Dispatch.ArmsOf | error_level_derive/src/lib.rs:193-203 | the arms of the generated `match` list the marked variants, then the delegated ones, each with its pattern and body |
| Dispatch.Fits | error_level_derive/src/lib.rs:189-198 | Rust's pattern check: `V { .. }` fits any variant; a path pattern fits only a unit variant; a pattern binding `inn_err` fits only a variant with a first unnamed field |
| Dispatch.Builds | error_level_derive/src/lib.rs:193-203 | when the impl compiles, its `match` has an arm, and for every declared variant the arm selected for it has a pattern that fits that variant's declaration |
| Dispatch.ErrorLevel | error_level_derive/src/lib.rs:193-203 | a value reports a level only when its type has an impl and an arm for its variant, and the level it reports is one that some generated arm answers with |
| Dispatch.SelectedArm | error_level_derive/src/lib.rs:193-203 | for each declared variant, the generated `match` selects the fixed-level arm of a marked variant, the forwarding arm of a delegated one, and no arm for an invalid one |
| Dispatch.MarkedDispatch | error_level_derive/src/lib.rs:179-180 | for the patterns as written or corrected, on any value of a marked variant, `error_level()` returns the `Option<log::Level>` of its level; this is Rust's behaviour when the impl builds (the lemma does not assume `Builds`) |
| Dispatch.DelegatedDispatch | error_level_derive/src/lib.rs:184-191 | for the patterns as written or corrected, on a value of a delegated variant, `error_level()` returns the payload's own `error_level()` unchanged; this is Rust's behaviour when the impl builds (the lemma does not assume `Builds`) |
| Dispatch.BuildsIff | error_level_derive/src/lib.rs:193-203 | the generated impl compiles exactly when the enum has a variant (a `match` on `&E` with no arm is not exhaustive) and every variant is marked or delegated and fits the pattern its arm uses |
| Dispatch.BuildsIffNoErrors | error_level_derive/src/lib.rs:196-200 | with the corrected patterns, the impl compiles exactly when the enum has a variant and no `compile_error!` is emitted |
| Dispatch.AcceptedUnlessInvalid | error_level_derive/src/lib.rs:146-167 | with the corrected patterns, a variant that classifies is accepted exactly when it is not invalid |
| Dispatch.AsWrittenBuildsIff | error_level_derive/src/lib.rs:189-198 | the impl as written compiles exactly when the corrected one does, every marked variant is a unit variant, and every delegated variant has exactly one field |
| Examples.ReportedVariant | error_level_derive/src/lib.rs:140-145 | a variant whose one attribute is `#[report(K)]` is marked with the level of `K` |
| Examples.PathNewtype | error_level_derive/src/lib.rs:146-154 | a variant with one path-typed field and no attribute delegates at the path's span |
| Examples.CustomErrorBuilds | error_level_derive/tests/should_work.rs:26-35 | the test enum `CustomError` expands as written and its impl compiles, for any payload path |
| Examples.CustomErrorDispatch | error_level_derive/tests/should_work.rs:39-47 | under the impl as written, `ErrorA`, `ErrorB`, `ErrorC` report `Warn`, `Info` and nothing; `ErrorD(d)` reports whatever `d` reports |
| Examples.InfoEnumDispatch | error_level_derive/tests/should_work.rs:5-21 | under the impl as written, `OuterError::Error0` and `example_mod::Error::Error00` report `Info` |
| Examples.DelegationTest | error_level_derive/tests/should_work.rs:24-74 | under the impls as written, both enums compile and both tests' four assertions hold: `Some(Warn)`, `Some(Info)`, `None` and, through delegation, `Some(Info)` |
| Examples.SimpleTest | error_level_derive/tests/should_work.rs:24-49 | test `simple`: `ErrorD(OuterError::Error0)` reports `Info` |
| Examples.WithPathSeparatorTest | error_level_derive/tests/should_work.rs:51-74 | test `with_path_seperator`: `ErrorD(example_mod::Error::Error00)` reports `Info` through a two-segment path |
| Examples.MissingAttributesTest | error_level_derive/tests/should_fail.rs:28-39 | `#[level(..)]` is not the derive's attribute: three "Needs 'report' attribute" errors and one "variant content" error at the tuple type; nothing marked or delegated; the impl does not compile |
| Examples.DoesNotImplementTest | error_level_derive/tests/should_fail.rs:9-26 | `ErrorD(ErrorWithoutImpl)` is delegated without checking the payload's trait; three errors are emitted; the forwarded call has no impl to reach |
| Examples.UnknownKeywordPanics | error_level_derive/src/lib.rs:34 | an identifier that is not a keyword aborts the expansion with the "options are only" panic |
| Examples.EmptyEnumDoesNotBuild | error_level_derive/src/lib.rs:193-203 | an enum without variants expands to an impl without arms or errors, and that impl does not compile |
| Examples.StructPanics | error_level_derive/src/lib.rs:207-213 | deriving on a struct aborts with the "only on enums" panic |
| Findings.ReportedPayloadAsWritten | error_level_derive/src/lib.rs:198 | `#[report(Info)] ErrorD(OuterError)`: no `compile_error!` is emitted, yet the arm `CustomError::ErrorD =>` makes the impl fail to compile |
| Findings.ReportedPayloadCorrected | error_level_derive/src/lib.rs:198 | with `CustomError::ErrorD { .. } =>` the same enum compiles and reports `Info` whatever the payload |
| Findings.TwoFieldPayloadAsWritten | error_level_derive/src/lib.rs:189 | `ErrorD(OuterError, u32)` is delegated, yet the arm `CustomError::ErrorD(inn_err)` makes the impl fail to compile |
| Findings.TwoFieldPayloadCorrected | error_level_derive/src/lib.rs:189 | with `CustomError::ErrorD(inn_err, ..)` the enum compiles and reports the first field's own level |

## Left out

- Token streams: `proc_macro`/`syn` parsing and `quote!` output are not modelled. Attributes, fields and types are datatypes. The generated code is an `Impl` of error diagnostics and arms. `Dispatch.ErrorLevel` gives it a meaning.
- Spans: they are opaque values. `Span::join` is a compiler facility, so it is a parameter `join` that may fail.
- `Attribute::parse_meta` failures: their error text is not modelled. An unparsable attribute panics with the generic `Result::unwrap` message.
- Generics of the derived enum: the emitted header `impl ErrorLevel for #name` (error_level_derive/src/lib.rs:194) never uses the enum's type or lifetime parameters, so the impl of a generic enum never compiles (a missing type argument, or an elided lifetime in an impl header). The model has no generics: `Dispatch.Builds`, `Dispatch.BuildsIff`, `Dispatch.BuildsIffNoErrors` and `Dispatch.AsWrittenBuildsIff` describe only enums without parameters. In particular a delegated reference payload can build only as `&'static T`, since any other lifetime needs a parameter on the enum.
- Rust's type checking of the forwarded call `inn_err.error_level()`: the compiler checks this, not the derive. `Dispatch.ErrorLevel` returns `Stuck` when no impl exists for the payload's type. `Dispatch.Builds` covers only pattern fit, exhaustiveness and the emitted errors.
- The `ErrorLevel` trait's `log_error` (src/lib.rs:3-12): it forwards to the `log` crate's macros, which is runtime I/O.
- Logger setup in the tests: `SimpleLogger::init` is I/O.
- Expand.Generate: its contract states the impl's name, errors, arm count and arm patterns. Arm contents and order are stated by `Dispatch.ArmsOf`, `Dispatch.SelectedArm` and the lemmas beside them.
- Dispatch.ErrorLevel: it knows only the impls the derive generates, keyed by the bare type identifier. `example_mod::Error` is looked up as `Error`, so two types of the same name in different modules would collide; the model does not resolve paths. A payload type whose `ErrorLevel` impl is written by hand, like `TestError` (src/lib.rs:26-33), evaluates to `Stuck`.

## Findings

| source | as written | input that shows it | evidently intended | confidence | as-written member | corrected member |
|---|---|---|---|---|---|---|
| error_level_derive/src/lib.rs:198 | a marked variant's arm is the path pattern `#name::#ident =>`, which Rust accepts only for a unit variant | `enum CustomError { #[report(Info)] ErrorD(OuterError) }`: the derive emits no error, but the impl does not compile | a `report` attribute fixes the level whatever the variant's fields are; pattern `#name::#ident { .. }` | not executed | Findings.ReportedPayloadAsWritten | Findings.ReportedPayloadCorrected |
| error_level_derive/src/lib.rs:189 | a delegated variant's arm is `#name::#ident(inn_err)`, which binds exactly one field | `enum CustomError { ErrorD(OuterError, u32) }`: classified as delegated with no error, but the impl does not compile | only the first unnamed field is examined, so only it need be bound; pattern `#name::#ident(inn_err, ..)` | not executed | Findings.TwoFieldPayloadAsWritten | Findings.TwoFieldPayloadCorrected |
