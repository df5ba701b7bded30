/** The severity type of the `log` crate, which `ErrorLevel::error_level`
    returns wrapped in an `Option` (`None`: do not report). */
module Log {

  datatype Level = Error | Warn | Info | Debug | Trace

  /** The name of each variant, as written in `log::Level::<name>`. */
  function Name(l: Level): string
  {
    match l
    case Error => "Error"
    case Warn => "Warn"
    case Info => "Info"
    case Debug => "Debug"
    case Trace => "Trace"
  }
}
