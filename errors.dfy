/** `ParseError`: the one failure the engine raises, a message plus the
    position of the declaration that caused it when there is one. */
module Errors {
  import opened Wrappers
  import opened Strings
  import opened Css

  datatype Kind =
    | ModuleNotFound(path: string)        // load: no entry for the path, nor under `<parent>/deps/`
    | ContentNotFound(name: string)       // :content names an alias that was never required
    | ExportUndefined(variable: string)   // :exports of a `$local` that is missing or empty
    | NotRequired(alias: string)          // `$alias/name` with an alias that was never required
    | NotExported(key: string)            // `$alias/name` that the required module does not export
    | VariableUndefined(key: string)      // `$name` that is not a non-empty local
    | StackOverflow(path: string)         // loads nested deeper than the stack allows

  datatype ParseError = ParseError(kind: Kind, position: Option<Position>)

  type Outcome<T> = Result<T, ParseError>

  /** The message text of each kind. */
  function Describe(k: Kind): (m: string)
    ensures k.StackOverflow? <==> m == "Maximum call stack size exceeded"
    ensures k.NotRequired? ==> StartsWith(m, "'" + k.alias + "'")
    ensures k.NotExported? ==> StartsWith(m, "'" + k.key + "'")
  {
    var m := match k
      case ModuleNotFound(p) => "could not find module '" + p + "'"
      case ContentNotFound(n) => "could not resolve content '" + n + "'"
      case ExportUndefined(v) => "cannot export undefined variable '" + v + "'"
      case NotRequired(a) => "'" + a + "' has not been required"
      case NotExported(key) => "'" + key + "' has not been exported"
      case VariableUndefined(key) => "could not resolve variable '" + key + "'"
      case StackOverflow(_) => "Maximum call stack size exceeded";
    assert !k.StackOverflow? ==> m[0] != 'M';
    m
  }

  /** The error's message: the description, followed by
      ` at <source>:<line>:<column>` when a position is known. */
  function Message(e: ParseError): (m: string)
    ensures StartsWith(m, Describe(e.kind))
    ensures e.position.None? <==> m == Describe(e.kind)
  {
    match e.position
    case None => Describe(e.kind)
    case Some(pos) =>
      var suffix := " at " + pos.source + ":" + NatToString(pos.line) + ":" + NatToString(pos.column);
      assert (Describe(e.kind) + suffix)[..|Describe(e.kind)|] == Describe(e.kind);
      Describe(e.kind) + suffix
  }
}
