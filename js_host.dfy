/** The values the hook handles that come from its JavaScript host: the
    configuration values it inspects with `typeof`, `instanceof` and
    truthiness, and the host library calls it makes (`decodeURIComponent`,
    `new Date(...).getTime()`, `RegExp.prototype.test`), which are taken as
    given functions. */
module JsHost {

  datatype Option<+T> = None | Some(value: T)

  /** A regular-expression literal, identified by its source text and flags. */
  datatype Regex = Regex(source: string, flags: string)

  /** A configuration value as the hook sees it: `null`/`undefined`, a
      string, a `RegExp`, or any other value, of which only its truthiness
      matters (a number, an array, a plain object, ...). */
  datatype JsValue =
    | Nullish
    | Str(s: string)
    | Re(re: Regex)
    | Other(truthy: bool)
  {
    /** JavaScript truthiness: the empty string and `null`/`undefined` are falsy. */
    predicate Truthy() {
      match this
      case Nullish => false
      case Str(s) => s != ""
      case Re(_) => true
      case Other(t) => t
    }
  }

  /** The host library calls, as functions of their arguments.
      - `decode` is `decodeURIComponent`; `None` stands for the `URIError` it
        throws on a malformed percent sequence.
      - `parseDate` is `new Date(text).getTime()`; `None` stands for `NaN`.
      - `regexTest` is `RegExp.prototype.test`. */
  datatype Host = Host(
    decode: string -> Option<string>,
    parseDate: string -> Option<int>,
    regexTest: (Regex, string) -> bool)
}
