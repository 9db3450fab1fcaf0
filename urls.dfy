/** The part of Go's net/url package the crawler relies on, kept abstract.
    url.Parse may fail; the parsed reference exposes its host and nothing
    else; resolution against a base and rendering back to text are opaque
    functions supplied by the caller. */
module Urls {

  datatype Option<T> = None | Some(value: T)

  /** A parsed URL or URL reference. `host` is Go's URL.Host ("" when the
      text has no authority); `rest` stands for every other component
      (scheme, user info, path, query, fragment), which the crawler never
      inspects. */
  datatype Url = Url(host: string, rest: string)

  /** The three library calls the crawler makes:
      parse   = url.Parse(s)
      resolve = base.ResolveReference(ref).String()
      show    = u.String() */
  datatype UrlLib = UrlLib(
    parse: string -> Option<Url>,
    resolve: (Url, Url) -> string,
    show: Url -> string)

  /** The one assumption made about the library: the text of a resolved
      reference is itself parseable, as URL.String() always produces valid
      URL syntax. */
  ghost predicate ResolvedReparses(lib: UrlLib)
  {
    forall base: Url, ref: Url :: lib.parse(lib.resolve(base, ref)).Some?
  }
}
