/** Absolute and relative URIs as the converter sees them. Parsing and
    resolving (`new Uri(s)`, `new Uri(base, s)`, section 5.2 of RFC 3986)
    are not re-implemented: a `Resolver` stands for them. */
module Uris {
  import opened Wrappers
  import opened Text

  /** A `System.Uri`: its text, whether it is absolute, and its scheme. */
  datatype Uri = Uri(text: string, absolute: bool, scheme: string)

  /** A constructor call either yields a Uri or throws. */
  datatype Parsed = Parsed(uri: Uri) | Thrown

  /** `combine(b, s)` is `new Uri(b, s)`; `parse(s)` is `new Uri(s)`. */
  datatype Resolver = Resolver(combine: (Uri, string) -> Parsed, parse: string -> Parsed)

  /** Absolute, with a scheme beginning "http". */
  predicate IsHttp(u: Uri) {
    u.absolute && StartsWith(u.scheme, "http")
  }
}
