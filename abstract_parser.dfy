/** What every HTML parser shares: the page's base URL, URL creation that
    keeps only HTTP(S) results, and single-line normalisation. */
module Parsing {
  import opened Wrappers
  import opened Text
  import opened Uris
  import TextConversion

  /** An AbstractParser: its BaseUrl, set once by the constructor. */
  datatype Parser = Parser(baseUrl: Option<Uri>)

  /** The Uri the body of CreateUrl's `try` obtains for a non-empty string:
      resolved against the base URL when there is one, parsed on its own
      when it holds "://", and null otherwise. */
  function Resolution(res: Resolver, p: Parser, url: string): (o: Outcome<Uri>)
    ensures p.baseUrl.None? && !Contains(url, "://") ==> o.Null?
    ensures o.Value? ==>
      || (p.baseUrl.Some? && res.combine(p.baseUrl.value, url) == Parsed(o.value))
      || (p.baseUrl.None? && res.parse(url) == Parsed(o.value))
  {
    if p.baseUrl.None? && !Contains(url, "://") then Null
    else
      var parsed := if p.baseUrl.Some? then res.combine(p.baseUrl.value, url) else res.parse(url);
      match parsed
      case Thrown => Throws
      case Parsed(u) => Value(u)
  }

  /** CreateUrl: the resolved Uri when it is absolute HTTP(S); null for null
      or empty input, for a non-HTTP result, and whenever anything throws,
      the null dereference after an unresolved string included. */
  function CreateUrl(res: Resolver, p: Parser, url: Option<string>): (r: Option<Uri>)
    ensures url.None? || url.value == [] ==> r.None?
    ensures r.Some? ==> IsHttp(r.value)
    ensures url.Some? && p.baseUrl.None? && !Contains(url.value, "://") ==> r.None?
    ensures url.Some? && url.value != [] ==>
      (r.Some? <==> Resolution(res, p, url.value).Value? && IsHttp(Resolution(res, p, url.value).value))
    ensures r.Some? ==> Resolution(res, p, url.value) == Value(r.value)
  {
    if url.None? || url.value == [] then None
    else
      match Resolution(res, p, url.value)
      case Value(u) => if u.absolute && StartsWith(u.scheme, "http") then Some(u) else None
      case Null => None
      case Throws => None
  }

  /** A resolution that throws never escapes CreateUrl: it gives null. */
  lemma CreateUrlCatches(res: Resolver, p: Parser, url: string)
    requires Resolution(res, p, url).Throws?
    ensures CreateUrl(res, p, Some(url)).None?
  {
  }

  /** Normalize: null becomes "", then the trimmed text with its white
      space collapsed; the result is one trimmed line. */
  function Normalize(s: Option<string>): (r: string)
    ensures s.None? ==> r == []
    ensures Trimmed(r)
    ensures '\n' !in r && '\r' !in r
    ensures |r| <= |s.GetOr([])|
    ensures r == [] <==> AllWhite(s.GetOr([]))
  {
    var t := if s.Some? then Trim(s.value) else [];
    TextConversion.CollapseWhitespace(t)
  }

  /** Normalizing normalized text changes nothing. */
  lemma NormalizeIdempotent(s: Option<string>)
    ensures Normalize(Some(Normalize(s))) == Normalize(s)
  {
    var n := Normalize(s);
    TrimOfTrimmed(n);
    assert TextConversion.CollapseWhitespace(n) == n;
  }
}
