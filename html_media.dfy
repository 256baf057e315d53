/** Images and figures in ordinary pages, as the HTML converter turns them
    into media entries. */
module HtmlMedia {
  import opened Wrappers
  import opened Text
  import opened Dom
  import opened Uris
  import TextConversion

  /** An Image: where it is and its caption. */
  datatype Image = Image(source: Uri, caption: string)

  /** A MediaConverter: the page URL relative sources are resolved against. */
  datatype MediaConverter = MediaConverter(baseUrl: Option<Uri>)

  const ArticleImage := "Article Image"

  /** Older sites lazy-load images from data-src; these are tried in order. */
  const SourceAttributes: seq<string> := ["data-src", "data-lazy-src", "src"]

  /** One attribute's candidate: its trimmed value, when non-empty, resolved
      against the page URL; kept only when its scheme begins with "http".
      A missing page URL, a failed resolution and a relative result (whose
      Scheme throws) all give null. */
  function UrlFrom(res: Resolver, mc: MediaConverter, img: Node, attr: string): (r: Option<Uri>)
    ensures r.Some? ==> IsHttp(r.value)
    ensures mc.baseUrl.None? ==> r.None?
  {
    var value := GetAttribute(img, attr);
    if value.None? then None
    else
      var url := Trim(value.value);
      if url == [] || mc.baseUrl.None? then None
      else
        match res.combine(mc.baseUrl.value, url)
        case Thrown => None
        case Parsed(u) => if u.absolute && StartsWith(u.scheme, "http") then Some(u) else None
  }

  /** A URL comes from a present, non-blank attribute whose trimmed value,
      combined with the page URL, gives it. */
  lemma UrlFromCombines(res: Resolver, mc: MediaConverter, img: Node, attr: string)
    ensures var r := UrlFrom(res, mc, img, attr);
            r.Some? ==> && img.Element? && attr in img.attrs && Trim(img.attrs[attr]) != []
                        && mc.baseUrl.Some?
                        && res.combine(mc.baseUrl.value, Trim(img.attrs[attr])) == Parsed(r.value)
  {
  }

  /** What each of `attrs` yields, in order. */
  function Candidates(res: Resolver, mc: MediaConverter, img: Node, attrs: seq<string>): (r: seq<Option<Uri>>)
    ensures |r| == |attrs| && forall i :: 0 <= i < |attrs| ==> r[i] == UrlFrom(res, mc, img, attrs[i])
  {
    seq(|attrs|, i requires 0 <= i < |attrs| => UrlFrom(res, mc, img, attrs[i]))
  }

  /** GetUrl: data-src, then data-lazy-src, then src; the first that yields
      an HTTP(S) URL wins, and one that throws falls through to the next. */
  function GetUrl(res: Resolver, mc: MediaConverter, img: Node): (r: Option<Uri>)
    ensures r.Some? ==> IsHttp(r.value)
    ensures r.None? <==> forall a :: a in SourceAttributes ==> UrlFrom(res, mc, img, a).None?
    ensures UrlFrom(res, mc, img, "data-src").Some? ==> r == UrlFrom(res, mc, img, "data-src")
    ensures UrlFrom(res, mc, img, "data-src").None? && UrlFrom(res, mc, img, "data-lazy-src").Some? ==>
      r == UrlFrom(res, mc, img, "data-lazy-src")
    ensures UrlFrom(res, mc, img, "data-src").None? && UrlFrom(res, mc, img, "data-lazy-src").None? ==>
      r == UrlFrom(res, mc, img, "src")
  {
    var urls := Candidates(res, mc, img, SourceAttributes);
    var k := FirstSome(urls);
    assert SourceAttributes[0] == "data-src" && SourceAttributes[1] == "data-lazy-src" && SourceAttributes[2] == "src";
    if k == -1 then None else urls[k]
  }

  /** GetAlt: the alt text with its white space collapsed, or "Article
      Image" when that is empty; never empty. */
  function GetAlt(img: Node): (r: string)
    ensures r != []
    ensures var alt := GetAttribute(img, "alt").GetOr("");
            && (alt != [] ==> r == TextConversion.CollapseWhitespace(alt))
            && (alt == [] ==> r == ArticleImage)
  {
    var caption := TextConversion.CollapseWhitespace(GetAttribute(img, "alt").GetOr(""));
    if |caption| > 0 then caption else ArticleImage
  }

  /** Only alt matters: title and every other attribute are ignored. */
  lemma GetAltReadsOnlyAlt(a: Node, b: Node)
    requires GetAttribute(a, "alt") == GetAttribute(b, "alt")
    ensures GetAlt(a) == GetAlt(b)
  {
  }

  /** GetFigCaption: the figcaption text with its white space collapsed. */
  function GetFigCaption(figure: Node): (r: string)
    ensures '\n' !in r && '\r' !in r
    ensures FigcaptionContent(figure) == [] <==> r == []
  {
    TextConversion.CollapseWhitespace(FigcaptionContent(figure))
  }

  /** FindCaption: the figcaption text when there is any, else GetAlt. */
  function FindCaption(figure: Node, img: Node): (r: string)
    ensures r != []
    ensures GetFigCaption(figure) != [] ==> r == GetFigCaption(figure)
    ensures GetFigCaption(figure) == [] ==> r == GetAlt(img)
  {
    var ret := GetFigCaption(figure);
    if |ret| > 0 then ret else GetAlt(img)
  }

  /** ConvertImg: null exactly when GetUrl is; otherwise captioned by GetAlt. */
  function ConvertImg(res: Resolver, mc: MediaConverter, img: Node): (r: Option<Image>)
    ensures r.None? <==> GetUrl(res, mc, img).None?
    ensures r.Some? ==> IsHttp(r.value.source) && r.value.caption == GetAlt(img) && r.value.caption != []
  {
    var url := GetUrl(res, mc, img);
    if url.None? then None else Some(Image(url.value, GetAlt(img)))
  }

  /** ConvertFigure: null when the figure has no img or its img has no
      usable URL; otherwise captioned by FindCaption. */
  function ConvertFigure(res: Resolver, mc: MediaConverter, figure: Node): (r: Option<Image>)
    ensures QuerySelector(figure, "img").None? ==> r.None?
    ensures QuerySelector(figure, "img").Some? ==>
      (r.None? <==> GetUrl(res, mc, QuerySelector(figure, "img").value).None?)
    ensures r.Some? ==>
      && IsHttp(r.value.source)
      && r.value.caption == FindCaption(figure, QuerySelector(figure, "img").value)
      && r.value.caption != []
  {
    var img := QuerySelector(figure, "img");
    if img.None? then None
    else
      var url := GetUrl(res, mc, img.value);
      if url.None? then None else Some(Image(url.value, FindCaption(figure, img.value)))
  }
}
