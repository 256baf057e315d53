/** Images and figures for the site-specific converters: no resolution
    against the page, and an address that fails to parse is not caught. */
module SpecialMedia {
  import opened Wrappers
  import opened Text
  import opened Dom
  import opened Uris
  import StringUtils
  import HtmlMedia

  /** GetUrl: data-src when it is non-empty, otherwise src, which may be
      missing; nothing is checked or resolved. */
  function GetUrl(img: Node): (r: Option<string>)
    ensures GetAttribute(img, "data-src").Some? && GetAttribute(img, "data-src").value != [] ==>
      r == GetAttribute(img, "data-src")
    ensures GetAttribute(img, "data-src").None? || GetAttribute(img, "data-src").value == [] ==>
      r == GetAttribute(img, "src")
  {
    var url := GetAttribute(img, "data-src");
    if url.None? || url.value == [] then GetAttribute(img, "src") else url
  }

  /** GetAlt: the trimmed alt text, or "Article Image" when that is empty. */
  function GetAlt(img: Node): (r: string)
    ensures r != []
    ensures r == HtmlMedia.ArticleImage || Trimmed(r)
    ensures var alt := GetAttribute(img, "alt").GetOr("");
            && (!AllWhite(alt) ==> r == Trim(alt))
            && (AllWhite(alt) ==> r == HtmlMedia.ArticleImage)
  {
    var caption := Trim(GetAttribute(img, "alt").GetOr(""));
    if |caption| > 0 then caption else HtmlMedia.ArticleImage
  }

  /** GetFigCaption: the figcaption text with its newlines removed. */
  function GetFigCaption(figure: Node): (r: string)
    ensures '\n' !in r && '\r' !in r
    ensures |r| <= |FigcaptionContent(figure)|
  {
    StringUtils.RemoveNewlines(FigcaptionContent(figure))
  }

  /** FindCaption: the figcaption text when there is any, else GetAlt; never
      empty. */
  function FindCaption(figure: Node, img: Node): (r: string)
    ensures r != []
    ensures GetFigCaption(figure) != [] ==> r == GetFigCaption(figure)
    ensures GetFigCaption(figure) == [] ==> r == GetAlt(img)
  {
    var ret := GetFigCaption(figure);
    if |ret| > 0 then ret else GetAlt(img)
  }

  /** ConvertImg: null when GetUrl is; otherwise `new Uri(url)`, whose
      exception on an unparsable address reaches the caller. */
  function ConvertImg(res: Resolver, img: Node): (r: Outcome<HtmlMedia.Image>)
    ensures r.Null? <==> GetUrl(img).None?
    ensures r.Throws? <==> GetUrl(img).Some? && res.parse(GetUrl(img).value).Thrown?
    ensures r.Value? ==> res.parse(GetUrl(img).value) == Parsed(r.value.source) && r.value.caption == GetAlt(img)
  {
    var url := GetUrl(img);
    if url.None? then Null
    else
      match res.parse(url.value)
      case Thrown => Throws
      case Parsed(u) => Value(HtmlMedia.Image(u, GetAlt(img)))
  }

  /** ConvertFigure: null when the figure has no img or the img has no URL;
      otherwise as ConvertImg, captioned by FindCaption. */
  function ConvertFigure(res: Resolver, figure: Node): (r: Outcome<HtmlMedia.Image>)
    ensures QuerySelector(figure, "img").None? ==> r.Null?
    ensures QuerySelector(figure, "img").Some? ==>
      var img := QuerySelector(figure, "img").value;
      && (r.Null? <==> GetUrl(img).None?)
      && (r.Throws? <==> GetUrl(img).Some? && res.parse(GetUrl(img).value).Thrown?)
      && (r.Value? ==> (res.parse(GetUrl(img).value) == Parsed(r.value.source)
                        && r.value.caption == FindCaption(figure, img)))
    ensures r.Value? ==> r.value.caption != []
  {
    var img := QuerySelector(figure, "img");
    if img.None? then Null
    else
      var url := GetUrl(img.value);
      if url.None? then Null
      else
        match res.parse(url.value)
        case Thrown => Throws
        case Parsed(u) => Value(HtmlMedia.Image(u, FindCaption(figure, img.value)))
  }
}
