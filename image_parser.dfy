/** Images in ordinary pages: where an img's address comes from and which
    caption it gets. */
module ImageParsing {
  import opened Wrappers
  import opened Text
  import opened Dom
  import opened Uris
  import Parsing
  import TextConversion

  /** An ImageLink: where the image is and its caption. */
  datatype ImageLink = ImageLink(source: Uri, caption: string)

  /** An ImageParser: the page's base URL and the caption used when an
      image has none. */
  datatype ImageParser = ImageParser(baseUrl: Option<Uri>, defaultCaption: string)

  const ArticleImage := "Article Image"

  /** The constructor: the given base URL and the default caption
      "Article Image". */
  function NewImageParser(baseUrl: Option<Uri>): (ip: ImageParser)
    ensures ip.baseUrl == baseUrl && ip.defaultCaption == ArticleImage && ip.defaultCaption != []
  {
    ImageParser(baseUrl, ArticleImage)
  }

  /** Older sites lazy-load images from data-src; these are tried in order. */
  const SourceAttributes: seq<string> := ["data-src", "data-lazy-src", "src"]

  /** The Uri a present attribute resolves to; the private CreateUrl of
      ImageParser is the same code as AbstractParser's, given this parser's
      base URL. */
  function SourceFrom(res: Resolver, ip: ImageParser, img: Node, attr: string): (r: Option<Uri>)
    ensures r.Some? ==> IsHttp(r.value) && img.Element? && attr in img.attrs && img.attrs[attr] != []
  {
    if GetAttribute(img, attr).Some? then
      Parsing.CreateUrl(res, Parsing.Parser(ip.baseUrl), GetAttribute(img, attr))
    else None
  }

  /** What each of `attrs` resolves to, in order. */
  function Candidates(res: Resolver, ip: ImageParser, img: Node, attrs: seq<string>): (r: seq<Option<Uri>>)
    ensures |r| == |attrs| && forall i :: 0 <= i < |attrs| ==> r[i] == SourceFrom(res, ip, img, attrs[i])
  {
    seq(|attrs|, i requires 0 <= i < |attrs| => SourceFrom(res, ip, img, attrs[i]))
  }

  /** GetImageUrl: data-src, then data-lazy-src, then src; the first one
      present that resolves to an HTTP(S) URL wins, and one that does not
      resolve falls through to the next. */
  function GetImageUrl(res: Resolver, ip: ImageParser, img: Node): (r: Option<Uri>)
    ensures r.Some? ==> IsHttp(r.value)
    ensures r.None? <==> forall a :: a in SourceAttributes ==> SourceFrom(res, ip, img, a).None?
    ensures SourceFrom(res, ip, img, "data-src").Some? ==> r == SourceFrom(res, ip, img, "data-src")
    ensures SourceFrom(res, ip, img, "data-src").None? && SourceFrom(res, ip, img, "data-lazy-src").Some? ==>
      r == SourceFrom(res, ip, img, "data-lazy-src")
    ensures SourceFrom(res, ip, img, "data-src").None? && SourceFrom(res, ip, img, "data-lazy-src").None? ==>
      r == SourceFrom(res, ip, img, "src")
  {
    var sources := Candidates(res, ip, img, SourceAttributes);
    var k := FirstSome(sources);
    assert SourceAttributes[0] == "data-src" && SourceAttributes[1] == "data-lazy-src" && SourceAttributes[2] == "src";
    if k == -1 then None else sources[k]
  }

  /** CaptionOrDefault: the text itself unless it is empty. */
  function CaptionOrDefault(ip: ImageParser, s: string): (r: string)
    ensures s != [] ==> r == s
    ensures s == [] ==> r == ip.defaultCaption
    ensures ip.defaultCaption != [] ==> r != []
  {
    if |s| > 0 then s else ip.defaultCaption
  }

  /** GetCaptionForImage: alt when it is non-empty, else title, with its
      white space collapsed; the default caption when that is empty. */
  function GetCaptionForImage(ip: ImageParser, img: Node): (r: string)
    ensures var alt := GetAttribute(img, "alt").GetOr("");
            var title := GetAttribute(img, "title").GetOr("");
            && (alt != [] ==> r == TextConversion.CollapseWhitespace(alt))
            && (alt == [] && title != [] ==> r == TextConversion.CollapseWhitespace(title))
            && (alt == [] && title == [] ==> r == ip.defaultCaption)
    ensures ip.defaultCaption != [] ==> r != []
  {
    var alt := GetAttribute(img, "alt").GetOr("");
    var caption := if alt == [] then GetAttribute(img, "title").GetOr("") else alt;
    CaptionOrDefault(ip, TextConversion.CollapseWhitespace(caption))
  }

  /** The collapsed text of the figure's first figcaption, or "". */
  function FigcaptionText(figure: Node): (r: string)
    ensures '\n' !in r && '\r' !in r
    ensures QuerySelector(figure, "figcaption").None? ==> r == []
  {
    TextConversion.CollapseWhitespace(FigcaptionContent(figure))
  }

  /** GetCaptionForFigure as the source has it: the figcaption text is
      computed and then overwritten, so the figure's caption is always the
      img's own. */
  function GetCaptionForFigureAsWritten(ip: ImageParser, figure: Node, img: Node): (r: string)
    ensures r == GetCaptionForImage(ip, img)
  {
    var figcaption := FigcaptionText(figure);
    var caption := GetCaptionForImage(ip, img);
    caption
  }

  /** A figure captioned "A cat" around an img with neither alt nor title. */
  const CatImg := Element("img", map["src" := "cat.png"], [])
  const CatCaption := Element("figcaption", map[], [TextNode("A cat")])
  const CatFigure := Element("figure", map[], [CatImg, CatCaption])

  lemma CatFigureQueries()
    ensures QuerySelector(CatFigure, "figcaption") == Some(CatCaption)
    ensures TextContent(CatCaption) == "A cat"
  {
    assert Descendants(CatFigure) == [CatImg, CatCaption] by {
      assert [CatImg, CatCaption][1..] == [CatCaption];
      assert Descendants(CatImg) == [];
      assert DescendantsAll([TextNode("A cat")]) == [];
      assert Descendants(CatCaption) == [];
      assert DescendantsAll([CatCaption]) == [CatCaption] + [] + [];
      assert DescendantsAll([CatImg, CatCaption]) == [CatImg] + [] + [CatCaption];
    }
    assert HasTag(CatCaption, "figcaption") by {
      LowerUnchanged("figcaption");
    }
    assert FirstTagged([CatImg, CatCaption], "figcaption") == 1 by {
      assert !HasTag(CatImg, "figcaption");
      assert [CatImg, CatCaption][1..] == [CatCaption];
    }
    assert TextContentAll([TextNode("A cat")]) == "A cat" + "";
  }

  /** The figure's own caption is lost: the as-written caption is the
      default one although the figcaption says "A cat". */
  lemma FigcaptionIgnored()
    ensures FigcaptionText(CatFigure) == "A cat"
    ensures GetCaptionForFigureAsWritten(NewImageParser(None), CatFigure, CatImg) == ArticleImage
  {
    CatFigureQueries();
    assert '\n' !in "A cat" && '\r' !in "A cat";
    CatImgUncaptioned();
  }

  lemma CatImgUncaptioned()
    ensures GetCaptionForImage(NewImageParser(None), CatImg) == ArticleImage
  {
    assert "alt" !in CatImg.attrs && "title" !in CatImg.attrs;
  }

  /** The corrected caption of the same figure is its figcaption. */
  lemma FigcaptionKept()
    ensures GetCaptionForFigure(NewImageParser(None), CatFigure, CatImg) == "A cat"
  {
    FigcaptionIgnored();
  }

  /** GetCaptionForFigure as its comments describe it: the figcaption text
      when there is any, otherwise the img's caption. */
  function GetCaptionForFigure(ip: ImageParser, figure: Node, img: Node): (r: string)
    ensures FigcaptionText(figure) != [] ==> r == FigcaptionText(figure)
    ensures FigcaptionText(figure) == [] ==> r == GetCaptionForImage(ip, img)
    ensures ip.defaultCaption != [] ==> r != []
  {
    var caption := FigcaptionText(figure);
    if caption != [] then caption else GetCaptionForImage(ip, img)
  }

  /** ParseImg: null exactly when no source attribute resolves; otherwise
      the resolved URL and the image's caption. */
  function ParseImg(res: Resolver, ip: ImageParser, img: Node): (r: Option<ImageLink>)
    ensures r.None? <==> GetImageUrl(res, ip, img).None?
    ensures r.Some? ==> IsHttp(r.value.source) && r.value.caption == GetCaptionForImage(ip, img)
    ensures r.Some? && ip.defaultCaption != [] ==> r.value.caption != []
  {
    var url := GetImageUrl(res, ip, img);
    if url.None? then None
    else Some(ImageLink(url.value, GetCaptionForImage(ip, img)))
  }

  /** ParseFigure: null when the figure has no img or its img does not
      resolve; otherwise the first img's URL with the caption the code as
      written gives the figure, which is always the img's own. */
  function ParseFigure(res: Resolver, ip: ImageParser, figure: Node): (r: Option<ImageLink>)
    ensures QuerySelector(figure, "img").None? ==> r.None?
    ensures QuerySelector(figure, "img").Some? ==>
      (r.None? <==> GetImageUrl(res, ip, QuerySelector(figure, "img").value).None?)
    ensures r.Some? ==>
      && IsHttp(r.value.source)
      && r.value.caption == GetCaptionForImage(ip, QuerySelector(figure, "img").value)
    ensures r.Some? && ip.defaultCaption != [] ==> r.value.caption != []
  {
    var img := QuerySelector(figure, "img");
    if img.None? then None
    else
      var url := GetImageUrl(res, ip, img.value);
      if url.None? then None
      else Some(ImageLink(url.value, GetCaptionForFigureAsWritten(ip, figure, img.value)))
  }

  /** ParseFigure with the corrected caption: the same image, captioned by
      the figcaption when it has text. */
  function ParseFigureIntended(res: Resolver, ip: ImageParser, figure: Node): (r: Option<ImageLink>)
    ensures r.None? <==> ParseFigure(res, ip, figure).None?
    ensures r.Some? ==>
      && r.value.source == ParseFigure(res, ip, figure).value.source
      && r.value.caption == GetCaptionForFigure(ip, figure, QuerySelector(figure, "img").value)
    ensures r.Some? && FigcaptionText(figure) != [] ==> r.value.caption == FigcaptionText(figure)
    ensures r.Some? && ip.defaultCaption != [] ==> r.value.caption != []
  {
    var link := ParseFigure(res, ip, figure);
    if link.None? then None
    else Some(link.value.(caption := GetCaptionForFigure(ip, figure, QuerySelector(figure, "img").value)))
  }
}
