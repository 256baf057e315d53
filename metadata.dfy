/** Page metadata read from the head element: title, news-feed link and
    OpenGraph properties. */
module MetaData {
  import opened Wrappers
  import opened Text
  import opened Dom
  import opened Uris

  /** The metadata of a page; every field is null when there is no head. */
  datatype HtmlMetaData = HtmlMetaData(
    feedUrl: Option<Uri>,
    metaTitle: Option<string>,
    ogDescription: Option<string>,
    ogImage: Option<Uri>,
    ogSiteName: Option<string>,
    ogTitle: Option<string>,
    ogType: Option<string>)

  /** A MetaDataParser: the page URL and the head element, when present. */
  datatype MetaDataParser = MetaDataParser(pageUrl: Option<Uri>, head: Option<Node>)

  /** Normalize: null becomes ""; otherwise newlines become spaces and the
      result is trimmed. */
  function Normalize(s: Option<string>): (r: string)
    ensures s.None? ==> r == []
    ensures Trimmed(r) && '\n' !in r
    ensures s.Some? ==> |r| <= |s.value|
    ensures s.Some? && '\n' !in s.value ==> r == Trim(s.value)
  {
    if s.None? then [] else
      var spaced := ReplaceChar(s.value, '\n', ' ');
      TrimAvoids(spaced, '\n');
      Trim(spaced)
  }

  /** CreateUrl: the page URL combined with `url` when the result is
      absolute; null for null or empty input and when anything throws
      (a missing page URL included). No scheme is required. */
  function CreateUrl(res: Resolver, pageUrl: Option<Uri>, url: Option<string>): (r: Option<Uri>)
    ensures url.None? || url.value == [] || pageUrl.None? ==> r.None?
    ensures r.Some? ==> r.value.absolute
    ensures r.Some? <==> url.Some? && url.value != [] && pageUrl.Some?
                         && res.combine(pageUrl.value, url.value).Parsed?
                         && res.combine(pageUrl.value, url.value).uri.absolute
    ensures r.Some? ==> res.combine(pageUrl.value, url.value) == Parsed(r.value)
  {
    if url.None? || url.value == [] || pageUrl.None? then None
    else
      match res.combine(pageUrl.value, url.value)
      case Thrown => None
      case Parsed(u) => if u.absolute then Some(u) else None
  }

  /** GetMetaTitle: the normalized text of the head's first title element. */
  function MetaTitle(head: Node): (r: string)
    ensures Trimmed(r) && '\n' !in r
    ensures QuerySelector(head, "title").None? ==> r == []
  {
    var t := QuerySelector(head, "title");
    Normalize(if t.Some? then Some(TextContent(t.value)) else None)
  }

  /** The filter FindFeedUrl applies to each link element. */
  predicate IsFeedLink(link: Node)
    ensures IsFeedLink(link) ==> link.Element? && "href" in link.attrs
    ensures IsFeedLink(link) ==> GetAttribute(link, "rel") == Some("alternate")
    ensures IsFeedLink(link) ==>
      GetAttribute(link, "type") in {Some("application/rss+xml"), Some("application/atom+xml")}
  {
    && GetAttribute(link, "rel") == Some("alternate")
    && GetAttribute(link, "href").Some?
    && (GetAttribute(link, "type") == Some("application/rss+xml")
        || GetAttribute(link, "type") == Some("application/atom+xml"))
    && !Contains(Lower(GetAttribute(link, "title").GetOr("")), "comment")
  }

  /** The position of the first feed link in `links`, or -1. */
  function FirstFeedLink(links: seq<Node>): (k: int)
    ensures -1 <= k < |links|
    ensures k >= 0 ==> IsFeedLink(links[k])
    ensures forall j :: 0 <= j < |links| && (k == -1 || j < k) ==> !IsFeedLink(links[j])
  {
    if links == [] then -1
    else if IsFeedLink(links[0]) then 0
    else
      var k := FirstFeedLink(links[1..]);
      if k == -1 then -1 else k + 1
  }

  /** The link elements below the head, in document order. */
  function Links(head: Node): (r: seq<Node>)
    ensures forall i :: 0 <= i < |r| ==> HasTag(r[i], "link") && r[i] in Descendants(head)
  {
    Tagged(Descendants(head), "link")
  }

  /** FindFeedUrl: the href of the first link that is an alternate RSS or
      Atom feed whose title does not mention comments; null when there is
      none. Only that first link's href is tried. */
  function FindFeedUrl(res: Resolver, pageUrl: Option<Uri>, head: Node): (r: Option<Uri>)
    ensures (forall i :: 0 <= i < |Links(head)| ==> !IsFeedLink(Links(head)[i])) ==> r.None?
    ensures r.Some? ==> r.value.absolute
    ensures r.Some? ==> exists i :: 0 <= i < |Links(head)| && IsFeedLink(Links(head)[i])
                         && r == CreateUrl(res, pageUrl, GetAttribute(Links(head)[i], "href"))
    ensures forall i :: 0 <= i < |Links(head)| && IsFeedLink(Links(head)[i])
                        && (forall j :: 0 <= j < i ==> !IsFeedLink(Links(head)[j])) ==>
                      r == CreateUrl(res, pageUrl, GetAttribute(Links(head)[i], "href"))
  {
    var links := Links(head);
    var k := FirstFeedLink(links);
    if k == -1 then None else CreateUrl(res, pageUrl, GetAttribute(links[k], "href"))
  }

  /** A feed link whose title mentions comments, in any case, is never
      chosen. */
  lemma CommentFeedsSkipped(link: Node)
    requires Contains(Lower(GetAttribute(link, "title").GetOr("")), "comment")
    ensures !IsFeedLink(link)
  {
  }

  /** `meta[property]`: the meta elements below the head that have a
      property attribute, in document order. */
  function MetaTags(head: Node): (r: seq<Node>)
    ensures forall i :: 0 <= i < |r| ==> HasTag(r[i], "meta") && "property" in r[i].attrs
  {
    var metas := Tagged(Descendants(head), "meta");
    WithProperty(metas)
  }

  function WithProperty(es: seq<Node>): (r: seq<Node>)
    ensures forall i :: 0 <= i < |r| ==> r[i] in es && r[i].Element? && "property" in r[i].attrs
    ensures forall e :: e in es && e.Element? && "property" in e.attrs ==> e in r
  {
    if es == [] then []
    else if es[0].Element? && "property" in es[0].attrs then [es[0]] + WithProperty(es[1..])
    else WithProperty(es[1..])
  }

  /** The property a meta element sets, lower-cased. */
  function PropertyOf(meta: Node): string {
    Lower(GetAttribute(meta, "property").GetOr(""))
  }

  /** The content a meta element gives, "" when it has none. */
  function ContentOf(meta: Node): string {
    GetAttribute(meta, "content").GetOr("")
  }

  /** The position of the last meta element setting `prop`, or -1. */
  function LastSetting(metas: seq<Node>, prop: string): (k: int)
    ensures -1 <= k < |metas|
    ensures k >= 0 ==> PropertyOf(metas[k]) == prop
    ensures forall j :: 0 <= j < |metas| && k < j ==> PropertyOf(metas[j]) != prop
  {
    if metas == [] then -1
    else if PropertyOf(metas[|metas| - 1]) == prop then |metas| - 1
    else LastSetting(metas[..|metas| - 1], prop)
  }

  /** The value an OpenGraph property ends with: the content of the last
      meta element setting it, or null when none does. */
  function LastProperty(metas: seq<Node>, prop: string): (r: Option<string>)
    ensures r.None? <==> forall j :: 0 <= j < |metas| ==> PropertyOf(metas[j]) != prop
    ensures r.Some? ==> exists k :: 0 <= k < |metas| && PropertyOf(metas[k]) == prop && r.value == ContentOf(metas[k])
  {
    var k := LastSetting(metas, prop);
    if k == -1 then None else Some(ContentOf(metas[k]))
  }

  /** One more meta element: it wins for its own property and leaves the
      others as they were. */
  lemma {:induction false} LastPropertyStep(metas: seq<Node>, meta: Node, prop: string)
    ensures LastProperty(metas + [meta], prop)
         == if PropertyOf(meta) == prop then Some(ContentOf(meta)) else LastProperty(metas, prop)
  {
    var all := metas + [meta];
    assert all[|all| - 1] == meta;
    assert all[..|all| - 1] == metas;
  }

  /** The five OpenGraph properties the converter keeps. */
  datatype OgProperties = OgProperties(
    title: Option<string>,
    ogType: Option<string>,
    image: Option<string>,
    siteName: Option<string>,
    description: Option<string>)

  /** One meta element applied to the properties: the one it names, matched
      without regard to case, takes its content. */
  function Assigned(p: OgProperties, meta: Node): (r: OgProperties)
    ensures r.title == if PropertyOf(meta) == "og:title" then Some(ContentOf(meta)) else p.title
    ensures r.ogType == if PropertyOf(meta) == "og:type" then Some(ContentOf(meta)) else p.ogType
    ensures r.image == if PropertyOf(meta) == "og:image" then Some(ContentOf(meta)) else p.image
    ensures r.siteName == if PropertyOf(meta) == "og:site_name" then Some(ContentOf(meta)) else p.siteName
    ensures r.description ==
      if PropertyOf(meta) == "og:description" then Some(ContentOf(meta)) else p.description
  {
    var content := ContentOf(meta);
    var property := PropertyOf(meta);
    if property == "og:image" then p.(image := Some(content))
    else if property == "og:site_name" then p.(siteName := Some(content))
    else if property == "og:title" then p.(title := Some(content))
    else if property == "og:type" then p.(ogType := Some(content))
    else if property == "og:description" then p.(description := Some(content))
    else p
  }

  /** Some meta element in `metas` sets `prop`. */
  predicate Sets(metas: seq<Node>, prop: string) {
    exists j :: 0 <= j < |metas| && PropertyOf(metas[j]) == prop
  }

  lemma SetsStep(metas: seq<Node>)
    requires metas != []
    ensures forall prop :: Sets(metas, prop) <==>
      Sets(metas[..|metas| - 1], prop) || PropertyOf(metas[|metas| - 1]) == prop
  {
    var init := metas[..|metas| - 1];
    assert forall j :: 0 <= j < |init| ==> init[j] == metas[j];
  }

  /** The meta elements applied in document order: a property is set
      exactly when some element names it. */
  function Collected(metas: seq<Node>): (r: OgProperties)
    ensures r.title.Some? <==> Sets(metas, "og:title")
    ensures r.ogType.Some? <==> Sets(metas, "og:type")
    ensures r.image.Some? <==> Sets(metas, "og:image")
    ensures r.siteName.Some? <==> Sets(metas, "og:site_name")
    ensures r.description.Some? <==> Sets(metas, "og:description")
  {
    if metas == [] then OgProperties(None, None, None, None, None)
    else
      SetsStep(metas);
      Assigned(Collected(metas[..|metas| - 1]), metas[|metas| - 1])
  }

  /** One more meta element is one more assignment. */
  lemma CollectedStep(metas: seq<Node>, i: nat)
    requires i < |metas|
    ensures Collected(metas[..i + 1]) == Assigned(Collected(metas[..i]), metas[i])
  {
    assert metas[..i + 1][..i] == metas[..i];
  }

  /** Applying them in order leaves every property with its last value. */
  lemma {:induction false} CollectedIsLast(metas: seq<Node>)
    ensures Collected(metas) == OgProperties(
      LastProperty(metas, "og:title"), LastProperty(metas, "og:type"), LastProperty(metas, "og:image"),
      LastProperty(metas, "og:site_name"), LastProperty(metas, "og:description"))
    decreases |metas|
  {
    if metas != [] {
      var init := metas[..|metas| - 1];
      var meta := metas[|metas| - 1];
      assert metas == init + [meta];
      CollectedIsLast(init);
      LastPropertyStep(init, meta, "og:title");
      LastPropertyStep(init, meta, "og:type");
      LastPropertyStep(init, meta, "og:image");
      LastPropertyStep(init, meta, "og:site_name");
      LastPropertyStep(init, meta, "og:description");
    }
  }

  /** OpenGraphData: the OpenGraph properties, each the last value given. */
  class OpenGraphData {
    var title: Option<string>
    var ogType: Option<string>
    var image: Option<string>
    var siteName: Option<string>
    var description: Option<string>

    function Properties(): OgProperties
      reads this
    {
      OgProperties(title, ogType, image, siteName, description)
    }

    /** The body of the constructor's loop: the property one meta element
        names takes its content. */
    method Apply(element: Node)
      modifies this
      ensures Properties() == Assigned(old(Properties()), element)
    {
      var content := ContentOf(element);
      var property := PropertyOf(element);
      if property == "og:image" {
        image := Some(content);
      } else if property == "og:site_name" {
        siteName := Some(content);
      } else if property == "og:title" {
        title := Some(content);
      } else if property == "og:type" {
        ogType := Some(content);
      } else if property == "og:description" {
        description := Some(content);
      }
    }

    constructor (head: Node)
      ensures Properties() == Collected(MetaTags(head))
      ensures title == LastProperty(MetaTags(head), "og:title")
      ensures ogType == LastProperty(MetaTags(head), "og:type")
      ensures image == LastProperty(MetaTags(head), "og:image")
      ensures siteName == LastProperty(MetaTags(head), "og:site_name")
      ensures description == LastProperty(MetaTags(head), "og:description")
    {
      var metas: seq<Node> := MetaTags(head);
      title, ogType, image, siteName, description := None, None, None, None, None;
      new;
      var i := 0;
      while i < |metas|
        invariant 0 <= i <= |metas|
        invariant Properties() == Collected(metas[..i])
      {
        Apply(metas[i]);
        CollectedStep(metas, i);
        i := i + 1;
      }
      assert metas[..i] == metas;
      CollectedIsLast(metas);
    }
  }

  /** GetMetaData: with no head every field is null; otherwise the feed URL,
      the normalized title and OpenGraph texts, and the OpenGraph image made
      absolute. */
  method GetMetaData(res: Resolver, parser: MetaDataParser) returns (m: HtmlMetaData)
    ensures parser.head.None? ==> m == HtmlMetaData(None, None, None, None, None, None, None)
    ensures parser.head.Some? ==>
      var head := parser.head.value;
      var metas := MetaTags(head);
      && m.feedUrl == FindFeedUrl(res, parser.pageUrl, head)
      && m.metaTitle == Some(MetaTitle(head))
      && m.ogDescription == Some(Normalize(LastProperty(metas, "og:description")))
      && m.ogImage == CreateUrl(res, parser.pageUrl, LastProperty(metas, "og:image"))
      && m.ogSiteName == Some(Normalize(LastProperty(metas, "og:site_name")))
      && m.ogTitle == Some(Normalize(LastProperty(metas, "og:title")))
      && m.ogType == Some(Normalize(LastProperty(metas, "og:type")))
  {
    if parser.head.Some? {
      var head := parser.head.value;
      var openGraph := new OpenGraphData(head);
      m := HtmlMetaData(
        FindFeedUrl(res, parser.pageUrl, head),
        Some(MetaTitle(head)),
        Some(Normalize(openGraph.description)),
        CreateUrl(res, parser.pageUrl, openGraph.image),
        Some(Normalize(openGraph.siteName)),
        Some(Normalize(openGraph.title)),
        Some(Normalize(openGraph.ogType)));
    } else {
      m := HtmlMetaData(None, None, None, None, None, None, None);
    }
  }
}
