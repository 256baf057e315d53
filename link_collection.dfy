/** The registry of hyperlinks found in a page: one entry per URL, numbered
    in the order the links were discovered. */
module Links {
  import opened Text
  import opened Uris

  /** A Hyperlink: its URL, its text and when it was detected. */
  datatype Hyperlink = Hyperlink(url: Uri, text: string, orderDetected: int)

  /** The entries of `links` in the order of their numbers. */
  predicate SortedByOrder(s: seq<Hyperlink>) {
    forall i, j :: 0 <= i < j < |s| ==> s[i].orderDetected < s[j].orderDetected
  }

  /** Entries keyed by their own URL, numbered distinctly within 1..counter. */
  predicate WellNumbered(links: map<Uri, Hyperlink>, counter: int) {
    && counter >= 0
    && (forall u :: u in links ==> links[u].url == u && 1 <= links[u].orderDetected <= counter)
    && (forall u, v :: u in links && v in links && u != v ==> links[u].orderDetected != links[v].orderDetected)
  }

  /** `u` has the smallest number in `links`. */
  predicate IsFirst(links: map<Uri, Hyperlink>, u: Uri) {
    u in links && forall v :: v in links ==> links[u].orderDetected <= links[v].orderDetected
  }

  /** Some entry has the smallest number. */
  lemma FirstExists(links: map<Uri, Hyperlink>, counter: int)
    requires WellNumbered(links, counter) && |links| > 0
    ensures exists u :: IsFirst(links, u)
  {
    var u := FirstWitness(links, counter);
    assert IsFirst(links, u);
  }

  lemma {:induction false} FirstWitness(links: map<Uri, Hyperlink>, counter: int) returns (u: Uri)
    requires WellNumbered(links, counter) && |links| > 0
    ensures IsFirst(links, u)
    decreases |links|
  {
    var w :| w in links;
    var rest := links - {w};
    assert |rest| == |links| - 1;
    assert forall v :: v in links ==> v == w || v in rest;
    if |rest| == 0 {
      assert rest.Keys == {};
      u := w;
    } else {
      var m := FirstWitness(rest, counter);
      u := if links[w].orderDetected < links[m].orderDetected then w else m;
    }
  }

  /** `r` lists every entry of `links` once, in increasing order of number. */
  predicate Lists(links: map<Uri, Hyperlink>, r: seq<Hyperlink>) {
    && |r| == |links|
    && (forall i :: 0 <= i < |r| ==> r[i].url in links && links[r[i].url] == r[i])
    && (forall u :: u in links ==> links[u] in r)
    && SortedByOrder(r)
  }

  /** Removing an entry keeps the numbering well formed. */
  lemma RemoveWellNumbered(links: map<Uri, Hyperlink>, counter: int, gone: set<Uri>)
    requires WellNumbered(links, counter)
    ensures WellNumbered(links - gone, counter)
  {
  }

  /** The URLs of the first `n` links of `ls`. */
  function UrlsOf(ls: seq<Hyperlink>, n: nat): (r: set<Uri>)
    requires n <= |ls|
    ensures forall u :: u in r <==> exists k :: 0 <= k < n && ls[k].url == u
  {
    set k | 0 <= k < n :: ls[k].url
  }

  /** Removing one more URL is removing the longer prefix's URLs. */
  lemma RemoveOneMore(links: map<Uri, Hyperlink>, ls: seq<Hyperlink>, i: nat)
    requires i < |ls|
    ensures links - UrlsOf(ls, i + 1) == (links - UrlsOf(ls, i)) - {ls[i].url}
  {
    assert UrlsOf(ls, i + 1) == UrlsOf(ls, i) + {ls[i].url};
  }

  /** A new entry numbered one past the counter keeps the numbering well
      formed once the counter moves on. */
  lemma AddWellNumbered(links: map<Uri, Hyperlink>, counter: int, url: Uri, text: string)
    requires WellNumbered(links, counter) && url !in links
    ensures WellNumbered(links[url := Hyperlink(url, text, counter + 1)], counter + 1)
  {
  }

  /** Replacing an entry's text keeps the numbering well formed. */
  lemma RetextWellNumbered(links: map<Uri, Hyperlink>, counter: int, url: Uri, text: string)
    requires WellNumbered(links, counter) && url in links
    ensures WellNumbered(links[url := links[url].(text := text)], counter)
  {
  }

  /** In a well-numbered map the first entry is numbered below every other. */
  lemma StrictlyFirst(links: map<Uri, Hyperlink>, counter: int, u: Uri)
    requires WellNumbered(links, counter) && IsFirst(links, u)
    ensures forall v :: v in links && v != u ==> links[u].orderDetected < links[v].orderDetected
  {
  }

  /** The first entry followed by the rest in order lists them all. */
  lemma ListsCons(links: map<Uri, Hyperlink>, u: Uri, tail: seq<Hyperlink>)
    requires u in links && forall v :: v in links ==> links[v].url == v
    requires forall v :: v in links && v != u ==> links[u].orderDetected < links[v].orderDetected
    requires Lists(links - {u}, tail)
    ensures Lists(links, [links[u]] + tail)
  {
    ListsRest(links, u, tail);
    ConsSorted(links[u], tail);
    ConsEntries(links, u, tail);
    ConsCovers(links, u, tail);
  }

  /** What listing the other entries says in terms of the whole map. */
  lemma ListsRest(links: map<Uri, Hyperlink>, u: Uri, tail: seq<Hyperlink>)
    requires u in links
    requires Lists(links - {u}, tail)
    ensures |tail| + 1 == |links|
    ensures forall i :: 0 <= i < |tail| ==>
      tail[i].url in links && tail[i].url != u && links[tail[i].url] == tail[i]
    ensures forall v :: v in links && v != u ==> links[v] in tail
  {
    var rest := links - {u};
    assert |rest| == |links| - 1;
    forall i | 0 <= i < |tail|
      ensures tail[i].url in links && tail[i].url != u && links[tail[i].url] == tail[i]
    {
      assert tail[i].url in rest;
    }
    forall v | v in links && v != u ensures links[v] in tail {
      assert v in rest && links[v] == rest[v];
    }
  }

  /** Every listed entry is the map's entry for its URL, the first included. */
  lemma ConsEntries(links: map<Uri, Hyperlink>, u: Uri, tail: seq<Hyperlink>)
    requires u in links && links[u].url == u
    requires forall i :: 0 <= i < |tail| ==> tail[i].url in links && links[tail[i].url] == tail[i]
    ensures var r := [links[u]] + tail;
            forall i :: 0 <= i < |r| ==> r[i].url in links && links[r[i].url] == r[i]
  {
    var r := [links[u]] + tail;
    forall i | 0 <= i < |r| ensures r[i].url in links && links[r[i].url] == r[i] {
      if i > 0 {
        assert r[i] == tail[i - 1];
      }
    }
  }

  /** Every entry of the map is listed, the first included. */
  lemma ConsCovers(links: map<Uri, Hyperlink>, u: Uri, tail: seq<Hyperlink>)
    requires forall v :: v in links && v != u ==> links[v] in tail
    requires u in links
    ensures forall v :: v in links ==> links[v] in [links[u]] + tail
  {
  }

  /** An entry numbered below all of a sorted list goes in front of it. */
  lemma ConsSorted(first: Hyperlink, tail: seq<Hyperlink>)
    requires SortedByOrder(tail)
    requires forall i :: 0 <= i < |tail| ==> first.orderDetected < tail[i].orderDetected
    ensures SortedByOrder([first] + tail)
  {
    var r := [first] + tail;
    forall i, j | 0 <= i < j < |r| ensures r[i].orderDetected < r[j].orderDetected {
      assert r[j] == tail[j - 1];
      if i > 0 {
        assert r[i] == tail[i - 1];
      }
    }
  }

  /** The entries of a well-numbered map, in increasing order of number. */
  function InOrder(links: map<Uri, Hyperlink>, counter: int): (r: seq<Hyperlink>)
    requires WellNumbered(links, counter)
    ensures Lists(links, r)
    decreases |links|
  {
    if |links| == 0 then []
    else
      FirstExists(links, counter);
      var u :| IsFirst(links, u);
      RemoveWellNumbered(links, counter, {u});
      assert |links - {u}| < |links|;
      var tail := InOrder(links - {u}, counter);
      StrictlyFirst(links, counter, u);
      ListsCons(links, u, tail);
      [links[u]] + tail
  }

  class LinkCollection {
    var links: map<Uri, Hyperlink>
    var seenText: set<string>
    var counter: int

    predicate Valid()
      reads this
    {
      WellNumbered(links, counter)
    }

    constructor ()
      ensures Valid() && links == map[] && seenText == {} && counter == 0
    {
      links := map[];
      seenText := {};
      counter := 0;
    }

    /** Count: the number of stored URLs. */
    function Count(): (n: nat)
      reads this
      ensures n == |links.Keys|
    {
      |links|
    }

    /** ContainsUrl: whether the URL has an entry. */
    function ContainsUrl(url: Uri): (b: bool)
      reads this
      ensures b <==> url in links.Keys
    {
      url in links
    }

    /** AddLink(Hyperlink): the link's URL and text; its number is ignored. */
    method AddHyperlink(link: Hyperlink)
      requires Valid()
      modifies this
      ensures Valid()
      ensures AddLinkSpec(old(links), old(seenText), old(counter), link.url, link.text, links, seenText, counter)
    {
      AddLink(link.url, link.text);
    }

    /** AddLink: an unknown URL is added, numbered next, unless its text
        (lower-cased) was already used; a known URL takes unused text that
        is strictly longer than its own. */
    method AddLink(url: Uri, linkText: string)
      requires Valid()
      modifies this
      ensures Valid()
      ensures AddLinkSpec(old(links), old(seenText), old(counter), url, linkText, links, seenText, counter)
    {
      var normalized := Lower(linkText);
      if !ContainsUrl(url) {
        if normalized !in seenText {
          AddWellNumbered(links, counter, url, linkText);
          seenText := seenText + {normalized};
          counter := counter + 1;
          links := links[url := Hyperlink(url, linkText, counter)];
        }
      } else if normalized !in seenText {
        if |links[url].text| < |linkText| {
          RetextWellNumbered(links, counter, url, linkText);
          links := links[url := links[url].(text := linkText)];
          seenText := seenText + {normalized};
        }
      }
    }

    /** RemoveLinks: the entries of the given links' URLs go; nothing else
        changes. */
    method RemoveLinks(linksToRemove: seq<Hyperlink>)
      requires Valid()
      modifies this
      ensures Valid()
      ensures links == old(links) - UrlsOf(linksToRemove, |linksToRemove|)
      ensures seenText == old(seenText) && counter == old(counter)
    {
      var i := 0;
      while i < |linksToRemove|
        invariant 0 <= i <= |linksToRemove|
        invariant Valid()
        invariant links == old(links) - UrlsOf(linksToRemove, i)
        invariant seenText == old(seenText) && counter == old(counter)
      {
        RemoveOneMore(old(links), linksToRemove, i);
        RemoveWellNumbered(links, counter, {linksToRemove[i].url});
        links := links - {linksToRemove[i].url};
        i := i + 1;
      }
    }

    /** GetLinks: every entry, in the order the links were detected. */
    function GetLinks(): (r: seq<Hyperlink>)
      requires Valid()
      reads this
      ensures |r| == |links|
      ensures forall i :: 0 <= i < |r| ==> r[i].url in links && links[r[i].url] == r[i]
      ensures forall u :: u in links ==> links[u] in r
      ensures SortedByOrder(r)
    {
      InOrder(links, counter)
    }
  }

  /** What AddLink does, case by case. */
  predicate AddLinkSpec(links: map<Uri, Hyperlink>, seen: set<string>, counter: int,
                        url: Uri, text: string,
                        links': map<Uri, Hyperlink>, seen': set<string>, counter': int)
    ensures AddLinkSpec(links, seen, counter, url, text, links', seen', counter') ==>
      && links'.Keys <= links.Keys + {url}
      && counter <= counter' <= counter + 1
      && (counter' == counter + 1 <==> url !in links && Lower(text) !in seen)
  {
    var normalized := Lower(text);
    if url !in links then
      if normalized !in seen then
        && links' == links[url := Hyperlink(url, text, counter + 1)]
        && seen' == seen + {normalized}
        && counter' == counter + 1
      else
        links' == links && seen' == seen && counter' == counter
    else if normalized !in seen && |links[url].text| < |text| then
      && links' == links[url := Hyperlink(url, text, links[url].orderDetected)]
      && seen' == seen + {normalized}
      && counter' == counter
    else
      links' == links && seen' == seen && counter' == counter
  }

  /** Whatever AddLink does, the counter never goes back, no entry is lost,
      no number changes, and the entry for the URL, if any, carries the
      URL. */
  lemma AddLinkMonotone(links: map<Uri, Hyperlink>, seen: set<string>, counter: int,
                        url: Uri, text: string,
                        links': map<Uri, Hyperlink>, seen': set<string>, counter': int)
    requires AddLinkSpec(links, seen, counter, url, text, links', seen', counter')
    ensures counter <= counter' <= counter + 1
    ensures seen <= seen'
    ensures links.Keys <= links'.Keys && links'.Keys <= links.Keys + {url}
    ensures forall u :: u in links ==> links'[u].orderDetected == links[u].orderDetected
    ensures forall u :: u in links && u != url ==> links'[u] == links[u]
  {
  }

  /** A new URL whose text, in any case, was already used is dropped. */
  lemma SeenTextSuppresses(links: map<Uri, Hyperlink>, seen: set<string>, counter: int,
                           url: Uri, text: string,
                           links': map<Uri, Hyperlink>, seen': set<string>, counter': int)
    requires AddLinkSpec(links, seen, counter, url, text, links', seen', counter')
    requires url !in links && Lower(text) in seen
    ensures url !in links' && links' == links
  {
  }
}
