# HtmlToGmi leaf components, modelled in Dafny

HtmlToGmi turns HTML pages into Gemtext. This project models the parts of the
converter that do not depend on the tag-by-tag translator, and proves what
they promise:

- the **GemtextBuffer** (`line_buffer.dfy`) is a text accumulator. It has a
  pending line prefix that is written once, a blockquote mode that puts `>`
  before non-blank text at the start of a line, a multi-line append, "ensure
  at line start", and reading back or removing the last line. It is a class
  whose fields the methods update. Each method is proved to follow a pure
  function on the buffer's `State`, and the lemmas about those functions
  state the line discipline.
- the **LinkCollection** (`link_collection.dfy`) is the hyperlink registry:
  one entry per URL, a discovery counter, and a set of already used link
  texts (lower-cased). It is a class over a `map`, a `set` and an `int`,
  with the invariant that entries are keyed by their own URL and numbered
  distinctly within 1..counter.
- **white-space normalisation**: `TextConverter.CollapseWhitespace`,
  `StringUtils.RemoveNewlines`, `AbstractParser.Normalize` and the metadata
  parser's `Normalize`.
- the **TextConverter** tree walk (`text_converter.dfy`). It extracts plain
  text from a node tree into a GemtextBuffer, and is proved against a pure
  walk function.
- **image and caption resolution** in `Html/ImageParser.cs`,
  `Html/MediaConverter.cs` and `Special/MediaConverter.cs`. This covers:
  - the order in which source attributes are tried;
  - URL creation that keeps only absolute HTTP(S) results and swallows
    exceptions;
  - the caption fallback chains.
- the **TableReducer**: the layout-table heuristic, and the row-major
  gathering of cell children into a list field that is never cleared.
- the **MetaDataParser**: the first feed link that passes the filter, the
  last-wins assignment of OpenGraph properties (a class whose constructor
  loops over the meta elements), and the assembled metadata record.
- **FeedItem.GetTimeAgo**: the bucketing of a time difference into a phrase.

These modules are shared:

- `Text` writes out the .NET string operations on `seq<char>`: `Char.IsWhiteSpace` as an explicit set, `Trim`, ASCII lower-casing, `Split`, `LastIndexOf`, and the `\s+` to single space replacement.
- `Dom` models the tree as a value: text nodes, elements with attributes and children, and every other node kind as one case. `QuerySelector(tag)` is the first descendant element with that tag in document order.
- `Uris` stands in for `System.Uri`. A `Resolver` value holds the two constructors `new Uri(base, s)` and `new Uri(s)`, each returning a Uri or throwing.

Image sources are read only from `data-src`, `data-lazy-src` and `src`
(`srcset` is never consulted), and `EnsureAtLineStart` takes no argument.
The caption of a figure parsed by `ImageParser` is the img's own caption:
the figcaption text is computed and then discarded. `ImageParsing.ParseFigure`
models that behaviour; the figcaption-first caption the comments describe is
`ImageParsing.ParseFigureIntended`, listed under Findings.

## Model

| member | source | states |
|---|---|---|
| LineBuffer.WriteQuote | GemtextBuffer.cs:158-164 | at most one `>` is added, and it is added exactly in blockquote mode, at a line start, before text that is not all white space |
| LineBuffer.WritePrefix | GemtextBuffer.cs:148-156 | a pending prefix is written once, then cleared |
| LineBuffer.SegmentAppended | GemtextBuffer.cs:59-61 | appending one segment clears the prefix and keeps the old content followed by the prefix |
| LineBuffer.LineAppended | GemtextBuffer.cs:85-90 | AppendLine clears the prefix, keeps old content and prefix, and leaves the buffer at a line start |
| LineBuffer.Appended | GemtextBuffer.cs:51-62 | Append never removes text: old content followed by the prefix is a prefix of the new content, and the prefix is cleared |
| LineBuffer.LinesAppended | GemtextBuffer.cs:65-83 | the multi-line append also only extends the content and clears the prefix |
| LineBuffer.EnsureLineStart | GemtextBuffer.cs:92-103 | afterwards the buffer is at a line start; at most one character is added, and only when it was not at a line start; a pending prefix is dropped only when the buffer already was at a line start |
| LineBuffer.LastLineStart | GemtextBuffer.cs:114-123 | the index is the last '\n' before the trailing white space, or 0 when there is none |
| LineBuffer.AppendPlain | GemtextBuffer.cs:51-62 | outside blockquote mode Append writes the pending prefix and then exactly the given text, newlines included |
| LineBuffer.AppendLinesPlain | GemtextBuffer.cs:65-83 | outside blockquote mode splitting and re-appending the pieces writes them joined by '\n' |
| LineBuffer.AppendQuoted | GemtextBuffer.cs:158-164 | in blockquote mode at a line start with no prefix pending, every non-blank line of the appended text gets its own `>` |
| LineBuffer.AppendLinesQuoted | GemtextBuffer.cs:65-83 | the same for the split pieces: AppendLine on each but the last, Append on the last |
| LineBuffer.SegmentQuoted | GemtextBuffer.cs:158-164 | in blockquote mode, a segment at a line start with no prefix pending is preceded by `>` exactly when it is not blank |
| LineBuffer.LineQuoted | GemtextBuffer.cs:85-90 | AppendLine at a line start with no prefix pending, in blockquote mode, writes the quoted line and a newline |
| LineBuffer.PrefixHidesQuote | GemtextBuffer.cs:148-164 | the `>` check runs after the prefix is written, so a non-empty prefix not ending in '\n' keeps `>` out |
| LineBuffer.LinesAppendedStep | GemtextBuffer.cs:72-82 | one loop step: AppendLine for a piece before the last, Append for the last |
| LineBuffer.LastLineHasNoNewline | GemtextBuffer.cs:109-123 | the trimmed text from the last line start holds no newline |
| LineBuffer.GemtextBuffer.constructor | GemtextBuffer.cs:29-38 | an empty buffer, no prefix, not in blockquote mode |
| LineBuffer.GemtextBuffer.HasContent | GemtextBuffer.cs:18 | true exactly when the content is non-empty |
| LineBuffer.GemtextBuffer.AtLineStart | GemtextBuffer.cs:23-24 | true exactly when the content is empty or ends with '\n' |
| LineBuffer.GemtextBuffer.HasLinePrefix | GemtextBuffer.cs:26-27 | true exactly when a prefix is pending |
| LineBuffer.GemtextBuffer.Reset | GemtextBuffer.cs:40-44 | content empty, prefix cleared, blockquote flag kept |
| LineBuffer.GemtextBuffer.SetLinePrefix | GemtextBuffer.cs:46-49 | the prefix is replaced (null included) and nothing else changes |
| LineBuffer.GemtextBuffer.Append | GemtextBuffer.cs:51-62 | the new state is Appended of the old |
| LineBuffer.GemtextBuffer.AppendMultiline | GemtextBuffer.cs:65-83 | the loop leaves the state LinesAppended of the old state and the split pieces |
| LineBuffer.GemtextBuffer.AppendLine | GemtextBuffer.cs:85-90 | the new state is LineAppended of the old |
| LineBuffer.GemtextBuffer.EnsureAtLineStart | GemtextBuffer.cs:92-103 | the new state is EnsureLineStart of the old |
| LineBuffer.GemtextBuffer.GetLastLineStartIndex | GemtextBuffer.cs:114-123 | a position in the content holding '\n', or 0 |
| LineBuffer.GemtextBuffer.GetLastLine | GemtextBuffer.cs:109-112 | the last line is trimmed and holds no newline |
| LineBuffer.GemtextBuffer.RemoveLastLine | GemtextBuffer.cs:125-146 | content without '\n' is emptied; otherwise the text before the last line start plus a newline remains (empty when that index is 0); the result is a prefix of the old content and at a line start |
| LineBuffer.GemtextBuffer.HandleLinePrefix | GemtextBuffer.cs:148-156 | the new state is WritePrefix of the old |
| LineBuffer.GemtextBuffer.HandleBlockQuote | GemtextBuffer.cs:158-164 | `>` is added only in blockquote mode, at a line start, before non-blank text |
| TextConversion.CollapseWhitespace | TextConverter.cs:125-134 | no '\n' or '\r' in the result; identity on text without them; never longer; empty iff the input is; trimmed input stays trimmed |
| TextConversion.CollapseIdempotent | TextConverter.cs:125-134 | collapsing twice is collapsing once |
| TextConversion.ImageText | TextConverter.cs:108-118 | "" exactly when both alt and title are missing or empty; otherwise the text is framed by `[Image: ` and `] ` |
| TextConversion.ImageTextChoice | TextConverter.cs:108-118 | `[Image: alt] `, else `[Image: title] ` when alt is missing or empty, else "" |
| TextConversion.ConvertedText | TextConverter.cs:27-29 | with collapsing on, the text has no '\n' or '\r' |
| TextConversion.Walk | TextConverter.cs:32-103 | the buffer state after ExtractInnerTextHelper on one node; it never shortens the content |
| TextConversion.WalkAll | TextConverter.cs:105-106 | the state after the children are walked in order; it never shortens the content |
| TextConversion.WalkGrows | TextConverter.cs:32-103 | walking a node only appends to what the buffer holds |
| TextConversion.WalkAllGrows | TextConverter.cs:105-106 | walking the children only appends |
| TextConversion.LeafContributions | TextConverter.cs:39-85 | a blank text node with '\n' adds nothing; any other text node adds its text; br adds one newline; img adds its label only when images are converted; figure, picture, table, style and script add nothing |
| TextConversion.BlockEndsLine | TextConverter.cs:87-93 | a block element leaves the buffer at a line start |
| TextConversion.TextConverter.constructor | TextConverter.cs:14-21 | both flags off, a fresh empty buffer |
| TextConversion.TextConverter.Convert | TextConverter.cs:23-30 | the result is the walk from an empty buffer, collapsed when asked: it depends only on the node and the settings |
| TextConversion.TextConverter.ExtractInnerTextHelper | TextConverter.cs:32-103 | the buffer ends as Walk of its old state |
| TextConversion.TextConverter.ExtractChildrenText | TextConverter.cs:105-106 | the loop over the children leaves the buffer as WalkAll of its old state |
| StringUtils.RemoveNewlines | Special/StringUtils.cs:11-20 | no '\n' or '\r'; identity on text without them (the empty string included); never longer |
| StringUtils.RemoveNewlinesIdempotent | Special/StringUtils.cs:11-20 | applying it twice is applying it once |
| StringUtils.SameAsCollapseWhitespace | Special/StringUtils.cs:11-20 | it is the same function as CollapseWhitespace |
| Parsing.Resolution | AbstractParser.cs:26-36 | with no base and no "://" the Uri stays null; otherwise it is the combined or the parsed Uri |
| Parsing.CreateUrl | AbstractParser.cs:20-46 | null for null or empty input; a result is absolute HTTP(S); no base and no "://" gives null; a result exists exactly when resolution yields an absolute HTTP(S) Uri; ImageParser's private CreateUrl (Html/ImageParser.cs:149-175) is the same code and is modelled by this function |
| Parsing.CreateUrlCatches | AbstractParser.cs:43-45 | an exception during resolution gives null |
| Parsing.Normalize | AbstractParser.cs:53-57 | null gives ""; the result is trimmed, has no '\n' or '\r', is never longer, and is empty iff the input is all white space |
| Parsing.NormalizeIdempotent | AbstractParser.cs:53-57 | normalizing again changes nothing |
| TableReduction.IsLayoutTable | Html/TableReducer.cs:48-59 | throws exactly for a table without rows (the first row is indexed); never null; a layout table has one to three rows |
| TableReduction.LayoutTableCases | Html/TableReducer.cs:48-59 | no rows throws; one row is a layout table; four or more rows never are; otherwise it is one exactly when the first row has one cell |
| TableReduction.RowNodesCount | Html/TableReducer.cs:28-31 | a row gives as many nodes as its cells have children |
| TableReduction.FlattenCount | Html/TableReducer.cs:24-41 | the table gives as many nodes as all its cells have children |
| TableReduction.RowNodesMembers | Html/TableReducer.cs:28-31 | a node is gathered from a row iff it is a child of one of its cells |
| TableReduction.FlattenMembers | Html/TableReducer.cs:26-32 | a node is gathered iff it is a child of some cell |
| TableReduction.FlattenAppend | Html/TableReducer.cs:12-17 | gathering two tables in turn is gathering their rows together |
| TableReduction.TableReducer.constructor | Html/TableReducer.cs:14-17 | the node list starts empty |
| TableReduction.TableReducer.ConvertTable | Html/TableReducer.cs:24-37 | the list grows by the cells' children in row-major order, and the div holds the whole list, earlier tables' nodes included |
| TableReduction.TableReducer.ReduceCell | Html/TableReducer.cs:40-41 | the cell's children are appended |
| ImageParsing.NewImageParser | Html/ImageParser.cs:17-23 | the base URL given and the default caption "Article Image" |
| ImageParsing.SourceFrom | Html/ImageParser.cs:123-125 | a URL comes only from a present, non-empty attribute and is absolute HTTP(S) |
| ImageParsing.GetImageUrl | Html/ImageParser.cs:119-133 | data-src, then data-lazy-src, then src: the first that resolves wins, an unresolvable one falls through, and null only when none resolves |
| ImageParsing.CaptionOrDefault | Html/ImageParser.cs:83-84 | the text when non-empty, else the default caption |
| ImageParsing.GetCaptionForImage | Html/ImageParser.cs:91-101 | alt if non-empty, else title, collapsed; the default caption when that is empty; non-empty while the default is |
| ImageParsing.FigcaptionText | Html/ImageParser.cs:106 | the collapsed figcaption text: no newline, "" when there is no figcaption |
| ImageParsing.GetCaptionForFigureAsWritten | Html/ImageParser.cs:103-113 | the figure caption always equals the img's own caption |
| ImageParsing.FigcaptionIgnored | Html/ImageParser.cs:103-113 | a figure captioned "A cat" around an uncaptioned img gets "Article Image" |
| ImageParsing.GetCaptionForFigure | Html/ImageParser.cs:103-113 | the non-empty figcaption text, else the img's caption; non-empty while the default is |
| ImageParsing.FigcaptionKept | Html/ImageParser.cs:103-113 | the same figure keeps "A cat" |
| ImageParsing.ParseImg | Html/ImageParser.cs:32-45 | null exactly when no URL resolves; otherwise an HTTP(S) source with the image caption |
| ImageParsing.ParseFigure | Html/ImageParser.cs:54-75 | null when there is no img, or exactly when its URL does not resolve; otherwise an HTTP(S) source captioned with the img's own caption, as the code computes it |
| ImageParsing.ParseFigureIntended | Html/ImageParser.cs:54-113 | the corrected figure parse: null exactly when ParseFigure is, the same source, and the figcaption text as caption whenever it is non-empty |
| HtmlMedia.UrlFrom | Html/MediaConverter.cs:97-113 | a result is absolute HTTP(S); with no page URL there is none |
| HtmlMedia.UrlFromCombines | Html/MediaConverter.cs:97-108 | a result comes from a present attribute whose trimmed value is non-empty, combined with the page URL |
| HtmlMedia.GetUrl | Html/MediaConverter.cs:93-116 | data-src, then data-lazy-src, then src; the first usable one wins, one that throws falls through, null only when none is usable |
| HtmlMedia.GetAlt | Html/MediaConverter.cs:81-86 | the collapsed alt text, else "Article Image"; never empty |
| HtmlMedia.GetAltReadsOnlyAlt | Html/MediaConverter.cs:81-86 | title and other attributes never matter |
| HtmlMedia.GetFigCaption | Html/MediaConverter.cs:88-91 | the collapsed figcaption text: no newline, empty iff the text is |
| HtmlMedia.FindCaption | Html/MediaConverter.cs:75-79 | the figcaption text when non-empty, else GetAlt; never empty |
| HtmlMedia.ConvertImg | Html/MediaConverter.cs:31-43 | null iff GetUrl is; otherwise captioned by GetAlt |
| HtmlMedia.ConvertFigure | Html/MediaConverter.cs:52-73 | null when there is no img, or exactly when its URL fails; otherwise captioned by FindCaption, never empty |
| SpecialMedia.GetUrl | Special/MediaConverter.cs:83-92 | data-src when non-empty, else src (possibly null), unchecked |
| SpecialMedia.GetAlt | Special/MediaConverter.cs:71-76 | the trimmed alt, or "Article Image" when that is empty; never empty |
| SpecialMedia.GetFigCaption | Special/MediaConverter.cs:78-81 | the figcaption text without newlines, never longer |
| SpecialMedia.FindCaption | Special/MediaConverter.cs:65-69 | the figcaption text when non-empty, else GetAlt; never empty |
| SpecialMedia.ConvertImg | Special/MediaConverter.cs:21-33 | null iff GetUrl is; an address `new Uri` rejects throws to the caller; otherwise captioned by GetAlt |
| SpecialMedia.ConvertFigure | Special/MediaConverter.cs:42-63 | null when there is no img or no URL; a rejected address throws; otherwise captioned by FindCaption, never empty |
| MetaData.Normalize | Html/MetaDataParser.cs:47-48 | null gives ""; the result is trimmed with no '\n', never longer, and is the trimmed text when there was no '\n' |
| MetaData.CreateUrl | Html/MetaDataParser.cs:54-71 | null for empty input, a missing page URL or an exception; a result is absolute, with no scheme check |
| MetaData.MetaTitle | Html/MetaDataParser.cs:50-51 | the normalized title text, "" when there is no title element |
| MetaData.Links | Html/MetaDataParser.cs:75 | the link elements below the head |
| MetaData.IsFeedLink | Html/MetaDataParser.cs:76-80 | a feed link is an element with an href, rel "alternate", and type RSS or Atom, compared exactly |
| MetaData.FirstFeedLink | Html/MetaDataParser.cs:75-81 | the first link passing the feed filter; none before it passes |
| MetaData.FindFeedUrl | Html/MetaDataParser.cs:73-86 | null when no link passes the filter; otherwise exactly CreateUrl of the first passing link's href, so a bad href there gives null even when a later link would resolve |
| MetaData.CommentFeedsSkipped | Html/MetaDataParser.cs:80 | a title mentioning "comment" in any case excludes the link |
| MetaData.MetaTags | Html/MetaDataParser.cs:93 | meta elements that have a property attribute |
| MetaData.LastProperty | Html/MetaDataParser.cs:93-114 | null iff no meta element sets the property; otherwise the content of one that does |
| MetaData.LastPropertyStep | Html/MetaDataParser.cs:93-114 | a later meta element wins for its own property and leaves the others |
| MetaData.Assigned | Html/MetaDataParser.cs:95-114 | one meta element sets the property it names (lower-cased) to its content and leaves the other four as they were |
| MetaData.Collected | Html/MetaDataParser.cs:93-114 | after the loop a property is set exactly when some meta element names it |
| MetaData.CollectedIsLast | Html/MetaDataParser.cs:93-114 | the loop's assignments leave each property with its last value |
| MetaData.OpenGraphData.Apply | Html/MetaDataParser.cs:95-114 | one element sets the property it names (case-insensitively) to its content, "" when missing |
| MetaData.OpenGraphData.constructor | Html/MetaDataParser.cs:91-116 | each of the five properties ends as its last setting in the head, null when never set |
| MetaData.GetMetaData | Html/MetaDataParser.cs:27-45 | with no head every field is null; otherwise the feed URL, the normalized title and OpenGraph texts, and the absolute OpenGraph image |
| FeedItems.NatToString | NewsFeeds/FeedItem.cs:54 | decimal digits with no leading zero |
| FeedItems.ParseFormatted | NewsFeeds/FeedItem.cs:54 | the digits read back give the number |
| FeedItems.GetTimeAgo | NewsFeeds/FeedItem.cs:25-70 | "" with no publication date; non-empty for any non-negative difference |
| FeedItems.TimeAgoBuckets | NewsFeeds/FeedItem.cs:36-69 | from the future, just now, 1 minute, m minutes, 1 hour, h hours, yesterday, n days, with m, h and n the whole units elapsed |
| Links.LinkCollection.constructor | Models/LinkCollection.cs:11-15 | no entries, no seen text, counter 0 |
| Links.LinkCollection.Count | Models/LinkCollection.cs:9 | the number of stored URLs |
| Links.LinkCollection.ContainsUrl | Models/LinkCollection.cs:54-55 | whether the URL has an entry |
| Links.LinkCollection.AddHyperlink | Models/LinkCollection.cs:17-18 | the same as AddLink with the link's URL and text |
| Links.LinkCollection.AddLink | Models/LinkCollection.cs:20-52 | keeps the numbering invariant and does exactly what AddLinkSpec says |
| Links.AddLinkSpec | Models/LinkCollection.cs:20-52 | AddLink adds at most the given URL and advances the counter by one exactly when the URL is new and its lower-cased text unused |
| Links.AddLinkMonotone | Models/LinkCollection.cs:20-52 | the counter never goes back, no entry or seen text is lost, no number changes, other URLs' entries are untouched |
| Links.SeenTextSuppresses | Models/LinkCollection.cs:25-28 | a new URL whose lower-cased text was used is not added |
| Links.AddWellNumbered | Models/LinkCollection.cs:31-39 | a new entry numbered counter + 1 keeps the numbers distinct and within 1..counter |
| Links.RetextWellNumbered | Models/LinkCollection.cs:46-50 | replacing an entry's text keeps the numbering |
| Links.RemoveWellNumbered | Models/LinkCollection.cs:57-58 | removing entries keeps the numbering |
| Links.LinkCollection.RemoveLinks | Models/LinkCollection.cs:57-58 | exactly the given URLs' entries go; counter and seen text unchanged |
| Links.InOrder | Models/LinkCollection.cs:60-61 | every entry listed once, sorted by detection order |
| Links.ListsCons | Models/LinkCollection.cs:60-61 | the first entry followed by the others in order lists them all |
| Links.LinkCollection.GetLinks | Models/LinkCollection.cs:60-61 | every entry, each once, ascending by OrderDetected |

## Left out

- Encodings/HtmlDecoder.cs and Encoding/EncodingConverter.cs are not part of this model: they decode bytes and parse HTML through library code.
- NewsFeeds/FeedConverter.cs is not part of this model: it maps a feed library's object model and calls helpers not defined in these files.
- HtmlConverter.cs and the tag translator it calls are not part of this model.
- `HtmlConverter.ShouldDisplayAsBlock` is not visible. It is the `isBlock` function given to the TextConverter constructor.
- `System.Uri` parsing and resolution (section 5.2 of RFC 3986) are represented by the `Resolver` value. Equality of Uris is structural: two Uris are equal exactly when their texts are. .NET `Uri.Equals`, which keys the dictionary of Models/LinkCollection.cs, ignores the fragment and the user info. So `https://example.org/page#a` and `https://example.org/page#b` are one entry in the program and two in the model (`Links.LinkCollection.AddLink`, `ContainsUrl`, `RemoveLinks`).
- `TextConverter.ExtractInnerTextHelper` also returns early for a null node and for elements that are not HTML elements (SVG, MathML). The model has no null nodes, and such elements fall under `OtherNode`. Because an `OtherNode` has no children in the model, `Dom.TextContent` gives "" for it, while the library's `TextContent` includes the text inside SVG and MathML elements; a figcaption or title holding such markup therefore has less text in the model than in the program.
- `Trim`, `ToLower` and `\s` are culture-insensitive here. White space is the explicit set of `Char.IsWhiteSpace`, and lower-casing is ASCII only.
- Strings are sequences of UTF-16 code units taken as `char`. Surrogate pairs are not treated specially.
- `GemtextBuffer.AppendLine` is given its argument explicitly. The default argument "" is passed where the source omits it.
- `Environment.NewLine` is "\n".
- Links.LinkCollection.AddLink: the counter is an unbounded integer, so a 32-bit overflow after 2^31 links is not modelled.
- Links.LinkCollection.GetLinks: the source returns the stored Hyperlink objects, so a caller may mutate them. The model returns values, so aliasing is not modelled.
- TableReduction.TableReducer.ConvertTable: `AppendChild` moves a node out of its old parent. The model only lists the nodes, so detaching them from the table (or from an earlier div) is not modelled.
- MetaData.GetMetaData: the source keeps the OpenGraphData in a field of the parser. The model creates it locally, since nothing else reads that field.
- FeedItems.GetTimeAgo: times are whole seconds, and the difference must fit an `int`. The day count is the non-negative quotient by 86400, since the negative case returns before it is used. `DateTime`, `TimeSpan` and sub-second truncation are not modelled, and the double division before `Math.Floor` is integer division.
- SpecialMedia.ConvertImg and SpecialMedia.ConvertFigure: an exception from `new Uri` is the `Throws` outcome. What the caller then does with it is not modelled.

## Findings

| source | as written | input that shows it | evidently intended | confidence | as-written member | corrected member |
|---|---|---|---|---|---|---|
| Html/ImageParser.cs:103-113 | the figcaption text is computed, then overwritten by the img's caption, so a figure never gets its figcaption | a figure holding an img with only `src` and a figcaption "A cat" gets "Article Image" | the figcaption text when non-empty, else the img's caption (as the comments and the parallel MediaConverter do) | not executed | ImageParsing.GetCaptionForFigureAsWritten, ImageParsing.FigcaptionIgnored, ImageParsing.ParseFigure | ImageParsing.GetCaptionForFigure, ImageParsing.FigcaptionKept, ImageParsing.ParseFigureIntended |
