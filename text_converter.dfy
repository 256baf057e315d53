/** Plain-text extraction: a walk over the tree that writes text nodes, line
    breaks and image captions into a GemtextBuffer, and the white-space
    collapsing shared by the whole converter. */
module TextConversion {
  import opened Wrappers
  import opened Text
  import opened Dom
  import opened LineBuffer

  /** CollapseWhitespace: text holding '\n' or '\r' has every white-space run
      turned into one space; other text is returned unchanged. */
  function CollapseWhitespace(text: string): (r: string)
    ensures '\n' !in r && '\r' !in r
    ensures '\n' !in text && '\r' !in text ==> r == text
    ensures |r| <= |text|
    ensures r == [] <==> text == []
    ensures Trimmed(text) ==> Trimmed(r)
  {
    if |text| > 0 && ('\n' in text || '\r' in text) then
      var spaced := ReplaceChar(ReplaceChar(text, '\r', ' '), '\n', ' ');
      assert spaced[0] == text[0] || IsWhite(text[0]);
      assert spaced[|spaced| - 1] == text[|text| - 1] || IsWhite(text[|text| - 1]);
      CollapseRuns(spaced)
    else
      text
  }

  /** Collapsing twice is collapsing once. */
  lemma CollapseIdempotent(text: string)
    ensures CollapseWhitespace(CollapseWhitespace(text)) == CollapseWhitespace(text)
  {
  }

  /** ConvertImage: "[Image: X] " where X is the alt text, or the title when
      the alt text is missing or empty; "" when both are. */
  function ImageText(img: Node): (r: string)
    ensures r == [] <==> GetAttribute(img, "alt").GetOr("") == [] && GetAttribute(img, "title").GetOr("") == []
    ensures r != [] ==> |r| > 10 && r[..8] == "[Image: " && r[|r| - 2..] == "] "
  {
    var alt := GetAttribute(img, "alt");
    var shown := if alt.None? || alt.value == "" then GetAttribute(img, "title") else alt;
    if shown.Some? && shown.value != "" then "[Image: " + shown.value + "] " else ""
  }

  lemma ImageTextChoice(img: Node)
    ensures var alt := GetAttribute(img, "alt");
            var title := GetAttribute(img, "title");
            && (alt.Some? && alt.value != "" ==> ImageText(img) == "[Image: " + alt.value + "] ")
            && ((alt.None? || alt.value == "") && title.Some? && title.value != "" ==>
                  ImageText(img) == "[Image: " + title.value + "] ")
            && ((alt.None? || alt.value == "") && (title.None? || title.value == "") ==>
                  ImageText(img) == "")
  {
  }

  /** The settings the walk depends on: ShouldConvertImages, the buffer's
      blockquote flag, and HtmlConverter.ShouldDisplayAsBlock. */
  datatype Config = Config(images: bool, quoting: bool, isBlock: Node -> bool)

  /** Elements whose content the walk ignores. */
  const Skipped: set<string> := {"figure", "picture", "table", "style", "script"}

  /** ExtractInnerTextHelper: the buffer state after walking `n`. */
  function Walk(cfg: Config, st: State, n: Node): (r: State)
    ensures |r.content| >= |st.content|
    decreases n
  {
    match n
    case TextNode(t) =>
      if Trim(t) != [] || '\n' !in t then Appended(st, cfg.quoting, t) else st
    case OtherNode => st
    case Element(name, _, children) =>
      var tag := Lower(name);
      if tag == "a" then WalkAll(cfg, st, children)
      else if tag == "br" then LineAppended(st, cfg.quoting, "")
      else if tag == "img" then
        if cfg.images then Appended(st, cfg.quoting, ImageText(n)) else st
      else if tag in Skipped then st
      else if cfg.isBlock(n) then EnsureLineStart(WalkAll(cfg, EnsureLineStart(st), children))
      else WalkAll(cfg, st, children)
  }

  /** ExtractChildrenText: the children walked in order. */
  function WalkAll(cfg: Config, st: State, ns: seq<Node>): (r: State)
    ensures |r.content| >= |st.content|
    decreases ns
  {
    if ns == [] then st else WalkAll(cfg, Walk(cfg, st, ns[0]), ns[1..])
  }

  /** Convert: the walk from an empty buffer, collapsed when asked. */
  function ConvertedText(cfg: Config, n: Node, collapse: bool): (r: string)
    ensures collapse ==> '\n' !in r && '\r' !in r
  {
    var text := Walk(cfg, State([], None), n).content;
    if collapse then CollapseWhitespace(text) else text
  }

  /** The walk only ever adds text after what is already written. */
  lemma {:induction false} WalkGrows(cfg: Config, st: State, n: Node)
    ensures StartsWith(Walk(cfg, st, n).content, st.content)
    decreases n
  {
    match n
    case TextNode(t) =>
      if Trim(t) != [] || '\n' !in t {
        StartsWithTrans(Appended(st, cfg.quoting, t).content, st.content + PrefixText(st), st.content);
      }
    case OtherNode =>
    case Element(name, _, children) =>
      var tag := Lower(name);
      if tag == "a" {
        WalkAllGrows(cfg, st, children);
      } else if tag == "br" {
        StartsWithTrans(LineAppended(st, cfg.quoting, "").content, st.content + PrefixText(st), st.content);
      } else if tag == "img" {
        if cfg.images {
          var r := Appended(st, cfg.quoting, ImageText(n));
          StartsWithTrans(r.content, st.content + PrefixText(st), st.content);
        }
      } else if tag in Skipped {
      } else if cfg.isBlock(n) {
        var s1 := EnsureLineStart(st);
        WalkAllGrows(cfg, s1, children);
        var s2 := WalkAll(cfg, s1, children);
        StartsWithTrans(s2.content, s1.content, st.content);
        StartsWithTrans(EnsureLineStart(s2).content, s2.content, st.content);
      } else {
        WalkAllGrows(cfg, st, children);
      }
  }

  lemma {:induction false} WalkAllGrows(cfg: Config, st: State, ns: seq<Node>)
    ensures StartsWith(WalkAll(cfg, st, ns).content, st.content)
    decreases ns
  {
    if ns != [] {
      var s1 := Walk(cfg, st, ns[0]);
      WalkGrows(cfg, st, ns[0]);
      WalkAllGrows(cfg, s1, ns[1..]);
      StartsWithTrans(WalkAll(cfg, s1, ns[1..]).content, s1.content, st.content);
    }
  }

  /** What one node contributes outside blockquote mode: a kept text node
      its text, a line break one newline, an image its label, a skipped
      element nothing, each after the pending prefix. */
  lemma LeafContributions(cfg: Config, st: State, n: Node)
    requires !cfg.quoting
    ensures n.TextNode? && AllWhite(n.data) && '\n' in n.data ==> Walk(cfg, st, n) == st
    ensures n.TextNode? && !(AllWhite(n.data) && '\n' in n.data) ==>
      Walk(cfg, st, n).content == st.content + PrefixText(st) + n.data
    ensures HasTag(n, "br") ==> Walk(cfg, st, n).content == st.content + PrefixText(st) + "\n"
    ensures HasTag(n, "img") && cfg.images ==>
      Walk(cfg, st, n).content == st.content + PrefixText(st) + ImageText(n)
    ensures HasTag(n, "img") && !cfg.images ==> Walk(cfg, st, n) == st
    ensures n.Element? && Lower(n.name) in Skipped ==> Walk(cfg, st, n) == st
  {
    match n
    case TextNode(t) =>
      if Trim(t) != [] || '\n' !in t {
        AppendPlain(st, t);
      }
    case OtherNode =>
    case Element(name, _, _) =>
      if Lower(name) == "img" && cfg.images {
        AppendPlain(st, ImageText(n));
      }
  }

  /** A block element leaves the buffer at the start of a line, whatever
      its children wrote. */
  lemma BlockEndsLine(cfg: Config, st: State, n: Node)
    requires n.Element? && cfg.isBlock(n)
    requires Lower(n.name) !in {"a", "br", "img"} && Lower(n.name) !in Skipped
    ensures IsLineStart(Walk(cfg, st, n).content)
  {
  }

  class TextConverter {
    var shouldCollapseNewlines: bool
    var shouldConvertImages: bool
    /** HtmlConverter.ShouldDisplayAsBlock, which this model takes as given. */
    const isBlock: Node -> bool
    const buffer: GemtextBuffer

    constructor (isBlock: Node -> bool)
      ensures !shouldCollapseNewlines && !shouldConvertImages && this.isBlock == isBlock
      ensures fresh(buffer) && buffer.content == [] && buffer.linePrefix == None
      ensures !buffer.inBlockquote
    {
      shouldCollapseNewlines := false;
      shouldConvertImages := false;
      this.isBlock := isBlock;
      buffer := new GemtextBuffer();
    }

    function Settings(): Config
      reads this, buffer
    {
      Config(shouldConvertImages, buffer.inBlockquote, isBlock)
    }

    /** Convert: the result depends only on the node and the settings, never
        on what an earlier call left in the buffer. */
    method Convert(current: Node) returns (text: string)
      modifies buffer
      ensures text == ConvertedText(Settings(), current, shouldCollapseNewlines)
      ensures buffer.inBlockquote == old(buffer.inBlockquote)
    {
      buffer.Reset();
      ExtractInnerTextHelper(current);
      text := if shouldCollapseNewlines then CollapseWhitespace(buffer.content) else buffer.content;
    }

    method ExtractInnerTextHelper(current: Node)
      modifies buffer
      ensures buffer.Snapshot() == Walk(Settings(), old(buffer.Snapshot()), current)
      ensures buffer.inBlockquote == old(buffer.inBlockquote)
      decreases current, 1
    {
      match current
      case TextNode(t) =>
        if |Trim(t)| > 0 {
          buffer.Append(t);
        } else if '\n' !in t {
          buffer.Append(t);
        }
      case OtherNode =>
      case Element(name, _, _) =>
        var nodeName := Lower(name);
        if nodeName == "a" {
          ExtractChildrenText(current);
        } else if nodeName == "br" {
          buffer.AppendLine("");
        } else if nodeName == "img" {
          if shouldConvertImages {
            buffer.Append(ImageText(current));
          }
        } else if nodeName in Skipped {
        } else if isBlock(current) {
          buffer.EnsureAtLineStart();
          ExtractChildrenText(current);
          buffer.EnsureAtLineStart();
        } else {
          ExtractChildrenText(current);
        }
    }

    method ExtractChildrenText(element: Node)
      requires element.Element?
      modifies buffer
      ensures buffer.Snapshot() == WalkAll(Settings(), old(buffer.Snapshot()), element.children)
      ensures buffer.inBlockquote == old(buffer.inBlockquote)
      decreases element, 0
    {
      var children := element.children;
      var i := 0;
      while i < |children|
        invariant 0 <= i <= |children|
        invariant buffer.inBlockquote == old(buffer.inBlockquote)
        invariant WalkAll(Settings(), buffer.Snapshot(), children[i..])
               == WalkAll(Settings(), old(buffer.Snapshot()), children)
      {
        assert children[i..][0] == children[i] && children[i..][1..] == children[i + 1..];
        ExtractInnerTextHelper(children[i]);
        i := i + 1;
      }
      assert children[i..] == [];
    }
  }
}
