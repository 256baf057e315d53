/** The Gemtext line buffer: accumulated text, a pending line prefix that is
    written once just before the next appended text, and a blockquote mode
    that puts `>` in front of non-blank text written at the start of a line.

    The pure functions below give the effect of every operation on the
    buffer's `State`; the class `GemtextBuffer` updates its fields in place
    and is proved to follow them. */
module LineBuffer {
  import opened Wrappers
  import opened Text

  /** What the buffer holds apart from its blockquote flag. */
  datatype State = State(content: string, prefix: Option<string>)

  /** Nothing written yet, or the last thing written ends a line. */
  predicate IsLineStart(content: string) {
    content == [] || content[|content| - 1] == '\n'
  }

  /** The text a pending prefix will write ("" when there is none). */
  function PrefixText(st: State): string {
    st.prefix.GetOr("")
  }

  /** HandleLinePrefix: a pending prefix is written, then cleared. */
  function WritePrefix(st: State): (r: State)
    ensures r.prefix == None
    ensures r.content == st.content + PrefixText(st)
  {
    match st.prefix
    case None => st
    case Some(p) => State(st.content + p, None)
  }

  /** HandleBlockQuote: the marker written before `s`, if any. */
  function WriteQuote(content: string, quoting: bool, s: string): (r: string)
    ensures r == content || r == content + ">"
    ensures r == content + ">" <==> quoting && IsLineStart(content) && !AllWhite(s)
  {
    if quoting && IsLineStart(content) && Trim(s) != [] then content + ">" else content
  }

  /** Append of text holding no newline: prefix, quote marker, text. */
  function SegmentAppended(st: State, quoting: bool, s: string): (r: State)
    ensures r.prefix == None
    ensures StartsWith(r.content, st.content + PrefixText(st))
  {
    var w := WritePrefix(st);
    State(WriteQuote(w.content, quoting, s) + s, None)
  }

  /** AppendLine: the same as SegmentAppended, then a newline. */
  function LineAppended(st: State, quoting: bool, s: string): (r: State)
    ensures r.prefix == None
    ensures StartsWith(r.content, st.content + PrefixText(st))
    ensures IsLineStart(r.content)
  {
    var w := SegmentAppended(st, quoting, s);
    StartsWithTrans(w.content + "\n", w.content, st.content + PrefixText(st));
    State(w.content + "\n", None)
  }

  /** Append: text holding a newline is split on '\n' and written by
      LinesAppended; other text is one segment. */
  function Appended(st: State, quoting: bool, s: string): (r: State)
    ensures r.prefix == None
    ensures StartsWith(r.content, st.content + PrefixText(st))
    decreases if '\n' in s then 2 else 0, 0
  {
    if '\n' in s then LinesAppended(st, quoting, Split(s, '\n'))
    else SegmentAppended(st, quoting, s)
  }

  /** AppendMultiline: AppendLine on every piece but the last, and Append
      on the last. */
  function LinesAppended(st: State, quoting: bool, lines: seq<string>): (r: State)
    requires |lines| >= 1
    requires forall k :: 0 <= k < |lines| ==> '\n' !in lines[k]
    ensures r.prefix == None
    ensures StartsWith(r.content, st.content + PrefixText(st))
    decreases 1, |lines|
  {
    if |lines| == 1 then Appended(st, quoting, lines[0])
    else
      var w := LineAppended(st, quoting, lines[0]);
      var r := LinesAppended(w, quoting, lines[1..]);
      StartsWithTrans(r.content, w.content, st.content + PrefixText(st));
      r
  }

  /** EnsureAtLineStart: end an unfinished line; a prefix pending on an
      already started line is dropped, one pending on an unfinished line
      survives. */
  function EnsureLineStart(st: State): (r: State)
    ensures IsLineStart(r.content)
    ensures StartsWith(r.content, st.content) && |r.content| <= |st.content| + 1
    ensures r.content == st.content <==> IsLineStart(st.content)
    ensures r.prefix == if IsLineStart(st.content) then None else st.prefix
  {
    if IsLineStart(st.content) then State(st.content, None)
    else State(st.content + "\n", st.prefix)
  }

  /** GetLastLineStartIndex: the last '\n' before any trailing white space,
      or 0 when there is none. */
  function LastLineStart(content: string): (i: nat)
    ensures i <= TrimmedEnd(content) && i <= |content|
    ensures i > 0 ==> i < TrimmedEnd(content) && content[i] == '\n'
    ensures forall j :: i < j < TrimmedEnd(content) ==> content[j] != '\n'
    ensures i == 0 ==> forall j :: 0 < j < TrimmedEnd(content) ==> content[j] != '\n'
  {
    var t := TrimEnd(content);
    assert |t| == TrimmedEnd(content);
    assert forall j :: 0 <= j < |t| ==> t[j] == content[j];
    var k := LastIndexOf(t, '\n');
    if k == -1 then 0 else k
  }

  /** A line of text with the quote marker blockquote mode gives it. */
  function Quote(line: string): string {
    if Trim(line) != [] then ">" + line else line
  }

  /** The pieces, each with the marker Quote gives it, joined by newlines. */
  function QuotedLines(lines: seq<string>): string
    requires |lines| >= 1
  {
    if |lines| == 1 then Quote(lines[0]) else Quote(lines[0]) + "\n" + QuotedLines(lines[1..])
  }

  /** Outside blockquote mode, Append writes the pending prefix and then
      exactly the given pieces joined by newlines. */
  lemma {:induction false} AppendLinesPlain(st: State, lines: seq<string>)
    requires |lines| >= 1
    requires forall k :: 0 <= k < |lines| ==> '\n' !in lines[k]
    ensures LinesAppended(st, false, lines).content == st.content + PrefixText(st) + Join(lines, '\n')
    decreases |lines|
  {
    if |lines| > 1 {
      var w := LineAppended(st, false, lines[0]);
      assert w.content == st.content + PrefixText(st) + lines[0] + "\n";
      AppendLinesPlain(w, lines[1..]);
    }
  }

  /** Outside blockquote mode, Append writes the pending prefix followed by
      the text itself, newlines included. */
  lemma AppendPlain(st: State, s: string)
    ensures Appended(st, false, s).content == st.content + PrefixText(st) + s
  {
    if '\n' in s {
      AppendLinesPlain(st, Split(s, '\n'));
      JoinSplit(s, '\n');
    }
  }

  /** In blockquote mode, at the start of a line and with no prefix pending,
      every non-blank line of the appended text gets its own `>`. */
  lemma {:induction false} AppendLinesQuoted(c: string, lines: seq<string>)
    requires IsLineStart(c)
    requires |lines| >= 1
    requires forall k :: 0 <= k < |lines| ==> '\n' !in lines[k]
    ensures LinesAppended(State(c, None), true, lines).content == c + QuotedLines(lines)
    decreases |lines|
  {
    var st := State(c, None);
    if |lines| == 1 {
      SegmentQuoted(c, lines[0]);
      assert LinesAppended(st, true, lines) == SegmentAppended(st, true, lines[0]);
    } else {
      var head := Quote(lines[0]) + "\n";
      LineQuoted(c, lines[0]);
      LinesAppendedStep(st, true, lines, 0);
      assert lines[0..] == lines;
      AppendLinesQuoted(c + head, lines[1..]);
      ConcatAssoc(c, head, QuotedLines(lines[1..]));
    }
  }

  lemma AppendQuoted(c: string, s: string)
    requires IsLineStart(c)
    ensures Appended(State(c, None), true, s).content == c + QuotedLines(Split(s, '\n'))
  {
    if '\n' in s {
      AppendLinesQuoted(c, Split(s, '\n'));
    } else {
      assert Split(s, '\n') == [s];
      SegmentQuoted(c, s);
    }
  }

  /** The quote marker is looked for after the prefix is written: a
      non-empty prefix that does not end a line keeps `>` out of the line. */
  lemma PrefixHidesQuote(c: string, p: string, s: string)
    requires p != [] && p[|p| - 1] != '\n'
    requires '\n' !in s
    ensures Appended(State(c, Some(p)), true, s).content == c + p + s
  {
    var st := State(c, Some(p));
    var cp := c + p;
    assert cp[|cp| - 1] == p[|p| - 1];
    assert !IsLineStart(cp);
    assert WritePrefix(st) == State(cp, None);
    assert WriteQuote(cp, true, s) == cp;
    assert Appended(st, true, s) == SegmentAppended(st, true, s);
  }

  /** A single segment written at the start of a line in blockquote mode. */
  lemma SegmentQuoted(c: string, line: string)
    requires IsLineStart(c)
    ensures SegmentAppended(State(c, None), true, line) == State(c + Quote(line), None)
  {
    assert WritePrefix(State(c, None)) == State(c, None);
    if Trim(line) != [] {
      assert WriteQuote(c, true, line) == c + ">";
      ConcatAssoc(c, ">", line);
    } else {
      assert WriteQuote(c, true, line) == c;
    }
  }

  lemma LineQuoted(c: string, line: string)
    requires IsLineStart(c)
    ensures LineAppended(State(c, None), true, line) == State(c + (Quote(line) + "\n"), None)
  {
    SegmentQuoted(c, line);
    ConcatAssoc(c, Quote(line), "\n");
  }

  /** One step of LinesAppended, from piece `i` on: a piece before the last
      is written by LineAppended, the last by Appended. */
  lemma LinesAppendedStep(st: State, quoting: bool, lines: seq<string>, i: nat)
    requires i < |lines|
    requires forall k :: 0 <= k < |lines| ==> '\n' !in lines[k]
    ensures i < |lines| - 1 ==>
      LinesAppended(st, quoting, lines[i..])
        == LinesAppended(LineAppended(st, quoting, lines[i]), quoting, lines[i + 1..])
    ensures i == |lines| - 1 ==> LinesAppended(st, quoting, lines[i..]) == Appended(st, quoting, lines[i])
  {
    var rest := lines[i..];
    assert rest[0] == lines[i];
    if i < |lines| - 1 {
      assert rest[1..] == lines[i + 1..];
    }
  }

  /** The trimmed text from the last line start holds no newline. */
  lemma LastLineHasNoNewline(content: string)
    ensures '\n' !in Trim(content[LastLineStart(content)..])
  {
    var i := LastLineStart(content);
    var e := TrimmedEnd(content);
    var tail := content[i..];
    forall j | 0 < j < e - i ensures tail[j] != '\n' {
      assert tail[j] == content[i + j];
    }
    forall j | e - i <= j < |tail| ensures IsWhite(tail[j]) {
      assert tail[j] == content[i + j];
    }
    TrimmedWithoutNewline(tail, e - i);
  }

  /** Text whose newlines, after its first character, all lie in its
      trailing white space trims to text without a newline. */
  lemma TrimmedWithoutNewline(t: string, e: nat)
    requires e <= |t|
    requires forall j :: 0 < j < e ==> t[j] != '\n'
    requires forall j :: e <= j < |t| ==> IsWhite(t[j])
    ensures '\n' !in Trim(t)
  {
    var r := Trim(t);
    var lw := LeadingWhite(t);
    if r != [] {
      assert r == t[lw..lw + |r|];
      assert t[lw + |r| - 1] == r[|r| - 1];
      assert lw + |r| - 1 < e;
      forall k | 0 <= k < |r| ensures r[k] != '\n' {
        if k == 0 {
          assert !IsWhite(r[0]);
        } else {
          assert r[k] == t[lw + k];
        }
      }
    }
  }

  class GemtextBuffer {
    /** The StringBuilder's text. */
    var content: string
    /** The pending line prefix (`linePrefex`), null when none. */
    var linePrefix: Option<string>
    var inBlockquote: bool

    function Snapshot(): State
      reads this
    {
      State(content, linePrefix)
    }

    constructor ()
      ensures content == [] && linePrefix == None && !inBlockquote
    {
      content := [];
      linePrefix := None;
      inBlockquote := false;
    }

    function HasContent(): (b: bool)
      reads this
      ensures b <==> content != []
    {
      |content| > 0
    }

    /** At the very beginning of a line (a prefix may still be pending). */
    function AtLineStart(): (b: bool)
      reads this
      ensures b <==> content == [] || content[|content| - 1] == '\n'
    {
      !HasContent() || content[|content| - 1] == '\n'
    }

    function HasLinePrefix(): (b: bool)
      reads this
      ensures b <==> linePrefix != None
    {
      linePrefix.Some?
    }

    method Reset()
      modifies this
      ensures content == [] && linePrefix == None
      ensures inBlockquote == old(inBlockquote)
    {
      content := [];
      linePrefix := None;
    }

    method SetLinePrefix(s: Option<string>)
      modifies this
      ensures linePrefix == s
      ensures content == old(content) && inBlockquote == old(inBlockquote)
    {
      linePrefix := s;
    }

    method Append(s: string)
      modifies this
      ensures Snapshot() == Appended(old(Snapshot()), inBlockquote, s)
      ensures inBlockquote == old(inBlockquote)
      decreases if '\n' in s then 2 else 0, 0
    {
      if '\n' in s {
        AppendMultiline(s);
        return;
      }
      HandleLinePrefix();
      HandleBlockQuote(s);
      content := content + s;
    }

    method AppendMultiline(s: string)
      modifies this
      ensures Snapshot() == LinesAppended(old(Snapshot()), inBlockquote, Split(s, '\n'))
      ensures inBlockquote == old(inBlockquote)
      decreases 1, 0
    {
      var lines := Split(s, '\n');
      ghost var goal := LinesAppended(Snapshot(), inBlockquote, lines);
      var i := 0;
      while i < |lines|
        invariant 0 <= i <= |lines|
        invariant inBlockquote == old(inBlockquote)
        invariant i < |lines| ==> LinesAppended(Snapshot(), inBlockquote, lines[i..]) == goal
        invariant i == |lines| ==> Snapshot() == goal
      {
        LinesAppendedStep(Snapshot(), inBlockquote, lines, i);
        if i < |lines| - 1 {
          AppendLine(lines[i]);
        } else {
          Append(lines[i]);
        }
        i := i + 1;
      }
    }

    method AppendLine(s: string)
      modifies this
      ensures Snapshot() == LineAppended(old(Snapshot()), inBlockquote, s)
      ensures inBlockquote == old(inBlockquote)
    {
      HandleLinePrefix();
      HandleBlockQuote(s);
      content := content + s + "\n";
    }

    method EnsureAtLineStart()
      modifies this
      ensures Snapshot() == EnsureLineStart(old(Snapshot()))
      ensures inBlockquote == old(inBlockquote)
    {
      if AtLineStart() && linePrefix != None {
        linePrefix := None;
      }
      if !AtLineStart() {
        content := content + "\n";
      }
    }

    function GetLastLineStartIndex(): (i: nat)
      reads this
      ensures i <= |content|
      ensures i > 0 ==> i < |content| && content[i] == '\n'
    {
      LastLineStart(content)
    }

    /** The last line, trimmed: never holds a newline. */
    function GetLastLine(): (line: string)
      reads this
      ensures Trimmed(line) && '\n' !in line
    {
      LastLineHasNoNewline(content);
      Trim(content[GetLastLineStartIndex()..])
    }

    /** Drops the last line: what remains ends at the newline before it. */
    method RemoveLastLine()
      modifies this
      ensures linePrefix == None && inBlockquote == old(inBlockquote)
      ensures '\n' !in old(content) ==> content == []
      ensures '\n' in old(content) ==>
        var i := LastLineStart(old(content));
        content == if i > 0 then old(content)[..i] + "\n" else []
      ensures StartsWith(old(content), content) && IsLineStart(content)
    {
      if '\n' !in content {
        Reset();
      } else {
        var index := GetLastLineStartIndex();
        if index > 0 {
          var kept := content[..index];
          assert kept + "\n" == content[..index + 1];
          Reset();
          content := content + kept + "\n";
        } else {
          Reset();
        }
      }
    }

    method HandleLinePrefix()
      modifies this
      ensures Snapshot() == WritePrefix(old(Snapshot()))
      ensures inBlockquote == old(inBlockquote)
    {
      if linePrefix != None {
        content := content + linePrefix.value;
        linePrefix := None;
      }
    }

    method HandleBlockQuote(s: string)
      modifies this
      ensures content == WriteQuote(old(content), inBlockquote, s)
      ensures linePrefix == old(linePrefix) && inBlockquote == old(inBlockquote)
    {
      if inBlockquote && AtLineStart() && |Trim(s)| > 0 {
        content := content + ">";
      }
    }
  }
}
