/** The special-site converters' own newline remover. */
module StringUtils {
  import opened Text
  import TextConversion

  /** RemoveNewlines: a string holding '\n' or '\r' becomes its white-space
      runs collapsed to single spaces; any other string, the empty one
      included, is returned as it is. */
  function RemoveNewlines(text: string): (r: string)
    ensures '\n' !in r && '\r' !in r
    ensures '\n' !in text && '\r' !in text ==> r == text
    ensures |r| <= |text|
  {
    if text == [] || ('\n' !in text && '\r' !in text) then
      text
    else
      var spaced := ReplaceChar(ReplaceChar(text, '\r', ' '), '\n', ' ');
      CollapseRuns(spaced)
  }

  /** Removing newlines a second time changes nothing. */
  lemma RemoveNewlinesIdempotent(text: string)
    ensures RemoveNewlines(RemoveNewlines(text)) == RemoveNewlines(text)
  {
  }

  /** RemoveNewlines and TextConverter.CollapseWhitespace are the same
      function. */
  lemma SameAsCollapseWhitespace(text: string)
    ensures RemoveNewlines(text) == TextConversion.CollapseWhitespace(text)
  {
  }
}
