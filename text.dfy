/** The .NET string operations the converter relies on, written out on
    `seq<char>`: white space, Trim, ASCII lower-casing, searching, splitting
    and the regular-expression replacement of white-space runs. */
module Text {

  /** `Char.IsWhiteSpace`, which is also the set `\s` matches in .NET regular
      expressions: the controls TAB..CR, NEL, and the Unicode separators. */
  predicate IsWhite(c: char) {
    || ('\t' <= c <= '\r')
    || c == ' ' || c == '\U{85}' || c == '\U{A0}' || c == '\U{1680}'
    || ('\U{2000}' <= c <= '\U{200A}')
    || c == '\U{2028}' || c == '\U{2029}' || c == '\U{202F}' || c == '\U{205F}'
    || c == '\U{3000}'
  }

  predicate AllWhite(s: string) {
    forall i :: 0 <= i < |s| ==> IsWhite(s[i])
  }

  /** No white space at either end. */
  predicate Trimmed(s: string) {
    s == [] || (!IsWhite(s[0]) && !IsWhite(s[|s| - 1]))
  }

  /** Number of leading white-space characters. */
  function LeadingWhite(s: string): (k: nat)
    ensures k <= |s|
    ensures forall i :: 0 <= i < k ==> IsWhite(s[i])
    ensures k == |s| || !IsWhite(s[k])
  {
    if s == [] || !IsWhite(s[0]) then 0 else 1 + LeadingWhite(s[1..])
  }

  /** Length of `s` without its trailing white space. */
  function TrimmedEnd(s: string): (k: nat)
    ensures k <= |s|
    ensures forall i :: k <= i < |s| ==> IsWhite(s[i])
    ensures k == 0 || !IsWhite(s[k - 1])
  {
    if s == [] || !IsWhite(s[|s| - 1]) then |s| else TrimmedEnd(s[..|s| - 1])
  }

  function TrimStart(s: string): string {
    s[LeadingWhite(s)..]
  }

  function TrimEnd(s: string): string {
    s[..TrimmedEnd(s)]
  }

  /** `String.Trim()`: removes white space from both ends. */
  function Trim(s: string): (r: string)
    ensures Trimmed(r)
    ensures r == [] <==> AllWhite(s)
    ensures |r| <= |s|
    ensures LeadingWhite(s) + |r| <= |s| && r == s[LeadingWhite(s)..LeadingWhite(s) + |r|]
  {
    var t := TrimStart(s);
    assert t == s[LeadingWhite(s)..];
    assert AllWhite(s) <==> t == [] by {
      if t != [] { assert !IsWhite(s[LeadingWhite(s)]); }
    }
    TrimEnd(t)
  }

  /** ASCII case folding, standing for `String.ToLower()`. */
  function LowerChar(c: char): char {
    if 'A' <= c <= 'Z' then (c as int + 32) as char else c
  }

  function Lower(s: string): (r: string)
    ensures |r| == |s|
    ensures forall i :: 0 <= i < |s| ==> r[i] == LowerChar(s[i])
  {
    seq(|s|, i requires 0 <= i < |s| => LowerChar(s[i]))
  }

  /** Text without capitals is its own lower case. */
  lemma LowerUnchanged(s: string)
    requires forall i :: 0 <= i < |s| ==> !('A' <= s[i] <= 'Z')
    ensures Lower(s) == s
  {
  }

  predicate StartsWith(s: string, p: string) {
    |p| <= |s| && s[..|p|] == p
  }

  lemma ConcatAssoc(a: string, b: string, c: string)
    ensures (a + b) + c == a + (b + c)
  {
  }

  lemma StartsWithTrans(a: string, b: string, c: string)
    requires StartsWith(a, b) && StartsWith(b, c)
    ensures StartsWith(a, c)
  {
    assert a[..|c|] == a[..|b|][..|c|];
  }

  /** `String.Contains(string)`. */
  predicate Contains(s: string, sub: string) {
    StartsWith(s, sub) || (s != [] && Contains(s[1..], sub))
  }

  /** `String.IndexOf(char)`: the first position of `c`, or -1. */
  function IndexOf(s: string, c: char): (r: int)
    ensures -1 <= r < |s|
    ensures r == -1 <==> c !in s
    ensures r >= 0 ==> s[r] == c && c !in s[..r]
  {
    if s == [] then -1
    else if s[0] == c then 0
    else
      var k := IndexOf(s[1..], c);
      if k == -1 then -1
      else
        assert s[..k + 1] == [s[0]] + s[1..][..k];
        k + 1
  }

  /** `String.LastIndexOf(char)`: the last position of `c`, or -1. */
  function LastIndexOf(s: string, c: char): (r: int)
    ensures -1 <= r < |s|
    ensures r == -1 <==> c !in s
    ensures r >= 0 ==> s[r] == c
    ensures forall j :: r < j < |s| ==> s[j] != c
  {
    if s == [] then -1
    else if s[|s| - 1] == c then |s| - 1
    else
      var k := LastIndexOf(s[..|s| - 1], c);
      assert s == s[..|s| - 1] + [s[|s| - 1]];
      k
  }

  /** `String.Replace(char, char)`. */
  function ReplaceChar(s: string, a: char, b: char): (r: string)
    ensures |r| == |s|
    ensures forall i :: 0 <= i < |s| ==> r[i] == if s[i] == a then b else s[i]
    ensures a !in s ==> r == s
    ensures a != b ==> a !in r
  {
    seq(|s|, i requires 0 <= i < |s| => if s[i] == a then b else s[i])
  }

  /** Trimming text that is already trimmed changes nothing. */
  lemma TrimOfTrimmed(s: string)
    requires Trimmed(s)
    ensures Trim(s) == s
  {
    assert LeadingWhite(s) == 0;
    assert TrimmedEnd(s) == |s|;
  }

  /** Trimming never brings in a character the text did not have. */
  lemma TrimAvoids(s: string, c: char)
    requires c !in s
    ensures c !in Trim(s)
  {
    var r := Trim(s);
    var l := LeadingWhite(s);
    assert r == s[l..l + |r|];
  }

  /** `String.Split(char)`: the pieces between occurrences of `c`. */
  function Split(s: string, c: char): (parts: seq<string>)
    ensures |parts| >= 1
    ensures forall k :: 0 <= k < |parts| ==> c !in parts[k]
    decreases |s|
  {
    var i := IndexOf(s, c);
    if i == -1 then [s] else [s[..i]] + Split(s[i + 1..], c)
  }

  /** `String.Join(c, parts)`. */
  function Join(parts: seq<string>, c: char): string
    requires |parts| >= 1
  {
    if |parts| == 1 then parts[0] else parts[0] + [c] + Join(parts[1..], c)
  }

  /** Joining a first piece onto the rest puts one separator between. */
  lemma JoinCons(head: string, rest: seq<string>, c: char)
    requires |rest| >= 1
    ensures Join([head] + rest, c) == head + [c] + Join(rest, c)
  {
    assert ([head] + rest)[1..] == rest;
  }

  /** Splitting and joining on the same character gives back the input. */
  lemma {:induction false} JoinSplit(s: string, c: char)
    ensures Join(Split(s, c), c) == s
    decreases |s|
  {
    var i := IndexOf(s, c);
    if i != -1 {
      var rest := Split(s[i + 1..], c);
      assert Split(s, c) == [s[..i]] + rest;
      JoinCons(s[..i], rest, c);
      JoinSplit(s[i + 1..], c);
      assert s[..i] + [c] == s[..i + 1];
      assert s[..i + 1] + s[i + 1..] == s;
    }
  }

  /** `Regex.Replace(s, @"\s+", " ")`: every maximal run of white space
      becomes one space. */
  function CollapseRuns(s: string): (r: string)
    ensures |r| <= |s|
    ensures s == [] <==> r == []
    ensures forall i :: 0 <= i < |r| ==> r[i] == ' ' || !IsWhite(r[i])
    ensures forall i :: 0 <= i < |r| - 1 ==> !(IsWhite(r[i]) && IsWhite(r[i + 1]))
    ensures s != [] && IsWhite(s[0]) ==> r[0] == ' '
    ensures s != [] && !IsWhite(s[0]) ==> r[0] == s[0]
    ensures s != [] && !IsWhite(s[|s| - 1]) ==> r[|r| - 1] == s[|s| - 1]
    decreases |s|
  {
    if s == [] then []
    else if IsWhite(s[0]) then
      var rest := s[LeadingWhite(s)..];
      assert rest != [] ==> !IsWhite(rest[0]);
      assert !IsWhite(s[|s| - 1]) ==> rest != [] && rest[|rest| - 1] == s[|s| - 1];
      " " + CollapseRuns(rest)
    else
      [s[0]] + CollapseRuns(s[1..])
  }
}
