/** Characters and strings as the analyser sees them: ASCII letters, the `\w` class of
    Python's `re`, ASCII lower-casing and `str.join`. */
module Text {

  predicate IsAsciiLetter(c: char) { 'a' <= c <= 'z' || 'A' <= c <= 'Z' }

  predicate IsAsciiUpper(c: char) { 'A' <= c <= 'Z' }

  predicate IsAsciiLower(c: char) { 'a' <= c <= 'z' }

  predicate IsAsciiDigit(c: char) { '0' <= c <= '9' }

  /** The ASCII part of the `\w` class: letters, digits and the underscore. */
  predicate IsAsciiWordChar(c: char) { IsAsciiLetter(c) || IsAsciiDigit(c) || c == '_' }

  /** A word-character table, the `\w` class of a Unicode-aware regular expression. */
  type WordClass = char -> bool

  /** The table agrees with `\w` on the ASCII range: letters, digits and `_` are word
      characters, the space, control characters and ASCII punctuation are not. Outside
      ASCII any classification is allowed (accented letters are word characters in Python). */
  ghost predicate ValidWordClass(isWord: WordClass)
  {
    forall c: char :: (c as int) < 128 ==> (isWord(c) <==> IsAsciiWordChar(c))
  }

  /** `str.lower` restricted to ASCII: `A`-`Z` become `a`-`z`, everything else is kept. */
  function LowerChar(c: char): (r: char)
    ensures !IsAsciiUpper(r)
    ensures IsAsciiLetter(r) <==> IsAsciiLetter(c)
    ensures !IsAsciiUpper(c) ==> r == c
    ensures IsAsciiUpper(c) ==> r as int == c as int + 32
  {
    if IsAsciiUpper(c) then (c as int + 32) as char else c
  }

  function Lower(s: string): (r: string)
    ensures |r| == |s|
    ensures forall k :: 0 <= k < |s| ==> r[k] == LowerChar(s[k])
  {
    seq(|s|, k requires 0 <= k < |s| => LowerChar(s[k]))
  }

  lemma LowerAppend(a: string, b: string)
    ensures Lower(a + b) == Lower(a) + Lower(b)
  {
    assert forall k :: 0 <= k < |a + b| ==> Lower(a + b)[k] == (Lower(a) + Lower(b))[k];
  }

  /** `sep.join(parts)`: the parts with one copy of `sep` between neighbours. */
  function Join(sep: string, parts: seq<string>): (r: string)
    ensures parts == [] ==> r == []
    ensures parts != [] ==> parts[0] <= r
    ensures |parts| >= 2 ==> |parts[0]| + |sep| <= |r| && r[|parts[0]|..|parts[0]| + |sep|] == sep
    ensures parts != [] ==> |parts[|parts| - 1]| <= |r| && r[|r| - |parts[|parts| - 1]|..] == parts[|parts| - 1]
    decreases |parts|
  {
    if parts == [] then []
    else if |parts| == 1 then parts[0]
    else
      var rest := Join(sep, parts[1..]);
      assert parts[1..][|parts[1..]| - 1] == parts[|parts| - 1];
      assert (parts[0] + sep + rest)[|parts[0]|..|parts[0]| + |sep|] == sep;
      parts[0] + sep + rest
  }
}
