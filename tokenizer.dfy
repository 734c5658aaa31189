/** The tokeniser of `contar_palabras`: every match of `\b[a-zA-Z]{4,}\b` in a text.
    With a Unicode-aware `\b` a match starts and ends at a word boundary, so it is a whole
    maximal run of word characters; a run that also holds a digit, an underscore or a
    non-ASCII letter gives no match at all. The tokeniser is therefore a scan over the
    maximal runs of word characters that keeps the runs made of four or more ASCII letters. */
module Tokenizer {
  import opened Text

  /** The `{4,}` of the pattern. */
  const MinTokenLength: nat := 4

  /** A run of word characters that the pattern matches as a whole. */
  predicate Qualifies(r: string)
  {
    |r| >= MinTokenLength && forall k :: 0 <= k < |r| ==> IsAsciiLetter(r[k])
  }

  predicate AllWordChars(isWord: WordClass, r: string)
  {
    forall k :: 0 <= k < |r| ==> isWord(r[k])
  }

  /** s[i..j] is a maximal run of word characters of s. */
  predicate MaximalRunAt(isWord: WordClass, s: string, i: nat, j: nat)
  {
    && i < j <= |s|
    && (forall k :: i <= k < j ==> isWord(s[k]))
    && (i == 0 || !isWord(s[i - 1]))
    && (j == |s| || !isWord(s[j]))
  }

  /** The length of the run of word characters at the front of s. */
  function RunLength(isWord: WordClass, s: string): (n: nat)
    ensures n <= |s|
    ensures forall k :: 0 <= k < n ==> isWord(s[k])
    ensures n < |s| ==> !isWord(s[n])
  {
    if s == [] || !isWord(s[0]) then 0 else 1 + RunLength(isWord, s[1..])
  }

  /** `re.findall(r"\b[a-zA-Z]{4,}\b", s)`, scanning s from left to right one maximal
      run of word characters at a time. */
  function Tokens(isWord: WordClass, s: string): (ts: seq<string>)
    ensures forall t :: t in ts ==> Qualifies(t)
    decreases |s|
  {
    if s == [] then []
    else if !isWord(s[0]) then Tokens(isWord, s[1..])
    else
      var n := RunLength(isWord, s);
      RunTokens(s[..n]) + Tokens(isWord, s[n..])
  }

  /** What one maximal run of word characters contributes: itself when it qualifies. */
  function RunTokens(r: string): (ts: seq<string>)
  {
    if Qualifies(r) then [r] else []
  }

  /** RunLength is the only length of a maximal front run. */
  lemma RunLengthUnique(isWord: WordClass, s: string, m: nat)
    requires m <= |s|
    requires forall k :: 0 <= k < m ==> isWord(s[k])
    requires m < |s| ==> !isWord(s[m])
    ensures RunLength(isWord, s) == m
  {
  }

  /** Appending text after a non-word character, or in front of one, does not lengthen the
      front run. */
  lemma RunLengthAppend(isWord: WordClass, a: string, b: string)
    requires a != []
    requires b == [] || !isWord(a[|a| - 1]) || !isWord(b[0])
    ensures RunLength(isWord, a + b) == RunLength(isWord, a)
  {
    var n := RunLength(isWord, a);
    assert forall k :: 0 <= k < n ==> (a + b)[k] == a[k];
    if n < |a| {
      assert (a + b)[n] == a[n];
    } else if b != [] {
      assert (a + b)[n] == b[0];
    }
    RunLengthUnique(isWord, a + b, n);
  }

  /** The first step of the scan on a text that starts with a word character. */
  lemma TokensAtRun(isWord: WordClass, s: string, n: nat)
    requires s != [] && isWord(s[0]) && n == RunLength(isWord, s)
    ensures Tokens(isWord, s) == RunTokens(s[..n]) + Tokens(isWord, s[n..])
  {
  }

  /** Tokenising splits at any point next to a non-word character. */
  lemma {:induction false} TokensSplit(isWord: WordClass, a: string, b: string)
    requires a == [] || b == [] || !isWord(a[|a| - 1]) || !isWord(b[0])
    ensures Tokens(isWord, a + b) == Tokens(isWord, a) + Tokens(isWord, b)
    decreases |a|, 1
  {
    if a == [] {
      assert a + b == b;
    } else if !isWord(a[0]) {
      TokensSplitSkip(isWord, a, b);
    } else {
      TokensSplitRun(isWord, a, b);
    }
  }

  /** TokensSplit when a starts with a non-word character. */
  lemma {:induction false} TokensSplitSkip(isWord: WordClass, a: string, b: string)
    requires a != [] && !isWord(a[0])
    requires b == [] || !isWord(a[|a| - 1]) || !isWord(b[0])
    ensures Tokens(isWord, a + b) == Tokens(isWord, a) + Tokens(isWord, b)
    decreases |a|, 0
  {
    assert (a + b)[0] == a[0];
    assert (a + b)[1..] == a[1..] + b;
    TokensSplit(isWord, a[1..], b);
  }

  /** TokensSplit when a starts with a word character. */
  lemma {:induction false} TokensSplitRun(isWord: WordClass, a: string, b: string)
    requires a != [] && isWord(a[0])
    requires b == [] || !isWord(a[|a| - 1]) || !isWord(b[0])
    ensures Tokens(isWord, a + b) == Tokens(isWord, a) + Tokens(isWord, b)
    decreases |a|, 0
  {
    var n := RunLength(isWord, a);
    RunLengthAppend(isWord, a, b);
    calc {
      Tokens(isWord, a + b);
    == { assert (a + b)[0] == a[0]; TokensAtRun(isWord, a + b, n); }
      RunTokens((a + b)[..n]) + Tokens(isWord, (a + b)[n..]);
    == { assert (a + b)[..n] == a[..n]; assert (a + b)[n..] == a[n..] + b; }
      RunTokens(a[..n]) + Tokens(isWord, a[n..] + b);
    == { TokensSplit(isWord, a[n..], b); }
      RunTokens(a[..n]) + (Tokens(isWord, a[n..]) + Tokens(isWord, b));
      (RunTokens(a[..n]) + Tokens(isWord, a[n..])) + Tokens(isWord, b);
    == { TokensAtRun(isWord, a, n); }
      Tokens(isWord, a) + Tokens(isWord, b);
    }
  }

  /** A text that starts with a non-word character tokenises as the text after it. */
  lemma TokensAfterNonWord(isWord: WordClass, c: char, s: string)
    requires !isWord(c)
    ensures Tokens(isWord, [c] + s) == Tokens(isWord, s)
  {
    assert ([c] + s)[1..] == s;
  }

  /** A text that is one run of word characters gives that run, or nothing. */
  lemma TokensOfRun(isWord: WordClass, r: string)
    requires r != [] && AllWordChars(isWord, r)
    ensures Tokens(isWord, r) == RunTokens(r)
  {
    RunLengthUnique(isWord, r, |r|);
    assert r[..|r|] == r;
    assert r[|r|..] == [];
  }

  /** A maximal run r of word characters, between a text ending in a non-word character and a
      text starting with one, contributes exactly itself when it qualifies and nothing
      otherwise: it is never cut down to a part of it. */
  lemma TokensOfMaximalRun(isWord: WordClass, a: string, r: string, b: string)
    requires r != [] && AllWordChars(isWord, r)
    requires a == [] || !isWord(a[|a| - 1])
    requires b == [] || !isWord(b[0])
    ensures Tokens(isWord, a + r + b) == Tokens(isWord, a) + RunTokens(r) + Tokens(isWord, b)
  {
    var rb := r + b;
    ConcatAssoc(a, r, b);
    assert rb[0] == r[0];
    TokensSplit(isWord, a, rb);
    RunThenRest(isWord, r, b);
    ConcatAssoc(Tokens(isWord, a), RunTokens(r), Tokens(isWord, b));
  }

  lemma ConcatAssoc<T>(x: seq<T>, y: seq<T>, z: seq<T>)
    ensures x + (y + z) == x + y + z
  {
  }

  /** A run followed by a text starting with a non-word character. */
  lemma RunThenRest(isWord: WordClass, r: string, b: string)
    requires r != [] && AllWordChars(isWord, r)
    requires b == [] || !isWord(b[0])
    ensures Tokens(isWord, r + b) == RunTokens(r) + Tokens(isWord, b)
  {
    TokensSplit(isWord, r, b);
    TokensOfRun(isWord, r);
  }

  /** A maximal run holding a word character that is not an ASCII letter (a digit, `_`, an
      accented letter) yields no token: no part of it is ever counted. */
  lemma ImpureRunYieldsNothing(isWord: WordClass, a: string, r: string, b: string, k: nat)
    requires r != [] && AllWordChars(isWord, r)
    requires a == [] || !isWord(a[|a| - 1])
    requires b == [] || !isWord(b[0])
    requires k < |r| && !IsAsciiLetter(r[k])
    ensures Tokens(isWord, a + r + b) == Tokens(isWord, a) + Tokens(isWord, b)
  {
    TokensOfMaximalRun(isWord, a, r, b);
    assert !Qualifies(r);
    assert RunTokens(r) == [];
    assert Tokens(isWord, a) + [] == Tokens(isWord, a);
  }

  /** Every maximal run of ASCII letters of length four or more is a token. */
  lemma TokensComplete(isWord: WordClass, s: string, i: nat, j: nat)
    requires MaximalRunAt(isWord, s, i, j)
    requires Qualifies(s[i..j])
    ensures s[i..j] in Tokens(isWord, s)
  {
    assert s == s[..i] + s[i..j] + s[j..];
    if i > 0 {
      assert s[..i][i - 1] == s[i - 1];
    }
    if j < |s| {
      assert s[j..][0] == s[j];
    }
    TokensOfMaximalRun(isWord, s[..i], s[i..j], s[j..]);
  }

  /** A maximal run of a suffix s[n..] that does not start right after a word character
      is a maximal run of s. */
  lemma MaximalRunShift(isWord: WordClass, s: string, n: nat, i: nat, j: nat)
    requires n <= |s|
    requires MaximalRunAt(isWord, s[n..], i, j)
    requires n + i == 0 || !isWord(s[n + i - 1])
    ensures MaximalRunAt(isWord, s, n + i, n + j)
    ensures s[n + i..n + j] == s[n..][i..j]
  {
    assert forall k :: n + i <= k < n + j ==> s[k] == s[n..][k - n];
    assert n + j < |s| ==> s[n + j] == s[n..][j];
  }

  /** Every token is a maximal run of word characters of the text, made of four or more
      ASCII letters. */
  lemma {:induction false} TokensSound(isWord: WordClass, s: string, t: string)
    requires t in Tokens(isWord, s)
    ensures Qualifies(t)
    ensures exists i: nat, j: nat :: MaximalRunAt(isWord, s, i, j) && s[i..j] == t
    decreases |s|
  {
    if !isWord(s[0]) {
      TokensSound(isWord, s[1..], t);
      var i: nat, j: nat :| MaximalRunAt(isWord, s[1..], i, j) && s[1..][i..j] == t;
      MaximalRunShift(isWord, s, 1, i, j);
    } else {
      var n := RunLength(isWord, s);
      if Qualifies(s[..n]) && t == s[..n] {
        assert MaximalRunAt(isWord, s, 0, n) && s[0..n] == t;
      } else {
        assert t in Tokens(isWord, s[n..]);
        TokensSound(isWord, s[n..], t);
        var i: nat, j: nat :| MaximalRunAt(isWord, s[n..], i, j) && s[n..][i..j] == t;
        assert s[n..][0] == s[n];
        MaximalRunShift(isWord, s, n, i, j);
      }
    }
  }

  /** The tokens of one column: its values joined with one space, lower-cased, then
      tokenised. */
  function ColumnWords(isWord: WordClass, column: seq<string>): (ws: seq<string>)
    ensures forall w :: w in ws ==> Qualifies(w)
  {
    Tokens(isWord, Lower(Join(" ", column)))
  }

  /** The tokens of each value on its own, one value after another. */
  function WordsOfEachValue(isWord: WordClass, column: seq<string>): seq<string>
    decreases |column|
  {
    if column == [] then [] else Tokens(isWord, Lower(column[0])) + WordsOfEachValue(isWord, column[1..])
  }

  /** No token spans two column values: because the joining space is not a word character,
      the tokens of the joined column are those of its values taken one by one. */
  lemma {:induction false} TokensNeverSpanValues(isWord: WordClass, column: seq<string>)
    requires ValidWordClass(isWord)
    ensures ColumnWords(isWord, column) == WordsOfEachValue(isWord, column)
    decreases |column|
  {
    if column == [] {
    } else if |column| == 1 {
      assert WordsOfEachValue(isWord, column[1..]) == [];
    } else {
      assert !isWord(' ');
      TokensAroundSpace(isWord, column[0], Join(" ", column[1..]));
      TokensNeverSpanValues(isWord, column[1..]);
    }
  }

  /** The joining space separates the tokens of its two sides. */
  lemma TokensAroundSpace(isWord: WordClass, x: string, y: string)
    requires !isWord(' ')
    ensures Tokens(isWord, Lower(x + " " + y)) == Tokens(isWord, Lower(x)) + Tokens(isWord, Lower(y))
  {
    LowerAppend(x + " ", y);
    LowerAppend(x, " ");
    assert Lower(" ") == [' '];
    assert Lower(x + " " + y) == Lower(x) + ([' '] + Lower(y));
    TokensSplit(isWord, Lower(x), [' '] + Lower(y));
    TokensAfterNonWord(isWord, ' ', Lower(y));
  }

  /** Every counted word is lower-case ASCII letters, at least four of them, and stands in
      the lower-cased joined column as a maximal run of word characters. */
  lemma ColumnWordShape(isWord: WordClass, column: seq<string>, w: string)
    requires w in ColumnWords(isWord, column)
    ensures |w| >= MinTokenLength
    ensures forall k :: 0 <= k < |w| ==> IsAsciiLower(w[k])
    ensures exists i: nat, j: nat :: MaximalRunAt(isWord, Lower(Join(" ", column)), i, j)
                                   && Lower(Join(" ", column))[i..j] == w
  {
    var text := Lower(Join(" ", column));
    TokensSound(isWord, text, w);
    var i: nat, j: nat :| MaximalRunAt(isWord, text, i, j) && text[i..j] == w;
    forall k | 0 <= k < |w|
      ensures IsAsciiLower(w[k])
    {
      assert w[k] == text[i + k];
      assert IsAsciiLetter(w[k]);
    }
  }
}
