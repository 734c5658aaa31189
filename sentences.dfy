/** `crear_frases`: pad the caller's keyword list with "vida" up to five entries, then fill
    the one `{}` slot of each of five fixed templates with the keyword of the same index. */
module Sentences {
  import opened Common

  /** The word appended while the keyword list is too short. */
  const Filler: string := "vida"

  /** The number of templates, and so of sentences. */
  const SentenceCount: nat := 5

  /** The five templates (`modelos`), each as the text before and the text after its `{}`
      slot. */
  const TemplateParts: seq<(string, string)> := [
    ("El concepto de '", "' ha marcado la historia."),
    ("Muchos pensadores hablaron sobre '", "'."),
    ("'", "' es una idea fundamental en la filosofía."),
    ("La sociedad moderna aún depende de '", "'."),
    ("Comprender '", "' nos ayuda a reflexionar.")
  ]

  /** The templates themselves. */
  const Templates: seq<string> := [
    TemplateParts[0].0 + "{}" + TemplateParts[0].1,
    TemplateParts[1].0 + "{}" + TemplateParts[1].1,
    TemplateParts[2].0 + "{}" + TemplateParts[2].1,
    TemplateParts[3].0 + "{}" + TemplateParts[3].1,
    TemplateParts[4].0 + "{}" + TemplateParts[4].1
  ]

  /** Where the `{}` slot of template i starts. */
  function SlotPosition(i: nat): nat
    requires i < |TemplateParts|
  {
    |TemplateParts[i].0|
  }

  // ---------------------------------------------------------------------------------------
  // `str.format` with a single positional argument

  /** The ways `str.format` fails on a template given one argument. */
  datatype FormatError =
    | SingleOpenBrace             // a `{` with nothing after it
    | SingleCloseBrace            // a `}` that is not doubled
    | ReplacementIndexOutOfRange  // a second `{}` slot, with only one argument
    | FieldNotModelled            // `{0}`, `{name}`, a conversion or a format spec

  predicate NoBraces(s: string)
  {
    forall k :: 0 <= k < |s| ==> s[k] != '{' && s[k] != '}'
  }

  function Prepend(s: string, r: Result<string, FormatError>): Result<string, FormatError>
  {
    match r
    case Ok(v) => Ok(s + v)
    case Err(_) => r
  }

  /** The rest t of a template formatted with arg; `used` tells whether an earlier `{}` has
      already taken the argument. `{{` and `}}` stand for single braces. */
  function FormatFrom(t: string, arg: string, used: bool): Result<string, FormatError>
    decreases |t|
  {
    if t == [] then Ok([])
    else if t[0] == '{' then
      if |t| == 1 then Err(SingleOpenBrace)
      else if t[1] == '{' then Prepend("{", FormatFrom(t[2..], arg, used))
      else if t[1] == '}' then
        if used then Err(ReplacementIndexOutOfRange) else Prepend(arg, FormatFrom(t[2..], arg, true))
      else Err(FieldNotModelled)
    else if t[0] == '}' then
      if |t| >= 2 && t[1] == '}' then Prepend("}", FormatFrom(t[2..], arg, used))
      else Err(SingleCloseBrace)
    else Prepend([t[0]], FormatFrom(t[1..], arg, used))
  }

  /** `t.format(arg)`. */
  function Format(t: string, arg: string): (r: Result<string, FormatError>)
    ensures NoBraces(t) ==> r == Ok(t)
  {
    FormatWithoutSlot(t, arg, false);
    FormatFrom(t, arg, false)
  }

  /** Text without braces is copied unchanged. */
  lemma {:induction false} FormatLiteral(s: string, rest: string, arg: string, used: bool)
    requires NoBraces(s)
    ensures FormatFrom(s + rest, arg, used) == Prepend(s, FormatFrom(rest, arg, used))
    decreases |s|
  {
    if s == [] {
      assert s + rest == rest;
      match FormatFrom(rest, arg, used)
      case Ok(v) => assert s + v == v;
      case Err(_) =>
    } else {
      assert (s + rest)[0] == s[0];
      assert (s + rest)[1..] == s[1..] + rest;
      FormatLiteral(s[1..], rest, arg, used);
      match FormatFrom(rest, arg, used)
      case Ok(v) => assert [s[0]] + (s[1..] + v) == s + v;
      case Err(_) =>
    }
  }

  /** A template whose only braces are one `{}` slot formats to the text around the slot
      with the argument in between. */
  lemma FormatSingleSlot(pre: string, post: string, arg: string)
    requires NoBraces(pre) && NoBraces(post)
    ensures Format(pre + "{}" + post, arg) == Ok(pre + arg + post)
  {
    assert pre + "{}" + post == pre + ("{}" + post);
    FormatLiteral(pre, "{}" + post, arg, false);
    assert ("{}" + post)[2..] == post;
    FormatLiteral(post, [], arg, true);
    assert post + [] == post;
    assert pre + (arg + (post + [])) == pre + arg + post;
  }

  /** A template without a slot ignores its argument, as `str.format` ignores unused ones. */
  lemma FormatWithoutSlot(t: string, arg: string, used: bool)
    ensures NoBraces(t) ==> FormatFrom(t, arg, used) == Ok(t)
  {
    if NoBraces(t) {
      FormatLiteral(t, [], arg, used);
      assert t + [] == t;
    }
  }

  /** A template split around a `{}` slot at position p formats to the text around the slot
      with the argument in between. */
  lemma FormatAtSlot(t: string, p: nat, arg: string)
    requires SingleSlotAt(t, p)
    ensures Format(t, arg) == Ok(t[..p] + arg + t[p + 2..])
  {
    assert t == t[..p] + "{}" + t[p + 2..];
    FormatSingleSlot(t[..p], t[p + 2..], arg);
  }

  /** t has exactly one brace pair, a `{}` slot at position p. */
  predicate SingleSlotAt(t: string, p: nat)
  {
    p + 2 <= |t| && t[p..p + 2] == "{}" && NoBraces(t[..p]) && NoBraces(t[p + 2..])
  }

  lemma SplitAroundSlot(t: string, pre: string, post: string)
    requires t == pre + "{}" + post
    requires NoBraces(pre) && NoBraces(post)
    ensures SingleSlotAt(t, |pre|)
  {
    assert t[..|pre|] == pre;
    assert t[|pre| + 2..] == post;
  }

  /** Neither part of template i holds a brace. */
  lemma TemplatePartsHaveNoBraces(i: nat)
    requires i < |TemplateParts|
    ensures NoBraces(TemplateParts[i].0) && NoBraces(TemplateParts[i].1)
  {
    if i == 0 {
      Template0HasNoBraces();
    } else if i == 1 {
      Template1HasNoBraces();
    } else if i == 2 {
      Template2HasNoBraces();
    } else if i == 3 {
      Template3HasNoBraces();
    } else {
      Template4HasNoBraces();
    }
  }

  lemma Template0HasNoBraces()
    ensures NoBraces(TemplateParts[0].0) && NoBraces(TemplateParts[0].1)
  {
    var (pre, post) := ("El concepto de '", "' ha marcado la historia.");
    assert TemplateParts[0] == (pre, post);
    assert NoBraces(pre) && NoBraces(post);
  }

  lemma Template1HasNoBraces()
    ensures NoBraces(TemplateParts[1].0) && NoBraces(TemplateParts[1].1)
  {
    var (pre, post) := ("Muchos pensadores hablaron sobre '", "'.");
    assert TemplateParts[1] == (pre, post);
    assert NoBraces(pre) && NoBraces(post);
  }

  lemma Template2HasNoBraces()
    ensures NoBraces(TemplateParts[2].0) && NoBraces(TemplateParts[2].1)
  {
    var (pre, post) := ("'", "' es una idea fundamental en la filosofía.");
    assert TemplateParts[2] == (pre, post);
    assert NoBraces(pre) && NoBraces(post);
  }

  lemma Template3HasNoBraces()
    ensures NoBraces(TemplateParts[3].0) && NoBraces(TemplateParts[3].1)
  {
    var (pre, post) := ("La sociedad moderna aún depende de '", "'.");
    assert TemplateParts[3] == (pre, post);
    assert NoBraces(pre) && NoBraces(post);
  }

  lemma Template4HasNoBraces()
    ensures NoBraces(TemplateParts[4].0) && NoBraces(TemplateParts[4].1)
  {
    var (pre, post) := ("Comprender '", "' nos ayuda a reflexionar.");
    assert TemplateParts[4] == (pre, post);
    assert NoBraces(pre) && NoBraces(post);
  }

  /** Each template has exactly one slot, right after its first part, and no other brace, so
      formatting it never fails. */
  lemma TemplatesHaveOneSlot(i: nat)
    requires i < SentenceCount
    ensures |Templates| == |TemplateParts| == SentenceCount
    ensures SingleSlotAt(Templates[i], SlotPosition(i))
  {
    TemplatePartsHaveNoBraces(i);
    SplitAroundSlot(Templates[i], TemplateParts[i].0, TemplateParts[i].1);
  }

  // ---------------------------------------------------------------------------------------
  // What `crear_frases` computes

  /** The keyword list after the padding loop. */
  function Padded(keywords: seq<string>): (r: seq<string>)
    ensures |r| == Max(|keywords|, SentenceCount)
    ensures r[..|keywords|] == keywords
    ensures forall k :: |keywords| <= k < |r| ==> r[k] == Filler
    decreases SentenceCount - |keywords|
  {
    if |keywords| >= SentenceCount then keywords else Padded(keywords + [Filler])
  }

  /** Template i with w in its slot. */
  function Fill(i: nat, w: string): string
    requires i < SentenceCount
  {
    TemplatesHaveOneSlot(i);
    var t, p := Templates[i], SlotPosition(i);
    t[..p] + w + t[p + 2..]
  }

  /** The five sentences: sentence i is template i formatted with keyword i of the padded
      list. */
  function AllSentences(keywords: seq<string>): (r: seq<string>)
    ensures |r| == SentenceCount
    ensures forall i :: 0 <= i < SentenceCount ==> Format(Templates[i], Padded(keywords)[i]) == Ok(r[i])
  {
    var padded := Padded(keywords);
    var r := seq(SentenceCount, i requires 0 <= i < SentenceCount => Fill(i, padded[i]));
    assert forall i :: 0 <= i < SentenceCount ==> Format(Templates[i], padded[i]) == Ok(r[i]) by {
      forall i | 0 <= i < SentenceCount
        ensures Format(Templates[i], padded[i]) == Ok(r[i])
      {
        TemplateFormats(i, padded[i]);
      }
    }
    r
  }

  lemma TemplateFormats(i: nat, w: string)
    requires i < SentenceCount
    ensures Format(Templates[i], w) == Ok(Fill(i, w))
  {
    TemplatesHaveOneSlot(i);
    FormatAtSlot(Templates[i], SlotPosition(i), w);
  }

  /** The keyword in the slot of a sentence made from template i. */
  function KeywordOf(i: nat, sentence: string): string
    requires i < SentenceCount
    requires |sentence| >= |Templates[i]| - 2
  {
    TemplatesHaveOneSlot(i);
    var p, tail := SlotPosition(i), |Templates[i]| - SlotPosition(i) - 2;
    sentence[p..|sentence| - tail]
  }

  /** The keyword can be read back from its sentence: sentence i is made from keyword i of
      the padded list and from nothing else. */
  lemma SentenceKeywordRoundTrip(keywords: seq<string>, i: nat)
    requires i < SentenceCount
    ensures |AllSentences(keywords)[i]| >= |Templates[i]| - 2
    ensures KeywordOf(i, AllSentences(keywords)[i]) == Padded(keywords)[i]
  {
    var w := Padded(keywords)[i];
    TemplateFormats(i, w);
    TemplatesHaveOneSlot(i);
    var t, p := Templates[i], SlotPosition(i);
    var s := Fill(i, w);
    assert s == t[..p] + w + t[p + 2..];
    assert s[p..|s| - (|t| - p - 2)] == w;
  }

  /** Keywords past the fifth do not change the sentences. */
  lemma SentencesIgnoreExtraKeywords(keywords: seq<string>, extra: seq<string>)
    requires |keywords| >= SentenceCount
    ensures AllSentences(keywords + extra) == AllSentences(keywords)
  {
    var a, b := Padded(keywords + extra), Padded(keywords);
    assert forall i :: 0 <= i < SentenceCount ==> a[i] == b[i] by {
      assert a[..|keywords + extra|] == keywords + extra;
      assert b[..|keywords|] == keywords;
      forall i | 0 <= i < SentenceCount
        ensures a[i] == b[i]
      {
        assert a[i] == (keywords + extra)[i];
      }
    }
  }

  /** A list with its padding already fixed: Padded is determined by its three properties. */
  lemma PaddedUnique(keywords: seq<string>, r: seq<string>)
    requires |r| == Max(|keywords|, SentenceCount)
    requires r[..|keywords|] == keywords
    requires forall k :: |keywords| <= k < |r| ==> r[k] == Filler
    ensures r == Padded(keywords)
  {
    var p := Padded(keywords);
    forall k | 0 <= k < |r|
      ensures r[k] == p[k]
    {
      if k < |keywords| {
        assert r[k] == r[..|keywords|][k];
        assert p[k] == p[..|keywords|][k];
      }
    }
  }

  // ---------------------------------------------------------------------------------------
  // The imperative generator

  /** The caller's keyword list (`palabras_clave`), which `crear_frases` grows in place. */
  class KeywordList {
    var words: seq<string>

    constructor (initial: seq<string>)
      ensures words == initial
    {
      words := initial;
    }

    /** `list.append`. */
    method Append(w: string)
      modifies this
      ensures words == old(words) + [w]
    {
      words := words + [w];
    }
  }

  /** `crear_frases(palabras_clave)`: pads the list in place, then returns the five sentences
      it would print, in order. */
  method CreateSentences(keywords: KeywordList) returns (sentences: seq<string>)
    modifies keywords
    ensures keywords.words == Padded(old(keywords.words))
    ensures |keywords.words| == Max(|old(keywords.words)|, SentenceCount)
    ensures keywords.words[..|old(keywords.words)|] == old(keywords.words)
    ensures forall k :: |old(keywords.words)| <= k < |keywords.words| ==> keywords.words[k] == Filler
    ensures sentences == AllSentences(old(keywords.words))
  {
    ghost var original := keywords.words;
    while |keywords.words| < SentenceCount
      invariant |keywords.words| <= Max(|original|, SentenceCount)
      invariant keywords.words[..|original|] == original
      invariant forall k :: |original| <= k < |keywords.words| ==> keywords.words[k] == Filler
      decreases SentenceCount - |keywords.words|
    {
      keywords.Append(Filler);
      assert keywords.words[..|original|] == original by {
        assert |original| < |keywords.words|;
      }
    }
    PaddedUnique(original, keywords.words);
    sentences := [];
    for i := 0 to SentenceCount
      invariant keywords.words == Padded(original)
      invariant |sentences| == i
      invariant forall k :: 0 <= k < i ==> sentences[k] == AllSentences(original)[k]
    {
      var r := Format(Templates[i], keywords.words[i]);
      TemplateFormats(i, keywords.words[i]);
      match r
      case Ok(s) =>
        sentences := sentences + [s];
      case Err(_) =>
        assert false;
    }
  }
}
