/** `guardar_y_analizar` and the main guard: from the fetched table (or its absence) to the
    keyword list, and from a non-empty keyword list to the sentences. */
module Pipeline {
  import opened Common
  import opened Text
  import opened Tokenizer
  import opened Frequency
  import opened Sentences

  /** The two columns `obtener_frases` returns, with missing cells already dropped. */
  datatype Table = Table(latin: seq<string>, translation: seq<string>)

  /** The words of a top list, counts dropped. */
  function WordsOf(top: seq<Entry>): (ws: seq<string>)
    ensures |ws| == |top| && forall k :: 0 <= k < |top| ==> ws[k] == top[k].word
  {
    seq(|top|, k requires 0 <= k < |top| => top[k].word)
  }

  /** `guardar_y_analizar(dataframe)`: `None` without data; otherwise the words of the
      Translation column's top list. The Latin column's list is only printed. */
  function Keywords(isWord: WordClass, data: Option<Table>): (r: Option<seq<string>>)
    ensures r.None? <==> data.None?
  {
    match data
    case None => None
    case Some(table) => Some(WordsOf(CountWords(isWord, table.translation)))
  }

  /** Word a ranks before word b among the tokens ws: it occurs more often, or as often and
      earlier. */
  predicate RanksBefore(ws: seq<string>, a: string, b: string)
    requires a in ws && b in ws
  {
    Count(ws, a) > Count(ws, b) || (Count(ws, a) == Count(ws, b) && FirstIndex(ws, a) < FirstIndex(ws, b))
  }

  /** The keywords are the most common Translation words in order: at most five, no word
      twice, each one lower-case ASCII letters at least four long and occurring in the
      column; each ranks before the next, and before every column word left out; the Latin
      column has no influence on them. */
  lemma KeywordsAreTopTranslationWords(isWord: WordClass, latin: seq<string>, translation: seq<string>)
    ensures var r := Keywords(isWord, Some(Table(latin, translation)));
            && r.Some?
            && |r.value| == Min(TopN, |Distinct(ColumnWords(isWord, translation))|)
            && (forall i, j :: 0 <= i < j < |r.value| ==> r.value[i] != r.value[j])
            && (forall k :: 0 <= k < |r.value| ==> r.value[k] in ColumnWords(isWord, translation))
            && (forall k :: 0 <= k < |r.value| ==> |r.value[k]| >= MinTokenLength)
            && (forall k, m :: 0 <= k < |r.value| && 0 <= m < |r.value[k]| ==> IsAsciiLower(r.value[k][m]))
            && (forall i, j :: 0 <= i < j < |r.value| ==>
                  RanksBefore(ColumnWords(isWord, translation), r.value[i], r.value[j]))
            && (forall w, k :: w in ColumnWords(isWord, translation) && w !in r.value && 0 <= k < |r.value| ==>
                  RanksBefore(ColumnWords(isWord, translation), r.value[k], w))
            && r == Keywords(isWord, Some(Table([], translation)))
  {
    var ws := ColumnWords(isWord, translation);
    var r := Keywords(isWord, Some(Table(latin, translation)));
    assert r.value == WordsOf(TopCounts(ws, TopN));
    TopCountsLength(ws, TopN);
    TopCountsExact(ws, TopN);
    TopWordsInOrder(ws);
    TopWordsBeatTheRest(ws);
    forall k | 0 <= k < |r.value|
      ensures |r.value[k]| >= MinTokenLength
      ensures forall m :: 0 <= m < |r.value[k]| ==> IsAsciiLower(r.value[k][m])
    {
      ColumnWordShape(isWord, translation, r.value[k]);
    }
  }

  /** Each top word ranks before the next one. */
  lemma TopWordsInOrder(ws: seq<string>)
    ensures var kw := WordsOf(TopCounts(ws, TopN));
            forall i, j :: 0 <= i < j < |kw| ==> kw[i] in ws && kw[j] in ws && RanksBefore(ws, kw[i], kw[j])
  {
    var top := TopCounts(ws, TopN);
    TopCountsExact(ws, TopN);
    TopCountsOrder(ws, TopN);
    assert forall k :: 0 <= k < |top| ==> WordsOf(top)[k] == top[k].word;
  }

  /** Each top word ranks before every token left out of the list. */
  lemma TopWordsBeatTheRest(ws: seq<string>)
    ensures var kw := WordsOf(TopCounts(ws, TopN));
            forall w, k :: w in ws && w !in kw && 0 <= k < |kw| ==> kw[k] in ws && RanksBefore(ws, kw[k], w)
  {
    var top := TopCounts(ws, TopN);
    var kw := WordsOf(top);
    TopCountsExact(ws, TopN);
    forall w, k | w in ws && w !in kw && 0 <= k < |kw|
      ensures kw[k] in ws && RanksBefore(ws, kw[k], w)
    {
      forall e | e in top
        ensures e.word != w
      {
        var m :| 0 <= m < |top| && top[m] == e;
        assert kw[m] == e.word;
      }
      TopCountsIsTop(ws, TopN, w, k);
    }
  }

  /** The main guard: sentences are made only from a keyword list that exists and is not
      empty (`if palabras_frecuentes:`); the list is handed to `crear_frases`, which pads it
      in place. */
  method Run(isWord: WordClass, data: Option<Table>) returns (sentences: seq<string>)
    ensures var kws := Keywords(isWord, data);
            if kws.Some? && kws.value != [] then sentences == AllSentences(kws.value) && |sentences| == SentenceCount
            else sentences == []
  {
    var kws := Keywords(isWord, data);
    if kws.Some? && |kws.value| > 0 {
      var list := new KeywordList(kws.value);
      sentences := CreateSentences(list);
    } else {
      sentences := [];
    }
  }

  /** No data, or a Translation column without any qualifying word, gives no sentences;
      otherwise there are exactly five. */
  lemma {:induction false} NoSentencesWithoutKeywords(isWord: WordClass, data: Option<Table>)
    ensures var kws := Keywords(isWord, data);
            (kws.Some? && kws.value != []) <==> (data.Some? && ColumnWords(isWord, data.value.translation) != [])
  {
    if data.Some? {
      var ws := ColumnWords(isWord, data.value.translation);
      TopCountsLength(ws, TopN);
      if ws != [] {
        assert ws[0] in Distinct(ws);
      } else {
        TopCountsOfNothing(ws, TopN);
      }
    }
  }
}
