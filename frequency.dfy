/** `Counter(tokens).most_common(5)` of `contar_palabras`: the counts of the tokens, and the
    five best-counted words. `most_common(n)` is `sorted(items, key=count, reverse=True)[:n]`
    over the counter's items in insertion order; Python's sort is stable, so among equal
    counts the word counted first comes first. */
module Frequency {
  import opened Common
  import opened Text
  import opened Tokenizer

  /** How many entries `most_common` is asked for. */
  const TopN: nat := 5

  /** One `(word, count)` pair of the counter. */
  datatype Entry = Entry(word: string, count: nat)

  /** The number of occurrences of w among the tokens. */
  function Count(ws: seq<string>, w: string): nat
  {
    multiset(ws)[w]
  }

  /** The counter's keys in insertion order: each word once, where it first occurs. */
  function Distinct(ws: seq<string>): (ks: seq<string>)
    ensures forall w :: w in ks <==> w in ws
    ensures forall i, j :: 0 <= i < j < |ks| ==> ks[i] != ks[j]
    decreases |ws|
  {
    if ws == [] then []
    else
      var init := ws[..|ws| - 1];
      assert ws == init + [ws[|ws| - 1]];
      if ws[|ws| - 1] in init then Distinct(init) else Distinct(init) + [ws[|ws| - 1]]
  }

  /** The counter has one key per distinct token. */
  lemma {:induction false} DistinctCount(ws: seq<string>)
    ensures |Distinct(ws)| == |set w | w in ws|
    decreases |ws|
  {
    if ws != [] {
      var init, last := ws[..|ws| - 1], ws[|ws| - 1];
      assert ws == init + [last];
      DistinctCount(init);
      var before := set w | w in init;
      assert (set w | w in ws) == before + {last};
      if last in init {
        assert Distinct(ws) == Distinct(init);
        assert before + {last} == before;
      } else {
        assert Distinct(ws) == Distinct(init) + [last];
        assert last !in before;
        assert |before + {last}| == |before| + 1;
      }
    }
  }

  /** The position of the first occurrence of w. */
  function FirstIndex(ws: seq<string>, w: string): (i: nat)
    requires w in ws
    ensures i < |ws| && ws[i] == w
    ensures forall k :: 0 <= k < i ==> ws[k] != w
  {
    if ws[0] == w then 0 else 1 + FirstIndex(ws[1..], w)
  }

  /** The counter's keys are in the order of their first occurrences. */
  lemma {:induction false} DistinctInFirstOccurrenceOrder(ws: seq<string>, i: nat, j: nat)
    requires i < j < |Distinct(ws)|
    ensures FirstIndex(ws, Distinct(ws)[i]) < FirstIndex(ws, Distinct(ws)[j])
    decreases |ws|
  {
    var init := ws[..|ws| - 1];
    var last := ws[|ws| - 1];
    assert ws == init + [last];
    var ks := Distinct(ws);
    var a, b := ks[i], ks[j];
    assert a in init by {
      assert ks[i] == Distinct(init)[i];
    }
    assert FirstIndex(ws, a) == FirstIndex(init, a);
    if j < |Distinct(init)| {
      assert ks[j] == Distinct(init)[j];
      assert FirstIndex(ws, b) == FirstIndex(init, b);
      DistinctInFirstOccurrenceOrder(init, i, j);
    } else {
      assert b == last && b !in init;
      assert FirstIndex(ws, b) == |init|;
    }
  }

  /** `Counter(ws).items()`: the distinct words in insertion order with their counts. */
  function Items(ws: seq<string>): (items: seq<Entry>)
    ensures |items| == |Distinct(ws)|
    ensures forall k :: 0 <= k < |items| ==> items[k] == Entry(Distinct(ws)[k], Count(ws, Distinct(ws)[k]))
  {
    var ks := Distinct(ws);
    seq(|ks|, k requires 0 <= k < |ks| => Entry(ks[k], Count(ws, ks[k])))
  }

  /** Item i comes before item j in a stable sort by descending count. */
  predicate Ahead(items: seq<Entry>, i: nat, j: nat)
    requires i < |items| && j < |items|
  {
    items[i].count > items[j].count || (items[i].count == items[j].count && i < j)
  }

  predicate IndicesIn(items: seq<Entry>, cand: seq<nat>)
  {
    forall k :: 0 <= k < |cand| ==> cand[k] < |items|
  }

  predicate NoDuplicates(cand: seq<nat>)
  {
    forall i, j :: 0 <= i < j < |cand| ==> cand[i] != cand[j]
  }

  /** The candidate that a stable descending sort puts first. */
  function Best(items: seq<Entry>, cand: seq<nat>): (b: nat)
    requires cand != [] && IndicesIn(items, cand)
    ensures b in cand
    ensures forall c :: c in cand && c != b ==> Ahead(items, b, c)
  {
    if |cand| == 1 then cand[0]
    else
      var rest := Best(items, cand[1..]);
      assert forall c :: c in cand ==> c == cand[0] || c in cand[1..];
      if Ahead(items, cand[0], rest) then cand[0]
      else
        assert cand[0] != rest ==> Ahead(items, rest, cand[0]);
        rest
  }

  /** The candidates other than x, in their order. */
  function Without(cand: seq<nat>, x: nat): (r: seq<nat>)
    ensures forall c :: c in r <==> c in cand && c != x
    ensures NoDuplicates(cand) ==> NoDuplicates(r)
    ensures NoDuplicates(cand) && x in cand ==> |r| == |cand| - 1
    ensures x !in cand ==> r == cand
  {
    if cand == [] then []
    else if cand[0] == x then
      assert NoDuplicates(cand) ==> x !in cand[1..];
      Without(cand[1..], x)
    else
      assert NoDuplicates(cand) ==> cand[0] !in cand[1..];
      [cand[0]] + Without(cand[1..], x)
  }

  /** r is the first n candidates of a stable descending sort of the candidates, in that
      order: min(n, |cand|) distinct candidates, each ahead of those after it, and every
      candidate left out behind each of them. */
  ghost predicate IsTopSelection(items: seq<Entry>, cand: seq<nat>, n: nat, r: seq<nat>)
    requires IndicesIn(items, cand)
  {
    && |r| == Min(n, |cand|)
    && (forall k :: 0 <= k < |r| ==> r[k] in cand)
    && NoDuplicates(r)
    && IndicesIn(items, r)
    && (forall i, j :: 0 <= i < j < |r| ==> Ahead(items, r[i], r[j]))
    && (forall c, k :: c in cand && c !in r && 0 <= k < |r| ==> Ahead(items, r[k], c))
  }

  /** The first n candidates of a stable descending sort of the candidates, in that order. */
  function TopIndices(items: seq<Entry>, cand: seq<nat>, n: nat): (r: seq<nat>)
    requires IndicesIn(items, cand) && NoDuplicates(cand)
    ensures IsTopSelection(items, cand, n, r)
    decreases n
  {
    if n == 0 || cand == [] then []
    else
      var b := Best(items, cand);
      var rest := Without(cand, b);
      WithoutIndicesIn(items, cand, b);
      var tail := TopIndices(items, rest, n - 1);
      TopSelectionStep(items, cand, n, b, tail);
      [b] + tail
  }

  lemma WithoutIndicesIn(items: seq<Entry>, cand: seq<nat>, x: nat)
    requires IndicesIn(items, cand)
    ensures IndicesIn(items, Without(cand, x))
  {
    var rest := Without(cand, x);
    forall k | 0 <= k < |rest|
      ensures rest[k] < |items|
    {
      assert rest[k] in cand;
    }
  }

  /** Putting the best candidate in front of a selection from the others selects from all. */
  lemma TopSelectionStep(items: seq<Entry>, cand: seq<nat>, n: nat, b: nat, tail: seq<nat>)
    requires IndicesIn(items, cand) && NoDuplicates(cand) && n > 0
    requires b in cand && forall c :: c in cand && c != b ==> Ahead(items, b, c)
    requires IndicesIn(items, Without(cand, b))
    requires IsTopSelection(items, Without(cand, b), n - 1, tail)
    ensures IsTopSelection(items, cand, n, [b] + tail)
  {
    var rest := Without(cand, b);
    assert |rest| == |cand| - 1;
    assert b !in tail;
    StepMembers(cand, b, rest, tail);
    StepOrder(items, cand, b, rest, tail);
    StepExcluded(items, cand, b, rest, tail);
  }

  lemma StepMembers(cand: seq<nat>, b: nat, rest: seq<nat>, tail: seq<nat>)
    requires b in cand && b !in tail
    requires forall k :: 0 <= k < |tail| ==> tail[k] in rest
    requires forall c :: c in rest ==> c in cand
    requires NoDuplicates(tail)
    ensures forall k :: 0 <= k < |[b] + tail| ==> ([b] + tail)[k] in cand
    ensures NoDuplicates([b] + tail)
  {
    var r := [b] + tail;
    forall k | 0 <= k < |r|
      ensures r[k] in cand
    {
      if k > 0 { assert r[k] == tail[k - 1]; }
    }
    forall i, j | 0 <= i < j < |r|
      ensures r[i] != r[j]
    {
      assert r[j] == tail[j - 1];
      if i > 0 { assert r[i] == tail[i - 1]; }
    }
  }

  lemma StepOrder(items: seq<Entry>, cand: seq<nat>, b: nat, rest: seq<nat>, tail: seq<nat>)
    requires IndicesIn(items, cand) && b in cand
    requires forall c :: c in cand && c != b ==> Ahead(items, b, c)
    requires forall c :: c in rest <==> c in cand && c != b
    requires forall k :: 0 <= k < |tail| ==> tail[k] in rest
    requires IndicesIn(items, tail)
    requires forall i, j :: 0 <= i < j < |tail| ==> Ahead(items, tail[i], tail[j])
    ensures IndicesIn(items, [b] + tail)
    ensures forall i, j :: 0 <= i < j < |[b] + tail| ==> Ahead(items, ([b] + tail)[i], ([b] + tail)[j])
  {
    var r := [b] + tail;
    assert b < |items|;
    assert IndicesIn(items, r) by {
      forall k | 0 <= k < |r|
        ensures r[k] < |items|
      {
        if k > 0 { assert r[k] == tail[k - 1]; }
      }
    }
    forall i, j | 0 <= i < j < |r|
      ensures Ahead(items, r[i], r[j])
    {
      assert r[j] == tail[j - 1];
      if i > 0 { assert r[i] == tail[i - 1]; }
    }
  }

  lemma StepExcluded(items: seq<Entry>, cand: seq<nat>, b: nat, rest: seq<nat>, tail: seq<nat>)
    requires IndicesIn(items, cand) && b in cand
    requires forall c :: c in cand && c != b ==> Ahead(items, b, c)
    requires forall c :: c in rest <==> c in cand && c != b
    requires IndicesIn(items, tail)
    requires forall c, k :: c in rest && c !in tail && 0 <= k < |tail| ==> Ahead(items, tail[k], c)
    ensures IndicesIn(items, [b] + tail)
    ensures forall c, k :: c in cand && c !in [b] + tail && 0 <= k < |[b] + tail| ==> Ahead(items, ([b] + tail)[k], c)
  {
    var r := [b] + tail;
    assert b < |items|;
    assert IndicesIn(items, r) by {
      forall k | 0 <= k < |r|
        ensures r[k] < |items|
      {
        if k > 0 { assert r[k] == tail[k - 1]; }
      }
    }
    forall c, k | c in cand && c !in r && 0 <= k < |r|
      ensures Ahead(items, r[k], c)
    {
      assert c in rest;
      if k > 0 { assert r[k] == tail[k - 1]; }
    }
  }

  /** The indices 0, 1, ..., n - 1. */
  function AllIndices(n: nat): (r: seq<nat>)
    ensures |r| == n && forall k :: 0 <= k < n ==> r[k] == k
  {
    seq(n, k requires 0 <= k < n => k)
  }

  /** The positions, among the items, of the entries `most_common(n)` returns. */
  function TopPositions(items: seq<Entry>, n: nat): seq<nat>
  {
    TopIndices(items, AllIndices(|items|), n)
  }

  /** `most_common(n)` over the items of a counter. */
  function MostCommon(items: seq<Entry>, n: nat): (top: seq<Entry>)
    ensures |top| == |TopPositions(items, n)|
    ensures forall k :: 0 <= k < |top| ==> top[k] == items[TopPositions(items, n)[k]]
  {
    var idx := TopPositions(items, n);
    seq(|idx|, k requires 0 <= k < |idx| => items[idx[k]])
  }

  /** `Counter(ws).most_common(n)`. */
  function TopCounts(ws: seq<string>, n: nat): seq<Entry>
  {
    MostCommon(Items(ws), n)
  }

  /** The list has one entry per distinct token, up to n of them. */
  lemma TopCountsLength(ws: seq<string>, n: nat)
    ensures |TopCounts(ws, n)| == Min(n, |Distinct(ws)|)
  {
  }

  /** Each entry is a distinct token with its exact number of occurrences. */
  lemma TopCountsExact(ws: seq<string>, n: nat)
    ensures forall k :: 0 <= k < |TopCounts(ws, n)| ==>
              TopCounts(ws, n)[k].word in ws && TopCounts(ws, n)[k].count == Count(ws, TopCounts(ws, n)[k].word)
    ensures forall i, j :: 0 <= i < j < |TopCounts(ws, n)| ==> TopCounts(ws, n)[i].word != TopCounts(ws, n)[j].word
  {
    var items, idx, ks := Items(ws), TopPositions(Items(ws), n), Distinct(ws);
    forall i, j | 0 <= i < j < |idx|
      ensures TopCounts(ws, n)[i].word != TopCounts(ws, n)[j].word
    {
      assert idx[i] != idx[j];
      assert ks[idx[i]] != ks[idx[j]] by {
        if idx[i] < idx[j] { } else { }
      }
    }
  }

  /** Entries come by descending count; among equal counts, the word that occurs first in
      the tokens comes first. */
  lemma TopCountsOrder(ws: seq<string>, n: nat)
    ensures var top := TopCounts(ws, n);
            forall i, j :: 0 <= i < j < |top| ==>
              top[i].count > top[j].count
              || (top[i].count == top[j].count && FirstIndex(ws, top[i].word) < FirstIndex(ws, top[j].word))
  {
    var items, idx, top := Items(ws), TopPositions(Items(ws), n), TopCounts(ws, n);
    forall i, j | 0 <= i < j < |top|
      ensures top[i].count > top[j].count
              || (top[i].count == top[j].count && FirstIndex(ws, top[i].word) < FirstIndex(ws, top[j].word))
    {
      assert Ahead(items, idx[i], idx[j]);
      if items[idx[i]].count == items[idx[j]].count {
        DistinctInFirstOccurrenceOrder(ws, idx[i], idx[j]);
      }
    }
  }

  /** No token left out of the list beats an entry of it: it has a smaller count, or the
      same count and a later first occurrence. */
  lemma TopCountsIsTop(ws: seq<string>, n: nat, w: string, k: nat)
    requires w in ws
    requires forall e :: e in TopCounts(ws, n) ==> e.word != w
    requires k < |TopCounts(ws, n)|
    ensures var e := TopCounts(ws, n)[k];
            e.count > Count(ws, w) || (e.count == Count(ws, w) && FirstIndex(ws, e.word) < FirstIndex(ws, w))
  {
    var items, idx, ks := Items(ws), TopPositions(Items(ws), n), Distinct(ws);
    var top := TopCounts(ws, n);
    var m :| 0 <= m < |ks| && ks[m] == w;
    assert items[m] == Entry(w, Count(ws, w));
    var all := AllIndices(|items|);
    assert m in all by {
      assert all[m] == m;
    }
    assert m !in idx;
    assert top[k] == items[idx[k]];
    assert Ahead(items, idx[k], m);
    if items[idx[k]].count == items[m].count {
      DistinctInFirstOccurrenceOrder(ws, idx[k], m);
    }
  }

  /** No token left out of top ranks above an entry of it: each entry has a higher count, or
      the same count and an earlier first occurrence. */
  ghost predicate BeatsTheRest(ws: seq<string>, top: seq<Entry>)
  {
    forall w, k :: w in ws && (forall e :: e in top ==> e.word != w) && 0 <= k < |top| && top[k].word in ws ==>
      top[k].count > Count(ws, w) || (top[k].count == Count(ws, w) && FirstIndex(ws, top[k].word) < FirstIndex(ws, w))
  }

  /** The top list beats every token it leaves out. */
  lemma TopCountsBeatTheRest(ws: seq<string>, n: nat)
    ensures BeatsTheRest(ws, TopCounts(ws, n))
  {
    var top := TopCounts(ws, n);
    forall w, k | w in ws && (forall e :: e in top ==> e.word != w) && 0 <= k < |top| && top[k].word in ws
      ensures top[k].count > Count(ws, w) || (top[k].count == Count(ws, w) && FirstIndex(ws, top[k].word) < FirstIndex(ws, w))
    {
      TopCountsIsTop(ws, n, w, k);
    }
  }

  /** No tokens, or `n == 0`, gives an empty list. */
  lemma TopCountsOfNothing(ws: seq<string>, n: nat)
    requires ws == [] || n == 0
    ensures TopCounts(ws, n) == []
  {
  }

  /** `contar_palabras(columna)`: the five most common words of a column with their counts,
      best first; among equal counts the word that occurs first comes first; no word left
      out ranks above an entry. */
  function CountWords(isWord: WordClass, column: seq<string>): (top: seq<Entry>)
    ensures var ws := ColumnWords(isWord, column);
            && |top| == Min(TopN, |Distinct(ws)|)
            && (forall k :: 0 <= k < |top| ==> top[k].word in ws && top[k].count == Count(ws, top[k].word))
            && (forall i, j :: 0 <= i < j < |top| ==>
                  top[i].count > top[j].count
                  || (top[i].count == top[j].count && FirstIndex(ws, top[i].word) < FirstIndex(ws, top[j].word)))
            && BeatsTheRest(ws, top)
  {
    var ws := ColumnWords(isWord, column);
    TopCountsLength(ws, TopN);
    TopCountsExact(ws, TopN);
    TopCountsOrder(ws, TopN);
    TopCountsBeatTheRest(ws, TopN);
    TopCounts(ws, TopN)
  }

  /** `contar_palabras` on an empty column returns an empty list. */
  lemma CountWordsOfEmptyColumn(isWord: WordClass)
    ensures CountWords(isWord, []) == []
  {
    assert Lower(Join(" ", [])) == [];
  }
}
