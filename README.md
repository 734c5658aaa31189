# scraperw: word frequencies and template sentences, in Dafny

`scraperw.py` fetches a table of Latin phrases with their English translations, saves it
to a spreadsheet, and counts the most frequent words of the *Latin* and *Translation*
columns. It then puts the five most frequent Translation words into five Spanish sentence
templates. This project models the part of the script that computes something:

- **Tokeniser** (`contar_palabras`, module `Tokenizer`). The column's values are joined
  with one space and lower-cased. The tokens are the matches of `\b[a-zA-Z]{4,}\b`. With
  Python's Unicode-aware `\b`, a match is a whole maximal run of word characters, made only
  of ASCII letters and at least four long. A run that also holds a digit, an underscore or
  an accented letter gives no token. It is not cut down to its letters.
- **Counter** (`Counter(...).most_common(5)`, module `Frequency`). This gives the five
  highest `(word, count)` pairs, by descending count. Among equal counts, the word seen
  first comes first: the counter keeps its keys in insertion order, and Python's sort is
  stable. `most_common` is modelled as repeated selection of the best remaining item. The
  order used is "higher count, then earlier key". The lemmas state what that selection
  promises in terms of the tokens themselves.
- **Keyword projection** (`guardar_y_analizar`, module `Pipeline`). There is no list when
  there is no table. Otherwise the list is the words of the Translation column's top
  list, in order, without their counts.
- **Sentence generator** (`crear_frases`, module `Sentences`). A `while` loop appends
  `"vida"` to the caller's list, in place, until the list has five entries. Then each of
  the five templates gets keyword `i` in its single `{}` slot. `str.format` is modelled for
  one positional argument, with its error cases. The list is a `KeywordList` object whose
  `words` field the method grows. The method returns the sentences the script prints.
- **Main guard** (`Pipeline.Run`). The generator runs only when the keyword list exists
  and is not empty.

`\w` is a parameter `isWord: char -> bool`. It is constrained (`ValidWordClass`) to agree
with Python on ASCII: letters, digits and `_` are word characters, and the space,
control characters and ASCII punctuation are not. Outside ASCII it is left free, so every
result holds for any Unicode table that agrees on ASCII.

Files: `common.dfy` (Option, Result, Min, Max), `text.dfy` (characters, lower-casing,
`str.join`), `tokenizer.dfy`, `frequency.dfy`, `sentences.dfy`, `pipeline.dfy`.

## Model

| member | source | states |
|---|---|---|
| `Text.Lower` | scraperw.py:65 | `str.lower` on ASCII: same length, and each character is lower-cased on its own (`A`-`Z` to `a`-`z`, everything else unchanged); `Tokenizer.TokensNeverSpanValues` shows lower-casing the joined text is lower-casing each value |
| `Text.Join` | scraperw.py:65 | `" ".join(...)`: the result is empty for no values, starts with the first value, holds the separator right after it when there are two or more, and ends with the last value; `Tokenizer.TokensNeverSpanValues` shows the separator never joins two values into one token |
| `Tokenizer.RunLength` | scraperw.py:66 | the run of word characters at the front of a text is maximal: every character in it is a word character, and the next one, if any, is not |
| `Tokenizer.Tokens` | scraperw.py:66 | every match of `\b[a-zA-Z]{4,}\b` consists of ASCII letters only and is at least four long |
| `Tokenizer.TokensSound` | scraperw.py:66 | every token appears in the text as a maximal run of word characters (word boundary on both sides), made of four or more ASCII letters |
| `Tokenizer.TokensComplete` | scraperw.py:66 | every maximal run of word characters made of four or more ASCII letters is a token |
| `Tokenizer.TokensSplit` | scraperw.py:66 | matching splits at any point next to a non-word character: the tokens of `a + b` are those of `a` followed by those of `b` |
| `Tokenizer.TokensOfMaximalRun` | scraperw.py:66 | a maximal run between non-word characters adds itself at its place in the token list when it qualifies, and nothing otherwise |
| `Tokenizer.RunThenRest` | scraperw.py:66 | a run of word characters followed by a non-word character (or the end) contributes its own tokens first, then the rest's |
| `Tokenizer.ImpureRunYieldsNothing` | scraperw.py:66 | a maximal run that holds a word character other than an ASCII letter (digit, `_`, accented letter) adds no token, so no part of it is counted |
| `Tokenizer.ColumnWords` | scraperw.py:65-66 | the words `contar_palabras` counts, the tokens of the lower-cased, space-joined column: each one four or more ASCII letters; `TokensNeverSpanValues` and `ColumnWordShape` give the rest |
| `Tokenizer.TokensNeverSpanValues` | scraperw.py:65-66 | tokens never span two column values: the tokens of the space-joined, lower-cased column are the tokens of its values, one value after another |
| `Tokenizer.ColumnWordShape` | scraperw.py:65-66 | every counted word is lower-case ASCII letters, at least four, and stands in the lower-cased joined column as a maximal run of word characters |
| `Frequency.Distinct` | scraperw.py:67 | the counter's keys: exactly the tokens, each once |
| `Frequency.DistinctCount` | scraperw.py:67 | the counter has as many keys as there are distinct tokens |
| `Frequency.FirstIndex` | scraperw.py:67 | the position of a word's first occurrence among the tokens |
| `Frequency.DistinctInFirstOccurrenceOrder` | scraperw.py:67 | the counter's keys are in the order in which the words first occur |
| `Frequency.Items` | scraperw.py:67 | the counter's items: one `(word, count)` pair per key of `Distinct`, in insertion order, each with the word's exact number of occurrences |
| `Frequency.Best` | scraperw.py:67 | the selected item is a candidate and comes before every other candidate in a stable sort by descending count |
| `Frequency.TopIndices` | scraperw.py:67 | the selection has `min(n, candidates)` distinct candidates, in stable descending-count order, and every candidate left out comes after each selected one |
| `Frequency.MostCommon` | scraperw.py:67 | `most_common(n)`: the items at the selected positions, in selection order; `TopCountsLength`, `TopCountsExact`, `TopCountsOrder` and `TopCountsIsTop` state what this gives in terms of the tokens |
| `Frequency.TopCountsLength` | scraperw.py:67 | `most_common(n)` has `min(n, number of distinct tokens)` entries |
| `Frequency.TopCountsExact` | scraperw.py:67 | each entry is a token with its exact number of occurrences, and no word appears twice |
| `Frequency.TopCountsOrder` | scraperw.py:67 | entries come by descending count, and equal counts come in order of first occurrence |
| `Frequency.TopCountsIsTop` | scraperw.py:67 | a token left out has a lower count than each entry, or the same count and a later first occurrence |
| `Frequency.TopCountsBeatTheRest` | scraperw.py:67 | every entry of `most_common(n)` ranks above every token left out: a higher count, or the same count and an earlier first occurrence |
| `Frequency.TopCountsOfNothing` | scraperw.py:67 | no tokens, or `n == 0`, gives an empty list |
| `Frequency.CountWords` | scraperw.py:64-67 | `contar_palabras(columna)`: `min(5, distinct column words)` entries, each a column word with its exact count, by descending count, equal counts in order of first occurrence, and no column word left out ranks above an entry (`BeatsTheRest`: a higher count, or the same count and an earlier first occurrence, for every entry) |
| `Frequency.CountWordsOfEmptyColumn` | scraperw.py:64-67 | `contar_palabras` of an empty column is an empty list |
| `Pipeline.WordsOf` | scraperw.py:79 | the list comprehension drops the counts: one word per entry, in the same order |
| `Pipeline.TopWordsInOrder` | scraperw.py:67-79 | each returned word ranks before the next: it occurs more often, or as often and earlier |
| `Pipeline.TopWordsBeatTheRest` | scraperw.py:67-79 | each returned word ranks before every token that is not returned |
| `Pipeline.Keywords` | scraperw.py:56-57 | the keyword result is `None` exactly when there is no table |
| `Pipeline.KeywordsAreTopTranslationWords` | scraperw.py:69-79 | with a table, the keywords are the Translation column's top words in order, counts dropped: `min(5, distinct words)` of them, no repeats, each a lower-case ASCII word of four or more letters from the column, each ranking before the next and before every column word left out (more occurrences, or as many and earlier), and the Latin column does not affect them |
| `Sentences.FormatLiteral` | scraperw.py:102 | `str.format` copies text without braces unchanged |
| `Sentences.FormatSingleSlot` | scraperw.py:102 | a template whose only braces are one `{}` formats to the text before the slot, the argument, and the text after it |
| `Sentences.Format` | scraperw.py:102 | `t.format(arg)`: text without braces formats to itself; `FormatSingleSlot` gives the one-slot case and `FormatFrom`'s error results give the failures |
| `Sentences.FormatWithoutSlot` | scraperw.py:102 | text without a slot ignores its argument, whether or not an earlier slot used it |
| `Sentences.TemplatePartsHaveNoBraces` | scraperw.py:89-95 | the text before and after the slot of each of the five templates holds no brace |
| `Sentences.TemplatesHaveOneSlot` | scraperw.py:89-95 | each of the five templates has exactly one `{}` slot, right after its first part, and no other brace, so formatting them cannot fail |
| `Sentences.Padded` | scraperw.py:98-99 | after padding, the list has `max(original length, 5)` entries, the original entries are an unchanged prefix, and every added entry is `"vida"` |
| `Sentences.PaddedUnique` | scraperw.py:98-99 | those three properties determine the padded list |
| `Sentences.AllSentences` | scraperw.py:101-102 | exactly five sentences; sentence `i` is template `i` formatted with keyword `i` of the padded list |
| `Sentences.SentenceKeywordRoundTrip` | scraperw.py:101-102 | keyword `i` of the padded list can be read back from sentence `i` |
| `Sentences.SentencesIgnoreExtraKeywords` | scraperw.py:101-102 | keywords past the fifth do not change the sentences |
| `Sentences.KeywordList.constructor` | scraperw.py:82 | the list object holds the caller's keywords |
| `Sentences.KeywordList.Append` | scraperw.py:99 | `append` adds one word at the end and changes nothing else |
| `Sentences.CreateSentences` | scraperw.py:82-102 | pads the caller's list in place (new length, unchanged prefix, `"vida"` after it) and returns the five sentences of the original list |
| `Pipeline.Run` | scraperw.py:108-113 | sentences are produced, five of them from the keyword list, only when that list exists and is not empty; otherwise there are none |
| `Pipeline.NoSentencesWithoutKeywords` | scraperw.py:112-113 | the keyword list is present and non-empty exactly when there is a table whose Translation column has at least one qualifying word |

## Left out

- `obtener_frases` (HTTP fetch, HTML table parsing, `concat`, column check, `dropna`) is network and library I/O. Its result is the parameter `data: Option<Table>`: two columns of strings, or `None`.
- `to_excel` is file I/O and is not modelled. Neither is any `print`, including the `1.`-style numbering of printed sentences. The generator returns its sentences instead of printing them.
- The Latin column's top list is computed by the script only to be printed. It is the same `contar_palabras`, modelled by `Frequency.CountWords`, and it is not part of `Pipeline.Keywords`.
- `astype(str)` is not modelled: columns are taken as sequences of strings.
- Lower-casing covers ASCII `A`-`Z` only. Python's full Unicode `str.lower` is not modelled. It can change lengths, and it maps a few non-ASCII characters (the Kelvin sign, for one) to ASCII letters that could then match.
- The Unicode `\w` table is a parameter constrained only on ASCII. The regular-expression engine itself is not modelled. The tokeniser is specified directly as a scan over maximal runs of word characters.
- `Sentences.Format` handles `{}`, `{{` and `}}` the way `str.format` does. Numbered or named fields, conversions and format specs are reported as `FieldNotModelled` instead of being interpreted. None of the five templates uses them.
