# FAQ matcher of Champion Cleaners, modelled in Dafny

Champion Cleaners is a dry-cleaning web app. Its FAQ page answers a free-text
question by matching it against a fixed catalog of question/answer/keyword
entries. The repository has two matchers, and this project models both of them:

- **utils.py** has the integer scorer. It extracts keywords from the query:
  lower-case the query, split on whitespace, strip punctuation, and drop short
  words and stop words. It folds plurals (`normalize_word`). It then scores
  every catalog entry with five weighted signals:
  - 100 per query keyword matching a question keyword;
  - 50 per query keyword matching an answer keyword;
  - 60 per one- or two-keyword phrase found in the question;
  - 25 per such phrase found in the answer;
  - 30 per element shared by the two normalized keyword sets.

  `search_faq` returns the first entry with the highest score, or nothing when
  every entry scores 0.
- **faq_data.py** has the capped-confidence matcher.
  - `calculate_similarity` adds 0.4 per catalog keyword found in the query and
    0.1 per long question word found in the query. The question-word part is
    capped at 0.3 and the total at 1.0.
  - `retrieve_faq_answer` returns the first best entry, but only when its score
    is above 0.15.
  - `search_faq` lists every entry scoring above 0.1, highest score first,
    with a stable sort.

How the model is built:

- The catalog is passed in as an immutable `seq<FaqEntry>`. Neither matcher can
  change it, and each result row (`Ranking.Scored`) is a new value.
- Each `for` statement of the source sits in a method: `GetKeywords`,
  `NormalizeKeywords`, `CountMatches`, `CountPhrasesAt`, `CountPhraseHits`,
  `ScoreEntry`, both `SearchFaq`s, `BestMatch` and `RetrieveFaqAnswer`.
- The comprehensions and generator sums are functions. These are `CleanWord`
  (utils.py:43), `NormalizedList` (utils.py:92, 102), `CountIn`
  (faq_data.py:129) and `LongWordHits` (faq_data.py:134).
- Each such method is proved equal to a specification function (`KeywordsOf`,
  `NormalizedSet`, `Matches`, `PhraseHits`, `EntryScore`, `SearchResult`,
  `Similarity`, `Retrieve`, `Search`).
- What the source promises is proved as lemmas about those functions.

Modules:

- `Text`: the ASCII string built-ins the code relies on: `lower`, `strip`,
  `split`, `in`, `endswith`, `' '.join`, and counting substrings.
- `Catalog`: the entry record and the shared short-query gate.
- `Selection`: the strict-`>` best-so-far scan shared by both matchers.
- `Ranking`: result rows and the stable descending sort.
- `Utils`: utils.py.
- `FaqData`: faq_data.py.
- `Sample`: the twenty catalog entries of `FAQ_DATA`, and two query scenarios.

Scores of faq_data.py are integer tenths: 0.4 is 4, 0.3 is 3 and 1.0 is 10. The
floors 0.15 and 0.1 are compared in hundredths, as `10 * score > 15` and
`10 * score > 10`.

## Model

| member | source | states |
|---|---|---|
| Utils.FoldPlural | utils.py:18-34 | The if/elif chain on the lower-cased, stripped word never gives a result longer than that word. |
| Utils.NormalizeWord | utils.py:16-34 | `normalize_word`: the result is no longer than the lower-cased, stripped word, which is no longer than the word. |
| Utils.FoldPluralRules | utils.py:19-34 | The if/elif chain in order. A word ending in "ies" becomes the word without its last 3 characters plus "y". Otherwise "sses", "ches", "xes", "zes" and "oes" lose exactly 2 characters. Otherwise a final "s" outside "ss" is dropped. Otherwise the word is returned unchanged. |
| Utils.FoldPluralIdempotent | utils.py:19-34 | Folding a folded word changes nothing, for every word. |
| Utils.FoldPluralExamples | utils.py:20-33 | The code's results on the words in the source comments. "babies" gives "baby", "dresses" "dress", "boxes" "box", "buzzes" "buzz" and "books" "book". "dishes" gives "dishe", not "dish". "shoes" gives "sho", not "shoe", and "shoe" stays "shoe". |
| Utils.NormalizeWordIdempotent | utils.py:16-34 | On a lower-case alphanumeric word, `normalize_word` applied twice gives the same result as applied once. |
| Text.SplitFacts | utils.py:38 | Every `split()` token is non-empty and has no whitespace. A string without upper-case letters gives tokens without them. |
| Utils.CleanWordFacts | utils.py:43 | The cleaned word is alphanumeric and keeps lower case. An already alphanumeric word is unchanged. |
| Utils.FilterKeywordsShape | utils.py:41-47 | Every kept word is longer than 2 characters, not a stop word and alphanumeric. It is lower-case when the tokens are. There are no more kept words than tokens. |
| Utils.FilterKeywordsOrder | utils.py:41-47 | The kept words are the cleaned tokens with some removed, in token order. |
| Utils.FilterKeywordsKeeps | utils.py:43-47 | A token whose cleaned form is longer than 2 characters and not a stop word is kept. |
| Utils.FilterKeywordsCount | utils.py:41-47 | There are exactly as many kept words as token positions whose cleaned form is a keyword. |
| Utils.KeywordsOfShape | utils.py:36-49 | `get_keywords`, as the function `KeywordsOf`, gives lower-case alphanumeric words longer than 2 characters that are not stop words. Every token whose cleaned form passes that test is among them. They keep token order, one per qualifying token, so there are at most as many as whitespace tokens. |
| Utils.GetKeywords | utils.py:36-49 | The loop computes exactly `KeywordsOf(text)`. |
| Utils.NormalizedSetMembers | utils.py:63-66 | A string is in the normalized set iff it is some keyword or the normalization of some keyword. |
| Utils.NormalizedSetSize | utils.py:63-66 | The normalized set has at most 2 elements per keyword. |
| Utils.NormalizeKeywords | utils.py:63-66 | The set-building loop computes exactly `NormalizedSet(keywords)`. This also covers utils.py:81-84. |
| Utils.MatchesPositive | utils.py:90-93 | A query keyword that passes the match test makes the match count at least 1. |
| Utils.CountMatches | utils.py:89-93 | The loop computes `Matches`, the count of query keywords that pass the match test. This also covers utils.py:99-103. |
| Utils.PhrasesAtShape | utils.py:110-111 | From start position i, the phrases are the keyword alone, then the keyword, a space and its successor when there is one. Phrases have 1 or 2 keywords. |
| Utils.AllPhrasesCount | utils.py:109-111 | n keywords give 2n-1 phrases. |
| Utils.CountPhrasesAt | utils.py:110-113 | The inner loop counts the phrases from start position i that occur in the text. |
| Utils.CountPhraseHits | utils.py:109-113 | The nested loops count exactly the phrase hits `PhraseHits`. This also covers utils.py:116-120. |
| Utils.SignalScoreBound | utils.py:86-125 | For a non-empty query, the five weighted signals total at most 380n - 85 for n query keywords. |
| Utils.EntryScoreBound | utils.py:72-125 | An entry's score, the function `EntryScore`, is bounded by the query alone: at most 380n - 85. |
| Utils.SignalQuestionHit | utils.py:89-96 | A query keyword that is a question keyword adds at least 100 + 30 to the signals. |
| Utils.QuestionKeywordHit | utils.py:72-125 | A query keyword among an entry's question keywords gives that entry a score of at least 130. |
| Utils.ScoreEntry | utils.py:72-125 | The per-entry loop body computes exactly `EntryScore`: the weighted sum of the five counts. |
| Utils.BestEntry | utils.py:128-132 | No result iff every score is 0. Otherwise the result is the entry at the first position holding the positive maximum. |
| Utils.SearchResult | utils.py:53-60 | An empty question, one shorter than 3 characters after strip, or one with no keywords gives no result. |
| Utils.SearchFaq | utils.py:51-132 | The method returns exactly `SearchResult(question, catalog)`. |
| Selection.ScanMeaning | utils.py:128-130 | After n scores, the strict-`>` scan starting from 0 holds nothing iff its best score is 0, which happens only when every score is 0. Otherwise it holds the first position of the positive maximum, with that score. |
| Selection.FirstMaxMeaning | faq_data.py:158-162 | The final index is absent iff every score is 0. Otherwise it is the first position of the positive maximum. |
| Text.CountInIsFoundAt | faq_data.py:128-129 | The counted sum equals the number of list positions whose keyword is a substring of the query. |
| FaqData.LongWordHitsIsLongFoundAt | faq_data.py:133-134 | The question-word count equals the number of word positions whose word is longer than 3 characters and occurs in the query. |
| FaqData.Similarity | faq_data.py:113-139 | The similarity lies in [0, 1.0]. It is 0 iff no keyword and no long question word occurs. It is 1.0 once 3 keywords occur, and below 1.0 with at most 1 keyword. |
| FaqData.SimilarityParts | faq_data.py:124-138 | The similarity is min(0.4 × matched keyword positions + min(0.1 × matched long question words, 0.3), 1.0). |
| FaqData.SimilarityExtend | faq_data.py:124-138 | Appending text to a query never lowers its similarity to any entry. |
| FaqData.VerdictMeaning | faq_data.py:158-172 | `Verdict` is the scan followed by the floor test of faq_data.py:165-172. A positive confidence comes from the first position of the maximal score, and that score is above 0.15. Zero confidence means the empty triple, and no score is above 0.15. |
| FaqData.Retrieve | faq_data.py:152-153 | A query that is empty or shorter than 3 characters after strip gives `("", "Please ask a more specific question.", 0)`. |
| FaqData.RetrieveMatch | faq_data.py:155-172 | A returned confidence is the similarity of the returned entry. It is at least 0.2, no entry scores higher, and every earlier entry scores lower. The confidence is 0 iff every similarity is at most 0.1. |
| FaqData.BestMatch | faq_data.py:155-162 | The scan returns the entry and score at `FirstMax` of the similarities, or (nothing, 0). |
| FaqData.RetrieveFaqAnswer | faq_data.py:142-172 | The method returns exactly `Retrieve(query, catalog)`. |
| FaqData.AboveFloorMembers | faq_data.py:191-198 | A row is kept iff it is one of the rows and its score is above 0.1. |
| FaqData.AboveFloorTies | faq_data.py:191-198 | The filter keeps every row of a score above 0.1, in catalog order. |
| Ranking.StableSortDesc | faq_data.py:200 | `list.sort(key=score, reverse=True)`: the same rows as a multiset, in non-increasing score order. |
| Ranking.StableSortKeepsTies | faq_data.py:200 | The sort is stable: the rows of each score keep their relative order. |
| FaqData.RankedMembers | faq_data.py:190-200 | The ranking holds exactly the rows (entry j, score j) whose score is above 0.1. |
| FaqData.RankedTies | faq_data.py:190-200 | The rows of a score above 0.1 appear in catalog order. No row of a lower score appears. |
| FaqData.RankedMeaning | faq_data.py:190-200 | The ranking is in non-increasing order, holds exactly the rows above 0.1, and orders ties by catalog position. |
| FaqData.SearchMeaning | faq_data.py:180-201 | `search_faq`, as the function `Search`, returns exactly (entry j, similarity j) for the entries above 0.1, highest first, with ties in catalog order. |
| FaqData.SearchFaq | faq_data.py:180-201 | The method returns exactly `Search(query, catalog)`. |
| FaqData.VerdictHeadsRanking | faq_data.py:158-200 | For the same scores, a confident verdict is the first ranked row, with the same question, answer and score. |
| FaqData.RetrieveHeadsSearch | faq_data.py:160-200 | When `retrieve_faq_answer` finds a match, `search_faq` on the same query lists that entry first, with the same score. app.py:592-594 relies on this when it shows `related[1:4]` as the next matches. |
| Sample.TurnaroundSimilarity | faq_data.py:10-14 | "Turnaround time in days?" contains three keywords of the turnaround entry, so their similarity is 1.0. |
| Sample.TurnaroundMatchesFirstEntry | faq_data.py:152-172 | In a catalog starting with the turnaround entry, the query retrieves that entry with confidence 1.0. `search_faq` lists it first with score 1.0. |
| Sample.TurnaroundInFaqCatalog | faq_data.py:9-172 | On the twenty-entry catalog itself, the query retrieves the turnaround entry with confidence 1.0. `search_faq` lists it first with score 1.0. |
| Sample.ShortQueryRejected | faq_data.py:152-153 | "ok" gets the short-query reply from `retrieve_faq_answer` and no result from utils' `search_faq`, whatever the catalog. |

## Left out

- The UI, database, order tracking, offers and configuration code: Streamlit and Flask pages, `backend.py`, `database.py` and `config.py`. Only the two matchers are modelled.
- Scores as floating point: faq_data.py's similarities are kept as exact integer tenths. The keyword part is a multiple of 0.4 and the question part is at most 0.3, so a score fixes its two counts. Every comparison the code makes therefore turns out the same as on the floats, but the float rounding itself is not modelled.
- Unicode: `lower`, `strip`, `split` and `isalnum` are modelled on ASCII only.
- Catalog source: utils.py imports `FAQ_DATA` from config.py, which does not define it. faq_data.py reads its own module-level list. Both are modelled with the catalog as a parameter, and `Sample.FaqCatalog` holds the twenty entries of faq_data.py:9-110.
- The other example queries, such as "bag cleaning" and "xyzzy quantum flux", are not stated. Their outcome depends on the similarity of every one of the twenty entries. Pinning those down needs a proof that each keyword and each long question word of every entry is absent from the query, and the model does not carry those proofs. The turnaround query needs only its own entry's similarity and the first-entry position.
- A FAQ record without a "keywords" field: `faq_item.get("keywords", [])` is modelled only as the record's keyword list, with a missing list written as `[]`.
- `faq_full_text` (utils.py:74) and `question_lower` (utils.py:56) are computed but never used.
- The truthiness test `best_match and ...` (faq_data.py:165): a non-empty record is always truthy, so the test is modelled as "a match was found".
- FaqData.SearchFaq: `results.sort` works in place on a list. The model computes the sorted list as a new value with `Ranking.StableSortDesc`.
- `get_all_faq` returns the catalog unchanged, so it has no model of its own.
- The comments of utils.py:25 and 31 name results the code does not give: "dishes" becomes "dishe" and "shoes" becomes "sho". The model follows the code, as `Utils.FoldPluralExamples` shows. The intended rule cannot be read off the code, because the "oes" rule is right for words like "heroes". So no corrected chain is modelled.
- STOP_WORDS lists 'this' twice. As a set it holds the word once, and `Utils.StopWords` does too.
- Phrase length: the loops of utils.py:109-120 build phrases of 1 or 2 keywords, because `j` runs up to `i + 2`. `Utils.PhrasesAtShape` states this.
