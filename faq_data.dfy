/** The capped-confidence FAQ matcher of faq_data.py: a similarity in [0, 1]
    (kept here in integer tenths), the best single answer above a confidence floor,
    and the ranked list of related entries. */
module FaqData {
  import opened Text
  import opened Catalog
  import opened Selection
  import opened Ranking

  /** The reply to a query too short to match (faq_data.py:152-153). */
  const ShortQueryReply := "Please ask a more specific question."

  // Similarities are counted in tenths: 0.4 is 4, 0.1 is 1, 0.3 is 3, 1.0 is 10.
  const KeywordWeight := 4
  const QuestionWordWeight := 1
  const QuestionPartCap := 3
  const ScoreCap := 10
  /** Question words count only when longer than this (faq_data.py:134). */
  const LongWordMin := 3

  // The two floors, 0.15 and 0.1, in hundredths.
  const ConfidenceFloor := 15
  const RelatedFloor := 10

  /** A score in tenths lies strictly above a floor in hundredths. */
  predicate Exceeds(tenths: nat, hundredths: nat) {
    10 * tenths > hundredths
  }

  // ---------------------------------------------------------------------------
  // calculate_similarity

  /** The word is longer than LongWordMin and occurs in the text. */
  predicate LongFound(text: string, w: string) {
    |w| > LongWordMin && Contains(text, w)
  }

  /** How many of the words are longer than LongWordMin and occur in the text. */
  function LongWordHits(text: string, words: seq<string>): (n: nat)
    ensures n <= |words|
  {
    if words == [] then 0
    else
      var last := words[|words| - 1];
      LongWordHits(text, words[..|words| - 1])
      + (if LongFound(text, last) then 1 else 0)
  }

  /** The positions of the long words that occur in the text. */
  function LongFoundAt(text: string, words: seq<string>): set<nat> {
    set i: nat | i < |words| && LongFound(text, words[i])
  }

  lemma {:induction false} LongWordHitsIsLongFoundAt(text: string, words: seq<string>)
    ensures LongWordHits(text, words) == |LongFoundAt(text, words)|
  {
    if words != [] {
      var n := |words| - 1;
      var init := words[..n];
      LongWordHitsIsLongFoundAt(text, init);
      var before, after := LongFoundAt(text, init), LongFoundAt(text, words);
      forall i: nat | i < n
        ensures i in after <==> i in before
      {
        assert init[i] == words[i];
      }
      assert n !in before;
      if LongFound(text, words[n]) {
        assert after == before + {n};
      } else {
        assert after == before;
      }
    }
  }

  lemma {:induction false} LongWordHitsExtend(text: string, extra: string, words: seq<string>)
    ensures LongWordHits(text + extra, words) >= LongWordHits(text, words)
  {
    if words != [] {
      var last := words[|words| - 1];
      LongWordHitsExtend(text, extra, words[..|words| - 1]);
      if LongFound(text, last) {
        ContainsExtend(text, extra, last);
      }
    }
  }

  /** Catalog keywords found in the lowercased query (faq_data.py:128-129). */
  function KeywordHits(query: string, faq: FaqEntry): (n: nat)
    ensures n <= |faq.keywords|
  {
    CountIn(Lower(query), faq.keywords)
  }

  /** The whitespace-separated words of the lowercased question (faq_data.py:133). */
  function QuestionWords(faq: FaqEntry): seq<string> {
    Split(Lower(faq.question))
  }

  /** Long question words found in the lowercased query (faq_data.py:134). */
  function QuestionWordHits(query: string, faq: FaqEntry): (n: nat)
    ensures n <= |QuestionWords(faq)|
  {
    LongWordHits(Lower(query), QuestionWords(faq))
  }

  /** calculate_similarity (faq_data.py:113-139), in tenths. */
  function Similarity(query: string, faq: FaqEntry): (r: nat)
    ensures r <= ScoreCap
    ensures r == 0 <==> KeywordHits(query, faq) == 0 && QuestionWordHits(query, faq) == 0
    ensures KeywordHits(query, faq) >= 3 ==> r == ScoreCap
    ensures KeywordHits(query, faq) <= 1 ==> r < ScoreCap
  {
    Min(KeywordWeight * KeywordHits(query, faq)
        + Min(QuestionWordWeight * QuestionWordHits(query, faq), QuestionPartCap),
        ScoreCap)
  }

  /** The similarity counts catalog keywords, each position of the keyword list on
      its own, and distinct positions of long question words found in the query. */
  lemma SimilarityParts(query: string, faq: FaqEntry)
    ensures Similarity(query, faq)
            == Min(4 * |FoundAt(Lower(query), faq.keywords)|
                   + Min(|LongFoundAt(Lower(query), QuestionWords(faq))|, 3), 10)
  {
    CountInIsFoundAt(Lower(query), faq.keywords);
    LongWordHitsIsLongFoundAt(Lower(query), QuestionWords(faq));
  }

  /** Adding words to the end of a query never lowers its similarity to an entry. */
  lemma SimilarityExtend(query: string, extra: string, faq: FaqEntry)
    ensures Similarity(query + extra, faq) >= Similarity(query, faq)
  {
    LowerConcat(query, extra);
    CountInExtend(Lower(query), Lower(extra), faq.keywords);
    LongWordHitsExtend(Lower(query), Lower(extra), QuestionWords(faq));
  }

  // ---------------------------------------------------------------------------
  // retrieve_faq_answer

  /** The (question, answer, confidence) triple; the confidence in tenths. */
  datatype Answer = Answer(question: string, answer: string, confidence: nat)

  /** The triple returned for a query too short to match (faq_data.py:152-153). */
  const ShortQuery := Answer("", ShortQueryReply, 0)

  /** The empty triple returned when nothing clears the floor (faq_data.py:172). */
  const NoMatch := Answer("", "", 0)

  function Similarities(query: string, catalog: seq<FaqEntry>): (r: seq<nat>)
    ensures |r| == |catalog|
    ensures forall i :: 0 <= i < |catalog| ==> r[i] == Similarity(query, catalog[i])
  {
    seq(|catalog|, i requires 0 <= i < |catalog| => Similarity(query, catalog[i]))
  }

  /** What the loop and the floor test of faq_data.py:155-172 settle on. */
  function Verdict(scores: seq<nat>, catalog: seq<FaqEntry>): Answer
    requires |scores| == |catalog|
  {
    match FirstMax(scores)
    case None => NoMatch
    case Some(i) =>
      if Exceeds(scores[i], ConfidenceFloor) then
        Answer(catalog[i].question, catalog[i].answer, scores[i])
      else
        NoMatch
  }

  /** A confident verdict is the earliest highest-scoring entry, with its score,
      above the floor; otherwise no entry clears the floor. */
  lemma VerdictMeaning(scores: seq<nat>, catalog: seq<FaqEntry>)
    requires |scores| == |catalog|
    ensures var r := Verdict(scores, catalog);
      r.confidence > 0 ==>
        exists i :: 0 <= i < |catalog| && IsFirstMax(scores, i) && Exceeds(scores[i], ConfidenceFloor)
                    && r == Answer(catalog[i].question, catalog[i].answer, scores[i])
    ensures var r := Verdict(scores, catalog);
      r.confidence == 0 ==>
        r == NoMatch && forall i :: 0 <= i < |scores| ==> !Exceeds(scores[i], ConfidenceFloor)
  {
    var m := FirstMax(scores);
    FirstMaxMeaning(scores);
    if m.Some? {
      assert IsFirstMax(scores, m.value);
    }
  }

  /** What retrieve_faq_answer returns, as a value. */
  function Retrieve(query: string, catalog: seq<FaqEntry>): (r: Answer)
    ensures TooShort(query) ==> r == ShortQuery
  {
    if TooShort(query) then ShortQuery
    else Verdict(Similarities(query, catalog), catalog)
  }

  /** The scan of faq_data.py:155-163: the earliest entry of highest similarity,
      if any entry scores above 0, and that similarity. */
  method BestMatch(query: string, catalog: seq<FaqEntry>)
    returns (bestMatch: Option<FaqEntry>, bestScore: nat)
    ensures var scores := Similarities(query, catalog);
      match FirstMax(scores)
      case None => bestMatch == None && bestScore == 0
      case Some(i) => bestMatch == Some(catalog[i]) && bestScore == scores[i]
  {
    bestMatch := None;
    bestScore := 0;
    ghost var bestIndex: Option<nat> := None;
    ghost var scores := Similarities(query, catalog);
    for i := 0 to |catalog|
      invariant (bestIndex, bestScore) == Scan(scores, i)
      invariant bestMatch == if bestIndex.Some? then Some(catalog[bestIndex.value]) else None
    {
      var score := Similarity(query, catalog[i]);
      if score > bestScore {
        bestScore := score;
        bestMatch := Some(catalog[i]);
        bestIndex := Some(i);
      }
    }
    ScanScore(scores);
  }

  /** retrieve_faq_answer (faq_data.py:142-172) over a catalog given as a parameter. */
  method RetrieveFaqAnswer(query: string, catalog: seq<FaqEntry>) returns (result: Answer)
    ensures result == Retrieve(query, catalog)
  {
    if |query| == 0 || |Strip(query)| < 3 {
      return ShortQuery;
    }
    var bestMatch, bestScore := BestMatch(query, catalog);
    if bestMatch.Some? && Exceeds(bestScore, ConfidenceFloor) {
      return Answer(bestMatch.value.question, bestMatch.value.answer, bestScore);
    }
    return NoMatch;
  }

  /** A returned confidence is the similarity of the returned entry, that entry is
      the earliest with the highest similarity, and no match means every entry is
      at or below the floor. */
  lemma RetrieveMatch(query: string, catalog: seq<FaqEntry>)
    requires !TooShort(query)
    ensures var r, sims := Retrieve(query, catalog), Similarities(query, catalog);
      r.confidence > 0 ==>
        exists i :: 0 <= i < |catalog|
          && r == Answer(catalog[i].question, catalog[i].answer, sims[i])
          && sims[i] >= 2
          && (forall j :: 0 <= j < |catalog| ==> sims[j] <= sims[i])
          && (forall j :: 0 <= j < i ==> sims[j] < sims[i])
    ensures var r, sims := Retrieve(query, catalog), Similarities(query, catalog);
      r.confidence == 0 <==> forall i :: 0 <= i < |catalog| ==> sims[i] <= 1
  {
    var sims := Similarities(query, catalog);
    var r := Retrieve(query, catalog);
    VerdictMeaning(sims, catalog);
    if r.confidence > 0 {
      var i :| 0 <= i < |catalog| && IsFirstMax(sims, i) && Exceeds(sims[i], ConfidenceFloor)
               && r == Answer(catalog[i].question, catalog[i].answer, sims[i]);
      assert sims[i] >= 2;
    }
  }

  // ---------------------------------------------------------------------------
  // search_faq

  /** Each entry paired with its score, in catalog order. */
  function Rows(scores: seq<nat>, catalog: seq<FaqEntry>): (r: seq<Scored>)
    requires |scores| == |catalog|
    ensures |r| == |catalog|
    ensures forall i :: 0 <= i < |catalog| ==> r[i] == Scored(catalog[i], scores[i])
  {
    seq(|catalog|, i requires 0 <= i < |catalog| => Scored(catalog[i], scores[i]))
  }

  /** The rows the loop of faq_data.py:192-198 keeps: those above the related floor. */
  function AboveFloor(rows: seq<Scored>): (r: seq<Scored>)
    ensures |r| <= |rows|
    ensures forall k :: 0 <= k < |r| ==> Exceeds(r[k].score, RelatedFloor)
  {
    if rows == [] then []
    else
      var last := rows[|rows| - 1];
      AboveFloor(rows[..|rows| - 1]) + (if Exceeds(last.score, RelatedFloor) then [last] else [])
  }

  /** A row is kept exactly when it is one of the rows and scores above the floor. */
  lemma {:induction false} AboveFloorMembers(rows: seq<Scored>, x: Scored)
    ensures x in AboveFloor(rows) <==> x in rows && Exceeds(x.score, RelatedFloor)
  {
    if rows != [] {
      var init := rows[..|rows| - 1];
      assert rows == init + [rows[|rows| - 1]];
      AboveFloorMembers(init, x);
    }
  }

  lemma {:induction false} AboveFloorConcat(a: seq<Scored>, b: seq<Scored>)
    ensures AboveFloor(a + b) == AboveFloor(a) + AboveFloor(b)
  {
    if b == [] {
      assert a + b == a;
    } else {
      var n := |b| - 1;
      assert (a + b)[..|a + b| - 1] == a + b[..n];
      assert (a + b)[|a + b| - 1] == b[n];
      AboveFloorConcat(a, b[..n]);
    }
  }

  /** Above the floor, the kept rows of one score are all the rows of that score,
      in their original order. */
  lemma {:induction false} AboveFloorTies(rows: seq<Scored>, v: nat)
    requires Exceeds(v, RelatedFloor)
    ensures WithScore(AboveFloor(rows), v) == WithScore(rows, v)
  {
    if rows != [] {
      var init := rows[..|rows| - 1];
      var last := rows[|rows| - 1];
      assert rows == init + [last];
      AboveFloorTies(init, v);
      WithScoreConcat(init, [last], v);
      WithScoreConcat(AboveFloor(init), if Exceeds(last.score, RelatedFloor) then [last] else [], v);
    }
  }

  /** The ranking of scored rows that search_faq returns. */
  function Ranked(scores: seq<nat>, catalog: seq<FaqEntry>): seq<Scored>
    requires |scores| == |catalog|
  {
    StableSortDesc(AboveFloor(Rows(scores, catalog)))
  }

  /** What search_faq returns, as a value. */
  function Search(query: string, catalog: seq<FaqEntry>): seq<Scored> {
    Ranked(Similarities(query, catalog), catalog)
  }

  /** search_faq (faq_data.py:180-201) over a catalog given as a parameter. */
  method SearchFaq(query: string, catalog: seq<FaqEntry>) returns (results: seq<Scored>)
    ensures results == Search(query, catalog)
  {
    ghost var rows := Rows(Similarities(query, catalog), catalog);
    results := [];
    for i := 0 to |catalog|
      invariant results == AboveFloor(rows[..i])
    {
      assert rows[..i + 1] == rows[..i] + [rows[i]];
      var score := Similarity(query, catalog[i]);
      if Exceeds(score, RelatedFloor) {
        results := results + [Scored(catalog[i], score)];
      }
    }
    assert rows[..|catalog|] == rows;
    results := StableSortDesc(results);
  }

  /** The ranking holds exactly the rows above the related floor. */
  lemma RankedMembers(scores: seq<nat>, catalog: seq<FaqEntry>, x: Scored)
    requires |scores| == |catalog|
    ensures x in Ranked(scores, catalog) <==>
      exists j :: 0 <= j < |catalog| && x == Scored(catalog[j], scores[j]) && Exceeds(scores[j], RelatedFloor)
  {
    var rows := Rows(scores, catalog);
    var kept := AboveFloor(rows);
    assert x in Ranked(scores, catalog) <==> x in multiset(kept);
    AboveFloorMembers(rows, x);
  }

  /** Rows of one score appear in the ranking in catalog order, and only rows
      above the floor appear at all. */
  lemma RankedTies(scores: seq<nat>, catalog: seq<FaqEntry>, v: nat)
    requires |scores| == |catalog|
    ensures Exceeds(v, RelatedFloor) ==> WithScore(Ranked(scores, catalog), v) == WithScore(Rows(scores, catalog), v)
    ensures !Exceeds(v, RelatedFloor) ==> WithScore(Ranked(scores, catalog), v) == []
  {
    var rows := Rows(scores, catalog);
    var kept := AboveFloor(rows);
    StableSortKeepsTies(kept, v);
    if Exceeds(v, RelatedFloor) {
      AboveFloorTies(rows, v);
    } else {
      WithScoreAbsent(kept, v);
    }
  }

  /** The ranking holds exactly the rows above the related floor, highest score
      first, rows of equal score in catalog order. */
  lemma RankedMeaning(scores: seq<nat>, catalog: seq<FaqEntry>, x: Scored, v: nat)
    requires |scores| == |catalog|
    ensures SortedDesc(Ranked(scores, catalog))
    ensures x in Ranked(scores, catalog) <==>
      exists j :: 0 <= j < |catalog| && x == Scored(catalog[j], scores[j]) && Exceeds(scores[j], RelatedFloor)
    ensures Exceeds(v, RelatedFloor) ==> WithScore(Ranked(scores, catalog), v) == WithScore(Rows(scores, catalog), v)
    ensures !Exceeds(v, RelatedFloor) ==> WithScore(Ranked(scores, catalog), v) == []
  {
    RankedMembers(scores, catalog, x);
    RankedTies(scores, catalog, v);
  }

  /** search_faq returns exactly the entries whose similarity is above 0.1, each
      with that similarity, highest first, equal scores in catalog order. */
  lemma SearchMeaning(query: string, catalog: seq<FaqEntry>, x: Scored, v: nat)
    ensures SortedDesc(Search(query, catalog))
    ensures x in Search(query, catalog) <==>
      exists j :: 0 <= j < |catalog| && x == Scored(catalog[j], Similarity(query, catalog[j]))
                  && Exceeds(x.score, RelatedFloor)
    ensures Exceeds(v, RelatedFloor) ==>
      WithScore(Search(query, catalog), v) == WithScore(Rows(Similarities(query, catalog), catalog), v)
    ensures !Exceeds(v, RelatedFloor) ==> WithScore(Search(query, catalog), v) == []
  {
    RankedMeaning(Similarities(query, catalog), catalog, x, v);
  }

  // ---------------------------------------------------------------------------
  // The two functions together

  /** The rows before the best entry all score less than it, so the best entry
      heads the rows of its score. */
  lemma BestHeadsItsScore(scores: seq<nat>, catalog: seq<FaqEntry>, i: nat)
    requires |scores| == |catalog| && i < |catalog| && Exceeds(scores[i], RelatedFloor)
    requires forall j :: 0 <= j < i ==> scores[j] < scores[i]
    ensures var kept := WithScore(AboveFloor(Rows(scores, catalog)), scores[i]);
      kept != [] && kept[0] == Scored(catalog[i], scores[i])
  {
    var v := scores[i];
    var rows := Rows(scores, catalog);
    var x := rows[i];
    assert rows == rows[..i] + [x] + rows[i + 1..];
    AboveFloorTies(rows, v);
    WithScoreAbsent(rows[..i], v);
    WithScoreConcat(rows[..i] + [x], rows[i + 1..], v);
    WithScoreConcat(rows[..i], [x], v);
  }

  /** A confident verdict heads the ranking of the same scores, with its score. */
  lemma VerdictHeadsRanking(scores: seq<nat>, catalog: seq<FaqEntry>)
    requires |scores| == |catalog| && Verdict(scores, catalog).confidence > 0
    ensures var r := Verdict(scores, catalog);
      var results := Ranked(scores, catalog);
      && results != []
      && results[0].entry.question == r.question
      && results[0].entry.answer == r.answer
      && results[0].score == r.confidence
  {
    var r := Verdict(scores, catalog);
    VerdictMeaning(scores, catalog);
    var i :| 0 <= i < |catalog| && IsFirstMax(scores, i) && Exceeds(scores[i], ConfidenceFloor)
             && r == Answer(catalog[i].question, catalog[i].answer, scores[i]);
    var v := scores[i];
    var x := Scored(catalog[i], v);
    var kept := AboveFloor(Rows(scores, catalog));
    var results := Ranked(scores, catalog);
    BestHeadsItsScore(scores, catalog, i);
    StableSortKeepsTies(kept, v);
    assert WithScore(results, v)[0] == x;
    RankedMeaning(scores, catalog, x, v);
    var k :| 0 <= k < |results| && results[k] == x;
    var head := results[0];
    RankedMembers(scores, catalog, head);
    var m :| 0 <= m < |catalog| && head == Scored(catalog[m], scores[m]);
    assert head.score == v;
    WithScoreHead(results);
  }

  /** When retrieve_faq_answer finds a match, search_faq lists that entry first,
      with the same score. */
  lemma RetrieveHeadsSearch(query: string, catalog: seq<FaqEntry>)
    requires Retrieve(query, catalog).confidence > 0
    ensures var r := Retrieve(query, catalog);
      var results := Search(query, catalog);
      && results != []
      && results[0].entry.question == r.question
      && results[0].entry.answer == r.answer
      && results[0].score == r.confidence
  {
    VerdictHeadsRanking(Similarities(query, catalog), catalog);
  }
}
