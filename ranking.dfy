/** Rows carrying a score and list.sort(key=score, reverse=True) on them: a
    stable sort, highest score first. */
module Ranking {
  import opened Catalog

  /** A result row: the entry's fields together with its score. */
  datatype Scored = Scored(entry: FaqEntry, score: nat)

  /** The rows of score v, in the order they stand in. */
  function WithScore(s: seq<Scored>, v: nat): (r: seq<Scored>)
    ensures |r| <= |s|
    ensures forall k :: 0 <= k < |r| ==> r[k].score == v
  {
    if s == [] then []
    else (if s[0].score == v then [s[0]] else []) + WithScore(s[1..], v)
  }

  lemma {:induction false} WithScoreConcat(a: seq<Scored>, b: seq<Scored>, v: nat)
    ensures WithScore(a + b, v) == WithScore(a, v) + WithScore(b, v)
  {
    if a == [] {
      assert a + b == b;
    } else {
      assert (a + b)[0] == a[0];
      assert (a + b)[1..] == a[1..] + b;
      WithScoreConcat(a[1..], b, v);
    }
  }

  lemma {:induction false} WithScoreAbsent(s: seq<Scored>, v: nat)
    requires forall k :: 0 <= k < |s| ==> s[k].score != v
    ensures WithScore(s, v) == []
  {
    if s != [] {
      WithScoreAbsent(s[1..], v);
    }
  }

  /** The first row of a non-empty sequence heads the rows of its own score. */
  lemma WithScoreHead(s: seq<Scored>)
    requires s != []
    ensures WithScore(s, s[0].score) != [] && WithScore(s, s[0].score)[0] == s[0]
  {
  }

  /** Scores never increase along the sequence. */
  predicate SortedDesc(s: seq<Scored>) {
    forall i, j :: 0 <= i < j < |s| ==> s[i].score >= s[j].score
  }

  /** Inserts x after every row scoring at least as much: among equal scores x
      comes last. */
  function InsertDesc(s: seq<Scored>, x: Scored): (r: seq<Scored>)
    ensures multiset(r) == multiset(s) + multiset{x}
  {
    if s == [] then [x]
    else
      var init := s[..|s| - 1];
      var last := s[|s| - 1];
      assert s == init + [last];
      if last.score >= x.score then s + [x]
      else InsertDesc(init, x) + [last]
  }

  /** Insertion keeps a common lower bound of the scores. */
  lemma {:induction false} InsertDescAtLeast(s: seq<Scored>, x: Scored, bound: nat)
    requires forall k :: 0 <= k < |s| ==> s[k].score >= bound
    requires x.score >= bound
    ensures forall k :: 0 <= k < |InsertDesc(s, x)| ==> InsertDesc(s, x)[k].score >= bound
  {
    if s != [] && s[|s| - 1].score < x.score {
      InsertDescAtLeast(s[..|s| - 1], x, bound);
    }
  }

  lemma {:induction false} InsertDescSorted(s: seq<Scored>, x: Scored)
    requires SortedDesc(s)
    ensures SortedDesc(InsertDesc(s, x))
  {
    if s != [] {
      var init := s[..|s| - 1];
      var last := s[|s| - 1];
      if last.score < x.score {
        InsertDescSorted(init, x);
        InsertDescAtLeast(init, x, last.score);
      }
    }
  }

  /** Inserting x adds it after the rows of its own score and changes no other score's rows. */
  lemma {:induction false} InsertDescTies(s: seq<Scored>, x: Scored, v: nat)
    ensures WithScore(InsertDesc(s, x), v) == WithScore(s, v) + WithScore([x], v)
  {
    if s != [] {
      var init := s[..|s| - 1];
      var last := s[|s| - 1];
      assert s == init + [last];
      WithScoreConcat(init, [last], v);
      if last.score >= x.score {
        WithScoreConcat(s, [x], v);
      } else {
        InsertDescTies(init, x, v);
        WithScoreConcat(InsertDesc(init, x), [last], v);
      }
    }
  }

  /** list.sort(key=score, reverse=True): the same rows, highest score first. */
  function StableSortDesc(s: seq<Scored>): (r: seq<Scored>)
    ensures multiset(r) == multiset(s)
    ensures SortedDesc(r)
  {
    if s == [] then []
    else
      var init := s[..|s| - 1];
      assert s == init + [s[|s| - 1]];
      InsertDescSorted(StableSortDesc(init), s[|s| - 1]);
      InsertDesc(StableSortDesc(init), s[|s| - 1])
  }

  /** The sort is stable: rows of equal score keep their relative order. */
  lemma {:induction false} StableSortKeepsTies(s: seq<Scored>, v: nat)
    ensures WithScore(StableSortDesc(s), v) == WithScore(s, v)
  {
    if s != [] {
      var init := s[..|s| - 1];
      var last := s[|s| - 1];
      assert s == init + [last];
      StableSortKeepsTies(init, v);
      InsertDescTies(StableSortDesc(init), last, v);
      WithScoreConcat(init, [last], v);
    }
  }
}
