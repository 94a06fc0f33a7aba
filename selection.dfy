/** The selection loop shared by both matchers: scan the scores in catalog order,
    replace the running best only on a strictly greater score, start from 0. */
module Selection {

  datatype Option<T> = None | Some(value: T)

  /** Position i holds a positive maximum of s and no earlier position reaches it. */
  ghost predicate IsFirstMax(s: seq<nat>, i: nat) {
    && i < |s|
    && s[i] > 0
    && (forall j :: 0 <= j < |s| ==> s[j] <= s[i])
    && (forall j :: 0 <= j < i ==> s[j] < s[i])
  }

  /** State of the scan after the first n scores: (best index, best score),
      starting from (None, 0) and taking a score only when it beats the best. */
  function Scan(s: seq<nat>, n: nat): (r: (Option<nat>, nat))
    requires n <= |s|
    ensures r.0.Some? ==> r.0.value < n
  {
    if n == 0 then (None, 0)
    else
      var prev := Scan(s, n - 1);
      if s[n - 1] > prev.1 then (Some(n - 1), s[n - 1]) else prev
  }

  /** After n scores the scan holds nothing exactly when all of them are 0, and
      otherwise the first position of their positive maximum, with its score. */
  lemma {:induction false} ScanMeaning(s: seq<nat>, n: nat)
    requires n <= |s|
    ensures var r := Scan(s, n);
      && (r.0.None? <==> r.1 == 0)
      && (r.0.None? ==> forall j :: 0 <= j < n ==> s[j] == 0)
      && (r.0.Some? ==>
            && r.1 == s[r.0.value] > 0
            && (forall j :: 0 <= j < n ==> s[j] <= r.1)
            && (forall j :: 0 <= j < r.0.value ==> s[j] < r.1))
  {
    if n > 0 {
      ScanMeaning(s, n - 1);
    }
  }

  /** The index the scan ends on. */
  function FirstMax(s: seq<nat>): Option<nat> {
    Scan(s, |s|).0
  }

  /** FirstMax is None exactly when every score is 0, and otherwise the first
      position of the positive maximum. */
  lemma FirstMaxMeaning(s: seq<nat>)
    ensures FirstMax(s).None? <==> forall j :: 0 <= j < |s| ==> s[j] == 0
    ensures FirstMax(s).Some? ==> IsFirstMax(s, FirstMax(s).value)
  {
    ScanMeaning(s, |s|);
  }

  /** The score the scan ends on is the score at FirstMax, or 0 when there is none. */
  lemma ScanScore(s: seq<nat>)
    ensures Scan(s, |s|).1 == if FirstMax(s).Some? then s[FirstMax(s).value] else 0
  {
    ScanMeaning(s, |s|);
  }

  /** At most one position is the first positive maximum. */
  lemma FirstMaxUnique(s: seq<nat>, i: nat, k: nat)
    requires IsFirstMax(s, i) && IsFirstMax(s, k)
    ensures i == k
  {
  }
}
