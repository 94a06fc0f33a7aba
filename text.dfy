/** String operations of the Python runtime that the matchers rely on, restricted
    to ASCII: lower-casing, whitespace stripping and splitting, alphanumeric tests,
    substring containment and joining with a space. */
module Text {

  /** ASCII whitespace as str.split() and str.strip() treat it:
      tab, line feed, vertical tab, form feed, carriage return,
      the four separator controls 0x1C-0x1F, and the space. */
  predicate IsSpace(c: char) {
    c == ' ' || 9 <= c as int <= 13 || 28 <= c as int <= 31
  }

  predicate IsUpper(c: char) {
    'A' <= c <= 'Z'
  }

  /** str.isalnum on an ASCII character */
  predicate IsAlnum(c: char) {
    'a' <= c <= 'z' || 'A' <= c <= 'Z' || '0' <= c <= '9'
  }

  predicate IsLowerAlnum(c: char) {
    'a' <= c <= 'z' || '0' <= c <= '9'
  }

  predicate NoUpper(s: string) {
    forall i :: 0 <= i < |s| ==> !IsUpper(s[i])
  }

  predicate NoSpace(s: string) {
    forall i :: 0 <= i < |s| ==> !IsSpace(s[i])
  }

  function Min(a: int, b: int): int {
    if a <= b then a else b
  }

  function LowerChar(c: char): (r: char)
    ensures !IsUpper(r)
    ensures IsAlnum(r) <==> IsAlnum(c)
    ensures IsSpace(r) <==> IsSpace(c)
    ensures !IsUpper(c) ==> r == c
  {
    if IsUpper(c) then (c as int + 32) as char else c
  }

  /** str.lower() */
  function Lower(s: string): (r: string)
    ensures |r| == |s|
  {
    seq(|s|, i requires 0 <= i < |s| => LowerChar(s[i]))
  }

  /** The lower-cased string has no upper-case letter, and a string without one
      is its own lower-case form. */
  lemma LowerFacts(s: string)
    ensures NoUpper(Lower(s))
    ensures NoUpper(s) ==> Lower(s) == s
  {
  }

  /** Drops leading whitespace. */
  function TrimLeft(s: string): (r: string)
    decreases |s|
    ensures |r| <= |s|
  {
    if s != [] && IsSpace(s[0]) then TrimLeft(s[1..]) else s
  }

  /** Drops trailing whitespace. */
  function TrimRight(s: string): (r: string)
    decreases |s|
    ensures |r| <= |s|
  {
    if s != [] && IsSpace(s[|s| - 1]) then TrimRight(s[..|s| - 1]) else s
  }

  /** str.strip() */
  function Strip(s: string): (r: string)
    ensures |r| <= |s|
    ensures NoSpace(s) ==> r == s
  {
    TrimRight(TrimLeft(s))
  }

  /** Length of the run of non-whitespace characters that starts the string. */
  function WordLen(s: string): (n: nat)
    ensures n <= |s|
    ensures forall i :: 0 <= i < n ==> !IsSpace(s[i])
    ensures n < |s| ==> IsSpace(s[n])
  {
    if s == [] || IsSpace(s[0]) then 0 else 1 + WordLen(s[1..])
  }

  /** str.split() with no separator: the maximal runs of non-whitespace characters. */
  function Split(s: string): seq<string>
    decreases |s|
  {
    if s == [] then []
    else if IsSpace(s[0]) then Split(s[1..])
    else
      var n := WordLen(s);
      [s[..n]] + Split(s[n..])
  }

  /** Every token is a non-empty run without whitespace, and the tokens of a
      string without upper-case letters have none either. */
  lemma {:induction false} SplitFacts(s: string)
    decreases |s|
    ensures forall k :: 0 <= k < |Split(s)| ==> Split(s)[k] != [] && NoSpace(Split(s)[k])
    ensures NoUpper(s) ==> forall k :: 0 <= k < |Split(s)| ==> NoUpper(Split(s)[k])
  {
    if s != [] {
      if IsSpace(s[0]) {
        SplitFacts(s[1..]);
      } else {
        var n := WordLen(s);
        SplitFacts(s[n..]);
        assert Split(s) == [s[..n]] + Split(s[n..]);
      }
    }
  }

  /** Python's `needle in haystack` on strings: substring containment. */
  predicate Contains(haystack: string, needle: string) {
    exists i | 0 <= i <= |haystack| - |needle| :: OccursAt(haystack, needle, i)
  }

  /** The needle stands in the haystack starting at position i. */
  predicate OccursAt(haystack: string, needle: string, i: int) {
    0 <= i <= |haystack| - |needle| && haystack[i..i + |needle|] == needle
  }

  /** str.endswith */
  predicate EndsWith(s: string, suffix: string) {
    |suffix| <= |s| && forall i :: 0 <= i < |suffix| ==> s[|s| - |suffix| + i] == suffix[i]
  }

  /** ' '.join(words) */
  function JoinSpace(words: seq<string>): string {
    if words == [] then ""
    else if |words| == 1 then words[0]
    else words[0] + " " + JoinSpace(words[1..])
  }

  /** sum(1 for n in needles if n in haystack): how many of the needles occur in the
      haystack, each position of the list counted on its own. */
  function CountIn(haystack: string, needles: seq<string>): (n: nat)
    ensures n <= |needles|
  {
    if needles == [] then 0
    else
      CountIn(haystack, needles[..|needles| - 1])
      + (if Contains(haystack, needles[|needles| - 1]) then 1 else 0)
  }

  /** The positions of the needles that occur in the haystack. */
  function FoundAt(haystack: string, needles: seq<string>): set<nat> {
    set i: nat | i < |needles| && Contains(haystack, needles[i])
  }

  /** The count is the number of positions whose needle occurs. */
  lemma {:induction false} CountInIsFoundAt(haystack: string, needles: seq<string>)
    ensures CountIn(haystack, needles) == |FoundAt(haystack, needles)|
  {
    if needles != [] {
      var n := |needles| - 1;
      var init := needles[..n];
      CountInIsFoundAt(haystack, init);
      var before, after := FoundAt(haystack, init), FoundAt(haystack, needles);
      forall i: nat | i < n
        ensures i in after <==> i in before
      {
        assert init[i] == needles[i];
      }
      assert n !in before;
      if Contains(haystack, needles[n]) {
        assert after == before + {n};
      } else {
        assert after == before;
      }
    }
  }

  lemma {:induction false} CountInConcat(haystack: string, a: seq<string>, b: seq<string>)
    ensures CountIn(haystack, a + b) == CountIn(haystack, a) + CountIn(haystack, b)
  {
    if b != [] {
      var n := |b| - 1;
      assert (a + b)[..|a + b| - 1] == a + b[..n];
      assert (a + b)[|a + b| - 1] == b[n];
      CountInConcat(haystack, a, b[..n]);
    } else {
      assert a + b == a;
    }
  }

  /** When every needle occurs, every position counts. */
  lemma {:induction false} CountInAllFound(haystack: string, needles: seq<string>)
    requires forall j :: 0 <= j < |needles| ==> Contains(haystack, needles[j])
    ensures CountIn(haystack, needles) == |needles|
  {
    if needles != [] {
      var init := needles[..|needles| - 1];
      assert forall j :: 0 <= j < |init| ==> init[j] == needles[j];
      CountInAllFound(haystack, init);
    }
  }

  /** Lower-casing works character by character, so it distributes over concatenation. */
  lemma LowerConcat(a: string, b: string)
    ensures Lower(a + b) == Lower(a) + Lower(b)
  {
  }

  /** A needle found in a text is still found once more text follows. */
  lemma ContainsExtend(haystack: string, extra: string, needle: string)
    requires Contains(haystack, needle)
    ensures Contains(haystack + extra, needle)
  {
    var i :| 0 <= i <= |haystack| - |needle| && OccursAt(haystack, needle, i);
    assert (haystack + extra)[i..i + |needle|] == haystack[i..i + |needle|];
    assert OccursAt(haystack + extra, needle, i);
  }

  /** Appending to the haystack never lowers the count of needles found. */
  lemma {:induction false} CountInExtend(haystack: string, extra: string, needles: seq<string>)
    ensures CountIn(haystack + extra, needles) >= CountIn(haystack, needles)
  {
    if needles != [] {
      var last := needles[|needles| - 1];
      CountInExtend(haystack, extra, needles[..|needles| - 1]);
      if Contains(haystack, last) {
        ContainsExtend(haystack, extra, last);
      }
    }
  }
}
