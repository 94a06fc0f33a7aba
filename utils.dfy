/** The integer-scored FAQ matcher of utils.py: stop-word filtered keywords,
    a suffix-stripping plural folder, five weighted signals per entry and a
    first-best selection over the catalog. */
module Utils {
  import opened Text
  import opened Catalog
  import opened Selection

  /** Words get_keywords drops (utils.py:9-14; 'this' is listed twice there). */
  const StopWords: set<string> := {
    "a", "an", "and", "are", "as", "at", "be", "by", "for", "from", "has", "he",
    "in", "is", "it", "its", "of", "on", "or", "that", "the", "to", "was", "will",
    "with", "you", "your", "do", "does", "how", "what", "when", "where", "why",
    "can", "have", "i", "we", "they", "if", "this", "but", "which"
  }

  const QuestionMatchWeight := 100
  const AnswerMatchWeight := 50
  const QuestionPhraseWeight := 60
  const AnswerPhraseWeight := 25
  const IntersectionWeight := 30

  // ---------------------------------------------------------------------------
  // normalize_word

  /** The endings that lose exactly their last two characters. */
  predicate DropsEs(w: string) {
    EndsWith(w, "sses") || EndsWith(w, "ches") || EndsWith(w, "xes")
    || EndsWith(w, "zes") || EndsWith(w, "oes")
  }

  /** The last characters of a word that ends with a suffix of length 2 or more. */
  lemma EndsWithTail(w: string, suffix: string)
    requires EndsWith(w, suffix) && |suffix| >= 2
    ensures w[|w| - 1] == suffix[|suffix| - 1] && w[|w| - 2] == suffix[|suffix| - 2]
    ensures |suffix| >= 3 ==> w[|w| - 3] == suffix[|suffix| - 3]
  {
    assert w[|w| - |suffix| + (|suffix| - 1)] == suffix[|suffix| - 1];
    assert w[|w| - |suffix| + (|suffix| - 2)] == suffix[|suffix| - 2];
    if |suffix| >= 3 {
      assert w[|w| - |suffix| + (|suffix| - 3)] == suffix[|suffix| - 3];
    }
  }

  /** A word whose next-to-last character is 's' takes none of the "es" rules. */
  lemma NoEsRule(w: string)
    requires |w| >= 2 && w[|w| - 2] == 's'
    ensures !EndsWith(w, "ies") && !DropsEs(w)
  {
    if EndsWith(w, "ies") { EndsWithTail(w, "ies"); }
    if EndsWith(w, "sses") { EndsWithTail(w, "sses"); }
    if EndsWith(w, "ches") { EndsWithTail(w, "ches"); }
    if EndsWith(w, "xes") { EndsWithTail(w, "xes"); }
    if EndsWith(w, "zes") { EndsWithTail(w, "zes"); }
    if EndsWith(w, "oes") { EndsWithTail(w, "oes"); }
  }

  /** Ending in "s" and in "ss", character by character. */
  lemma EndsWithS(w: string)
    ensures EndsWith(w, "s") <==> |w| >= 1 && w[|w| - 1] == 's'
    ensures EndsWith(w, "ss") <==> |w| >= 2 && w[|w| - 1] == 's' && w[|w| - 2] == 's'
  {
    if |w| >= 2 && w[|w| - 1] == 's' && w[|w| - 2] == 's' {
      assert forall i :: 0 <= i < 2 ==> w[|w| - 2 + i] == "ss"[i];
    }
    if EndsWith(w, "ss") {
      assert w[|w| - 2 + 0] == "ss"[0] && w[|w| - 2 + 1] == "ss"[1];
    }
    if EndsWith(w, "s") {
      assert w[|w| - 1 + 0] == "s"[0];
    }
  }

  /** The if/elif chain of normalize_word on the lower-cased, stripped word w.
      The rules are tried in order: "ies" becomes "y"; the DropsEs endings lose
      their last two characters; a final "s" that is not part of "ss" is dropped;
      any other word is returned as it is. The result is never longer than w. */
  function FoldPlural(w: string): (r: string)
    ensures |r| <= |w|
  {
    if EndsWith(w, "ies") then w[..|w| - 3] + "y"
    else if EndsWith(w, "sses") then w[..|w| - 2]
    else if EndsWith(w, "ches") then w[..|w| - 2]
    else if EndsWith(w, "xes") then w[..|w| - 2]
    else if EndsWith(w, "zes") then w[..|w| - 2]
    else if EndsWith(w, "oes") then w[..|w| - 2]
    else if EndsWith(w, "s") && !EndsWith(w, "ss") then w[..|w| - 1]
    else w
  }

  /** The rules of the chain, in the order they are tried: "ies" becomes "y"; the
      DropsEs endings lose exactly two characters; a final "s" outside "ss" is
      dropped; a word with no final "s", or with "ss" and no "es" rule, is kept. */
  lemma FoldPluralRules(w: string)
    ensures EndsWith(w, "ies") ==> FoldPlural(w) == w[..|w| - 3] + "y"
    ensures !EndsWith(w, "ies") && DropsEs(w) ==> FoldPlural(w) == w[..|w| - 2]
    ensures !EndsWith(w, "ies") && !DropsEs(w) && EndsWith(w, "s") && !EndsWith(w, "ss") ==>
      FoldPlural(w) + "s" == w
    ensures !EndsWith(w, "s") || (EndsWith(w, "ss") && !DropsEs(w)) ==> FoldPlural(w) == w
  {
    EndsWithS(w);
    if EndsWith(w, "ies") { EndsWithTail(w, "ies"); }
    if EndsWith(w, "sses") { EndsWithTail(w, "sses"); }
    if EndsWith(w, "ches") { EndsWithTail(w, "ches"); }
    if EndsWith(w, "xes") { EndsWithTail(w, "xes"); }
    if EndsWith(w, "zes") { EndsWithTail(w, "zes"); }
    if EndsWith(w, "oes") { EndsWithTail(w, "oes"); }
  }

  /** normalize_word: word.lower().strip(), then the plural folding. The result is
      never longer than the lower-cased, stripped word, nor than the word. */
  function NormalizeWord(word: string): (r: string)
    ensures |r| <= |Strip(Lower(word))| <= |word|
  {
    FoldPlural(Strip(Lower(word)))
  }

  // The example words of the comments at utils.py:21-33, one lemma each. Every
  // assert names a position where one suffix of the chain fails to match, or
  // states the suffix that does.

  lemma FoldBabies()
    ensures FoldPlural("babies") == "baby"
  {
    assert EndsWith("babies", "ies");
  }

  lemma FoldDresses()
    ensures FoldPlural("dresses") == "dress"
  {
    assert "dresses"[4] != "ies"[0];
    assert EndsWith("dresses", "sses");
  }

  lemma FoldDishes()
    ensures FoldPlural("dishes") == "dishe"
  {
    assert "dishes"[3] != "ies"[0];
    assert "dishes"[3] != "sses"[1];
    assert "dishes"[2] != "ches"[0];
    assert "dishes"[3] != "xes"[0];
    assert "dishes"[3] != "zes"[0];
    assert "dishes"[3] != "oes"[0];
    assert EndsWith("dishes", "s");
    assert "dishes"[4] != "ss"[0];
  }

  lemma FoldBoxes()
    ensures FoldPlural("boxes") == "box"
  {
    assert "boxes"[2] != "ies"[0];
    assert "boxes"[1] != "sses"[0];
    assert "boxes"[1] != "ches"[0];
    assert EndsWith("boxes", "xes");
  }

  lemma FoldBuzzes()
    ensures FoldPlural("buzzes") == "buzz"
  {
    assert "buzzes"[3] != "ies"[0];
    assert "buzzes"[2] != "sses"[0];
    assert "buzzes"[2] != "ches"[0];
    assert "buzzes"[3] != "xes"[0];
    assert EndsWith("buzzes", "zes");
  }

  lemma FoldShoes()
    ensures FoldPlural("shoes") == "sho"
  {
    assert "shoes"[2] != "ies"[0];
    assert "shoes"[1] != "sses"[0];
    assert "shoes"[1] != "ches"[0];
    assert "shoes"[2] != "xes"[0];
    assert "shoes"[2] != "zes"[0];
    assert EndsWith("shoes", "oes");
  }

  lemma FoldShoe()
    ensures FoldPlural("shoe") == "shoe"
  {
    assert "shoe"[1] != "ies"[0];
    assert "shoe"[1] != "sses"[1];
    assert "shoe"[0] != "ches"[0];
    assert "shoe"[1] != "xes"[0];
    assert "shoe"[1] != "zes"[0];
    assert "shoe"[1] != "oes"[0];
    assert "shoe"[3] != "s"[0];
  }

  lemma FoldBooks()
    ensures FoldPlural("books") == "book"
  {
    assert "books"[2] != "ies"[0];
    assert "books"[1] != "sses"[0];
    assert "books"[1] != "ches"[0];
    assert "books"[2] != "xes"[0];
    assert "books"[2] != "zes"[0];
    assert "books"[3] != "oes"[1];
    assert EndsWith("books", "s");
    assert "books"[3] != "ss"[0];
  }

  /** What the chain does to the example words in the comments of utils.py:21-33.
      "dishes" does not end in "ches", so only its final "s" goes; "shoes" takes the
      "oes" rule and loses two characters, so it no longer meets "shoe". */
  lemma FoldPluralExamples()
    ensures FoldPlural("babies") == "baby"
    ensures FoldPlural("dresses") == "dress"
    ensures FoldPlural("dishes") == "dishe"
    ensures FoldPlural("boxes") == "box"
    ensures FoldPlural("buzzes") == "buzz"
    ensures FoldPlural("shoes") == "sho" && FoldPlural("shoe") == "shoe"
    ensures FoldPlural("books") == "book"
  {
    FoldBabies();
    FoldDresses();
    FoldDishes();
    FoldBoxes();
    FoldBuzzes();
    FoldShoes();
    FoldShoe();
    FoldBooks();
  }

  /** A keyword-shaped word: lower-case letters and digits only. */
  predicate IsLowerAlnumWord(w: string) {
    forall i :: 0 <= i < |w| ==> IsLowerAlnum(w[i])
  }

  /** A word not ending in 's' is left as it is. */
  lemma KeptWhenNoFinalS(w: string)
    requires |w| == 0 || w[|w| - 1] != 's'
    ensures FoldPlural(w) == w
  {
    EndsWithS(w);
    FoldPluralRules(w);
  }

  /** Folding twice is folding once: no rule produces a word another rule changes. */
  lemma FoldPluralIdempotent(w: string)
    ensures FoldPlural(FoldPlural(w)) == FoldPlural(w)
  {
    var r := FoldPlural(w);
    EndsWithS(w);
    if EndsWith(w, "ies") {
      assert r[|r| - 1] == 'y';
      KeptWhenNoFinalS(r);
    } else if EndsWith(w, "sses") {
      EndsWithTail(w, "sses");
      assert w[|w| - 4 + 0] == "sses"[0];
      assert r[|r| - 1] == 's' && r[|r| - 2] == 's';
      NoEsRule(r);
      EndsWithS(r);
      FoldPluralRules(r);
    } else if EndsWith(w, "ches") {
      EndsWithTail(w, "ches");
      KeptWhenNoFinalS(r);
    } else if EndsWith(w, "xes") {
      EndsWithTail(w, "xes");
      KeptWhenNoFinalS(r);
    } else if EndsWith(w, "zes") {
      EndsWithTail(w, "zes");
      KeptWhenNoFinalS(r);
    } else if EndsWith(w, "oes") {
      EndsWithTail(w, "oes");
      KeptWhenNoFinalS(r);
    } else if EndsWith(w, "s") && !EndsWith(w, "ss") {
      KeptWhenNoFinalS(r);
    } else {
      assert r == w;
    }
  }

  /** Folding keeps a keyword-shaped word keyword-shaped. */
  lemma FoldPluralLowerAlnum(w: string)
    requires IsLowerAlnumWord(w)
    ensures IsLowerAlnumWord(FoldPlural(w))
  {
    var r := FoldPlural(w);
    if EndsWith(w, "ies") {
      assert r == w[..|w| - 3] + "y";
      forall i | 0 <= i < |r| ensures IsLowerAlnum(r[i]) {
        if i < |w| - 3 { assert r[i] == w[i]; }
      }
    } else {
      assert r == w[..|r|];
      forall i | 0 <= i < |r| ensures IsLowerAlnum(r[i]) {
        assert r[i] == w[i];
      }
    }
  }

  /** On a keyword-shaped word, lower-casing and stripping change nothing. */
  lemma NormalizeLowerAlnum(w: string)
    requires IsLowerAlnumWord(w)
    ensures NormalizeWord(w) == FoldPlural(w)
  {
    assert NoUpper(w) && NoSpace(w);
    LowerFacts(w);
  }

  /** Folding a keyword-shaped word twice gives the same word as folding it once,
      so query and catalog keywords land on one common form. */
  lemma NormalizeWordIdempotent(word: string)
    requires IsLowerAlnumWord(word)
    ensures NormalizeWord(NormalizeWord(word)) == NormalizeWord(word)
  {
    NormalizeLowerAlnum(word);
    FoldPluralLowerAlnum(word);
    NormalizeLowerAlnum(FoldPlural(word));
    FoldPluralIdempotent(word);
  }

  // ---------------------------------------------------------------------------
  // get_keywords

  /** ''.join(c for c in word if c.isalnum()) */
  function CleanWord(word: string): (r: string)
    ensures |r| <= |word|
  {
    if word == [] then []
    else if IsAlnum(word[0]) then [word[0]] + CleanWord(word[1..])
    else CleanWord(word[1..])
  }

  /** The cleaned word is alphanumeric, has no upper-case letter when the word has
      none, and is the word itself when the word is already alphanumeric. */
  lemma {:induction false} CleanWordFacts(word: string)
    ensures forall i :: 0 <= i < |CleanWord(word)| ==> IsAlnum(CleanWord(word)[i])
    ensures NoUpper(word) ==> NoUpper(CleanWord(word))
    ensures (forall i :: 0 <= i < |word| ==> IsAlnum(word[i])) ==> CleanWord(word) == word
  {
    if word != [] {
      CleanWordFacts(word[1..]);
    }
  }

  predicate IsKeyword(w: string) {
    |w| > 2 && w !in StopWords
  }

  /** The cleaned form of every whitespace token, in order. */
  function CleanAll(words: seq<string>): (r: seq<string>)
    ensures |r| == |words|
    ensures forall k :: 0 <= k < |words| ==> r[k] == CleanWord(words[k])
  {
    seq(|words|, k requires 0 <= k < |words| => CleanWord(words[k]))
  }

  /** a is b with some elements taken out, the rest in their order. */
  ghost predicate IsSubsequence(a: seq<string>, b: seq<string>)
    decreases |b|
  {
    if a == [] then true
    else if b == [] then false
    else
      (a[|a| - 1] == b[|b| - 1] && IsSubsequence(a[..|a| - 1], b[..|b| - 1]))
      || IsSubsequence(a, b[..|b| - 1])
  }

  /** The loop body of get_keywords over a list of tokens: clean each token
      and keep it when it is long enough and not a stop word. */
  function FilterKeywords(words: seq<string>): seq<string> {
    if words == [] then []
    else
      var rest := FilterKeywords(words[..|words| - 1]);
      var w := CleanWord(words[|words| - 1]);
      if IsKeyword(w) then rest + [w] else rest
  }

  /** What the filter keeps: keyword-shaped words (lower-case when the tokens
      are), no more of them than tokens. */
  lemma {:induction false} FilterKeywordsShape(words: seq<string>)
    ensures var r := FilterKeywords(words);
      && |r| <= |words|
      && (forall k :: 0 <= k < |r| ==> IsKeyword(r[k]))
      && (forall k :: 0 <= k < |r| ==> forall i :: 0 <= i < |r[k]| ==> IsAlnum(r[k][i]))
      && ((forall k :: 0 <= k < |words| ==> NoUpper(words[k])) ==>
            forall k :: 0 <= k < |r| ==> IsLowerAlnumWord(r[k]))
  {
    if words != [] {
      var init := words[..|words| - 1];
      assert forall k :: 0 <= k < |init| ==> init[k] == words[k];
      FilterKeywordsShape(init);
      CleanWordFacts(words[|words| - 1]);
    }
  }

  /** The kept words are the cleaned tokens with some taken out, in token order. */
  lemma {:induction false} FilterKeywordsOrder(words: seq<string>)
    ensures IsSubsequence(FilterKeywords(words), CleanAll(words))
  {
    if words != [] {
      var init := words[..|words| - 1];
      assert CleanAll(words)[..|words| - 1] == CleanAll(init);
      FilterKeywordsOrder(init);
    }
  }

  /** Every cleaned token that is long enough and not a stop word is kept. */
  lemma {:induction false} FilterKeywordsKeeps(words: seq<string>, k: nat)
    requires k < |words| && IsKeyword(CleanWord(words[k]))
    ensures CleanWord(words[k]) in FilterKeywords(words)
  {
    var n := |words| - 1;
    if k < n {
      assert words[..n][k] == words[k];
      FilterKeywordsKeeps(words[..n], k);
    }
  }

  /** The token positions whose cleaned form is a keyword. */
  function KeptAt(words: seq<string>): set<nat> {
    set k: nat | k < |words| && IsKeyword(CleanWord(words[k]))
  }

  /** The filter keeps one word per token position whose cleaned form is a keyword,
      and no other. */
  lemma {:induction false} FilterKeywordsCount(words: seq<string>)
    ensures |FilterKeywords(words)| == |KeptAt(words)|
  {
    if words != [] {
      var n := |words| - 1;
      var init := words[..n];
      FilterKeywordsCount(init);
      var before, after := KeptAt(init), KeptAt(words);
      forall k: nat | k < n
        ensures k in after <==> k in before
      {
        assert init[k] == words[k];
      }
      assert n !in before;
      var w := CleanWord(words[n]);
      assert FilterKeywords(words) == if IsKeyword(w) then FilterKeywords(init) + [w] else FilterKeywords(init);
      if IsKeyword(w) {
        assert after == before + {n};
      } else {
        assert after == before;
      }
    }
  }

  /** get_keywords(text), as a value. */
  function KeywordsOf(text: string): seq<string> {
    FilterKeywords(Split(Lower(text)))
  }

  /** get_keywords: every keyword is lower-case alphanumeric, longer than two
      characters and not a stop word; every cleaned token with those properties is
      a keyword; keywords keep the order of the tokens they come from, one per
      qualifying token, so no more of them than whitespace tokens. */
  lemma KeywordsOfShape(text: string)
    ensures var keywords, tokens := KeywordsOf(text), Split(Lower(text));
      && (forall k :: 0 <= k < |keywords| ==>
            IsLowerAlnumWord(keywords[k]) && |keywords[k]| > 2 && keywords[k] !in StopWords)
      && (forall k :: 0 <= k < |tokens| && IsKeyword(CleanWord(tokens[k])) ==>
            CleanWord(tokens[k]) in keywords)
      && IsSubsequence(keywords, CleanAll(tokens))
      && |keywords| == |KeptAt(tokens)|
      && |keywords| <= |tokens|
  {
    var tokens := Split(Lower(text));
    LowerFacts(text);
    SplitFacts(Lower(text));
    FilterKeywordsShape(tokens);
    FilterKeywordsOrder(tokens);
    FilterKeywordsCount(tokens);
    forall k | 0 <= k < |tokens| && IsKeyword(CleanWord(tokens[k]))
      ensures CleanWord(tokens[k]) in KeywordsOf(text)
    {
      FilterKeywordsKeeps(tokens, k);
    }
  }

  /** The loop of get_keywords (utils.py:36-49). */
  method GetKeywords(text: string) returns (keywords: seq<string>)
    ensures keywords == KeywordsOf(text)
  {
    var words := Split(Lower(text));
    keywords := [];
    for i := 0 to |words|
      invariant keywords == FilterKeywords(words[..i])
    {
      var word := CleanWord(words[i]);
      if |word| > 2 && word !in StopWords {
        keywords := keywords + [word];
      }
      assert words[..i + 1][..i] == words[..i];
    }
    assert words[..|words|] == words;
  }

  // ---------------------------------------------------------------------------
  // The per-entry signals of search_faq

  /** The set search_faq builds from a keyword list: each keyword and its
      normalization (utils.py:63-66 and 81-84). */
  function NormalizedSet(keywords: seq<string>): set<string> {
    if keywords == [] then {}
    else
      var k := keywords[|keywords| - 1];
      NormalizedSet(keywords[..|keywords| - 1]) + {NormalizeWord(k), k}
  }

  /** The set holds each keyword and its normalization, and nothing else. */
  lemma {:induction false} NormalizedSetMembers(keywords: seq<string>, w: string)
    ensures w in NormalizedSet(keywords) <==>
      exists i :: 0 <= i < |keywords| && (w == keywords[i] || w == NormalizeWord(keywords[i]))
  {
    if keywords != [] {
      var n := |keywords| - 1;
      var init, k := keywords[..n], keywords[n];
      NormalizedSetMembers(init, w);
      if w in NormalizedSet(init) {
        var i :| 0 <= i < |init| && (w == init[i] || w == NormalizeWord(init[i]));
        assert keywords[i] == init[i];
      } else if w == k || w == NormalizeWord(k) {
        assert keywords[n] == k;
      } else {
        forall i | 0 <= i < |keywords|
          ensures w != keywords[i] && w != NormalizeWord(keywords[i])
        {
          if i < n {
            assert init[i] == keywords[i];
          }
        }
      }
    }
  }

  /** Each keyword adds at most two strings to the set. */
  lemma {:induction false} NormalizedSetSize(keywords: seq<string>)
    ensures |NormalizedSet(keywords)| <= 2 * |keywords|
  {
    if keywords != [] {
      var k := keywords[|keywords| - 1];
      NormalizedSetSize(keywords[..|keywords| - 1]);
      assert |{NormalizeWord(k), k}| <= 2;
    }
  }

  /** The loop that fills normalized_query / normalized_faq. */
  method NormalizeKeywords(keywords: seq<string>) returns (normalized: set<string>)
    ensures normalized == NormalizedSet(keywords)
  {
    normalized := {};
    for i := 0 to |keywords|
      invariant normalized == NormalizedSet(keywords[..i])
    {
      normalized := normalized + {NormalizeWord(keywords[i])};
      normalized := normalized + {keywords[i]};
      assert keywords[..i + 1][..i] == keywords[..i];
    }
    assert keywords[..|keywords|] == keywords;
  }

  /** [normalize_word(w) for w in words] */
  function NormalizedList(words: seq<string>): (r: seq<string>)
    ensures |r| == |words|
    ensures forall i :: 0 <= i < |words| ==> r[i] == NormalizeWord(words[i])
  {
    seq(|words|, i requires 0 <= i < |words| => NormalizeWord(words[i]))
  }

  /** The match test of utils.py:92 and 102. */
  predicate MatchesWord(keyword: string, words: seq<string>) {
    keyword in words || NormalizeWord(keyword) in NormalizedList(words)
  }

  /** How many query keywords (each position counted) pass the match test. */
  function Matches(queryKeywords: seq<string>, words: seq<string>): (n: nat)
    ensures n <= |queryKeywords|
  {
    if queryKeywords == [] then 0
    else
      Matches(queryKeywords[..|queryKeywords| - 1], words)
      + (if MatchesWord(queryKeywords[|queryKeywords| - 1], words) then 1 else 0)
  }

  /** A query keyword that passes the match test makes the count positive. */
  lemma {:induction false} MatchesPositive(queryKeywords: seq<string>, words: seq<string>, i: nat)
    requires i < |queryKeywords| && MatchesWord(queryKeywords[i], words)
    ensures Matches(queryKeywords, words) >= 1
  {
    var n := |queryKeywords| - 1;
    if i < n {
      assert queryKeywords[..n][i] == queryKeywords[i];
      MatchesPositive(queryKeywords[..n], words, i);
    }
  }

  /** The counting loops of utils.py:89-93 and 99-103. */
  method CountMatches(queryKeywords: seq<string>, words: seq<string>) returns (matches: nat)
    ensures matches == Matches(queryKeywords, words)
  {
    matches := 0;
    for i := 0 to |queryKeywords|
      invariant matches == Matches(queryKeywords[..i], words)
    {
      var keyword := queryKeywords[i];
      var normKeyword := NormalizeWord(keyword);
      if keyword in words || normKeyword in NormalizedList(words) {
        matches := matches + 1;
      }
      assert queryKeywords[..i + 1][..i] == queryKeywords[..i];
    }
    assert queryKeywords[..|queryKeywords|] == queryKeywords;
  }

  /** The phrases the inner loop of utils.py:110-111 builds for start i:
      ' '.join(keywords[i:j]) for j in range(i+1, min(i+3, len(keywords)+1)). */
  function PhrasesAt(keywords: seq<string>, i: nat): (r: seq<string>)
    requires i < |keywords|
  {
    var hi := Min(i + 3, |keywords| + 1);
    seq(hi - (i + 1), k requires 0 <= k < hi - (i + 1) => JoinSpace(keywords[i..i + 1 + k]))
  }

  /** The inner loop yields one keyword, then the keyword and its successor when
      there is one: phrases have 1 or 2 keywords. */
  lemma PhrasesAtShape(keywords: seq<string>, i: nat)
    requires i < |keywords|
    ensures PhrasesAt(keywords, i) ==
      [keywords[i]] + (if i + 1 < |keywords| then [keywords[i] + " " + keywords[i + 1]] else [])
  {
    var r := PhrasesAt(keywords, i);
    assert keywords[i..i + 1] == [keywords[i]];
    assert r[0] == JoinSpace(keywords[i..i + 1]) == keywords[i];
    if i + 1 < |keywords| {
      assert |r| == 2;
      var pair := keywords[i..i + 2];
      assert pair == [keywords[i], keywords[i + 1]];
      assert pair[1..] == [keywords[i + 1]];
      assert JoinSpace(pair) == keywords[i] + " " + JoinSpace(pair[1..]);
      assert r[1] == JoinSpace(pair) == keywords[i] + " " + keywords[i + 1];
    } else {
      assert |r| == 1;
    }
  }

  /** Every phrase of the start positions before i, in loop order. */
  function PhrasesBefore(keywords: seq<string>, i: nat): seq<string>
    requires i <= |keywords|
  {
    if i == 0 then [] else PhrasesBefore(keywords, i - 1) + PhrasesAt(keywords, i - 1)
  }

  function AllPhrases(keywords: seq<string>): seq<string> {
    PhrasesBefore(keywords, |keywords|)
  }

  /** Bonus count of utils.py:109-113 (or 116-120): phrases found as substrings. */
  function PhraseHits(keywords: seq<string>, text: string): nat {
    CountIn(text, AllPhrases(keywords))
  }

  /** n keywords give n one-keyword phrases and n-1 two-keyword phrases. */
  lemma {:induction false} PhrasesBeforeCount(keywords: seq<string>, i: nat)
    requires i <= |keywords|
    ensures |PhrasesBefore(keywords, i)| == 2 * i - (if i == |keywords| && i > 0 then 1 else 0)
  {
    if i > 0 {
      PhrasesBeforeCount(keywords, i - 1);
      PhrasesAtShape(keywords, i - 1);
    }
  }

  lemma AllPhrasesCount(keywords: seq<string>)
    requires keywords != []
    ensures |AllPhrases(keywords)| == 2 * |keywords| - 1
  {
    PhrasesBeforeCount(keywords, |keywords|);
  }

  /** The inner phrase loop for one start position: how many of its phrases occur. */
  method CountPhrasesAt(keywords: seq<string>, i: nat, text: string) returns (hits: nat)
    requires i < |keywords|
    ensures hits == CountIn(text, PhrasesAt(keywords, i))
  {
    hits := 0;
    ghost var here := PhrasesAt(keywords, i);
    for j := i + 1 to Min(i + 3, |keywords| + 1)
      invariant hits == CountIn(text, here[..j - (i + 1)])
    {
      var phrase := JoinSpace(keywords[i..j]);
      assert phrase == here[j - (i + 1)];
      assert here[..j + 1 - (i + 1)] == here[..j - (i + 1)] + [phrase];
      if Contains(text, phrase) {
        hits := hits + 1;
      }
    }
    assert here[..|here|] == here;
  }

  /** The nested phrase loop of utils.py:109-113 / 116-120, counting the hits
      (the caller adds the weight per hit). */
  method CountPhraseHits(keywords: seq<string>, text: string) returns (hits: nat)
    ensures hits == PhraseHits(keywords, text)
  {
    hits := 0;
    for i := 0 to |keywords|
      invariant hits == CountIn(text, PhrasesBefore(keywords, i))
    {
      var found := CountPhrasesAt(keywords, i, text);
      CountInConcat(text, PhrasesBefore(keywords, i), PhrasesAt(keywords, i));
      hits := hits + found;
    }
  }

  /** The weighted signals of utils.py:86-125, given the lower-cased question and
      answer of an entry and the keywords of each. */
  function SignalScore(queryKeywords: seq<string>, normalizedQuery: set<string>,
                       question: string, answer: string,
                       qWords: seq<string>, aWords: seq<string>): nat {
    Weighted(Matches(queryKeywords, qWords), Matches(queryKeywords, aWords),
             PhraseHits(queryKeywords, question), PhraseHits(queryKeywords, answer),
             |normalizedQuery * NormalizedSet(qWords + aWords)|)
  }

  /** The weighted sum of the five match counts of utils.py:84-125. */
  function Weighted(questionMatches: nat, answerMatches: nat, questionPhrases: nat,
                    answerPhrases: nat, intersection: nat): nat {
    QuestionMatchWeight * questionMatches
    + AnswerMatchWeight * answerMatches
    + QuestionPhraseWeight * questionPhrases
    + AnswerPhraseWeight * answerPhrases
    + IntersectionWeight * intersection
  }

  /** The score of one entry (utils.py:72-125) for the query keywords and their
      normalized set. faq_full_text (utils.py:74) is computed there but unused. */
  function EntryScore(queryKeywords: seq<string>, normalizedQuery: set<string>, faq: FaqEntry): nat {
    var faqQuestion := Lower(faq.question);
    var faqAnswer := Lower(faq.answer);
    SignalScore(queryKeywords, normalizedQuery, faqQuestion, faqAnswer,
                KeywordsOf(faqQuestion), KeywordsOf(faqAnswer))
  }

  lemma {:induction false} SubsetCard(a: set<string>, b: set<string>)
    requires a <= b
    ensures |a| <= |b|
  {
    if a != {} {
      var x :| x in a;
      SubsetCard(a - {x}, b - {x});
    }
  }

  /** The signals are bounded by the query alone: at most 380 per query keyword
      (100 + 50 for the matches, 60 + 25 for each of the 2n-1 phrases, 30 for each
      of the at most 2n normalized forms). */
  lemma SignalScoreBound(queryKeywords: seq<string>, question: string, answer: string,
                         qWords: seq<string>, aWords: seq<string>)
    requires queryKeywords != []
    ensures SignalScore(queryKeywords, NormalizedSet(queryKeywords), question, answer, qWords, aWords)
            <= 380 * |queryKeywords| - 85
  {
    var nq := NormalizedSet(queryKeywords);
    var nf := NormalizedSet(qWords + aWords);
    AllPhrasesCount(queryKeywords);
    NormalizedSetSize(queryKeywords);
    assert nq * nf <= nq;
    SubsetCard(nq * nf, nq);
  }

  /** An entry's score is bounded by the query alone. */
  lemma EntryScoreBound(queryKeywords: seq<string>, faq: FaqEntry)
    requires queryKeywords != []
    ensures EntryScore(queryKeywords, NormalizedSet(queryKeywords), faq) <= 380 * |queryKeywords| - 85
  {
    var q := Lower(faq.question);
    var a := Lower(faq.answer);
    SignalScoreBound(queryKeywords, q, a, KeywordsOf(q), KeywordsOf(a));
  }

  /** A query keyword among the question keywords brings a question match and an
      element of the intersection. */
  lemma SignalQuestionHit(queryKeywords: seq<string>, question: string, answer: string,
                          qWords: seq<string>, aWords: seq<string>, i: nat)
    requires i < |queryKeywords| && queryKeywords[i] in qWords
    ensures SignalScore(queryKeywords, NormalizedSet(queryKeywords), question, answer, qWords, aWords)
            >= QuestionMatchWeight + IntersectionWeight
  {
    var k := queryKeywords[i];
    MatchesPositive(queryKeywords, qWords, i);
    var j :| 0 <= j < |qWords| && qWords[j] == k;
    assert (qWords + aWords)[j] == k;
    NormalizedSetMembers(queryKeywords, k);
    NormalizedSetMembers(qWords + aWords, k);
    var common := NormalizedSet(queryKeywords) * NormalizedSet(qWords + aWords);
    assert k in common;
    assert |common| >= 1;
  }

  /** A query keyword that is also a keyword of the entry's question scores at
      least one question match and one intersection element. */
  lemma QuestionKeywordHit(queryKeywords: seq<string>, faq: FaqEntry, i: nat)
    requires i < |queryKeywords| && queryKeywords[i] in KeywordsOf(Lower(faq.question))
    ensures EntryScore(queryKeywords, NormalizedSet(queryKeywords), faq)
            >= QuestionMatchWeight + IntersectionWeight
  {
    var q := Lower(faq.question);
    var a := Lower(faq.answer);
    SignalQuestionHit(queryKeywords, q, a, KeywordsOf(q), KeywordsOf(a), i);
  }

  /** The score method of one catalog entry, as utils.py:72-125 computes it. */
  method ScoreEntry(queryKeywords: seq<string>, normalizedQuery: set<string>, faq: FaqEntry)
    returns (score: nat)
    ensures score == EntryScore(queryKeywords, normalizedQuery, faq)
  {
    var faqQuestion := Lower(faq.question);
    var faqAnswer := Lower(faq.answer);
    var faqQKeywords := GetKeywords(faqQuestion);
    var faqAKeywords := GetKeywords(faqAnswer);
    var normalizedFaq := NormalizeKeywords(faqQKeywords + faqAKeywords);

    score := 0;
    var questionMatches := CountMatches(queryKeywords, faqQKeywords);
    if questionMatches > 0 {
      score := score + questionMatches * QuestionMatchWeight;
    }
    var answerMatches := CountMatches(queryKeywords, faqAKeywords);
    if answerMatches > 0 {
      score := score + answerMatches * AnswerMatchWeight;
    }
    var questionPhrases := CountPhraseHits(queryKeywords, faqQuestion);
    score := score + questionPhrases * QuestionPhraseWeight;
    var answerPhrases := CountPhraseHits(queryKeywords, faqAnswer);
    score := score + answerPhrases * AnswerPhraseWeight;
    var keywordIntersection := |normalizedQuery * normalizedFaq|;
    if keywordIntersection > 0 {
      score := score + keywordIntersection * IntersectionWeight;
    }
    assert score == Weighted(questionMatches, answerMatches, questionPhrases,
                             answerPhrases, keywordIntersection);
    assert score == SignalScore(queryKeywords, normalizedQuery, faqQuestion, faqAnswer,
                                faqQKeywords, faqAKeywords);
  }

  // ---------------------------------------------------------------------------
  // search_faq

  function EntryScores(queryKeywords: seq<string>, normalizedQuery: set<string>, catalog: seq<FaqEntry>)
    : (r: seq<nat>)
    ensures |r| == |catalog|
    ensures forall i :: 0 <= i < |catalog| ==> r[i] == EntryScore(queryKeywords, normalizedQuery, catalog[i])
  {
    seq(|catalog|, i requires 0 <= i < |catalog| => EntryScore(queryKeywords, normalizedQuery, catalog[i]))
  }

  /** The entry search_faq settles on once every entry is scored: none when every
      score is 0, otherwise the earliest entry with the highest score. */
  function BestEntry(scores: seq<nat>, catalog: seq<FaqEntry>): (r: Option<FaqEntry>)
    requires |scores| == |catalog|
    ensures r == None <==> forall i :: 0 <= i < |scores| ==> scores[i] == 0
    ensures r.Some? ==> exists i :: 0 <= i < |scores| && IsFirstMax(scores, i) && r == Some(catalog[i])
  {
    FirstMaxMeaning(scores);
    match FirstMax(scores)
    case None => None
    case Some(i) => Some(catalog[i])
  }

  /** What search_faq returns, as a value. */
  function SearchResult(question: string, catalog: seq<FaqEntry>): (r: Option<FaqEntry>)
    ensures TooShort(question) ==> r == None
    ensures KeywordsOf(question) == [] ==> r == None
  {
    if TooShort(question) then None
    else
      var queryKeywords := KeywordsOf(question);
      if queryKeywords == [] then None
      else BestEntry(EntryScores(queryKeywords, NormalizedSet(queryKeywords), catalog), catalog)
  }

  /** search_faq (utils.py:51-132) over a catalog given as a parameter. */
  method SearchFaq(question: string, catalog: seq<FaqEntry>) returns (best: Option<FaqEntry>)
    ensures best == SearchResult(question, catalog)
  {
    if |question| == 0 || |Strip(question)| < 3 {
      return None;
    }
    var queryKeywords := GetKeywords(question);
    if queryKeywords == [] {
      return None;
    }
    var normalizedQuery := NormalizeKeywords(queryKeywords);

    var bestMatch: Option<FaqEntry> := None;
    var bestScore: nat := 0;
    ghost var bestIndex: Option<nat> := None;
    ghost var scores := EntryScores(queryKeywords, normalizedQuery, catalog);
    for i := 0 to |catalog|
      invariant (bestIndex, bestScore) == Scan(scores, i)
      invariant bestMatch == if bestIndex.Some? then Some(catalog[bestIndex.value]) else None
    {
      var score := ScoreEntry(queryKeywords, normalizedQuery, catalog[i]);
      if score > bestScore {
        bestScore := score;
        bestMatch := Some(catalog[i]);
        bestIndex := Some(i);
      }
    }
    best := if bestScore > 0 then bestMatch else None;
    ScanMeaning(scores, |scores|);
    assert best == BestEntry(scores, catalog);
  }
}
