/** The FAQ catalog both matchers scan: an ordered sequence of entries that is
    passed in and never changed. */
module Catalog {
  import opened Text

  /** One FAQ record. A record without a "keywords" list has keywords == []. */
  datatype FaqEntry = FaqEntry(question: string, answer: string, keywords: seq<string>)

  /** `not q or len(q.strip()) < 3`: the query is rejected before any scoring. */
  predicate TooShort(query: string) {
    |query| == 0 || |Strip(query)| < 3
  }
}
