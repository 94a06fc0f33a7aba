/** The catalog data of faq_data.py:9-110, and what the matchers do with two
    queries: one naming the first entry, for any catalog that starts with it, and
    one too short for any catalog. */
module Sample {
  import opened Text
  import opened Catalog
  import opened Selection
  import Utils
  import opened FaqData

  // The twenty entries of FAQ_DATA (faq_data.py:9-110), one constant each.

  const TurnaroundEntry := FaqEntry(
    "What is your turnaround time for dry cleaning?",
    "Standard dry cleaning typically takes 3-5 business days. Express service is available for an additional fee and takes 24-48 hours. Please check our website for current timelines.",
    ["turnaround", "time", "days", "delivery", "ready"])

  const PickupEntry := FaqEntry(
    "Do you provide free pickup and delivery?",
    "Yes! We offer FREE pickup and delivery across Dubai, Abu Dhabi, and Sharjah for orders over the minimum service charge. Simply schedule your pickup through our app or website.",
    ["free", "pickup", "delivery", "collection"])

  const CoverageEntry := FaqEntry(
    "What areas do you cover?",
    "We provide services throughout Dubai, Abu Dhabi, Sharjah, Ajman, and Ras Al Khaimah. Check our coverage map on the website or contact us for your specific area.",
    ["coverage", "area", "location", "serve", "deliver"])

  const DelicatesEntry := FaqEntry(
    "How do you clean delicate fabrics and wedding gowns?",
    "Our wedding gown restoration service uses specialized cleaning techniques for delicate and vintage fabrics. We handle silk, lace, beading, and embroidery with utmost care. Our experts inspect each item and use appropriate cleaning methods.",
    ["wedding", "gown", "delicate", "fabric", "silk", "lace", "special"])

  const CompensationEntry := FaqEntry(
    "What is your compensation policy for damaged items?",
    "We take great care with every item. In the unlikely event of damage, we assess it thoroughly and work with you on a fair resolution. Please report any issues within 24 hours of delivery.",
    ["damage", "compensation", "claim", "issue", "problem"])

  const CarpetEntry := FaqEntry(
    "Do you offer carpet and upholstery cleaning?",
    "Yes! Our Carpet & Upholstery Cleaning service removes deep-set dirt, stains, and odors. We use professional-grade equipment and eco-friendly solutions suitable for all fabric types.",
    ["carpet", "upholstery", "sofa", "furniture", "cushion", "stain"])

  const BagShoeEntry := FaqEntry(
    "What is the Bag & Shoe Spa service?",
    "Our Bag & Shoe Spa service professionally cleans, conditions, and restores handbags, shoes, and leather accessories. We handle designer items with care and expertise.",
    ["bag", "shoe", "spa", "leather", "cleaning", "restore"])

  const CreasingEntry := FaqEntry(
    "Can you do permanent creasing?",
    "Yes! Our Permanent Creasing service creates and sets sharp creases on trousers and other garments. The creases last through multiple washes for a crisp, professional look.",
    ["creasing", "crease", "trousers", "pants", "permanent"])

  const SanitizingEntry := FaqEntry(
    "Do you offer sanitizing services?",
    "Absolutely! Our Hygienizing & Sanitizing Service kills 99.9% of bacteria and viruses on fabrics. It's perfect for masks, frequent-wear items, and family protection.",
    ["sanitizing", "sanitize", "hygienizing", "bacteria", "virus", "sterilize"])

  const WashFoldEntry := FaqEntry(
    "What is the Wash & Fold service?",
    "Our Wash & Fold service handles everyday laundry. We wash, dry, fold, and return your clothes clean and fresh. Perfect for busy individuals and families.",
    ["wash", "fold", "laundry", "ironing"])

  const ScheduleEntry := FaqEntry(
    "How do I schedule a pickup?",
    "You can schedule a pickup directly through our app by selecting 'Schedule Pickup,' entering your details, preferred date and time, and service type. We'll confirm within 24 hours.",
    ["schedule", "pickup", "booking", "appointment", "order"])

  const TrackingEntry := FaqEntry(
    "How can I track my order?",
    "Use the 'Track Order' feature in our app. Enter your Order ID or phone number, and you'll see the status of your cleaning. You can also receive SMS updates.",
    ["track", "order", "status", "update"])

  const PaymentEntry := FaqEntry(
    "What payment methods do you accept?",
    "We accept cash, credit cards, debit cards, and digital wallets. Payment can be made online or upon delivery.",
    ["payment", "pay", "card", "cash", "method"])

  const OffersEntry := FaqEntry(
    "Do you have any current offers?",
    "Check our 'Offers' section in the app for the latest promotions and discounts. We regularly update our offers for new and returning customers.",
    ["offer", "discount", "promotion", "deal", "special"])

  const DelicateItemsEntry := FaqEntry(
    "What do you do with delicate items?",
    "We handle delicate items with specialized care. Each item is inspected, and we use appropriate cleaning methods for silks, wools, lace, and other delicate fabrics.",
    ["delicate", "care", "handle", "special", "gentle"])

  const StainsEntry := FaqEntry(
    "Can you remove stains?",
    "Our expert staff can treat most stains, including oil, wine, ink, and more. The success depends on the fabric and stain type. Bring items as soon as possible for best results.",
    ["stain", "remove", "spot", "mark"])

  const CostEntry := FaqEntry(
    "How much does it cost?",
    "Pricing varies by service type and item. Standard dry cleaning, washing, and specialized services each have different rates. Contact us for a quote or visit our website for pricing.",
    ["cost", "price", "rate", "fee", "charge"])

  const SoftToyEntry := FaqEntry(
    "Can you handle soft toy cleaning?",
    "Yes! Our Soft Toy Cleaning service safely cleans stuffed animals and plush toys while preserving their softness and color. Perfect for children's items.",
    ["soft", "toy", "stuffed", "animal", "plush"])

  const AlterationEntry := FaqEntry(
    "What is Alteration Clinique?",
    "Our Alteration Clinique provides professional tailoring and alterations for perfect fit. From hemming to major tailoring, our experts handle all modifications.",
    ["alteration", "tailor", "fit", "hem", "adjust"])

  const HangerAmnestyEntry := FaqEntry(
    "What is Hanger Amnesty?",
    "Our Hanger Amnesty program ensures your garments are returned on appropriate, quality hangers. We take care with presentation and protection of your cleaned items.",
    ["hanger", "amnesty", "hangers"])

  /** FAQ_DATA, in its order; its first entry is TurnaroundEntry. */
  const FaqCatalog: seq<FaqEntry> := [
    TurnaroundEntry,
    PickupEntry,
    CoverageEntry,
    DelicatesEntry,
    CompensationEntry,
    CarpetEntry,
    BagShoeEntry,
    CreasingEntry,
    SanitizingEntry,
    WashFoldEntry,
    ScheduleEntry,
    TrackingEntry,
    PaymentEntry,
    OffersEntry,
    DelicateItemsEntry,
    StainsEntry,
    CostEntry,
    SoftToyEntry,
    AlterationEntry,
    HangerAmnestyEntry
  ]

  const TurnaroundQuery := "Turnaround time in days?"

  lemma QueryNamesTurnaround()
    ensures Contains(Lower(TurnaroundQuery), "turnaround")
  {
    var ql := Lower(TurnaroundQuery);
    assert ql[..10] == "turnaround" by {
      forall k | 0 <= k < 10 ensures ql[k] == "turnaround"[k] {
        assert ql[k] == LowerChar(TurnaroundQuery[k]);
      }
    }
    assert OccursAt(ql, "turnaround", 0);
  }

  lemma QueryNamesTime()
    ensures Contains(Lower(TurnaroundQuery), "time")
  {
    var ql := Lower(TurnaroundQuery);
    assert ql[11..15] == "time" by {
      forall k | 0 <= k < 4 ensures ql[11 + k] == "time"[k] {
        assert ql[11 + k] == LowerChar(TurnaroundQuery[11 + k]);
      }
    }
    assert OccursAt(ql, "time", 11);
  }

  lemma QueryNamesDays()
    ensures Contains(Lower(TurnaroundQuery), "days")
  {
    var ql := Lower(TurnaroundQuery);
    assert ql[19..23] == "days" by {
      forall k | 0 <= k < 4 ensures ql[19 + k] == "days"[k] {
        assert ql[19 + k] == LowerChar(TurnaroundQuery[19 + k]);
      }
    }
    assert OccursAt(ql, "days", 19);
  }

  /** The query names three keywords of the turnaround entry, so that entry's
      similarity is the full 1.0 (10 tenths). */
  lemma TurnaroundSimilarity()
    ensures Similarity(TurnaroundQuery, TurnaroundEntry) == 10
  {
    var ql := Lower(TurnaroundQuery);
    var keywords := TurnaroundEntry.keywords;
    QueryNamesTurnaround();
    QueryNamesTime();
    QueryNamesDays();
    CountInAllFound(ql, keywords[..3]);
    assert keywords == keywords[..3] + keywords[3..];
    CountInConcat(ql, keywords[..3], keywords[3..]);
  }

  /** In any catalog that starts with the turnaround entry, the query retrieves that
      entry with confidence 1.0 and search_faq lists it first. */
  lemma TurnaroundMatchesFirstEntry(catalog: seq<FaqEntry>)
    requires catalog != [] && catalog[0] == TurnaroundEntry
    ensures Retrieve(TurnaroundQuery, catalog)
            == Answer(TurnaroundEntry.question, TurnaroundEntry.answer, 10)
    ensures var results := Search(TurnaroundQuery, catalog);
      results != [] && results[0].entry.question == TurnaroundEntry.question
      && results[0].score == 10
  {
    var sims := Similarities(TurnaroundQuery, catalog);
    TurnaroundSimilarity();
    assert IsFirstMax(sims, 0);
    FirstMaxMeaning(sims);
    FirstMaxUnique(sims, FirstMax(sims).value, 0);
    assert TrimLeft(TurnaroundQuery) == TurnaroundQuery;
    assert !TooShort(TurnaroundQuery);
    RetrieveHeadsSearch(TurnaroundQuery, catalog);
  }

  /** A two-character query is too short for both matchers, whatever the catalog. */
  lemma ShortQueryRejected(catalog: seq<FaqEntry>)
    ensures Retrieve("ok", catalog) == Answer("", "Please ask a more specific question.", 0)
    ensures Utils.SearchResult("ok", catalog) == None
  {
    assert |Strip("ok")| <= 2;
  }

  /** On the shipped catalog itself the turnaround query retrieves its first entry
      with confidence 1.0, and search_faq lists that entry first with score 1.0. */
  lemma TurnaroundInFaqCatalog()
    ensures Retrieve(TurnaroundQuery, FaqCatalog)
            == Answer(TurnaroundEntry.question, TurnaroundEntry.answer, 10)
    ensures var results := Search(TurnaroundQuery, FaqCatalog);
      results != [] && results[0].entry.question == TurnaroundEntry.question
      && results[0].score == 10
  {
    assert FaqCatalog[0] == TurnaroundEntry;
    TurnaroundMatchesFirstEntry(FaqCatalog);
  }
}
