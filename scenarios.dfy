/**
 * What the model gives on concrete inputs, stated and proved: the shipped
 * catalog and the page's placeholder text "I want a phone under $500 for gaming".
 */
module Scenarios {
  import opened Wrappers
  import opened Seqs
  import opened JsText
  import opened Catalog
  import opened CatalogText
  import opened PlaceholderText
  import opened Recommend
  import ProductsView

  lemma PlaceholderWords()
    ensures Split(Lower(PLACEHOLDER)) == PLACEHOLDER_WORDS
  {
    PlaceholderLowered();
    PlaceholderJoined();
    PlaceholderWordsClean();
    SplitJoinedWords(PLACEHOLDER_WORDS);
  }

  /** The placeholder's tokens are its six words of three or more
      characters, in order; "I" and "a" are dropped. */
  lemma PlaceholderTokens()
    ensures Tokens(PLACEHOLDER) == PLACEHOLDER_TOKENS
  {
    PlaceholderWords();
    PlaceholderWordHalves();
    var front, back := ["i", "want", "a", "phone"], ["under", "$500", "for", "gaming"];
    TokensDropFirstAndThird(PLACEHOLDER, front, back);
    PlaceholderTokenHalves();
    assert [front[1], front[3]] == ["want", "phone"];
  }

  /** A preference whose first and third words are short and whose other words
      are long keeps all words but those two. */
  lemma TokensDropFirstAndThird(p: string, front: seq<string>, back: seq<string>)
    requires Split(Lower(p)) == front + back
    requires |front| == 4 && |front[0]| <= SHORT_WORD && |front[1]| > SHORT_WORD
    requires |front[2]| <= SHORT_WORD && |front[3]| > SHORT_WORD
    requires forall w :: w in back ==> |w| > SHORT_WORD
    ensures Tokens(p) == [front[1], front[3]] + back
  {
    FilterDropsFirstAndThird(LongEnough, front, back);
  }

  // ---- Search texts of the shipped catalog, piece by piece

  lemma SearchTextParts(p: Product)
    ensures SearchText(p) == Lower(p.name) + " " + Lower(p.description) + " " + Lower(p.category)
  {
    LowerAppend(p.name + " " + p.description + " ", p.category);
    LowerAppend(p.name + " " + p.description, " ");
    LowerAppend(p.name + " ", p.description);
    LowerAppend(p.name, " ");
    assert Lower(" ") == " ";
  }

  /** A token found in one part of a product's search text is found in the whole. */
  lemma FoundInName(p: Product, t: string)
    requires Contains(Lower(p.name), t)
    ensures Contains(SearchText(p), t)
  {
    SearchTextParts(p);
    var rest := " " + Lower(p.description) + " " + Lower(p.category);
    assert SearchText(p) == Lower(p.name) + rest;
    ContainsLeft(Lower(p.name), rest, t);
  }

  lemma FoundInDescription(p: Product, t: string)
    requires Contains(Lower(p.description), t)
    ensures Contains(SearchText(p), t)
  {
    SearchTextParts(p);
    var before := Lower(p.name) + " ";
    var after := " " + Lower(p.category);
    assert SearchText(p) == before + (Lower(p.description) + after);
    ContainsLeft(Lower(p.description), after, t);
    ContainsRight(before, Lower(p.description) + after, t);
  }

  /** "phone" is in the search text of product 1. */
  lemma BudgetPhoneMatches()
    ensures Contains(SearchText(PRODUCTS[0]), "phone")
  {
    BudgetPhoneNameLower();
    assert OccursAt("budget phone x1", "phone", 7);
    FoundInName(PRODUCTS[0], "phone");
  }

  /** "phone" is in the search text of product 2. */
  lemma ProPhoneMatches()
    ensures Contains(SearchText(PRODUCTS[1]), "phone")
  {
    ProPhoneNameLower();
    assert OccursAt("pro phone z5", "phone", 4);
    FoundInName(PRODUCTS[1], "phone");
  }

  /** "gaming" is in the search text of product 4. */
  lemma GamingLaptopMatches()
    ensures Contains(SearchText(PRODUCTS[3]), "gaming")
  {
    GamingLaptopNameLower();
    assert OccursAt("gaming laptop g15", "gaming", 0);
    FoundInName(PRODUCTS[3], "gaming");
  }

  lemma FoundAtDescriptionStart(p: Product, d: string, e: string, t: string)
    requires p.description == d + e
    requires Contains(Lower(d), t)
    ensures Contains(SearchText(p), t)
  {
    LowerAppend(d, e);
    ContainsLeft(Lower(d), Lower(e), t);
    FoundInDescription(p, t);
  }

  /** "for" is inside "affordable" in the description of product 5. */
  lemma EverydayLaptopMatches()
    ensures Contains(SearchText(PRODUCTS[4]), "for")
  {
    EverydayLaptopDescription();
    EverydayLaptopFrontLower();
    assert OccursAt("affordable laptop for", "for", 2);
    FoundAtDescriptionStart(PRODUCTS[4], "Affordable laptop for", " students and office work.", "for");
  }

  // ---- Products 3 and 6 contain none of the placeholder's tokens

  predicate FreeOfTokens(hay: string)
  {
    forall k :: 0 <= k < |PLACEHOLDER_TOKENS| ==> !Contains(hay, PLACEHOLDER_TOKENS[k])
  }

  /** A text in which no three consecutive characters begin a token holds no token. */
  lemma FreeByTrigrams(h: string)
    requires forall i :: 0 <= i < |h| - 2 ==> h[i] != 'w' || h[i + 1] != 'a' || h[i + 2] != 'n'
    requires forall i :: 0 <= i < |h| - 2 ==> h[i] != 'p' || h[i + 1] != 'h' || h[i + 2] != 'o'
    requires forall i :: 0 <= i < |h| - 2 ==> h[i] != 'u' || h[i + 1] != 'n' || h[i + 2] != 'd'
    requires forall i :: 0 <= i < |h| - 2 ==> h[i] != '$' || h[i + 1] != '5' || h[i + 2] != '0'
    requires forall i :: 0 <= i < |h| - 2 ==> h[i] != 'f' || h[i + 1] != 'o' || h[i + 2] != 'r'
    requires forall i :: 0 <= i < |h| - 2 ==> h[i] != 'g' || h[i + 1] != 'a' || h[i + 2] != 'm'
    ensures FreeOfTokens(h)
  {
    NoTrigram(h, "want");
    NoTrigram(h, "phone");
    NoTrigram(h, "under");
    NoTrigram(h, "$500");
    NoTrigram(h, "for");
    NoTrigram(h, "gaming");
  }

  /** Tokens have no whitespace, so none can straddle the separator of two free texts. */
  lemma FreeAcross(a: string, b: string)
    requires FreeOfTokens(a) && FreeOfTokens(b)
    ensures FreeOfTokens(a + " " + b)
  {
    forall k | 0 <= k < |PLACEHOLDER_TOKENS| ensures !Contains(a + " " + b, PLACEHOLDER_TOKENS[k]) {
      var t := PLACEHOLDER_TOKENS[k];
      assert NoWhitespace(t);
      ContainsAcross(a, ' ', b, t);
      assert a + " " + b == a + [' '] + b;
    }
  }

  /** A product whose search text holds no placeholder token matches no list of such tokens. */
  lemma UnmatchedProduct(tokens: seq<string>, p: Product)
    requires forall w :: w in tokens ==> w in PLACEHOLDER_TOKENS
    requires FreeOfTokens(SearchText(p))
    ensures !Matches(tokens, p)
  {
    forall k | 0 <= k < |tokens| ensures !Contains(SearchText(p), tokens[k]) {
      assert tokens[k] in PLACEHOLDER_TOKENS;
      var j :| 0 <= j < |PLACEHOLDER_TOKENS| && PLACEHOLDER_TOKENS[j] == tokens[k];
    }
  }

  lemma UnmatchedPlaceholder(p: Product)
    requires FreeOfTokens(SearchText(p))
    ensures !Matches(Tokens(PLACEHOLDER), p)
  {
    PlaceholderTokens();
    UnmatchedProduct(Tokens(PLACEHOLDER), p);
  }

  /** The search text is free of tokens when each of its space-separated parts is. */
  lemma FreeSearchText(p: Product, d1: string, d2: string, n: string, l1: string, l2: string, c: string)
    requires p.description == d1 + " " + d2
    requires Lower(p.name) == n && Lower(d1) == l1 && Lower(d2) == l2 && Lower(p.category) == c
    requires FreeOfTokens(n) && FreeOfTokens(l1) && FreeOfTokens(l2) && FreeOfTokens(c)
    ensures FreeOfTokens(SearchText(p))
  {
    LowerAppend(d1 + " ", d2);
    LowerAppend(d1, " ");
    assert Lower(" ") == " ";
    assert Lower(p.description) == l1 + " " + l2;
    SearchTextParts(p);
    assert SearchText(p) == n + " " + l1 + " " + l2 + " " + c;
    FreeAcross(n, l1);
    FreeAcross(n + " " + l1, l2);
    FreeAcross(n + " " + l1 + " " + l2, c);
  }

  lemma SmartwatchFree()
    ensures FreeOfTokens("smartwatch")
  {
    FreeByTrigrams("smartwatch");
  }

  lemma LiteFree()
    ensures FreeOfTokens("lite")
  {
    FreeByTrigrams("lite");
  }

  lemma LightweightFree()
    ensures FreeOfTokens("lightweight")
  {
    FreeByTrigrams("lightweight");
  }

  lemma WithFree()
    ensures FreeOfTokens("with")
  {
    FreeByTrigrams("with");
  }

  lemma FitnessFree()
    ensures FreeOfTokens("fitness")
  {
    FreeByTrigrams("fitness");
  }

  lemma TrackingFree()
    ensures FreeOfTokens("tracking")
  {
    FreeByTrigrams("tracking");
  }

  lemma FeaturesFree()
    ensures FreeOfTokens("features.")
  {
    FreeByTrigrams("features.");
  }

  lemma WatchFree()
    ensures FreeOfTokens("watch")
  {
    FreeByTrigrams("watch");
  }

  lemma WirelessFree()
    ensures FreeOfTokens("wireless")
  {
    FreeByTrigrams("wireless");
  }

  lemma EarbudsFree()
    ensures FreeOfTokens("earbuds")
  {
    FreeByTrigrams("earbuds");
  }

  lemma NoiseCancellingFree()
    ensures FreeOfTokens("noise-cancelling")
  {
    FreeByTrigrams("noise-cancelling");
  }

  lemma LongFree()
    ensures FreeOfTokens("long")
  {
    FreeByTrigrams("long");
  }

  lemma BatteryFree()
    ensures FreeOfTokens("battery")
  {
    FreeByTrigrams("battery");
  }

  lemma LifeFree()
    ensures FreeOfTokens("life.")
  {
    FreeByTrigrams("life.");
  }

  lemma AudioFree()
    ensures FreeOfTokens("audio")
  {
    FreeByTrigrams("audio");
  }

  lemma SmartwatchNameFree()
    ensures FreeOfTokens("smartwatch lite")
  {
    SmartwatchFree();
    LiteFree();
    FreeAcross("smartwatch", "lite");
    assert "smartwatch" + " " + "lite" == "smartwatch lite";
  }

  lemma SmartwatchFrontFree()
    ensures FreeOfTokens("lightweight smartwatch with")
  {
    LightweightFree();
    SmartwatchFree();
    WithFree();
    FreeAcross("lightweight", "smartwatch");
    FreeAcross("lightweight" + " " + "smartwatch", "with");
    assert "lightweight" + " " + "smartwatch" + " " + "with" == "lightweight smartwatch with";
  }

  lemma SmartwatchBackFree()
    ensures FreeOfTokens("fitness tracking features.")
  {
    FitnessFree();
    TrackingFree();
    FeaturesFree();
    FreeAcross("fitness", "tracking");
    FreeAcross("fitness" + " " + "tracking", "features.");
    assert "fitness" + " " + "tracking" + " " + "features." == "fitness tracking features.";
  }

  lemma EarbudsNameFree()
    ensures FreeOfTokens("wireless earbuds")
  {
    WirelessFree();
    EarbudsFree();
    FreeAcross("wireless", "earbuds");
    assert "wireless" + " " + "earbuds" == "wireless earbuds";
  }

  lemma EarbudsFrontFree()
    ensures FreeOfTokens("noise-cancelling wireless earbuds")
  {
    NoiseCancellingFree();
    WirelessFree();
    EarbudsFree();
    FreeAcross("noise-cancelling", "wireless");
    FreeAcross("noise-cancelling" + " " + "wireless", "earbuds");
    assert "noise-cancelling" + " " + "wireless" + " " + "earbuds" == "noise-cancelling wireless earbuds";
  }

  lemma EarbudsBackFree()
    ensures FreeOfTokens("with long battery life.")
  {
    WithFree();
    LongFree();
    BatteryFree();
    LifeFree();
    FreeAcross("with", "long");
    FreeAcross("with" + " " + "long", "battery");
    FreeAcross("with" + " " + "long" + " " + "battery", "life.");
    assert "with" + " " + "long" + " " + "battery" + " " + "life." == "with long battery life.";
  }

  lemma SmartwatchTextFree()
    ensures FreeOfTokens(SearchText(PRODUCTS[2]))
  {
    SmartwatchDescription();
    SmartwatchNameLower();
    SmartwatchNameFree();
    SmartwatchFrontLower();
    SmartwatchFrontFree();
    SmartwatchBackLower();
    SmartwatchBackFree();
    SmartwatchCategoryLower();
    WatchFree();
    FreeSearchText(PRODUCTS[2], "Lightweight smartwatch with", "fitness tracking features.",
      "smartwatch lite", "lightweight smartwatch with", "fitness tracking features.", "watch");
  }

  /** Product 3 has none of the placeholder's tokens. */
  lemma SmartwatchDoesNotMatch()
    ensures !Matches(Tokens(PLACEHOLDER), PRODUCTS[2])
  {
    SmartwatchTextFree();
    UnmatchedPlaceholder(PRODUCTS[2]);
  }

  lemma EarbudsTextFree()
    ensures FreeOfTokens(SearchText(PRODUCTS[5]))
  {
    EarbudsDescription();
    EarbudsNameLower();
    EarbudsNameFree();
    EarbudsFrontLower();
    EarbudsFrontFree();
    EarbudsBackLower();
    EarbudsBackFree();
    EarbudsCategoryLower();
    AudioFree();
    FreeSearchText(PRODUCTS[5], "Noise-cancelling wireless earbuds", "with long battery life.",
      "wireless earbuds", "noise-cancelling wireless earbuds", "with long battery life.", "audio");
  }

  /** Product 6 has none of the placeholder's tokens. */
  lemma EarbudsDoNotMatch()
    ensures !Matches(Tokens(PLACEHOLDER), PRODUCTS[5])
  {
    EarbudsTextFree();
    UnmatchedPlaceholder(PRODUCTS[5]);
  }

  // ---- The keyword fallback for the placeholder preference on the shipped catalog

  lemma MatchedProduct(tokens: seq<string>, p: Product, t: string)
    requires t in tokens && Contains(SearchText(p), t)
    ensures Matches(tokens, p)
  {
    var k :| 0 <= k < |tokens| && tokens[k] == t;
  }

  /** A product holding one of the placeholder's tokens matches it. */
  lemma MatchesPlaceholder(p: Product, t: string)
    requires t in PLACEHOLDER_TOKENS && Contains(SearchText(p), t)
    ensures Matches(Tokens(PLACEHOLDER), p)
  {
    PlaceholderTokens();
    MatchedProduct(Tokens(PLACEHOLDER), p, t);
  }

  lemma PlaceholderMatchingProducts()
    ensures Matches(Tokens(PLACEHOLDER), PRODUCTS[0]) && Matches(Tokens(PLACEHOLDER), PRODUCTS[1])
    ensures Matches(Tokens(PLACEHOLDER), PRODUCTS[3]) && Matches(Tokens(PLACEHOLDER), PRODUCTS[4])
  {
    BudgetPhoneMatches();
    MatchesPlaceholder(PRODUCTS[0], "phone");
    ProPhoneMatches();
    MatchesPlaceholder(PRODUCTS[1], "phone");
    GamingLaptopMatches();
    MatchesPlaceholder(PRODUCTS[3], "gaming");
    EverydayLaptopMatches();
    MatchesPlaceholder(PRODUCTS[4], "for");
  }

  lemma SixProductMatches(preferences: string, ps: seq<Product>)
    requires |ps| == 6
    requires Matches(Tokens(preferences), ps[0]) && Matches(Tokens(preferences), ps[1])
    requires !Matches(Tokens(preferences), ps[2]) && Matches(Tokens(preferences), ps[3])
    requires Matches(Tokens(preferences), ps[4]) && !Matches(Tokens(preferences), ps[5])
    ensures AllMatches(preferences, ps) == [ps[0], ps[1], ps[3], ps[4]]
  {
    FilterOfSix(Matcher(Tokens(preferences)), ps);
  }

  /** The fallback is the first three of the matches when there are at least three. */
  lemma FallbackKeepsThree(preferences: string, ps: seq<Product>, all: seq<Product>)
    requires AllMatches(preferences, ps) == all && |all| >= FALLBACK_LIMIT
    ensures Fallback(preferences, ps) == all[..FALLBACK_LIMIT]
  {
  }

  /** Products 1, 2, 4 and 5 match the placeholder, and 3 and 6 do not. */
  lemma PlaceholderMatches()
    ensures AllMatches(PLACEHOLDER, PRODUCTS) == [PRODUCTS[0], PRODUCTS[1], PRODUCTS[3], PRODUCTS[4]]
  {
    CatalogFacts();
    PlaceholderMatchingProducts();
    SmartwatchDoesNotMatch();
    EarbudsDoNotMatch();
    SixProductMatches(PLACEHOLDER, PRODUCTS);
  }

  lemma FirstThreeOfFour(a: seq<Product>, w: Product, x: Product, y: Product, z: Product)
    requires a == [w, x, y, z]
    ensures a[..FALLBACK_LIMIT] == [w, x, y]
  {
  }

  /** The keyword fallback for the placeholder preference recommends products 1, 2 and 4:
      product 5 matches too but is cut off by the limit of three. */
  lemma PlaceholderFallback()
    ensures Fallback(PLACEHOLDER, PRODUCTS) == [PRODUCTS[0], PRODUCTS[1], PRODUCTS[3]]
  {
    var all := [PRODUCTS[0], PRODUCTS[1], PRODUCTS[3], PRODUCTS[4]];
    PlaceholderMatches();
    FallbackKeepsThree(PLACEHOLDER, PRODUCTS, all);
    FirstThreeOfFour(all, PRODUCTS[0], PRODUCTS[1], PRODUCTS[3], PRODUCTS[4]);
  }

  // ---- The category tabs of the shipped catalog

  lemma DistinctStep(xs: seq<string>, k: nat)
    requires k < |xs|
    ensures ProductsView.Distinct(xs[..k + 1]) ==
            ProductsView.Distinct(xs[..k]) + (if xs[k] in xs[..k] then [] else [xs[k]])
  {
    assert xs[..k + 1] == xs[..k] + [xs[k]];
    ProductsView.DistinctSnoc(xs[..k], xs[k]);
  }

  lemma DistinctOfSixFront(xs: seq<string>)
    requires |xs| == 6 && xs[1] == xs[0] && xs[0] != xs[2]
    ensures ProductsView.Distinct(xs[..3]) == [xs[0], xs[2]]
  {
    assert xs[..0] == [];
    DistinctStep(xs, 0);
    assert ProductsView.Distinct(xs[..1]) == [xs[0]];
    DistinctStep(xs, 1);
    assert xs[1] in xs[..1];
    assert ProductsView.Distinct(xs[..2]) == [xs[0]];
    DistinctStep(xs, 2);
    assert xs[..2] == [xs[0], xs[1]];
  }

  lemma DistinctOfSixMiddle(xs: seq<string>)
    requires |xs| == 6 && xs[1] == xs[0] && xs[4] == xs[3]
    requires xs[0] != xs[2] && xs[0] != xs[3] && xs[2] != xs[3]
    ensures ProductsView.Distinct(xs[..5]) == [xs[0], xs[2], xs[3]]
  {
    DistinctOfSixFront(xs);
    DistinctStep(xs, 3);
    assert xs[..3] == [xs[0], xs[1], xs[2]];
    assert ProductsView.Distinct(xs[..4]) == [xs[0], xs[2], xs[3]];
    DistinctStep(xs, 4);
    assert xs[4] in xs[..4];
  }

  /** Six values where the second repeats the first and the fifth the fourth, the rest
      being different, keep four distinct values in first-seen order. */
  lemma DistinctOfSix(xs: seq<string>)
    requires |xs| == 6 && xs[1] == xs[0] && xs[4] == xs[3]
    requires xs[0] != xs[2] && xs[0] != xs[3] && xs[0] != xs[5]
    requires xs[2] != xs[3] && xs[2] != xs[5] && xs[3] != xs[5]
    ensures ProductsView.Distinct(xs) == [xs[0], xs[2], xs[3], xs[5]]
  {
    DistinctOfSixMiddle(xs);
    DistinctStep(xs, 5);
    assert xs[..5] == [xs[0], xs[1], xs[2], xs[3], xs[4]];
    assert xs[..6] == xs;
  }

  /** Six products in four categories, the first and fourth repeated once right
      after themselves, give the tabs "All" and the four categories in that order. */
  lemma TabsOfSix(catalog: seq<Product>, a: string, b: string, c: string, d: string)
    requires |catalog| == 6
    requires catalog[0].category == a && catalog[1].category == a && catalog[2].category == b
    requires catalog[3].category == c && catalog[4].category == c && catalog[5].category == d
    requires a != b && a != c && a != d && b != c && b != d && c != d
    ensures ProductsView.Categories(catalog) == [ProductsView.ALL, a, b, c, d]
  {
    ColumnOfSix(catalog, a, b, c, d);
    DistinctOfSix([a, a, b, c, c, d]);
    TabsFromColumn(catalog, [a, b, c, d]);
    PrependToFour(ProductsView.ALL, a, b, c, d);
  }

  lemma PrependToFour<T>(x: T, a: T, b: T, c: T, d: T)
    ensures [x] + [a, b, c, d] == [x, a, b, c, d]
  {
  }

  lemma ColumnOfSix(catalog: seq<Product>, a: string, b: string, c: string, d: string)
    requires |catalog| == 6
    requires catalog[0].category == a && catalog[1].category == a && catalog[2].category == b
    requires catalog[3].category == c && catalog[4].category == c && catalog[5].category == d
    ensures ProductsView.CategoryColumn(catalog) == [a, a, b, c, c, d]
  {
  }

  lemma TabsFromColumn(catalog: seq<Product>, d: seq<string>)
    requires ProductsView.Distinct(ProductsView.CategoryColumn(catalog)) == d
    ensures ProductsView.Categories(catalog) == [ProductsView.ALL] + d
  {
  }

  /** The tabs are "All" followed by each category once, in catalog order. */
  lemma CatalogTabs()
    ensures ProductsView.Categories(PRODUCTS) == ["All", "Phone", "Watch", "Laptop", "Audio"]
  {
    TabsOfSix(PRODUCTS, "Phone", "Watch", "Laptop", "Audio");
  }

  // ---- Selecting the catalog products the model names

  lemma CatalogIdStrings()
    ensures IntToString(PRODUCTS[0].id) == "1" && IntToString(PRODUCTS[1].id) == "2"
    ensures IntToString(PRODUCTS[2].id) == "3" && IntToString(PRODUCTS[3].id) == "4"
    ensures IntToString(PRODUCTS[4].id) == "5" && IntToString(PRODUCTS[5].id) == "6"
  {
  }

  lemma SelectsFirstAndThird(ps: seq<Product>, ids: seq<string>)
    requires |ps| == 6
    requires IntToString(ps[0].id) in ids && IntToString(ps[1].id) !in ids
    requires IntToString(ps[2].id) in ids && IntToString(ps[3].id) !in ids
    requires IntToString(ps[4].id) !in ids && IntToString(ps[5].id) !in ids
    ensures KeepListed(ps, ids) == [ps[0], ps[2]]
  {
    var f := Listed(ids);
    FilterBySix(f, ps);
    assert Kept(f, ps[0]) == [ps[0]] && Kept(f, ps[1]) == [] && Kept(f, ps[2]) == [ps[2]];
    assert Kept(f, ps[3]) == [] && Kept(f, ps[4]) == [] && Kept(f, ps[5]) == [];
  }

  /** Ids "1" and "3", in either order, select products 1 and 3 in catalog order. */
  lemma ListedOneAndThree(ids: seq<string>)
    requires ids == ["1", "3"] || ids == ["3", "1"]
    ensures KeepListed(PRODUCTS, ids) == [PRODUCTS[0], PRODUCTS[2]]
  {
    CatalogFacts();
    CatalogIdStrings();
    SelectsFirstAndThird(PRODUCTS, ids);
  }

  /** Naming all six ids selects the whole catalog: the model path has no cap. */
  lemma AllSixListed()
    ensures KeepListed(PRODUCTS, ["1", "2", "3", "4", "5", "6"]) == PRODUCTS
  {
    CatalogFacts();
    CatalogIdStrings();
    ListedAllIsCatalog(PRODUCTS, ["1", "2", "3", "4", "5", "6"]);
  }

  // ---- End to end

  /** The placeholder preference with the model unreachable: products 1, 2 and 4. */
  lemma PlaceholderWhenModelFails(parse: string -> ParseOutcome)
    ensures Handle(Request(Some(PLACEHOLDER), Some(PRODUCTS)), Threw, parse) ==
            Recommendations([PRODUCTS[0], PRODUCTS[1], PRODUCTS[3]])
  {
    ThrownCallFallsBack(Request(Some(PLACEHOLDER), Some(PRODUCTS)), parse);
    PlaceholderFallback();
  }

  /** An empty preference is refused before any model call. */
  lemma EmptyPreferenceRefused(call: CallOutcome, parse: string -> ParseOutcome)
    ensures Handle(Request(Some(""), Some(PRODUCTS)), call, parse) == BadRequest(MISSING_FIELDS)
  {
  }

  const FENCED_BODY := "{\"recommendedIds\":[\"1\",\"3\"]}"

  lemma FencedBodyShape()
    ensures FENCED_BODY != [] && FENCED_BODY[0] == '{' && FENCED_BODY[|FENCED_BODY| - 1] == '}'
  {
  }

  /** A fenced reply naming ids "1" and "3": as written the endpoint answers with the
      keyword fallback. */
  lemma FencedIdsReply(preferences: string, parse: string -> ParseOutcome)
    requires preferences != ""
    ensures var raw := FENCE + "json" + "\n" + FENCED_BODY + "\n" + FENCE;
            Handle(Request(Some(preferences), Some(PRODUCTS)), Replied(Some(raw)), parse) ==
            Recommendations(Fallback(preferences, PRODUCTS))
  {
    FencedBodyShape();
    FencedJsonReplyFallsBack(Request(Some(preferences), Some(PRODUCTS)), FENCED_BODY, parse);
  }

  /** With the fences stripped, the same reply selects products 1 and 3. */
  lemma FencedIdsReplyCorrected(preferences: string, parse: string -> ParseOutcome)
    requires parse(FENCED_BODY) == Ids(["1", "3"])
    ensures var raw := FENCE + "json" + "\n" + FENCED_BODY + "\n" + FENCE;
            ResolveCorrected(preferences, PRODUCTS, Replied(Some(raw)), parse) ==
            ModelAnswer([PRODUCTS[0], PRODUCTS[2]])
  {
    FencedBodyShape();
    FencedReplyParsedWhenCorrected(preferences, PRODUCTS, FENCED_BODY, parse);
    ListedOneAndThree(["1", "3"]);
  }
}
