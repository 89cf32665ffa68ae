/**
 * The `POST /api/recommend` handler: request validation, interpretation of
 * the generative model's reply, the id filter over the submitted catalog and
 * the keyword fallback.
 *
 * The model call is an input (`CallOutcome`), and so is `JSON.parse`: the
 * handler is given a function from the reply text to what parsing it and
 * reading `recommendedIds` yields (`ParseOutcome`).
 */
module Recommend {
  import opened Wrappers
  import opened Seqs
  import opened JsText
  import opened Catalog

  /** The JSON request body; a field is `None` when it is absent. */
  datatype Request = Request(preferences: Option<string>, products: Option<seq<Product>>)

  /** The generative-model call either threw, or returned a result whose
      `text` may be missing (`None`). */
  datatype CallOutcome = Threw | Replied(text: Option<string>)

  /** What `JSON.parse(text).recommendedIds` gives: the parse threw; the
      parsed value has no array `recommendedIds` (or is `null`, which makes
      reading the field throw inside the same `try`); or an array, each
      element already converted with `String`. */
  datatype ParseOutcome = NotJson | NoIdArray | Ids(ids: seq<string>)

  /** The HTTP response: status 400 with an error message, or status 200 with
      a `recommendations` array. */
  datatype Response = BadRequest(error: string) | Recommendations(recommendations: seq<Product>)

  /** Which strategy produced the recommendation list. */
  datatype Resolution = ModelAnswer(chosen: seq<Product>) | KeywordFallback(chosen: seq<Product>)

  const MISSING_FIELDS: string := "Both 'preferences' and 'products' are required."
  const FENCE: string := "```"
  /** The fallback keeps at most this many products (`slice(0, 3)`). */
  const FALLBACK_LIMIT: nat := 3
  /** Preference words of this length or shorter are ignored by the fallback. */
  const SHORT_WORD: nat := 2

  /** Both fields present and truthy: a string is falsy only when empty, an
      array never is. */
  predicate Accepts(req: Request) {
    req.preferences.Some? && req.preferences.value != "" && req.products.Some?
  }

  /** The reply text, trimmed; the empty string when the result carries no text. */
  function ReplyText(text: Option<string>): string {
    match text
    case None => ""
    case Some(t) => Trim(t)
  }

  /** `recommendedIds` after the inner `try`: the array when there is one,
      otherwise the initial empty list. */
  function ReturnedIds(parsed: ParseOutcome): seq<string> {
    match parsed
    case Ids(ids) => ids
    case _ => []
  }

  /** Whether the product's id, written in decimal, is one of `ids`; as a predicate value. */
  function Listed(ids: seq<string>): Product -> bool {
    (p: Product) => IntToString(p.id) in ids
  }

  /** The products whose id, as a string, the model listed, in catalog order;
      the order and repetitions of the ids play no part. */
  function KeepListed(products: seq<Product>, ids: seq<string>): (r: seq<Product>)
    ensures IsSubsequence(r, products) && |r| <= |products|
    ensures forall p :: p in r ==> p in products && IntToString(p.id) in ids
    ensures forall p :: p in products && IntToString(p.id) in ids ==> p in r
  {
    Filter(Listed(ids), products)
  }

  /** A word counts as a token when it has more than two characters. */
  predicate LongEnough(w: string) {
    |w| > SHORT_WORD
  }

  /** The id filter looks at one product at a time, front to back. */
  lemma KeepListedCons(p: Product, products: seq<Product>, ids: seq<string>)
    ensures KeepListed([p] + products, ids) ==
            (if IntToString(p.id) in ids then [p] else []) + KeepListed(products, ids)
  {
    assert ([p] + products)[1..] == products;
  }

  /** The preference lower-cased, split on whitespace runs, short words
      dropped: exactly the long enough words, in their order, each free of
      whitespace and capitals. */
  function Tokens(preferences: string): (r: seq<string>)
    ensures IsSubsequence(r, Split(Lower(preferences)))
    ensures forall w :: w in r <==> w in Split(Lower(preferences)) && |w| > SHORT_WORD
    ensures forall w :: w in r ==> NoWhitespace(w) && NoCapital(w)
  {
    var words := Split(Lower(preferences));
    SplitPieces(Lower(preferences));
    LowerShape(preferences);
    SplitCapitals(Lower(preferences));
    assert forall w :: w in words ==> NoWhitespace(w) && NoCapital(w);
    Filter(LongEnough, words)
  }

  /** The lower-cased `name + " " + description + " " + category`. */
  function SearchText(p: Product): string {
    Lower(p.name + " " + p.description + " " + p.category)
  }

  /** Some token occurs in the product's search text. */
  predicate Matches(tokens: seq<string>, p: Product) {
    exists k :: 0 <= k < |tokens| && Contains(SearchText(p), tokens[k])
  }

  /** The test applied to each product, as a predicate value. */
  function Matcher(tokens: seq<string>): Product -> bool {
    (p: Product) => Matches(tokens, p)
  }

  /** All products with a matching token, in catalog order. */
  function AllMatches(preferences: string, products: seq<Product>): seq<Product> {
    Filter(Matcher(Tokens(preferences)), products)
  }

  /** The matches are found one product at a time, front to back. */
  lemma AllMatchesCons(preferences: string, p: Product, products: seq<Product>)
    ensures AllMatches(preferences, [p] + products) ==
            (if Matches(Tokens(preferences), p) then [p] else []) + AllMatches(preferences, products)
  {
    assert ([p] + products)[1..] == products;
  }

  /** The keyword fallback: the first three matching products in catalog order. */
  function Fallback(preferences: string, products: seq<Product>): (r: seq<Product>)
    ensures |r| <= FALLBACK_LIMIT && IsSubsequence(r, products)
    ensures forall p :: p in r ==> p in products && Matches(Tokens(preferences), p)
    ensures |r| < FALLBACK_LIMIT ==>
              forall p :: p in products && Matches(Tokens(preferences), p) ==> p in r
    ensures Tokens(preferences) == [] ==> r == []
  {
    var all := AllMatches(preferences, products);
    var r := Take(all, FALLBACK_LIMIT);
    assert all != [] ==> all[0] in all;
    PrefixOfSubsequence(all, products, |r|);
    SubsequenceMembers(r, products);
    r
  }

  /** The `try` block and its `catch`. A thrown call goes to the `catch`. A
      reply that starts with a code fence reaches the assignment to the
      constant `text`, which throws a TypeError outside the inner `try`, so
      it goes to the `catch` as well. Anything else is parsed, and a parse
      failure leaves the id list empty. */
  function Resolve(preferences: string, products: seq<Product>, call: CallOutcome,
                   parse: string -> ParseOutcome): Resolution
  {
    match call
    case Threw => KeywordFallback(Fallback(preferences, products))
    case Replied(raw) =>
      var text := ReplyText(raw);
      if StartsWith(text, FENCE) then KeywordFallback(Fallback(preferences, products))
      else ModelAnswer(KeepListed(products, ReturnedIds(parse(text))))
  }

  /** The handler: 400 unless both fields are truthy, otherwise 200 with the
      resolved list. */
  function Handle(req: Request, call: CallOutcome, parse: string -> ParseOutcome): (r: Response)
    ensures r.BadRequest? <==> !Accepts(req)
    ensures r.BadRequest? ==> r.error == MISSING_FIELDS
  {
    if !Accepts(req) then BadRequest(MISSING_FIELDS)
    else Recommendations(Resolve(req.preferences.value, req.products.value, call, parse).chosen)
  }

  // ---- Validation

  /** A rejected request gets the same 400 whatever the model or the parser
      would have done: neither strategy is consulted. */
  lemma RejectionIgnoresStrategies(req: Request, call1: CallOutcome, parse1: string -> ParseOutcome,
                                   call2: CallOutcome, parse2: string -> ParseOutcome)
    requires !Accepts(req)
    ensures Handle(req, call1, parse1) == Handle(req, call2, parse2) == BadRequest(MISSING_FIELDS)
  {
  }

  /** Only absence and the empty string are rejected: whitespace-only
      preferences and an empty catalog pass validation. */
  lemma ValidationEdges(s: string, products: seq<Product>)
    ensures Accepts(Request(Some(s), Some(products))) <==> s != ""
    ensures !Accepts(Request(None, Some(products))) && !Accepts(Request(Some(s), None))
    ensures Accepts(Request(Some(" "), Some([])))
  {
  }

  /** An accepted request is answered with status 200 and the resolved list. */
  lemma AcceptedIsResolved(req: Request, call: CallOutcome, parse: string -> ParseOutcome)
    requires Accepts(req)
    ensures Handle(req, call, parse) ==
            Recommendations(Resolve(req.preferences.value, req.products.value, call, parse).chosen)
  {
  }

  // ---- Model path

  /** With every identifier in the catalog given as a number, the model path
      keeps exactly the products whose id the model named: comparing string
      forms compares the numbers. */
  lemma NumericIdsSelectById(products: seq<Product>, ns: seq<int>, p: Product)
    ensures var r := KeepListed(products, seq(|ns|, i requires 0 <= i < |ns| => IntToString(ns[i])));
            p in r <==> p in products && p.id in ns
  {
    var strs := seq(|ns|, i requires 0 <= i < |ns| => IntToString(ns[i]));
    if IntToString(p.id) in strs {
      var i :| 0 <= i < |strs| && strs[i] == IntToString(p.id);
      IntToStringInjective(ns[i], p.id);
    }
    if p.id in ns {
      var i :| 0 <= i < |ns| && ns[i] == p.id;
      assert strs[i] == IntToString(p.id);
    }
  }

  /** The result depends only on which ids were returned: their order and
      repetitions do not matter, and the catalog order is kept. */
  lemma ListedIdsAsSet(products: seq<Product>, ids1: seq<string>, ids2: seq<string>)
    requires forall s :: s in ids1 <==> s in ids2
    ensures KeepListed(products, ids1) == KeepListed(products, ids2)
  {
    FilterCongruent(Listed(ids1), Listed(ids2), products);
  }

  /** There is no cap on the model path: naming every catalog id returns the
      whole catalog, however long. */
  lemma ListedAllIsCatalog(products: seq<Product>, ids: seq<string>)
    requires forall p :: p in products ==> IntToString(p.id) in ids
    ensures KeepListed(products, ids) == products
  {
    FilterKeepsAll(Listed(ids), products);
  }

  /** A reply without usable ids (no text, unparseable text, no id array,
      `null`, or an empty array) gives an empty list, not the fallback. */
  lemma UnusableReplyGivesEmpty(preferences: string, products: seq<Product>, raw: Option<string>,
                                parse: string -> ParseOutcome)
    requires !StartsWith(ReplyText(raw), FENCE)
    requires parse(ReplyText(raw)).Ids? ==> parse(ReplyText(raw)).ids == []
    ensures Resolve(preferences, products, Replied(raw), parse) == ModelAnswer([])
  {
  }

  /** A missing reply text becomes `""`, which `JSON.parse` rejects. */
  lemma MissingTextGivesEmpty(preferences: string, products: seq<Product>,
                              parse: string -> ParseOutcome)
    requires parse("") == NotJson
    ensures Resolve(preferences, products, Replied(None), parse) == ModelAnswer([])
  {
  }

  /** A reply whose trimmed text starts with a code fence ends in the
      fallback, because the fence clean-up assigns to a constant. */
  lemma FencedReplyFallsBack(req: Request, raw: string, parse: string -> ParseOutcome)
    requires Accepts(req)
    requires StartsWith(Trim(raw), FENCE)
    ensures Handle(req, Replied(Some(raw)), parse) ==
            Recommendations(Fallback(req.preferences.value, req.products.value))
  {
    var preferences, products := req.preferences.value, req.products.value;
    assert ReplyText(Some(raw)) == Trim(raw);
    assert Resolve(preferences, products, Replied(Some(raw)), parse) ==
           KeywordFallback(Fallback(preferences, products));
  }

  /** A failing model call is answered with status 200 and the fallback list. */
  lemma ThrownCallFallsBack(req: Request, parse: string -> ParseOutcome)
    requires Accepts(req)
    ensures Handle(req, Threw, parse) ==
            Recommendations(Fallback(req.preferences.value, req.products.value))
  {
    var preferences, products := req.preferences.value, req.products.value;
    assert Resolve(preferences, products, Threw, parse) == KeywordFallback(Fallback(preferences, products));
  }

  /** Whatever strategy runs, an accepted request gets an ordered subset of
      the submitted catalog: at most three products from the fallback, and
      from the model path only products the model named. */
  lemma ResolutionIsSubset(preferences: string, products: seq<Product>, call: CallOutcome,
                           parse: string -> ParseOutcome)
    ensures var r := Resolve(preferences, products, call, parse);
            IsSubsequence(r.chosen, products) &&
            (r.KeywordFallback? ==> |r.chosen| <= FALLBACK_LIMIT) &&
            (r.ModelAnswer? ==>
               call.Replied? &&
               forall p :: p in r.chosen ==> IntToString(p.id) in ReturnedIds(parse(ReplyText(call.text))))
  {
    match call
    case Threw =>
    case Replied(raw) =>
      var text := ReplyText(raw);
  }

  /** With unique catalog ids, no product id appears twice in any result. */
  lemma ResolutionUniqueIds(preferences: string, products: seq<Product>, call: CallOutcome,
                            parse: string -> ParseOutcome)
    requires UniqueIds(products)
    ensures UniqueIds(Resolve(preferences, products, call, parse).chosen)
  {
    ResolutionIsSubset(preferences, products, call, parse);
    SubsequenceUniqueIds(Resolve(preferences, products, call, parse).chosen, products);
  }

  lemma {:induction false} SubsequenceUniqueIds(xs: seq<Product>, ys: seq<Product>)
    requires IsSubsequence(xs, ys) && UniqueIds(ys)
    ensures UniqueIds(xs)
    decreases |ys|
  {
    if xs != [] {
      assert UniqueIds(ys[1..]) by {
        forall i, j | 0 <= i < j < |ys| - 1 ensures ys[1..][i].id != ys[1..][j].id {
          assert ys[1..][i] == ys[i + 1] && ys[1..][j] == ys[j + 1];
        }
      }
      if xs[0] == ys[0] && IsSubsequence(xs[1..], ys[1..]) {
        SubsequenceUniqueIds(xs[1..], ys[1..]);
        SubsequenceMembers(xs[1..], ys[1..]);
        forall j | 0 < j < |xs| ensures xs[0].id != xs[j].id {
          assert xs[j] == xs[1..][j - 1] && xs[j] in xs[1..] && xs[j] in ys[1..];
          var k :| 0 <= k < |ys[1..]| && ys[1..][k] == xs[j];
          assert ys[k + 1] == xs[j];
        }
      } else {
        SubsequenceUniqueIds(xs, ys[1..]);
      }
    }
  }

  // ---- Keyword fallback

  /** Once three products have matched, the rest of the catalog is never
      looked at: the fallback is the first three matches in catalog order. */
  lemma FallbackStopsAtThird(preferences: string, front: seq<Product>, back: seq<Product>)
    requires |AllMatches(preferences, front)| >= FALLBACK_LIMIT
    ensures Fallback(preferences, front + back) == Fallback(preferences, front)
  {
    var tokens := Tokens(preferences);
    var f := Matcher(tokens);
    FilterAppend(f, front, back);
    var a := Filter(f, front);
    assert (a + Filter(f, back))[..FALLBACK_LIMIT] == a[..FALLBACK_LIMIT];
  }

  // ---- The evidently intended fence clean-up

  /** The first regular-expression replacement: an opening fence at the very
      start, an optional `json` tag and the whitespace after them go. */
  function StripOpeningFence(text: string): string {
    if StartsWith(text, FENCE) then
      var rest := text[|FENCE|..];
      TrimStart(if StartsWith(rest, "json") then rest[4..] else rest)
    else text
  }

  /** The second replacement: a closing fence at the very end and the
      whitespace before it go. */
  function StripClosingFence(text: string): string {
    if EndsWith(text, FENCE) then TrimEnd(text[..|text| - |FENCE|]) else text
  }

  /** The clean-up of the fenced reply that the assignment was meant to do. */
  function StripFences(text: string): string {
    StripClosingFence(StripOpeningFence(text))
  }

  /** The reply interpretation with the clean-up working as its comment
      intends: the fenced text is stripped and parsed. */
  function ResolveCorrected(preferences: string, products: seq<Product>, call: CallOutcome,
                            parse: string -> ParseOutcome): Resolution
  {
    match call
    case Threw => KeywordFallback(Fallback(preferences, products))
    case Replied(raw) =>
      var text := ReplyText(raw);
      var cleaned := if StartsWith(text, FENCE) then StripFences(text) else text;
      ModelAnswer(KeepListed(products, ReturnedIds(parse(cleaned))))
  }

  /** A fenced body, with or without the `json` tag and with any whitespace
      around it, comes out of the clean-up as the bare body. */
  lemma StripFencesUnwraps(tag: string, lead: string, body: string, trail: string)
    requires AllWhitespace(lead) && AllWhitespace(trail)
    requires body != [] && !IsWhitespace(body[0]) && !IsWhitespace(body[|body| - 1])
    requires tag == "json" || (tag == "" && !StartsWith(lead + body, "json"))
    ensures StripFences(FENCE + tag + lead + body + trail + FENCE) == body
  {
    var closed := body + trail + FENCE;
    assert FENCE + tag + lead + body + trail + FENCE == FENCE + tag + lead + closed;
    if tag == "" {
      var tail := trail + FENCE;
      assert tail[0] == (if trail == [] then '`' else trail[0]);
      NoTagAcross(lead + body, tail);
      assert lead + body + tail == lead + closed;
    }
    OpeningFenceGoes(tag, lead, closed);
    ClosingFenceGoes(body, trail);
  }

  /** A text that does not start with `json` still does not once a character
      that is no letter of `json` follows it. */
  lemma NoTagAcross(text: string, tail: string)
    requires !StartsWith(text, "json")
    requires tail != [] && (IsWhitespace(tail[0]) || tail[0] == '`')
    ensures !StartsWith(text + tail, "json")
  {
    var t := text + tail;
    if |text| >= 4 {
      assert t[..4] == text[..4];
    } else if |t| >= 4 {
      var k := |text|;
      assert t[..4][k] == tail[0];
      assert "json"[k] != tail[0];
    }
  }

  lemma OpeningFenceGoes(tag: string, lead: string, rest: string)
    requires AllWhitespace(lead) && rest != [] && !IsWhitespace(rest[0])
    requires tag == "json" || (tag == "" && !StartsWith(lead + rest, "json"))
    ensures StripOpeningFence(FENCE + tag + lead + rest) == rest
  {
    var text := FENCE + tag + lead + rest;
    assert text[..3] == FENCE;
    assert text[3..] == tag + lead + rest;
    if tag == "json" {
      assert (tag + lead + rest)[..4] == "json";
      assert (tag + lead + rest)[4..] == lead + rest;
    } else {
      assert tag + lead + rest == lead + rest;
    }
    TrimStartSkips(lead, rest);
  }

  lemma ClosingFenceGoes(body: string, trail: string)
    requires AllWhitespace(trail)
    requires body != [] && !IsWhitespace(body[|body| - 1])
    ensures StripClosingFence(body + trail + FENCE) == body
  {
    var text := body + trail + FENCE;
    assert text[|text| - 3..] == FENCE;
    assert text[..|text| - 3] == body + trail;
    TrimEndSkips(body, trail);
  }

  lemma {:induction false} TrimStartSkips(ws: string, s: string)
    requires AllWhitespace(ws) && s != [] && !IsWhitespace(s[0])
    ensures TrimStart(ws + s) == s
    decreases |ws|
  {
    if ws != [] {
      assert (ws + s)[0] == ws[0];
      assert (ws + s)[1..] == ws[1..] + s;
      TrimStartSkips(ws[1..], s);
    } else {
      assert ws + s == s;
    }
  }

  lemma {:induction false} TrimEndSkips(s: string, ws: string)
    requires AllWhitespace(ws) && s != [] && !IsWhitespace(s[|s| - 1])
    ensures TrimEnd(s + ws) == s
    decreases |ws|
  {
    if ws != [] {
      var t := s + ws;
      assert t[|t| - 1] == ws[|ws| - 1];
      assert t[..|t| - 1] == s + ws[..|ws| - 1];
      TrimEndSkips(s, ws[..|ws| - 1]);
    } else {
      assert s + ws == s;
    }
  }

  /** With the clean-up corrected, a fenced JSON reply is parsed without its
      fences and its ids select products, instead of ending in the fallback. */
  lemma FencedReplyParsedWhenCorrected(preferences: string, products: seq<Product>, body: string,
                                       parse: string -> ParseOutcome)
    requires body != [] && body[0] == '{' && body[|body| - 1] == '}'
    ensures var raw := FENCE + "json" + "\n" + body + "\n" + FENCE;
            ResolveCorrected(preferences, products, Replied(Some(raw)), parse) ==
            ModelAnswer(KeepListed(products, ReturnedIds(parse(body))))
  {
    var raw := FENCE + "json" + "\n" + body + "\n" + FENCE;
    assert raw[0] == '`' && raw[|raw| - 1] == '`';
    assert TrimStart(raw) == raw;
    assert TrimEnd(raw) == raw;
    assert ReplyText(Some(raw)) == raw;
    assert raw[..3] == FENCE;
    StripFencesUnwraps("json", "\n", body, "\n");
    assert StripFences(raw) == body;
  }

  /** As written, the same fenced JSON reply never reaches the parser: the endpoint
      answers with the keyword fallback. */
  lemma FencedJsonReplyFallsBack(req: Request, body: string, parse: string -> ParseOutcome)
    requires Accepts(req)
    requires body != [] && body[0] == '{' && body[|body| - 1] == '}'
    ensures var raw := FENCE + "json" + "\n" + body + "\n" + FENCE;
            Handle(req, Replied(Some(raw)), parse) ==
            Recommendations(Fallback(req.preferences.value, req.products.value))
  {
    var raw := FENCE + "json" + "\n" + body + "\n" + FENCE;
    assert raw[0] == '`' && raw[|raw| - 1] == '`';
    assert TrimStart(raw) == raw;
    assert TrimEnd(raw) == raw;
    assert raw[..3] == FENCE;
    FencedReplyFallsBack(req, raw, parse);
  }

  /** Off the fenced case the correction changes nothing. */
  lemma CorrectionOnlyAffectsFences(preferences: string, products: seq<Product>, call: CallOutcome,
                                    parse: string -> ParseOutcome)
    requires call.Replied? ==> !StartsWith(ReplyText(call.text), FENCE)
    ensures ResolveCorrected(preferences, products, call, parse) == Resolve(preferences, products, call, parse)
  {
  }
}
