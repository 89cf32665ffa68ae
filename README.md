# Product recommendations: server handler and catalog page

This project models the recommendation flow of a small product-catalog app.

On the server, `POST /api/recommend` receives a free-text preference and a product
list. It asks a generative model which products fit, and it falls back to keyword
matching when the model call fails. On the client, the `Products` page keeps four
pieces of state: the active category tab, the preference text, a loading flag and
an optional recommendation list. From them it renders the tabs and the product grid.

Modules:

- `Wrappers` holds `Option`, standing for a JavaScript value that may be absent.
- `Seqs` holds filtering, taking a prefix and the subsequence relation.
- `JsText` holds the string built-ins the code uses:
  - `trim`, over the ECMAScript whitespace set;
  - `startsWith` and `includes`;
  - `toLowerCase`, on ASCII letters only;
  - `split(/\s+/)`;
  - `String(n)` for integers.
- `Catalog` holds the product record and the six shipped products.
- `Recommend` holds the handler:
  - validation;
  - the model path, which reads the reply, parses it and selects products by id;
  - the keyword fallback;
  - the fence clean-up as the code evidently intends it.
- `ProductsView` holds the page in two forms:
  - pure functions on a `ViewState` value;
  - a class `ProductsPage` whose handlers update the four fields step by step and are proved against those functions.
- `CatalogText`, `PlaceholderText` and `Scenarios` state and prove what the model gives on concrete inputs:
  - the shipped catalog;
  - the example preference "I want a phone under $500 for gaming" shown in the page's input placeholder.

The outside world enters as parameters:

- The model call is an input `CallOutcome`. Either it threw, or it returned a result whose `text` may be missing.
- `JSON.parse(text).recommendedIds` is an oracle `parse: string -> ParseOutcome`. It gives one of:
  - `NotJson`, when the parse threw, or when the parsed value is `null` so that reading the field throws inside the same `try`;
  - `NoIdArray`;
  - the id array, with each element already passed through `String`.
- On the page, the request and the reading of its response are an input `AskOutcome`. Either `fetch` or `json()` threw, or a body was read whose `recommendations` field may be absent.

## Behaviour a reader might not expect

- **The example preference with the model unreachable.** The fallback answers with products 1, 2 and 4.
  - The tokens are "want", "phone", "under", "$500", "for" and "gaming".
  - "for" occurs inside "af**for**dable" and in "suitable for gaming".
  - "gaming" occurs in the gaming laptop's name.
  - Four products match, and the first three are kept.
  - See `Scenarios.PlaceholderFallback`.
- **A reply wrapped in a code fence is not parsed.** The clean-up assigns to a `const`. That throws a TypeError outside the inner `try`, so the outer `catch` runs the fallback. See Findings.
- **The model path returns every named product.** It returns every catalog product whose id was named, however many there are (`Scenarios.AllSixListed`).
- **Non-JSON reply text gives an empty list.** The inner `catch` swallows the parse error, so the fallback does not run.
- **Validation rejects only an absent field or an empty preference.** A whitespace-only preference and an empty product array are accepted.

## Model

| member | source | states |
|---|---|---|
| Recommend.Handle | server/index.js:38-45 | The answer is a 400 exactly when a field is missing or the preference is empty; a 400 always carries the fixed error message. |
| Recommend.ValidationEdges | server/index.js:41-45 | Whether a request is accepted depends only on the preference being present and non-empty, and the products being present; `" "` with an empty catalog is accepted. |
| Recommend.RejectionIgnoresStrategies | server/index.js:41-45 | A rejected request gets the same 400 whatever the model call or the parser would do, so neither is consulted. |
| Recommend.AcceptedIsResolved | server/index.js:47-112 | An accepted request is answered with status 200 and the list chosen by the resolution (model path or fallback). |
| Recommend.ThrownCallFallsBack | server/index.js:87-111 | A failing model call is answered with the keyword fallback list. |
| Recommend.FencedReplyFallsBack | server/index.js:64-71 | A reply whose trimmed text starts with three backticks ends in the fallback, because the clean-up assigns to a constant. |
| Recommend.FencedJsonReplyFallsBack | server/index.js:64-71 | As written, a fenced JSON reply with the `json` tag is answered with the fallback, not with the ids it names. |
| Recommend.UnusableReplyGivesEmpty | server/index.js:66-86 | An unfenced reply that is not JSON, has no id array, or has an empty one gives an empty list and not the fallback. |
| Recommend.MissingTextGivesEmpty | server/index.js:64-80 | A result without text is read as `""`; when the parser rejects it, the answer is the empty list. |
| Recommend.KeepListed | server/index.js:82-84 | The model-path result is a subsequence of the catalog holding exactly the products whose id, as a string, was returned. |
| Recommend.NumericIdsSelectById | server/index.js:82-84 | With numeric ids converted by `String`, a product is selected exactly when its id is among the returned numbers. |
| Recommend.ListedIdsAsSet | server/index.js:82-84 | Only the set of returned ids matters: their order and repetition do not change the result. |
| Recommend.ListedAllIsCatalog | server/index.js:82-84 | Naming every catalog id returns the whole catalog: the model path has no size cap. |
| Recommend.ResolutionIsSubset | server/index.js:82-109 | Every resolution is an ordered subset of the submitted catalog; the fallback has at most three products; a model answer holds only products whose id was returned. |
| Recommend.ResolutionUniqueIds | server/index.js:82-109 | With unique catalog ids, no result holds two products with the same id. |
| Recommend.Tokens | server/index.js:92-95 | The tokens are the words of `split(/\s+/)` on the lower-cased preference, kept in order: a word is a token exactly when it has more than two characters, and no token holds whitespace or an ASCII capital. |
| Recommend.Fallback | server/index.js:97-109 | The fallback has at most three products, all matching and in catalog order, and when it has fewer than three it holds every match; no tokens means no products. |
| Recommend.FallbackStopsAtThird | server/index.js:97-109 | Once three products have matched, later catalog entries do not change the fallback. |
| Recommend.StripFencesUnwraps | server/index.js:68-71 | The evidently intended clean-up turns a fenced body, with or without the `json` tag and surrounding whitespace, into the bare body. |
| Recommend.FencedReplyParsedWhenCorrected | server/index.js:64-84 | With the clean-up working, a fenced JSON reply is parsed without its fences and its ids select the products. |
| Recommend.CorrectionOnlyAffectsFences | server/index.js:64-84 | The corrected resolution differs from the code as written only for replies that start with a fence. |
| Recommend.ReplyText | server/index.js:64 | No contract of its own: a missing text reads as `""` and a present one is trimmed. Its properties are in `Recommend.MissingTextGivesEmpty`, `JsText.TrimStart`, `JsText.TrimEnd` and `JsText.TrimEmptyIff`. |
| Recommend.Resolve | server/index.js:47-111 | No contract of its own. Its behaviour is stated by `Recommend.ThrownCallFallsBack`, `Recommend.FencedReplyFallsBack`, `Recommend.UnusableReplyGivesEmpty`, `Recommend.MissingTextGivesEmpty`, `Recommend.ResolutionIsSubset` and `Recommend.ResolutionUniqueIds`. |
| Recommend.SearchText | server/index.js:99-105 | No contract of its own: the lower-cased name, description and category joined by spaces. `JsText.LowerShape` and `JsText.LowerAppend` state what lower-casing does. |
| Recommend.Matches | server/index.js:107 | No contract of its own: some token occurs in the search text. `Recommend.Fallback` and the `Scenarios` lemmas use it. |
| Recommend.AllMatches | server/index.js:97-108 | No contract of its own: the matching products in catalog order. `Recommend.AllMatchesCons` states how it is built one product at a time. |
| Recommend.StripFences | server/index.js:68-70 | No contract of its own: the intended fence clean-up. `Recommend.StripFencesUnwraps` states what it does to a fenced body. |
| Recommend.ResolveCorrected | server/index.js:64-111 | No contract of its own: `Recommend.Resolve` with a working clean-up. Its behaviour is stated by `Recommend.FencedReplyParsedWhenCorrected` and `Recommend.CorrectionOnlyAffectsFences`. |
| JsText.TrimStart | server/index.js:64 | What is dropped from the front is all whitespace, and what remains is a suffix that does not start with whitespace. |
| JsText.TrimEnd | server/index.js:64 | What is dropped from the back is all whitespace, and what remains is a prefix that does not end with whitespace. |
| JsText.Trim | server/index.js:64 | No contract of its own: `TrimEnd` after `TrimStart`. Its properties are those two contracts and `JsText.TrimEmptyIff`. |
| JsText.Lower | server/index.js:92-93 | No contract of its own: each character is mapped on its own. `JsText.LowerShape` and `JsText.LowerAppend` state its properties. |
| JsText.LowerShape | server/index.js:92-93 | Lower-casing keeps the length, leaves no ASCII capital and keeps whitespace exactly where it was. |
| JsText.LowerAppend | server/index.js:99-105 | Lower-casing a concatenation lower-cases each part. |
| JsText.Split | server/index.js:94 | No contract of its own. Its properties are in `JsText.SplitJoin`, `JsText.SplitPieces`, `JsText.SplitCapitals` and `JsText.SplitJoinedWords`. |
| JsText.SplitCapitals | server/index.js:92-94 | Splitting a text without ASCII capitals gives pieces without ASCII capitals. |
| JsText.Contains | server/index.js:107 | No contract of its own: `needle` occurs at some position. `JsText.ContainsLeft`, `JsText.ContainsRight`, `JsText.ContainsAcross` and `JsText.NoTrigram` state its properties. |
| JsText.ContainsAcross | server/index.js:107 | A needle without whitespace that is in neither part is not in the two parts joined by a whitespace character. |
| JsText.IntToString | server/index.js:83 | The form is non-empty and starts with a minus sign exactly for negative numbers. `JsText.IntToStringInjective` states that distinct integers get distinct forms. |
| JsText.TrimEmptyIff | server/index.js:64 | A string trims to nothing exactly when it is whitespace throughout. |
| JsText.SplitJoin | server/index.js:94 | Joining the pieces of `split(/\s+/)` with single spaces gives the text with each whitespace run collapsed to one space. |
| JsText.SplitPieces | server/index.js:94 | No piece of a split holds whitespace. |
| JsText.SplitJoinedWords | server/index.js:94 | Splitting non-empty whitespace-free words joined by single spaces gives the words back. |
| JsText.IntToStringInjective | server/index.js:83 | Distinct integers have distinct `String` forms, so matching ids by their string forms matches the numbers. |
| Catalog.CatalogFacts | client/src/Products.jsx:3-52 | The shipped catalog has six entries numbered 1 to 6, unique ids and no negative price. |
| ProductsView.Distinct | client/src/Products.jsx:60 | The category list has no repeats, is a subsequence of the column and holds exactly its elements; the order is stated by `ProductsView.DistinctOrder`. |
| ProductsView.DistinctOrder | client/src/Products.jsx:60 | The categories come in the order of their first appearance in the catalog. |
| ProductsView.DistinctPrefix | client/src/Products.jsx:60 | Categories seen later never reorder the ones seen earlier. |
| ProductsView.Categories | client/src/Products.jsx:60 | The tabs are "All" followed by each category of the catalog once; every tab after "All" names a category some product has. |
| ProductsView.Displayed | client/src/Products.jsx:62-66 | No contract of its own. Its properties are in `ProductsView.DisplayedRecommendations`, `ProductsView.DisplayedCatalogView` and `ProductsView.TabNeverEmpty`. |
| ProductsView.DisplayedRecommendations | client/src/Products.jsx:62-63 | A recommendation list, even an empty one, is shown as it is, whatever tab is active. |
| ProductsView.DisplayedCatalogView | client/src/Products.jsx:62-66 | Without recommendations, the grid shows the whole catalog under "All", and otherwise exactly the products of the active category in catalog order. |
| ProductsView.TabNeverEmpty | client/src/Products.jsx:60-66 | Selecting any tab other than "All" never shows an empty grid. |
| ProductsView.ConsistentGridNonEmpty | client/src/Products.jsx:60-66 | Between events, with no recommendations and a non-empty catalog, the "no products found" message never shows. |
| ProductsView.BlankAskChangesNothing | client/src/Products.jsx:68-69 | Asking with a whitespace-only preference leaves every field as it was. |
| ProductsView.AskStartsLoading | client/src/Products.jsx:71-72 | Before the request, loading is on and the list is cleared; the tab and the preference stay. |
| ProductsView.AskOutcomes | client/src/Products.jsx:74-99 | After a non-blank ask, loading is off and the preference kept. A present list is shown under "All". Otherwise the list stays cleared and the tab unchanged. |
| ProductsView.ClearShowsCatalog | client/src/Products.jsx:102-106 | Clearing shows the whole catalog under "All" with an empty preference, and leaves the loading flag alone. |
| ProductsView.TabClickSelects | client/src/Products.jsx:201-206 | While the tabs are shown, clicking one makes it active and changes nothing else. |
| ProductsView.BeginAsk | client/src/Products.jsx:71-72 | No contract of its own: loading on and the list cleared. `ProductsView.AskStartsLoading` states it. |
| ProductsView.SettleAsk | client/src/Products.jsx:88-99 | No contract of its own: a present list replaces the old one under "All", and loading goes off in every case. `ProductsView.AskOutcomes` states it. |
| ProductsView.Ask | client/src/Products.jsx:68-100 | No contract of its own. `ProductsView.BlankAskChangesNothing` and `ProductsView.AskOutcomes` state it. |
| ProductsView.Clear | client/src/Products.jsx:102-106 | No contract of its own. `ProductsView.ClearShowsCatalog` states it. |
| ProductsView.Step | client/src/Products.jsx:55-106 | No contract of its own: one event on the page. `ProductsView.StepKeepsConsistent` and `ProductsView.TabClickSelects` state its properties. |
| ProductsView.Run | client/src/Products.jsx:55-106 | No contract of its own: events applied in order. `ProductsView.RunKeepsConsistent` states its invariant. |
| ProductsView.StepKeepsConsistent | client/src/Products.jsx:55-106 | Every event keeps the invariant: the active category is a tab, a list is shown only under "All", and no request is in flight. |
| ProductsView.RunKeepsConsistent | client/src/Products.jsx:55-106 | The invariant holds after any sequence of events. |
| ProductsView.InitialConsistent | client/src/Products.jsx:55-58 | The initial state meets the invariant and shows the whole catalog. |
| ProductsView.AskReachesHandler | client/src/Products.jsx:68-91 | A preference the page sends is always accepted by the handler, and the page then shows exactly the list the handler resolved. |
| ProductsView.ProductsPage.constructor | client/src/Products.jsx:55-58 | The page starts under "All" with an empty preference, no loading and no list, over the shipped catalog, and meets the invariant. |
| ProductsView.ProductsPage.DisplayedProducts | client/src/Products.jsx:62-66 | The rendered grid is the displayed list of the current state. |
| ProductsView.ProductsPage.TypePreference | client/src/Products.jsx:142 | Typing replaces the preference, and the invariant is kept. |
| ProductsView.ProductsPage.SelectCategory | client/src/Products.jsx:203-206 | Clicking a rendered tab takes one tab-click step, and the invariant is kept. |
| ProductsView.ProductsPage.HandleAskAI | client/src/Products.jsx:68-100 | Asking takes one ask step from the old state, and the invariant is kept. |
| ProductsView.ProductsPage.HandleClear | client/src/Products.jsx:102-106 | Clearing takes one clear step, leaves the loading flag alone, and the invariant is kept. |
| Scenarios.PlaceholderTokens | server/index.js:92-95 | The example preference's tokens are exactly the list "want", "phone", "under", "$500", "for", "gaming": "I" and "a" are dropped. |
| Scenarios.PlaceholderMatchingProducts | server/index.js:97-108 | Products 1, 2, 4 and 5 match the example preference. |
| Scenarios.SmartwatchDoesNotMatch | server/index.js:97-108 | Product 3 matches none of the example's tokens. |
| Scenarios.EarbudsDoNotMatch | server/index.js:97-108 | Product 6 matches none of the example's tokens. |
| Scenarios.PlaceholderMatches | server/index.js:97-108 | All products matching the example are 1, 2, 4 and 5, in that order. |
| Scenarios.PlaceholderFallback | server/index.js:97-109 | The fallback for the example is products 1, 2 and 4. |
| Scenarios.PlaceholderWhenModelFails | server/index.js:38-112 | With the model unreachable, the endpoint answers the example preference with products 1, 2 and 4. |
| Scenarios.EmptyPreferenceRefused | server/index.js:41-45 | An empty preference is refused with the 400 message whatever the model would do. |
| Scenarios.CatalogTabs | client/src/Products.jsx:60 | The shipped catalog's tabs are All, Phone, Watch, Laptop and Audio. |
| Scenarios.ListedOneAndThree | server/index.js:82-84 | Ids "1" and "3", in either order, select products 1 and 3 in catalog order. |
| Scenarios.AllSixListed | server/index.js:82-84 | Naming all six ids returns all six products. |
| Scenarios.FencedIdsReply | server/index.js:64-71 | A fenced `json` reply naming ids "1" and "3" is answered with the keyword fallback. |
| Scenarios.FencedIdsReplyCorrected | server/index.js:64-84 | With the clean-up corrected, the same reply selects products 1 and 3. |

## Left out

- The model client, its model name and the prompt text are left out (server/index.js:13-35, 48-62). The call is the input `CallOutcome`, and the prompt does not affect the result.
- `JSON.parse` and reading `recommendedIds` are an oracle parameter. The model does not parse JSON.
- Logging to the console is left out, and so is the browser `alert`.
- Express, CORS, `dotenv`, port selection and the `GET /` status route are left out. They are start-up and transport code.
- The page posts to the service's root URL, not to `/api/recommend` (client/src/Products.jsx:75). The model does not decide what that address answers. `ProductsView.AskReachesHandler` states what happens when the request does reach the handler. Every other response comes in as an `AskOutcome`.
- The JSX markup, the styling and the Enter-key shortcut are left out. The shortcut calls the same handler.
- The disabled state of the button while loading is left out.
- `ProductsView.ProductsPage.HandleAskAI` runs from start to finish in one call. Interleaving of overlapping asynchronous asks is not modelled.
- Lower-casing maps only the ASCII letters. JavaScript's full Unicode case mapping is not modelled.
- A request body whose `preferences` is not a string, or whose `products` is not an array, is left out. So are products without the `name`, `description`, `category` or `id` fields. In JavaScript those change the concatenated text or throw.
- Ids and prices are integers. Fractional JSON numbers are not modelled.
- The elements of the returned id array go through `String` inside the oracle. The model does not convert JSON values to strings.
- JsText.IntToString: it writes an integer in decimal. JavaScript's `String` works on doubles: from 1e21 up it uses exponent notation, integers above 2^53 are not all distinct, and `String(-0)` is `"0"`. Ids in that range are not modelled.
- Recommend.LongEnough: it counts characters (Unicode scalar values). JavaScript's `w.length` counts UTF-16 code units, so a word with a character outside the Basic Multilingual Plane is longer there. `"a😀"` has length 3 in JavaScript and 2 here.

## Findings

| source | as written | input that shows it | evidently intended | confidence | as-written member | corrected member |
|---|---|---|---|---|---|---|
| server/index.js:64-71 | `text` is declared `const`, and the fence clean-up assigns to it. That throws a TypeError outside the inner `try`, so the outer `catch` answers with the keyword fallback. | A reply of three backticks, `json`, a newline, `{"recommendedIds":["1","3"]}`, a newline and three backticks. | Strip the fences and parse the body, answering with products 1 and 3. | not executed | Recommend.FencedJsonReplyFallsBack | Recommend.FencedReplyParsedWhenCorrected |
