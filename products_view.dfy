/**
 * The `Products` catalog page: its four pieces of state (active category,
 * preference text, loading flag, nullable recommendation list), the two
 * values derived from them on every render (the category tabs and the
 * displayed products) and the events that change them.
 *
 * The pure part states each event as a function on `ViewState`; the class
 * `ProductsPage` holds the same four fields and updates them step by step as
 * the component's handlers do, proved against those functions.
 */
module ProductsView {
  import opened Wrappers
  import opened Seqs
  import opened JsText
  import opened Catalog
  import Recommend

  const ALL: string := "All"

  datatype ViewState = ViewState(
    activeCategory: string,
    preference: string,
    loading: bool,
    recommended: Option<seq<Product>>)

  /** The `useState` initial values. */
  const INITIAL: ViewState := ViewState(ALL, "", false, None)

  /** What the request in `handleAskAI` produced: `fetch` or `response.json()`
      threw, or the body was read and its `recommendations` field may be
      absent. */
  datatype AskOutcome = Failed | Body(recommendations: Option<seq<Product>>)

  // ---- Derived values

  /** The elements of `xs` in the order in which they first appear, each
      once: the iteration order of `new Set(xs)`. */
  function Distinct(xs: seq<string>): (r: seq<string>)
    ensures NoDuplicates(r) && IsSubsequence(r, xs)
    ensures forall x :: x in r ==> x in xs
    ensures forall x :: x in xs ==> x in r
    decreases |xs|
  {
    if xs == [] then []
    else
      var front := xs[..|xs| - 1];
      var x := xs[|xs| - 1];
      var d := Distinct(front);
      assert xs == front + [x];
      SubsequenceSnoc(d, front, x);
      if x in d then d else d + [x]
  }

  /** Adding one element to a `Set` appends it unless it is already there. */
  lemma DistinctSnoc(xs: seq<string>, x: string)
    ensures Distinct(xs + [x]) == Distinct(xs) + (if x in xs then [] else [x])
  {
    assert (xs + [x])[..|xs|] == xs;
  }

  /** Later elements never reorder earlier ones: the distinct elements of a
      prefix come first, in the same order. */
  lemma {:induction false} DistinctPrefix(xs: seq<string>, k: nat)
    requires k <= |xs|
    ensures Distinct(xs[..k]) <= Distinct(xs)
    decreases |xs| - k
  {
    if k < |xs| {
      DistinctPrefix(xs, k + 1);
      assert xs[..k + 1] == xs[..k] + [xs[k]];
      DistinctSnoc(xs[..k], xs[k]);
    } else {
      assert xs[..k] == xs;
    }
  }

  /** The order of `new Set(xs)`: each element comes before every element
      whose first appearance in `xs` is later. */
  lemma {:induction false} DistinctOrder(xs: seq<string>)
    ensures forall i, j :: 0 <= i < j < |Distinct(xs)| ==>
              FirstIndex(xs, Distinct(xs)[i]) < FirstIndex(xs, Distinct(xs)[j])
    decreases |xs|
  {
    if xs != [] {
      var front, x := xs[..|xs| - 1], xs[|xs| - 1];
      assert xs == front + [x];
      DistinctOrder(front);
      var d, r := Distinct(front), Distinct(xs);
      DistinctSnoc(front, x);
      forall i, j | 0 <= i < j < |r|
        ensures FirstIndex(xs, r[i]) < FirstIndex(xs, r[j])
      {
        assert r[i] == d[i] && r[i] in front;
        FirstIndexSnoc(front, x, r[i]);
        if j < |d| {
          assert r[j] == d[j] && r[j] in front;
          FirstIndexSnoc(front, x, r[j]);
        } else {
          assert r[j] == x && x !in front;
          FirstIndexLast(front, x);
        }
      }
    }
  }

  function CategoryColumn(catalog: seq<Product>): (r: seq<string>)
    ensures |r| == |catalog| && forall i :: 0 <= i < |catalog| ==> r[i] == catalog[i].category
  {
    seq(|catalog|, i requires 0 <= i < |catalog| => catalog[i].category)
  }

  /** The tabs: "All", then each category of the catalog once, in the order in
      which the catalog first shows it. */
  function Categories(catalog: seq<Product>): (r: seq<string>)
    ensures |r| >= 1 && r[0] == ALL
    ensures NoDuplicates(r[1..])
    ensures forall c :: c in r[1..] ==> exists p :: p in catalog && p.category == c
    ensures forall p :: p in catalog ==> p.category in r[1..]
  {
    var column := CategoryColumn(catalog);
    var r := [ALL] + Distinct(column);
    assert r[1..] == Distinct(column);
    forall p | p in catalog ensures p.category in r[1..] {
      var i :| 0 <= i < |catalog| && catalog[i] == p;
      assert column[i] == p.category;
    }
    r
  }

  /** The catalog restricted to one category, in catalog order. */
  function InCategory(catalog: seq<Product>, category: string): seq<Product> {
    Filter((p: Product) => p.category == category, catalog)
  }

  /** `displayedProducts`: the recommendation list when there is one (even an
      empty one), else the catalog, filtered unless the "All" tab is active. */
  function Displayed(s: ViewState, catalog: seq<Product>): seq<Product> {
    match s.recommended
    case Some(r) => r
    case None => if s.activeCategory == ALL then catalog else InCategory(catalog, s.activeCategory)
  }

  /** The category tabs are rendered only while there is no recommendation list. */
  predicate TabsShown(s: ViewState) {
    s.recommended.None?
  }

  // ---- Events

  /** A preference that trims to nothing: `handleAskAI` ignores it. */
  predicate IsBlank(text: string) {
    Trim(text) == ""
  }

  /** `handleAskAI` up to the `await`: loading on, recommendations cleared. */
  function BeginAsk(s: ViewState): ViewState {
    s.(loading := true, recommended := None)
  }

  /** The rest of `handleAskAI`: a present `recommendations` field replaces
      the list and resets the tab to "All"; in every case loading goes off. */
  function SettleAsk(s: ViewState, outcome: AskOutcome): ViewState {
    match outcome
    case Body(Some(r)) => s.(recommended := Some(r), activeCategory := ALL, loading := false)
    case _ => s.(loading := false)
  }

  /** `handleAskAI` as one event: nothing happens for a blank preference. */
  function Ask(s: ViewState, outcome: AskOutcome): ViewState {
    if IsBlank(s.preference) then s else SettleAsk(BeginAsk(s), outcome)
  }

  /** `handleClear`. */
  function Clear(s: ViewState): ViewState {
    s.(recommended := None, preference := "", activeCategory := ALL)
  }

  datatype Event = Typed(text: string) | Asked(outcome: AskOutcome) | Cleared | TabClicked(category: string)

  /** One event. A tab click happens only on a rendered tab: while a
      recommendation list is shown there is none to click. */
  function Step(s: ViewState, e: Event, catalog: seq<Product>): ViewState {
    match e
    case Typed(text) => s.(preference := text)
    case Asked(outcome) => Ask(s, outcome)
    case Cleared => Clear(s)
    case TabClicked(c) =>
      if TabsShown(s) && c in Categories(catalog) then s.(activeCategory := c) else s
  }

  function Run(s: ViewState, events: seq<Event>, catalog: seq<Product>): ViewState
    decreases |events|
  {
    if events == [] then s else Run(Step(s, events[0], catalog), events[1..], catalog)
  }

  /** What holds between events: the active category is one of the tabs, a
      recommendation list is only shown with the "All" tab active, and no
      request is in flight. */
  predicate Consistent(s: ViewState, catalog: seq<Product>) {
    s.activeCategory in Categories(catalog) &&
    (s.recommended.Some? ==> s.activeCategory == ALL) &&
    !s.loading
  }

  // ---- Properties of the derived values

  /** A recommendation list, empty or not, is shown verbatim whatever tab is active. */
  lemma DisplayedRecommendations(s: ViewState, catalog: seq<Product>)
    requires s.recommended.Some?
    ensures Displayed(s, catalog) == s.recommended.value
    ensures forall c :: Displayed(s.(activeCategory := c), catalog) == Displayed(s, catalog)
  {
  }

  /** Without recommendations the view is the part of the catalog in the
      active category, or all of it under "All", in catalog order. */
  lemma DisplayedCatalogView(s: ViewState, catalog: seq<Product>)
    requires s.recommended.None?
    ensures s.activeCategory == ALL ==> Displayed(s, catalog) == catalog
    ensures IsSubsequence(Displayed(s, catalog), catalog)
    ensures forall p :: p in Displayed(s, catalog) <==>
              p in catalog && (s.activeCategory == ALL || p.category == s.activeCategory)
  {
    if s.activeCategory == ALL {
      FilterKeepsAll((p: Product) => true, catalog);
    }
  }

  /** Every tab other than "All" names a category that some product has, so
      selecting it never shows an empty grid. */
  lemma TabNeverEmpty(catalog: seq<Product>, c: string)
    requires c in Categories(catalog) && c != ALL
    ensures InCategory(catalog, c) != []
  {
    var r := Categories(catalog);
    var i :| 0 <= i < |r| && r[i] == c;
    assert r[1..][i - 1] == c;
    var p :| p in catalog && p.category == c;
    assert p in InCategory(catalog, c);
  }

  /** Between events the grid is empty only when the catalog is, or when the
      recommendation list itself is empty. */
  lemma ConsistentGridNonEmpty(s: ViewState, catalog: seq<Product>)
    requires Consistent(s, catalog) && s.recommended.None? && catalog != []
    ensures Displayed(s, catalog) != []
  {
    if s.activeCategory != ALL {
      TabNeverEmpty(catalog, s.activeCategory);
    }
  }

  // ---- Properties of the events

  /** A blank or whitespace-only preference leaves every field as it was. */
  lemma BlankAskChangesNothing(s: ViewState, outcome: AskOutcome)
    requires forall i :: 0 <= i < |s.preference| ==> IsWhitespace(s.preference[i])
    ensures Ask(s, outcome) == s
  {
    TrimEmptyIff(s.preference);
  }

  /** Before the request goes out the list is cleared and loading shows;
      there is no guard on a request already in flight. */
  lemma AskStartsLoading(s: ViewState)
    ensures BeginAsk(s).loading && BeginAsk(s).recommended.None?
    ensures BeginAsk(s).activeCategory == s.activeCategory && BeginAsk(s).preference == s.preference
    ensures forall catalog :: Displayed(BeginAsk(s), catalog) == Displayed(s.(recommended := None), catalog)
  {
  }

  /** A non-blank ask always ends with loading off and the preference kept;
      a present list is shown under "All"; otherwise the list stays cleared,
      so an earlier one is not restored, and the tab is unchanged. */
  lemma AskOutcomes(s: ViewState, outcome: AskOutcome, catalog: seq<Product>)
    requires !IsBlank(s.preference)
    ensures var t := Ask(s, outcome);
            !t.loading && t.preference == s.preference &&
            (outcome.Body? && outcome.recommendations.Some? ==>
               t.recommended == outcome.recommendations && t.activeCategory == ALL &&
               Displayed(t, catalog) == outcome.recommendations.value) &&
            (outcome.Failed? || outcome.recommendations.None? ==>
               t.recommended.None? && t.activeCategory == s.activeCategory &&
               Displayed(t, catalog) == Displayed(s.(recommended := None), catalog))
  {
  }

  /** Clearing returns to the whole catalog under "All" with an empty
      preference, and does not touch the loading flag. */
  lemma ClearShowsCatalog(s: ViewState, catalog: seq<Product>)
    ensures Displayed(Clear(s), catalog) == catalog
    ensures Clear(s).preference == "" && Clear(s).activeCategory == ALL
    ensures Clear(s).loading == s.loading
  {
  }

  /** While the tabs are shown, clicking one of them makes it the active category
      and changes nothing else. */
  lemma TabClickSelects(s: ViewState, c: string, catalog: seq<Product>)
    requires TabsShown(s) && c in Categories(catalog)
    ensures Step(s, TabClicked(c), catalog) == s.(activeCategory := c)
  {
  }

  lemma StepKeepsConsistent(s: ViewState, e: Event, catalog: seq<Product>)
    requires Consistent(s, catalog)
    ensures Consistent(Step(s, e, catalog), catalog)
  {
    var tabs := Categories(catalog);
    assert ALL in tabs by {
      assert tabs[0] == ALL;
    }
    match e
    case Typed(text) =>
    case Asked(outcome) =>
      if !IsBlank(s.preference) {
        var t := SettleAsk(BeginAsk(s), outcome);
        assert t.activeCategory == ALL || t.activeCategory == s.activeCategory;
      }
    case Cleared =>
    case TabClicked(c) =>
  }

  /** The invariant holds in every state the page can reach from its initial state. */
  lemma {:induction false} RunKeepsConsistent(s: ViewState, events: seq<Event>, catalog: seq<Product>)
    requires Consistent(s, catalog)
    ensures Consistent(Run(s, events, catalog), catalog)
    decreases |events|
  {
    if events != [] {
      StepKeepsConsistent(s, events[0], catalog);
      RunKeepsConsistent(Step(s, events[0], catalog), events[1..], catalog);
    }
  }

  lemma InitialConsistent(catalog: seq<Product>)
    ensures Consistent(INITIAL, catalog)
    ensures Displayed(INITIAL, catalog) == catalog
  {
    assert ALL in Categories(catalog);
  }

  // ---- The page against the handler

  /** The request body `handleAskAI` posts: the preference as typed and the
      whole catalog (the page always sends `PRODUCTS`). */
  function RequestFor(s: ViewState, catalog: seq<Product>): Recommend.Request {
    Recommend.Request(Some(s.preference), Some(catalog))
  }

  /** What the page reads from a handler response: the 400 body has no
      `recommendations` field. */
  function OutcomeOf(r: Recommend.Response): AskOutcome {
    match r
    case BadRequest(_) => Body(None)
    case Recommendations(list) => Body(Some(list))
  }

  lemma NonBlankIsNonEmpty(text: string)
    requires !IsBlank(text)
    ensures text != ""
  {
    assert Trim("") == "";
  }

  /** A preference the page sends is never rejected by the handler, so when
      the request reaches it the page shows exactly the resolved list. */
  lemma AskReachesHandler(s: ViewState, catalog: seq<Product>, call: Recommend.CallOutcome,
                          parse: string -> Recommend.ParseOutcome)
    requires !IsBlank(s.preference)
    ensures Recommend.Accepts(RequestFor(s, catalog))
    ensures var t := Ask(s, OutcomeOf(Recommend.Handle(RequestFor(s, catalog), call, parse)));
            t.recommended == Some(Recommend.Resolve(s.preference, catalog, call, parse).chosen) &&
            Displayed(t, catalog) == Recommend.Resolve(s.preference, catalog, call, parse).chosen
  {
    NonBlankIsNonEmpty(s.preference);
    var req := RequestFor(s, catalog);
    var chosen := Recommend.Resolve(s.preference, catalog, call, parse).chosen;
    assert Recommend.Accepts(req);
    Recommend.AcceptedIsResolved(req, call, parse);
    assert OutcomeOf(Recommend.Handle(req, call, parse)) == Body(Some(chosen));
    AskShowsList(s, catalog, chosen);
  }

  /** A list in the response becomes the displayed list. */
  lemma AskShowsList(s: ViewState, catalog: seq<Product>, list: seq<Product>)
    requires !IsBlank(s.preference)
    ensures Ask(s, Body(Some(list))).recommended == Some(list)
    ensures Displayed(Ask(s, Body(Some(list))), catalog) == list
  {
    assert Ask(s, Body(Some(list))) == SettleAsk(BeginAsk(s), Body(Some(list)));
  }

  // ---- The component

  /** The component's four `useState` fields and the handlers that set them. */
  class ProductsPage {
    var activeCategory: string
    var preference: string
    var loading: bool
    var recommendedProducts: Option<seq<Product>>
    /** The catalog the page renders, always `PRODUCTS`. */
    const catalog: seq<Product>

    function State(): ViewState
      reads this
    {
      ViewState(activeCategory, preference, loading, recommendedProducts)
    }

    ghost predicate Valid()
      reads this
    {
      Consistent(State(), catalog)
    }

    constructor ()
      ensures catalog == PRODUCTS
      ensures State() == INITIAL && Valid()
    {
      catalog := PRODUCTS;
      activeCategory := ALL;
      preference := "";
      loading := false;
      recommendedProducts := None;
      new;
      InitialConsistent(catalog);
    }

    /** The category tabs the page renders; their properties are those of
        `Categories`. */
    function CategoryTabs(): seq<string> {
      Categories(catalog)
    }

    /** The products the grid renders. */
    function DisplayedProducts(): (r: seq<Product>)
      reads this
      ensures r == Displayed(State(), catalog)
    {
      match recommendedProducts
      case Some(list) => list
      case None =>
        if activeCategory == ALL then catalog else InCategory(catalog, activeCategory)
    }

    /** The input's `onChange`. */
    method TypePreference(text: string)
      requires Valid()
      modifies this
      ensures Valid() && State() == Step(old(State()), Typed(text), catalog)
    {
      preference := text;
    }

    /** A tab's `onClick`; the tabs exist only while no list is shown. */
    method SelectCategory(category: string)
      requires Valid() && recommendedProducts.None? && category in CategoryTabs()
      modifies this
      ensures Valid() && State() == Step(old(State()), TabClicked(category), catalog)
    {
      ghost var s := State();
      TabClickSelects(s, category, catalog);
      StepKeepsConsistent(s, TabClicked(category), catalog);
      activeCategory := category;
      assert State() == s.(activeCategory := category);
    }

    /** `handleAskAI`, with the outcome of its request given. It has no
        guard against a request in flight: only the button is disabled. */
    method HandleAskAI(outcome: AskOutcome)
      requires Valid()
      modifies this
      ensures Valid() && State() == Step(old(State()), Asked(outcome), catalog)
    {
      if Trim(preference) == "" {
        return;
      }
      loading := true;
      recommendedProducts := None;
      assert State() == BeginAsk(old(State()));
      match outcome {
        case Body(Some(list)) =>
          recommendedProducts := Some(list);
          activeCategory := ALL;
        case _ =>
      }
      loading := false;
      StepKeepsConsistent(old(State()), Asked(outcome), catalog);
    }

    /** `handleClear`. */
    method HandleClear()
      requires Valid()
      modifies this
      ensures Valid() && State() == Step(old(State()), Cleared, catalog)
      ensures loading == old(loading)
    {
      recommendedProducts := None;
      preference := "";
      activeCategory := ALL;
      StepKeepsConsistent(old(State()), Cleared, catalog);
    }
  }
}
