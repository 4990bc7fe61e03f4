/**
 The home page: the search box, the tag filter, and the pagination controls.
 The list is refetched by an effect whenever page, search or tag changes; the
 Search button also fetches page 1 itself.
 */
module HomePage {
  import opened JsCore

  const PageSize: int := 10

  /** The fixed tag filter buttons, besides "All". */
  const FilterTags: seq<string> :=
    ["React", "JavaScript", "CSS", "Web Design", "Layout", "Tutorial", "Best Practices", "TypeScript"]

  /** `Math.ceil(total / limit) || 1`: a zero (or negative zero) page count shows as one page. */
  function TotalPages(total: int, limit: int): (r: int)
    requires limit > 0
    ensures r != 0
    ensures r == 1 || ((r - 1) * limit < total <= r * limit)
    ensures total > 0 ==> r >= 1 && (r - 1) * limit < total <= r * limit
    ensures -limit < total <= 0 ==> r == 1
  {
    var ceiling := -((-total) / limit);
    if ceiling == 0 then 1 else ceiling
  }

  /** Every one of `total` items falls on a page the controls offer. */
  lemma EveryItemHasAPage(total: int, limit: int, i: int)
    requires limit > 0 && 0 <= i < total
    ensures 1 <= i / limit + 1 <= TotalPages(total, limit)
  {
    var r := TotalPages(total, limit);
    var q := i / limit;
    assert q * limit <= i < total <= r * limit;
    MultipleBelow(q, r, limit);
  }

  lemma MultipleBelow(q: int, r: int, limit: int)
    requires limit > 0 && q * limit < r * limit
    ensures q < r
  {
    assert (q - r) * limit == q * limit - r * limit;
  }

  /** The Previous button: `Math.max(1, page - 1)`. */
  function Previous(page: int): (r: int)
    ensures r >= 1
    ensures page > 1 ==> r == page - 1
    ensures page <= 1 ==> r == 1
  {
    if page - 1 > 1 then page - 1 else 1
  }

  /** The Next button: `Math.min(totalPages, page + 1)`. */
  function Next(page: int, totalPages: int): (r: int)
    ensures r <= totalPages
    ensures page < totalPages ==> r == page + 1
    ensures page >= totalPages ==> r == totalPages
  {
    if page + 1 < totalPages then page + 1 else totalPages
  }

  predicate PreviousDisabled(page: int) {
    page == 1
  }

  predicate NextDisabled(page: int, totalPages: int) {
    page == totalPages
  }

  predicate InRange(page: int, totalPages: int) {
    1 <= page <= totalPages
  }

  /** On a valid page, a button is disabled exactly when pressing it would change nothing, and pressing it stays in range. */
  lemma ButtonsClampToRange(page: int, totalPages: int)
    requires InRange(page, totalPages)
    ensures InRange(Previous(page), totalPages) && InRange(Next(page, totalPages), totalPages)
    ensures PreviousDisabled(page) <==> Previous(page) == page
    ensures NextDisabled(page, totalPages) <==> Next(page, totalPages) == page
  {
  }

  /** Previous undoes Next and Next undoes Previous away from the ends. */
  lemma PreviousNextRoundTrip(page: int, totalPages: int)
    ensures 1 <= page < totalPages ==> Previous(Next(page, totalPages)) == page
    ensures 1 < page <= totalPages ==> Next(Previous(page), totalPages) == page
  {
  }

  /** `Array.from({ length: n }, (_, i) => i + 1)`: the page buttons. */
  function PageNumbers(n: int): (r: seq<int>)
    ensures |r| == if n > 0 then n else 0
    ensures forall i :: 0 <= i < |r| ==> r[i] == i + 1
  {
    if n <= 0 then [] else PageNumbers(n - 1) + [n]
  }

  /** Page buttons are exactly the valid pages, in ascending order. */
  lemma PageNumbersAreTheValidPages(totalPages: int, p: int)
    ensures p in PageNumbers(totalPages) <==> InRange(p, totalPages)
    ensures forall i, j :: 0 <= i < j < |PageNumbers(totalPages)| ==> PageNumbers(totalPages)[i] < PageNumbers(totalPages)[j]
  {
    if InRange(p, totalPages) {
      assert PageNumbers(totalPages)[p - 1] == p;
    }
  }

  /**
   The pagination bar: drawn only once loading has finished, inside the branch
   that renders a non-empty list of `listed` blogs, and only for more than one page.
   */
  predicate ControlsShown(loading: bool, listed: nat, totalPages: int) {
    !loading && listed > 0 && totalPages > 1
  }

  /** The pagination bar appears exactly when a non-empty list has finished loading and the total exceeds one page's limit. */
  lemma ControlsShownIffMoreThanOnePage(loading: bool, listed: nat, total: int, limit: int)
    requires limit > 0
    ensures ControlsShown(loading, listed, TotalPages(total, limit)) <==> !loading && listed > 0 && total > limit
  {
  }

  /**
   A page past the end of the list, as after the total shrank, shows "No blogs
   found" and no pagination bar, however many pages the total still spans.
   */
  lemma EmptyPageHidesControls(total: int, limit: int)
    requires limit > 0
    ensures !ControlsShown(false, 0, TotalPages(total, limit))
  {
  }

  datatype HomeState = HomeState(search: string, tag: string, page: int)

  /** The arguments of one `fetchBlogs(page, limit, search, tag)` call. */
  datatype FetchArgs = FetchArgs(page: int, limit: int, search: string, tag: string)

  datatype Event =
    | TypeSearch(text: string)
    | PickTag(tag: string)
    | PickAll
    | ClickSearch
    | ClickPage(n: int)
    | ClickPrevious
    | ClickNext

  /** What the page fetches for its current state. */
  function Current(st: HomeState): (a: FetchArgs)
    ensures a.limit == PageSize && a.page == st.page && a.search == st.search && a.tag == st.tag
  {
    FetchArgs(st.page, PageSize, st.search, st.tag)
  }

  /** The effect on `[currentPage, search, selectedTag]`: one fetch when any of them changed. */
  function EffectFetches(before: HomeState, after: HomeState): (r: seq<FetchArgs>)
    ensures |r| <= 1
    ensures r == [] <==> before == after
    ensures forall i :: 0 <= i < |r| ==> r[i] == Current(after)
  {
    if before == after then [] else [Current(after)]
  }

  /** The first render: empty filters, page 1, and the effect's initial fetch. */
  function Mount(): (r: (HomeState, seq<FetchArgs>))
    ensures r.0 == HomeState("", "", 1)
    ensures r.1 == [FetchArgs(1, PageSize, "", "")]
  {
    (HomeState("", "", 1), [Current(HomeState("", "", 1))])
  }

  datatype HomeStep = HomeStep(state: HomeState, fetches: seq<FetchArgs>)

  /** One user action: the new state and the fetches issued, in order. */
  function Step(st: HomeState, ev: Event, totalPages: int): (r: HomeStep)
    ensures ev.TypeSearch? ==> r.state == HomeState(ev.text, st.tag, 1)
    ensures ev.PickTag? ==> r.state == HomeState(st.search, ev.tag, 1)
    ensures ev.PickAll? ==> r.state == st.(tag := "", page := 1)
    ensures ev.ClickSearch? ==> r.state == st.(page := 1)
    ensures ev.ClickPage? ==> r.state == st.(page := ev.n)
    ensures ev.ClickPrevious? ==> r.state == st.(page := Previous(st.page))
    ensures ev.ClickNext? ==> r.state == st.(page := Next(st.page, totalPages))
    ensures forall i :: 0 <= i < |r.fetches| ==> r.fetches[i] == Current(r.state)
    ensures ev.ClickSearch? ==> |r.fetches| == (if st.page == 1 then 1 else 2)
    ensures !ev.ClickSearch? ==> r.fetches == EffectFetches(st, r.state)
  {
    match ev
    case TypeSearch(text) =>
      var next := HomeState(text, st.tag, 1);
      HomeStep(next, EffectFetches(st, next))
    case PickTag(tag) =>
      var next := HomeState(st.search, tag, 1);
      HomeStep(next, EffectFetches(st, next))
    case PickAll =>
      var next := st.(tag := "", page := 1);
      HomeStep(next, EffectFetches(st, next))
    case ClickSearch =>
      var next := st.(page := 1);
      HomeStep(next, [FetchArgs(1, PageSize, st.search, st.tag)] + EffectFetches(st, next))
    case ClickPage(n) =>
      var next := st.(page := n);
      HomeStep(next, EffectFetches(st, next))
    case ClickPrevious =>
      var next := st.(page := Previous(st.page));
      HomeStep(next, EffectFetches(st, next))
    case ClickNext =>
      var next := st.(page := Next(st.page, totalPages));
      HomeStep(next, EffectFetches(st, next))
  }

  /** Changing the search text or the tag filter always goes back to page 1 and fetches page 1 if anything changed. */
  lemma FilterChangeResetsPage(st: HomeState, ev: Event, totalPages: int)
    requires ev.TypeSearch? || ev.PickTag? || ev.PickAll? || ev.ClickSearch?
    ensures Step(st, ev, totalPages).state.page == 1
    ensures forall i :: 0 <= i < |Step(st, ev, totalPages).fetches| ==> Step(st, ev, totalPages).fetches[i].page == 1
    ensures ev.ClickSearch? ==> Step(st, ev, totalPages).fetches[0] == FetchArgs(1, PageSize, st.search, st.tag)
  {
  }

  /** Any sequence of button presses from a valid page keeps the page valid. */
  lemma {:induction false} NavigationStaysInRange(st: HomeState, events: seq<Event>, totalPages: int)
    requires InRange(st.page, totalPages)
    requires forall i :: 0 <= i < |events| ==>
      events[i].ClickPrevious? || events[i].ClickNext? || (events[i].ClickPage? && events[i].n in PageNumbers(totalPages))
    ensures InRange(Run(st, events, totalPages).page, totalPages)
    decreases |events|
  {
    if events != [] {
      var next := Step(st, events[0], totalPages).state;
      if events[0].ClickPage? {
        PageNumbersAreTheValidPages(totalPages, events[0].n);
      } else {
        ButtonsClampToRange(st.page, totalPages);
      }
      NavigationStaysInRange(next, events[1..], totalPages);
    }
  }

  /** The state after a sequence of actions. */
  function Run(st: HomeState, events: seq<Event>, totalPages: int): HomeState
    decreases |events|
  {
    if events == [] then st else Run(Step(st, events[0], totalPages).state, events[1..], totalPages)
  }
}
