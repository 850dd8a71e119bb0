/** The list arithmetic of the todos page (`src/pages/TodosPage.jsx`): reading the
    `page` query parameter, search and completion filtering, page count, the page
    slice, the redirect decision and the previous/next targets. React effects become
    functions that return what the effect would act on. */
module TodosPage {
  import opened Wrappers
  import opened Seqs
  import opened Todos
  import opened JsText
  import TodoList

  const ItemsPerPage := 8

  // ---------------------------------------------------------------------------
  // The page query parameter

  /** `searchParams.get('page') || '1'`: an absent or empty parameter reads as "1". */
  function PageText(param: Option<string>): (t: string)
    ensures param.None? || param.value == [] ==> t == "1"
    ensures param.Some? && param.value != [] ==> t == param.value
  {
    if param.None? || param.value == [] then "1" else param.value
  }

  /** The current page as the page computes it, with radix 8; `None` is `NaN`. */
  function ReadPage(param: Option<string>): (page: Option<int>)
    ensures param.None? || param.value == [] ==> page == Some(1)
    ensures param.Some? && param.value != [] ==> page == ParseInt(param.value, 8)
  {
    ParseIntOne(8);
    ParseInt(PageText(param), 8)
  }

  /** The current page read with radix 10, the radix the page writes it in. */
  function ReadPageDecimal(param: Option<string>): (page: Option<int>)
    ensures param.None? || param.value == [] ==> page == Some(1)
    ensures param.Some? && param.value != [] ==> page == ParseInt(param.value, 10)
  {
    ParseIntOne(10);
    ParseInt(PageText(param), 10)
  }

  /** `page.toString()` as stored by the previous/next handlers; `NaN` prints as "NaN". */
  function WritePage(page: Option<int>): (s: string)
    ensures s != [] && ParseInt(s, 10) == page
  {
    match page
    case Some(n) => RadixRoundTrip(n, 10); NumberToString(n, 10)
    case None => NaNText(10); "NaN"
  }

  /** Sample readings: the parameter "10" is page 8 and "8" is not a number. */
  lemma ReadPageSamples()
    ensures ReadPage(Some("10")) == Some(8)
    ensures ReadPage(Some("8")) == None
    ensures ReadPage(Some("")) == Some(1)
  {
    ParseUnsignedDigits("10", 8);
    ParseUnsignedDigits("8", 8);
    assert DigitPrefix("0", 8) == "0";
    assert DigitPrefix("10", 8) == "10";
    assert "10"[..1] == "1";
    assert DigitsValue("1", 8) == 1;
    assert DigitsValue("10", 8) == 8;
    assert DigitPrefix("8", 8) == "";
    ParseIntOne(8);
  }

  // ---------------------------------------------------------------------------
  // Filtering

  /** The search: the lower-cased title includes the lower-cased query. */
  predicate MatchesQuery(t: Todo, query: string) {
    Includes(Lower(t.title), Lower(query))
  }

  /** The list the page paginates: search matches first, then the not-completed ones. */
  function FilteredTodos(todos: seq<Todo>, query: string): (r: seq<Todo>)
    ensures forall t :: t in r <==> t in todos && !t.isCompleted && MatchesQuery(t, query)
    ensures IsSubsequence(r, todos)
    ensures forall t :: t in todos ==>
      multiset(r)[t] == if !t.isCompleted && MatchesQuery(t, query) then multiset(todos)[t] else 0
  {
    var matching := Keep(todos, t => MatchesQuery(t, query));
    SubsequenceTransitive(Keep(matching, TodoList.IsActive), matching, todos);
    Keep(matching, TodoList.IsActive)
  }

  /** The two filters are one order-preserving filter by "not completed and matching". */
  lemma FilteredIsOneFilter(todos: seq<Todo>, query: string)
    ensures FilteredTodos(todos, query) == Keep(todos, (t: Todo) => !t.isCompleted && MatchesQuery(t, query))
  {
    KeepKeep(todos, t => MatchesQuery(t, query), TodoList.IsActive,
             (t: Todo) => !t.isCompleted && MatchesQuery(t, query));
  }

  /** An empty query keeps every not-completed todo, in order. */
  lemma EmptyQueryKeepsActive(todos: seq<Todo>)
    ensures FilteredTodos(todos, "") == TodoList.VisibleTodos(todos)
  {
    forall i | 0 <= i < |todos|
      ensures MatchesQuery(todos[i], "")
    {
      IncludesEmpty(Lower(todos[i].title));
    }
    KeepAll(todos, t => MatchesQuery(t, ""));
  }

  // ---------------------------------------------------------------------------
  // Pagination

  /** `Math.ceil(n / itemsPerPage)`. */
  function TotalPages(n: nat): (pages: nat)
    ensures pages * ItemsPerPage >= n
    ensures n > 0 ==> (pages - 1) * ItemsPerPage < n
    ensures n == 0 ==> pages == 0
  {
    (n + ItemsPerPage - 1) / ItemsPerPage
  }

  /** Where `Array.prototype.slice` starts or stops for a relative index `k`:
      negative indices count from the end. */
  function SliceIndex(k: int, len: nat): (i: nat)
    ensures i <= len
    ensures 0 <= k <= len ==> i == k
  {
    if k < 0 then (if len + k < 0 then 0 else len + k)
    else if k < len then k else len
  }

  /** `xs.slice(start, end)`. */
  function JsSlice<T>(xs: seq<T>, start: int, end: int): (r: seq<T>)
    ensures |r| <= |xs|
    ensures 0 <= start <= end <= |xs| ==> r == xs[start..end]
    ensures forall k :: 0 <= k < |r| ==> r[k] in xs
  {
    var from := SliceIndex(start, |xs|);
    var to := SliceIndex(end, |xs|);
    if from < to then xs[from..to] else []
  }

  function Min(a: int, b: int): int {
    if a < b then a else b
  }

  /** The todos shown on the current page; a `NaN` page makes both slice bounds 0. */
  function PageSlice(xs: seq<Todo>, page: Option<int>): (r: seq<Todo>)
    ensures page.Some? && 1 <= page.value <= TotalPages(|xs|) ==>
      r == xs[(page.value - 1) * ItemsPerPage .. Min(page.value * ItemsPerPage, |xs|)]
      && 0 < |r| <= ItemsPerPage
    ensures page.Some? && page.value > TotalPages(|xs|) ==> r == []
    ensures page.None? ==> r == []
    ensures forall k :: 0 <= k < |r| ==> r[k] in xs
  {
    match page
    case None => JsSlice(xs, 0, 0)
    case Some(p) =>
      var first := (p - 1) * ItemsPerPage;
      JsSlice(xs, first, first + ItemsPerPage)
  }

  /** Every item of the list is shown on page `i / 8 + 1`, at position `i % 8`. */
  lemma EveryItemHasItsPage(xs: seq<Todo>, i: nat)
    requires i < |xs|
    ensures 1 <= i / ItemsPerPage + 1 <= TotalPages(|xs|)
    ensures var page := PageSlice(xs, Some(i / ItemsPerPage + 1));
            i % ItemsPerPage < |page| && page[i % ItemsPerPage] == xs[i]
  {
  }

  /** The page handed to the list component is already free of completed todos,
      so the list's own filter shows all of it. */
  lemma PageIsFullyVisible(todos: seq<Todo>, query: string, page: Option<int>)
    ensures var shown := PageSlice(FilteredTodos(todos, query), page);
            TodoList.VisibleTodos(shown) == shown
  {
    var xs := FilteredTodos(todos, query);
    var shown := PageSlice(xs, page);
    forall k | 0 <= k < |shown|
      ensures TodoList.IsActive(shown[k])
    {
      assert shown[k] in xs;
    }
    KeepAll(shown, TodoList.IsActive);
  }

  // ---------------------------------------------------------------------------
  // Redirect and navigation

  /** The page effect navigates to "/" when there are pages and the current one is
      not a number, below 1 or past the last page. */
  function ShouldRedirect(page: Option<int>, totalPages: nat): (redirect: bool)
    ensures totalPages == 0 ==> !redirect
    ensures page.Some? && 1 <= page.value <= totalPages ==> !redirect
    ensures totalPages > 0 && (page.None? || page.value < 1 || page.value > totalPages) ==> redirect
  {
    if totalPages > 0 then
      page.None? || page.value < 1 || (totalPages > 0 && page.value > totalPages)
    else false
  }

  /** For pages that are not negative, the page redirects exactly when there are items
      to show and its own slice shows none of them. */
  lemma RedirectIffEmptyPage(xs: seq<Todo>, page: Option<int>)
    requires page.None? || page.value >= 0
    ensures ShouldRedirect(page, TotalPages(|xs|)) <==> |xs| > 0 && PageSlice(xs, page) == []
  {
  }

  /** A redirect lands on "/", whose missing page parameter reads as page 1,
      which never redirects again. */
  lemma RedirectTargetIsStable(totalPages: nat)
    ensures ReadPage(None) == Some(1) && !ShouldRedirect(ReadPage(None), totalPages)
  {
  }

  /** `Math.max(1, page - 1)`; `NaN` stays `NaN`. */
  function PreviousPage(page: Option<int>): (prev: Option<int>)
    ensures prev.Some? <==> page.Some?
    ensures page.Some? ==> prev.value >= 1
    ensures page.Some? && page.value >= 1 ==> prev.value <= page.value
    ensures page.Some? && page.value > 1 ==> prev.value == page.value - 1
    ensures page.Some? && page.value <= 1 ==> prev.value == 1
  {
    match page
    case Some(p) => Some(if 1 > p - 1 then 1 else p - 1)
    case None => None
  }

  /** `Math.min(totalPages, page + 1)`; `NaN` stays `NaN`. */
  function NextPage(page: Option<int>, totalPages: nat): (next: Option<int>)
    ensures next.Some? <==> page.Some?
    ensures page.Some? ==> next.value <= totalPages
    ensures page.Some? && page.value < totalPages ==> next.value == page.value + 1
    ensures page.Some? && page.value >= totalPages ==> next.value == totalPages
    ensures page.Some? && 1 <= page.value <= totalPages ==> page.value <= next.value
  {
    match page
    case Some(p) => Some(if totalPages < p + 1 then totalPages else p + 1)
    case None => None
  }

  /** `disabled={currentPage === 1}` on the Previous button. */
  function PreviousDisabled(page: Option<int>): (b: bool)
    ensures b <==> page.Some? && PreviousPage(page) == page
  {
    page == Some(1)
  }

  /** `disabled={currentPage === totalPages}` on the Next button. */
  function NextDisabled(page: Option<int>, totalPages: nat): (b: bool)
    ensures b <==> page.Some? && NextPage(page, totalPages) == page
  {
    page == Some(totalPages)
  }

  /** On a valid page, each button is disabled exactly when pressing it would not move,
      and pressing it always lands on a valid page. */
  lemma ButtonsDisabledExactlyWhenStuck(page: Option<int>, totalPages: nat)
    requires page.Some? && 1 <= page.value <= totalPages
    ensures PreviousDisabled(page) <==> PreviousPage(page) == page
    ensures NextDisabled(page, totalPages) <==> NextPage(page, totalPages) == page
    ensures !ShouldRedirect(PreviousPage(page), totalPages)
    ensures !ShouldRedirect(NextPage(page, totalPages), totalPages)
  {
  }

  /** Reading the parameter as the page writes it (base 10), pressing Previous or Next
      on any page, `NaN` included, lands on the page the handler computed. */
  lemma NavigationRoundTrip(page: Option<int>, totalPages: nat)
    ensures ReadPageDecimal(Some(WritePage(PreviousPage(page)))) == PreviousPage(page)
    ensures ReadPageDecimal(Some(WritePage(NextPage(page, totalPages)))) == NextPage(page, totalPages)
  {
  }

  /** As written, the base-8 reading gets back every page from 1 to 7 but no page from 8 on. */
  lemma OctalReadingLosesPages(n: int)
    requires n >= 1
    ensures n < 8 ==> ReadPage(Some(WritePage(Some(n)))) == Some(n)
    ensures n >= 8 ==> ReadPage(Some(WritePage(Some(n)))) != Some(n)
  {
    OctalMisreadsDecimal(n);
  }

  /** With eight pages, pressing Next on page 7 writes "8", which reads as `NaN`,
      and the page redirects to "/" instead of showing page 8. */
  lemma NextFromPageSevenRedirects()
    ensures NextPage(Some(7), 8) == Some(8)
    ensures ReadPage(Some(WritePage(NextPage(Some(7), 8)))) == None
    ensures ShouldRedirect(ReadPage(Some(WritePage(NextPage(Some(7), 8)))), 8)
  {
    assert WritePage(Some(8)) == "8";
    assert ReadPage(Some("8")) == None;
  }
}
