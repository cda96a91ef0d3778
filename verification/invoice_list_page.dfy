/**
 * The invoice list page's state: the fetched summaries, the search text and
 * the current page. The visible rows are the summaries matching the search,
 * ten to a page. Changing the search or reloading the list returns to page
 * one; the previous and next buttons move one page within bounds.
 */
module InvoiceListPage {
  import opened Common
  import opened InvoiceModels

  const ItemsPerPage: nat := 10

  /** How many numbered page buttons are shown at most. */
  const MaxPageButtons: nat := 3

  datatype ListState = ListState(invoices: seq<InvoiceSummaryDto>, query: string, currentPage: int)

  /** The search keeps an invoice whose number or vendor contains the query, ignoring case. */
  predicate Matches(inv: InvoiceSummaryDto, query: string) {
    Contains(Lower(inv.invoiceNumber), Lower(query)) || Contains(Lower(inv.vendorName), Lower(query))
  }

  function Filter(invoices: seq<InvoiceSummaryDto>, query: string): (r: seq<InvoiceSummaryDto>)
    ensures forall x :: x in r <==> x in invoices && Matches(x, query)
    ensures |r| <= |invoices|
    decreases |invoices|
  {
    if |invoices| == 0 then []
    else if Matches(invoices[0], query) then [invoices[0]] + Filter(invoices[1..], query)
    else Filter(invoices[1..], query)
  }

  /** The filter keeps list order: it distributes over concatenation. */
  lemma {:induction false} FilterDistributes(a: seq<InvoiceSummaryDto>, b: seq<InvoiceSummaryDto>, query: string)
    ensures Filter(a + b, query) == Filter(a, query) + Filter(b, query)
    decreases |a|
  {
    if |a| == 0 {
      assert a + b == b;
    } else {
      assert (a + b)[1..] == a[1..] + b;
      FilterDistributes(a[1..], b, query);
    }
  }

  /** An empty search keeps every invoice. */
  lemma {:induction false} EmptyQueryKeepsAll(invoices: seq<InvoiceSummaryDto>)
    ensures Filter(invoices, "") == invoices
    decreases |invoices|
  {
    if |invoices| > 0 {
      EmptyOccursEverywhere(Lower(invoices[0].invoiceNumber));
      EmptyQueryKeepsAll(invoices[1..]);
    }
  }

  function Filtered(st: ListState): seq<InvoiceSummaryDto> {
    Filter(st.invoices, st.query)
  }

  /** `Math.ceil(n / 10)`. */
  function TotalPages(n: nat): (r: nat)
    ensures r * ItemsPerPage >= n
    ensures r * ItemsPerPage < n + ItemsPerPage
    ensures r == 0 <==> n == 0
  {
    (n + ItemsPerPage - 1) / ItemsPerPage
  }

  /** JavaScript's `Array.prototype.slice`: negative positions count from the end, all are clamped. */
  function JsSlice<T>(s: seq<T>, start: int, end: int): (r: seq<T>)
    ensures |r| <= |s|
    ensures 0 <= start <= end ==> |r| <= end - start
    ensures 0 <= start <= end <= |s| ==> r == s[start..end]
    ensures 0 <= start <= |s| && start <= end ==> r == s[start..(if end > |s| then |s| else end)]
    ensures start >= |s| ==> r == []
  {
    var from := if start < 0 then (if |s| + start < 0 then 0 else |s| + start) else (if start > |s| then |s| else start);
    var to := if end < 0 then (if |s| + end < 0 then 0 else |s| + end) else (if end > |s| then |s| else end);
    if from >= to then [] else s[from..to]
  }

  /** The rows shown: `filtered.slice(start, start + 10)` with `start = (page - 1) * 10`. */
  function Visible(st: ListState): (r: seq<InvoiceSummaryDto>)
    ensures |r| <= ItemsPerPage
    ensures Valid(st) ==>
      var start := (st.currentPage - 1) * ItemsPerPage;
      var n := |Filtered(st)|;
      start <= n && r == Filtered(st)[start..(if start + ItemsPerPage > n then n else start + ItemsPerPage)]
  {
    var start := (st.currentPage - 1) * ItemsPerPage;
    JsSlice(Filtered(st), start, start + ItemsPerPage)
  }

  /** The page stays between one and the last page (one when there are no rows). */
  predicate Valid(st: ListState) {
    var total := TotalPages(|Filtered(st)|);
    1 <= st.currentPage <= (if total == 0 then 1 else total)
  }

  /** The search box changed; React re-filters and resets the page only when the text differs. */
  function SetQuery(st: ListState, query: string): (r: ListState)
    ensures r.query == query && r.invoices == st.invoices
    ensures query != st.query ==> r.currentPage == 1
    ensures query == st.query ==> r == st
  {
    if query == st.query then st else st.(query := query, currentPage := 1)
  }

  /** A (re)load of the list: the new summaries and page one. */
  function SetInvoices(st: ListState, invoices: seq<InvoiceSummaryDto>): (r: ListState)
    ensures r.invoices == invoices && r.query == st.query && r.currentPage == 1
  {
    st.(invoices := invoices, currentPage := 1)
  }

  /** `handlePrevPage`. */
  function PrevPage(st: ListState): (r: ListState)
    ensures st.currentPage > 1 ==> r.currentPage == st.currentPage - 1
    ensures st.currentPage <= 1 ==> r == st
    ensures r.invoices == st.invoices && r.query == st.query
  {
    if st.currentPage > 1 then st.(currentPage := st.currentPage - 1) else st
  }

  /** `handleNextPage`. */
  function NextPage(st: ListState): (r: ListState)
    ensures st.currentPage < TotalPages(|Filtered(st)|) ==> r.currentPage == st.currentPage + 1
    ensures st.currentPage >= TotalPages(|Filtered(st)|) ==> r == st
    ensures r.invoices == st.invoices && r.query == st.query
  {
    if st.currentPage < TotalPages(|Filtered(st)|) then st.(currentPage := st.currentPage + 1) else st
  }

  /** The numbered buttons: 1 up to `min(totalPages, 3)`. */
  function PageButtons(totalPages: nat): (r: seq<int>)
    ensures |r| == (if totalPages < MaxPageButtons then totalPages else MaxPageButtons)
    ensures forall i :: 0 <= i < |r| ==> r[i] == i + 1
  {
    var count := if totalPages < MaxPageButtons then totalPages else MaxPageButtons;
    seq(count, i requires 0 <= i < count => i + 1)
  }

  /** A click on a numbered button. */
  function SelectPage(st: ListState, page: int): (r: ListState)
    requires page in PageButtons(TotalPages(|Filtered(st)|))
    ensures r.currentPage == page && r.invoices == st.invoices && r.query == st.query
  {
    st.(currentPage := page)
  }

  predicate PrevDisabled(st: ListState) {
    st.currentPage == 1
  }

  predicate NextDisabled(st: ListState) {
    var total := TotalPages(|Filtered(st)|);
    st.currentPage == total || total == 0
  }

  /** Every transition keeps the page within its bounds. */
  lemma TransitionsKeepValid(st: ListState, query: string, invoices: seq<InvoiceSummaryDto>, page: int)
    requires Valid(st)
    ensures Valid(SetQuery(st, query))
    ensures Valid(SetInvoices(st, invoices))
    ensures Valid(PrevPage(st))
    ensures Valid(NextPage(st))
    ensures page in PageButtons(TotalPages(|Filtered(st)|)) ==> Valid(SelectPage(st, page))
  {
  }

  /** On a valid page, a button is disabled exactly when pressing it would change nothing. */
  lemma DisabledMeansNoOp(st: ListState)
    requires Valid(st)
    ensures PrevDisabled(st) <==> PrevPage(st) == st
    ensures NextDisabled(st) <==> NextPage(st) == st
  {
  }

  /** Every matching invoice is shown on exactly one page, at its position within the page. */
  lemma EveryRowOnItsPage(st: ListState, i: nat)
    requires i < |Filtered(st)|
    ensures var onPage := st.(currentPage := i / ItemsPerPage + 1);
      Valid(onPage) && i % ItemsPerPage < |Visible(onPage)| && Visible(onPage)[i % ItemsPerPage] == Filtered(st)[i]
  {
    var onPage := st.(currentPage := i / ItemsPerPage + 1);
    var n := |Filtered(st)|;
    var start := (i / ItemsPerPage) * ItemsPerPage;
    assert start <= i < start + ItemsPerPage;
    assert Filtered(onPage) == Filtered(st);
    var end := if start + ItemsPerPage > n then n else start + ItemsPerPage;
    assert Visible(onPage) == Filtered(st)[start..end];
  }
}
