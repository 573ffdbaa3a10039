/** The invoice list page: the positive and negative difference totals of the
    page, the local filter state and the query `applyFilters` sends, the reset,
    and the row numbers. */
module InvoiceList {
  import opened Wrappers
  import opened Entities
  import InvoiceController

  // ---- `diffTotals` ----

  /** The sum of the positive differences. */
  function Positive(rows: seq<InvoiceController.InvoiceRow>): (r: real)
    ensures r >= 0.0
  {
    if rows == [] then 0.0
    else (if rows[0].difference > 0.0 then rows[0].difference else 0.0) + Positive(rows[1..])
  }

  /** The sum of the negative differences. */
  function Negative(rows: seq<InvoiceController.InvoiceRow>): (r: real)
    ensures r <= 0.0
  {
    if rows == [] then 0.0
    else (if rows[0].difference < 0.0 then rows[0].difference else 0.0) + Negative(rows[1..])
  }

  function SumDifferences(rows: seq<InvoiceController.InvoiceRow>): real {
    if rows == [] then 0.0 else rows[0].difference + SumDifferences(rows[1..])
  }

  function SumTotals(rows: seq<InvoiceController.InvoiceRow>): real {
    if rows == [] then 0.0 else rows[0].totalAmount + SumTotals(rows[1..])
  }

  function SumComputed(rows: seq<InvoiceController.InvoiceRow>): real {
    if rows == [] then 0.0 else rows[0].computedSalesTotal + SumComputed(rows[1..])
  }

  /** The two totals together are the page's net difference. */
  lemma {:induction false} PositivePlusNegative(rows: seq<InvoiceController.InvoiceRow>)
    ensures Positive(rows) + Negative(rows) == SumDifferences(rows)
  {
    if rows != [] {
      PositivePlusNegative(rows[1..]);
    }
  }

  /** On rows the controller produced, the net difference is the entered totals
      minus the computed sales totals. */
  lemma {:induction false} NetDifference(rows: seq<InvoiceController.InvoiceRow>)
    requires forall i :: 0 <= i < |rows| ==> rows[i].difference == rows[i].totalAmount - rows[i].computedSalesTotal
    ensures SumDifferences(rows) == SumTotals(rows) - SumComputed(rows)
  {
    if rows != [] {
      assert forall i :: 0 <= i < |rows[1..]| ==> rows[1..][i] == rows[i + 1];
      NetDifference(rows[1..]);
    }
  }

  /** Every row `index` renders carries its own difference, so the page's net difference
      is its entered totals minus its computed sales totals. */
  lemma IndexNetDifference(vs: seq<Invoice>, pivot: seq<InvoiceSale>, ss: seq<Sale>, u: User, bs: seq<Branch>,
                           status: Option<string>, kind: Option<string>, search: Option<string>, page: Option<int>)
    ensures var rows := InvoiceController.Index(vs, pivot, ss, u, bs, status, kind, search, page).rows;
      SumDifferences(rows) == SumTotals(rows) - SumComputed(rows)
      && Positive(rows) + Negative(rows) == SumTotals(rows) - SumComputed(rows)
  {
    var rows := InvoiceController.Index(vs, pivot, ss, u, bs, status, kind, search, page).rows;
    NetDifference(rows);
    PositivePlusNegative(rows);
  }

  // ---- row numbers ----

  /** The `#` column: `(current_page - 1) * 10 + idx + 1`. */
  function RowNumber(currentPage: nat, idx: nat): nat
    requires currentPage >= 1
  {
    (currentPage - 1) * 10 + idx + 1
  }

  /** The number shown is the row's 1-based position in the whole listing. */
  lemma RowNumberIsPosition(vs: seq<Invoice>, pivot: seq<InvoiceSale>, ss: seq<Sale>, u: User, bs: seq<Branch>,
                            status: Option<string>, kind: Option<string>, search: Option<string>, page: Option<int>, idx: nat)
    requires idx < |InvoiceController.Index(vs, pivot, ss, u, bs, status, kind, search, page).rows|
    ensures var p := InvoiceController.Index(vs, pivot, ss, u, bs, status, kind, search, page);
      var list := InvoiceController.Listing(vs, u, bs, status, kind, search);
      RowNumber(p.currentPage, idx) <= |list|
      && p.rows[idx] == InvoiceController.Present(list[RowNumber(p.currentPage, idx) - 1], pivot, ss)
  {
  }

  /** Rows on different pages, or at different places on a page, get different numbers. */
  lemma RowNumbersDistinct(p1: nat, i1: nat, p2: nat, i2: nat)
    requires p1 >= 1 && p2 >= 1 && i1 < InvoiceController.PerPage && i2 < InvoiceController.PerPage
    requires p1 != p2 || i1 != i2
    ensures RowNumber(p1, i1) != RowNumber(p2, i2)
  {
    if p1 < p2 {
      assert (p2 - 1) * 10 >= (p1 - 1) * 10 + 10;
    } else if p2 < p1 {
      assert (p1 - 1) * 10 >= (p2 - 1) * 10 + 10;
    }
  }

  // ---- the filter bar ----

  /** The query `router.get('/invoices', ...)` sends; `None` is a parameter left out. */
  datatype Query = Query(status: Option<string>, kind: Option<string>, q: Option<string>)

  /** A partial filter update; `None` is a key the partial does not set. */
  datatype Partial = Partial(status: Option<string>, kind: Option<string>, q: Option<string>)

  /** `value || fallback` on a string that may be null: null and `""` give the fallback. */
  function OrElse(v: Option<string>, fallback: string): (r: string)
    ensures v.Some? && v.value != "" ==> r == v.value
    ensures !(v.Some? && v.value != "") ==> r == fallback
  {
    if v.Some? && v.value != "" then v.value else fallback
  }

  /** The query for a local state: `all` and an empty search are left out. */
  function QueryFor(status: string, kind: string, q: string): (r: Query)
    ensures r.status.None? <==> status == "all"
    ensures r.kind.None? <==> kind == "all"
    ensures r.q.None? <==> q == ""
    ensures r.status.Some? ==> r.status.value == status
    ensures r.kind.Some? ==> r.kind.value == kind
    ensures r.q.Some? ==> r.q.value == q
  {
    Query(if status == "all" then None else Some(status),
          if kind == "all" then None else Some(kind),
          if q == "" then None else Some(q))
  }

  /** The `local` state of the filter bar. */
  class FilterBar {
    var status: string
    var kind: string
    var q: string

    /** Starts from the filters the server echoed, `all`/empty where none is set. */
    constructor (filters: Query)
      ensures status == OrElse(filters.status, "all") && kind == OrElse(filters.kind, "all")
      ensures q == OrElse(filters.q, "")
    {
      status := OrElse(filters.status, "all");
      kind := OrElse(filters.kind, "all");
      q := OrElse(filters.q, "");
    }

    /** Typing in the search box changes only the local state. */
    method Type(text: string)
      modifies this`q
      ensures q == text
    {
      q := text;
    }

    /** `applyFilters(partial)`: merges the partial over the state and returns the query sent. */
    method ApplyFilters(partial: Partial) returns (sent: Query)
      modifies this`status, this`kind, this`q
      ensures status == partial.status.GetOr(old(status))
      ensures kind == partial.kind.GetOr(old(kind))
      ensures q == partial.q.GetOr(old(q))
      ensures sent == QueryFor(status, kind, q)
    {
      status := partial.status.GetOr(status);
      kind := partial.kind.GetOr(kind);
      q := partial.q.GetOr(q);
      sent := QueryFor(status, kind, q);
    }

    /** Reset: back to `all`, `all` and an empty search, sending no filter at all. */
    method Reset() returns (sent: Query)
      modifies this`status, this`kind, this`q
      ensures status == "all" && kind == "all" && q == ""
      ensures sent == Query(None, None, None)
    {
      status, kind, q := "all", "all", "";
      sent := ApplyFilters(Partial(Some("all"), Some("all"), Some("")));
    }
  }

  /** A query after reset filters nothing out. */
  lemma ResetQueryKeepsEverything(v: Invoice)
    ensures InvoiceController.MatchesFilters(v, None, None, None)
  {
  }

  /** A chosen status is sent as itself and the controller keeps exactly the invoices with it. */
  lemma ChosenStatusSelects(v: Invoice, st: SaleStatus, kind: string, q: string)
    ensures var sent := QueryFor(StatusKey(st), kind, q);
      sent.status == Some(StatusKey(st))
      && (InvoiceController.MatchesFilters(v, sent.status, None, None) <==> v.status == st)
  {
    assert StatusKey(st) != "all";
    match st
    case Pending =>
    case Paid =>
    case Canceled =>
  }
}
