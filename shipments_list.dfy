/** The shipments list page: client-side paging of the fetched list, the
    column-header sort toggle, the pagination buttons, and the query
    variables built from the filter bar. */
module ShipmentsList {
  import opened Wrappers
  import opened JsArray
  import opened Records
  import opened QueryFilter
  import opened QuerySort
  import opened ShipmentFilters

  /** `const [limit] = useState(10)`. */
  const PageLimit: nat := 10

  // ---------------------------------------------------------------- paging

  /** `Math.ceil(totalCount / limit)`. */
  function TotalPages(count: nat): (r: nat)
    ensures count <= r * PageLimit
    ensures r > 0 ==> (r - 1) * PageLimit < count
    ensures r == 0 <==> count == 0
  {
    (count + PageLimit - 1) / PageLimit
  }

  /** `allShipments.slice(page * limit, page * limit + limit)`. */
  function PageOf<T>(all: seq<T>, page: nat): (r: seq<T>)
    ensures |r| <= PageLimit
    ensures r == all[Min(page * PageLimit, |all|)..Min(page * PageLimit + PageLimit, |all|)]
  {
    SliceNonNegative(all, page * PageLimit, page * PageLimit + PageLimit);
    Slice(all, page * PageLimit, page * PageLimit + PageLimit)
  }

  /** Pages `0 .. n - 1` one after the other. */
  function Pages<T>(all: seq<T>, n: nat): seq<T>
  {
    if n == 0 then [] else Pages(all, n - 1) + PageOf(all, n - 1)
  }

  /** The first `n` pages are the first `n * limit` records. */
  lemma {:induction false} PagesPrefix<T>(all: seq<T>, n: nat)
    ensures Pages(all, n) == all[..Min(n * PageLimit, |all|)]
  {
    if n > 0 {
      PagesPrefix(all, n - 1);
      var a, b := Min((n - 1) * PageLimit, |all|), Min(n * PageLimit, |all|);
      assert all[..b] == all[..a] + all[a..b];
    }
  }

  /** All pages together are exactly the fetched list: nothing is skipped or
      shown twice. */
  lemma PagesCoverAll<T>(all: seq<T>)
    ensures Pages(all, TotalPages(|all|)) == all
  {
    PagesPrefix(all, TotalPages(|all|));
  }

  /** Every page before `totalPages` has records, and every later one is empty. */
  lemma PageExists<T>(all: seq<T>, page: nat)
    ensures page < TotalPages(|all|) <==> |PageOf(all, page)| > 0
  {
  }

  // ------------------------------------------------------------- buttons

  /** The first and previous buttons: `disabled={page === 0}`. */
  predicate BackDisabled(page: nat)
  {
    page == 0
  }

  /** The next and last buttons: `disabled={page >= totalPages - 1}`. */
  predicate ForwardDisabled(page: nat, totalPages: nat)
  {
    page >= totalPages - 1
  }

  /** On a page that has records (the bar is shown only then), an enabled
      "previous" leads to a page >= 0, an enabled "next" to a page that has
      records, and "last" always leads to a page that has records. */
  lemma ButtonsStayInRange<T>(all: seq<T>, page: nat)
    requires |PageOf(all, page)| > 0
    ensures var t := TotalPages(|all|);
      && (!BackDisabled(page) ==> page - 1 >= 0)
      && (!ForwardDisabled(page, t) ==> |PageOf(all, page + 1)| > 0)
      && t > 0 && |PageOf(all, t - 1)| > 0
      && (ForwardDisabled(page, t) <==> page == t - 1)
  {
    var t := TotalPages(|all|);
    PageExists(all, page);
    PageExists(all, page + 1);
    PageExists(all, t - 1);
  }

  // ------------------------------------------------------------ column sort

  /** The `sort` state: a column name and an order. */
  datatype SortState = SortState(field: string, order: SortOrder)

  const InitialSort := SortState("createdAt", Desc)

  /** `handleSort(field)`. */
  function HandleSort(st: SortState, field: string): (r: SortState)
    ensures r.field == field
    ensures r.order == Desc <==> st.field == field && st.order == Asc
  {
    SortState(field, if st.field == field && st.order == Asc then Desc else Asc)
  }

  /** A new column starts ascending, and further clicks on the same column
      alternate the order. */
  lemma HandleSortAlternates(st: SortState, field: string)
    ensures st.field != field ==> HandleSort(st, field).order == Asc
    ensures HandleSort(HandleSort(st, field), field).order != HandleSort(st, field).order
    ensures HandleSort(HandleSort(HandleSort(st, field), field), field) == HandleSort(st, field)
  {
  }

  /** The `ShipmentSortField` a column name denotes; the server refuses
      every other name. */
  function SchemaSortField(name: string): (r: Option<SortField>)
    ensures r.None? <==>
      name !in ["trackingNumber", "origin", "destination", "status", "estimatedDelivery", "cost", "createdAt"]
  {
    if name == "trackingNumber" then Some(ByTrackingNumber)
    else if name == "origin" then Some(ByOrigin)
    else if name == "destination" then Some(ByDestination)
    else if name == "status" then Some(ByStatus)
    else if name == "estimatedDelivery" then Some(ByEstimatedDelivery)
    else if name == "cost" then Some(ByCost)
    else if name == "createdAt" then Some(ByCreatedAt)
    else None
  }

  /** The sortable headers are trackingNumber, origin, destination, status,
      carrier, estimatedDelivery and cost: all but carrier name a schema
      field, so a click on the carrier header asks for a sort the server
      rejects. The initial sort is newest-created first. */
  lemma SortableColumns()
    ensures SchemaSortField("carrier").None?
    ensures forall name :: (name in ["trackingNumber", "origin", "destination", "status", "estimatedDelivery", "cost"]) ==>
                             SchemaSortField(name).Some?
    ensures SchemaSortField(InitialSort.field) == Some(ByCreatedAt)
  {
  }

  // -------------------------------------------------------- query variables

  /** The `filter` variable the page sends; `None` is `undefined`. */
  datatype FilterVariables = FilterVariables(
    searchTerm: Option<string>,
    status: Option<string>,
    carrier: Option<string>,
    flagged: Option<bool>)

  /** `text || undefined`. */
  function OrUndefined(text: string): (r: Option<string>)
    ensures r.None? <==> text == ""
    ensures r.Some? ==> r.value == text
  {
    if text == "" then None else Some(text)
  }

  /** The variables built from the filter bar's state. */
  function Variables(st: FilterState): FilterVariables
  {
    FilterVariables(
      OrUndefined(st.searchTerm),
      OrUndefined(st.status),
      OrUndefined(st.carrier),
      if st.flagged != "" then Some(st.flagged == "true") else None)
  }

  /** '' is sent as undefined in every field; 'true' sends `flagged: true`,
      'false' sends `flagged: false`; and nothing at all is sent exactly when
      no filter is active. */
  lemma VariablesMeaning(st: FilterState)
    ensures var v := Variables(st);
      && (v.searchTerm.None? <==> st.searchTerm == "")
      && (v.status.None? <==> st.status == "")
      && (v.carrier.None? <==> st.carrier == "")
      && (st.flagged == "" ==> v.flagged.None?)
      && (st.flagged == "true" ==> v.flagged == Some(true))
      && (st.flagged == "false" ==> v.flagged == Some(false))
      && (v == FilterVariables(None, None, None, None) <==> !HasActiveFilters(st))
  {
  }

  /** The `ShipmentFilterInput` the server reads from the variables, or
      `None` when the status text is not an enum name (the request is then
      refused). */
  function ServerFilter(v: FilterVariables): Option<ShipmentFilter>
  {
    var status := if v.status.Some? then ParseStatus(v.status.value) else None;
    if v.status.Some? && status.None? then None
    else
      Some(ShipmentFilter(status, v.carrier, None, None, None,
                          if v.flagged.Some? then Defined(v.flagged.value) else Undefined,
                          v.searchTerm))
  }

  /** Every choice the status menu offers is accepted, and after "Clear" the
      server keeps every record. */
  lemma ServerFilterFromBar(st: FilterState, all: seq<Shipment>)
    requires st.status == "" || exists s :: StatusName(s) == st.status
    ensures ServerFilter(Variables(st)).Some?
    ensures ApplyFilters(all, ServerFilter(Variables(ClearFilters()))) == all
  {
    EmptyFilterKeepsAll(all);
  }
}
