/** The filter bar of the shipments page: its state object, the single-field
    update, clearing, and the "has active filters" test. */
module ShipmentFilters {

  /** The `filters` state; every field holds the text of its input, '' when
      unset. */
  datatype FilterState = FilterState(searchTerm: string, status: string, carrier: string, flagged: string)

  /** The four keys `handleFilterChange` is called with. */
  datatype FilterKey = SearchTermKey | StatusKey | CarrierKey | FlaggedKey

  /** `filters[key]`. */
  function Value(st: FilterState, key: FilterKey): string
  {
    match key
    case SearchTermKey => st.searchTerm
    case StatusKey => st.status
    case CarrierKey => st.carrier
    case FlaggedKey => st.flagged
  }

  /** `handleFilterChange(key, v)`: `{ ...filters, [key]: v }`. */
  function HandleFilterChange(st: FilterState, key: FilterKey, v: string): (r: FilterState)
    ensures Value(r, key) == v
    ensures forall k :: k != key ==> Value(r, k) == Value(st, k)
  {
    match key
    case SearchTermKey => st.(searchTerm := v)
    case StatusKey => st.(status := v)
    case CarrierKey => st.(carrier := v)
    case FlaggedKey => st.(flagged := v)
  }

  /** `clearFilters()`: every field back to ''. */
  function ClearFilters(): (r: FilterState)
    ensures forall k :: Value(r, k) == ""
  {
    FilterState("", "", "", "")
  }

  /** `hasActiveFilters`: the `||` of the four texts, truthy when one is
      not empty. */
  predicate HasActiveFilters(st: FilterState)
  {
    st.searchTerm != "" || st.status != "" || st.carrier != "" || st.flagged != ""
  }

  /** Some filter is active iff some field is set. */
  lemma HasActiveFiltersIff(st: FilterState)
    ensures HasActiveFilters(st) <==> exists k :: Value(st, k) != ""
  {
    if HasActiveFilters(st) {
      if st.searchTerm != "" {
        assert Value(st, SearchTermKey) != "";
      } else if st.status != "" {
        assert Value(st, StatusKey) != "";
      } else if st.carrier != "" {
        assert Value(st, CarrierKey) != "";
      } else {
        assert Value(st, FlaggedKey) != "";
      }
    }
  }

  /** Right after clearing nothing is active, and one change from there makes
      a filter active iff the new text is not empty. */
  lemma ClearThenChange(key: FilterKey, v: string)
    ensures !HasActiveFilters(ClearFilters())
    ensures HasActiveFilters(HandleFilterChange(ClearFilters(), key, v)) <==> v != ""
  {
    HasActiveFiltersIff(HandleFilterChange(ClearFilters(), key, v));
  }

  /** Setting a field to the text it already holds changes nothing, and a
      later change of the same field overrides an earlier one. */
  lemma HandleFilterChangeLaws(st: FilterState, key: FilterKey, v: string, w: string)
    ensures HandleFilterChange(st, key, Value(st, key)) == st
    ensures HandleFilterChange(HandleFilterChange(st, key, v), key, w) == HandleFilterChange(st, key, w)
  {
  }
}
