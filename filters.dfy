/** `applyFilters` of the shipments resolvers: the criteria of a
    `ShipmentFilterInput`, checked in the order the resolver checks them. */
module QueryFilter {
  import opened Wrappers
  import opened JsString
  import opened JsArray
  import opened Records

  /** GraphQL input ShipmentFilterInput. An omitted or null text criterion is
      `None`; `flagged` keeps the difference between omitted and null, since
      the resolver tests it with `!== undefined`. */
  datatype ShipmentFilter = ShipmentFilter(
    status: Option<Status>,
    carrier: Option<string>,
    origin: Option<string>,
    destination: Option<string>,
    customerName: Option<string>,
    flagged: Nullable<bool>,
    searchTerm: Option<string>)

  /** A JavaScript-truthy string criterion: present and not empty. */
  predicate Given(o: Option<string>)
  {
    o.Some? && o.value != ""
  }

  /** `hay.toLowerCase().includes(needle.toLowerCase())`. */
  predicate ContainsCI(hay: string, needle: string)
  {
    Includes(ToLower(hay), ToLower(needle))
  }

  /** The searchTerm disjunction over the five searchable fields. */
  predicate MatchesSearch(s: Shipment, term: string)
  {
    || ContainsCI(s.trackingNumber, term)
    || ContainsCI(s.customerName, term)
    || ContainsCI(s.origin, term)
    || ContainsCI(s.destination, term)
    || ContainsCI(s.carrier, term)
  }

  /** The callback handed to `filter`, as an early-return chain. */
  function Passes(s: Shipment, f: ShipmentFilter): bool
  {
    if f.status.Some? && s.status != f.status.value then false
    else if Given(f.carrier) && s.carrier != f.carrier.value then false
    else if Given(f.origin) && !ContainsCI(s.origin, f.origin.value) then false
    else if Given(f.destination) && !ContainsCI(s.destination, f.destination.value) then false
    else if Given(f.customerName) && !ContainsCI(s.customerName, f.customerName.value) then false
    else if !f.flagged.Undefined? && (f.flagged.Null? || s.flagged != f.flagged.value) then false
    else if Given(f.searchTerm) then MatchesSearch(s, f.searchTerm.value)
    else true
  }

  /** The same criteria as one conjunction: every supplied criterion holds,
      the search term being one more conjunct. An explicit null `flagged`
      admits nothing, because no stored boolean is `null`. */
  predicate Admits(s: Shipment, f: ShipmentFilter)
  {
    && (f.status.Some? ==> s.status == f.status.value)
    && (Given(f.carrier) ==> s.carrier == f.carrier.value)
    && (Given(f.origin) ==> ContainsCI(s.origin, f.origin.value))
    && (Given(f.destination) ==> ContainsCI(s.destination, f.destination.value))
    && (Given(f.customerName) ==> ContainsCI(s.customerName, f.customerName.value))
    && !f.flagged.Null?
    && (f.flagged.Defined? ==> s.flagged == f.flagged.value)
    && (Given(f.searchTerm) ==> MatchesSearch(s, f.searchTerm.value))
  }

  lemma PassesIff(s: Shipment, f: ShipmentFilter)
    ensures Passes(s, f) <==> Admits(s, f)
  {
  }

  /** The filter callback as a function value. */
  function Criterion(f: ShipmentFilter): Shipment -> bool
  {
    s => Passes(s, f)
  }

  /** `applyFilters(list, filter)`. */
  function ApplyFilters(xs: seq<Shipment>, filter: Option<ShipmentFilter>): (r: seq<Shipment>)
    ensures filter.None? ==> r == xs
    ensures |r| <= |xs|
  {
    if filter.None? then xs else Filter(xs, Criterion(filter.value))
  }

  /** The result keeps the input's order; with a filter it holds exactly the
      admitted records: each kept record is stored and admitted, and every
      admitted record is kept with all of its copies. */
  lemma ApplyFiltersMeaning(xs: seq<Shipment>, filter: Option<ShipmentFilter>)
    ensures IsSubsequence(ApplyFilters(xs, filter), xs)
    ensures var r := ApplyFilters(xs, filter);
      filter.Some? ==>
        && (forall i :: 0 <= i < |r| ==> r[i] in xs && Admits(r[i], filter.value))
        && (forall i :: 0 <= i < |xs| && Admits(xs[i], filter.value) ==> xs[i] in r)
        && (forall x :: multiset(r)[x] == if Admits(x, filter.value) then multiset(xs)[x] else 0)
  {
    if filter.None? {
      SubsequenceRefl(xs);
    } else {
      var p := Criterion(filter.value);
      var r := Filter(xs, p);
      FilterSubsequence(xs, p);
      FilterMembers(xs, p);
      forall s ensures p(s) == Admits(s, filter.value) {
        PassesIff(s, filter.value);
      }
      forall x ensures multiset(r)[x] == if Admits(x, filter.value) then multiset(xs)[x] else 0 {
        FilterCount(xs, p, x);
      }
    }
  }

  /** Filtering the filtered list again with the same filter changes nothing. */
  lemma ApplyFiltersIdempotent(xs: seq<Shipment>, filter: Option<ShipmentFilter>)
    ensures ApplyFilters(ApplyFilters(xs, filter), filter) == ApplyFilters(xs, filter)
  {
    if filter.Some? {
      FilterIdempotent(xs, Criterion(filter.value));
    }
  }

  /** A filter with no criteria supplied keeps every record. */
  lemma EmptyFilterKeepsAll(xs: seq<Shipment>)
    ensures ApplyFilters(xs, Some(ShipmentFilter(None, None, None, None, None, Undefined, None))) == xs
  {
    FilterAll(xs, Criterion(ShipmentFilter(None, None, None, None, None, Undefined, None)));
  }

  /** Empty strings are ignored: they filter exactly like omitted criteria. */
  lemma EmptyStringsIgnored(s: Shipment, f: ShipmentFilter)
    ensures Passes(s, f.(carrier := Some(""), origin := Some(""), destination := Some(""),
                         customerName := Some(""), searchTerm := Some("")))
        == Passes(s, f.(carrier := None, origin := None, destination := None,
                        customerName := None, searchTerm := None))
  {
  }

  /** The search term narrows the result further: a record the other criteria
      reject stays rejected whatever the term. */
  lemma SearchTermIsConjunct(s: Shipment, f: ShipmentFilter)
    requires !Passes(s, f.(searchTerm := None))
    ensures !Passes(s, f)
  {
  }

  /** An explicit null `flagged` criterion admits no record at all. */
  lemma NullFlaggedAdmitsNothing(xs: seq<Shipment>, f: ShipmentFilter)
    requires f.flagged.Null?
    ensures ApplyFilters(xs, Some(f)) == []
  {
    FilterNone(xs, Criterion(f));
  }
}
