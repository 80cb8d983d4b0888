/** The Tracking page's client-side helpers: the carrier chips, the status
    and carrier filter over the fetched list, and the status lookups. The
    page receives each status as the enum's name, e.g. "IN_TRANSIT". */
module Tracking {
  import opened JsArray
  import opened Records

  /** The status buttons: `'all'`, `'active'` and `'inactive'`. */
  datatype StatusFilter = All | Active | Inactive

  /** The statuses as `GET_SHIPMENTS` delivers them, in store order. */
  function StatusText(s: Shipment): string
  {
    StatusName(s.status)
  }

  /** `shipments.map(s => s.carrier).filter(Boolean)`. */
  function NonEmptyCarriers(shipments: seq<Shipment>): (r: seq<string>)
    ensures |r| <= |shipments|
  {
    Filter(seq(|shipments|, i requires 0 <= i < |shipments| => shipments[i].carrier), (c: string) => c != "")
  }

  /** `carriers`: the distinct carrier names of the list. */
  function Carriers(shipments: seq<Shipment>): seq<string>
  {
    Distinct(NonEmptyCarriers(shipments))
  }

  /** A name is among the non-empty carriers iff it is not empty and some
      record of the list has it. */
  lemma NonEmptyCarriersMembers(shipments: seq<Shipment>)
    ensures forall x :: x in NonEmptyCarriers(shipments) <==>
                          x != "" && exists k :: 0 <= k < |shipments| && shipments[k].carrier == x
  {
    var names := seq(|shipments|, i requires 0 <= i < |shipments| => shipments[i].carrier);
    var f := NonEmptyCarriers(shipments);
    FilterMembers(names, (c: string) => c != "");
    forall x ensures x in f <==> x != "" && exists k :: 0 <= k < |shipments| && shipments[k].carrier == x {
      if x in f {
        var m :| 0 <= m < |f| && f[m] == x;
        var k :| 0 <= k < |names| && names[k] == x;
        assert shipments[k].carrier == x;
      }
      if x != "" && exists k :: 0 <= k < |shipments| && shipments[k].carrier == x {
        var k :| 0 <= k < |shipments| && shipments[k].carrier == x;
        assert names[k] == x;
      }
    }
  }

  /** Each non-empty carrier of the list appears once, nothing else appears,
      and the names come in the order the list first mentions them. */
  lemma CarriersMeaning(shipments: seq<Shipment>)
    ensures var r := Carriers(shipments);
      && NoDuplicates(r)
      && (forall i :: 0 <= i < |r| ==>
            (r[i] != "" && exists k :: 0 <= k < |shipments| && shipments[k].carrier == r[i]))
      && (forall k :: 0 <= k < |shipments| && shipments[k].carrier != "" ==> shipments[k].carrier in r)
      && (forall i, j :: 0 <= i < j < |r| ==>
            IndexOfValue(NonEmptyCarriers(shipments), r[i]) < IndexOfValue(NonEmptyCarriers(shipments), r[j]))
  {
    var f := NonEmptyCarriers(shipments);
    NonEmptyCarriersMembers(shipments);
    DistinctMeaning(f);
    var r := Carriers(shipments);
    forall i | 0 <= i < |r|
      ensures r[i] != "" && exists k :: 0 <= k < |shipments| && shipments[k].carrier == r[i]
    {
      assert r[i] in f;
    }
    forall k | 0 <= k < |shipments| && shipments[k].carrier != "" ensures shipments[k].carrier in r {
      assert shipments[k].carrier in f;
    }
  }

  /** `statusMatch`: the lists it compares against are lower-case. */
  predicate StatusMatch(status: string, filter: StatusFilter)
  {
    || filter == All
    || (filter == Active && status in ["pending", "in_transit"])
    || (filter == Inactive && status in ["delivered", "cancelled"])
  }

  /** `carrierMatch`: no chip selected, or the carrier is one of them. */
  predicate CarrierMatch(carrier: string, carrierFilter: seq<string>)
  {
    |carrierFilter| == 0 || carrier in carrierFilter
  }

  function Visible(statusFilter: StatusFilter, carrierFilter: seq<string>): Shipment -> bool
  {
    s => StatusMatch(StatusText(s), statusFilter) && CarrierMatch(s.carrier, carrierFilter)
  }

  /** `filteredShipments`. */
  function FilteredShipments(shipments: seq<Shipment>, statusFilter: StatusFilter, carrierFilter: seq<string>): seq<Shipment>
  {
    Filter(shipments, Visible(statusFilter, carrierFilter))
  }

  /** The visible cards are the list's records, in order, that pass both
      tests; with 'all' and no chip selected, the whole list. */
  lemma FilteredShipmentsMeaning(shipments: seq<Shipment>, statusFilter: StatusFilter, carrierFilter: seq<string>)
    ensures var r := FilteredShipments(shipments, statusFilter, carrierFilter);
      && IsSubsequence(r, shipments)
      && (forall i :: 0 <= i < |r| ==> StatusMatch(StatusText(r[i]), statusFilter) && CarrierMatch(r[i].carrier, carrierFilter))
      && (forall i :: 0 <= i < |shipments| ==>
            (StatusMatch(StatusText(shipments[i]), statusFilter) && CarrierMatch(shipments[i].carrier, carrierFilter) ==>
             shipments[i] in r))
      && (forall x :: multiset(r)[x] ==
            if StatusMatch(StatusText(x), statusFilter) && CarrierMatch(x.carrier, carrierFilter)
            then multiset(shipments)[x] else 0)
    ensures FilteredShipments(shipments, All, []) == shipments
  {
    var p := Visible(statusFilter, carrierFilter);
    FilterSubsequence(shipments, p);
    FilterMembers(shipments, p);
    forall x ensures multiset(Filter(shipments, p))[x] == if p(x) then multiset(shipments)[x] else 0 {
      FilterCount(shipments, p, x);
    }
    FilterAll(shipments, Visible(All, []));
  }

  /** A non-empty chip list admits exactly the listed carriers. */
  lemma CarrierChipsAdmit(s: Shipment, carrierFilter: seq<string>)
    requires |carrierFilter| > 0
    ensures CarrierMatch(s.carrier, carrierFilter) <==> s.carrier in carrierFilter
  {
  }

  /** 'active' admits exactly "pending" and "in_transit", 'inactive' exactly
      "delivered" and "cancelled"; "delayed" is in neither. */
  lemma StatusGroups(status: string)
    ensures StatusMatch(status, Active) <==> status == "pending" || status == "in_transit"
    ensures StatusMatch(status, Inactive) <==> status == "delivered" || status == "cancelled"
    ensures !StatusMatch("delayed", Active) && !StatusMatch("delayed", Inactive)
  {
  }

  /** The server sends upper-case names, so 'active' and 'inactive' hide
      every record the API can return. */
  lemma ServerStatusesNeverGrouped(shipments: seq<Shipment>, carrierFilter: seq<string>)
    ensures FilteredShipments(shipments, Active, carrierFilter) == []
    ensures FilteredShipments(shipments, Inactive, carrierFilter) == []
  {
    FilterNone(shipments, Visible(Active, carrierFilter));
    FilterNone(shipments, Visible(Inactive, carrierFilter));
  }

  /** `toggleCarrierFilter(carrier)` applied to the previous chip list. */
  function ToggleCarrier(prev: seq<string>, carrier: string): (r: seq<string>)
  {
    if carrier in prev then Filter(prev, (c: string) => c != carrier) else prev + [carrier]
  }

  /** A selected carrier is removed with every copy of it and the others keep
      their order; an unselected one is appended at the end. As sets, the
      toggle is the symmetric difference with `{carrier}`. */
  lemma ToggleCarrierMeaning(prev: seq<string>, carrier: string)
    ensures carrier in prev ==> carrier !in ToggleCarrier(prev, carrier) &&
                                IsSubsequence(ToggleCarrier(prev, carrier), prev)
    ensures carrier !in prev ==> ToggleCarrier(prev, carrier) == prev + [carrier]
    ensures forall x :: x in ToggleCarrier(prev, carrier) <==> (x in prev) != (x == carrier)
  {
    if carrier in prev {
      var p := (c: string) => c != carrier;
      FilterMembers(prev, p);
      FilterSubsequence(prev, p);
      var r := ToggleCarrier(prev, carrier);
      forall x ensures x in r <==> (x in prev) != (x == carrier) {
        if x in r {
          var i :| 0 <= i < |r| && r[i] == x;
        }
        if x in prev && x != carrier {
          var i :| 0 <= i < |prev| && prev[i] == x;
        }
      }
    }
  }

  /** Toggling the same carrier twice restores the set of selected carriers. */
  lemma ToggleCarrierTwice(prev: seq<string>, carrier: string)
    ensures forall x :: x in ToggleCarrier(ToggleCarrier(prev, carrier), carrier) <==> x in prev
  {
    ToggleCarrierMeaning(prev, carrier);
    ToggleCarrierMeaning(ToggleCarrier(prev, carrier), carrier);
  }

  /** `calculateProgress(status)`: the percentage for a lower-case status
      name, 0 for any other text. */
  function Progress(status: string): (r: int)
    ensures r in {0, 25, 45, 60, 100}
    ensures status !in ["pending", "in_transit", "delivered", "delayed"] ==> r == 0
  {
    if status == "pending" then 25
    else if status == "in_transit" then 60
    else if status == "delivered" then 100
    else if status == "delayed" then 45
    else 0
  }

  /** `getStatusColor(status)`: the badge color, 'info' for unknown text. */
  function StatusColor(status: string): (r: string)
    ensures r in ["warning", "info", "success", "error"]
    ensures status !in ["pending", "delivered", "delayed", "cancelled"] ==> r == "info"
  {
    if status == "pending" then "warning"
    else if status == "in_transit" then "info"
    else if status == "delivered" then "success"
    else if status == "delayed" then "warning"
    else if status == "cancelled" then "error"
    else "info"
  }

  /** On the names the server sends, the progress bar shows 0% and every
      badge is 'info'. */
  lemma ServerStatusLookups(s: Shipment)
    ensures Progress(StatusText(s)) == 0
    ensures StatusColor(StatusText(s)) == "info"
  {
  }
}
