/** The in-memory record store: the module-level `users` and `shipments`
    arrays, their lookups, the mutations that change them in place, and the
    start-up seeding. */
module Data {
  import opened Wrappers
  import opened JsString
  import opened JsArray
  import opened Records

  const Carriers: seq<string> := ["FedEx", "UPS", "DHL", "USPS", "XPO Logistics"]
  const Statuses: seq<Status> := [Pending, InTransit, Delivered, Delayed, Cancelled]
  const Cities: seq<string> := [
    "New York, NY", "Los Angeles, CA", "Chicago, IL", "Houston, TX", "Phoenix, AZ",
    "Philadelphia, PA", "San Antonio, TX", "San Diego, CA", "Dallas, TX", "San Jose, CA",
    "Austin, TX", "Jacksonville, FL", "Miami, FL", "Seattle, WA", "Denver, CO"]
  const FirstNames: seq<string> :=
    ["John", "Jane", "Michael", "Sarah", "David", "Emily", "Robert", "Lisa", "James", "Mary"]
  const LastNames: seq<string> :=
    ["Smith", "Johnson", "Williams", "Brown", "Jones", "Garcia", "Miller", "Davis", "Rodriguez", "Martinez"]

  const SeedCount: nat := 50
  const DayMs: int := 86_400_000  // one day in milliseconds
  const FragileNote: string := "Handle with care - Fragile items"

  // ---------------------------------------------------------------- lookups

  /** `findUserByUsername`: the first user with that name. */
  function FindUserByUsername(users: seq<User>, username: string): (r: Option<User>)
    ensures r.None? <==> forall j :: 0 <= j < |users| ==> users[j].username != username
    ensures r.Some? ==> exists k :: 0 <= k < |users| && users[k] == r.value &&
                                    r.value.username == username &&
                                    forall j :: 0 <= j < k ==> users[j].username != username
  {
    Find(users, (u: User) => u.username == username)
  }

  /** `findUserById`: the first user with that id. */
  function FindUserById(users: seq<User>, id: string): (r: Option<User>)
    ensures r.None? <==> forall j :: 0 <= j < |users| ==> users[j].id != id
    ensures r.Some? ==> exists k :: 0 <= k < |users| && users[k] == r.value && r.value.id == id &&
                                    forall j :: 0 <= j < k ==> users[j].id != id
  {
    Find(users, (u: User) => u.id == id)
  }

  /** `shipments.findIndex(s => s.id === id)`. */
  function IndexOfShipment(shipments: seq<Shipment>, id: string): (r: int)
    ensures -1 <= r < |shipments|
    ensures r >= 0 ==> shipments[r].id == id
    ensures forall j :: 0 <= j < |shipments| && (r == -1 || j < r) ==> shipments[j].id != id
  {
    FindIndex(shipments, (s: Shipment) => s.id == id)
  }

  /** `findShipmentById`: the first shipment with that id. */
  function FindShipmentById(shipments: seq<Shipment>, id: string): (r: Option<Shipment>)
    ensures r.None? <==> IndexOfShipment(shipments, id) == -1
    ensures r.Some? ==> r.value == shipments[IndexOfShipment(shipments, id)] && r.value.id == id
  {
    var k := IndexOfShipment(shipments, id);
    if k < 0 then None else Some(shipments[k])
  }

  /** Every id occurs at most once. The store does NOT keep this invariant. */
  ghost predicate UniqueIds(shipments: seq<Shipment>)
  {
    forall i, j :: 0 <= i < j < |shipments| ==> shipments[i].id != shipments[j].id
  }

  lemma IndexOfUniqueId(shipments: seq<Shipment>, k: nat)
    requires UniqueIds(shipments) && k < |shipments|
    ensures IndexOfShipment(shipments, shipments[k].id) == k
  {
  }

  /** Records with pairwise distinct ids are pairwise distinct values. */
  lemma {:induction false} UniqueIdsSingleCopies(xs: seq<Shipment>, x: Shipment)
    requires UniqueIds(xs)
    ensures multiset(xs)[x] <= 1
    decreases |xs|
  {
    if xs != [] {
      var t := xs[1..];
      assert UniqueIds(t) by {
        forall i, j | 0 <= i < j < |t| ensures t[i].id != t[j].id {
          assert t[i] == xs[i + 1] && t[j] == xs[j + 1];
        }
      }
      UniqueIdsSingleCopies(t, x);
      assert xs == [xs[0]] + t;
      if xs[0] == x {
        forall k | 0 <= k < |t| ensures t[k] != x {
          assert t[k] == xs[k + 1];
        }
        assert x !in t;
      }
    }
  }

  /** Fewer copies of records with distinct ids still have distinct ids. */
  lemma SubMultisetUniqueIds(ys: seq<Shipment>, xs: seq<Shipment>)
    requires multiset(ys) <= multiset(xs) && UniqueIds(xs)
    ensures UniqueIds(ys)
  {
    forall i, j | 0 <= i < j < |ys| ensures ys[i].id != ys[j].id {
      if ys[i] == ys[j] {
        TwoCopies(ys, i, j);
        UniqueIdsSingleCopies(xs, ys[i]);
      } else {
        assert ys[i] in multiset(xs) && ys[j] in multiset(xs);
        var a :| 0 <= a < |xs| && xs[a] == ys[i];
        var b :| 0 <= b < |xs| && xs[b] == ys[j];
        assert a != b;
      }
    }
  }

  // ---------------------------------------------------------- new records

  /** The user `createUser` builds when `count` users exist. */
  function NewUser(count: nat, data: UserData, hash: string -> string): User
  {
    User(NatToString(count + 1), data.username, hash(data.password), data.email, data.role)
  }

  /** The shipment `createShipment` builds when `count` shipments exist. */
  function NewShipment(count: nat, input: ShipmentInput, userId: string, now: int): Shipment
  {
    Shipment(NatToString(count + 1), input.trackingNumber, input.origin, input.destination,
             input.status, input.carrier, input.weight, input.dimensions,
             input.estimatedDelivery, input.actualDelivery, input.cost, input.customerName,
             input.customerEmail, input.notes, now, now, userId, input.flagged.GetOr(false))
  }

  // ------------------------------------------------------------- seeding

  /** The random picks `initializeShipments` makes for one record; each
      `Math.random()` becomes an arbitrary value in the range it produces. */
  datatype SeedDraw = SeedDraw(
    firstName: nat,
    lastName: nat,
    status: nat,
    carrier: nat,
    origin: nat,
    destinations: seq<nat>,   // the first destination pick and every retry after it
    weight: nat,              // hundredths above 10.00
    length: nat,
    width: nat,
    height: nat,
    deliveryDays: nat,        // Math.floor(Math.random() * 14)
    actualDays: nat,          // Math.floor(Math.random() * 30)
    cost: nat,                // hundredths above 50.00
    fragile: bool,            // Math.random() > 0.7
    createdDays: nat,
    flagged: bool)            // Math.random() > 0.9

  ghost predicate ValidDraw(d: SeedDraw)
  {
    && d.firstName < |FirstNames| && d.lastName < |LastNames|
    && d.status < |Statuses| && d.carrier < |Carriers| && d.origin < |Cities|
    && (forall j :: 0 <= j < |d.destinations| ==> d.destinations[j] < |Cities|)
    && (exists j :: 0 <= j < |d.destinations| && Cities[d.destinations[j]] != Cities[d.origin])
    && d.weight <= 50000 && d.cost <= 50000
    && d.length < 30 && d.width < 30 && d.height < 30
    && d.deliveryDays < 14 && d.actualDays < 30 && d.createdDays < 30
  }

  /** The destination the retry loop settles on: the first pick that is not
      the origin city; `cities` is the table the picks index. */
  function SettledDestination(cities: seq<string>, origin: string, picks: seq<nat>): (r: string)
    requires forall j :: 0 <= j < |picks| ==> picks[j] < |cities|
    requires exists j :: 0 <= j < |picks| && cities[picks[j]] != origin
    ensures r != origin
    ensures exists k :: 0 <= k < |picks| && r == cities[picks[k]] &&
                        forall j :: 0 <= j < k ==> cities[picks[j]] == origin
  {
    if cities[picks[0]] != origin then cities[picks[0]]
    else
      var tail := picks[1..];
      assert forall j :: 0 <= j < |tail| ==> tail[j] == picks[j + 1];
      assert exists j :: 0 <= j < |tail| && cities[tail[j]] != origin by {
        var j :| 0 <= j < |picks| && cities[picks[j]] != origin;
        assert j > 0 && cities[tail[j - 1]] != origin;
      }
      var r := SettledDestination(cities, origin, tail);
      ghost var k :| 0 <= k < |tail| && r == cities[tail[k]] &&
                     forall j :: 0 <= j < k ==> cities[tail[j]] == origin;
      assert r == cities[picks[k + 1]] && forall j :: 0 <= j < k + 1 ==> cities[picks[j]] == origin;
      r
  }

  /** The `while (destination === origin)` retry loop. */
  method PickDestination(cities: seq<string>, origin: string, picks: seq<nat>) returns (destination: string)
    requires forall j :: 0 <= j < |picks| ==> picks[j] < |cities|
    requires exists j :: 0 <= j < |picks| && cities[picks[j]] != origin
    ensures destination == SettledDestination(cities, origin, picks)
  {
    var j := 0;
    destination := cities[picks[0]];
    while destination == origin
      invariant 0 <= j < |picks| && destination == cities[picks[j]]
      invariant exists k :: j <= k < |picks| && cities[picks[k]] != origin
      invariant SettledDestination(cities, origin, picks) == SettledDestination(cities, origin, picks[j..])
      decreases |picks| - j
    {
      assert picks[j..][1..] == picks[j + 1..];
      j := j + 1;
      destination := cities[picks[j]];
    }
    assert picks[j..][0] == picks[j];
  }

  /** One pass of the seeding loop's body: the picks, the retry loop, the record. */
  method SeedOne(i: nat, d: SeedDraw, now: int) returns (s: Shipment)
    requires ValidDraw(d)
    ensures s == SeedShipment(i, d, now)
  {
    var destination := PickDestination(Cities, Cities[d.origin], d.destinations);
    s := SeedRecord(i, d, destination, now);
  }

  function TrackingNumberFor(i: nat): string
  {
    "TRK" + PadStart(NatToString(i), 8, '0')
  }

  function DimensionsFor(d: SeedDraw): string
  {
    NatToString(d.length + 10) + "x" + NatToString(d.width + 10) + "x" + NatToString(d.height + 10)
  }

  /** Record number `i` of the seed data, given its picks and the destination
      the retry loop settled on. */
  function SeedRecord(i: nat, d: SeedDraw, destination: string, now: int): Shipment
    requires ValidDraw(d)
  {
    var first, last := FirstNames[d.firstName], LastNames[d.lastName];
    var status := Statuses[d.status];
    Shipment(
      NatToString(i), TrackingNumberFor(i), Cities[d.origin], destination, status,
      Carriers[d.carrier], 1000 + d.weight, DimensionsFor(d), now + (d.deliveryDays + 1) * DayMs,
      if status == Delivered then Some(now - d.actualDays * DayMs) else None,
      5000 + d.cost, first + " " + last,
      ToLower(first) + "." + ToLower(last) + "@example.com",
      if d.fragile then Some(FragileNote) else None,
      now - d.createdDays * DayMs, now, "admin", d.flagged)
  }

  function SeedShipment(i: nat, d: SeedDraw, now: int): Shipment
    requires ValidDraw(d)
  {
    SeedRecord(i, d, SettledDestination(Cities, Cities[d.origin], d.destinations), now)
  }

  /** The tracking numbers of the seed data: "TRK" and eight digits. */
  lemma SeedTrackingNumber(i: nat)
    requires 1 <= i <= SeedCount
    ensures TrackingNumberFor(i) == "TRK" + PadStart(NatToString(i), 8, '0')
    ensures |TrackingNumberFor(i)| == 11
  {
    assert |NatToString(i)| <= 2 by {
      if i >= 10 {
        assert i / 10 < 10;
      }
    }
  }

  /** The first `n` seeded records, record `k` built from draw `k`. */
  function SeedPrefix(draws: seq<SeedDraw>, n: nat, now: int): (r: seq<Shipment>)
    requires n <= |draws| && forall k :: 0 <= k < |draws| ==> ValidDraw(draws[k])
    ensures |r| == n
  {
    seq(n, k requires 0 <= k < n => SeedShipment(k + 1, draws[k], now))
  }

  /** One more pass of the seeding loop appends the next record. */
  lemma SeedPrefixSnoc(draws: seq<SeedDraw>, n: nat, now: int)
    requires n < |draws| && forall k :: 0 <= k < |draws| ==> ValidDraw(draws[k])
    ensures SeedPrefix(draws, n + 1, now) == SeedPrefix(draws, n, now) + [SeedShipment(n + 1, draws[n], now)]
  {
    SnocExtensional(SeedPrefix(draws, n + 1, now), SeedPrefix(draws, n, now), SeedShipment(n + 1, draws[n], now));
  }

  /** The deterministic facts about a seeded record. */
  lemma SeedShipmentFacts(i: nat, d: SeedDraw, now: int)
    requires ValidDraw(d) && 1 <= i <= SeedCount
    ensures var s := SeedShipment(i, d, now);
      && s.id == NatToString(i)
      && s.trackingNumber == TrackingNumberFor(i)
      && s.destination != s.origin
      && s.createdBy == "admin" && s.updatedAt == now
      && (s.actualDelivery.Some? <==> s.status == Delivered)
      && 1000 <= s.weight <= 51000 && 5000 <= s.cost <= 55000
      && s.estimatedDelivery > now
  {
    var dest := SettledDestination(Cities, Cities[d.origin], d.destinations);
    var s := SeedRecord(i, d, dest, now);
    assert s.origin == Cities[d.origin] && s.destination == dest;
    assert s.actualDelivery.Some? <==> s.status == Delivered;
  }

  /** The seeded records carry pairwise distinct ids "1".."n" (the store
      seeds n = 50 of them). */
  lemma SeedIdsUnique(draws: seq<SeedDraw>, n: nat, now: int)
    requires n <= |draws| && forall k :: 0 <= k < |draws| ==> ValidDraw(draws[k])
    ensures UniqueIds(SeedPrefix(draws, n, now))
  {
    var xs := SeedPrefix(draws, n, now);
    SeedPrefixIds(draws, n, now);
    forall i, j | 0 <= i < j < |xs| ensures xs[i].id != xs[j].id {
      NatToStringInjective(i + 1, j + 1);
    }
  }

  lemma SeedPrefixIds(draws: seq<SeedDraw>, n: nat, now: int)
    requires n <= |draws| && forall k :: 0 <= k < |draws| ==> ValidDraw(draws[k])
    ensures forall k :: 0 <= k < n ==> SeedPrefix(draws, n, now)[k].id == NatToString(k + 1)
  {
    forall k | 0 <= k < n ensures SeedPrefix(draws, n, now)[k].id == NatToString(k + 1) {
      SeedId(k + 1, draws[k], now);
    }
  }

  lemma SeedId(i: nat, d: SeedDraw, now: int)
    requires ValidDraw(d)
    ensures SeedShipment(i, d, now).id == NatToString(i)
  {
  }

  // ---------------------------------------------------------------- store

  /** The backend's two module-level arrays. */
  class Store {
    var users: seq<User>
    var shipments: seq<Shipment>

    constructor ()
      ensures users == [] && shipments == []
    {
      users := [];
      shipments := [];
    }

    /** `initializeUsers`: the two demo accounts, only into an empty array. */
    method InitializeUsers(hash: string -> string)
      modifies this
      ensures old(users) != [] ==> users == old(users)
      ensures old(users) == [] ==> users == [
        User("1", "admin", hash("admin123"), "admin@ultraship.com", Admin),
        User("2", "employee", hash("employee123"), "employee@ultraship.com", Employee)]
      ensures shipments == old(shipments)
    {
      if |users| == 0 {
        users := users + [
          User("1", "admin", hash("admin123"), "admin@ultraship.com", Admin),
          User("2", "employee", hash("employee123"), "employee@ultraship.com", Employee)];
      }
    }

    /** `initializeShipments`: fifty records into an empty array, or nothing. */
    method InitializeShipments(draws: seq<SeedDraw>, now: int)
      requires |draws| == SeedCount && forall k :: 0 <= k < |draws| ==> ValidDraw(draws[k])
      modifies this
      ensures old(shipments) != [] ==> shipments == old(shipments)
      ensures old(shipments) == [] ==> shipments == SeedPrefix(draws, SeedCount, now)
      ensures users == old(users)
    {
      if |shipments| == 0 {
        var i := 1;
        while i <= SeedCount
          invariant 1 <= i <= SeedCount + 1
          invariant shipments == SeedPrefix(draws, i - 1, now)
          invariant users == old(users)
        {
          var s := SeedOne(i, draws[i - 1], now);
          SeedPrefixSnoc(draws, i - 1, now);
          shipments := shipments + [s];
          i := i + 1;
        }
      }
    }

    /** `createUser`: appends the user with the next id and the hashed
      password; it does not look for an existing username. */
    method CreateUser(data: UserData, hash: string -> string) returns (u: User)
      modifies this
      ensures u == NewUser(|old(users)|, data, hash)
      ensures users == old(users) + [u]
      ensures shipments == old(shipments)
    {
      u := NewUser(|users|, data, hash);
      users := users + [u];
    }

    /** `createShipment`: appends one record with the next id. */
    method CreateShipment(input: ShipmentInput, userId: string, now: int) returns (s: Shipment)
      modifies this
      ensures s == NewShipment(|old(shipments)|, input, userId, now)
      ensures shipments == old(shipments) + [s]
      ensures users == old(users)
    {
      s := NewShipment(|shipments|, input, userId, now);
      shipments := shipments + [s];
    }

    /** `updateShipment`: merges the patch into the first record with the id,
      in place, or returns null. */
    method UpdateShipment(id: string, data: Patch, now: int) returns (r: Option<Shipment>)
      modifies this
      ensures var k := IndexOfShipment(old(shipments), id);
        && (k == -1 ==> r.None? && shipments == old(shipments))
        && (k >= 0 ==> r == Some(ApplyPatch(old(shipments)[k], data, now)) &&
                       shipments == old(shipments)[k := r.value])
      ensures users == old(users)
    {
      var index := IndexOfShipment(shipments, id);
      if index == -1 {
        return None;
      }
      shipments := shipments[index := ApplyPatch(shipments[index], data, now)];
      r := Some(shipments[index]);
    }

    /** `deleteShipment`: removes the first record with the id. */
    method DeleteShipment(id: string) returns (removed: bool)
      modifies this
      ensures var k := IndexOfShipment(old(shipments), id);
        && (removed <==> k >= 0)
        && (k == -1 ==> shipments == old(shipments))
        && (k >= 0 ==> shipments == RemoveAt(old(shipments), k))
      ensures users == old(users)
    {
      var index := IndexOfShipment(shipments, id);
      if index == -1 {
        return false;
      }
      shipments := shipments[..index] + shipments[index + 1..];
      removed := true;
    }
  }

  // ------------------------------------------------ what the store promises

  /** Appending with `createShipment` keeps every earlier record. */
  lemma CreateKeepsEarlier(xs: seq<Shipment>, input: ShipmentInput, userId: string, now: int)
    ensures var ys := xs + [NewShipment(|xs|, input, userId, now)];
      && |ys| == |xs| + 1 && ys[..|xs|] == xs
      && ys[|xs|].id == NatToString(|xs| + 1)
      && ys[|xs|].createdAt == now && ys[|xs|].updatedAt == now
      && ys[|xs|].createdBy == userId
      && ys[|xs|].flagged == (input.flagged == Some(true))
  {
    assert (xs + [NewShipment(|xs|, input, userId, now)])[..|xs|] == xs;
  }

  /** Ids are `String(length + 1)`, so they are not stable: on a store seeded
      with ids "1".."n", deleting any record but the last and creating one
      gives the new record the id of the old last record, and a lookup by
      that id then finds the old record, never the new one. */
  lemma IdReuseAfterDelete(xs: seq<Shipment>, k: nat, input: ShipmentInput, userId: string, now: int)
    requires |xs| >= 2 && k < |xs| - 1
    requires forall i :: 0 <= i < |xs| ==> xs[i].id == NatToString(i + 1)
    ensures var ys := RemoveAt(xs, k) + [NewShipment(|xs| - 1, input, userId, now)];
      && ys[|ys| - 1].id == ys[|ys| - 2].id == NatToString(|xs|)
      && !UniqueIds(ys)
      && IndexOfShipment(ys, NatToString(|xs|)) == |ys| - 2
  {
    var ys := RemoveAt(xs, k) + [NewShipment(|xs| - 1, input, userId, now)];
    assert ys[|ys| - 2] == xs[|xs| - 1];
    forall j | 0 <= j < |ys| - 2 ensures ys[j].id != NatToString(|xs|) {
      var i := if j < k then j else j + 1;
      assert ys[j] == xs[i];
      NatToStringInjective(i + 1, |xs|);
    }
  }
}
