/** `applySorting` of the shipments resolvers: a stable sort of a copy by
    one of the ShipmentSortField keys, ascending or descending. */
module QuerySort {
  import opened Wrappers
  import opened JsString
  import opened JsArray
  import opened Records

  /** GraphQL enum ShipmentSortField; `weight` and `carrier` are not in it. */
  datatype SortField =
    | ByTrackingNumber | ByOrigin | ByDestination | ByStatus
    | ByEstimatedDelivery | ByCost | ByCreatedAt

  /** GraphQL enum SortOrder. */
  datatype SortOrder = Asc | Desc

  /** GraphQL input SortInput. */
  datatype Sort = Sort(field: SortField, order: SortOrder)

  /** What the comparator compares: numbers for `cost` (after `parseFloat`)
      and for the two dates (after `new Date`), the stored text otherwise; the
      status compares by its enum name. */
  datatype Key = Num(n: int) | Str(t: string)

  function KeyOf(s: Shipment, field: SortField): (k: Key)
    ensures field in {ByEstimatedDelivery, ByCost, ByCreatedAt} <==> k.Num?
  {
    match field
    case ByTrackingNumber => Str(s.trackingNumber)
    case ByOrigin => Str(s.origin)
    case ByDestination => Str(s.destination)
    case ByStatus => Str(StatusName(s.status))
    case ByEstimatedDelivery => Num(s.estimatedDelivery)
    case ByCost => Num(s.cost)
    case ByCreatedAt => Num(s.createdAt)
  }

  /** JavaScript `<` on two keys of one field. Keys of different kinds never
      meet, since every key of a field has the same kind. */
  predicate KeyLess(a: Key, b: Key)
  {
    if a.Num? && b.Num? then a.n < b.n
    else if a.Str? && b.Str? then StrLess(a.t, b.t)
    else false
  }

  /** `<` on keys is a strict total order on the keys of one field. */
  lemma KeyLessTotal(a: Key, b: Key)
    requires a.Num? == b.Num?
    ensures a == b || KeyLess(a, b) || KeyLess(b, a)
  {
    if a.Str? {
      StrLessTotal(a.t, b.t);
    }
  }

  lemma KeyLessIrreflexive(a: Key)
    ensures !KeyLess(a, a)
  {
    if a.Str? {
      StrLessIrreflexive(a.t);
    }
  }

  lemma KeyLessTransitive(a: Key, b: Key, c: Key)
    requires KeyLess(a, b) && KeyLess(b, c)
    ensures KeyLess(a, c)
  {
    if a.Str? {
      StrLessTransitive(a.t, b.t, c.t);
    }
  }

  /** The comparator passed to `sort`. */
  function Compare(a: Shipment, b: Shipment, sort: Sort): (r: int)
    ensures r in {-1, 0, 1}
    ensures r == 0 <==> !KeyLess(KeyOf(a, sort.field), KeyOf(b, sort.field)) &&
                        !KeyLess(KeyOf(b, sort.field), KeyOf(a, sort.field))
  {
    var x, y := KeyOf(a, sort.field), KeyOf(b, sort.field);
    if KeyLess(x, y) then (if sort.order == Asc then -1 else 1)
    else if KeyLess(y, x) then (if sort.order == Asc then 1 else -1)
    else 0
  }

  /** `a` may stay before `b`: the comparator does not put `b` first. */
  predicate InOrder(a: Shipment, b: Shipment, sort: Sort)
  {
    Compare(a, b, sort) <= 0
  }

  /** What `InOrder` means for each order: non-decreasing keys ascending,
      non-increasing keys descending. */
  lemma InOrderMeaning(a: Shipment, b: Shipment, sort: Sort)
    ensures sort.order == Asc ==> (InOrder(a, b, sort) <==> !KeyLess(KeyOf(b, sort.field), KeyOf(a, sort.field)))
    ensures sort.order == Desc ==> (InOrder(a, b, sort) <==> !KeyLess(KeyOf(a, sort.field), KeyOf(b, sort.field)))
  {
    var x, y := KeyOf(a, sort.field), KeyOf(b, sort.field);
    if KeyLess(x, y) && KeyLess(y, x) {
      KeyLessTransitive(x, y, x);
      KeyLessIrreflexive(x);
    }
  }

  /** Two records the comparator ties on have the same key. */
  lemma TieMeansSameKey(a: Shipment, b: Shipment, sort: Sort)
    ensures Compare(a, b, sort) == 0 <==> KeyOf(a, sort.field) == KeyOf(b, sort.field)
  {
    KeyLessTotal(KeyOf(a, sort.field), KeyOf(b, sort.field));
    KeyLessIrreflexive(KeyOf(a, sort.field));
  }

  lemma InOrderTotal(a: Shipment, b: Shipment, sort: Sort)
    ensures InOrder(a, b, sort) || InOrder(b, a, sort)
  {
    InOrderMeaning(a, b, sort);
    InOrderMeaning(b, a, sort);
    var x, y := KeyOf(a, sort.field), KeyOf(b, sort.field);
    if KeyLess(x, y) && KeyLess(y, x) {
      KeyLessTransitive(x, y, x);
      KeyLessIrreflexive(x);
    }
  }

  lemma InOrderTransitive(a: Shipment, b: Shipment, c: Shipment, sort: Sort)
    requires InOrder(a, b, sort) && InOrder(b, c, sort)
    ensures InOrder(a, c, sort)
  {
    InOrderMeaning(a, b, sort);
    InOrderMeaning(b, c, sort);
    InOrderMeaning(a, c, sort);
    var x, y, z := KeyOf(a, sort.field), KeyOf(b, sort.field), KeyOf(c, sort.field);
    KeyLessTotal(x, y);
    KeyLessTotal(y, z);
    if sort.order == Asc && KeyLess(z, x) && KeyLess(x, y) {
      KeyLessTransitive(z, x, y);
    }
    if sort.order == Desc && KeyLess(x, z) && KeyLess(z, y) {
      KeyLessTransitive(x, z, y);
    }
  }

  /** Every pair of records is in comparator order. */
  predicate Sorted(xs: seq<Shipment>, sort: Sort)
  {
    forall i, j :: 0 <= i < j < |xs| ==> InOrder(xs[i], xs[j], sort)
  }

  /** A record placed in front of a sorted list that it precedes stays sorted. */
  lemma SortedCons(x: Shipment, ys: seq<Shipment>, sort: Sort)
    requires Sorted(ys, sort)
    requires forall j :: 0 <= j < |ys| ==> InOrder(x, ys[j], sort)
    ensures Sorted([x] + ys, sort)
  {
    var r := [x] + ys;
    forall i, j | 0 <= i < j < |r| ensures InOrder(r[i], r[j], sort) {
      assert r[j] == ys[j - 1];
      if i > 0 {
        assert r[i] == ys[i - 1];
      }
    }
  }

  /** The test "has key `k`" as a function value. */
  function HasKey(field: SortField, k: Key): Shipment -> bool
  {
    s => KeyOf(s, field) == k
  }

  /** The records whose key is `k`, in their order. */
  function WithKey(xs: seq<Shipment>, field: SortField, k: Key): seq<Shipment>
  {
    Filter(xs, HasKey(field, k))
  }

  /** A record that precedes the head of a sorted list goes in front of it. */
  lemma InsertFront(x: Shipment, ys: seq<Shipment>, sort: Sort)
    requires ys != [] && InOrder(x, ys[0], sort)
    ensures Sorted(ys, sort) ==> Sorted([x] + ys, sort)
  {
    if Sorted(ys, sort) {
      forall j | 0 <= j < |ys| ensures InOrder(x, ys[j], sort) {
        if j > 0 {
          InOrderTransitive(x, ys[0], ys[j], sort);
        }
      }
      SortedCons(x, ys, sort);
    }
  }

  /** The head of a sorted list that `x` does not precede stays in front of
      the sorted rest with `x` inserted. */
  lemma InsertBehind(x: Shipment, ys: seq<Shipment>, rest: seq<Shipment>, sort: Sort)
    requires ys != [] && !InOrder(x, ys[0], sort)
    requires multiset(rest) == multiset{x} + multiset(ys[1..])
    requires Sorted(ys[1..], sort) ==> Sorted(rest, sort)
    ensures multiset([ys[0]] + rest) == multiset{x} + multiset(ys)
    ensures Sorted(ys, sort) ==> Sorted([ys[0]] + rest, sort)
  {
    assert ys == [ys[0]] + ys[1..];
    if Sorted(ys, sort) {
      InOrderTotal(x, ys[0], sort);
      assert Sorted(ys[1..], sort);
      forall j | 0 <= j < |rest| ensures InOrder(ys[0], rest[j], sort) {
        assert rest[j] in multiset(rest);
        assert rest[j] == x || rest[j] in multiset(ys[1..]);
        if rest[j] != x {
          var m :| 0 <= m < |ys[1..]| && ys[1..][m] == rest[j];
          assert ys[m + 1] == rest[j];
        }
      }
      SortedCons(ys[0], rest, sort);
    }
  }

  /** One step of the stable insertion sort: `x`, which came before every
      element of `ys` in the input, goes in front of the first element it
      does not follow. */
  function Insert(x: Shipment, ys: seq<Shipment>, sort: Sort): (r: seq<Shipment>)
    ensures multiset(r) == multiset{x} + multiset(ys)
    ensures Sorted(ys, sort) ==> Sorted(r, sort)
  {
    if ys == [] then [x]
    else if InOrder(x, ys[0], sort) then
      InsertFront(x, ys, sort);
      [x] + ys
    else
      var rest := Insert(x, ys[1..], sort);
      InsertBehind(x, ys, rest, sort);
      [ys[0]] + rest
  }

  /** The stable sort `Array.prototype.sort` performs with this comparator. */
  function SortBy(xs: seq<Shipment>, sort: Sort): (r: seq<Shipment>)
    ensures multiset(r) == multiset(xs)
    ensures Sorted(r, sort)
  {
    if xs == [] then []
    else
      assert xs == [xs[0]] + xs[1..];
      Insert(xs[0], SortBy(xs[1..], sort), sort)
  }

  /** `applySorting(list, sort)`. */
  function ApplySorting(xs: seq<Shipment>, sort: Option<Sort>): (r: seq<Shipment>)
    ensures sort.None? ==> r == xs
    ensures multiset(r) == multiset(xs)
    ensures sort.Some? ==> Sorted(r, sort.value)
  {
    if sort.None? then xs else SortBy(xs, sort.value)
  }

  /** Adjacent keys are non-decreasing ascending and non-increasing descending. */
  lemma AdjacentKeys(xs: seq<Shipment>, sort: Sort, i: nat)
    requires i + 1 < |ApplySorting(xs, Some(sort))|
    ensures var r := ApplySorting(xs, Some(sort));
      var a, b := KeyOf(r[i], sort.field), KeyOf(r[i + 1], sort.field);
      && (sort.order == Asc ==> !KeyLess(b, a))
      && (sort.order == Desc ==> !KeyLess(a, b))
  {
    var r := ApplySorting(xs, Some(sort));
    InOrderMeaning(r[i], r[i + 1], sort);
  }

  /** Inserting `x` among records that all follow it in the input keeps the
      records of every key in input order. */
  lemma {:induction false} InsertStable(x: Shipment, ys: seq<Shipment>, sort: Sort, k: Key)
    ensures WithKey(Insert(x, ys, sort), sort.field, k) ==
            WithKey([x], sort.field, k) + WithKey(ys, sort.field, k)
    decreases |ys|
  {
    var p := HasKey(sort.field, k);
    if ys == [] {
      assert WithKey([], sort.field, k) == [];
    } else if InOrder(x, ys[0], sort) {
      FilterConcat([x], ys, p);
    } else {
      var y := ys[0];
      InsertStable(x, ys[1..], sort, k);
      // `x` strictly follows `y`, so they do not both carry key `k`.
      TieMeansSameKey(x, y, sort);
      FilterMovePast(x, y, Insert(x, ys[1..], sort), ys[1..], p);
      assert ys == [y] + ys[1..];
    }
  }

  /** Stability: among records with equal keys the input order is kept. */
  lemma {:induction false} SortByStable(xs: seq<Shipment>, sort: Sort, k: Key)
    ensures WithKey(SortBy(xs, sort), sort.field, k) == WithKey(xs, sort.field, k)
    decreases |xs|
  {
    if xs != [] {
      SortByStable(xs[1..], sort, k);
      InsertStable(xs[0], SortBy(xs[1..], sort), sort, k);
      FilterConcat([xs[0]], xs[1..], (s: Shipment) => KeyOf(s, sort.field) == k);
      assert xs == [xs[0]] + xs[1..];
    }
  }

  lemma ApplySortingStable(xs: seq<Shipment>, sort: Sort, k: Key)
    ensures WithKey(ApplySorting(xs, Some(sort)), sort.field, k) == WithKey(xs, sort.field, k)
  {
    SortByStable(xs, sort, k);
  }

  /** An already sorted list is returned as it is. */
  lemma {:induction false} SortBySortedIdentity(xs: seq<Shipment>, sort: Sort)
    requires Sorted(xs, sort)
    ensures SortBy(xs, sort) == xs
    decreases |xs|
  {
    if xs != [] {
      assert Sorted(xs[1..], sort);
      SortBySortedIdentity(xs[1..], sort);
      if |xs| > 1 {
        assert InOrder(xs[0], xs[1], sort);
      }
    }
  }

  /** Sorting a second time with the same sort changes nothing. */
  lemma ApplySortingIdempotent(xs: seq<Shipment>, sort: Option<Sort>)
    ensures ApplySorting(ApplySorting(xs, sort), sort) == ApplySorting(xs, sort)
  {
    if sort.Some? {
      SortBySortedIdentity(SortBy(xs, sort.value), sort.value);
    }
  }
}
