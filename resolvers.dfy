/** The GraphQL resolvers of the backend: the four queries over the current
    snapshot of the store, and the mutations, which go through the store's
    in-place operations. A thrown `Error` is a `Failure`. */
module Resolvers {
  import opened Wrappers
  import opened JsArray
  import opened Records
  import opened Auth
  import opened Data
  import opened QueryFilter
  import opened QuerySort
  import opened QueryWindow

  // ---------------------------------------------------------------- queries

  /** The list both shipment queries start from: filtered, then sorted. */
  function Selected(all: seq<Shipment>, filter: Option<ShipmentFilter>, sort: Option<Sort>): seq<Shipment>
  {
    ApplySorting(ApplyFilters(all, filter), sort)
  }

  /** The selection holds the same records as the filtered list; each of them
      is stored and admitted, every admitted record is in it, it is sorted
      when a sort is given, and with neither argument it is the store itself. */
  lemma SelectedMeaning(all: seq<Shipment>, filter: Option<ShipmentFilter>, sort: Option<Sort>)
    ensures var r := Selected(all, filter, sort);
      && multiset(r) == multiset(ApplyFilters(all, filter))
      && |r| == |ApplyFilters(all, filter)|
      && (forall i :: 0 <= i < |r| ==> r[i] in all)
      && (filter.Some? ==> forall i :: 0 <= i < |r| ==> Admits(r[i], filter.value))
      && (filter.Some? ==> forall i :: 0 <= i < |all| && Admits(all[i], filter.value) ==> all[i] in r)
      && (sort.Some? ==> Sorted(r, sort.value))
      && (filter.None? && sort.None? ==> r == all)
  {
    var f := ApplyFilters(all, filter);
    var r := Selected(all, filter, sort);
    ApplyFiltersMeaning(all, filter);
    assert |r| == |multiset(r)| == |multiset(f)| == |f|;
    forall i | 0 <= i < |r| ensures r[i] in f {
      assert r[i] in multiset(r);
    }
    if filter.Some? {
      forall i | 0 <= i < |all| && Admits(all[i], filter.value) ensures all[i] in r {
        assert all[i] in f;
        assert all[i] in multiset(f);
      }
    }
  }

  /** Sorting keeps the length of the filtered list. */
  lemma SelectedLength(all: seq<Shipment>, filter: Option<ShipmentFilter>, sort: Option<Sort>)
    ensures |Selected(all, filter, sort)| == |ApplyFilters(all, filter)|
  {
    var f := ApplyFilters(all, filter);
    assert |multiset(Selected(all, filter, sort))| == |multiset(f)|;
  }

  /** `Query.shipments`: authentication first, then filter, sort, `offset`
      and `limit`. */
  function ShipmentsQuery(user: Option<Session>, all: seq<Shipment>, filter: Option<ShipmentFilter>,
                          sort: Option<Sort>, limit: Nullable<int>, offset: Nullable<int>): (r: Result<seq<Shipment>, Error>)
    ensures r.Failure? <==> user.None?
    ensures r.Failure? ==> r.error == AuthenticationRequired
    ensures r.Success? ==> |r.value| <= |ApplyFilters(all, filter)|
  {
    match RequireAuth(user)
    case Failure(e) => Failure(e)
    case Success(_) =>
      var sel := Selected(all, filter, sort);
      SelectedLength(all, filter, sort);
      Success(OffsetWindow(sel, offset, limit))
  }

  /** `r` succeeds with the selection from `offset` on, cut to `limit`
      records: `min(limit, max(0, n - offset))` of them. */
  ghost predicate IsWindow(r: Result<seq<Shipment>, Error>, sel: seq<Shipment>, offset: nat, limit: nat)
  {
    var from := Min(offset, |sel|);
    && r.Success?
    && |r.value| == Min(limit, Max(0, |sel| - offset))
    && r.value == sel[from..from + |r.value|]
  }

  /** A signed-in caller with natural `offset` and `limit` gets the selection
      from `offset` on, cut to `limit` records. */
  lemma ShipmentsQueryWindow(user: Option<Session>, all: seq<Shipment>, filter: Option<ShipmentFilter>,
                             sort: Option<Sort>, offset: nat, limit: nat)
    requires user.Some?
    ensures IsWindow(ShipmentsQuery(user, all, filter, sort, Defined(limit), Defined(offset)),
                     Selected(all, filter, sort), offset, limit)
  {
    SignedInQuery(user, all, filter, sort, Defined(limit), Defined(offset));
    WindowResult(Selected(all, filter, sort), ShipmentsQuery(user, all, filter, sort, Defined(limit), Defined(offset)),
                 offset, limit);
  }

  /** The window of `ShipmentsQueryWindow`, for any selection. */
  lemma WindowResult(sel: seq<Shipment>, q: Result<seq<Shipment>, Error>, offset: nat, limit: nat)
    requires q == Success(OffsetWindow(sel, Defined(offset), Defined(limit)))
    ensures IsWindow(q, sel, offset, limit)
  {
    OffsetWindowNatural(sel, offset, limit);
  }

  /** A signed-in caller who gives neither `offset` nor `limit` gets the
      whole selection. */
  lemma ShipmentsQueryWhole(user: Option<Session>, all: seq<Shipment>, filter: Option<ShipmentFilter>,
                            sort: Option<Sort>)
    requires user.Some?
    ensures ShipmentsQuery(user, all, filter, sort, Undefined, Undefined) == Success(Selected(all, filter, sort))
  {
    SignedInQuery(user, all, filter, sort, Undefined, Undefined);
    OffsetWindowNone(Selected(all, filter, sort));
  }

  /** For a signed-in caller the query is the window of the selection. */
  lemma SignedInQuery(user: Option<Session>, all: seq<Shipment>, filter: Option<ShipmentFilter>,
                      sort: Option<Sort>, limit: Nullable<int>, offset: Nullable<int>)
    requires user.Some?
    ensures ShipmentsQuery(user, all, filter, sort, limit, offset) ==
            Success(OffsetWindow(Selected(all, filter, sort), offset, limit))
  {
  }

  /** `Query.shipmentsPaginated`: authentication first, then the cursor
      window over the selection. */
  function ShipmentsPaginated(user: Option<Session>, all: seq<Shipment>, first: Nullable<int>, after: Option<string>,
                              filter: Option<ShipmentFilter>, sort: Option<Sort>): (r: Result<Connection, Error>)
    ensures r.Failure? <==> user.None?
    ensures r.Failure? ==> r.error == AuthenticationRequired
    ensures r.Success? ==> r.value.totalCount == |ApplyFilters(all, filter)|
  {
    match RequireAuth(user)
    case Failure(e) => Failure(e)
    case Success(_) =>
      SelectedLength(all, filter, sort);
      Success(Paginate(Selected(all, filter, sort), first, after))
  }

  /** Distinct, non-empty ids in the store stay so in every selection. */
  lemma SelectedCursorSafe(all: seq<Shipment>, filter: Option<ShipmentFilter>, sort: Option<Sort>)
    requires CursorSafe(all)
    ensures CursorSafe(Selected(all, filter, sort))
  {
    SelectedMeaning(all, filter, sort);
    var r := Selected(all, filter, sort);
    if filter.Some? {
      FilterMultiset(all, Criterion(filter.value));
    }
    SubMultisetUniqueIds(r, all);
  }

  /** On an unchanged store with distinct, non-empty ids, a signed-in client
      that asks for the first page and then follows `endCursor` while
      `hasNextPage` holds receives every selected record once, in order; each
      page it receives is the resolver's answer for that cursor. */
  lemma PaginatedWalkCoversSelection(user: Option<Session>, all: seq<Shipment>, first: int, after: Option<string>,
                                     filter: Option<ShipmentFilter>, sort: Option<Sort>)
    requires user.Some? && CursorSafe(all) && first > 0
    ensures ShipmentsPaginated(user, all, Defined(first), after, filter, sort) ==
            Success(Paginate(Selected(all, filter, sort), Defined(first), after))
    ensures CursorSafe(Selected(all, filter, sort)) &&
            Crawl(Selected(all, filter, sort), first, None) == Selected(all, filter, sort)
  {
    SelectedCursorSafe(all, filter, sort);
    CrawlCoversAll(Selected(all, filter, sort), first);
  }

  /** `Query.shipment`: the first stored record with the id, or null. */
  function ShipmentQuery(user: Option<Session>, all: seq<Shipment>, id: string): (r: Result<Option<Shipment>, Error>)
    ensures r.Failure? <==> user.None?
    ensures r.Failure? ==> r.error == AuthenticationRequired
    ensures r.Success? ==> (r.value.None? <==> forall j :: 0 <= j < |all| ==> all[j].id != id)
    ensures r.Success? && r.value.Some? ==>
      exists k :: 0 <= k < |all| && all[k] == r.value.value && all[k].id == id &&
                  forall j :: 0 <= j < k ==> all[j].id != id
  {
    match RequireAuth(user)
    case Failure(e) => Failure(e)
    case Success(_) =>
      var found := FindShipmentById(all, id);
      assert found.Some? ==> var k := IndexOfShipment(all, id); 0 <= k < |all| && all[k] == found.value;
      Success(found)
  }

  // ---------------------------------------------------------- authentication

  /** What `login` and `register` return. */
  datatype AuthPayload = AuthPayload(token: string, user: PublicUser)

  /** The user object of the payload: the stored user without the password. */
  function PublicOf(u: User): PublicUser
  {
    PublicUser(u.id, u.username, u.role, u.email)
  }

  /** `Mutation.login`: the first user with the name, if the password
      matches its hash; an unknown name and a wrong password fail alike. */
  function Login(c: Crypto, users: seq<User>, username: string, password: string, now: int): (r: Result<AuthPayload, Error>)
    ensures r.Failure? ==> r.error == InvalidCredentials
    ensures r.Success? <==>
      exists k :: 0 <= k < |users| && users[k].username == username &&
                  (forall j :: 0 <= j < k ==> users[j].username != username) &&
                  c.compare(password, users[k].password)
    ensures r.Success? ==>
      exists k :: 0 <= k < |users| && users[k].username == username &&
                  (forall j :: 0 <= j < k ==> users[j].username != username) &&
                  r.value == AuthPayload(GenerateToken(c, users[k], now), PublicOf(users[k]))
  {
    FirstUserUnique(users, username);
    match FindUserByUsername(users, username)
    case None => Failure(InvalidCredentials)
    case Some(u) =>
      if !c.compare(password, u.password) then Failure(InvalidCredentials)
      else Success(AuthPayload(GenerateToken(c, u, now), PublicOf(u)))
  }

  /** Any user that comes first with the name is the one the lookup finds. */
  lemma FirstUserUnique(users: seq<User>, username: string)
    ensures forall k :: 0 <= k < |users| && users[k].username == username &&
                        (forall j :: 0 <= j < k ==> users[j].username != username) ==>
                        FindUserByUsername(users, username) == Some(users[k])
  {
    var r := FindUserByUsername(users, username);
    forall k | 0 <= k < |users| && users[k].username == username &&
               (forall j :: 0 <= j < k ==> users[j].username != username)
      ensures r == Some(users[k])
    {
      var k' :| 0 <= k' < |users| && users[k'] == r.value && r.value.username == username &&
                forall j :: 0 <= j < k' ==> users[j].username != username;
      assert users[k'].username == username && users[k].username == username;
      assert k' == k;
    }
  }

  /** The role `register` stores: EMPLOYEE when the argument is omitted. */
  function RegisteredRole(role: Option<Role>): Role
  {
    role.GetOr(Employee)
  }

  /** `Mutation.register`: refuses a taken name, otherwise creates the user
      (hashing the password) and signs a token for it. */
  method Register(db: Store, c: Crypto, username: string, password: string, email: string,
                  role: Option<Role>, now: int) returns (r: Result<AuthPayload, Error>)
    modifies db
    ensures FindUserByUsername(old(db.users), username).Some? ==>
      r == Failure(UsernameAlreadyExists) && db.users == old(db.users)
    ensures FindUserByUsername(old(db.users), username).None? ==>
      var u := NewUser(|old(db.users)|, UserData(username, password, email, RegisteredRole(role)), c.hash);
      && db.users == old(db.users) + [u]
      && r == Success(AuthPayload(GenerateToken(c, u, now), PublicOf(u)))
    ensures db.shipments == old(db.shipments)
  {
    var existing := FindUserByUsername(db.users, username);
    if existing.Some? {
      return Failure(UsernameAlreadyExists);
    }
    var user := db.CreateUser(UserData(username, password, email, RegisteredRole(role)), c.hash);
    r := Success(AuthPayload(GenerateToken(c, user, now), PublicOf(user)));
  }

  /** A name that `register` accepted logs in with the same password while
      bcrypt is sound: the payload carries the new user, with the requested
      role or EMPLOYEE, and the stored password is the hash, never the raw
      password; under a sound jsonwebtoken the token resolves to that user
      for seven days. */
  lemma RegisterThenLogin(c: Crypto, users: seq<User>, username: string, password: string, email: string,
                          role: Option<Role>, issued: int, now: int)
    requires SoundBcrypt(c) && SoundJwt(c)
    requires FindUserByUsername(users, username).None?
    requires issued <= now < issued + TokenLifetime
    ensures var u := NewUser(|users|, UserData(username, password, email, RegisteredRole(role)), c.hash);
      var r := Login(c, users + [u], username, password, issued);
      && r.Success?
      && r.value.user == PublicUser(u.id, username, RegisteredRole(role), email)
      && u.password != password
      && VerifyToken(c, r.value.token, now) ==
           Some(Session(u.id, username, RegisteredRole(role), email, issued, issued + TokenLifetime))
  {
    var u := NewUser(|users|, UserData(username, password, email, RegisteredRole(role)), c.hash);
    var ys := users + [u];
    assert ys[|users|] == u;
    var found := FindUserByUsername(ys, username);
    assert found == Some(u) by {
      assert found.Some?;
      var k :| 0 <= k < |ys| && ys[k] == found.value && found.value.username == username &&
               forall j :: 0 <= j < k ==> ys[j].username != username;
      assert k == |users|;
    }
    assert c.compare(password, c.hash(password));
    IssuedTokenVerifies(c, u, issued, now);
  }

  // ------------------------------------------------------------- mutations

  /** `Mutation.createShipment`: admins only; `createdBy` is the caller's
      username. */
  method CreateShipment(db: Store, user: Option<Session>, input: ShipmentInput, now: int)
    returns (r: Result<Shipment, Error>)
    modifies db
    ensures !IsAdmin(user) ==> r == Failure(RequireAdmin(user).error) && db.shipments == old(db.shipments)
    ensures IsAdmin(user) ==>
      && r == Success(NewShipment(|old(db.shipments)|, input, user.value.username, now))
      && db.shipments == old(db.shipments) + [r.value]
    ensures db.users == old(db.users)
  {
    var admin := RequireAdmin(user);
    if admin.Failure? {
      return Failure(admin.error);
    }
    var s := db.CreateShipment(input, admin.value.username, now);
    r := Success(s);
  }

  /** The keys an EMPLOYEE may change, in the order the resolver copies them. */
  const EmployeeFields: seq<Field> := [StatusField, Notes, ActualDelivery]

  /** `restricted[field] = input[field]` for one key. */
  function CopyField(into: Patch, from: Patch, f: Field): Patch
  {
    match f
    case TrackingNumber => into.(trackingNumber := from.trackingNumber)
    case Origin => into.(origin := from.origin)
    case Destination => into.(destination := from.destination)
    case StatusField => into.(status := from.status)
    case Carrier => into.(carrier := from.carrier)
    case Weight => into.(weight := from.weight)
    case Dimensions => into.(dimensions := from.dimensions)
    case EstimatedDelivery => into.(estimatedDelivery := from.estimatedDelivery)
    case ActualDelivery => into.(actualDelivery := from.actualDelivery)
    case Cost => into.(cost := from.cost)
    case CustomerName => into.(customerName := from.customerName)
    case CustomerEmail => into.(customerEmail := from.customerEmail)
    case Notes => into.(notes := from.notes)
    case Flagged => into.(flagged := from.flagged)
  }

  /** The patch an EMPLOYEE's input is cut down to. */
  function EmployeeView(input: Patch): Patch
  {
    EmptyPatch.(status := input.status, notes := input.notes, actualDelivery := input.actualDelivery)
  }

  /** The cut-down patch carries a key iff the input carries it (with its
      value, null included) and the key is status, notes or actualDelivery. */
  lemma EmployeeViewFields(input: Patch, f: Field)
    ensures PatchGet(EmployeeView(input), f) == if f in EmployeeFields then PatchGet(input, f) else None
  {
  }

  /** The `allowedFields.forEach` loop building `restrictedInput`. */
  method RestrictInput(input: Patch) returns (restricted: Patch)
    ensures restricted == EmployeeView(input)
  {
    restricted := EmptyPatch;
    var i := 0;
    while i < |EmployeeFields|
      invariant 0 <= i <= |EmployeeFields|
      invariant restricted.status == if i > 0 then input.status else None
      invariant restricted.notes == if i > 1 then input.notes else Undefined
      invariant restricted.actualDelivery == if i > 2 then input.actualDelivery else Undefined
      invariant restricted == EmptyPatch.(status := restricted.status, notes := restricted.notes,
                                          actualDelivery := restricted.actualDelivery)
    {
      var field := EmployeeFields[i];
      if PatchGet(input, field).Some? {
        restricted := CopyField(restricted, input, field);
      }
      i := i + 1;
    }
  }

  /** The patch `updateShipment` forwards for the caller's role. */
  function Forwarded(caller: Session, input: Patch): Patch
  {
    if caller.role == Employee then EmployeeView(input) else input
  }

  /** `Mutation.updateShipment`: any signed-in caller; an EMPLOYEE's input is
      restricted first; a missing id is "Shipment not found". */
  method UpdateShipment(db: Store, user: Option<Session>, id: string, input: Patch, now: int)
    returns (r: Result<Shipment, Error>)
    modifies db
    ensures user.None? ==> r == Failure(AuthenticationRequired) && db.shipments == old(db.shipments)
    ensures user.Some? ==>
      var k := IndexOfShipment(old(db.shipments), id);
      && (k == -1 ==> r == Failure(ShipmentNotFound) && db.shipments == old(db.shipments))
      && (k >= 0 ==> r == Success(ApplyPatch(old(db.shipments)[k], Forwarded(user.value, input), now)) &&
                     db.shipments == old(db.shipments)[k := r.value])
    ensures db.users == old(db.users)
  {
    var caller := RequireAuth(user);
    if caller.Failure? {
      return Failure(caller.error);
    }
    var data := input;
    if caller.value.role == Employee {
      data := RestrictInput(input);
    }
    var updated := db.UpdateShipment(id, data, now);
    if updated.None? {
      return Failure(ShipmentNotFound);
    }
    r := Success(updated.value);
  }

  /** What an EMPLOYEE's update does to a record: status, notes and
      actualDelivery take the input's value when it is given (null included),
      every other field except `updatedAt` is kept. */
  lemma EmployeeUpdateKeepsOthers(s: Shipment, caller: Session, input: Patch, now: int, f: Field)
    requires caller.role == Employee
    ensures var t := ApplyPatch(s, Forwarded(caller, input), now);
      && (f !in EmployeeFields ==> Get(t, f) == Get(s, f))
      && (f in EmployeeFields ==> Get(t, f) == if PatchGet(input, f).Some? then PatchGet(input, f).value else Get(s, f))
      && t.id == s.id && t.createdAt == s.createdAt && t.createdBy == s.createdBy && t.updatedAt == now
  {
    EmployeeViewFields(input, f);
    ApplyPatchGet(s, EmployeeView(input), now, f);
  }

  /** An ADMIN's input is merged whole. */
  lemma AdminUpdateMergesAll(s: Shipment, caller: Session, input: Patch, now: int, f: Field)
    requires caller.role == Admin
    ensures Get(ApplyPatch(s, Forwarded(caller, input), now), f) ==
            if PatchGet(input, f).Some? then PatchGet(input, f).value else Get(s, f)
  {
    ApplyPatchGet(s, input, now, f);
  }

  /** `Mutation.deleteShipment`: admins only; true iff a record was removed. */
  method DeleteShipment(db: Store, user: Option<Session>, id: string) returns (r: Result<bool, Error>)
    modifies db
    ensures !IsAdmin(user) ==> r == Failure(RequireAdmin(user).error) && db.shipments == old(db.shipments)
    ensures IsAdmin(user) ==>
      var k := IndexOfShipment(old(db.shipments), id);
      && r == Success(k >= 0)
      && (k == -1 ==> db.shipments == old(db.shipments))
      && (k >= 0 ==> db.shipments == RemoveAt(old(db.shipments), k))
    ensures db.users == old(db.users)
  {
    var admin := RequireAdmin(user);
    if admin.Failure? {
      return Failure(admin.error);
    }
    var removed := db.DeleteShipment(id);
    r := Success(removed);
  }

  /** The patch `{ flagged: !shipment.flagged }`. */
  function FlagPatch(s: Shipment): Patch
  {
    EmptyPatch.(flagged := Some(!s.flagged))
  }

  /** Toggling changes `flagged` to its negation and `updatedAt` to now, and
      nothing else; toggling twice restores every field but `updatedAt`. */
  lemma FlagPatchToggles(s: Shipment, now: int, later: int)
    ensures ApplyPatch(s, FlagPatch(s), now) == s.(flagged := !s.flagged, updatedAt := now)
    ensures var t := ApplyPatch(s, FlagPatch(s), now);
      ApplyPatch(t, FlagPatch(t), later) == s.(updatedAt := later)
  {
  }

  /** `Mutation.toggleShipmentFlag`: any signed-in caller; the record found
      first is updated with its flag negated. */
  method ToggleShipmentFlag(db: Store, user: Option<Session>, id: string, now: int)
    returns (r: Result<Shipment, Error>)
    modifies db
    ensures user.None? ==> r == Failure(AuthenticationRequired) && db.shipments == old(db.shipments)
    ensures user.Some? ==>
      var k := IndexOfShipment(old(db.shipments), id);
      && (k == -1 ==> r == Failure(ShipmentNotFound) && db.shipments == old(db.shipments))
      && (k >= 0 ==>
            var s := old(db.shipments)[k];
            r == Success(s.(flagged := !s.flagged, updatedAt := now)) &&
            db.shipments == old(db.shipments)[k := r.value])
    ensures db.users == old(db.users)
  {
    var caller := RequireAuth(user);
    if caller.Failure? {
      return Failure(caller.error);
    }
    var shipment := FindShipmentById(db.shipments, id);
    if shipment.None? {
      return Failure(ShipmentNotFound);
    }
    FlagPatchToggles(shipment.value, now, now);
    var updated := db.UpdateShipment(id, FlagPatch(shipment.value), now);
    r := Success(updated.value);
  }
}
