/** The entities of the tracking backend: users, shipments, shipment inputs
    and partial updates, and the errors the resolvers throw. */
module Records {
  import opened Wrappers

  /** GraphQL enum ShipmentStatus. */
  datatype Status = Pending | InTransit | Delivered | Delayed | Cancelled

  /** The enum value as the server stores and sends it. */
  function StatusName(s: Status): string
  {
    match s
    case Pending => "PENDING"
    case InTransit => "IN_TRANSIT"
    case Delivered => "DELIVERED"
    case Delayed => "DELAYED"
    case Cancelled => "CANCELLED"
  }

  /** The enum value a name denotes, as GraphQL reads a `ShipmentStatus`
      argument; any other text is rejected. */
  function ParseStatus(t: string): (r: Option<Status>)
    ensures r.Some? ==> StatusName(r.value) == t
    ensures r.None? ==> forall s :: StatusName(s) != t
  {
    if t == "PENDING" then Some(Pending)
    else if t == "IN_TRANSIT" then Some(InTransit)
    else if t == "DELIVERED" then Some(Delivered)
    else if t == "DELAYED" then Some(Delayed)
    else if t == "CANCELLED" then Some(Cancelled)
    else None
  }

  /** Every status reads back from its name. */
  lemma ParseStatusName(s: Status)
    ensures ParseStatus(StatusName(s)) == Some(s)
  {
  }

  /** GraphQL enum UserRole. */
  datatype Role = Admin | Employee

  function RoleName(r: Role): string
  {
    match r
    case Admin => "ADMIN"
    case Employee => "EMPLOYEE"
  }

  /** A stored user; `password` holds the bcrypt hash. */
  datatype User = User(id: string, username: string, password: string, email: string, role: Role)

  /** What `register` hands to the store: the raw password, not yet hashed. */
  datatype UserData = UserData(username: string, password: string, email: string, role: Role)

  /** The user as the API returns it: no password field at all. */
  datatype PublicUser = PublicUser(id: string, username: string, role: Role, email: string)

  /** A stored shipment. Weight and cost are integer hundredths; timestamps are
      integers (milliseconds since the epoch). */
  datatype Shipment = Shipment(
    id: string,
    trackingNumber: string,
    origin: string,
    destination: string,
    status: Status,
    carrier: string,
    weight: int,
    dimensions: string,
    estimatedDelivery: int,
    actualDelivery: Option<int>,
    cost: int,
    customerName: string,
    customerEmail: string,
    notes: Option<string>,
    createdAt: int,
    updatedAt: int,
    createdBy: string,
    flagged: bool)

  /** GraphQL input ShipmentInput as `createShipment` receives it. Omitted and
      null optional fields both end up as null in the stored record. */
  datatype ShipmentInput = ShipmentInput(
    trackingNumber: string,
    origin: string,
    destination: string,
    status: Status,
    carrier: string,
    weight: int,
    dimensions: string,
    estimatedDelivery: int,
    actualDelivery: Option<int>,
    cost: int,
    customerName: string,
    customerEmail: string,
    notes: Option<string>,
    flagged: Option<bool>)

  /** The object spread over a stored shipment by `updateShipment`: every
      field may be absent (`None` / `Undefined`); the nullable ones may also
      be sent as null. */
  datatype Patch = Patch(
    trackingNumber: Option<string>,
    origin: Option<string>,
    destination: Option<string>,
    status: Option<Status>,
    carrier: Option<string>,
    weight: Option<int>,
    dimensions: Option<string>,
    estimatedDelivery: Option<int>,
    actualDelivery: Nullable<int>,
    cost: Option<int>,
    customerName: Option<string>,
    customerEmail: Option<string>,
    notes: Nullable<string>,
    flagged: Option<bool>)

  const EmptyPatch := Patch(None, None, None, None, None, None, None, None, Undefined,
                            None, None, None, Undefined, None)

  /** The keys a patch can carry. */
  datatype Field =
    | TrackingNumber | Origin | Destination | StatusField | Carrier | Weight | Dimensions
    | EstimatedDelivery | ActualDelivery | Cost | CustomerName | CustomerEmail | Notes | Flagged

  /** A field's value, as a dynamically typed object property. */
  datatype Value = Text(t: string) | Int(i: int) | StatusValue(s: Status) | Bool(b: bool) | NullValue

  function OptText(o: Option<string>): Value
  {
    if o.Some? then Text(o.value) else NullValue
  }

  function OptInt(o: Option<int>): Value
  {
    if o.Some? then Int(o.value) else NullValue
  }

  /** `shipment[field]`. */
  function Get(s: Shipment, f: Field): Value
  {
    match f
    case TrackingNumber => Text(s.trackingNumber)
    case Origin => Text(s.origin)
    case Destination => Text(s.destination)
    case StatusField => StatusValue(s.status)
    case Carrier => Text(s.carrier)
    case Weight => Int(s.weight)
    case Dimensions => Text(s.dimensions)
    case EstimatedDelivery => Int(s.estimatedDelivery)
    case ActualDelivery => OptInt(s.actualDelivery)
    case Cost => Int(s.cost)
    case CustomerName => Text(s.customerName)
    case CustomerEmail => Text(s.customerEmail)
    case Notes => OptText(s.notes)
    case Flagged => Bool(s.flagged)
  }

  function TextIn(o: Option<string>): Option<Value>
  {
    if o.Some? then Some(Text(o.value)) else None
  }

  function IntIn(o: Option<int>): Option<Value>
  {
    if o.Some? then Some(Int(o.value)) else None
  }

  function NullableTextIn(n: Nullable<string>): Option<Value>
  {
    match n
    case Undefined => None
    case Null => Some(NullValue)
    case Defined(t) => Some(Text(t))
  }

  function NullableIntIn(n: Nullable<int>): Option<Value>
  {
    match n
    case Undefined => None
    case Null => Some(NullValue)
    case Defined(i) => Some(Int(i))
  }

  /** `patch[field]`, with `None` for `undefined`. */
  function PatchGet(p: Patch, f: Field): Option<Value>
  {
    match f
    case TrackingNumber => TextIn(p.trackingNumber)
    case Origin => TextIn(p.origin)
    case Destination => TextIn(p.destination)
    case StatusField => if p.status.Some? then Some(StatusValue(p.status.value)) else None
    case Carrier => TextIn(p.carrier)
    case Weight => IntIn(p.weight)
    case Dimensions => TextIn(p.dimensions)
    case EstimatedDelivery => IntIn(p.estimatedDelivery)
    case ActualDelivery => NullableIntIn(p.actualDelivery)
    case Cost => IntIn(p.cost)
    case CustomerName => TextIn(p.customerName)
    case CustomerEmail => TextIn(p.customerEmail)
    case Notes => NullableTextIn(p.notes)
    case Flagged => if p.flagged.Some? then Some(Bool(p.flagged.value)) else None
  }

  function Overwrite<T>(current: T, given: Option<T>): T
  {
    if given.Some? then given.value else current
  }

  function OverwriteNullable<T>(current: Option<T>, given: Nullable<T>): Option<T>
  {
    match given
    case Undefined => current
    case Null => None
    case Defined(v) => Some(v)
  }

  /** `{ ...s, ...p, updatedAt: now }`: the record with every supplied field
      overwritten. */
  function ApplyPatch(s: Shipment, p: Patch, now: int): (r: Shipment)
    ensures r.id == s.id && r.createdAt == s.createdAt && r.createdBy == s.createdBy
    ensures r.updatedAt == now
  {
    s.(trackingNumber := Overwrite(s.trackingNumber, p.trackingNumber),
       origin := Overwrite(s.origin, p.origin),
       destination := Overwrite(s.destination, p.destination),
       status := Overwrite(s.status, p.status),
       carrier := Overwrite(s.carrier, p.carrier),
       weight := Overwrite(s.weight, p.weight),
       dimensions := Overwrite(s.dimensions, p.dimensions),
       estimatedDelivery := Overwrite(s.estimatedDelivery, p.estimatedDelivery),
       actualDelivery := OverwriteNullable(s.actualDelivery, p.actualDelivery),
       cost := Overwrite(s.cost, p.cost),
       customerName := Overwrite(s.customerName, p.customerName),
       customerEmail := Overwrite(s.customerEmail, p.customerEmail),
       notes := OverwriteNullable(s.notes, p.notes),
       updatedAt := now,
       flagged := Overwrite(s.flagged, p.flagged))
  }

  /** Every field of the merged record comes from the patch when the patch
      has that key (an explicit `null` included) and from the old record
      otherwise. */
  lemma ApplyPatchGet(s: Shipment, p: Patch, now: int, f: Field)
    ensures Get(ApplyPatch(s, p, now), f) ==
            if PatchGet(p, f).Some? then PatchGet(p, f).value else Get(s, f)
  {
  }

  /** The errors the resolvers throw. */
  datatype Error =
    | AuthenticationRequired
    | AdminAccessRequired
    | InvalidCredentials
    | UsernameAlreadyExists
    | ShipmentNotFound

  /** The message each thrown `Error` carries. */
  function Message(e: Error): string
  {
    match e
    case AuthenticationRequired => "Authentication required"
    case AdminAccessRequired => "Admin access required"
    case InvalidCredentials => "Invalid credentials"
    case UsernameAlreadyExists => "Username already exists"
    case ShipmentNotFound => "Shipment not found"
  }

  lemma MessagesDistinct(a: Error, b: Error)
    ensures Message(a) == Message(b) ==> a == b
  {
  }
}
