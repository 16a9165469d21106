/**
  The records of the application's database and their enumerations: users
  and their roles, services, bookings and their lifecycle states, reviews
  and password-reset tokens. Every record carries the defaults its ORM
  declaration gives to fields a caller leaves out.
 */
module Models {
  import opened Wrappers

  // ---------------------------------------------------------------------------
  // Roles
  // ---------------------------------------------------------------------------

  datatype Role = Client | Employee | Driver | Technical | Admin

  /** The members of `Role` in declaration order, as `for role in Role` visits them. */
  const AllRoles: seq<Role> := [Client, Employee, Driver, Technical, Admin]

  function RoleValue(r: Role): string {
    match r
    case Client => "client"
    case Employee => "employee"
    case Driver => "driver"
    case Technical => "technical"
    case Admin => "admin"
  }

  /** `Role(s)`: the member whose value is `s`; `None` stands for the `ValueError`. */
  function ParseRole(s: string): (r: Option<Role>)
    ensures r.Some? ==> RoleValue(r.value) == s
  {
    if s == "client" then Some(Client)
    else if s == "employee" then Some(Employee)
    else if s == "driver" then Some(Driver)
    else if s == "technical" then Some(Technical)
    else if s == "admin" then Some(Admin)
    else None
  }

  /** A role's value parses back to the role, and exactly five strings are roles. */
  lemma RoleValuesRoundTrip(r: Role, s: string)
    ensures ParseRole(RoleValue(r)) == Some(r)
    ensures ParseRole(s).Some? <==> s in {"client", "employee", "driver", "technical", "admin"}
    ensures r in AllRoles && |AllRoles| == 5
  {
  }

  /** The roles that may act on any booking: `list_bookings` and `update_booking_status`. */
  predicate IsStaff(r: Role) {
    r in {Employee, Technical, Driver, Admin}
  }

  /** The roles counted as field staff: the dashboard and the admin assignment dropdown. */
  predicate IsFieldStaff(r: Role) {
    r in {Employee, Technical, Driver}
  }

  // ---------------------------------------------------------------------------
  // Booking lifecycle states
  // ---------------------------------------------------------------------------

  datatype BookingStatus = Requested | Assigned | InProgress | Completed | Cancelled

  function StatusValue(s: BookingStatus): string {
    match s
    case Requested => "requested"
    case Assigned => "assigned"
    case InProgress => "in_progress"
    case Completed => "completed"
    case Cancelled => "cancelled"
  }

  /** `BookingStatus(s)`; `None` stands for the `ValueError`. */
  function ParseStatus(s: string): (r: Option<BookingStatus>)
    ensures r.Some? ==> StatusValue(r.value) == s
  {
    if s == "requested" then Some(Requested)
    else if s == "assigned" then Some(Assigned)
    else if s == "in_progress" then Some(InProgress)
    else if s == "completed" then Some(Completed)
    else if s == "cancelled" then Some(Cancelled)
    else None
  }

  /** A status value parses back to the status, and exactly five strings are statuses. */
  lemma StatusValuesRoundTrip(st: BookingStatus, s: string)
    ensures ParseStatus(StatusValue(st)) == Some(st)
    ensures ParseStatus(s).Some? <==> s in {"requested", "assigned", "in_progress", "completed", "cancelled"}
  {
  }

  // ---------------------------------------------------------------------------
  // Records
  // ---------------------------------------------------------------------------

  /** A binary64 floating-point value, kept opaque: prices and coordinates are only stored. */
  datatype Float = Float(bits: bv64)

  /** 0.0, the default price of a service. */
  const ZeroFloat: Float := Float(0)

  /** Times are whole seconds of UTC. */
  datatype User = User(
    email: string,
    fullName: string,
    phone: string,
    role: Role,
    hashedPassword: string,
    isActive: bool,
    createdAt: int)

  /** A user built with the column defaults for the fields a caller leaves out. */
  function NewUser(email: string, fullName: string, hashedPassword: string, createdAt: int,
                   phone: string := "", role: Role := Client, isActive: bool := true): User
  {
    User(email, fullName, phone, role, hashedPassword, isActive, createdAt)
  }

  datatype Service = Service(
    nameAr: string,
    nameEn: Option<string>,
    description: Option<string>,
    price: Float)

  function NewService(nameAr: string, nameEn: Option<string> := None,
                      description: Option<string> := None, price: Float := ZeroFloat): Service
  {
    Service(nameAr, nameEn, description, price)
  }

  datatype Booking = Booking(
    clientId: int,
    serviceId: int,
    status: BookingStatus,
    contactName: string,
    contactPhone: string,
    description: string,
    locationLat: Option<Float>,
    locationLng: Option<Float>,
    addressText: string,
    assignedEmployeeId: Option<int>,
    createdAt: int)

  /** A booking built with the column defaults: `requested`, no location, no assignee. */
  function NewBooking(clientId: int, serviceId: int, contactName: string, contactPhone: string,
                      createdAt: int, status: BookingStatus := Requested, description: string := "",
                      locationLat: Option<Float> := None, locationLng: Option<Float> := None,
                      addressText: string := "", assignedEmployeeId: Option<int> := None): Booking
  {
    Booking(clientId, serviceId, status, contactName, contactPhone, description,
            locationLat, locationLng, addressText, assignedEmployeeId, createdAt)
  }

  /** The defaults a booking gets when only the required fields are given. */
  lemma BookingDefaults(clientId: int, serviceId: int, name: string, phone: string, now: int)
    ensures NewBooking(clientId, serviceId, name, phone, now).status == Requested
    ensures NewBooking(clientId, serviceId, name, phone, now).description == ""
    ensures NewBooking(clientId, serviceId, name, phone, now).addressText == ""
    ensures NewBooking(clientId, serviceId, name, phone, now).locationLat.None?
    ensures NewBooking(clientId, serviceId, name, phone, now).assignedEmployeeId.None?
  {
  }

  /** The defaults a service gets when only its Arabic name is given. */
  lemma ServiceDefaults(nameAr: string)
    ensures NewService(nameAr).nameEn.None?
    ensures NewService(nameAr).description.None?
    ensures NewService(nameAr).price == ZeroFloat
  {
  }

  /** The defaults a user gets when only the required fields are given. */
  lemma UserDefaults(email: string, name: string, hashed: string, now: int)
    ensures NewUser(email, name, hashed, now).role == Client
    ensures NewUser(email, name, hashed, now).isActive
    ensures NewUser(email, name, hashed, now).phone == ""
  {
  }

  datatype Review = Review(bookingId: int, rating: int, comment: string, createdAt: int)

  datatype ResetToken = ResetToken(userId: int, tokenHash: string, expiresAt: int, createdAt: int)
}
