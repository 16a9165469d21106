/**
  The `/bookings` routes: a client books a service, lists bookings, reviews a
  completed booking, and staff move a booking between states.

  Each handler that writes is a method on the database, specified by an
  `...Effect` function from the tables before the request (and the key the
  next insert receives) to the tables after it and the reply. The acting user
  is the one `get_current_user` resolved, given by primary key.
 */
module BookingRoutes {
  import opened Wrappers
  import opened Models
  import opened Http
  import opened Store
  import opened Deps

  /** The form fields of `POST /bookings`. */
  datatype BookingForm = BookingForm(
    serviceId: int,
    contactName: string,
    contactPhone: string,
    description: string,
    locationLat: Option<Float>,
    locationLng: Option<Float>,
    addressText: string)

  const ToDashboard: Response := SeeOther("/dashboard")

  // ---------------------------------------------------------------------------
  // create_booking
  // ---------------------------------------------------------------------------

  function CreateBookingEffect(t: Tables, newId: int, actor: int, form: BookingForm, now: int)
    : (out: (Tables, Response))
    ensures form.serviceId !in t.services ==> out == (t, Message(404))
    ensures form.serviceId in t.services ==>
      && out.1 == ToDashboard
      && out.0 == t.(bookings := out.0.bookings)
      && out.0.bookings.Keys == t.bookings.Keys + {newId}
      && (forall id :: id in t.bookings && id != newId ==> out.0.bookings[id] == t.bookings[id])
      && out.0.bookings[newId].status == Requested
      && out.0.bookings[newId].clientId == actor
      && out.0.bookings[newId].assignedEmployeeId.None?
      && out.0.bookings[newId].createdAt == now
      && BookingCopiesForm(out.0.bookings[newId], form)
  {
    if form.serviceId !in t.services then (t, Message(404))
    else
      var b := NewBooking(actor, form.serviceId, form.contactName, form.contactPhone, now,
                          description := form.description, locationLat := form.locationLat,
                          locationLng := form.locationLng, addressText := form.addressText);
      (t.(bookings := t.bookings[newId := b]), ToDashboard)
  }

  /** The booking holds the service and the contact, location and address fields as submitted. */
  predicate BookingCopiesForm(b: Booking, form: BookingForm) {
    && b.serviceId == form.serviceId
    && b.contactName == form.contactName
    && b.contactPhone == form.contactPhone
    && b.description == form.description
    && b.locationLat == form.locationLat
    && b.locationLng == form.locationLng
    && b.addressText == form.addressText
  }

  /** `POST /bookings`. */
  method CreateBooking(db: Database, actor: int, form: BookingForm, now: int) returns (resp: Response)
    requires db.Valid() && actor in db.users
    modifies db
    ensures db.Valid()
    ensures (db.Contents(), resp) == CreateBookingEffect(old(db.Contents()), old(db.nextId), actor, form, now)
  {
    if form.serviceId !in db.services {
      return Message(404);
    }
    var id := db.AllocateId();
    var b := NewBooking(actor, form.serviceId, form.contactName, form.contactPhone, now,
                        description := form.description, locationLat := form.locationLat,
                        locationLng := form.locationLng, addressText := form.addressText);
    db.bookings := db.bookings[id := b];
    resp := ToDashboard;
  }

  // ---------------------------------------------------------------------------
  // list_bookings
  // ---------------------------------------------------------------------------

  /** The `status` query parameter filters unless it is absent, empty or `all`. */
  predicate StatusSelected(b: Booking, status: Option<string>) {
    !Truthy(status) || status.value == "all" || StatusValue(b.status) == status.value
  }

  /** The bookings a user may see in the list: staff see all, everyone else their own. */
  predicate Listed(bookings: map<int, Booking>, id: int, actor: int, role: Role, status: Option<string>)
    requires id in bookings
  {
    (IsStaff(role) || bookings[id].clientId == actor) && StatusSelected(bookings[id], status)
  }

  /** `GET /bookings`: the keys of the listed bookings, newest first. */
  function ListBookings(bookings: map<int, Booking>, actor: int, role: Role, status: Option<string>)
    : (r: seq<int>)
    ensures forall id :: id in r <==> id in bookings && Listed(bookings, id, actor, role, status)
    ensures forall i, j :: 0 <= i < j < |r| ==> r[i] != r[j]
    ensures forall i, j :: 0 <= i < j < |r| ==>
              r[i] in bookings && r[j] in bookings && bookings[r[i]].createdAt >= bookings[r[j]].createdAt
  {
    var ids := set id | id in bookings && Listed(bookings, id, actor, role, status);
    NewestFirst(bookings, ids)
  }

  /** A client's list holds only that client's bookings, whatever the status filter. */
  lemma ClientSeesOnlyOwn(bookings: map<int, Booking>, actor: int, role: Role, status: Option<string>, id: int)
    requires !IsStaff(role)
    requires id in ListBookings(bookings, actor, role, status)
    ensures id in bookings && bookings[id].clientId == actor
  {
  }

  // ---------------------------------------------------------------------------
  // create_review
  // ---------------------------------------------------------------------------

  function CreateReviewEffect(t: Tables, newId: int, actor: int, bookingId: int, rating: int,
                              comment: string, now: int)
    : (out: (Tables, Response))
    ensures bookingId !in t.bookings || t.bookings[bookingId].clientId != actor ==> out == (t, Message(403))
    ensures bookingId in t.bookings && t.bookings[bookingId].clientId == actor &&
            (t.bookings[bookingId].status != Completed || HasReview(t.reviews, bookingId)) ==>
              out == (t, Message(400))
    ensures out.1 == ToDashboard <==>
              && bookingId in t.bookings && t.bookings[bookingId].clientId == actor
              && t.bookings[bookingId].status == Completed && !HasReview(t.reviews, bookingId)
    ensures out.1 == ToDashboard ==>
              out.0 == t.(reviews := t.reviews[newId := Review(bookingId, rating, comment, now)])
  {
    if bookingId !in t.bookings || t.bookings[bookingId].clientId != actor then (t, Message(403))
    else if t.bookings[bookingId].status != Completed then (t, Message(400))
    else if HasReview(t.reviews, bookingId) then (t, Message(400))
    else (t.(reviews := t.reviews[newId := Review(bookingId, rating, comment, now)]), ToDashboard)
  }

  /**
    However many times a client posts a review, a booking ends up with at most
    one: adding a review under a new key keeps the one-review rule.
   */
  lemma {:induction false} ReviewKeepsOnePerBooking(t: Tables, newId: int, actor: int, bookingId: int,
                                                    rating: int, comment: string, now: int)
    requires OneReviewPerBooking(t.reviews) && newId !in t.reviews
    ensures OneReviewPerBooking(CreateReviewEffect(t, newId, actor, bookingId, rating, comment, now).0.reviews)
  {
    var out := CreateReviewEffect(t, newId, actor, bookingId, rating, comment, now);
    if out.1 == ToDashboard {
      assert forall k :: k in t.reviews ==> t.reviews[k].bookingId != bookingId;
    }
  }

  /** `POST /bookings/{booking_id}/review`. */
  method CreateReview(db: Database, actor: int, bookingId: int, rating: int, comment: string, now: int)
    returns (resp: Response)
    requires db.Valid() && actor in db.users
    modifies db
    ensures db.Valid()
    ensures (db.Contents(), resp) ==
            CreateReviewEffect(old(db.Contents()), old(db.nextId), actor, bookingId, rating, comment, now)
  {
    if bookingId !in db.bookings || db.bookings[bookingId].clientId != actor {
      return Message(403);
    }
    if db.bookings[bookingId].status != Completed {
      return Message(400);
    }
    if HasReview(db.reviews, bookingId) {
      return Message(400);
    }
    ghost var t := db.Contents();
    var id := db.AllocateId();
    ReviewKeepsOnePerBooking(t, id, actor, bookingId, rating, comment, now);
    db.reviews := db.reviews[id := Review(bookingId, rating, comment, now)];
    resp := ToDashboard;
  }

  // ---------------------------------------------------------------------------
  // update_booking_status
  // ---------------------------------------------------------------------------

  /** The booking after a staff member sets `status`: choosing `assigned` makes that member the assignee. */
  function WithStatus(b: Booking, status: BookingStatus, actor: int): (r: Booking)
    ensures r.status == status
    ensures r.assignedEmployeeId == if status == Assigned then Some(actor) else b.assignedEmployeeId
    ensures r.(status := b.status, assignedEmployeeId := b.assignedEmployeeId) == b
  {
    b.(status := status, assignedEmployeeId := if status == Assigned then Some(actor) else b.assignedEmployeeId)
  }

  function UpdateStatusEffect(t: Tables, actor: int, bookingId: int, newStatus: string): (out: (Tables, Response))
    requires actor in t.users
    ensures !IsStaff(t.users[actor].role) ==> out == (t, Message(403))
    ensures IsStaff(t.users[actor].role) && bookingId !in t.bookings ==> out == (t, Message(404))
    ensures IsStaff(t.users[actor].role) && bookingId in t.bookings && ParseStatus(newStatus).None? ==>
              out == (t, Message(400))
    ensures out.1 == ToDashboard <==>
              IsStaff(t.users[actor].role) && bookingId in t.bookings && ParseStatus(newStatus).Some?
    ensures out.1 == ToDashboard ==>
              out.0 == t.(bookings := t.bookings[bookingId := WithStatus(t.bookings[bookingId], ParseStatus(newStatus).value, actor)])
  {
    if !IsStaff(t.users[actor].role) then (t, Message(403))
    else if bookingId !in t.bookings then (t, Message(404))
    else
      match ParseStatus(newStatus)
      case None => (t, Message(400))
      case Some(st) => (t.(bookings := t.bookings[bookingId := WithStatus(t.bookings[bookingId], st, actor)]), ToDashboard)
  }

  /**
    There is no transition table: a staff member may move any booking from
    any status to any status, and only the status and the assignee change.
   */
  lemma AnyStatusToAnyStatus(t: Tables, actor: int, bookingId: int, target: BookingStatus)
    requires actor in t.users && IsStaff(t.users[actor].role) && bookingId in t.bookings
    ensures var out := UpdateStatusEffect(t, actor, bookingId, StatusValue(target));
            && out.1 == ToDashboard
            && out.0.bookings[bookingId].status == target
            && out.0.bookings.Keys == t.bookings.Keys
            && out.0.bookings[bookingId].clientId == t.bookings[bookingId].clientId
  {
    StatusValuesRoundTrip(target, StatusValue(target));
  }

  /** `POST /bookings/{booking_id}/status`. */
  method UpdateBookingStatus(db: Database, actor: int, bookingId: int, newStatus: string) returns (resp: Response)
    requires db.Valid() && actor in db.users
    modifies db
    ensures db.Valid() && db.nextId == old(db.nextId)
    ensures (db.Contents(), resp) == UpdateStatusEffect(old(db.Contents()), actor, bookingId, newStatus)
  {
    if !IsStaff(db.users[actor].role) {
      return Message(403);
    }
    if bookingId !in db.bookings {
      return Message(404);
    }
    var parsed := ParseStatus(newStatus);
    if parsed.None? {
      return Message(400);
    }
    db.bookings := db.bookings[bookingId := WithStatus(db.bookings[bookingId], parsed.value, actor)];
    resp := ToDashboard;
  }
}
