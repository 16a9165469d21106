/**
  The `/admin` routes. Every one of them first runs `require_admin`, so a
  caller who is not an admin gets the 403 error page and nothing changes.

  A `ValueError` from `Role(...)`, `BookingStatus(...)` or `int(...)`, and
  the integrity errors raised at commit (a duplicate e-mail, a deleted row
  that is still referenced), are not caught by these routes; the
  application's generic handler turns them into the 500 error page, and since
  nothing was committed the tables are as before.
 */
module AdminRoutes {
  import opened Wrappers
  import opened Models
  import opened Http
  import opened Store
  import opened Deps
  import Text
  import Security

  const ToAdmin: Response := SeeOther("/admin")

  /** The error page of a `HTTPException(403)` raised by `require_admin`. */
  const Denied: Response := ErrorPage(403)

  /** The error page of an exception the routes do not catch. */
  const ServerError: Response := ErrorPage(500)

  // ---------------------------------------------------------------------------
  // require_admin
  // ---------------------------------------------------------------------------

  /** `require_admin`, applied to the user `get_current_user` resolved. */
  function RequireAdmin(users: map<int, User>, actor: int): (r: Result<int, HttpException>)
    requires actor in users
    ensures r.Ok? <==> users[actor].role == Admin
    ensures r.Ok? ==> r.value == actor
    ensures r.Err? ==> r.error == Forbidden
  {
    if users[actor].role != Admin then Err(Forbidden) else Ok(actor)
  }

  /** `require_admin` after `get_current_user` admits exactly what `require_role(Role.admin)` admits. */
  lemma RequireAdminIsRequireRole(p: Security.Primitives, users: map<int, User>, cookie: Option<string>, now: int)
    requires EmailsUnique(users)
    ensures var current := GetCurrentUser(p, users, cookie, now);
            RequireRole(p, users, cookie, now, {Admin}) ==
              if current.Err? then Err(current.error) else RequireAdmin(users, current.value)
  {
  }

  predicate IsAdmin(t: Tables, actor: int)
    requires actor in t.users
  {
    t.users[actor].role == Admin
  }

  // ---------------------------------------------------------------------------
  // Dashboard
  // ---------------------------------------------------------------------------

  /** The users holding `role`. */
  function UsersWithRole(users: map<int, User>, role: Role): (ids: set<int>)
    ensures forall id :: id in ids <==> id in users && users[id].role == role
  {
    set id | id in users && users[id].role == role
  }

  /** The overview figures of `GET /admin`. */
  datatype DashboardStats = DashboardStats(
    users: nat,
    bookings: nat,
    services: nat,
    reviews: nat,
    roleCounts: map<string, nat>,
    recent: seq<int>)

  /** The dashboard's `role_counts`: one entry per role value, filled by a loop over the roles. */
  method RoleCounts(users: map<int, User>) returns (counts: map<string, nat>)
    ensures counts.Keys == set r | r in AllRoles :: RoleValue(r)
    ensures forall r :: r in AllRoles ==> counts[RoleValue(r)] == |UsersWithRole(users, r)|
  {
    counts := map[];
    for i := 0 to |AllRoles|
      invariant counts.Keys == set r | r in AllRoles[..i] :: RoleValue(r)
      invariant forall r :: r in AllRoles[..i] ==> counts[RoleValue(r)] == |UsersWithRole(users, r)|
    {
      var role := AllRoles[i];
      assert AllRoles[..i + 1] == AllRoles[..i] + [role];
      counts := counts[RoleValue(role) := |UsersWithRole(users, role)|];
    }
    assert AllRoles[..|AllRoles|] == AllRoles;
  }

  /** `GET /admin`: the four table sizes, the counts per role and the five newest bookings. */
  method AdminDashboard(db: Database, actor: int) returns (resp: Response, stats: Option<DashboardStats>)
    requires actor in db.users
    ensures !IsAdmin(db.Contents(), actor) ==> resp == Denied && stats.None?
    ensures IsAdmin(db.Contents(), actor) ==> resp == Page("admin/dashboard.html") && stats.Some?
    ensures stats.Some? ==>
              && stats.value.users == |db.users| && stats.value.bookings == |db.bookings|
              && stats.value.services == |db.services| && stats.value.reviews == |db.reviews|
              && (forall r :: r in AllRoles ==>
                    RoleValue(r) in stats.value.roleCounts &&
                    stats.value.roleCounts[RoleValue(r)] == |UsersWithRole(db.users, r)|)
              && NewestSelection(db.bookings, stats.value.recent, 5)
  {
    if db.users[actor].role != Admin {
      return Denied, None;
    }
    var counts := RoleCounts(db.users);
    var newest := NewestFirst(db.bookings, db.bookings.Keys);
    var recent := if |newest| <= 5 then newest else newest[..5];
    NewestPrefixSelects(db.bookings, 5);
    stats := Some(DashboardStats(|db.users|, |db.bookings|, |db.services|, |db.reviews|, counts, recent));
    resp := Page("admin/dashboard.html");
  }

  // ---------------------------------------------------------------------------
  // update_user
  // ---------------------------------------------------------------------------

  /** The form of `POST /admin/users/{user_id}/update`; an unticked `is_active` box is absent. */
  datatype UserForm = UserForm(fullName: string, email: string, role: string, isActive: Option<bool>)

  /** Some user other than `except` already has `email`. */
  predicate EmailHeldByOther(users: map<int, User>, email: string, except: int) {
    exists id :: id in users && id != except && users[id].email == email
  }

  function UpdateUserEffect(t: Tables, actor: int, userId: int, form: UserForm): (out: (Tables, Response))
    requires actor in t.users
    ensures !IsAdmin(t, actor) ==> out == (t, Denied)
    ensures IsAdmin(t, actor) && userId !in t.users ==> out == (t, Message(404))
    ensures IsAdmin(t, actor) && userId in t.users &&
            (Models.ParseRole(form.role).None? || EmailHeldByOther(t.users, form.email, userId)) ==>
              out == (t, ServerError)
    ensures out.1 == ToAdmin <==>
              IsAdmin(t, actor) && userId in t.users && Models.ParseRole(form.role).Some? &&
              !EmailHeldByOther(t.users, form.email, userId)
    ensures out.1 == ToAdmin ==>
              && out.0 == t.(users := out.0.users)
              && out.0.users.Keys == t.users.Keys
              && (forall id :: id in t.users && id != userId ==> out.0.users[id] == t.users[id])
              && out.0.users[userId] == t.users[userId].(fullName := form.fullName, email := form.email,
                                                         role := Models.ParseRole(form.role).value,
                                                         isActive := form.isActive.GetOr(false))
  {
    if !IsAdmin(t, actor) then (t, Denied)
    else if userId !in t.users then (t, Message(404))
    else
      match Models.ParseRole(form.role)
      case None => (t, ServerError)
      case Some(role) =>
        if EmailHeldByOther(t.users, form.email, userId) then (t, ServerError)
        else
          var u := t.users[userId].(fullName := form.fullName, email := form.email, role := role,
                                    isActive := form.isActive.GetOr(false));
          (t.(users := t.users[userId := u]), ToAdmin)
  }

  /** The unique index holds after an update, because a clashing email aborts the commit. */
  lemma UpdateUserKeepsEmailsUnique(t: Tables, actor: int, userId: int, form: UserForm)
    requires actor in t.users && EmailsUnique(t.users)
    ensures EmailsUnique(UpdateUserEffect(t, actor, userId, form).0.users)
  {
    var out := UpdateUserEffect(t, actor, userId, form);
    if out.1 == ToAdmin {
      assert forall id :: id in t.users && id != userId ==> t.users[id].email != form.email;
    }
  }

  /** `POST /admin/users/{user_id}/update`. */
  method UpdateUser(db: Database, actor: int, userId: int, form: UserForm) returns (resp: Response)
    requires db.Valid() && actor in db.users
    modifies db
    ensures db.Valid() && db.nextId == old(db.nextId)
    ensures (db.Contents(), resp) == UpdateUserEffect(old(db.Contents()), actor, userId, form)
  {
    if db.users[actor].role != Admin {
      return Denied;
    }
    if userId !in db.users {
      return Message(404);
    }
    var role := Models.ParseRole(form.role);
    if role.None? {
      return ServerError;
    }
    if EmailHeldByOther(db.users, form.email, userId) {
      return ServerError;
    }
    UpdateUserKeepsEmailsUnique(db.Contents(), actor, userId, form);
    var u := db.users[userId].(fullName := form.fullName, email := form.email, role := role.value,
                               isActive := form.isActive.GetOr(false));
    db.users := db.users[userId := u];
    resp := ToAdmin;
  }

  // ---------------------------------------------------------------------------
  // delete_user
  // ---------------------------------------------------------------------------

  /** The booking once `userId` is no longer its assignee. */
  function Unassign(b: Booking, userId: int): (r: Booking)
    ensures r.assignedEmployeeId != Some(userId)
    ensures r.(assignedEmployeeId := b.assignedEmployeeId) == b
    ensures b.assignedEmployeeId != Some(userId) ==> r == b
  {
    if b.assignedEmployeeId == Some(userId) then b.(assignedEmployeeId := None) else b
  }

  /** The keys of the bookings `userId` made as a client. */
  function OwnBookings(bookings: map<int, Booking>, userId: int): (ids: set<int>)
    ensures forall id :: id in ids <==> id in bookings && bookings[id].clientId == userId
  {
    set id | id in bookings && bookings[id].clientId == userId
  }

  /**
    The tables after the four steps of a user deletion: the reviews of the
    user's bookings, then those bookings, then the user's assignments, then
    the user.
   */
  function DeleteUserTables(t: Tables, userId: int): (r: Tables)
    ensures r.services == t.services && r.resetTokens == t.resetTokens
    ensures r.users == t.users - {userId}
    ensures forall id :: id in r.bookings <==> id in t.bookings && t.bookings[id].clientId != userId
    ensures forall id :: id in r.bookings ==> r.bookings[id] == Unassign(t.bookings[id], userId)
    ensures forall id :: id in r.reviews <==>
              id in t.reviews && t.reviews[id].bookingId !in OwnBookings(t.bookings, userId)
    ensures forall id :: id in r.reviews ==> r.reviews[id] == t.reviews[id]
  {
    var own := OwnBookings(t.bookings, userId);
    var reviews := map id | id in t.reviews && t.reviews[id].bookingId !in own :: t.reviews[id];
    var kept := map id | id in t.bookings && id !in own :: t.bookings[id];
    var bookings := map id | id in kept :: Unassign(kept[id], userId);
    t.(users := t.users - {userId}, bookings := bookings, reviews := reviews)
  }

  function DeleteUserEffect(t: Tables, actor: int, userId: int): (out: (Tables, Response))
    requires actor in t.users
    ensures !IsAdmin(t, actor) ==> out == (t, Denied)
    ensures IsAdmin(t, actor) && userId !in t.users ==> out == (t, Message(404))
    ensures IsAdmin(t, actor) && userId == actor ==> out == (t, Message(400))
    ensures out.1 == ToAdmin <==> IsAdmin(t, actor) && userId in t.users && userId != actor
    ensures out.1 == ToAdmin ==> out.0 == DeleteUserTables(t, userId)
  {
    if !IsAdmin(t, actor) then (t, Denied)
    else if userId !in t.users then (t, Message(404))
    else if userId == actor then (t, Message(400))
    else (DeleteUserTables(t, userId), ToAdmin)
  }

  /**
    After a user is deleted no booking refers to them, bookings they were
    only assigned to survive unassigned, and the reviews of those bookings
    survive too.
   */
  lemma DeletedUserLeavesNoBooking(t: Tables, userId: int, bookingId: int, reviewId: int)
    ensures var r := DeleteUserTables(t, userId);
            forall id :: id in r.bookings ==>
              r.bookings[id].clientId != userId && r.bookings[id].assignedEmployeeId != Some(userId)
    ensures var r := DeleteUserTables(t, userId);
            bookingId in t.bookings && t.bookings[bookingId].clientId != userId ==>
              && bookingId in r.bookings
              && r.bookings[bookingId].assignedEmployeeId ==
                   (if t.bookings[bookingId].assignedEmployeeId == Some(userId) then None
                    else t.bookings[bookingId].assignedEmployeeId)
              && (reviewId in t.reviews && t.reviews[reviewId].bookingId == bookingId ==> reviewId in r.reviews)
  {
    var r := DeleteUserTables(t, userId);
    if bookingId in t.bookings && t.bookings[bookingId].clientId != userId &&
       reviewId in t.reviews && t.reviews[reviewId].bookingId == bookingId {
      assert bookingId !in OwnBookings(t.bookings, userId);
    }
  }

  /** Removing rows keeps both database invariants. */
  lemma DeleteUserKeepsInvariants(t: Tables, userId: int)
    requires EmailsUnique(t.users) && OneReviewPerBooking(t.reviews)
    ensures EmailsUnique(DeleteUserTables(t, userId).users)
    ensures OneReviewPerBooking(DeleteUserTables(t, userId).reviews)
  {
  }

  /** `POST /admin/users/{user_id}/delete`. */
  method DeleteUser(db: Database, actor: int, userId: int) returns (resp: Response)
    requires db.Valid() && actor in db.users
    modifies db
    ensures db.Valid() && db.nextId == old(db.nextId)
    ensures (db.Contents(), resp) == DeleteUserEffect(old(db.Contents()), actor, userId)
  {
    if db.users[actor].role != Admin {
      return Denied;
    }
    if userId !in db.users {
      return Message(404);
    }
    if userId == actor {
      return Message(400);
    }
    ghost var t := db.Contents();
    DeleteUserKeepsInvariants(t, userId);
    var own := OwnBookings(db.bookings, userId);
    db.reviews := map id | id in db.reviews && db.reviews[id].bookingId !in own :: db.reviews[id];
    db.bookings := map id | id in db.bookings && id !in own :: db.bookings[id];
    db.bookings := map id | id in db.bookings :: Unassign(db.bookings[id], userId);
    db.users := db.users - {userId};
    assert db.Contents() == DeleteUserTables(t, userId);
    resp := ToAdmin;
  }

  // ---------------------------------------------------------------------------
  // create_user
  // ---------------------------------------------------------------------------

  /** The form of `POST /admin/users/create`. */
  datatype NewUserForm = NewUserForm(fullName: string, email: string, password: string, phone: string, role: string)

  function CreateUserEffect(p: Security.Primitives, t: Tables, newId: int, actor: int, form: NewUserForm,
                            salt: string, now: int)
    : (out: (Tables, Response))
    requires actor in t.users
    ensures !IsAdmin(t, actor) ==> out == (t, Denied)
    ensures IsAdmin(t, actor) && EmailTaken(t.users, form.email) ==> out == (t, Message(400))
    ensures IsAdmin(t, actor) && !EmailTaken(t.users, form.email) && Models.ParseRole(form.role).None? ==>
              out == (t, ServerError)
    ensures out.1 == ToAdmin <==>
              IsAdmin(t, actor) && !EmailTaken(t.users, form.email) && Models.ParseRole(form.role).Some?
    ensures out.1 == ToAdmin ==>
              && out.0 == t.(users := out.0.users)
              && out.0.users.Keys == t.users.Keys + {newId}
              && (forall id :: id in t.users && id != newId ==> out.0.users[id] == t.users[id])
              && out.0.users[newId] == User(form.email, form.fullName, form.phone, Models.ParseRole(form.role).value,
                                            Security.HashPassword(p, form.password, salt), true, now)
  {
    if !IsAdmin(t, actor) then (t, Denied)
    else if EmailTaken(t.users, form.email) then (t, Message(400))
    else
      match Models.ParseRole(form.role)
      case None => (t, ServerError)
      case Some(role) =>
        var u := NewUser(form.email, form.fullName, Security.HashPassword(p, form.password, salt), now,
                         phone := form.phone, role := role);
        (t.(users := t.users[newId := u]), ToAdmin)
  }

  /** An admin may create a user of any role, staff and admins included. */
  lemma AdminCreatesAnyRole(p: Security.Primitives, t: Tables, newId: int, actor: int, form: NewUserForm,
                            salt: string, now: int, role: Role)
    requires actor in t.users && IsAdmin(t, actor) && !EmailTaken(t.users, form.email)
    requires form.role == RoleValue(role)
    ensures CreateUserEffect(p, t, newId, actor, form, salt, now).0.users[newId].role == role
  {
    RoleValuesRoundTrip(role, form.role);
  }

  /** `POST /admin/users/create`; `salt` stands for the salt bcrypt draws. */
  method CreateUser(p: Security.Primitives, db: Database, actor: int, form: NewUserForm, salt: string, now: int)
    returns (resp: Response)
    requires db.Valid() && actor in db.users
    modifies db
    ensures db.Valid()
    ensures (db.Contents(), resp) == CreateUserEffect(p, old(db.Contents()), old(db.nextId), actor, form, salt, now)
  {
    if db.users[actor].role != Admin {
      return Denied;
    }
    if FindUserByEmail(db.users, form.email).Some? {
      return Message(400);
    }
    var role := Models.ParseRole(form.role);
    if role.None? {
      return ServerError;
    }
    var id := db.AllocateId();
    var u := NewUser(form.email, form.fullName, Security.HashPassword(p, form.password, salt), now,
                     phone := form.phone, role := role.value);
    db.users := db.users[id := u];
    resp := ToAdmin;
  }

  // ---------------------------------------------------------------------------
  // Bookings
  // ---------------------------------------------------------------------------

  /** `GET /admin/bookings`: every booking that passes the status filter, newest first. */
  function AdminListBookings(bookings: map<int, Booking>, status: Option<string>): (r: seq<int>)
    ensures forall id :: id in r <==>
              (id in bookings &&
               (!Truthy(status) || status.value == "all" || StatusValue(bookings[id].status) == status.value))
    ensures forall i, j :: 0 <= i < j < |r| ==> r[i] != r[j]
    ensures forall i, j :: 0 <= i < j < |r| ==>
              r[i] in bookings && r[j] in bookings && bookings[r[i]].createdAt >= bookings[r[j]].createdAt
  {
    var ids := set id | id in bookings &&
                 (!Truthy(status) || status.value == "all" || StatusValue(bookings[id].status) == status.value);
    NewestFirst(bookings, ids)
  }

  /** The users offered in the assignment dropdown: employees, technicians and drivers. */
  function EmployeeOptions(users: map<int, User>): (ids: set<int>)
    ensures forall id :: id in ids <==> id in users && IsFieldStaff(users[id].role)
  {
    set id | id in users && IsFieldStaff(users[id].role)
  }

  /** The dropdown never offers a client or an admin. */
  lemma EmployeeOptionsExcludeClientsAndAdmins(users: map<int, User>, id: int)
    requires id in EmployeeOptions(users)
    ensures users[id].role != Client && users[id].role != Admin
  {
  }

  /**
    The assignee field of the update form: a non-blank value is read with
    `int()`, whose failure is `None`; a missing or blank one clears the assignee.
   */
  function AssigneeField(field: Option<string>): (r: Option<Option<int>>)
    ensures (!Truthy(field) || Text.StripSpace(field.value) == []) ==> r == Some(None)
    ensures Truthy(field) && Text.StripSpace(field.value) != [] ==> r == (match Text.ParseInt(field.value)
                                                                          case None => None
                                                                          case Some(n) => Some(Some(n)))
  {
    if Truthy(field) && Text.StripSpace(field.value) != [] then
      match Text.ParseInt(field.value)
      case None => None
      case Some(n) => Some(Some(n))
    else Some(None)
  }

  /** A non-blank field holding the decimal text of a key assigns that key, whoever it names. */
  lemma AssigneeFieldOfId(n: nat)
    ensures AssigneeField(Some(Text.NatToString(n))) == Some(Some(n))
  {
    Text.ParseIntOfNat(n);
  }

  function UpdateBookingEffect(t: Tables, actor: int, bookingId: int, status: string, assignee: Option<string>)
    : (out: (Tables, Response))
    requires actor in t.users
    ensures !IsAdmin(t, actor) ==> out == (t, Denied)
    ensures IsAdmin(t, actor) && bookingId !in t.bookings ==> out == (t, Message(404))
    ensures (IsAdmin(t, actor) && bookingId in t.bookings &&
             (ParseStatus(status).None? || AssigneeField(assignee).None?)) ==> out == (t, ServerError)
    ensures out.1 == ToAdmin <==>
              IsAdmin(t, actor) && bookingId in t.bookings && ParseStatus(status).Some? && AssigneeField(assignee).Some?
    ensures out.1 == ToAdmin ==>
              out.0 == t.(bookings := t.bookings[bookingId := t.bookings[bookingId].(
                             status := ParseStatus(status).value,
                             assignedEmployeeId := AssigneeField(assignee).value)])
  {
    if !IsAdmin(t, actor) then (t, Denied)
    else if bookingId !in t.bookings then (t, Message(404))
    else
      match ParseStatus(status)
      case None => (t, ServerError)
      case Some(st) =>
        match AssigneeField(assignee)
        case None => (t, ServerError)
        case Some(a) =>
          (t.(bookings := t.bookings[bookingId := t.bookings[bookingId].(status := st, assignedEmployeeId := a)]), ToAdmin)
  }

  /** `POST /admin/bookings/{booking_id}/update`. */
  method UpdateBooking(db: Database, actor: int, bookingId: int, status: string, assignee: Option<string>)
    returns (resp: Response)
    requires db.Valid() && actor in db.users
    modifies db
    ensures db.Valid() && db.nextId == old(db.nextId)
    ensures (db.Contents(), resp) == UpdateBookingEffect(old(db.Contents()), actor, bookingId, status, assignee)
  {
    if db.users[actor].role != Admin {
      return Denied;
    }
    if bookingId !in db.bookings {
      return Message(404);
    }
    var st := ParseStatus(status);
    if st.None? {
      return ServerError;
    }
    var a := AssigneeField(assignee);
    if a.None? {
      return ServerError;
    }
    db.bookings := db.bookings[bookingId := db.bookings[bookingId].(status := st.value, assignedEmployeeId := a.value)];
    resp := ToAdmin;
  }

  /** Removing the row keyed `id` from a table, and nothing else. */
  function DeleteRowEffect<R>(table: map<int, R>, id: int): (r: Option<map<int, R>>)
    ensures r.None? <==> id !in table
    ensures r.Some? ==> r.value.Keys == table.Keys - {id}
    ensures r.Some? ==> forall k :: k in r.value ==> r.value[k] == table[k]
  {
    if id !in table then None else Some(table - {id})
  }

  /**
    Deleting a booking through the session also detaches its review: the
    default relationship cascade sets `reviews.booking_id` to NULL, which the
    NOT NULL column refuses at commit, so a reviewed booking cannot be deleted.
   */
  function DeleteBookingEffect(t: Tables, actor: int, bookingId: int): (out: (Tables, Response))
    requires actor in t.users
    ensures !IsAdmin(t, actor) ==> out == (t, Denied)
    ensures IsAdmin(t, actor) && bookingId !in t.bookings ==> out == (t, Message(404))
    ensures IsAdmin(t, actor) && bookingId in t.bookings && HasReview(t.reviews, bookingId) ==>
              out == (t, ServerError)
    ensures out.1 == ToAdmin <==>
              IsAdmin(t, actor) && bookingId in t.bookings && !HasReview(t.reviews, bookingId)
    ensures out.1 == ToAdmin ==> out.0 == t.(bookings := DeleteRowEffect(t.bookings, bookingId).value)
  {
    if !IsAdmin(t, actor) then (t, Denied)
    else
      match DeleteRowEffect(t.bookings, bookingId)
      case None => (t, Message(404))
      case Some(rest) =>
        if HasReview(t.reviews, bookingId) then (t, ServerError)
        else (t.(bookings := rest), ToAdmin)
  }

  /** `POST /admin/bookings/{booking_id}/delete`. */
  method DeleteBooking(db: Database, actor: int, bookingId: int) returns (resp: Response)
    requires db.Valid() && actor in db.users
    modifies db
    ensures db.Valid() && db.nextId == old(db.nextId)
    ensures (db.Contents(), resp) == DeleteBookingEffect(old(db.Contents()), actor, bookingId)
  {
    if db.users[actor].role != Admin {
      return Denied;
    }
    if bookingId !in db.bookings {
      return Message(404);
    }
    if HasReview(db.reviews, bookingId) {
      return ServerError;
    }
    db.bookings := db.bookings - {bookingId};
    resp := ToAdmin;
  }

  // ---------------------------------------------------------------------------
  // Services
  // ---------------------------------------------------------------------------

  /** The form of the service create and update routes; blank name and description fields arrive as `""`. */
  datatype ServiceForm = ServiceForm(nameAr: string, nameEn: string, description: string, price: Float)

  /** The service a form describes: every field as submitted, the optional ones present. */
  function ServiceOf(form: ServiceForm): (s: Service)
    ensures s.nameAr == form.nameAr && s.nameEn == Some(form.nameEn)
    ensures s.description == Some(form.description) && s.price == form.price
  {
    NewService(form.nameAr, nameEn := Some(form.nameEn), description := Some(form.description), price := form.price)
  }

  function CreateServiceEffect(t: Tables, newId: int, actor: int, form: ServiceForm): (out: (Tables, Response))
    requires actor in t.users
    ensures !IsAdmin(t, actor) ==> out == (t, Denied)
    ensures IsAdmin(t, actor) ==>
              && out.1 == ToAdmin
              && out.0 == t.(services := out.0.services)
              && out.0.services.Keys == t.services.Keys + {newId}
              && (forall id :: id in t.services && id != newId ==> out.0.services[id] == t.services[id])
              && out.0.services[newId] == ServiceOf(form)
  {
    if !IsAdmin(t, actor) then (t, Denied)
    else (t.(services := t.services[newId := ServiceOf(form)]), ToAdmin)
  }

  /** `POST /admin/services/create`. */
  method CreateService(db: Database, actor: int, form: ServiceForm) returns (resp: Response)
    requires db.Valid() && actor in db.users
    modifies db
    ensures db.Valid()
    ensures (db.Contents(), resp) == CreateServiceEffect(old(db.Contents()), old(db.nextId), actor, form)
  {
    if db.users[actor].role != Admin {
      return Denied;
    }
    var id := db.AllocateId();
    db.services := db.services[id := ServiceOf(form)];
    resp := ToAdmin;
  }

  function UpdateServiceEffect(t: Tables, actor: int, serviceId: int, form: ServiceForm): (out: (Tables, Response))
    requires actor in t.users
    ensures !IsAdmin(t, actor) ==> out == (t, Denied)
    ensures IsAdmin(t, actor) && serviceId !in t.services ==> out == (t, Message(404))
    ensures out.1 == ToAdmin <==> IsAdmin(t, actor) && serviceId in t.services
    ensures out.1 == ToAdmin ==> out.0 == t.(services := t.services[serviceId := ServiceOf(form)])
  {
    if !IsAdmin(t, actor) then (t, Denied)
    else if serviceId !in t.services then (t, Message(404))
    else (t.(services := t.services[serviceId := ServiceOf(form)]), ToAdmin)
  }

  /** `POST /admin/services/{service_id}/update`. */
  method UpdateService(db: Database, actor: int, serviceId: int, form: ServiceForm) returns (resp: Response)
    requires db.Valid() && actor in db.users
    modifies db
    ensures db.Valid() && db.nextId == old(db.nextId)
    ensures (db.Contents(), resp) == UpdateServiceEffect(old(db.Contents()), actor, serviceId, form)
  {
    if db.users[actor].role != Admin {
      return Denied;
    }
    if serviceId !in db.services {
      return Message(404);
    }
    db.services := db.services[serviceId := ServiceOf(form)];
    resp := ToAdmin;
  }

  /** Some booking is for service `serviceId`. */
  predicate ServiceBooked(bookings: map<int, Booking>, serviceId: int) {
    exists id :: id in bookings && bookings[id].serviceId == serviceId
  }

  /**
    As with bookings and their review, deleting a service sets the
    `service_id` of its bookings to NULL, which the NOT NULL column refuses
    at commit: only a service nobody booked can be deleted.
   */
  function DeleteServiceEffect(t: Tables, actor: int, serviceId: int): (out: (Tables, Response))
    requires actor in t.users
    ensures !IsAdmin(t, actor) ==> out == (t, Denied)
    ensures IsAdmin(t, actor) && serviceId !in t.services ==> out == (t, Message(404))
    ensures IsAdmin(t, actor) && serviceId in t.services && ServiceBooked(t.bookings, serviceId) ==>
              out == (t, ServerError)
    ensures out.1 == ToAdmin <==>
              IsAdmin(t, actor) && serviceId in t.services && !ServiceBooked(t.bookings, serviceId)
    ensures out.1 == ToAdmin ==> out.0 == t.(services := DeleteRowEffect(t.services, serviceId).value)
  {
    if !IsAdmin(t, actor) then (t, Denied)
    else
      match DeleteRowEffect(t.services, serviceId)
      case None => (t, Message(404))
      case Some(rest) =>
        if ServiceBooked(t.bookings, serviceId) then (t, ServerError)
        else (t.(services := rest), ToAdmin)
  }

  /** `POST /admin/services/{service_id}/delete`. */
  method DeleteService(db: Database, actor: int, serviceId: int) returns (resp: Response)
    requires db.Valid() && actor in db.users
    modifies db
    ensures db.Valid() && db.nextId == old(db.nextId)
    ensures (db.Contents(), resp) == DeleteServiceEffect(old(db.Contents()), actor, serviceId)
  {
    if db.users[actor].role != Admin {
      return Denied;
    }
    if serviceId !in db.services {
      return Message(404);
    }
    if ServiceBooked(db.bookings, serviceId) {
      return ServerError;
    }
    db.services := db.services - {serviceId};
    resp := ToAdmin;
  }

  /** Every admin route leaves the tables alone and shows the 403 page to a caller who is not an admin. */
  lemma NonAdminChangesNothing(p: Security.Primitives, t: Tables, newId: int, actor: int, id: int,
                               userForm: UserForm, newUserForm: NewUserForm, serviceForm: ServiceForm,
                               status: string, assignee: Option<string>, salt: string, now: int)
    requires actor in t.users && t.users[actor].role != Admin
    ensures UpdateUserEffect(t, actor, id, userForm) == (t, Denied)
    ensures DeleteUserEffect(t, actor, id) == (t, Denied)
    ensures CreateUserEffect(p, t, newId, actor, newUserForm, salt, now) == (t, Denied)
    ensures UpdateBookingEffect(t, actor, id, status, assignee) == (t, Denied)
    ensures DeleteBookingEffect(t, actor, id) == (t, Denied)
    ensures CreateServiceEffect(t, newId, actor, serviceForm) == (t, Denied)
    ensures UpdateServiceEffect(t, actor, id, serviceForm) == (t, Denied)
    ensures DeleteServiceEffect(t, actor, id) == (t, Denied)
  {
  }

  /** Every review is of an existing booking. */
  predicate ReviewsReferToBookings(t: Tables) {
    forall id :: id in t.reviews ==> t.reviews[id].bookingId in t.bookings
  }

  /** Every booking is of an existing service. */
  predicate BookingsReferToServices(t: Tables) {
    forall id :: id in t.bookings ==> t.bookings[id].serviceId in t.services
  }

  /** Since the commit refuses to orphan a review or a booking, the delete routes leave no dangling reference. */
  lemma DeletesKeepReferences(t: Tables, actor: int, id: int)
    requires actor in t.users
    ensures ReviewsReferToBookings(t) ==> ReviewsReferToBookings(DeleteBookingEffect(t, actor, id).0)
    ensures BookingsReferToServices(t) ==> BookingsReferToServices(DeleteServiceEffect(t, actor, id).0)
  {
  }
}
