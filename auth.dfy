/**
  The public account routes: registration, login, and the two steps of a
  password reset. A route that succeeds redirects with 303; an
  `HTTPException` it raises is rendered by the application's handler as the
  error page with that status. Registration and login also set the
  `access_token` cookie, returned here next to the reply.
 */
module AuthRoutes {
  import opened Wrappers
  import opened Models
  import opened Http
  import opened Store
  import opened Deps
  import opened Security

  /** The shortest password registration and reset accept. */
  const MinPasswordLength: nat := 8

  const ToDashboard: Response := SeeOther("/dashboard")

  /** A reply and the `access_token` cookie it sets, if any. */
  datatype Reply = Reply(response: Response, cookie: Option<string>)

  // ---------------------------------------------------------------------------
  // register
  // ---------------------------------------------------------------------------

  /** The form of `POST /register`; its `role` field is accepted and ignored. */
  datatype RegisterForm = RegisterForm(email: string, password: string, fullName: string, phone: string, role: string)

  function RegisterEffect(p: Primitives, t: Tables, newId: int, form: RegisterForm, salt: string, now: int)
    : (out: (Tables, Reply))
    ensures |form.password| < MinPasswordLength ==> out == (t, Reply(ErrorPage(400), None))
    ensures |form.password| >= MinPasswordLength && EmailTaken(t.users, form.email) ==>
              out == (t, Reply(ErrorPage(400), None))
    ensures out.1.response == ToDashboard <==>
              |form.password| >= MinPasswordLength && !EmailTaken(t.users, form.email)
    ensures out.1.response == ToDashboard ==>
              && out.0 == t.(users := out.0.users)
              && out.0.users.Keys == t.users.Keys + {newId}
              && (forall id :: id in t.users && id != newId ==> out.0.users[id] == t.users[id])
              && out.0.users[newId] == User(form.email, form.fullName, form.phone, Client,
                                            HashPassword(p, form.password, salt), true, now)
              && out.1.cookie == Some(CreateAccessToken(p, form.email, now))
  {
    if |form.password| < MinPasswordLength then (t, Reply(ErrorPage(400), None))
    else if EmailTaken(t.users, form.email) then (t, Reply(ErrorPage(400), None))
    else
      var u := NewUser(form.email, form.fullName, HashPassword(p, form.password, salt), now,
                       phone := form.phone, role := Client, isActive := true);
      (t.(users := t.users[newId := u]), Reply(ToDashboard, Some(CreateAccessToken(p, form.email, now))))
  }

  /** Self-registration never yields staff or an admin, whatever `role` the form carries. */
  lemma RegisterIsClientOnly(p: Primitives, t: Tables, newId: int, form: RegisterForm, salt: string, now: int, id: int)
    requires newId !in t.users
    requires id in RegisterEffect(p, t, newId, form, salt, now).0.users
    requires id !in t.users
    ensures RegisterEffect(p, t, newId, form, salt, now).0.users[id].role == Client
  {
  }

  /** `POST /register`; `salt` stands for the salt bcrypt draws. */
  method Register(p: Primitives, db: Database, form: RegisterForm, salt: string, now: int) returns (reply: Reply)
    requires db.Valid()
    modifies db
    ensures db.Valid()
    ensures (db.Contents(), reply) == RegisterEffect(p, old(db.Contents()), old(db.nextId), form, salt, now)
  {
    if |form.password| < MinPasswordLength {
      return Reply(ErrorPage(400), None);
    }
    if FindUserByEmail(db.users, form.email).Some? {
      return Reply(ErrorPage(400), None);
    }
    var id := db.AllocateId();
    var u := NewUser(form.email, form.fullName, HashPassword(p, form.password, salt), now,
                     phone := form.phone, role := Client, isActive := true);
    db.users := db.users[id := u];
    reply := Reply(ToDashboard, Some(CreateAccessToken(p, form.email, now)));
  }

  // ---------------------------------------------------------------------------
  // login
  // ---------------------------------------------------------------------------

  /** Where a successful login lands: admins on `/admin`, everyone else on `/dashboard`. */
  function LandingPage(role: Role): (url: string)
    ensures url == "/admin" <==> role == Admin
    ensures url == "/admin" || url == "/dashboard"
  {
    if role == Admin then "/admin" else "/dashboard"
  }

  /** `POST /login`. It does not look at `is_active`. */
  function Login(p: Primitives, users: map<int, User>, email: string, password: string, now: int): (r: Reply)
    requires EmailsUnique(users)
    ensures r.response == ErrorPage(401) <==>
              !EmailTaken(users, email) ||
              !VerifyPassword(p, password, users[FindUserByEmail(users, email).value].hashedPassword)
    ensures r.response != ErrorPage(401) ==>
              var id := FindUserByEmail(users, email).value;
              r == Reply(SeeOther(LandingPage(users[id].role)), Some(CreateAccessToken(p, users[id].email, now)))
    ensures r.response == ErrorPage(401) ==> r.cookie.None?
  {
    match FindUserByEmail(users, email)
    case None => Reply(ErrorPage(401), None)
    case Some(id) =>
      if !VerifyPassword(p, password, users[id].hashedPassword) then Reply(ErrorPage(401), None)
      else Reply(SeeOther(LandingPage(users[id].role)), Some(CreateAccessToken(p, users[id].email, now)))
  }

  /**
    A user who has just registered can log in with the same password, lands
    on the dashboard, and the cookie from either route identifies them.
   */
  lemma RegisterThenLogin(p: Primitives, t: Tables, newId: int, form: RegisterForm, salt: string,
                          now: int, later: int)
    requires BcryptSound(p) && JwtSound(p) && EmailsUnique(t.users)
    requires newId !in t.users && form.email != ""
    requires |form.password| >= MinPasswordLength && !EmailTaken(t.users, form.email)
    requires now <= later <= now + AccessTokenLifetime
    ensures var users := RegisterEffect(p, t, newId, form, salt, now).0.users;
            && EmailsUnique(users)
            && Login(p, users, form.email, form.password, later).response == ToDashboard
            && GetCurrentUser(p, users, RegisterEffect(p, t, newId, form, salt, now).1.cookie, later) == Ok(newId)
            && GetCurrentUser(p, users, Login(p, users, form.email, form.password, later).cookie, later) == Ok(newId)
  {
    var users := RegisterEffect(p, t, newId, form, salt, now).0.users;
    assert forall id :: id in t.users ==> t.users[id].email != form.email;
    assert EmailsUnique(users);
    assert FindUserByEmail(users, form.email) == Some(newId);
    HashThenVerify(p, form.password, salt);
    IssuedTokenResolves(p, users, newId, now, later);
    IssuedTokenResolves(p, users, newId, later, later);
  }

  // ---------------------------------------------------------------------------
  // Password reset
  // ---------------------------------------------------------------------------

  /**
    `POST /reset/request`: for a known email, a token is stored as its digest
    only and the browser is sent to the page that carries the token itself.
    `random` stands for `secrets.token_urlsafe(32)`.
   */
  function ResetRequestEffect(p: Primitives, t: Tables, newId: int, email: string, random: string, now: int)
    : (out: (Tables, Response))
    requires EmailsUnique(t.users)
    ensures !EmailTaken(t.users, email) ==> out == (t, ErrorPage(404))
    ensures EmailTaken(t.users, email) ==>
              && out.1 == SeeOther("/reset/" + random)
              && out.0 == t.(resetTokens := t.resetTokens[newId := ResetToken(
                                                 FindUserByEmail(t.users, email).value,
                                                 CreateResetToken(p, random).1,
                                                 now + ResetTokenLifetime, now)])
              && VerifyResetToken(p, random, out.0.resetTokens[newId].tokenHash)
  {
    match FindUserByEmail(t.users, email)
    case None => (t, ErrorPage(404))
    case Some(id) =>
      var (token, tokenHash) := CreateResetToken(p, random);
      (t.(resetTokens := t.resetTokens[newId := ResetToken(id, tokenHash, now + ResetTokenLifetime, now)]),
       SeeOther("/reset/" + token))
  }

  method ResetRequest(p: Primitives, db: Database, email: string, random: string, now: int) returns (resp: Response)
    requires db.Valid()
    modifies db
    ensures db.Valid()
    ensures (db.Contents(), resp) == ResetRequestEffect(p, old(db.Contents()), old(db.nextId), email, random, now)
  {
    var found := FindUserByEmail(db.users, email);
    if found.None? {
      return ErrorPage(404);
    }
    var (token, tokenHash) := CreateResetToken(p, random);
    var id := db.AllocateId();
    db.resetTokens := db.resetTokens[id := ResetToken(found.value, tokenHash, now + ResetTokenLifetime, now)];
    resp := SeeOther("/reset/" + token);
  }

  /** A stored token is still accepted at its expiry time and refused one second later. */
  predicate Expired(token: ResetToken, now: int) {
    token.expiresAt < now
  }

  /** The reset tokens left once every token of `userId` is deleted. */
  function WithoutTokensOf(tokens: map<int, ResetToken>, userId: int): (r: map<int, ResetToken>)
    ensures forall id :: id in r <==> id in tokens && tokens[id].userId != userId
    ensures forall id :: id in r ==> r[id] == tokens[id]
  {
    map id | id in tokens && tokens[id].userId != userId :: tokens[id]
  }

  function ResetConfirmEffect(p: Primitives, t: Tables, token: string, newPassword: string, salt: string, now: int)
    : (out: (Tables, Response))
    ensures |newPassword| < MinPasswordLength ==> out == (t, ErrorPage(400))
    ensures out.0 != t ==> out.1 == SeeOther("/login")
    ensures out.1 == SeeOther("/login") <==>
              && |newPassword| >= MinPasswordLength
              && var m := FindTokenByHash(t.resetTokens, TokenDigest(p, token));
                 m.Unique? && !Expired(t.resetTokens[m.id], now) && t.resetTokens[m.id].userId in t.users
    ensures out.1 == SeeOther("/login") ==>
              var userId := t.resetTokens[FindTokenByHash(t.resetTokens, TokenDigest(p, token)).id].userId;
              && out.0.users == t.users[userId := t.users[userId].(hashedPassword := HashPassword(p, newPassword, salt))]
              && out.0.resetTokens == WithoutTokensOf(t.resetTokens, userId)
              && out.0.services == t.services && out.0.bookings == t.bookings && out.0.reviews == t.reviews
  {
    if |newPassword| < MinPasswordLength then (t, ErrorPage(400))
    else
      match FindTokenByHash(t.resetTokens, TokenDigest(p, token))
      case NoMatch => (t, ErrorPage(400))
      case Several => (t, ErrorPage(500))
      case Unique(id) =>
        var matched := t.resetTokens[id];
        if Expired(matched, now) then (t, ErrorPage(400))
        else if matched.userId !in t.users then (t, ErrorPage(404))
        else
          var u := t.users[matched.userId].(hashedPassword := HashPassword(p, newPassword, salt));
          (t.(users := t.users[matched.userId := u],
              resetTokens := WithoutTokensOf(t.resetTokens, matched.userId)),
           SeeOther("/login"))
  }

  /** A token cannot be used twice: once a reset is confirmed, the same token is refused. */
  lemma TokenSingleUse(p: Primitives, t: Tables, token: string, newPassword: string, salt: string, now: int,
                       again: string, salt2: string, later: int)
    requires ResetConfirmEffect(p, t, token, newPassword, salt, now).1 == SeeOther("/login")
    ensures var t2 := ResetConfirmEffect(p, t, token, newPassword, salt, now).0;
            FindTokenByHash(t2.resetTokens, TokenDigest(p, token)) == NoMatch
    ensures var t2 := ResetConfirmEffect(p, t, token, newPassword, salt, now).0;
            ResetConfirmEffect(p, t2, token, again, salt2, later).1 != SeeOther("/login")
  {
    var m := FindTokenByHash(t.resetTokens, TokenDigest(p, token));
    var t2 := ResetConfirmEffect(p, t, token, newPassword, salt, now).0;
    var userId := t.resetTokens[m.id].userId;
    forall id | id in t2.resetTokens ensures t2.resetTokens[id].tokenHash != TokenDigest(p, token) {
      assert t.resetTokens[id].userId != userId;
      assert id != m.id;
    }
  }

  /**
    Requesting a reset and confirming it with the token from the redirect,
    before the token expires, replaces the password: the new one verifies.
   */
  lemma RequestThenConfirm(p: Primitives, t: Tables, newId: int, email: string, random: string, now: int,
                           newPassword: string, salt: string, later: int)
    requires BcryptSound(p) && EmailsUnique(t.users) && EmailTaken(t.users, email)
    requires newId !in t.resetTokens
    requires forall id :: id in t.resetTokens ==> t.resetTokens[id].tokenHash != TokenDigest(p, random)
    requires |newPassword| >= MinPasswordLength && later <= now + ResetTokenLifetime
    ensures var t1 := ResetRequestEffect(p, t, newId, email, random, now).0;
            var t2 := ResetConfirmEffect(p, t1, random, newPassword, salt, later);
            var userId := FindUserByEmail(t.users, email).value;
            && t2.1 == SeeOther("/login")
            && VerifyPassword(p, newPassword, t2.0.users[userId].hashedPassword)
  {
    var t1 := ResetRequestEffect(p, t, newId, email, random, now).0;
    var userId := FindUserByEmail(t.users, email).value;
    assert forall id :: id in t1.resetTokens && t1.resetTokens[id].tokenHash == TokenDigest(p, random) ==> id == newId;
    assert FindTokenByHash(t1.resetTokens, TokenDigest(p, random)) == Unique(newId);
    HashThenVerify(p, newPassword, salt);
  }

  /** `POST /reset/confirm`; `salt` stands for the salt bcrypt draws. */
  method ResetConfirm(p: Primitives, db: Database, token: string, newPassword: string, salt: string, now: int)
    returns (resp: Response)
    requires db.Valid()
    modifies db
    ensures db.Valid() && db.nextId == old(db.nextId)
    ensures (db.Contents(), resp) == ResetConfirmEffect(p, old(db.Contents()), token, newPassword, salt, now)
  {
    if |newPassword| < MinPasswordLength {
      return ErrorPage(400);
    }
    var tokenHash := TokenDigest(p, token);
    var m := FindTokenByHash(db.resetTokens, tokenHash);
    if m.NoMatch? {
      return ErrorPage(400);
    }
    if m.Several? {
      return ErrorPage(500);
    }
    var matched := db.resetTokens[m.id];
    if Expired(matched, now) {
      return ErrorPage(400);
    }
    if matched.userId !in db.users {
      return ErrorPage(404);
    }
    var userId := matched.userId;
    var u := db.users[userId].(hashedPassword := HashPassword(p, newPassword, salt));
    db.users := db.users[userId := u];
    db.resetTokens := WithoutTokensOf(db.resetTokens, userId);
    resp := SeeOther("/login");
  }
}
