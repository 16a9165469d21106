/**
  The command-line script that creates the administrator account when its
  email is not yet registered.
 */
module CreateAdminScript {
  import opened Wrappers
  import opened Models
  import opened Store
  import opened Security
  import AuthRoutes
  import Http

  // ---------------------------------------------------------------------------
  // create_admin
  // ---------------------------------------------------------------------------

  const AdminEmail: string := "admin@email.com"
  const AdminPassword: string := "admin12345"
  const AdminName: string := "مدير النظام"
  const AdminPhone: string := "0500000000"

  /**
    The account `create_admin` inserts; `salt` is the one bcrypt draws. It is
    an active administrator whose stored hash accepts the fixed password.
   */
  function AdminAccount(p: Primitives, salt: string, now: int): (u: User)
    ensures u.email == AdminEmail && u.role == Admin && u.isActive
    ensures u.fullName == AdminName && u.phone == AdminPhone && u.createdAt == now
    ensures BcryptSound(p) ==> VerifyPassword(p, AdminPassword, u.hashedPassword)
  {
    assert BcryptSound(p) ==> VerifyPassword(p, AdminPassword, HashPassword(p, AdminPassword, salt)) by {
      if BcryptSound(p) {
        HashThenVerify(p, AdminPassword, salt);
      }
    }
    NewUser(AdminEmail, AdminName, HashPassword(p, AdminPassword, salt), now,
            phone := AdminPhone, role := Admin, isActive := true)
  }

  /** The tables after inserting `u` under `newId`, unless its email is already registered. */
  function InsertIfEmailFree(t: Tables, newId: int, u: User): Tables
    requires EmailsUnique(t.users)
  {
    match FindUserByEmail(t.users, u.email)
    case Some(_) => t
    case None => t.(users := t.users[newId := u])
  }

  /** The tables after `create_admin`: unchanged when the email is registered, whatever that user's role. */
  function CreateAdminEffect(p: Primitives, t: Tables, newId: int, salt: string, now: int): (r: Tables)
    requires EmailsUnique(t.users)
    ensures EmailTaken(t.users, AdminEmail) ==> r == t
    ensures !EmailTaken(t.users, AdminEmail) ==> r == t.(users := t.users[newId := AdminAccount(p, salt, now)])
    ensures EmailTaken(r.users, AdminEmail)
  {
    var admin := AdminAccount(p, salt, now);
    assert admin.email == AdminEmail;
    assert !EmailTaken(t.users, AdminEmail) ==> newId in t.users[newId := admin];
    InsertIfEmailFree(t, newId, admin)
  }

  /** Adding the administrator under a new key keeps emails unique when the email was free. */
  lemma AdminInsertKeepsEmailsUnique(p: Primitives, t: Tables, newId: int, salt: string, now: int)
    requires EmailsUnique(t.users) && newId !in t.users
    ensures EmailsUnique(CreateAdminEffect(p, t, newId, salt, now).users)
  {
    if !EmailTaken(t.users, AdminEmail) {
      InsertFreshEmail(t.users, newId, AdminAccount(p, salt, now));
    }
  }

  lemma InsertFreshEmail(users: map<int, User>, id: int, u: User)
    requires EmailsUnique(users) && id !in users && !EmailTaken(users, u.email)
    ensures EmailsUnique(users[id := u])
  {
    assert forall k :: k in users ==> users[k].email != u.email;
  }

  /** Running the script again changes nothing. */
  lemma CreateAdminIdempotent(p: Primitives, t: Tables, newId: int, salt: string, now: int,
                              newId2: int, salt2: string, now2: int)
    requires EmailsUnique(t.users) && newId !in t.users
    ensures EmailsUnique(CreateAdminEffect(p, t, newId, salt, now).users)
    ensures var r := CreateAdminEffect(p, t, newId, salt, now);
            CreateAdminEffect(p, r, newId2, salt2, now2) == r
  {
    AdminInsertKeepsEmailsUnique(p, t, newId, salt, now);
  }

  /**
    A freshly created administrator can log in with the fixed password and
    lands on the admin dashboard.
   */
  lemma CreatedAdminLogsIn(p: Primitives, t: Tables, newId: int, salt: string, now: int, later: int)
    requires BcryptSound(p) && EmailsUnique(t.users) && newId !in t.users
    requires !EmailTaken(t.users, AdminEmail)
    ensures var users := CreateAdminEffect(p, t, newId, salt, now).users;
            && EmailsUnique(users)
            && AuthRoutes.Login(p, users, AdminEmail, AdminPassword, later).response == Http.SeeOther("/admin")
  {
    var users := CreateAdminEffect(p, t, newId, salt, now).users;
    AdminInsertKeepsEmailsUnique(p, t, newId, salt, now);
    assert FindUserByEmail(users, AdminEmail) == Some(newId);
    HashThenVerify(p, AdminPassword, salt);
  }

  /** The insert `create_admin` performs, for any account: look the email up, then add the row if it is free. */
  method AddUserIfEmailFree(db: Database, u: User)
    requires db.Valid()
    modifies db
    ensures db.Valid()
    ensures db.Contents() == InsertIfEmailFree(old(db.Contents()), old(db.nextId), u)
  {
    var existing := FindUserByEmail(db.users, u.email);
    if existing.Some? {
      return;
    }
    ghost var t := db.Contents();
    var id := db.AllocateId();
    InsertFreshEmail(t.users, id, u);
    db.users := db.users[id := u];
  }

  /** `create_admin`. */
  method CreateAdmin(p: Primitives, db: Database, salt: string, now: int)
    requires db.Valid()
    modifies db
    ensures db.Valid()
    ensures db.Contents() == CreateAdminEffect(p, old(db.Contents()), old(db.nextId), salt, now)
  {
    AddUserIfEmailFree(db, AdminAccount(p, salt, now));
  }
}
