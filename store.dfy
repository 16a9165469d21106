/**
  The database the routes read and write, as one object whose tables are
  maps from primary key to record. Keys are handed out by one counter, so a
  freshly inserted row never collides with an existing or deleted one.
  The database-level guarantees the handlers rely on are the unique index
  on the user email and the one-to-one link from a booking to its review.
 */
module Store {
  import opened Wrappers
  import opened Models

  /** A snapshot of the five tables. */
  datatype Tables = Tables(
    users: map<int, User>,
    services: map<int, Service>,
    bookings: map<int, Booking>,
    reviews: map<int, Review>,
    resetTokens: map<int, ResetToken>)

  /** The unique index on `users.email`. */
  predicate EmailsUnique(users: map<int, User>) {
    forall a, b :: a in users && b in users && users[a].email == users[b].email ==> a == b
  }

  /** A booking navigates to at most one review (`uselist=False`). */
  predicate OneReviewPerBooking(reviews: map<int, Review>) {
    forall a, b :: a in reviews && b in reviews && reviews[a].bookingId == reviews[b].bookingId ==> a == b
  }

  predicate EmailTaken(users: map<int, User>, email: string) {
    exists id :: id in users && users[id].email == email
  }

  predicate HasReview(reviews: map<int, Review>, bookingId: int) {
    exists id :: id in reviews && reviews[id].bookingId == bookingId
  }

  /** `select(User).where(User.email == email)` read with `scalar_one_or_none()`. */
  function FindUserByEmail(users: map<int, User>, email: string): (r: Option<int>)
    requires EmailsUnique(users)
    ensures r.Some? ==> r.value in users && users[r.value].email == email
    ensures r.None? <==> !EmailTaken(users, email)
  {
    if EmailTaken(users, email) then
      var id :| id in users && users[id].email == email;
      Some(id)
    else None
  }

  /** What `scalar_one_or_none()` finds among the reset tokens carrying one hash. */
  datatype TokenMatch = NoMatch | Unique(id: int) | Several

  predicate TokenHashShared(tokens: map<int, ResetToken>, hash: string) {
    exists a, b :: a in tokens && b in tokens && a != b &&
                   tokens[a].tokenHash == hash && tokens[b].tokenHash == hash
  }

  /**
    The reset token whose stored hash is `hash`: none, exactly one, or
    several (the case in which `scalar_one_or_none()` raises).
   */
  function FindTokenByHash(tokens: map<int, ResetToken>, hash: string): (m: TokenMatch)
    ensures m.NoMatch? <==> forall id :: id in tokens ==> tokens[id].tokenHash != hash
    ensures m.Unique? ==> m.id in tokens && tokens[m.id].tokenHash == hash
    ensures m.Unique? ==> forall id :: id in tokens && tokens[id].tokenHash == hash ==> id == m.id
    ensures m.Several? <==> TokenHashShared(tokens, hash)
  {
    if forall id :: id in tokens ==> tokens[id].tokenHash != hash then NoMatch
    else if TokenHashShared(tokens, hash) then Several
    else
      var id :| id in tokens && tokens[id].tokenHash == hash;
      Unique(id)
  }

  // ---------------------------------------------------------------------------
  // `order_by(Booking.created_at.desc())`
  // ---------------------------------------------------------------------------

  /**
    `a` comes before `b` when listing newest first. Rows created in the same
    second come out in an order the database does not fix; the model puts the
    larger key first.
   */
  predicate Before(bookings: map<int, Booking>, a: int, b: int)
    requires a in bookings && b in bookings
  {
    bookings[a].createdAt > bookings[b].createdAt ||
    (bookings[a].createdAt == bookings[b].createdAt && a > b)
  }

  predicate NewestOf(bookings: map<int, Booking>, ids: set<int>, x: int)
    requires ids <= bookings.Keys
  {
    x in ids && forall y :: y in ids && y != x ==> Before(bookings, x, y)
  }

  /** An element of a non-empty set. */
  lemma Pick<T>(s: set<T>) returns (x: T)
    requires s != {}
    ensures x in s
  {
    x :| x in s;
  }

  lemma {:induction false} NewestExists(bookings: map<int, Booking>, ids: set<int>)
    requires ids != {} && ids <= bookings.Keys
    ensures exists x :: NewestOf(bookings, ids, x)
    decreases |ids|
  {
    var x := Pick(ids);
    var rest := ids - {x};
    if rest == {} {
      assert ids == {x};
      assert NewestOf(bookings, ids, x);
    } else {
      NewestExists(bookings, rest);
      var m :| NewestOf(bookings, rest, m);
      if Before(bookings, x, m) {
        forall y | y in ids && y != x ensures Before(bookings, x, y) {
          assert y in rest;
        }
        assert NewestOf(bookings, ids, x);
      } else {
        forall y | y in ids && y != m ensures Before(bookings, m, y) {
          if y != x {
            assert y in rest;
          }
        }
        assert NewestOf(bookings, ids, m);
      }
    }
  }

  /** The keys `ids`, newest booking first. */
  function NewestFirst(bookings: map<int, Booking>, ids: set<int>): (r: seq<int>)
    requires ids <= bookings.Keys
    ensures forall id :: id in r <==> id in ids
    ensures forall i, j :: 0 <= i < j < |r| ==> r[i] in bookings && r[j] in bookings && Before(bookings, r[i], r[j])
    ensures forall i, j :: 0 <= i < j < |r| ==> r[i] != r[j]
    decreases ids
  {
    if ids == {} then []
    else
      NewestExists(bookings, ids);
      var top :| NewestOf(bookings, ids, top);
      var rest := NewestFirst(bookings, ids - {top});
      assert forall j :: 0 <= j < |rest| ==> rest[j] in ids - {top};
      assert forall j :: 0 <= j < |rest| ==> Before(bookings, top, rest[j]);
      [top] + rest
  }

  /** The listing holds each of the keys once. */
  lemma {:induction false} NewestFirstLength(bookings: map<int, Booking>, ids: set<int>)
    requires ids <= bookings.Keys
    ensures |NewestFirst(bookings, ids)| == |ids|
    decreases ids
  {
    var r := NewestFirst(bookings, ids);
    if ids != {} {
      var top := r[0];
      assert r[1..] == NewestFirst(bookings, ids - {top});
      NewestFirstLength(bookings, ids - {top});
    }
  }

  /**
    `recent` is what `order_by(created_at.desc()).limit(n)` may return:
    `n` bookings, or all of them when there are fewer, each once, newest
    first, and none older than a booking left out. Ties are left open.
   */
  predicate NewestSelection(bookings: map<int, Booking>, recent: seq<int>, n: nat) {
    && |recent| == (if |bookings| < n then |bookings| else n)
    && (forall i :: 0 <= i < |recent| ==> recent[i] in bookings)
    && (forall i, j :: 0 <= i < j < |recent| ==> recent[i] != recent[j])
    && (forall i, j :: 0 <= i < j < |recent| ==> bookings[recent[i]].createdAt >= bookings[recent[j]].createdAt)
    && (forall i, id :: 0 <= i < |recent| && id in bookings && id !in recent ==>
          bookings[recent[i]].createdAt >= bookings[id].createdAt)
  }

  /** The first `n` of any newest-first listing of every booking are such a selection. */
  lemma {:induction false} OrderedPrefixSelects(bookings: map<int, Booking>, r: seq<int>, n: nat)
    requires |r| == |bookings|
    requires forall id :: id in r <==> id in bookings
    requires forall i, j :: 0 <= i < j < |r| ==> r[i] != r[j]
    requires forall i, j :: 0 <= i < j < |r| ==>
               r[i] in bookings && r[j] in bookings && bookings[r[i]].createdAt >= bookings[r[j]].createdAt
    ensures NewestSelection(bookings, if |r| <= n then r else r[..n], n)
  {
    var top := if |r| <= n then r else r[..n];
    assert forall i :: 0 <= i < |top| ==> top[i] == r[i];
    forall i, id | 0 <= i < |top| && id in bookings && id !in top
      ensures bookings[top[i]].createdAt >= bookings[id].createdAt
    {
      assert id in r;
      var k :| 0 <= k < |r| && r[k] == id;
      assert i < k;
    }
  }

  /** The first `n` of the newest-first listing are such a selection. */
  lemma NewestPrefixSelects(bookings: map<int, Booking>, n: nat)
    ensures var r := NewestFirst(bookings, bookings.Keys);
            NewestSelection(bookings, if |r| <= n then r else r[..n], n)
  {
    var r := NewestFirst(bookings, bookings.Keys);
    NewestFirstLength(bookings, bookings.Keys);
    assert |bookings.Keys| == |bookings|;
    OrderedPrefixSelects(bookings, r, n);
  }

  class Database {
    var users: map<int, User>
    var services: map<int, Service>
    var bookings: map<int, Booking>
    var reviews: map<int, Review>
    var resetTokens: map<int, ResetToken>
    /** The next primary key to hand out. */
    var nextId: int

    ghost function Contents(): Tables
      reads this
    {
      Tables(users, services, bookings, reviews, resetTokens)
    }

    /** Every key is below the counter. */
    ghost predicate KeysBelow(bound: int)
      reads this
    {
      && (forall id :: id in users ==> id < bound)
      && (forall id :: id in services ==> id < bound)
      && (forall id :: id in bookings ==> id < bound)
      && (forall id :: id in reviews ==> id < bound)
      && (forall id :: id in resetTokens ==> id < bound)
    }

    ghost predicate Valid()
      reads this
    {
      && EmailsUnique(users)
      && OneReviewPerBooking(reviews)
      && KeysBelow(nextId)
    }

    /** Hands out the next primary key, which no table holds yet. */
    method AllocateId() returns (id: int)
      requires Valid()
      modifies this`nextId
      ensures Valid() && id == old(nextId) && nextId == id + 1
      ensures KeysBelow(id)
    {
      id := nextId;
      nextId := nextId + 1;
    }

    /** An empty database, as the test suite leaves it between tests. */
    constructor ()
      ensures Valid()
      ensures Contents() == Tables(map[], map[], map[], map[], map[])
    {
      users, services, bookings, reviews, resetTokens := map[], map[], map[], map[], map[];
      nextId := 1;
    }
  }
}
