/**
  The application-wide layer: the in-memory sliding-window rate limiter that
  runs before every route, the rule that turns an `HTTPException` into a
  redirect or an error page, and the security headers added to every reply.
 */
module AppMain {
  import opened Wrappers
  import opened Http
  import opened Deps
  import opened Security
  import Models
  import Store

  // ---------------------------------------------------------------------------
  // Rate limiter
  // ---------------------------------------------------------------------------

  /** The key of a request without a known client address. */
  const UnknownClient: string := "unknown"

  /** The rate limiter's key: the client's address, or `unknown` without one. */
  function ClientKey(host: Option<string>): string {
    host.GetOr(UnknownClient)
  }

  /**
    Two requests share a queue exactly when their addresses are equal, or one
    has no address and the other's address is the text `unknown`.
   */
  lemma ClientKeysShared(a: Option<string>, b: Option<string>)
    ensures ClientKey(a) == ClientKey(b) <==>
              || a == b
              || (a.None? && b == Some(UnknownClient))
              || (a == Some(UnknownClient) && b.None?)
  {
  }

  predicate Sorted(q: seq<int>) {
    forall i, j :: 0 <= i < j < |q| ==> q[i] <= q[j]
  }

  /**
    How many timestamps eviction drops from the front of the queue: a
    timestamp is dropped when it lies strictly more than `window` ticks
    before `now`, so one exactly a window old stays, and eviction stops at
    the first timestamp that stays.
   */
  function EvictCount(q: seq<int>, now: int, window: int): (n: nat)
    ensures n <= |q|
  {
    if q != [] && now - q[0] > window then EvictCount(q[1..], now, window) + 1 else 0
  }

  /** Eviction drops only old timestamps, and stops at the first one within the window. */
  lemma {:induction false} EvictCountSplits(q: seq<int>, now: int, window: int)
    ensures var n := EvictCount(q, now, window);
            && (forall i :: 0 <= i < n ==> now - q[i] > window)
            && (n < |q| ==> now - q[n] <= window)
  {
    if q != [] && now - q[0] > window {
      EvictCountSplits(q[1..], now, window);
      var n := EvictCount(q[1..], now, window);
      assert forall i :: 1 <= i < n + 1 ==> q[i] == q[1..][i - 1];
    }
  }

  /** The queue once the old timestamps are dropped from its front. */
  function Evict(q: seq<int>, now: int, window: int): (r: seq<int>)
    ensures |r| <= |q|
  {
    q[EvictCount(q, now, window)..]
  }

  /**
    On a queue in time order, eviction keeps exactly the timestamps within
    the window, in their order.
   */
  lemma EvictKeepsWindow(q: seq<int>, now: int, window: int)
    requires Sorted(q)
    ensures forall x :: x in Evict(q, now, window) <==> x in q && now - x <= window
    ensures Sorted(Evict(q, now, window))
  {
    var n := EvictCount(q, now, window);
    EvictCountSplits(q, now, window);
    var r := q[n..];
    forall x | x in q && now - x <= window ensures x in r {
      var i :| 0 <= i < |q| && q[i] == x;
      assert i >= n;
      assert r[i - n] == x;
    }
    forall x | x in r ensures now - x <= window {
      var i :| 0 <= i < |r| && r[i] == x;
      assert q[n] <= q[n + i];
    }
  }

  /**
    What the limiter does with the queue of one client: after eviction, a
    full queue refuses the request and records nothing, otherwise the
    request is let through and `now` is appended.
   */
  function Admit(q: seq<int>, now: int, window: int, maxRequests: int): (r: (bool, seq<int>))
    ensures !r.0 <==> |Evict(q, now, window)| >= maxRequests
    ensures !r.0 ==> r.1 == Evict(q, now, window)
    ensures r.0 ==> r.1 == Evict(q, now, window) + [now]
  {
    var kept := Evict(q, now, window);
    if |kept| >= maxRequests then (false, kept) else (true, kept + [now])
  }

  /** The most timestamps a queue can hold. */
  function Capacity(maxRequests: int): nat {
    if maxRequests < 0 then 0 else maxRequests
  }

  /** A queue within capacity, in time order, holding no timestamp later than `clock`. */
  predicate QueueOk(q: seq<int>, capacity: nat, clock: int) {
    |q| <= capacity && Sorted(q) && forall i :: 0 <= i < |q| ==> q[i] <= clock
  }

  /**
    Admission keeps a queue within capacity, in time order and made of
    timestamps no later than the clock, provided the clock never runs
    backwards.
   */
  lemma AdmitKeepsQueueInvariant(q: seq<int>, clock: int, now: int, window: int, maxRequests: int)
    requires QueueOk(q, Capacity(maxRequests), clock) && clock <= now
    ensures QueueOk(Admit(q, now, window, maxRequests).1, Capacity(maxRequests), now)
  {
    var kept := Evict(q, now, window);
    var n := EvictCount(q, now, window);
    assert forall i :: 0 <= i < |kept| ==> kept[i] == q[n + i];
    assert Sorted(kept);
    if |kept| < maxRequests {
      AppendLatest(kept, now);
    }
  }

  /** Appending a timestamp no earlier than any in a time-ordered queue keeps it in order. */
  lemma AppendLatest(q: seq<int>, now: int)
    requires Sorted(q) && forall i :: 0 <= i < |q| ==> q[i] <= now
    ensures Sorted(q + [now])
  {
    var r := q + [now];
    forall i, j | 0 <= i < j < |r| ensures r[i] <= r[j] {
      if j < |q| {
        assert r[i] == q[i] && r[j] == q[j];
      }
    }
  }

  /**
    Within one window no client gets more than `maxRequests` requests
    through: a request is admitted only while fewer than that many admitted
    timestamps lie in the window ending at `now`.
   */
  lemma AdmittedOnlyBelowLimit(q: seq<int>, now: int, window: int, maxRequests: int)
    requires Sorted(q)
    requires Admit(q, now, window, maxRequests).0
    ensures |Evict(q, now, window)| < maxRequests
    ensures forall x :: x in Admit(q, now, window, maxRequests).1 ==> x == now || (x in q && now - x <= window)
  {
    EvictKeepsWindow(q, now, window);
  }

  /** The number of dropped timestamps is determined: any prefix of old timestamps followed by one that stays has that length. */
  lemma {:induction false} EvictCountUnique(q: seq<int>, now: int, window: int, d: nat)
    requires d <= |q|
    requires forall i :: 0 <= i < d ==> now - q[i] > window
    requires d < |q| ==> now - q[d] <= window
    ensures d == EvictCount(q, now, window)
  {
    if d > 0 {
      assert now - q[0] > window;
      assert forall i :: 0 <= i < d - 1 ==> q[1..][i] == q[i + 1];
      EvictCountUnique(q[1..], now, window, d - 1);
    }
  }

  /** The `popleft` loop: drop timestamps from the front while they are older than the window. */
  method EvictFront(q0: seq<int>, now: int, window: int) returns (q: seq<int>)
    ensures q == Evict(q0, now, window)
  {
    q := q0;
    ghost var dropped := 0;
    while q != [] && now - q[0] > window
      invariant 0 <= dropped <= |q0| && q == q0[dropped..]
      invariant forall i :: 0 <= i < dropped ==> now - q0[i] > window
      decreases |q|
    {
      q := q[1..];
      dropped := dropped + 1;
    }
    EvictCountUnique(q0, now, window, dropped);
  }

  /** Every client's queue is fine. */
  predicate StoreOk(store: map<string, seq<int>>, capacity: nat, clock: int) {
    forall k :: k in store ==> QueueOk(store[k], capacity, clock)
  }

  /** Replacing one client's queue by a fine one, at a later clock reading, keeps the store fine. */
  lemma StoreUpdateOk(store: map<string, seq<int>>, capacity: nat, clock: int, now: int, key: string, q: seq<int>)
    requires StoreOk(store, capacity, clock) && clock <= now && QueueOk(q, capacity, now)
    ensures StoreOk(store[key := q], capacity, now)
  {
    var updated := store[key := q];
    forall k | k in updated ensures QueueOk(updated[k], capacity, now) {
      if k != key {
        assert QueueOk(store[k], capacity, clock);
      }
    }
  }

  /** One client's step of the middleware: evict, then refuse or record `now`. */
  method AdmitRequest(q0: seq<int>, now: int, window: int, maxRequests: int) returns (admitted: bool, q: seq<int>)
    ensures (admitted, q) == Admit(q0, now, window, maxRequests)
  {
    q := EvictFront(q0, now, window);
    admitted := |q| < maxRequests;
    if admitted {
      q := q + [now];
    }
  }

  /** `_rate_limit_store` with the limiter's settings and the monotonic clock it reads. */
  class RateLimiter {
    var store: map<string, seq<int>>
    const window: int
    const maxRequests: int
    /** The latest clock reading seen; the clock never goes back. */
    ghost var clock: int

    ghost predicate Valid()
      reads this
    {
      StoreOk(store, Capacity(maxRequests), clock)
    }

    constructor(window: int, maxRequests: int, start: int)
      ensures Valid()
      ensures store == map[] && this.window == window && this.maxRequests == maxRequests && clock == start
    {
      store := map[];
      this.window := window;
      this.maxRequests := maxRequests;
      clock := start;
    }

    /**
      The `rate_limit` middleware for one request: `Some(429 reply)` when the
      client is over the limit, `None` when the request goes on to its route.
     */
    method Check(host: Option<string>, now: int) returns (refused: Option<Response>)
      requires Valid() && clock <= now
      modifies this
      ensures Valid() && clock == now
      ensures var key := ClientKey(host);
              var q := if key in old(store) then old(store)[key] else [];
              && store == old(store)[key := Admit(q, now, window, maxRequests).1]
              && (refused.None? <==> Admit(q, now, window, maxRequests).0)
              && (refused.Some? ==> refused.value == Message(429))
    {
      var key := ClientKey(host);
      var q0 := if key in store then store[key] else [];
      var admitted, next := AdmitRequest(q0, now, window, maxRequests);
      var capacity := Capacity(maxRequests);
      AdmitKeepsQueueInvariant(q0, clock, now, window, maxRequests);
      var updated := store[key := next];
      StoreUpdateOk(store, capacity, clock, now, key, next);
      assert StoreOk(updated, capacity, now);
      store := updated;
      clock := now;
      assert StoreOk(store, capacity, clock);
      refused := if admitted then None else Some(Message(429));
    }
  }

  // ---------------------------------------------------------------------------
  // HTTPException handler
  // ---------------------------------------------------------------------------

  const RedirectCodes: set<nat> := {301, 302, 303, 307, 308}

  /**
    `http_exception_handler`: a redirect status with a non-empty `Location`
    header becomes that redirect; every other exception becomes the error
    page with the exception's status.
   */
  function HandleHttpException(e: HttpException): (r: Response)
    ensures r.Redirect? <==> e.status in RedirectCodes && Truthy(e.location)
    ensures r.Redirect? ==> r.status == e.status && r.url == e.location.value
    ensures !r.Redirect? ==> r == ErrorPage(e.status)
  {
    if e.status in RedirectCodes && Truthy(e.location) then Redirect(e.status, e.location.value)
    else ErrorPage(e.status)
  }

  /**
    A protected page refused by `get_current_user` is answered either with a
    303 to the login page (no cookie, unknown or inactive user) or with the
    401 error page (a token that does not decode or has no subject).
   */
  lemma RefusedVisitorsSeeLoginOr401(p: Primitives, users: map<int, Models.User>, cookie: Option<string>, now: int)
    requires Store.EmailsUnique(users)
    requires GetCurrentUser(p, users, cookie, now).Err?
    ensures HandleHttpException(GetCurrentUser(p, users, cookie, now).error) in {SeeOther("/login"), ErrorPage(401)}
  {
  }

  // ---------------------------------------------------------------------------
  // Security headers
  // ---------------------------------------------------------------------------

  const ContentSecurityPolicy: string :=
    "default-src 'self'; "
    + "script-src 'self' 'unsafe-inline' https://unpkg.com https://cdnjs.cloudflare.com; "
    + "style-src 'self' 'unsafe-inline' https://fonts.googleapis.com https://unpkg.com; "
    + "font-src 'self' https://fonts.gstatic.com; "
    + "img-src 'self' data: https://*.tile.openstreetmap.org https://unpkg.com; "
    + "connect-src 'self'; "
    + "frame-ancestors 'none';"

  /** The headers `add_security_headers` sets on every reply. */
  const FixedHeaders: map<string, string> := map[
    "X-Content-Type-Options" := "nosniff",
    "X-Frame-Options" := "DENY",
    "X-XSS-Protection" := "1; mode=block",
    "Referrer-Policy" := "strict-origin-when-cross-origin",
    "Content-Security-Policy" := ContentSecurityPolicy
  ]

  const Hsts: string := "Strict-Transport-Security"

  const HstsValue: string := "max-age=31536000; includeSubDomains"

  /** `add_security_headers`: the reply's headers with the security headers set on top. */
  function AddSecurityHeaders(headers: map<string, string>, environment: string): (r: map<string, string>)
    ensures forall k :: k in FixedHeaders ==> k in r && r[k] == FixedHeaders[k]
    ensures environment == "production" ==> Hsts in r && r[Hsts] == HstsValue
    ensures environment != "production" ==> (Hsts in r <==> Hsts in headers)
    ensures forall k :: k in headers && k !in FixedHeaders && (k != Hsts || environment != "production") ==>
              k in r && r[k] == headers[k]
    ensures r.Keys <= headers.Keys + FixedHeaders.Keys + {Hsts}
  {
    var withFixed := headers + FixedHeaders;
    if environment == "production" then withFixed[Hsts := HstsValue] else withFixed
  }
}
