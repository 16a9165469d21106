/**
  The page routes: the language cookie, the pages a signed-in user is sent
  away from, the checks on a reset link before its form is shown, the
  dashboard counters and the sitemap. The routes that only render a template
  for whoever asks (home, booking form, profile, robots) have nothing to
  check and are not modelled beyond their place in the route table.
 */
module Pages {
  import opened Wrappers
  import opened Models
  import opened Http
  import opened Store
  import opened Security
  import opened Deps
  import Text
  import BookingRoutes
  import AuthRoutes

  // ---------------------------------------------------------------------------
  // Language
  // ---------------------------------------------------------------------------

  const DefaultLang: string := "ar"

  const Languages: set<string> := {"ar", "en"}

  /** The page language: the `lang` cookie as sent, Arabic when there is none. */
  function GetLang(cookie: Option<string>): string {
    cookie.GetOr(DefaultLang)
  }

  /** The writing direction of a language: right-to-left for Arabic only. */
  function Dir(lang: string): string {
    if lang == "ar" then "rtl" else "ltr"
  }

  /** The language part of `_base_context`. */
  datatype LangContext = LangContext(lang: string, dir: string)

  function BaseContext(cookie: Option<string>): (c: LangContext)
    ensures cookie.None? ==> c == LangContext("ar", "rtl")
    ensures cookie.Some? ==> c.lang == cookie.value
    ensures c.dir in {"rtl", "ltr"}
    ensures c.dir == "rtl" <==> c.lang == "ar"
  {
    var lang := GetLang(cookie);
    LangContext(lang, Dir(lang))
  }

  /**
    `GET /set-lang/{lang}`: the redirect back to the referring page (or the
    home page) and the value stored in the `lang` cookie. Anything other than
    the two supported languages is stored as Arabic.
   */
  function SetLanguage(lang: string, referer: Option<string>): (r: (Response, string))
    ensures r.1 in Languages
    ensures r.1 == lang <==> lang in Languages
    ensures lang !in Languages ==> r.1 == DefaultLang
    ensures r.0 == SeeOther(if referer.Some? then referer.value else "/")
  {
    var stored := if lang in Languages then lang else DefaultLang;
    (SeeOther(referer.GetOr("/")), stored)
  }

  /**
    After choosing a language, every page is laid out left-to-right exactly
    when English was chosen; choosing again with the stored value changes
    nothing.
   */
  lemma LanguageChoiceSticks(lang: string, referer: Option<string>, referer2: Option<string>)
    ensures var stored := SetLanguage(lang, referer).1;
            && (BaseContext(Some(stored)).dir == "ltr" <==> lang == "en")
            && SetLanguage(stored, referer2).1 == stored
  {
  }

  // ---------------------------------------------------------------------------
  // Pages for signed-out visitors
  // ---------------------------------------------------------------------------

  /**
    `GET /login`, `GET /register` and `GET /reset`: a visitor whom the session
    cookie identifies is sent to the dashboard, anyone else sees the form.
   */
  function GuestPage(p: Primitives, users: map<int, User>, cookie: Option<string>, now: int, template: string)
    : (r: Response)
    requires EmailsUnique(users)
    ensures r == SeeOther("/dashboard") <==> GetCurrentUser(p, users, cookie, now).Ok?
    ensures r != SeeOther("/dashboard") ==> r == Page(template)
  {
    OptionalAgreesWithRequired(p, users, cookie, now);
    if GetCurrentUserOptional(p, users, cookie, now).Some? then SeeOther("/dashboard") else Page(template)
  }

  /**
    Someone who has just logged in and comes back to the login form within
    the token's lifetime is sent to the dashboard, provided the account is
    active; an inactive account always sees the form.
   */
  lemma SignedInSkipsLoginForm(p: Primitives, users: map<int, User>, id: int, issued: int, now: int,
                               cookie: Option<string>, template: string)
    requires JwtSound(p) && EmailsUnique(users)
    requires id in users && users[id].email != ""
    requires issued <= now <= issued + AccessTokenLifetime
    ensures users[id].isActive ==>
              GuestPage(p, users, Some(CreateAccessToken(p, users[id].email, issued)), now, template) ==
              SeeOther("/dashboard")
    ensures !users[id].isActive && cookie == Some(CreateAccessToken(p, users[id].email, issued)) ==>
              GuestPage(p, users, cookie, now, template) == Page(template)
  {
    var token := CreateAccessToken(p, users[id].email, issued);
    if users[id].isActive {
      IssuedTokenResolves(p, users, id, issued, now);
    } else {
      AccessTokenDecodes(p, users[id].email, issued, now);
      assert FindUserByEmail(users, users[id].email) == Some(id);
    }
  }

  // ---------------------------------------------------------------------------
  // Reset-link pages
  // ---------------------------------------------------------------------------

  /**
    `GET /reset/verify/{token}` and `GET /reset/{token}`: the form is shown
    only when exactly one stored digest is the token's and that stored token
    has not expired. No match and an expired match give 400; two rows with
    the digest make `scalar_one_or_none()` raise, which the generic handler
    turns into 500.
   */
  function ResetTokenPage(p: Primitives, tokens: map<int, ResetToken>, token: string, now: int, template: string)
    : (r: Response)
    ensures r == Page(template) <==>
              && (exists id :: id in tokens && tokens[id].tokenHash == TokenDigest(p, token) &&
                               !AuthRoutes.Expired(tokens[id], now))
              && !TokenHashShared(tokens, TokenDigest(p, token))
    ensures r == ErrorPage(500) <==> TokenHashShared(tokens, TokenDigest(p, token))
    ensures r in {Page(template), ErrorPage(400), ErrorPage(500)}
  {
    var digest := TokenDigest(p, token);
    match FindTokenByHash(tokens, digest)
    case NoMatch => ErrorPage(400)
    case Several => ErrorPage(500)
    case Unique(id) => if AuthRoutes.Expired(tokens[id], now) then ErrorPage(400) else Page(template)
  }

  /**
    The pages and `POST /reset/confirm` apply the same token checks: a link
    the page refuses is refused by the confirmation with the same status and
    no change, and a link the page accepts is accepted by the confirmation
    (which can still fail with 404 when the account is gone).
   */
  lemma PageAgreesWithConfirm(p: Primitives, t: Tables, token: string, newPassword: string, salt: string,
                              now: int, template: string)
    requires |newPassword| >= AuthRoutes.MinPasswordLength
    ensures var page := ResetTokenPage(p, t.resetTokens, token, now, template);
            var out := AuthRoutes.ResetConfirmEffect(p, t, token, newPassword, salt, now);
            && (page != Page(template) ==> out == (t, page))
            && (page == Page(template) ==> out.1 in {SeeOther("/login"), ErrorPage(404)})
  {
  }

  /**
    The link a reset request redirects to shows its form until the token
    expires and is refused afterwards.
   */
  lemma IssuedLinkOpensUntilExpiry(p: Primitives, t: Tables, newId: int, email: string, random: string,
                                   now: int, later: int, template: string)
    requires EmailsUnique(t.users) && EmailTaken(t.users, email)
    requires newId !in t.resetTokens
    requires forall id :: id in t.resetTokens ==> t.resetTokens[id].tokenHash != TokenDigest(p, random)
    ensures var t1 := AuthRoutes.ResetRequestEffect(p, t, newId, email, random, now).0;
            ResetTokenPage(p, t1.resetTokens, random, later, template) ==
              if later <= now + ResetTokenLifetime then Page(template) else ErrorPage(400)
  {
    var t1 := AuthRoutes.ResetRequestEffect(p, t, newId, email, random, now).0;
    assert forall id :: id in t1.resetTokens && t1.resetTokens[id].tokenHash == TokenDigest(p, random) ==>
      id == newId;
    assert FindTokenByHash(t1.resetTokens, TokenDigest(p, random)) == Unique(newId);
  }

  // ---------------------------------------------------------------------------
  // Dashboard counters
  // ---------------------------------------------------------------------------

  /** A booking that still needs work: requested, assigned or in progress. */
  predicate IsOpen(s: BookingStatus) {
    s in {Requested, Assigned, InProgress}
  }

  datatype Counters = Counters(total: nat, active: nat, completed: nat)

  /**
    The bookings the dashboard counts: employees, technicians and drivers
    count every booking, everyone else (an admin included) only their own.
   */
  function DashboardScope(bookings: map<int, Booking>, actor: int, role: Role): (ids: set<int>)
    ensures ids <= bookings.Keys
    ensures IsFieldStaff(role) ==> ids == bookings.Keys
    ensures !IsFieldStaff(role) ==> forall id :: id in ids <==> id in bookings && bookings[id].clientId == actor
  {
    if IsFieldStaff(role) then bookings.Keys
    else set id | id in bookings && bookings[id].clientId == actor
  }

  lemma DisjointPartsFit<T>(a: set<T>, b: set<T>, whole: set<T>)
    requires a <= whole && b <= whole && a * b == {}
    ensures |a| + |b| <= |whole|
  {
    var both := a + b;
    assert whole == (whole - both) + both;
    assert (whole - both) * both == {};
  }

  /** `GET /dashboard`: how many bookings are in scope, how many are open and how many completed. */
  function DashboardCounters(bookings: map<int, Booking>, actor: int, role: Role): (c: Counters)
    ensures var scope := DashboardScope(bookings, actor, role);
            && c.total == |scope|
            && c.active == |set id | id in scope && IsOpen(bookings[id].status)|
            && c.completed == |set id | id in scope && bookings[id].status == Completed|
    ensures c.active + c.completed <= c.total
  {
    var scope := DashboardScope(bookings, actor, role);
    var open := set id | id in scope && IsOpen(bookings[id].status);
    var done := set id | id in scope && bookings[id].status == Completed;
    DisjointPartsFit(open, done, scope);
    Counters(|scope|, |open|, |done|)
  }

  /**
    For everyone but an admin the dashboard total is the length of the
    unfiltered `/bookings` list. An admin's list shows every booking while
    the dashboard counts only the admin's own.
   */
  lemma DashboardTotalMatchesList(bookings: map<int, Booking>, actor: int, role: Role)
    ensures role != Admin ==>
              DashboardCounters(bookings, actor, role).total == |BookingRoutes.ListBookings(bookings, actor, role, None)|
    ensures role == Admin ==>
              && |BookingRoutes.ListBookings(bookings, actor, role, None)| == |bookings.Keys|
              && DashboardCounters(bookings, actor, role).total ==
                   |set id | id in bookings && bookings[id].clientId == actor|
  {
    var listed := set id | id in bookings && BookingRoutes.Listed(bookings, id, actor, role, None);
    assert BookingRoutes.ListBookings(bookings, actor, role, None) == NewestFirst(bookings, listed);
    NewestFirstLength(bookings, listed);
    ListedIsScope(bookings, actor, role, listed);
  }

  /** The unfiltered list covers every booking for an admin and exactly the dashboard's scope for anyone else. */
  lemma ListedIsScope(bookings: map<int, Booking>, actor: int, role: Role, listed: set<int>)
    requires forall id :: id in listed <==> id in bookings && BookingRoutes.Listed(bookings, id, actor, role, None)
    ensures role == Admin ==> listed == bookings.Keys
    ensures role != Admin ==> listed == DashboardScope(bookings, actor, role)
  {
    var scope := DashboardScope(bookings, actor, role);
    forall id | id in bookings
      ensures BookingRoutes.Listed(bookings, id, actor, role, None) <==> (IsStaff(role) || bookings[id].clientId == actor)
    {
      assert BookingRoutes.StatusSelected(bookings[id], None);
    }
    if role == Admin {
      assert IsStaff(role);
      forall id ensures id in listed <==> id in bookings.Keys {
      }
    } else {
      assert IsStaff(role) <==> IsFieldStaff(role);
      forall id ensures id in listed <==> id in scope {
      }
    }
  }

  // ---------------------------------------------------------------------------
  // Sitemap
  // ---------------------------------------------------------------------------

  const HomePath: string := "/"
  const LoginPath: string := "/login"
  const RegisterPath: string := "/register"
  const BookPath: string := "/book"

  /** The paths the sitemap lists, in order. */
  const SitemapPaths: seq<string> := [HomePath, LoginPath, RegisterPath, BookPath]

  const SitemapHead: string :=
    "<?xml version=\"1.0\" encoding=\"UTF-8\"?><urlset xmlns=\"http://www.sitemaps.org/schemas/sitemap/0.9\">"

  const SitemapTail: string := "</urlset>"

  /** The request's base URL without its trailing slashes. */
  function SitemapBase(baseUrl: string): (b: string)
    ensures b == [] || b[|b| - 1] != '/'
    ensures |b| <= |baseUrl| && b == baseUrl[..|b|]
    ensures forall i :: |b| <= i < |baseUrl| ==> baseUrl[i] == '/'
  {
    Text.RStrip(baseUrl, Text.Only('/'))
  }

  function UrlEntry(base: string, path: string): string {
    "<url><loc>" + base + path + "</loc><changefreq>weekly</changefreq></url>"
  }

  /** The sitemap document: one `<url>` element for each of the four public pages, in order. */
  function SitemapDocument(baseUrl: string): (d: string)
    ensures var base := SitemapBase(baseUrl);
            d == SitemapHead +
                 (UrlEntry(base, HomePath) + UrlEntry(base, LoginPath) + UrlEntry(base, RegisterPath) + UrlEntry(base, BookPath)) +
                 SitemapTail
  {
    var base := SitemapBase(baseUrl);
    var items := seq(|SitemapPaths|, i requires 0 <= i < |SitemapPaths| => UrlEntry(base, SitemapPaths[i]));
    Text.JoinFour(items);
    assert items[0] == UrlEntry(base, HomePath) && items[1] == UrlEntry(base, LoginPath);
    assert items[2] == UrlEntry(base, RegisterPath) && items[3] == UrlEntry(base, BookPath);
    SitemapHead + Text.Join(items, "") + SitemapTail
  }

  /** `GET /sitemap.xml`. */
  method SitemapXml(baseUrl: string) returns (content: string)
    ensures content == SitemapDocument(baseUrl)
  {
    var base := SitemapBase(baseUrl);
    var items: seq<string> := [];
    for i := 0 to |SitemapPaths|
      invariant |items| == i
      invariant forall k :: 0 <= k < i ==> items[k] == UrlEntry(base, SitemapPaths[k])
    {
      items := items + [UrlEntry(base, SitemapPaths[i])];
    }
    assert items == seq(|SitemapPaths|, i requires 0 <= i < |SitemapPaths| => UrlEntry(base, SitemapPaths[i]));
    content := SitemapHead + Text.Join(items, "") + SitemapTail;
  }

  /** A base URL with or without a trailing slash gives the same sitemap, so no location holds `//` at the join. */
  lemma SitemapIgnoresTrailingSlash(baseUrl: string)
    ensures SitemapDocument(baseUrl + "/") == SitemapDocument(baseUrl)
    ensures SitemapBase(baseUrl + "/") == SitemapBase(baseUrl)
  {
    var s := baseUrl + "/";
    assert s[..|s| - 1] == baseUrl;
  }

  // ---------------------------------------------------------------------------
  // Route table
  // ---------------------------------------------------------------------------

  /** The page handlers, by the path they are declared for. */
  datatype Handler =
    | SetLanguageRoute | HomeRoute | LoginRoute | RegisterRoute | ResetRequestRoute
    | ResetVerifyRoute | ResetConfirmRoute | ResetSentRoute | ResetDoneRoute
    | DashboardRoute | BookRoute | ProfileRoute | RobotsRoute | SitemapRoute

  /** A path segment of a route: fixed text, or a `{param}` that takes any non-empty segment. */
  datatype Segment = Lit(text: string) | Param

  datatype Route = Route(pattern: seq<Segment>, handler: Handler)

  predicate SegmentMatches(seg: Segment, part: string) {
    match seg
    case Lit(text) => part == text
    case Param => part != "" && '/' !in part
  }

  /** A request path, given as its `/`-separated segments (the root path has none). */
  predicate Matches(pattern: seq<Segment>, path: seq<string>) {
    |pattern| == |path| && forall i :: 0 <= i < |path| ==> SegmentMatches(pattern[i], path[i])
  }

  /** The first route from position `from` on whose pattern matches: routes are tried in declaration order. */
  function FirstMatch(routes: seq<Route>, path: seq<string>, from: nat): (r: Option<nat>)
    requires from <= |routes|
    ensures r.Some? ==> from <= r.value < |routes| && Matches(routes[r.value].pattern, path)
    ensures r.Some? ==> forall j :: from <= j < r.value ==> !Matches(routes[j].pattern, path)
    ensures r.None? <==> forall j :: from <= j < |routes| ==> !Matches(routes[j].pattern, path)
    decreases |routes| - from
  {
    if from == |routes| then None
    else if Matches(routes[from].pattern, path) then Some(from)
    else FirstMatch(routes, path, from + 1)
  }

  /**
    The handler a path is served by: that of the first route, in declaration
    order, whose pattern matches; none (a 404) when no route matches.
   */
  function Dispatch(routes: seq<Route>, path: seq<string>): (h: Option<Handler>)
    ensures h.None? <==> forall j :: 0 <= j < |routes| ==> !Matches(routes[j].pattern, path)
    ensures h.Some? ==>
              exists i :: && 0 <= i < |routes| && Matches(routes[i].pattern, path) && routes[i].handler == h.value
                          && forall j :: 0 <= j < i ==> !Matches(routes[j].pattern, path)
  {
    match FirstMatch(routes, path, 0)
    case None => None
    case Some(i) => Some(routes[i].handler)
  }

  /** The GET routes of the page router in the order they are declared. */
  const DeclaredRoutes: seq<Route> := [
    Route([Lit("set-lang"), Param], SetLanguageRoute),
    Route([], HomeRoute),
    Route([Lit("login")], LoginRoute),
    Route([Lit("register")], RegisterRoute),
    Route([Lit("reset")], ResetRequestRoute),
    Route([Lit("reset"), Lit("verify"), Param], ResetVerifyRoute),
    Route([Lit("reset"), Param], ResetConfirmRoute),
    Route([Lit("reset"), Lit("sent")], ResetSentRoute),
    Route([Lit("reset"), Lit("done")], ResetDoneRoute),
    Route([Lit("dashboard")], DashboardRoute),
    Route([Lit("book")], BookRoute),
    Route([Lit("profile")], ProfileRoute),
    Route([Lit("robots.txt")], RobotsRoute),
    Route([Lit("sitemap.xml")], SitemapRoute)
  ]

  /** The same routes with the two fixed `/reset/...` pages ahead of `/reset/{token}`. */
  const PageRoutes: seq<Route> := [
    Route([Lit("set-lang"), Param], SetLanguageRoute),
    Route([], HomeRoute),
    Route([Lit("login")], LoginRoute),
    Route([Lit("register")], RegisterRoute),
    Route([Lit("reset")], ResetRequestRoute),
    Route([Lit("reset"), Lit("verify"), Param], ResetVerifyRoute),
    Route([Lit("reset"), Lit("sent")], ResetSentRoute),
    Route([Lit("reset"), Lit("done")], ResetDoneRoute),
    Route([Lit("reset"), Param], ResetConfirmRoute),
    Route([Lit("dashboard")], DashboardRoute),
    Route([Lit("book")], BookRoute),
    Route([Lit("profile")], ProfileRoute),
    Route([Lit("robots.txt")], RobotsRoute),
    Route([Lit("sitemap.xml")], SitemapRoute)
  ]

  /** None of the first six page routes matches a two-segment path under `/reset`. */
  lemma NoEarlierResetMatch(routes: seq<Route>, path: seq<string>, j: nat)
    requires |routes| >= 6 && routes[..6] == DeclaredRoutes[..6]
    requires |path| == 2 && path[0] == "reset"
    requires j < 6
    ensures !Matches(routes[j].pattern, path)
  {
    assert routes[j] == DeclaredRoutes[..6][j];
    if j == 0 {
      assert !SegmentMatches(routes[j].pattern[0], path[0]);
    }
  }

  /** The route at `k` handles a path it matches when no route before it does. */
  lemma DispatchAt(routes: seq<Route>, path: seq<string>, k: nat)
    requires k < |routes| && Matches(routes[k].pattern, path)
    requires forall j :: 0 <= j < k ==> !Matches(routes[j].pattern, path)
    ensures Dispatch(routes, path) == Some(routes[k].handler)
  {
    var r := FirstMatch(routes, path, 0);
    assert r.Some?;
    assert r.value <= k;
  }

  /** A route whose paths all match an earlier route never handles a request. */
  lemma ShadowedNeverFirst(routes: seq<Route>, path: seq<string>, a: nat, b: nat)
    requires a < b < |routes|
    requires Matches(routes[b].pattern, path) ==> Matches(routes[a].pattern, path)
    ensures FirstMatch(routes, path, 0) != Some(b)
  {
  }

  /** A `{param}` segment takes every path a literal segment without `/` takes. */
  lemma ParamCoversLiteral(head: string, text: string, path: seq<string>)
    requires text != "" && '/' !in text
    ensures Matches([Lit(head), Lit(text)], path) ==> Matches([Lit(head), Param], path)
  {
    if Matches([Lit(head), Lit(text)], path) {
      assert SegmentMatches(Lit(text), path[1]);
    }
  }

  /**
    In the declared order `/reset/{token}` takes every two-segment path under
    `/reset`, so no request ever reaches the "link sent" or "password
    updated" page: `/reset/sent` is answered by the token check for the
    token `sent`.
   */
  lemma FixedResetPagesShadowed(path: seq<string>)
    ensures Dispatch(DeclaredRoutes, path) != Some(ResetSentRoute)
    ensures Dispatch(DeclaredRoutes, path) != Some(ResetDoneRoute)
  {
    var routes := DeclaredRoutes;
    assert routes[6].pattern == [Lit("reset"), Param];
    assert routes[7].pattern == [Lit("reset"), Lit("sent")];
    assert routes[8].pattern == [Lit("reset"), Lit("done")];
    ParamCoversLiteral("reset", "sent", path);
    ParamCoversLiteral("reset", "done", path);
    ShadowedNeverFirst(routes, path, 6, 7);
    ShadowedNeverFirst(routes, path, 6, 8);
    FixedResetPagesDeclaredOnce();
    DispatchedOnlyVia(routes, path, ResetSentRoute, 7);
    DispatchedOnlyVia(routes, path, ResetDoneRoute, 8);
  }

  /** A handler declared only at position `b` handles a request only when the route at `b` matches first. */
  lemma DispatchedOnlyVia(routes: seq<Route>, path: seq<string>, h: Handler, b: nat)
    requires forall i :: 0 <= i < |routes| && routes[i].handler == h ==> i == b
    requires FirstMatch(routes, path, 0) != Some(b)
    ensures Dispatch(routes, path) != Some(h)
  {
  }

  /** The "link sent" and "password updated" pages are declared once each, at positions 7 and 8. */
  lemma FixedResetPagesDeclaredOnce()
    ensures forall i :: 0 <= i < |DeclaredRoutes| && DeclaredRoutes[i].handler == ResetSentRoute ==> i == 7
    ensures forall i :: 0 <= i < |DeclaredRoutes| && DeclaredRoutes[i].handler == ResetDoneRoute ==> i == 8
  {
  }

  /** In the declared order `/reset/sent`, `/reset/done` and every other `/reset/<token>` reach the token check. */
  lemma SentIsTokenCheck(path: seq<string>)
    requires |path| == 2 && path[0] == "reset" && path[1] != "" && '/' !in path[1]
    ensures Dispatch(DeclaredRoutes, path) == Some(ResetConfirmRoute)
  {
    assert Matches(DeclaredRoutes[6].pattern, path);
    forall j | 0 <= j < 6 ensures !Matches(DeclaredRoutes[j].pattern, path) {
      NoEarlierResetMatch(DeclaredRoutes, path, j);
    }
    DispatchAt(DeclaredRoutes, path, 6);
  }

  /** With the fixed pages first, each of them is reached by its own path. */
  lemma ResetPagesReachable(path: seq<string>)
    requires |path| == 2 && path[0] == "reset"
    ensures path[1] == "sent" ==> Dispatch(PageRoutes, path) == Some(ResetSentRoute)
    ensures path[1] == "done" ==> Dispatch(PageRoutes, path) == Some(ResetDoneRoute)
  {
    forall j | 0 <= j < 6 ensures !Matches(PageRoutes[j].pattern, path) {
      NoEarlierResetMatch(PageRoutes, path, j);
    }
    if path[1] == "sent" {
      assert Matches(PageRoutes[6].pattern, path);
      DispatchAt(PageRoutes, path, 6);
    } else if path[1] == "done" {
      assert Matches(PageRoutes[7].pattern, path);
      assert !SegmentMatches(PageRoutes[6].pattern[1], path[1]);
      DispatchAt(PageRoutes, path, 7);
    }
  }

  /** With the fixed pages first, every other token under `/reset` still reaches the token check. */
  lemma ResetTokensStillChecked(path: seq<string>)
    requires |path| == 2 && path[0] == "reset" && path[1] != "" && '/' !in path[1]
    requires path[1] !in {"sent", "done"}
    ensures Dispatch(PageRoutes, path) == Some(ResetConfirmRoute)
  {
    assert Matches(PageRoutes[8].pattern, path);
    forall j | 0 <= j < 8 ensures !Matches(PageRoutes[j].pattern, path) {
      if j < 6 {
        NoEarlierResetMatch(PageRoutes, path, j);
      } else {
        assert !SegmentMatches(PageRoutes[j].pattern[1], path[1]);
      }
    }
    DispatchAt(PageRoutes, path, 8);
  }
}
