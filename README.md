# Anha service booking — a Dafny model

Anha is a small FastAPI web application for booking home services such as
maintenance and cleaning. Visitors register as clients and book a service
from the catalogue, giving contact details and a location picked on a map.
Staff (employees, drivers and technical staff) move bookings through their
statuses. Clients review completed bookings. Administrators manage users,
bookings and the service catalogue. Authentication works like this:

- a bcrypt password hash;
- an HS256 JWT held in the `access_token` cookie;
- one-time password-reset tokens, stored in the database only as SHA-256
  digests.

A per-process middleware limits how many requests each client address may
make in a sliding window.

This project models that core:

| module | file | what it models |
|---|---|---|
| `Models` | `models.dfy` | the persistent records and their enumerations, with column defaults |
| `Store` | `store.dfy` | the database as a `Database` class with one map per table, plus the ORM queries the routers run (lookup by e-mail, lookup by token digest, newest-first ordering) |
| `Security` | `security.dfy` | password hashing with the 72-byte truncation, access tokens, reset tokens |
| `Utf8` | `utf8.dfy` | the UTF-8 encoder, and the lenient decoder that the truncation relies on |
| `Deps` | `deps.dfy` | resolving the current user from the cookie, and role checks |
| `AuthRoutes`, `BookingRoutes`, `AdminRoutes`, `Pages` | `auth.dfy`, `bookings.dfy`, `admin.dfy`, `pages.dfy` | the route handlers |
| `AppMain` | `app_main.dfy` | the rate limiter as a class, the security headers and the HTTP exception handler |
| `StartupSeed` | `init_db.dfy` | the service catalogue seeding |
| `CreateAdminScript` | `create_admin.dfy` | the administrator bootstrap script |
| `TestConfig` | `conftest.dfy` | the test-suite's `.env` reader |
| `MapController` | `map_controller.dfy` | the browser-side map controller's address, sharing and error logic |

`Text` (`text.dfy`) holds the Python string methods the handlers use: `strip`, `lower`, `split` and `int`. `Http` and `Wrappers` hold the shared response and option types.

Each state-changing handler has two parts:

- A pure `…Effect` function from the tables (and the next free row id) to the new tables and the response. Its contract states every branch of the handler: the error responses, the rows changed, and that nothing else changes.
- A method on the `Database` object whose `ensures` ties the new database state and the response to that function.

Lemmas relate handlers to one another. For example, registering and then logging in resolves to the new user, and a reset token works only once. The lemmas also show that invariants such as unique e-mails and one review per booking are preserved.

Hashing and token primitives are parameters (`Security.Primitives`). The lemmas that need a property of bcrypt, of JWT or of SHA-256 state it as a `requires`: `BcryptSound`, `JwtSound` or `Sha256CollisionFree`. Clocks, salts and random tokens are also parameters.

## Model

| member | source | states |
|---|---|---|
| Models.ParseRole | app/models/user.py:10-15 | a parsed role's stored value is the input string |
| Models.RoleValuesRoundTrip | app/models/user.py:10-15 | parsing a role's value gives the role back; exactly the five stored strings parse; there are five roles |
| Models.ParseStatus | app/models/booking.py:10-15 | a parsed status's stored value is the input string |
| Models.StatusValuesRoundTrip | app/models/booking.py:10-15 | parsing a status's value gives it back; exactly the five stored strings parse |
| Models.BookingDefaults | app/models/booking.py:24-33 | a new booking is `requested`, unassigned, without location, with empty description and address |
| Models.UserDefaults | app/models/user.py:24-27 | a new user is an active client with an empty phone |
| Models.ServiceDefaults | app/models/service.py:12-14 | a new service has no English name, no description and price zero |
| Store.FindUserByEmail | app/routers/auth.py:36-38 | finds the user holding an e-mail, and finds none exactly when the e-mail is free |
| Store.FindTokenByHash | app/routers/auth.py:129-133 | no match exactly when no token has the digest; a unique match is the only row with it; several exactly when the digest is shared (`scalar_one_or_none` raises) |
| Store.NewestExists | app/routers/bookings.py:88-95 | every non-empty set of bookings has a newest member |
| Store.NewestFirst | app/routers/bookings.py:88-95 | lists exactly the given bookings, without repeats, in non-increasing creation time |
| Store.NewestFirstLength | app/routers/admin.py:58-63 | the newest-first list has one entry per booking |
| Store.OrderedPrefixSelects | app/routers/admin.py:58-63 | the first n entries of any repeat-free newest-first listing are min(n, size) distinct bookings, newest first, and no booking left out is newer than one kept |
| Store.NewestPrefixSelects | app/routers/admin.py:58-63 | the same holds for the model's newest-first list |
| Store.Database.AllocateId | app/models/user.py:18-21 | a fresh row id above every key in use, and the counter moves past it |
| Store.Database.constructor | app/db/init_db.py:43-48 | the database starts with every table empty |
| Utf8.EncodeAppend | app/core/security.py:16 | UTF-8 encoding of a concatenation is the concatenation of the encodings |
| Utf8.EncodeCharDecodes | app/core/security.py:17 | the decoder reads back every encoded character whatever follows it |
| Utf8.TwoByteDecodes | app/core/security.py:17 | a two-byte sequence decodes to its code point |
| Utf8.ThreeByteDecodes | app/core/security.py:17 | a three-byte sequence decodes to its code point |
| Utf8.FourByteDecodes | app/core/security.py:17 | a four-byte sequence decodes to its code point |
| Utf8.ContinuationsDropped | app/core/security.py:17 | `errors='ignore'` drops stray continuation bytes |
| Utf8.PartialCharDropped | app/core/security.py:16-17 | a character cut short by the slice decodes to nothing |
| Utf8.TakeAppend | app/core/security.py:16 | slicing past a whole prefix keeps it |
| Utf8.TruncateDecodes | app/core/security.py:16-17 | encoding, slicing to k bytes and decoding with `ignore` gives the longest character prefix whose encoding fits in k bytes |
| Utf8.FitPrefixFits | app/core/security.py:16 | that prefix is a prefix of the password and fits the budget |
| Utf8.FitPrefixStops | app/core/security.py:16 | the next character would not fit |
| Utf8.FitPrefixIsLongestFittingPrefix | app/core/security.py:16 | the kept prefix fits, the encoding splits there, and it is maximal |
| Utf8.FitPrefixWhole | app/core/security.py:16 | a budget as large as the encoding keeps the whole text |
| Utf8.EncodeInjective | app/core/security.py:16 | different texts have different encodings |
| Utf8.Encode | app/core/security.py:16 | each character takes one to four bytes |
| Utf8.DecodeIgnore | app/core/security.py:17 | decoding yields at most one character per byte |
| Utf8.DecodeEncode | app/core/security.py:16-17 | decoding with `ignore` gives back the encoded text |
| Security.TruncatePassword | app/core/security.py:16 | the hashed text is the longest prefix of the password that fits in 72 UTF-8 bytes |
| Security.HashThenVerify | app/core/security.py:14-23 | a password verifies against its own hash |
| Security.ShortPasswordKept | app/core/security.py:15-16 | passwords within 72 bytes are hashed whole |
| Security.SuffixBeyondLimitIgnored | app/core/security.py:14-23 | characters after the first 72 bytes change neither the hash nor verification |
| Security.AccessTokenDecodes | app/core/security.py:26-29 | until expiry the access token decodes to its subject, with expiry at issue time plus the lifetime |
| Security.CreateResetToken | app/core/security.py:32-35 | the handed-out token is the random string, and it verifies against the stored digest |
| Security.OnlyIssuedTokenVerifies | app/core/security.py:32-39 | a token verifies against the issued digest exactly when it is the issued token |
| Security.HashPassword | app/core/security.py:14-17 | bcrypt hashes the longest prefix that fits in 72 UTF-8 bytes; a password that fits is hashed whole |
| Security.VerifyPassword | app/core/security.py:20-23 | bcrypt checks that same prefix; a password that fits is checked whole |
| Security.CreateAccessToken | app/core/security.py:26-29 | the token is non-empty and, at issue time, decodes to its subject with expiry one lifetime later |
| Security.TokenDigest | app/core/security.py:34 | no other token has the same digest |
| Security.VerifyResetToken | app/core/security.py:38-39 | against the digest of a token, that token and no other verifies |
| Deps.DecodeToken | app/services/deps.py:13-21 | succeeds exactly when the JWT decodes with a non-empty `sub`, giving that subject; otherwise 401 |
| Deps.ActiveUserByEmail | app/services/deps.py:35-37 | returns an active user with that e-mail; none exactly when every such user is inactive |
| Deps.GetCurrentUser | app/services/deps.py:24-43 | no cookie redirects to /login; a resolved user is active and owns the token's subject; every failure is a redirect to /login or a 401 |
| Deps.RequireRole | app/services/deps.py:46-52 | succeeds exactly for a resolved user whose role is allowed; an authenticated user with another role gets 403 |
| Deps.GetCurrentUserOptional | app/services/deps.py:55-74 | a returned user is active |
| Deps.OptionalAgreesWithRequired | app/services/deps.py:24-74 | the optional lookup finds a user exactly when the required lookup does, and the same one |
| Deps.InactiveNeverResolves | app/services/deps.py:37-42 | a deactivated account is never the current user under any dependency or role set |
| Deps.IssuedTokenResolves | app/services/deps.py:24-43 | a token issued for an active user resolves to that user until it expires |
| AuthRoutes.RegisterEffect | app/routers/auth.py:24-61 | short password or taken e-mail: 400 and no change; otherwise exactly one new row, an active client with the form's e-mail, name and phone, the hashed password and the creation time, and the access cookie for that e-mail |
| AuthRoutes.RegisterIsClientOnly | app/routers/auth.py:42-49 | registration never creates anything but a client |
| AuthRoutes.Register | app/routers/auth.py:24-61 | the database and response are those of `RegisterEffect` |
| AuthRoutes.LandingPage | app/routers/auth.py:76-79 | administrators land on /admin, everyone else on /dashboard |
| AuthRoutes.Login | app/routers/auth.py:64-90 | 401 with no cookie exactly when the e-mail is unknown or the password is wrong; otherwise redirect to the landing page with a token for that user |
| AuthRoutes.RegisterThenLogin | app/routers/auth.py:24-90 | after registering, logging in with the same credentials succeeds, and both cookies resolve to the new user |
| AuthRoutes.ResetRequestEffect | app/routers/auth.py:100-117 | unknown e-mail: 404; otherwise one token row with the digest, the user and expiry now + lifetime, and a redirect to /reset/{token} |
| AuthRoutes.ResetRequest | app/routers/auth.py:100-117 | the database and response are those of `ResetRequestEffect` |
| AuthRoutes.WithoutTokensOf | app/routers/auth.py:141-142 | keeps exactly the tokens of other users, unchanged |
| AuthRoutes.ResetConfirmEffect | app/routers/auth.py:120-144 | a short password gives 400; success exactly for a unique, unexpired token whose user exists; then that password is rehashed, that user's tokens are deleted, and nothing else changes |
| AuthRoutes.TokenSingleUse | app/routers/auth.py:140-142 | after a successful reset the token matches no row and cannot be used again |
| AuthRoutes.RequestThenConfirm | app/routers/auth.py:100-144 | a token requested for an account resets its password before expiry |
| AuthRoutes.ResetConfirm | app/routers/auth.py:120-144 | the database and response are those of `ResetConfirmEffect` |
| BookingRoutes.CreateBookingEffect | app/routers/bookings.py:41-71 | unknown service: 404 and no change; otherwise one new `requested`, unassigned booking owned by the caller that copies the form |
| BookingRoutes.CreateBooking | app/routers/bookings.py:41-71 | the database and response are those of `CreateBookingEffect` |
| BookingRoutes.ListBookings | app/routers/bookings.py:74-103 | lists exactly the bookings the user may see (staff roles: all; everyone else: their own) whose status equals the filter unless it is absent, empty or `all`, newest first, without repeats |
| BookingRoutes.ClientSeesOnlyOwn | app/routers/bookings.py:88-95 | a client's list holds only that client's bookings |
| BookingRoutes.CreateReviewEffect | app/routers/bookings.py:106-127 | someone else's booking or an unknown one: 403; not completed or already reviewed: 400; otherwise exactly one review added |
| BookingRoutes.ReviewKeepsOnePerBooking | app/routers/bookings.py:120-126 | reviewing preserves at most one review per booking |
| BookingRoutes.CreateReview | app/routers/bookings.py:106-127 | the database and response are those of `CreateReviewEffect` |
| BookingRoutes.WithStatus | app/routers/bookings.py:149-156 | sets the status, makes the actor the assignee when the new status is `assigned`, and leaves the rest alone |
| BookingRoutes.UpdateStatusEffect | app/routers/bookings.py:130-158 | non-staff get 403, an unknown booking gives 404, and an unknown status gives 400; otherwise only that booking changes |
| BookingRoutes.AnyStatusToAnyStatus | app/routers/bookings.py:149-156 | staff can move any booking to any status; no transition order is enforced |
| BookingRoutes.UpdateBookingStatus | app/routers/bookings.py:130-158 | the database and response are those of `UpdateStatusEffect` |
| AdminRoutes.RequireAdmin | app/routers/admin.py:37-41 | admits exactly administrators, others get 403 |
| AdminRoutes.RequireAdminIsRequireRole | app/routers/admin.py:37-41 | the admin dependency is the role check with {admin} |
| AdminRoutes.UsersWithRole | app/routers/admin.py:66-69 | exactly the users holding the role |
| AdminRoutes.RoleCounts | app/routers/admin.py:66-69 | one count per role value, equal to the number of users with that role |
| AdminRoutes.AdminDashboard | app/routers/admin.py:45-82 | non-admins are refused; the table sizes, per-role counts, and min(5, n) distinct bookings, newest first, none left out newer than one shown (the order among equal times is left open) |
| AdminRoutes.UpdateUserEffect | app/routers/admin.py:101-122 | non-admin refused, unknown user 404, an invalid role or an e-mail held by another user is a server error; otherwise exactly that user's name, e-mail, role and active flag change |
| AdminRoutes.UpdateUserKeepsEmailsUnique | app/routers/admin.py:101-122 | editing a user keeps e-mails unique |
| AdminRoutes.UpdateUser | app/routers/admin.py:101-122 | the database and response are those of `UpdateUserEffect` |
| AdminRoutes.Unassign | app/routers/admin.py:159-167 | clears exactly the deleted user's assignment |
| AdminRoutes.OwnBookings | app/routers/admin.py:143-147 | exactly the user's own bookings |
| AdminRoutes.DeleteUserTables | app/routers/admin.py:143-169 | removes the user, that user's bookings and their reviews, and unassigns the rest; other tables unchanged |
| AdminRoutes.DeleteUserEffect | app/routers/admin.py:125-171 | non-admin refused, unknown user 404, deleting oneself 400; otherwise the cascade |
| AdminRoutes.DeletedUserLeavesNoBooking | app/routers/admin.py:143-169 | no remaining booking belongs to or is assigned to the deleted user; other bookings and their reviews remain |
| AdminRoutes.DeleteUserKeepsInvariants | app/routers/admin.py:143-169 | the cascade keeps e-mails unique and one review per booking |
| AdminRoutes.DeleteUser | app/routers/admin.py:125-171 | the database and response are those of `DeleteUserEffect` |
| AdminRoutes.CreateUserEffect | app/routers/admin.py:174-197 | non-admin refused, taken e-mail 400, invalid role a server error; otherwise exactly one new row, an active user with the form's e-mail, name, phone and role, the hashed password and the creation time |
| AdminRoutes.AdminCreatesAnyRole | app/routers/admin.py:174-197 | an administrator can create an account with any role |
| AdminRoutes.CreateUser | app/routers/admin.py:174-197 | the database and response are those of `CreateUserEffect` |
| AdminRoutes.AdminListBookings | app/routers/admin.py:201-230 | lists every booking matching the filter ("all" or empty meaning none), newest first, without repeats |
| AdminRoutes.EmployeeOptions | app/routers/admin.py:222-224 | exactly the employees, drivers and technical staff |
| AdminRoutes.EmployeeOptionsExcludeClientsAndAdmins | app/routers/admin.py:222-224 | no client or administrator is offered as an assignee |
| AdminRoutes.AssigneeField | app/routers/admin.py:249-252 | a missing or blank field clears the assignee; otherwise it is the parsed integer, or a failure |
| AdminRoutes.AssigneeFieldOfId | app/routers/admin.py:249-250 | the decimal text of an id assigns that id |
| AdminRoutes.UpdateBookingEffect | app/routers/admin.py:233-256 | non-admin refused, unknown booking 404, a bad status or assignee a server error; otherwise only that booking's status and assignee change |
| AdminRoutes.UpdateBooking | app/routers/admin.py:233-256 | the database and response are those of `UpdateBookingEffect` |
| AdminRoutes.DeleteRowEffect | app/routers/admin.py:259-272 | fails exactly on a missing row; otherwise removes that row only |
| AdminRoutes.DeleteBookingEffect | app/routers/admin.py:259-272 | non-admin refused, unknown booking 404; a booking with a review fails at commit (500) and nothing changes; otherwise exactly that booking is removed |
| AdminRoutes.DeleteBooking | app/routers/admin.py:259-272 | the database and response are those of `DeleteBookingEffect` |
| AdminRoutes.ServiceOf | app/routers/admin.py:290-302 | the service row copies the form fields |
| AdminRoutes.CreateServiceEffect | app/routers/admin.py:290-302 | non-admin refused; otherwise one new service from the form, others unchanged |
| AdminRoutes.CreateService | app/routers/admin.py:290-302 | the database and response are those of `CreateServiceEffect` |
| AdminRoutes.UpdateServiceEffect | app/routers/admin.py:305-325 | non-admin refused, unknown service 404; otherwise only that service is replaced |
| AdminRoutes.UpdateService | app/routers/admin.py:305-325 | the database and response are those of `UpdateServiceEffect` |
| AdminRoutes.DeleteServiceEffect | app/routers/admin.py:328-341 | non-admin refused, unknown service 404; a service some booking refers to fails at commit (500) and nothing changes; otherwise exactly that service is removed |
| AdminRoutes.DeleteService | app/routers/admin.py:328-341 | the database and response are those of `DeleteServiceEffect` |
| AdminRoutes.DeletesKeepReferences | app/models/booking.py:23-40 | deleting a booking or a service never leaves a review without its booking or a booking without its service |
| AdminRoutes.NonAdminChangesNothing | app/routers/admin.py:37-41 | every administrative mutation by a non-admin is refused and leaves the tables unchanged |
| Pages.BaseContext | app/routers/pages.py:21-35 | Arabic right-to-left by default; the cookie's language otherwise; right-to-left exactly for Arabic |
| Pages.SetLanguage | app/routers/pages.py:38-48 | stores the language if it is supported and Arabic otherwise; redirects to the referer or "/" |
| Pages.LanguageChoiceSticks | app/routers/pages.py:38-48 | choosing English gives left-to-right pages, and setting the stored language again keeps it |
| Pages.GuestPage | app/routers/pages.py:63-81 | signed-in users are redirected to /dashboard, everyone else sees the form |
| Pages.SignedInSkipsLoginForm | app/routers/pages.py:63-81 | a fresh token of an active user skips the form; a deactivated user sees it |
| Pages.ResetTokenPage | app/routers/pages.py:84-120 | the page shows exactly for a unique unexpired digest; a shared digest is a 500; otherwise 400 |
| Pages.PageAgreesWithConfirm | app/routers/pages.py:103-120 | where the link page refuses, the confirmation refuses the same way and changes nothing |
| Pages.IssuedLinkOpensUntilExpiry | app/routers/pages.py:84-120 | a freshly issued link opens until its expiry and is refused afterwards |
| Pages.DashboardScope | app/routers/pages.py:142-145 | field staff see every booking, others only their own |
| Pages.DashboardCounters | app/routers/pages.py:150-154 | total, open and completed bookings in scope; open plus completed never exceed the total |
| Pages.DashboardTotalMatchesList | app/routers/pages.py:142-154 | the dashboard total equals the size of the bookings list, except for administrators, who are counted by their own bookings while the list shows all |
| Pages.ListedIsScope | app/routers/pages.py:142-145 | the unfiltered list is the dashboard scope (all bookings for administrators) |
| Pages.SitemapBase | app/routers/pages.py:188 | strips every trailing slash and only those |
| Pages.SitemapXml | app/routers/pages.py:185-200 | the loop builds the sitemap document |
| Pages.SitemapIgnoresTrailingSlash | app/routers/pages.py:185-200 | a trailing slash on the base URL does not change the sitemap |
| Pages.SitemapDocument | app/routers/pages.py:185-200 | one `<url>` element for each of /, /login, /register and /book, in that order, between the urlset head and tail |
| Pages.FirstMatch | app/routers/pages.py:103-130 | the first route matching the path, and none exactly when no route matches |
| Pages.DispatchAt | app/routers/pages.py:103-130 | the first matching route handles the request |
| Pages.Dispatch | app/routers/pages.py:38-200 | the handler of the first declared route whose pattern matches the path; none (404) exactly when no route matches |
| Pages.ShadowedNeverFirst | app/routers/pages.py:103-130 | a route whose matches are covered by an earlier route is never chosen |
| Pages.ParamCoversLiteral | app/routers/pages.py:103-130 | a `{param}` segment matches every literal segment |
| Pages.FixedResetPagesShadowed | app/routers/pages.py:103-130 | as declared, no request reaches /reset/sent or /reset/done |
| Pages.DispatchedOnlyVia | app/routers/pages.py:103-130 | a handler declared once is reached only through its own route |
| Pages.FixedResetPagesDeclaredOnce | app/routers/pages.py:123-130 | each fixed reset page has exactly one route |
| Pages.SentIsTokenCheck | app/routers/pages.py:103-125 | as declared, /reset/sent is treated as a reset token |
| Pages.ResetPagesReachable | app/routers/pages.py:103-130 | with the fixed routes first, /reset/sent and /reset/done reach their pages |
| Pages.ResetTokensStillChecked | app/routers/pages.py:103-120 | with the fixed routes first, every other /reset/{token} still reaches the token check |
| AppMain.EvictCount | app/main.py:35-36 | the loop never evicts more than the queue holds |
| AppMain.EvictCountSplits | app/main.py:35-36 | everything evicted is outside the window and the first kept one is inside it |
| AppMain.EvictCountUnique | app/main.py:35-36 | that split point is the only one |
| AppMain.Evict | app/main.py:35-36 | eviction only shortens the queue |
| AppMain.EvictKeepsWindow | app/main.py:35-36 | on a sorted queue, eviction keeps exactly the timestamps inside the window, still sorted |
| AppMain.EvictFront | app/main.py:35-36 | the `popleft` loop computes the eviction |
| AppMain.Admit | app/main.py:35-41 | refused exactly when the window already holds the maximum; an admitted request's time is appended |
| AppMain.AdmitKeepsQueueInvariant | app/main.py:35-41 | queues stay sorted, bounded by the limit and no later than the clock |
| AppMain.AppendLatest | app/main.py:41 | appending the current time keeps the queue sorted |
| AppMain.AdmittedOnlyBelowLimit | app/main.py:38-41 | an admitted request saw fewer than the maximum in the window, and the queue holds only recent times and now |
| AppMain.StoreUpdateOk | app/main.py:33-41 | updating one client's queue keeps every queue well formed |
| AppMain.AdmitRequest | app/main.py:35-41 | the method computes `Admit` |
| AppMain.RateLimiter.constructor | app/main.py:25 | the limiter starts with an empty store |
| AppMain.RateLimiter.Check | app/main.py:27-42 | updates only the caller's queue (host or "unknown") and refuses with 429 exactly when `Admit` does |
| AppMain.ClientKeysShared | app/main.py:28 | two requests share a queue exactly when their hosts are equal, or one has no client and the other's host is `unknown` |
| AppMain.HandleHttpException | app/main.py:75-103 | redirect statuses with a non-empty Location redirect there; everything else is the error page with the status |
| AppMain.RefusedVisitorsSeeLoginOr401 | app/main.py:75-103 | a failed authentication shows either a redirect to /login or a 401 page |
| AppMain.AddSecurityHeaders | app/main.py:44-66 | the fixed headers are set, HSTS in production only, other headers kept |
| StartupSeed.SeedTable | app/db/init_db.py:47 | one row per catalogue entry, at consecutive ids |
| StartupSeed.SeedTableSize | app/db/init_db.py:47 | the seeded table has exactly the catalogue's size |
| StartupSeed.SeedIfEmpty | app/db/init_db.py:43-48 | a non-empty services table is left alone, an empty one is seeded |
| StartupSeed.InitDbEffect | app/db/init_db.py:43-48 | the same with the eight-entry catalogue; afterwards services are never empty |
| StartupSeed.InitDbIdempotent | app/db/init_db.py:44-46 | running the seed twice is the same as once |
| StartupSeed.SeedAddsTheCatalogue | app/db/init_db.py:7-48 | seeding an empty table adds the eight catalogue services (price zero, no English name) and changes nothing else |
| StartupSeed.SeedAddsAll | app/db/init_db.py:47 | seeding adds exactly the catalogue, in order |
| StartupSeed.SeedServicesHaveNoPrice | app/db/init_db.py:7-40 | the catalogue has eight entries, all unpriced and Arabic-only |
| StartupSeed.SeedServicesIfEmpty | app/db/init_db.py:43-48 | the database becomes `SeedIfEmpty` of the old one |
| StartupSeed.InitDb | app/db/init_db.py:43-48 | the database becomes `InitDbEffect` of the old one |
| CreateAdminScript.CreateAdminEffect | scripts/create_admin.py:32-55 | an existing admin e-mail leaves the tables alone; otherwise exactly the admin account is added; afterwards the e-mail is taken |
| CreateAdminScript.AdminAccount | scripts/create_admin.py:25-52 | an active administrator with the fixed e-mail, name, phone and creation time, whose stored hash accepts the fixed password |
| CreateAdminScript.AdminInsertKeepsEmailsUnique | scripts/create_admin.py:34-55 | the script keeps e-mails unique |
| CreateAdminScript.InsertFreshEmail | scripts/create_admin.py:45-55 | adding a user with a free e-mail keeps e-mails unique |
| CreateAdminScript.CreateAdminIdempotent | scripts/create_admin.py:34-42 | running the script again changes nothing |
| CreateAdminScript.CreatedAdminLogsIn | scripts/create_admin.py:25-55 | the created account logs in with the script's password and lands on /admin |
| CreateAdminScript.AddUserIfEmailFree | scripts/create_admin.py:34-55 | the method performs the guarded insert |
| CreateAdminScript.CreateAdmin | scripts/create_admin.py:21-55 | the database becomes `CreateAdminEffect` of the old one |
| TestConfig.ParseBool | tests/conftest.py:13-16 | missing stays missing; otherwise true exactly for 1/true/yes/on after strip and lower |
| TestConfig.ParseBoolIgnoresCase | tests/conftest.py:16 | letter case does not matter |
| TestConfig.ParseBoolIgnoresSurroundingSpace | tests/conftest.py:16 | surrounding whitespace does not matter |
| TestConfig.StripLower | tests/conftest.py:16 | strip and lower commute |
| TestConfig.StripPadded | tests/conftest.py:16 | stripping ignores added whitespace on both sides |
| TestConfig.ParseLine | tests/conftest.py:25-30 | a line is skipped exactly when blank, a comment or without '='; keys hold no '=' and are trimmed; values carry no outer quote |
| TestConfig.ParseLines | tests/conftest.py:24-30 | parses each line on its own |
| TestConfig.LoadEnvFile | tests/conftest.py:19-32 | a missing file gives an empty map; the loop computes the fold over the lines |
| TestConfig.FoldStep | tests/conftest.py:24-31 | each line updates the map from the previous lines |
| TestConfig.FoldLastWins | tests/conftest.py:31 | a key is present exactly when some line sets it, and holds the value of the last such line |
| TestConfig.LastLineWins | tests/conftest.py:19-32 | the same, stated over the file's lines |
| TestConfig.LineRoundTrip | tests/conftest.py:25-31 | a well-formed `key=value` line parses to that key and value |
| MapController.LocalityOf | app/static/js/controllers/map_controller.js:206 | the first truthy of city, town and village |
| MapController.Collect | app/static/js/controllers/map_controller.js:202-206 | only non-empty parts, none exactly when no field is kept |
| MapController.Parts | app/static/js/controllers/map_controller.js:202-206 | at most four non-empty parts, none exactly when no field qualifies |
| MapController.PartsUnfold | app/static/js/controllers/map_controller.js:203-206 | suburb, neighbourhood, road and locality in that order |
| MapController.CollectParts | app/static/js/controllers/map_controller.js:202-206 | the method builds the parts |
| MapController.FinalAddress | app/static/js/controllers/map_controller.js:200-209 | nothing without a display name or address; the joined parts, or the display name when there are none |
| MapController.AddressNeverBlank | app/static/js/controllers/map_controller.js:200-209 | a written address is never empty |
| MapController.SameNeighbourhoodOmitted | app/static/js/controllers/map_controller.js:204 | a neighbourhood equal to the suburb is not repeated |
| MapController.LocalityPreference | app/static/js/controllers/map_controller.js:206 | city wins over town, town over village |
| MapController.FullAddressOrder | app/static/js/controllers/map_controller.js:202-209 | a full address reads "suburb - neighbourhood - road - city" |
| MapController.EmptyAddressShowsDisplayName | app/static/js/controllers/map_controller.js:208 | an empty address falls back to the display name |
| MapController.Widget.constructor | app/static/js/controllers/map_controller.js:194 | the widget keeps its target flag and field value |
| MapController.Widget.ReverseGeocode | app/static/js/controllers/map_controller.js:193-214 | writes the address field exactly when there is a target and a final address, otherwise leaves it |
| MapController.ShareLocation | app/static/js/controllers/map_controller.js:108-124 | with both coordinates opens the maps URL and reports success; otherwise only the failure message |
| MapController.ShareUrlCarriesCoordinates | app/static/js/controllers/map_controller.js:120 | the coordinates can be read back from the URL |
| MapController.ErrorReason | app/static/js/controllers/map_controller.js:158-162 | one reason per code 1, 2, 3, and the unknown reason otherwise |
| MapController.ErrorMessagesDistinguishCodes | app/static/js/controllers/map_controller.js:158-164 | the three known codes give three different messages |
| MapController.OnGeolocationError | app/static/js/controllers/map_controller.js:156-188 | shows the failure message, and retries with its notice exactly on a timeout |
| Text.LStrip | tests/conftest.py:25 | removes exactly the leading characters of the class |
| Text.RStrip | tests/conftest.py:25 | removes exactly the trailing characters of the class |
| Text.StripKeepsInner | tests/conftest.py:30 | stripping keeps every character outside the class and adds none |
| Text.Lower | tests/conftest.py:16 | same length, each character lowered |
| Text.IndexOf | tests/conftest.py:28 | the first occurrence, none exactly when absent |
| Text.SplitOnce | tests/conftest.py:28 | splits at the first separator, with none in the key |
| Text.SplitOnceAt | tests/conftest.py:28 | splitting a joined pair gives it back |
| Text.NatToStringValue | app/routers/admin.py:250 | decimal text of a number reads back as that number |
| Text.ParseIntOfNat | app/routers/admin.py:250 | `int` of the decimal text of a number is that number |
| Text.ParseInt | app/routers/admin.py:250 | what parses is, once stripped, an optional sign then digits and single underscores ending in a digit; only a leading `-` gives a negative value |

## Left out

- The ORM, SQL, sessions and transactions: tables are maps keyed by row id. The commits that fail are modelled as the 500 page with the tables unchanged: a duplicate e-mail in `update_user`, deleting a booking that has a review, and deleting a service that bookings refer to (the ORM would set the NOT NULL `booking_id` or `service_id` to NULL). Other foreign keys are not enforced, as SQLite, the default database, does not enforce them.
- Row ids come from one counter shared by all tables. SQLite's per-table rowids, and reuse after deletion, are not modelled; the only property used is that a new id is fresh.
- Strings are sequences of characters. `strip()` removes Python's whitespace characters (those for which `str.isspace()` holds). `lower()` is modelled for ASCII letters only, and `int()` for ASCII digits with `_` separators and an optional sign.
- FastAPI's request validation (422 for a missing or ill-typed form field) is not modelled: handlers receive typed forms.
- Templates, translations, profiles, cookie attributes (max-age, httponly, samesite), GZip and static files are not modelled. A rendered page is its template name.
- `reset_request` redirects straight to the reset link instead of e-mailing it, and the model does the same. `app/services/email.py` is not part of this model.
- Prices and coordinates are opaque `Float` values. Ratings are integers, and any integer is stored: the review route takes `rating` as a plain form integer, and the bounded `ReviewCreate` schema is never used.
- Concurrency between requests is not modelled. Each handler runs atomically.
- bcrypt salts, `secrets.token_urlsafe`, `datetime.utcnow()` and `monotonic()` are parameters. The rate limiter's float clock is an integer clock.
- Bookings with equal creation times: the database's order among them is unspecified. The model's listing breaks such ties by the larger id, but the contracts of `ListBookings`, `AdminListBookings` and `AdminDashboard` state only non-increasing creation time and leave the order among ties open.
- Reset tokens of a deleted user stay in their table, as in the source on SQLite. A database that enforces foreign keys would refuse that commit; that failure is not modelled.
- Render-only pages are not modelled: `home`, `book`, `profile`, `robots.txt`, admin `list_users` and admin `list_services`. They only read tables and fill templates.
- The rate-limit settings are constructor parameters of `RateLimiter`.
- The generic `Exception` handler and the startup hook's `create_all` are not modelled. The seeding it calls is `StartupSeed.InitDb`.
- Map controller: Leaflet map setup, markers, the successful geolocation callback, the accuracy text and the loading spinner are not modelled. Network failures of `fetch` are modelled as a missing reply.
- `FinalAddress`: a reply with a display name but no `address` object throws in the source, and the `catch` leaves the field alone. The model gives `None` for it, which has the same effect on the field.
- BookingRoutes.UpdateStatusEffect: does not check that the assignee of an `assigned` booking is field staff, because the source does not check it either.
- AdminRoutes.UpdateBookingEffect: does not check that the chosen assignee exists or is staff, because the source stores any integer.
- Deps.GetCurrentUserOptional: its own contract only states that the user is active; the full agreement with `GetCurrentUser` is the lemma `OptionalAgreesWithRequired`.
- The test fixtures in `tests/conftest.py` beyond the two helpers start databases and servers; they are not modelled.

## Findings

| source | as written | input that shows it | evidently intended | confidence | as-written member | corrected member |
|---|---|---|---|---|---|---|
| app/routers/pages.py:103-130 | `/reset/{token}` is declared before `/reset/sent` and `/reset/done`, and the first matching route wins | GET /reset/sent is handled as the token "sent" and answered with 400 | the fixed "email sent" and "password updated" pages are reachable | not executed | Pages.FixedResetPagesShadowed | Pages.ResetPagesReachable |
