# Multi-tenant login backend — a Dafny model

The backend serves many tenant sites from one process. Each tenant is a row
of the `companies` table, keyed by its domain.

- A middleware works out which tenant a request is for from its headers.
- Tenant endpoints check one fixed credential pair and record every login
  attempt in `logs`. They also return a tenant's latest attempts.
- A meta-admin API, gated by a cookie, lists, creates, updates and deletes
  tenants.
- After every successful write, and at start-up, the server regenerates the
  reverse proxy's routing file from the active tenants.
- At start-up, `fillInitDb` seeds two tenants, three sample login attempts
  and the meta-admin account, all through `findOrCreate`.

The model replaces the database with immutable tables: `Tenants.Table`,
`AccessLog.Table` and `Seeding.MetaUsers`. Each table carries its id
sequence and the schema's constraints as a validity predicate. Every
handler is a pure function from the request and the tables to the reply and
the new tables. Instants (`new Date()`), the process environment
(`NODE_ENV`, as a `production` flag), the client's address and user agent,
and the request cookie are parameters.

Modules, in dependency order:

- `Js`: JavaScript truthiness, `||` and `!== undefined` on JSON body fields.
- `Text`: the string operations of the source. These are `includes`, the
  scheme-stripping regular expression, `split(':')[0]`,
  `replace(/\./g, '-')` and `join`.
- `Sorting`: `ORDER BY key [DESC] LIMIT n`, as a stable insertion sort.
- `Tenants`: the `Company` schema and the table operations the handlers
  use.
- `AccessLog`: the `logs` table and its tenant-scoped query.
- `Resolver`: the tenant-resolution middleware and the CORS origin check.
- `Auth`: `POST /api/login` and `GET /api/logs`.
- `MetaAdmin`: `POST /api/meta/login`, `checkMetaAuth` and the four company
  endpoints.
- `Routes`: `updateTraefikRoutes`. It builds the router object with
  JavaScript's key semantics, then renders the YAML file.
- `Seeding`: `fillInitDb`.
- `Server`: start-up, the handlers wired to the middleware and to route
  regeneration, and any sequence of requests.

The CORS check runs before the resolution middleware. In development it
admits only origins that mention `localhost` or `127.0.0.1`, so the
middleware's branch for other origins, which strips the scheme and keeps the
port, is never reached behind it. Both the middleware on its own
(`Resolver.DevelopmentKeepsPort`) and the server as a whole
(`Server.DevelopmentServesOnlyLocalhost`) are stated.

The update endpoint merges the body into the stored row in two ways
(`backend/src/server.js:565-572`). It keeps the old `name`, `domain` and `status`
whenever the new value is falsy, so an empty string also keeps them. It
keeps the old `description` and `logo` only when the new value is
`undefined`, so an empty string clears them (`MetaAdmin.Merge`,
`MetaAdmin.EmptyStringClearsOnlyNullableFields`).

## Model

| member | source | states |
|---|---|---|
| Tenants.ParseStatus | backend/src/models/Company.js:29-31 | a status text is accepted exactly when it is `active`, `inactive` or `suspended`, and the accepted value's label is that text |
| Tenants.ParseStatusInvertsLabel | backend/src/models/Company.js:29-30 | every status's label parses back to that status |
| Tenants.Insert | backend/src/models/Company.js:7-20 | create refuses a domain that is already taken and adds no row, but the id sequence still advances; otherwise it appends the new row with an id no row has; ids stay unique and domains stay unique |
| Tenants.FindByDomain | backend/src/models/Company.js:16-20 | the lookup by domain finds a row exactly when some row has that domain, and the row it returns has it |
| Tenants.FindByDomainUnique | backend/src/models/Company.js:16-20 | in a valid table, looking up any row's domain returns that very row, so at most one tenant answers a domain key |
| Tenants.DomainOwnedOnlyBy | backend/src/models/Company.js:16-20 | no other row of a valid table has a row's domain |
| Tenants.FindById | backend/src/models/Company.js:7-11 | `findByPk` finds a row exactly when the id exists, and returns a row with that id |
| Tenants.FindByIdUnique | backend/src/models/Company.js:7-11 | in a valid table, looking up any row's id returns that row |
| Tenants.UpdateRow | backend/src/server.js:566-572 | an update to a domain another row holds is refused and changes nothing; otherwise only the row with that id changes, its `updatedAt` moves only if a value changed, and the table stays valid |
| Tenants.DeleteRow | backend/src/server.js:613 | deletion removes exactly the row with that id, keeps every other row and keeps the table valid |
| Tenants.ByCreation | backend/src/server.js:479-481 | the listing is a permutation of the rows, ordered by `createdAt` in the requested direction |
| Tenants.ActiveRows | backend/src/server.js:33-35 | the filter keeps exactly the active rows, each as often as it occurs |
| Text.Includes | backend/src/server.js:247 | `includes` holds exactly when the text occurs somewhere in the string |
| Text.StripScheme | backend/src/server.js:265 | the regular expression removes one leading `http://` or `https://` and nothing else; the result is a suffix of the input |
| Text.StripSchemeInvertsHttp | backend/src/server.js:250 | stripping the scheme from `http://` or `https://` plus a host gives back the host |
| Text.BeforeColon | backend/src/server.js:265 | `split(':')[0]` is the longest colon-free prefix: no colon in it, and the input either equals it or continues with a colon |
| Text.BeforeColonOfHostPort | backend/src/server.js:265 | for a colon-free host, `host` and `host:port` both give `host` |
| Text.DotsToDashes | backend/src/server.js:58 | the replacement keeps the length, maps each dot to a dash and leaves every other character in place |
| Text.DotsToDashesCollide | backend/src/server.js:58-87 | two domains give the same router name exactly when they have equal length and differ only where both have a dot or a dash |
| Text.JoinContainsParts | backend/src/server.js:121-131 | every router block occurs in the joined router list |
| Text.JoinLayout | backend/src/server.js:121-131 | `join` places each part and each separator at its offset and ends with the last part; the empty list joins to the empty text |
| Text.JoinIsFramed | backend/src/server.js:115-150 | a joined list between a head and a tail is exactly the head, the parts with separators at their offsets, and the tail |
| Text.PartOffsetsIncrease | backend/src/server.js:121-131 | a later part of a joined list starts after an earlier part and its separator end, so blocks keep their order |
| Sorting.SortBy | backend/src/server.js:363-367 | the ordering is a permutation of its input, sorted by the key in the requested direction |
| Sorting.TopBy | backend/src/server.js:363-367 | `ORDER BY … DESC LIMIT n` returns `min(n, count)` rows, in descending key order, drawn from the input |
| Sorting.TopByKeepsNewest | backend/src/server.js:363-367 | no row left out of the page has a later key than a row on it, and below the limit nothing is left out |
| Sorting.TopByStartsWithNewest | backend/src/server.js:363-367 | a row later than every other row heads the page |
| AccessLog.Append | backend/src/server.js:295-301 | `Log.create` appends one row with a fresh id, the given fields and the current instant, and leaves every earlier row untouched |
| AccessLog.ForCompany | backend/src/server.js:364 | `where: { companyId }` keeps exactly that tenant's rows, each as often as it occurs |
| AccessLog.Newest | backend/src/server.js:363-367 | the log query returns `min(limit, n)` rows for a tenant with `n` rows, drawn from the tenant's own rows without repeating any, newest first; no row of the tenant left off is newer than a returned one; below the limit it returns them all |
| AccessLog.NewestStartsWithLatest | backend/src/server.js:363-367 | an attempt later than every recorded one heads its tenant's page |
| Resolver.DevKey | backend/src/server.js:247-252 | in development, an origin containing `localhost` or `127.0.0.1` anywhere is looked up as `localhost`; any other origin only loses its scheme |
| Resolver.ProdKey | backend/src/server.js:265 | the production key never contains a colon; it is the scheme-stripped header cut at its first colon |
| Resolver.Resolve | backend/src/server.js:232-269 | paths under `/api/meta/` bypass the middleware, and only those do; a missing `Origin` (development) or header (production) gives 400 without a lookup; otherwise the tenant is the lookup of the key, and a found tenant is a row of the table |
| Resolver.ProductionReachesEveryTenant | backend/src/server.js:258-266 | in production every tenant is reached through its own `Host`, with or without a port, and through `X-Company-Domain` whatever `Host` says |
| Resolver.ProductionStripsScheme | backend/src/server.js:265 | in production a scheme in front of the domain still reaches the tenant |
| Resolver.DevelopmentLoopbackIsLocalhost | backend/src/server.js:247-248 | in development any loopback-looking origin is served as the `localhost` tenant |
| Resolver.DevelopmentKeepsPort | backend/src/server.js:249-252 | the middleware on its own looks `http://host:port` up as `host:port`, port included; behind the CORS check this branch is never reached (`Server.DevelopmentServesOnlyLocalhost`) |
| Resolver.CorsAllows | backend/src/server.js:176-225 | a request without `Origin` passes; in development exactly loopback origins pass; in production exactly the three system domains and the domains of active tenants pass |
| Auth.Login | backend/src/server.js:278-351 | without a tenant: 404 and no log row; with one: exactly one row is appended, tagged with the tenant's id, the instant, the client's address and user agent; missing fields give 400, with the name or `unknown` as the username; with both fields the reply is 200 exactly for `admin`/`qwerty123` and 401 otherwise; the row's `success` flag equals the outcome |
| Auth.Logs | backend/src/server.js:354-388 | without a tenant: 404; otherwise `min(50, n)` of the tenant's `n` rows, none repeated, newest first, with no newer row of the tenant left out |
| Auth.LatestAttemptHeadsLogPage | backend/src/server.js:315-321 | a login attempt made after every recorded one is the first row of the tenant's next log page, and its `success` flag says whether the reply was 200 |
| MetaAdmin.Login | backend/src/server.js:424-462 | missing fields give 400; present fields give 200 with the cookie exactly for `admin`/`qwerty` and 401 otherwise; the cookie is `isLogged=true`, lasts 30 days, is HTTP-only and is `secure` exactly in production |
| MetaAdmin.LoginCookieOpensListing | backend/src/server.js:440-474 | the cookie set by a successful login passes `checkMetaAuth`, and with it the listing is answered |
| MetaAdmin.List | backend/src/server.js:465-504 | without the cookie: 401; with it always 200 and every tenant, each once, newest first |
| MetaAdmin.Create | backend/src/server.js:507-549 | without the cookie: 401 and no change; a falsy name or domain: 400 and no change; a taken domain: 500 and no row added; a free domain: 201 with a new row holding the given name and domain, `''` for a missing description or logo, status `active` whatever was sent, a fresh id and the current instant |
| MetaAdmin.CreateIgnoresStatus | backend/src/server.js:514-521 | the `status` sent with a create changes neither the reply nor the table |
| MetaAdmin.Merge | backend/src/server.js:566-572 | the merged row keeps the old name, domain and status for falsy values, and the old description and logo only for `undefined`; a status outside the enum is refused |
| MetaAdmin.Update | backend/src/server.js:552-597 | without the cookie: 401; an unknown id: 404; for an existing id the reply is 500 exactly when the status is outside the enum or the merged domain belongs to another tenant, and 200 with the merged row otherwise, including a change to a free domain; no other row changes; any reply but 200 leaves the table as it was |
| MetaAdmin.Delete | backend/src/server.js:600-629 | without the cookie: 401; an unknown id: 404; otherwise exactly that tenant is removed |
| MetaAdmin.UpdateApplies | backend/src/server.js:557-572 | an update of an existing row that keeps its domain succeeds with the merged row; a merge that changes nothing leaves the table unchanged, `updatedAt` included |
| MetaAdmin.EmptyUpdateChangesNothing | backend/src/server.js:566-572 | an update whose body sets nothing replies with the row as it was and changes nothing |
| MetaAdmin.UpdateIsIdempotent | backend/src/server.js:552-597 | repeating a successful update, at any later instant, gives the same reply and the same table |
| MetaAdmin.EmptyStringClearsOnlyNullableFields | backend/src/server.js:566-572 | empty strings clear the description and logo but keep the name, domain and status |
| MetaAdmin.CreateTwiceFails | backend/src/server.js:517-523 | after a successful create, the same create fails with 500 and adds no row |
| MetaAdmin.ListingReflectsCreateAndDelete | backend/src/server.js:477-504 | a created tenant appears in the listing, and after its deletion no listed tenant has its id |
| Routes.Assign | backend/src/server.js:59 | assigning to an existing key keeps the key order; a new key goes last |
| Routes.AssignLookup | backend/src/server.js:59-88 | after `routes[name] = r`, reading `name` gives `r` and every other key reads as before |
| Routes.AssignKeepsDistinct | backend/src/server.js:59-88 | the object never holds a key twice |
| Routes.RoutedTenants | backend/src/server.js:33-36 | the routed tenants are exactly the active rows, each once, ordered by `createdAt` ascending |
| Routes.RouteNames | backend/src/server.js:53-96 | the router names are the `frontend-` and `api-` names of the active tenants' dashed domains, plus the two `system-` names, with no name twice |
| Routes.RouteCount | backend/src/server.js:53-96 | there are at most 2·(active tenants) + 2 routers, with equality exactly when no two active tenants' domains collide after dots become dashes |
| Routes.RoutesInCreationOrder | backend/src/server.js:33-96 | without collisions, the routers are each active tenant's frontend and API router in `createdAt` order, followed by the two system routers |
| Routes.RoutesServeOnlyActive | backend/src/server.js:33-96 | every router is a system router or the frontend or API router of an active tenant |
| Routes.ActiveTenantRouted | backend/src/server.js:53-78 | an active tenant's router names lead to the routers of an active tenant with the same dashed domain, created no earlier: the last writer wins |
| Routes.ActiveTenantOwnsRoutes | backend/src/server.js:53-78 | without a colliding active tenant, an active tenant's names lead to its own frontend and API routers |
| Routes.SystemRoutesPresent | backend/src/server.js:81-96 | both system routers are always present with their own rules |
| Routes.RoutedInjective | backend/src/server.js:58-69 | routed tenants have pairwise different dashed domains exactly when no two active rows collide |
| Routes.DotAndDashCollide | backend/src/server.js:58-69 | `a.b` and `a-b` get the same router names |
| Routes.TenantBlocksInFile | backend/src/server.js:121-131 | a file holding every router block holds the name line of each active tenant's two routers |
| Routes.RenderYaml | backend/src/server.js:115-150 | every router of the object appears as its own block in the YAML text |
| Routes.RenderYamlLayout | backend/src/server.js:115-150 | the whole file is the stamped header, then each router's block at its offset in the object's order with one newline between neighbours, then the fixed services block, and nothing else |
| Routes.RenderFile | backend/src/server.js:115-150 | the generated file has a frontend and an API router block for every active tenant |
| Routes.UpdateRoutes | backend/src/server.js:24-160 | nothing is written outside production; in production the file lists every active tenant |
| Seeding.FindOrCreateCompany | backend/src/config/fillInitDb.js:8-29 | an existing row with the domain is returned and nothing changes; otherwise exactly one row is appended, built from the defaults with a fresh id and the defaults' status |
| Seeding.FindLog | backend/src/config/fillInitDb.js:53-60 | a row is found exactly when one has the sample's username and company and the current instant |
| Seeding.FindOrCreateLog | backend/src/config/fillInitDb.js:53-60 | a matching row is returned unchanged; otherwise the sample is appended, stamped with the instant of the `where` |
| Seeding.FindOrCreateLogs | backend/src/config/fillInitDb.js:52-61 | the loop only appends, at most one row per sample; when the samples are pairwise apart and none matches a recorded row, it appends all of them in order with consecutive ids |
| Seeding.FindOrCreateMetaUser | backend/src/config/fillInitDb.js:90-96 | an existing `admin` is returned unchanged; otherwise exactly one row is appended, with the given password; usernames stay unique |
| Seeding.SeedCompanies | backend/src/config/fillInitDb.js:8-29 | afterwards tenants for `localhost` and `justcreatedsite.ru` exist; earlier rows are kept in place; at most two rows are added, each one of the two returned tenants and `active` |
| Seeding.SeedLogs | backend/src/config/fillInitDb.js:35-85 | the sample loops append at most three rows and change no earlier row |
| Seeding.Seed | backend/src/config/fillInitDb.js:3-111 | afterwards both tenants and an `admin` meta user exist; every table only grows, tenants by at most two `active` rows for the two seed domains, logs by at most three rows, meta users by at most one `admin` with password `qwerty`; every table stays valid |
| Seeding.SeedLogsAppendsSamples | backend/src/config/fillInitDb.js:52-85 | at instants no recorded row has, all three samples are appended, in order, with consecutive ids, carrying the ids of the two tenants `findOrCreate` returned |
| Seeding.SeedingEmptyDatabase | backend/src/config/fillInitDb.js:8-96 | on an empty database the seeding creates the two default tenants with ids 1 and 2 and status `active`, the three sample rows, and exactly one meta user, `admin`/`qwerty` |
| Seeding.SeedKeepsExistingRows | backend/src/config/fillInitDb.js:8-96 | when both tenants and `admin` exist, the seeding returns the existing rows and leaves the tenant and meta-user tables unchanged, whatever the existing rows hold |
| Seeding.ReseedingDuplicatesOnlySamples | backend/src/config/fillInitDb.js:8-96 | seeding twice leaves tenants and meta users as the first seeding left them, but, at instants no recorded row has, appends the three samples again |
| Seeding.OneMetaAdmin | backend/src/config/fillInitDb.js:90-96 | after seeding there is exactly one meta user named `admin` |
| Seeding.DistinctTenants | backend/src/models/Company.js:7-20 | two rows with different domains have different ids |
| Server.Regenerate | backend/src/server.js:24-36 | regeneration touches no table; outside production it changes nothing; in production the file on disk afterwards matches the current tenants |
| Server.RegenerateWritesRenderedFile | backend/src/server.js:24-152 | the file a regeneration records is the text `updateTraefikRoutes` renders from the current tenants |
| Server.CurrentFileListsActiveTenants | backend/src/server.js:24-160 | a file written from the current tenants lists every active tenant |
| Server.SameRowsSameListing | backend/src/server.js:33-36 | a file that lists the active tenants of one table lists those of any table with the same rows |
| Server.Startup | backend/src/server.js:163-173 | start-up leaves exactly the database the seeding produces, then in production a route file matching the seeded tenants; in development the file is left as it was |
| Server.FreshStartRoutesBothTenants | backend/src/server.js:163-173 | on an empty database in production, start-up routes both seeded tenants |
| Server.LoginRequest | backend/src/server.js:176-351 | a login gets 500 exactly when CORS refuses its `Origin`, and then changes nothing; otherwise it gets 400 exactly when the middleware finds no header, and then changes nothing; otherwise the reply and the appended row are the login handler's for the resolved tenant; no other table changes |
| Server.LogsRequest | backend/src/server.js:176-388 | a log request gets 500 exactly when CORS refuses its `Origin`; otherwise 400 exactly when the header is missing; otherwise the log handler's page for the resolved tenant, holding only that tenant's rows |
| Server.DevelopmentServesOnlyLocalhost | backend/src/server.js:178-248 | in development every login that gets past CORS and the middleware is for the `localhost` tenant: CORS admits only loopback origins, so no other tenant can be signed in to |
| Server.ProductionLoginLandsOnTenant | backend/src/server.js:258-321 | in production the administrator signing in at a tenant's host, with or without a port, is authenticated for that tenant, and a success row for that tenant is appended |
| Server.AdminLoginLogged | backend/src/server.js:308-330 | the administrator's login at a tenant is answered 200 and appends one success row for that tenant |
| Server.ProductionLogsStayWithTenant | backend/src/server.js:258-367 | in production a tenant's log page, asked for at its host, holds only that tenant's rows |
| Server.AfterReply | backend/src/server.js:527 | the route file is regenerated after a successful write and left alone after a refusal or an error |
| Server.CreateRequest | backend/src/server.js:176-549 | an `Origin` CORS refuses gets 500 and changes nothing; otherwise the reply and the tenant table are the create handler's; logs and meta users are untouched; only a 201 rewrites the file; a current file stays current |
| Server.CreatedTenantIsRouted | backend/src/server.js:517-527 | in production a tenant created through the API has both of its routers in the rewritten file |
| Server.UpdateRequest | backend/src/server.js:176-597 | an `Origin` CORS refuses gets 500; otherwise the reply and the tenant table are the update handler's; any reply but 200 changes nothing; a current file stays current |
| Server.DeleteRequest | backend/src/server.js:176-629 | an `Origin` CORS refuses gets 500; otherwise the reply and the tenant table are the delete handler's; any reply but 200 changes nothing; a current file stays current |
| Server.Handle | backend/src/server.js:232-629 | no request breaks the schema's constraints, shortens the log, touches the meta users, or leaves a current route file stale |
| Server.Serve | backend/src/server.js:232-629 | the same holds over any sequence of requests: unique domains and ids throughout, logs only appended, and a route file that keeps listing every active tenant |

## Left out

- Writing the file to disk, the choice of its path, and every `console` call are left out. `Server` records the tenants and the instant each write was rendered from. `Routes.RenderFile` is the text that write produces.
- `dotenv`, `app.listen` and `applyAssociations` are left out: they are process set-up with no logic of the server's own.
- The model assumes that the `logs` table already exists. `initDatabase` (`backend/src/config/sequelize.js:17-19`) creates the tables of the connection that `Company` and `MetaUser` use. `Log` is defined on the connection of `backend/src/config/database.js`, which nothing synchronises. On a database without a `logs` table the first `Log.findOrCreate` throws. Seeding then stops before the `admin` user, start-up skips the route file, and every tenant login and log query answers 500. The model does not cover that database.
- Failures of `updateTraefikRoutes` (swallowed at `server.js:157-159`) and of the start-up sequence (caught at `server.js:170-173`) are left out. Writes never fail in the model, so the reply never depends on them.
- Store failures other than the unique-domain and status-enum violations are left out: lost connections and timeouts are outside the model. So is the `catch` that rethrows them out of `fillInitDb` (`fillInitDb.js:108-111`). Seeding cannot fail in the model.
- `GET /api/company`, `GET /api/health` and the 404 fallbacks (`server.js:391-419`, `632-655`) are left out: they only echo `req.company` or fixed text.
- The unread `services` object (`server.js:40-51`, `99-108`) is left out. The YAML services block is fixed text and is modelled as such.
- JSON body values other than strings, `null` and a missing key are left out. Numbers, booleans and objects are not modelled.
- Concurrency between asynchronous handlers is left out: requests are served one after another.
- The Sequelize library, the associations and the connection settings are left out. `Log.js` and `MetaUser.js` only shape the log and meta-user rows.
- The React front ends are left out. The meta-admin page sends a `status` on create, which the server ignores (`MetaAdmin.Create`).
- Routes.UpdateRoutes: the contract states that every active tenant's router blocks are in the file, not the file's full text. That no other tenant has a router is stated on the router object, by `Routes.RoutesServeOnlyActive`.
- Routes.RenderYaml: YAML quoting is not modelled. A domain containing a quote would give a malformed file in the source too. The layout of the whole text is stated by `Routes.RenderYamlLayout`, not by the function's own contract.
- Routes.RenderFile: the contract states which tenants the file lists. The layout comes from `Routes.RenderYamlLayout`, and the order of the routers from `Routes.RoutesInCreationOrder`.
- Sorting.SortBy: ties in `ORDER BY` have no order in SQL. The model picks the insertion-sort order, and the contracts state only the sortedness and the permutation.
- AccessLog.Newest: for the same reason, the contract fixes which rows of equal timestamp make the page only up to that tie.
- Column widths are left out. `name`, `domain` and `logo` of a tenant and `username` and `ipAddress` of a log row are `VARCHAR(255)`, so Postgres refuses a longer value.
- MetaAdmin.Create: a `name`, `domain` or `logo` longer than 255 characters gets 500 in the source. The model answers as for any other value.
- MetaAdmin.Update: a merged `name`, `domain` or `logo` longer than 255 characters gets 500 in the source. The model answers as for any other value.
- Auth.Login: a username or client address longer than 255 characters gets 500 with no log row in the source. The model answers as for any other value and appends the row.
- MetaAdmin.Update: the path id is taken to be a decimal integer that fits Postgres's `integer` key. A non-numeric id, or one of 2^31 or more, gets 500 in the source. The model takes the id as a natural number and answers 404 when no row has it.
- MetaAdmin.Delete: the path id is taken to be a decimal integer that fits Postgres's `integer` key. A non-numeric id, or one of 2^31 or more, gets 500 in the source. The model answers 404 for an id no row has.
- Seeding.SeedLogs: the contract states the prefix and the three-row bound only. Which samples are appended is stated by `Seeding.SeedLogsAppendsSamples` when the instants are fresh, as with `Seeding.FindOrCreateLogs`.
- Seeding.FindOrCreateLogs: the exact rows appended are stated only when no sample matches a recorded row. Otherwise the contract gives the prefix and the bound.
- Server: `POST /api/meta/login` and `GET /api/meta/companies` have no wrapper behind the CORS check. They change no table. For an admitted origin their replies are those of `MetaAdmin.Login` and `MetaAdmin.List`.
- Express's answer to a CORS refusal is reduced to its status, 500. The body of the default error page is not modelled.
