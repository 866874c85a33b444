# Finearr core, modelled in Dafny

Finearr is a small media-request portal. Plex users sign in and ask for movies
or shows. Administrators approve or deny the requests, and approved items are
passed on to Radarr (movies) or Sonarr (shows). This project models the part
of the system that keeps and changes state.

- **The server's ledger** (`server.js`). A store holds the six data documents:
  admins, users, permissions, requests, approvals and the blacklist. The
  `Server.Store` class has one method per handler. Each method says what the
  handler answers and what it leaves in the store. The store keeps two
  invariants:
  - the approvals history holds at most twenty entries;
  - every pending and blacklisted entry sits in the list its type selects.
- **The pure rules behind the handlers.** These live in modules `Ledger` and
  `Accounts`:
  - which list a `type` selects;
  - the policy that applies to a user (a per-user override replaces the
    defaults as a whole);
  - how an entry is found, removed or filtered by id;
  - how the approvals are cut to the newest twenty;
  - which downloader an approved item goes to;
  - the admin-account lookups;
  - the shallow merge of a permissions update;
  - the session-token and background rules of a Plex login.
- **The browser state** (`public/app.js`), as class `Client.ClientState`:
  - the recent-releases pager and its de-duplication by id;
  - the poster cache;
  - the active view;
  - the admin session and the `X-Admin-Token` header.
- **The card and blacklist formatters** (`public/app.js`), in module
  `Formatters`.

JavaScript falsiness is written out. A string the code tests for truthiness is
`""` when it is missing. A permission flag is an `Option<bool>`, and only
`Some(true)` lets a request through. These outside inputs are parameters:
- the Plex validation call;
- the clock;
- the random part of a session token;
- whether the downloader call succeeds;
- the server's answer to the browser.

Where the code behaves in ways a reader might not expect, the model follows the code:
- **Overrides replace the defaults.** A user override replaces the defaults
  as a whole. A flag the override leaves out denies the request; it does not
  fall back to the default.
- **The downloader call is awaited.** When that call rejects, the approval is
  already saved and no answer is sent (`Unanswered`).
- **Admin login issues no token.** The server's admin login answers without a
  token, and no server route checks `X-Admin-Token`. The client stores the
  missing token, so its admin and requests views keep sending the page home
  (`Client.AdminViewsAfterLogin`).
- **A second decision on the same id can succeed.** Approving or denying an id
  a second time answers 404 only when that id was pending once. Submitting
  does not de-duplicate, so a second pending copy can still be found
  (`Ledger.SecondDecisionNotFound`).
- **Only the first page counts.** The recent-releases endpoint
  (server.js:199-203) ignores the page number, so page 1 repeats page 0 and the
  pager stops at its first scroll. The model does not show this, because the
  fetched page is a parameter of the pager.
- **A `null` in a permissions update is stored.** A flag sent as `null`
  replaces the stored flag and then denies. A user override sent as `null`
  replaces the user's override, and the user then falls back to the defaults.
- **No PIN endpoints.** `server.js` has no `/api/auth/plex/pin` endpoints, so
  they are not modelled.

## Model

| member | source | states |
|---|---|---|
| Records.Lists.Put | server.js:238 | storing a list under one key sets that list and leaves the other key's list as it was |
| Records.LoadData | server.js:46-51 | a present document is taken as stored; a missing, unreadable or falsy one gives the fallback |
| Ledger.ListKey | server.js:248 | the `movies` list is selected exactly when the type is `movie`; every other type selects `shows` |
| Ledger.EffectivePolicy | server.js:215 | the user's override when one is stored, the defaults when none is or when it is `null` |
| Ledger.CanRequest | server.js:220 | a movie is allowed exactly when the movie flag is `true`, any other type exactly when the show flag is |
| Ledger.OverrideIsWholesale | server.js:215-220 | a user with an override gets exactly that override whatever the defaults are, and a flag missing from it denies |
| Ledger.NoOverrideUsesDefaults | server.js:215-220 | a user without an override, or with a `null` one, is allowed, and auto-approved, exactly as the defaults say |
| Ledger.FirstIndexOf | server.js:249 | the result is -1 exactly when no entry has the id, and otherwise the index of the first entry that has it |
| Ledger.CountIdZero | server.js:249 | no entry is counted with the id exactly when the lookup finds none |
| Ledger.CountIdAppend | server.js:238 | counting entries with an id over a concatenation adds the two counts |
| Ledger.RemoveAt | server.js:253 | the splice keeps the entries before the index and shifts those after it down by one |
| Ledger.RemoveFirstMatch | server.js:249-253 | removing the found entry shortens the list by one, loses one copy of it from the multiset, and leaves one fewer entry with the id |
| Ledger.SecondDecisionNotFound | server.js:266-270 | after a decision, the same id is not found again exactly when it had been pending once |
| Ledger.WithoutId | server.js:285 | the filtered list holds exactly the entries whose id differs, and is no longer than before |
| Ledger.WithoutIdAppend | server.js:285 | filtering a concatenation is filtering each part, so the kept entries keep their order and their repeats |
| Ledger.WithoutAbsentId | server.js:285 | filtering an id that no entry has leaves the list unchanged and in order |
| Ledger.WithoutIdIdempotent | server.js:285 | filtering the same id twice gives the same list as filtering it once |
| Ledger.FiledPut | server.js:238 | replacing one list by entries of that list's type keeps every entry under its own type |
| Ledger.FiledRemoveAt | server.js:253 | removing a pending entry keeps every remaining entry under its own type |
| Ledger.KeepNewest | server.js:233 | the slice keeps the first min(n, 20) entries, in order |
| Ledger.ApprovalPrepend | server.js:232-233 | after unshift and slice the new entry is first, at most twenty are kept, and the earlier ones follow in order with only the oldest dropped |
| Ledger.DownloadTarget | server.js:400-406 | Radarr for a movie, Sonarr otherwise; no call when that target lacks a base URL or an API key; otherwise a POST to the movie or series path with the key |
| Ledger.DispatchFollowsListKey | server.js:400-415 | a dispatched movie goes to the movie path and anything else to the series path, always with a non-empty key |
| Accounts.HasCredentials | server.js:121 | the lookup succeeds exactly when an account has both the username and the password |
| Accounts.AdminIndex | server.js:151 | -1 exactly when no account has the username, and otherwise the first account that has it |
| Accounts.HasAdmin | server.js:139 | an account has the name exactly when the name is among the usernames the account replies list |
| Accounts.Usernames | server.js:144 | the reply lists each account's username, in order |
| Accounts.WithoutAdmin | server.js:166 | the filtered list holds exactly the accounts with another username |
| Accounts.WithoutAdminAppend | server.js:166 | filtering a concatenation is filtering each part, so the kept accounts keep their order and their repeats |
| Accounts.DeleteKeepsOthers | server.js:162-166 | deleting any username other than `admin` keeps the `admin` account and leaves no account with the deleted name |
| Accounts.NewPassword | server.js:155 | an empty new password keeps the current one; otherwise the new one is taken |
| Accounts.MergePermissions | server.js:178-184 | supplied default flags, `null` included, replace the stored ones field by field and the others stay; supplied user overrides, `null` included, replace those users' entries whole and the other users keep theirs; an absent part changes nothing |
| Accounts.MergePolicy | server.js:180 | each flag the update carries, `null` included, replaces the stored one, and each flag it leaves out stays |
| Accounts.MergeIsIdempotent | server.js:176-187 | sending the same permissions update twice leaves what sending it once leaves |
| Accounts.SuppliedOverrideGoverns | server.js:182-184 | after an update that supplies a user's override object, that override alone decides the user's requests |
| Accounts.SuppliedNullFallsBack | server.js:182-184 | after an update that sends `null` for a user, that user gets the defaults as they stand after the update |
| Accounts.NullDefaultFlagDenies | server.js:179-181 | after an update that sends `null` for a default flag, every user without an override is refused that category |
| Accounts.SessionToken | server.js:83 | a session token is the `sess_` prefix followed by the random part |
| Accounts.KeptBackground | server.js:89 | an earlier non-empty background is kept; otherwise the configured default is used |
| Accounts.ReloginRevokesOldToken | server.js:83-90 | after a login stores the new token, it finds the user, and the old token, if it was only that user's, finds no one |
| Server.Store.Load | server.js:46-51 | a missing, unreadable or falsy document is replaced by its default, and a present document is taken as stored |
| Server.Store.Submit | server.js:212-242 | 403 and no change without permission; with auto-approval the entry heads the newest twenty approvals, goes to the downloader, and gets no answer when that call rejects; otherwise it is appended to its pending list; the approvals bound and the filing invariant are kept |
| Server.Store.Approve | server.js:244-259 | 404 and no change without a pending entry of that id; otherwise the first such entry leaves its list and heads the newest twenty approvals with the route's type, and is dispatched; the invariants are kept |
| Server.Store.Deny | server.js:261-279 | 404 and no change without a pending entry; otherwise it moves to the same category's blacklist with the route's type and the denial time; the filing invariant is kept |
| Server.Store.Unblacklist | server.js:281-288 | every entry of that id leaves the category's blacklist, the other category stays, and the answer is `removed` |
| Server.Store.PutPermissions | server.js:176-187 | the stored permissions become the merge of the old ones with the body, and the answer is what a later read of the permissions returns |
| Server.Store.GetPermissions | server.js:171-174 | the answer is the stored permissions document, which is also what a permissions update answers with |
| Server.Store.AdminLogin | server.js:118-126 | success exactly when an account has both credentials, answering with the username and no token; otherwise 401 |
| Server.Store.CreateAdmin | server.js:133-145 | 400 for a missing field or an existing username; otherwise the account is appended and all usernames are returned |
| Server.Store.UpdateAdminPassword | server.js:147-158 | 404 for an unknown username; otherwise only the first account of that name changes, taking the new password or keeping its own |
| Server.Store.DeleteAdmin | server.js:160-169 | `admin` is refused with 400; otherwise every account of that name is removed, and the `admin` account always survives |
| Server.Store.PlexLogin | server.js:71-96 | 400 without a token, 500 when validation fails, 401 when Plex rejects; otherwise the user's record is replaced with a new `sess_` token and the kept background; records stay keyed by their id |
| Server.Store.PlexAuto | server.js:98-116 | 400 without a token, 401 when no one holds it; otherwise the holder is returned while Plex accepts its token, and is deleted with 401 when Plex rejects it |
| Client.UnknownItems | public/app.js:591-592 | the page's items whose ids are not loaded yet, exactly, and no more of them than the page has |
| Client.UnknownItemsAppend | public/app.js:592 | filtering a concatenated page is filtering each part, so the kept items keep page order and their repeats |
| Client.UnknownItemsDistinct | public/app.js:592 | filtering a page without repeated ids leaves it without repeated ids |
| Client.AppendUnknownKeepsIdsDistinct | public/app.js:591-598 | when neither the loaded items nor the page repeat an id, appending the filtered page creates no repeated id |
| Client.RepeatedNewIdKeptTwice | public/app.js:591-598 | a page that carries a new id twice keeps both copies, so appending it does repeat that id |
| Client.CachedUrl | public/app.js:76-79 | a cached URL exactly when the id is non-empty and cached with a non-empty URL, and then that URL |
| Client.AdminHeaders | public/app.js:159-162 | the token header is added exactly when a non-empty token is set, and every other header passes unchanged |
| Client.RememberAllKeepsAndCaches | public/app.js:327-332 | rendering never overwrites a non-empty cached URL, leaves every shown item with an id and a poster cached, and changes no id except to a shown item's poster |
| Client.ClientState.constructor | public/app.js:1-14 | the pager starts at page 0, not loading, with more pages expected; there is no admin session; an unreadable stored cache starts empty |
| Client.ClientState.SetActiveView | public/app.js:117-127 | exactly one view is active: the chosen one, or home when the admin or requests view is chosen without a token |
| Client.ClientState.SetAdminVisibility | public/app.js:137-147 | both admin navigation entries follow the flag, and hiding them while an admin view is active sends the page home |
| Client.ClientState.ClearAdminSession | public/app.js:149-156 | the admin and the token are cleared, the navigation is hidden, and no admin view stays active |
| Client.ClientState.FetchWithAdmin | public/app.js:158-168 | the headers sent carry the token exactly when one is set; a 401 clears the admin and the token, hides both admin navigation entries and leaves the admin and requests views for home; any other status changes nothing |
| Client.ClientState.CompleteAdminLogin | public/app.js:286-302 | after a successful login the admin is set, the navigation is shown, and the token stays unset because the answer has none |
| Client.ClientState.GetCachedPoster | public/app.js:76-79 | a URL exactly when the id is non-empty and has a non-empty cached URL |
| Client.ClientState.RememberPoster | public/app.js:81-85 | nothing changes without an id or a URL, or when that URL is already cached; otherwise only that id's entry changes |
| Client.ClientState.ShowPoster | public/app.js:328-332 | the cached URL, else the item's poster, else the placeholder; when nothing was cached, the cache gains exactly the item's poster if it has an id and a poster and is otherwise unchanged |
| Client.ClientState.RenderCards | public/app.js:319-332 | showing the items in order leaves the cache as the fold of the per-item poster rule over them |
| Client.ClientState.BeginLoadMore | public/app.js:580-583 | nothing while loading or without more pages; otherwise loading starts and the next page number is returned |
| Client.ClientState.FinishLoadMore | public/app.js:584-601 | a page with no new ids stops the pager and keeps items, page and cache; otherwise exactly the new items are appended, the page advances and their posters are remembered; loading ends |
| Client.ClientState.LoadMoreRecent | public/app.js:580-602 | a full load adds exactly the page's unknown items, remembers their posters, and advances the page by one exactly when it added some |
| Client.ClientState.LoadHome | public/app.js:604-612 | the pager restarts at page 0 with more pages expected; a failed fetch keeps the items and the cache, and a successful one replaces the items and remembers the posters of the recent items, then of the approvals |
| Client.AdminViewsAfterLogin | public/app.js:295-302 | after a successful admin login, or a failed one by a client without a token, choosing the admin or requests view shows only home; only a token held from before shows the view |
| Formatters.JoinIncludesEachPart | public/app.js:89 | every joined part occurs in the joined text |
| Formatters.FormatActors | public/app.js:87-90 | the fixed text for no actors; otherwise the `Actors: ` label followed by the list |
| Formatters.FormatActorsFirstFive | public/app.js:89 | lists that agree on their first five actors format alike, and each of those five occurs in the text |
| Formatters.BuildDetailsLinks | public/app.js:92-101 | the IMDB link then the TVDB link, each present exactly when the item has that URL, and the no-links note exactly when it has neither |
| Formatters.Lower | public/app.js:542-544 | lower-casing keeps the length and lower-cases each character |
| Formatters.FilterByTitle | public/app.js:543-545 | exactly the entries whose lower-cased title includes the lower-cased filter, and no more entries than the list has |
| Formatters.BlacklistView | public/app.js:543-545 | the view holds exactly the blacklisted movies and shows whose title matches the filter |
| Formatters.FilterByTitleAppend | public/app.js:543 | filtering two lists joined is filtering each in turn |
| Formatters.BlacklistViewMoviesFirst | public/app.js:543-545 | the matching movies come first, then the matching shows, each in stored order |
| Formatters.EmptyFilterShowsAll | public/app.js:542-545 | an empty filter shows the whole blacklist, movies then shows |
| Formatters.FilterIgnoresQueryCase | public/app.js:542 | a query and its lower-cased form show the same entries |
| Formatters.BlacklistType | public/app.js:555 | the entry's own type when it has one; otherwise `movie` exactly when a blacklisted movie has its id, else `show` |
| Formatters.InferredTypeFindsOwnList | public/app.js:555 | for an entry filed under its own type, the type sent with the removal selects the list the entry is in |

## Left out

- HTTP serving, JSON parsing, static files, the config reload and SSL
  handling are not modelled. These are input and output. Each handler is one
  atomic step over the stored documents, and the file reads and writes in
  between are not modelled.
- Handlers running at the same time are not modelled. Interleaved requests can
  lose each other's writes, because each handler reads and writes whole
  documents.
- The `/api/auth/plex/pin` endpoints the client polls are not part of
  `server.js`. For that reason, the PIN flow, its polling and its timeouts on
  the client are not modelled.
- Search, the recent-releases lookup, `validatePlexToken` and the downloader's
  HTTP call are not modelled. They talk to OMDb, TVDB, Plex, Radarr and
  Sonarr. In the model they are parameters (`validate`, `fetched`,
  `downloaderReachable`) or left out.
- The payload posted to the downloader and URL resolution by `new URL` are
  not modelled. The model records only the base URL, the path and the key.
- `/api/config`, `GET /api/requests` and `GET /api/admin/accounts` are not
  modelled. They only read documents.
- `/api/users/background` is not modelled. The background it stores is kept
  by a later Plex login (`Accounts.KeptBackground`); in the model such a
  background reaches the store only through `Server.Store.Load`.
- DOM rendering, alerts, prompts and localStorage writes are not modelled.
  The poster-cache writes rendering makes are modelled
  (`Client.ClientState.RenderCards`); writing the cache back to localStorage
  is not. The
  background image choice (`applyLoginBackground`) is also left out, because
  it clamps a floating-point opacity.
- Server.Store.PlexAuto: when several users hold the same session token, any
  of them may be picked. `Object.values` order is not modelled.
- Server.Store.Load: the defaults object that `loadData` returns for a
  missing file is shared and mutated. This aliasing is not modelled; each load
  yields a fresh default.
- A rejected promise and the resulting process crash are not modelled. The model shows a failed awaited call only as a missing
  answer.
- A missing `radarr` or `sonarr` section in the configuration throws. This is
  not modelled; a missing field is taken as empty.
- User keys such as `__proto__`, which JavaScript objects treat specially, are
  not modelled. Users and permissions are plain maps.
- Formatters.Lower: only ASCII letters are lower-cased. Unicode case mapping
  is not modelled.
- Client.ClientState.LoadMoreRecent: a fetch that rejects, rather than
  answering with an error status, leaves `recentLoading` set in the source.
  The model treats every failure as an empty page.
- Formatters.FormatActors: the contract fixes the label and the empty case.
  `Formatters.FormatActorsFirstFive` adds that only the first five actors
  decide the text and that each of them occurs in it. Neither states the `, `
  separator or the order of the five.
- Accounts.MergePermissions: a body flag or user override is modelled as left
  out, `null` or a value of the right shape. Other JSON values (a string flag,
  a non-object override, extra keys) are not modelled.
