/**
 * The pure parts of the admin-account, permission and Plex-session handlers of
 * server.js: credential and username lookups over the admin list, the shallow
 * merge of a permissions update, and the session-token and background rules of
 * a Plex login.
 */
module Accounts {
  import opened Wrappers
  import opened Records
  import Ledger

  /** The account that `DELETE /api/admin/accounts/:username` refuses to remove. */
  const ProtectedAdmin: string := "admin"

  /**
   * `admins.find(username === u && password === p)` succeeds (server.js:121)
   * exactly when an account with both matches is listed.
   */
  function HasCredentials(admins: seq<Admin>, username: string, password: string): (r: bool)
    ensures r <==> Admin(username, password) in admins
    decreases |admins|
  {
    if |admins| == 0 then false
    else if admins[0].username == username && admins[0].password == password then true
    else HasCredentials(admins[1..], username, password)
  }

  /**
   * `admins.some((entry) => entry.username === username)` (server.js:139): the
   * name is among the usernames every account reply lists.
   */
  predicate HasAdmin(admins: seq<Admin>, username: string)
    ensures HasAdmin(admins, username) <==> username in Usernames(admins)
  {
    exists a :: a in admins && a.username == username
  }

  /** `admins.findIndex` by username: the first account with it, or -1. */
  function AdminIndex(admins: seq<Admin>, username: string): (r: int)
    ensures -1 <= r < |admins|
    ensures r == -1 <==> !HasAdmin(admins, username)
    ensures 0 <= r ==> admins[r].username == username && forall j :: 0 <= j < r ==> admins[j].username != username
    decreases |admins|
  {
    if |admins| == 0 then -1
    else if admins[0].username == username then 0
    else
      var k := AdminIndex(admins[1..], username);
      assert admins == [admins[0]] + admins[1..];
      if k == -1 then -1 else k + 1
  }

  /** The `admins.map((entry) => ({ username: entry.username }))` every account reply carries. */
  function Usernames(admins: seq<Admin>): (r: seq<string>)
    ensures |r| == |admins|
    ensures forall i :: 0 <= i < |admins| ==> r[i] == admins[i].username
  {
    seq(|admins|, i requires 0 <= i < |admins| => admins[i].username)
  }

  /** `admins.filter((entry) => entry.username !== username)` (server.js:166). */
  function WithoutAdmin(admins: seq<Admin>, username: string): (r: seq<Admin>)
    ensures |r| <= |admins|
    ensures forall a :: a in r <==> a in admins && a.username != username
    decreases |admins|
  {
    if |admins| == 0 then []
    else if admins[0].username == username then WithoutAdmin(admins[1..], username)
    else [admins[0]] + WithoutAdmin(admins[1..], username)
  }

  /** Filtering a concatenation filters each part, so the kept accounts stay in order with their repeats. */
  lemma {:induction false} WithoutAdminAppend(a: seq<Admin>, b: seq<Admin>, username: string)
    ensures WithoutAdmin(a + b, username) == WithoutAdmin(a, username) + WithoutAdmin(b, username)
    decreases |a|
  {
    if |a| == 0 {
      assert a + b == b;
    } else {
      assert (a + b)[0] == a[0];
      assert (a + b)[1..] == a[1..] + b;
      WithoutAdminAppend(a[1..], b, username);
    }
  }

  /**
   * Whoever is deleted, an account other than the one named survives, so the
   * protected account survives every deletion the handler lets through.
   */
  lemma DeleteKeepsOthers(admins: seq<Admin>, username: string)
    requires username != ProtectedAdmin
    ensures HasAdmin(admins, ProtectedAdmin) ==> HasAdmin(WithoutAdmin(admins, username), ProtectedAdmin)
    ensures !HasAdmin(WithoutAdmin(admins, username), username)
  {
  }

  /** `password || admin.password` (server.js:155): an empty new password keeps the old one. */
  function NewPassword(current: string, requested: string): (r: string)
    ensures requested != "" ==> r == requested
    ensures requested == "" ==> r == current
  {
    if requested != "" then requested else current
  }

  /** `{ ...base, ...patch }` on one flag: a field present in the patch wins, even a `null`. */
  function MergeFlag(base: Option<bool>, patch: Option<Option<bool>>): Option<bool>
  {
    if patch.Some? then patch.value else base
  }

  /**
   * `{ ...permissions.defaults, ...defaultPerms }` (server.js:180): each flag
   * the update carries, `null` included, replaces the stored one, and each
   * flag it leaves out stays.
   */
  function MergePolicy(base: Policy, patch: PolicyPatch): (r: Policy)
    ensures patch.canRequestMovies.Some? ==> r.canRequestMovies == patch.canRequestMovies.value
    ensures patch.canRequestMovies.None? ==> r.canRequestMovies == base.canRequestMovies
    ensures patch.canRequestShows.Some? ==> r.canRequestShows == patch.canRequestShows.value
    ensures patch.canRequestShows.None? ==> r.canRequestShows == base.canRequestShows
    ensures patch.autoApprove.Some? ==> r.autoApprove == patch.autoApprove.value
    ensures patch.autoApprove.None? ==> r.autoApprove == base.autoApprove
  {
    Policy(MergeFlag(base.canRequestMovies, patch.canRequestMovies),
           MergeFlag(base.canRequestShows, patch.canRequestShows),
           MergeFlag(base.autoApprove, patch.autoApprove))
  }

  /**
   * The body of `PUT /api/permissions` (server.js:178-184): the default fields
   * supplied override the stored ones and the others stay; each user key
   * supplied replaces that user's override as a whole, `null` included, and
   * the other users keep theirs. A part left out of the body, or sent as
   * `null`, changes nothing.
   */
  function MergePermissions(p: Permissions, defaults: Option<PolicyPatch>, users: Option<map<string, Option<Policy>>>): (r: Permissions)
    ensures defaults.None? ==> r.defaults == p.defaults
    ensures defaults.Some? ==> r.defaults == MergePolicy(p.defaults, defaults.value)
    ensures users.None? ==> r.users == p.users
    ensures users.Some? ==>
      && r.users.Keys == p.users.Keys + users.value.Keys
      && (forall u :: u in users.value ==> r.users[u] == users.value[u])
      && (forall u :: u in p.users && u !in users.value ==> r.users[u] == p.users[u])
  {
    var d := if defaults.Some? then MergePolicy(p.defaults, defaults.value) else p.defaults;
    var m := if users.Some? then p.users + users.value else p.users;
    Permissions(d, m)
  }

  /** Sending the same update twice leaves the permissions as sending it once. */
  lemma MergeIsIdempotent(p: Permissions, defaults: Option<PolicyPatch>, users: Option<map<string, Option<Policy>>>)
    ensures MergePermissions(MergePermissions(p, defaults, users), defaults, users) == MergePermissions(p, defaults, users)
  {
  }

  /**
   * After an update that supplies a user's override, that override alone
   * decides the user's requests, whatever the stored defaults and the update's
   * defaults say.
   */
  lemma SuppliedOverrideGoverns(p: Permissions, defaults: Option<PolicyPatch>, users: map<string, Option<Policy>>, username: string)
    requires username in users && users[username].Some?
    ensures Ledger.EffectivePolicy(MergePermissions(p, defaults, Some(users)), username) == users[username].value
  {
  }

  /**
   * An update that sends `null` for a user stores the `null`, so that user
   * falls back to the defaults as they stand after the update.
   */
  lemma SuppliedNullFallsBack(p: Permissions, defaults: Option<PolicyPatch>, users: map<string, Option<Policy>>, username: string)
    requires username in users && users[username].None?
    ensures var r := MergePermissions(p, defaults, Some(users));
      Ledger.EffectivePolicy(r, username) == r.defaults
  {
  }

  /**
   * An update that sends `null` for a default flag stores the `null`, so every
   * user without an override is refused that category afterwards.
   */
  lemma NullDefaultFlagDenies(p: Permissions, patch: PolicyPatch, username: string, kind: string)
    requires kind == "movie" ==> patch.canRequestMovies == Some(None)
    requires kind != "movie" ==> patch.canRequestShows == Some(None)
    requires username !in p.users || p.users[username].None?
    ensures !Ledger.CanRequest(Ledger.EffectivePolicy(MergePermissions(p, Some(patch), None), username), kind)
  {
  }

  /** What `validatePlexToken` yields: the Plex identity, a rejection, or a failed call. */
  datatype Validation = Identity(id: string, username: string) | Rejected | Unreachable

  /** The `sess_` prefix of every session token server.js:83 mints. */
  const SessionPrefix: string := "sess_"

  /** `sess_${random}` with the random part passed in. */
  function SessionToken(random: string): (t: string)
    ensures |t| == |SessionPrefix| + |random| && t[..|SessionPrefix|] == SessionPrefix && t[|SessionPrefix|..] == random
  {
    SessionPrefix + random
  }

  /** `users[id]?.background || config.defaultBackground` (server.js:89). */
  function KeptBackground(users: map<string, User>, id: string, fallback: string): (b: string)
    ensures id in users && users[id].background != "" ==> b == users[id].background
    ensures (id !in users || users[id].background == "") ==> b == fallback
  {
    if id in users && users[id].background != "" then users[id].background else fallback
  }

  /** Some stored user holds the session token. */
  predicate HasSession(users: map<string, User>, token: string)
  {
    exists k :: k in users && users[k].sessionToken == token
  }

  /** Every user record is kept under its own Plex id, as a login stores it. */
  predicate UsersKeyed(users: map<string, User>)
  {
    forall k :: k in users ==> users[k].id == k
  }

  /**
   * A login replaces the session token of the user logging in, so that token
   * finds the user and, when the old one was theirs alone, the old token finds
   * nobody any more.
   */
  lemma ReloginRevokesOldToken(users: map<string, User>, id: string, renewed: User, oldToken: string)
    requires id in users && users[id].sessionToken == oldToken
    requires forall k :: k in users && k != id ==> users[k].sessionToken != oldToken
    requires renewed.sessionToken != oldToken
    ensures HasSession(users[id := renewed], renewed.sessionToken)
    ensures !HasSession(users[id := renewed], oldToken)
  {
    assert users[id := renewed][id].sessionToken == renewed.sessionToken;
  }
}
