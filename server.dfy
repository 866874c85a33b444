/**
 * The server's data directory as one store, and its request-ledger, permission,
 * admin-account and Plex-session handlers as methods that update it in place
 * (server.js:71-288). Each handler is one atomic step: the store holds the
 * documents `loadData` would read, and a method leaves in it what the handler
 * saves. Timestamps, the random part of a session token, the Plex validation
 * call and the fate of the downloader call are parameters.
 */
module Server {
  import opened Wrappers
  import opened Records
  import opened Ledger
  import opened Accounts

  /** The `{ status, entry }` body of the request handlers. */
  datatype Posted = Posted(status: string, entry: Entry)

  /** The `{ sessionToken, user }` body of a Plex login. */
  datatype Session = Session(sessionToken: string, user: User)

  class Store {
    var admins: seq<Admin>
    var users: map<string, User>
    var permissions: Permissions
    var requests: Lists
    var approvals: seq<Entry>
    var blacklist: Lists

    /** The approvals document as the server writes it: at most twenty entries. */
    ghost predicate ApprovalsBounded()
      reads this
    {
      |approvals| <= ApprovalsKept
    }

    /** Every pending and every blacklisted entry sits in the list its type selects. */
    ghost predicate ListsFiled()
      reads this
    {
      Filed(requests) && Filed(blacklist)
    }

    /**
     * `loadData` for every document (server.js:46-51): a missing, unreadable or
     * falsy document is replaced by its default from server.js:16-26.
     */
    constructor Load(storedAdmins: Stored<seq<Admin>>, storedUsers: Stored<map<string, User>>,
                     storedPermissions: Stored<Permissions>, storedRequests: Stored<Lists>,
                     storedApprovals: Stored<seq<Entry>>, storedBlacklist: Stored<Lists>)
      ensures admins == (if storedAdmins.Present? then storedAdmins.value else [Admin("admin", "admin")])
      ensures users == (if storedUsers.Present? then storedUsers.value else map[])
      ensures permissions == (if storedPermissions.Present? then storedPermissions.value
                              else Permissions(Policy(Some(true), Some(true), Some(false)), map[]))
      ensures requests == (if storedRequests.Present? then storedRequests.value else Lists([], []))
      ensures approvals == (if storedApprovals.Present? then storedApprovals.value else [])
      ensures blacklist == (if storedBlacklist.Present? then storedBlacklist.value else Lists([], []))
    {
      admins := LoadData(storedAdmins, DefaultAdmins);
      users := LoadData(storedUsers, map[]);
      permissions := LoadData(storedPermissions, DefaultPermissions);
      requests := LoadData(storedRequests, NoEntries);
      approvals := LoadData(storedApprovals, []);
      blacklist := LoadData(storedBlacklist, NoEntries);
    }

    /**
     * `POST /api/requests` (server.js:212-242). The user's override, or else
     * the defaults, must allow the category, or the answer is 403 and nothing
     * changes. With auto-approval the entry heads the approvals, the newest
     * twenty are kept and the item goes to the downloader, whose call is
     * awaited: when it rejects, the approval stays and no answer is sent.
     * Otherwise the entry is appended to its category's pending list, with no
     * check for an identical earlier entry.
     */
    method Submit(kind: string, item: Item, username: string, now: string, config: Config, downloaderReachable: bool)
      returns (reply: Reply<Posted>, dispatched: Option<Dispatch>)
      modifies this
      ensures admins == old(admins) && users == old(users) && permissions == old(permissions) && blacklist == old(blacklist)
      ensures var policy := EffectivePolicy(permissions, username);
              var entry := Entry(item, kind, username, now, None);
        if !CanRequest(policy, kind) then
          (&& reply == Fail(403, "User does not have permission") && dispatched == None
           && requests == old(requests) && approvals == old(approvals))
        else if Truthy(policy.autoApprove) then
          (&& approvals == KeepNewest([entry] + old(approvals)) && requests == old(requests)
           && dispatched == DownloadTarget(kind, config)
           && reply == (if dispatched.Some? && !downloaderReachable then Unanswered else Ok(Posted("approved", entry))))
        else
          (&& requests == old(requests).Put(ListKey(kind), old(requests).Get(ListKey(kind)) + [entry])
           && approvals == old(approvals) && dispatched == None && reply == Ok(Posted("pending", entry)))
      ensures old(ApprovalsBounded()) ==> ApprovalsBounded()
      ensures old(ListsFiled()) ==> ListsFiled()
    {
      var policy := EffectivePolicy(permissions, username);
      if !CanRequest(policy, kind) {
        reply, dispatched := Fail(403, "User does not have permission"), None;
        return;
      }
      var entry := Entry(item, kind, username, now, None);
      if Truthy(policy.autoApprove) {
        approvals := KeepNewest([entry] + approvals);
        dispatched := DownloadTarget(kind, config);
        reply := if dispatched.Some? && !downloaderReachable then Unanswered else Ok(Posted("approved", entry));
        return;
      }
      var key := ListKey(kind);
      if ListsFiled() {
        FiledPut(requests, key, requests.Get(key) + [entry]);
      }
      requests := requests.Put(key, requests.Get(key) + [entry]);
      reply, dispatched := Ok(Posted("pending", entry)), None;
    }

    /**
     * `POST /api/requests/:type/:id/approve` (server.js:244-259). Without a
     * pending entry of that id in the category the answer is 404 and nothing
     * changes. Otherwise the first such entry leaves the pending list, heads the
     * approvals with the route's type, the newest twenty are kept, the blacklist
     * is untouched and the entry goes to the downloader.
     */
    method Approve(kind: string, id: string, config: Config, downloaderReachable: bool)
      returns (reply: Reply<Posted>, dispatched: Option<Dispatch>)
      modifies this
      ensures admins == old(admins) && users == old(users) && permissions == old(permissions) && blacklist == old(blacklist)
      ensures var key := ListKey(kind);
              var pending := old(requests).Get(key);
              var i := FirstIndexOf(pending, id);
        if i == -1 then
          (&& reply == Fail(404, "Request not found") && dispatched == None
           && requests == old(requests) && approvals == old(approvals))
        else
          (&& requests == old(requests).Put(key, RemoveAt(pending, i))
           && approvals == KeepNewest([pending[i].(kind := kind)] + old(approvals))
           && dispatched == DownloadTarget(kind, config)
           && reply == (if dispatched.Some? && !downloaderReachable then Unanswered else Ok(Posted("approved", pending[i]))))
      ensures old(ApprovalsBounded()) ==> ApprovalsBounded()
      ensures old(ListsFiled()) ==> ListsFiled()
    {
      var key := ListKey(kind);
      var index := FirstIndexOf(requests.Get(key), id);
      if index == -1 {
        reply, dispatched := Fail(404, "Request not found"), None;
        return;
      }
      var entry := requests.Get(key)[index];
      if ListsFiled() {
        FiledRemoveAt(requests, key, index);
      }
      requests := requests.Put(key, RemoveAt(requests.Get(key), index));
      approvals := KeepNewest([entry.(kind := kind)] + approvals);
      dispatched := DownloadTarget(kind, config);
      reply := if dispatched.Some? && !downloaderReachable then Unanswered else Ok(Posted("approved", entry));
    }

    /**
     * `POST /api/requests/:type/:id/deny` (server.js:261-279). Without a
     * pending entry of that id the answer is 404 and nothing changes. Otherwise
     * the first such entry leaves the pending list and is appended, with the
     * route's type and the denial time, to the same category's blacklist; the
     * approvals are untouched.
     */
    method Deny(kind: string, id: string, now: string) returns (reply: Reply<Posted>)
      modifies this
      ensures admins == old(admins) && users == old(users) && permissions == old(permissions) && approvals == old(approvals)
      ensures var key := ListKey(kind);
              var pending := old(requests).Get(key);
              var i := FirstIndexOf(pending, id);
        if i == -1 then
          reply == Fail(404, "Request not found") && requests == old(requests) && blacklist == old(blacklist)
        else
          (&& requests == old(requests).Put(key, RemoveAt(pending, i))
           && blacklist == old(blacklist).Put(key, old(blacklist).Get(key) + [pending[i].(kind := kind, deniedAt := Some(now))])
           && reply == Ok(Posted("denied", pending[i])))
      ensures old(ListsFiled()) ==> ListsFiled()
    {
      var key := ListKey(kind);
      var index := FirstIndexOf(requests.Get(key), id);
      if index == -1 {
        reply := Fail(404, "Request not found");
        return;
      }
      var entry := requests.Get(key)[index];
      if ListsFiled() {
        FiledRemoveAt(requests, key, index);
        FiledPut(blacklist, key, blacklist.Get(key) + [entry.(kind := kind, deniedAt := Some(now))]);
      }
      requests := requests.Put(key, RemoveAt(requests.Get(key), index));
      blacklist := blacklist.Put(key, blacklist.Get(key) + [entry.(kind := kind, deniedAt := Some(now))]);
      reply := Ok(Posted("denied", entry));
    }

    /**
     * `DELETE /api/blacklist/:type/:id` (server.js:281-288): every entry of
     * that id leaves the category's blacklist, the other category stays, and an
     * absent id is not an error.
     */
    method Unblacklist(kind: string, id: string) returns (reply: Reply<string>)
      modifies this
      ensures admins == old(admins) && users == old(users) && permissions == old(permissions)
      ensures requests == old(requests) && approvals == old(approvals)
      ensures blacklist == old(blacklist).Put(ListKey(kind), WithoutId(old(blacklist).Get(ListKey(kind)), id))
      ensures reply == Ok("removed")
      ensures old(ListsFiled()) ==> ListsFiled()
    {
      var key := ListKey(kind);
      if ListsFiled() {
        FiledPut(blacklist, key, WithoutId(blacklist.Get(key), id));
      }
      blacklist := blacklist.Put(key, WithoutId(blacklist.Get(key), id));
      reply := Ok("removed");
    }

    /** `GET /api/permissions` (server.js:171-174): the stored document, as it stands. */
    function GetPermissions(): (reply: Reply<Permissions>)
      reads this
      ensures reply.Ok? && reply.body == permissions
    {
      Ok(permissions)
    }

    /** `PUT /api/permissions` (server.js:176-187): a shallow merge, answered with the result. */
    method PutPermissions(defaults: Option<PolicyPatch>, userOverrides: Option<map<string, Option<Policy>>>)
      returns (reply: Reply<Permissions>)
      modifies this
      ensures admins == old(admins) && users == old(users) && requests == old(requests)
      ensures approvals == old(approvals) && blacklist == old(blacklist)
      ensures permissions == MergePermissions(old(permissions), defaults, userOverrides)
      ensures reply == GetPermissions()
    {
      permissions := MergePermissions(permissions, defaults, userOverrides);
      reply := Ok(permissions);
    }

    /**
     * `POST /api/auth/admin/login` (server.js:118-126): 401 unless an account
     * has both the username and the password; the answer names the account and
     * carries no token.
     */
    function AdminLogin(username: string, password: string): (reply: Reply<string>)
      reads this
      ensures reply.Ok? <==> Admin(username, password) in admins
      ensures reply.Ok? ==> reply.body == username
      ensures !reply.Ok? ==> reply == Fail(401, "Invalid admin credentials")
    {
      if HasCredentials(admins, username, password) then Ok(username)
      else Fail(401, "Invalid admin credentials")
    }

    /**
     * `POST /api/admin/accounts` (server.js:133-145): 400 for a missing
     * username or password or an existing username, otherwise the account is
     * appended.
     */
    method CreateAdmin(username: string, password: string) returns (reply: Reply<seq<string>>)
      modifies this
      ensures users == old(users) && permissions == old(permissions) && requests == old(requests)
      ensures approvals == old(approvals) && blacklist == old(blacklist)
      ensures if username == "" || password == "" then
          reply == Fail(400, "Missing username or password") && admins == old(admins)
        else if HasAdmin(old(admins), username) then
          reply == Fail(400, "Admin already exists") && admins == old(admins)
        else
          admins == old(admins) + [Admin(username, password)] && reply == Ok(Usernames(admins))
    {
      if username == "" || password == "" {
        reply := Fail(400, "Missing username or password");
        return;
      }
      if AdminIndex(admins, username) != -1 {
        reply := Fail(400, "Admin already exists");
        return;
      }
      admins := admins + [Admin(username, password)];
      reply := Ok(Usernames(admins));
    }

    /**
     * `PUT /api/admin/accounts/:username` (server.js:147-158): 404 for an
     * unknown username; otherwise the first account of that name takes the new
     * password, or keeps its own when the new one is empty.
     */
    method UpdateAdminPassword(username: string, password: string) returns (reply: Reply<seq<string>>)
      modifies this
      ensures users == old(users) && permissions == old(permissions) && requests == old(requests)
      ensures approvals == old(approvals) && blacklist == old(blacklist)
      ensures var i := AdminIndex(old(admins), username);
        if i == -1 then
          reply == Fail(404, "Admin not found") && admins == old(admins)
        else
          && admins == old(admins)[i := Admin(username, NewPassword(old(admins)[i].password, password))]
          && reply == Ok(Usernames(admins))
    {
      var index := AdminIndex(admins, username);
      if index == -1 {
        reply := Fail(404, "Admin not found");
        return;
      }
      admins := admins[index := admins[index].(password := NewPassword(admins[index].password, password))];
      reply := Ok(Usernames(admins));
    }

    /**
     * `DELETE /api/admin/accounts/:username` (server.js:160-169): `admin` is
     * refused with 400; any other name removes every account of that name, and
     * an unknown name is not an error.
     */
    method DeleteAdmin(username: string) returns (reply: Reply<seq<string>>)
      modifies this
      ensures users == old(users) && permissions == old(permissions) && requests == old(requests)
      ensures approvals == old(approvals) && blacklist == old(blacklist)
      ensures if username == ProtectedAdmin then
          reply == Fail(400, "Default admin cannot be deleted") && admins == old(admins)
        else
          admins == WithoutAdmin(old(admins), username) && reply == Ok(Usernames(admins))
      ensures HasAdmin(old(admins), ProtectedAdmin) ==> HasAdmin(admins, ProtectedAdmin)
    {
      if username == ProtectedAdmin {
        reply := Fail(400, "Default admin cannot be deleted");
        return;
      }
      DeleteKeepsOthers(admins, username);
      admins := WithoutAdmin(admins, username);
      reply := Ok(Usernames(admins));
    }

    /**
     * `POST /api/auth/plex/login` (server.js:71-96): 400 without a token, 500
     * when validation fails, 401 when Plex rejects the token; otherwise the
     * user's record is overwritten with a fresh `sess_` token, keeping an
     * earlier background or else taking the configured default.
     */
    method PlexLogin(plexToken: string, validate: string -> Validation, random: string, config: Config)
      returns (reply: Reply<Session>)
      modifies this
      ensures admins == old(admins) && permissions == old(permissions) && requests == old(requests)
      ensures approvals == old(approvals) && blacklist == old(blacklist)
      ensures plexToken == "" ==> reply == Fail(400, "Missing plexToken") && users == old(users)
      ensures plexToken != "" && validate(plexToken).Unreachable? ==>
        reply == Fail(500, "Failed to validate Plex token") && users == old(users)
      ensures plexToken != "" && validate(plexToken).Rejected? ==>
        reply == Fail(401, "Invalid Plex token") && users == old(users)
      ensures plexToken != "" && validate(plexToken).Identity? ==>
        var who := validate(plexToken);
        var user := User(who.id, who.username, plexToken, SessionToken(random),
                         KeptBackground(old(users), who.id, config.defaultBackground));
        users == old(users)[who.id := user] && reply == Ok(Session(SessionToken(random), user))
      ensures old(UsersKeyed(users)) ==> UsersKeyed(users)
    {
      if plexToken == "" {
        reply := Fail(400, "Missing plexToken");
        return;
      }
      match validate(plexToken) {
        case Unreachable =>
          reply := Fail(500, "Failed to validate Plex token");
        case Rejected =>
          reply := Fail(401, "Invalid Plex token");
        case Identity(id, name) =>
          var sessionToken := SessionToken(random);
          var user := User(id, name, plexToken, sessionToken, KeptBackground(users, id, config.defaultBackground));
          users := users[id := user];
          reply := Ok(Session(sessionToken, user));
      }
    }

    /**
     * `POST /api/auth/plex/auto` (server.js:98-116): 400 without a token, 401
     * when no user holds it; otherwise the holder's Plex token is validated
     * again and, when Plex rejects it, the record is deleted and the answer is
     * 401. A validation call that rejects leaves no answer.
     */
    method PlexAuto(sessionToken: string, validate: string -> Validation) returns (reply: Reply<User>)
      modifies this
      ensures admins == old(admins) && permissions == old(permissions) && requests == old(requests)
      ensures approvals == old(approvals) && blacklist == old(blacklist)
      ensures sessionToken == "" ==> reply == Fail(400, "Missing sessionToken") && users == old(users)
      ensures sessionToken != "" && !HasSession(old(users), sessionToken) ==>
        reply == Fail(401, "Invalid session") && users == old(users)
      ensures sessionToken != "" && HasSession(old(users), sessionToken) ==>
        exists k :: k in old(users) && AutoLoginOutcome(old(users), k, sessionToken, validate, reply, users)
      ensures old(UsersKeyed(users)) ==> UsersKeyed(users)
    {
      if sessionToken == "" {
        reply := Fail(400, "Missing sessionToken");
        return;
      }
      if !HasSession(users, sessionToken) {
        reply := Fail(401, "Invalid session");
        return;
      }
      var k :| k in users && users[k].sessionToken == sessionToken;
      var user := users[k];
      ghost var before := users;
      match validate(user.plexToken) {
        case Identity(_, _) =>
          reply := Ok(user);
        case Rejected =>
          users := users - {user.id};
          reply := Fail(401, "Plex account not found");
        case Unreachable =>
          reply := Unanswered;
      }
      assert AutoLoginOutcome(before, k, sessionToken, validate, reply, users);
    }
  }

  /**
   * The outcome of an auto-login once the record under `k` holds the session
   * token: the stored user when Plex still accepts its token, the deletion of
   * the record named by its `id` when Plex rejects it, and no answer when the
   * validation call fails.
   */
  ghost predicate AutoLoginOutcome(before: map<string, User>, k: string, sessionToken: string,
                                   validate: string -> Validation, reply: Reply<User>, after: map<string, User>)
    requires k in before
  {
    && before[k].sessionToken == sessionToken
    && match validate(before[k].plexToken)
       case Identity(_, _) => reply == Ok(before[k]) && after == before
       case Rejected => reply == Fail(401, "Plex account not found") && after == before - {before[k].id}
       case Unreachable => reply == Unanswered && after == before
  }
}
