/**
 * The pure parts of the request ledger in server.js: which list a `type` selects,
 * which policy applies to a user, how an entry is found, removed or filtered by
 * id, how the approvals history is cut to its newest twenty, and where an
 * approved item is sent.
 */
module Ledger {
  import opened Wrappers
  import opened Records

  /** `approvals.slice(0, 20)` keeps this many entries. */
  const ApprovalsKept: nat := 20

  /** `type === 'movie' ? 'movies' : 'shows'` (server.js:238, 248, 265, 284). */
  function ListKey(kind: string): (c: Category)
    ensures c == Movies <==> kind == "movie"
  {
    if kind == "movie" then Movies else Shows
  }

  /**
   * `permissions.users[username] || permissions.defaults` (server.js:215): the
   * user's override when one is stored, the defaults when none is or when it
   * is `null`.
   */
  function EffectivePolicy(p: Permissions, username: string): (policy: Policy)
    ensures username in p.users && p.users[username].Some? ==> policy == p.users[username].value
    ensures username !in p.users || p.users[username].None? ==> policy == p.defaults
  {
    if username in p.users && p.users[username].Some? then p.users[username].value else p.defaults
  }

  /**
   * The `canRequestMovies` / `canRequestShows` test of server.js:220: a movie
   * is allowed exactly when the movie flag is `true`, anything else exactly
   * when the show flag is.
   */
  function CanRequest(policy: Policy, kind: string): (allowed: bool)
    ensures kind == "movie" ==> (allowed <==> policy.canRequestMovies == Some(true))
    ensures kind != "movie" ==> (allowed <==> policy.canRequestShows == Some(true))
  {
    Truthy(if kind == "movie" then policy.canRequestMovies else policy.canRequestShows)
  }

  /**
   * A per-user override replaces the defaults as a whole: whatever the defaults
   * say, a user who has an override gets exactly that override, and a flag the
   * override leaves out denies.
   */
  lemma OverrideIsWholesale(p: Permissions, username: string, otherDefaults: Policy, kind: string)
    requires username in p.users && p.users[username].Some?
    ensures EffectivePolicy(p.(defaults := otherDefaults), username) == EffectivePolicy(p, username) == p.users[username].value
    ensures kind == "movie" && p.users[username].value.canRequestMovies.None? ==> !CanRequest(EffectivePolicy(p, username), kind)
    ensures kind != "movie" && p.users[username].value.canRequestShows.None? ==> !CanRequest(EffectivePolicy(p, username), kind)
  {
  }

  /** A user without an override, or with a `null` one, gets the defaults, field for field. */
  lemma NoOverrideUsesDefaults(p: Permissions, username: string, kind: string)
    requires username !in p.users || p.users[username].None?
    ensures CanRequest(EffectivePolicy(p, username), kind) <==> CanRequest(p.defaults, kind)
    ensures Truthy(EffectivePolicy(p, username).autoApprove) <==> Truthy(p.defaults.autoApprove)
  {
  }

  /** `findIndex((entry) => entry.id === id)`: the first entry with the id, or -1. */
  function FirstIndexOf(s: seq<Entry>, id: string): (r: int)
    ensures -1 <= r < |s|
    ensures r == -1 <==> forall j :: 0 <= j < |s| ==> s[j].Id() != id
    ensures 0 <= r ==> s[r].Id() == id && forall j :: 0 <= j < r ==> s[j].Id() != id
    decreases |s|
  {
    if |s| == 0 then -1
    else if s[0].Id() == id then 0
    else
      var k := FirstIndexOf(s[1..], id);
      if k == -1 then -1 else k + 1
  }

  /** How many entries of `s` carry the id. */
  function CountId(s: seq<Entry>, id: string): nat
    decreases |s|
  {
    if |s| == 0 then 0 else (if s[0].Id() == id then 1 else 0) + CountId(s[1..], id)
  }

  lemma {:induction false} CountIdAppend(a: seq<Entry>, b: seq<Entry>, id: string)
    ensures CountId(a + b, id) == CountId(a, id) + CountId(b, id)
    decreases |a|
  {
    if |a| == 0 {
      assert a + b == b;
    } else {
      assert (a + b)[1..] == a[1..] + b;
      CountIdAppend(a[1..], b, id);
    }
  }

  /** No entry carries the id exactly when none is counted. */
  lemma {:induction false} CountIdZero(s: seq<Entry>, id: string)
    ensures CountId(s, id) == 0 <==> FirstIndexOf(s, id) == -1
    decreases |s|
  {
    if |s| > 0 {
      CountIdZero(s[1..], id);
      if FirstIndexOf(s[1..], id) != -1 {
        var k := FirstIndexOf(s[1..], id);
        assert s[k + 1] == s[1..][k];
      } else {
        assert forall j :: 1 <= j < |s| ==> s[j] == s[1..][j - 1];
      }
    }
  }

  /** `splice(index, 1)`: the sequence without its element at `i`. */
  function RemoveAt<T>(s: seq<T>, i: nat): (r: seq<T>)
    requires i < |s|
    ensures |r| == |s| - 1
    ensures forall j :: 0 <= j < i ==> r[j] == s[j]
    ensures forall j :: i <= j < |r| ==> r[j] == s[j + 1]
  {
    s[..i] + s[i + 1..]
  }

  /**
   * Removing the first entry with the id takes away exactly that entry: the
   * rest keeps its order, the multiset loses one copy of it, and one fewer
   * entry carries the id.
   */
  lemma RemoveFirstMatch(s: seq<Entry>, id: string)
    requires FirstIndexOf(s, id) != -1
    ensures var i := FirstIndexOf(s, id);
      && |RemoveAt(s, i)| == |s| - 1
      && multiset(RemoveAt(s, i)) + multiset{s[i]} == multiset(s)
      && CountId(RemoveAt(s, i), id) == CountId(s, id) - 1
  {
    var i := FirstIndexOf(s, id);
    assert s == s[..i] + [s[i]] + s[i + 1..];
    assert RemoveAt(s, i) == s[..i] + s[i + 1..];
    CountIdAppend(s[..i] + [s[i]], s[i + 1..], id);
    CountIdAppend(s[..i], [s[i]], id);
    CountIdAppend(s[..i], s[i + 1..], id);
    assert CountId([s[i]], id) == 1 by {
      assert [s[i]][1..] == [];
    }
  }

  /**
   * Approving or denying an id and then trying again for the same id answers
   * "not found" exactly when the id was pending once: a second pending entry
   * with the same id is still there to be found.
   */
  lemma SecondDecisionNotFound(s: seq<Entry>, id: string)
    requires FirstIndexOf(s, id) != -1
    ensures FirstIndexOf(RemoveAt(s, FirstIndexOf(s, id)), id) == -1 <==> CountId(s, id) == 1
  {
    RemoveFirstMatch(s, id);
    CountIdZero(RemoveAt(s, FirstIndexOf(s, id)), id);
  }

  /** `filter((entry) => entry.id !== id)`. */
  function WithoutId(s: seq<Entry>, id: string): (r: seq<Entry>)
    ensures |r| <= |s|
    ensures forall e :: e in r ==> e in s && e.Id() != id
    ensures forall e :: e in s && e.Id() != id ==> e in r
    decreases |s|
  {
    if |s| == 0 then []
    else if s[0].Id() == id then WithoutId(s[1..], id)
    else [s[0]] + WithoutId(s[1..], id)
  }

  /** Filtering a concatenation filters each part, so the kept entries stay in order with their repeats. */
  lemma {:induction false} WithoutIdAppend(a: seq<Entry>, b: seq<Entry>, id: string)
    ensures WithoutId(a + b, id) == WithoutId(a, id) + WithoutId(b, id)
    decreases |a|
  {
    if |a| == 0 {
      assert a + b == b;
    } else {
      assert (a + b)[0] == a[0];
      assert (a + b)[1..] == a[1..] + b;
      WithoutIdAppend(a[1..], b, id);
    }
  }

  /** The filter leaves a list without the id untouched, in order. */
  lemma {:induction false} WithoutAbsentId(s: seq<Entry>, id: string)
    requires CountId(s, id) == 0
    ensures WithoutId(s, id) == s
    decreases |s|
  {
    if |s| > 0 {
      WithoutAbsentId(s[1..], id);
      assert [s[0]] + s[1..] == s;
    }
  }

  /** Filtering by the same id twice is filtering once. */
  lemma {:induction false} WithoutIdIdempotent(s: seq<Entry>, id: string)
    ensures WithoutId(WithoutId(s, id), id) == WithoutId(s, id)
    decreases |s|
  {
    if |s| > 0 {
      WithoutIdIdempotent(s[1..], id);
      if s[0].Id() != id {
        var t := WithoutId(s[1..], id);
        assert ([s[0]] + t)[0] == s[0];
        assert ([s[0]] + t)[1..] == t;
      }
    }
  }

  /** Every entry of a `{movies, shows}` document sits in the list its own type selects. */
  predicate Filed(l: Lists)
  {
    forall c: Category, e :: e in l.Get(c) ==> ListKey(e.kind) == c
  }

  /**
   * Replacing one list by entries of that list's type keeps a document filed:
   * appending a typed entry, taking one out at an index, or filtering by id.
   */
  lemma FiledPut(l: Lists, c: Category, s: seq<Entry>)
    requires Filed(l)
    requires forall e :: e in s ==> ListKey(e.kind) == c
    ensures Filed(l.Put(c, s))
  {
  }

  lemma FiledRemoveAt(l: Lists, c: Category, i: nat)
    requires Filed(l) && i < |l.Get(c)|
    ensures Filed(l.Put(c, RemoveAt(l.Get(c), i)))
  {
  }

  /** `slice(0, 20)`: the newest twenty entries, in order. */
  function KeepNewest<T>(s: seq<T>): (r: seq<T>)
    ensures |r| == if |s| <= ApprovalsKept then |s| else ApprovalsKept
    ensures r == s[..|r|]
  {
    if |s| <= ApprovalsKept then s else s[..ApprovalsKept]
  }

  /**
   * `approvals.unshift(x)` followed by `slice(0, 20)`: the new entry comes
   * first, at most twenty are kept, and the earlier ones follow in their order
   * with only the oldest dropped.
   */
  lemma ApprovalPrepend(x: Entry, approvals: seq<Entry>)
    ensures var r := KeepNewest([x] + approvals);
      && r[0] == x
      && 1 <= |r| <= ApprovalsKept
      && r[1..] == approvals[..|r| - 1]
      && (|approvals| < ApprovalsKept ==> |r| == |approvals| + 1)
  {
  }

  /** The request `sendToDownloader` makes: `POST path` on `baseUrl` with the key. */
  datatype Dispatch = Dispatch(baseUrl: string, path: string, apiKey: string)

  /**
   * The target choice of `sendToDownloader` (server.js:402-406): Radarr for a
   * movie, Sonarr for anything else, and no call when that target lacks a base
   * URL or an API key.
   */
  function DownloadTarget(kind: string, config: Config): (d: Option<Dispatch>)
    ensures var target := if kind == "movie" then config.radarr else config.sonarr;
      && (d.None? <==> target.baseUrl == "" || target.apiKey == "")
      && (d.Some? ==> d.value == Dispatch(target.baseUrl, if kind == "movie" then "/api/v3/movie" else "/api/v3/series", target.apiKey))
  {
    var target := if kind == "movie" then config.radarr else config.sonarr;
    if target.baseUrl == "" || target.apiKey == "" then None
    else Some(Dispatch(target.baseUrl, if kind == "movie" then "/api/v3/movie" else "/api/v3/series", target.apiKey))
  }

  /** A movie never goes to Sonarr and a show never to Radarr. */
  lemma DispatchFollowsListKey(kind: string, config: Config)
    requires DownloadTarget(kind, config).Some?
    ensures ListKey(kind) == Movies <==> DownloadTarget(kind, config).value.path == "/api/v3/movie"
    ensures DownloadTarget(kind, config).value.apiKey != ""
  {
  }
}
