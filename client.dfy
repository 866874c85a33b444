/**
 * The browser-side state of public/app.js that the page logic updates step by
 * step: the recent-releases pager, the poster cache, the active view and the
 * admin session. Responses from the server are parameters; DOM rendering,
 * alerts and localStorage writes are left out.
 */
module Client {
  import opened Wrappers
  import opened Records
  import Server

  /** The four views of the page (public/app.js:16-21). */
  datatype View = HomeView | SearchView | RequestsView | AdminView

  /**
   * What `fetchRecentPage` yields: `null` for a failed response, else the
   * `recent` list and the `approvals` that come with it.
   */
  datatype Fetched = Failed | Page(recent: seq<Item>, approvals: seq<Item>)

  /** The header `fetchWithAdmin` adds. */
  const AdminTokenHeader: string := "X-Admin-Token"

  /** The poster shown when neither the cache nor the item has one. */
  const PlaceholderPoster: string := "https://placehold.co/120x180"

  /** The ids of the loaded items: `new Set(state.recentItems.map((item) => item.id))`. */
  function Ids(items: seq<Item>): set<string>
  {
    set x | x in items :: x.id
  }

  /**
   * `nextItems.filter((item) => !knownIds.has(item.id))` (public/app.js:592):
   * the page's items whose ids are not loaded yet, in page order.
   */
  function UnknownItems(page: seq<Item>, known: seq<Item>): (r: seq<Item>)
    ensures |r| <= |page|
    ensures forall x :: x in r <==> x in page && x.id !in Ids(known)
    decreases |page|
  {
    if |page| == 0 then []
    else if page[0].id in Ids(known) then UnknownItems(page[1..], known)
    else [page[0]] + UnknownItems(page[1..], known)
  }

  /**
   * Filtering a concatenated page filters each part against the same loaded
   * items, so the kept items stay in page order with their repeats.
   */
  lemma {:induction false} UnknownItemsAppend(a: seq<Item>, b: seq<Item>, known: seq<Item>)
    ensures UnknownItems(a + b, known) == UnknownItems(a, known) + UnknownItems(b, known)
    decreases |a|
  {
    if |a| == 0 {
      assert a + b == b;
    } else {
      assert (a + b)[0] == a[0];
      assert (a + b)[1..] == a[1..] + b;
      UnknownItemsAppend(a[1..], b, known);
    }
  }

  /** No two items share an id. */
  predicate DistinctIds(items: seq<Item>)
  {
    forall i, j :: 0 <= i < j < |items| ==> items[i].id != items[j].id
  }

  lemma {:induction false} UnknownItemsDistinct(page: seq<Item>, known: seq<Item>)
    requires DistinctIds(page)
    ensures DistinctIds(UnknownItems(page, known))
    decreases |page|
  {
    if |page| > 0 {
      var rest := UnknownItems(page[1..], known);
      assert DistinctIds(page[1..]) by {
        forall i, j | 0 <= i < j < |page[1..]| ensures page[1..][i].id != page[1..][j].id {
          assert page[1..][i] == page[i + 1] && page[1..][j] == page[j + 1];
        }
      }
      UnknownItemsDistinct(page[1..], known);
      if page[0].id !in Ids(known) {
        forall x | x in rest ensures x.id != page[0].id {
          var k :| 0 <= k < |page[1..]| && page[1..][k] == x;
          assert page[k + 1] == x;
        }
        var r := [page[0]] + rest;
        forall i, j | 0 <= i < j < |r| ensures r[i].id != r[j].id {
          if i == 0 {
            assert r[j] == rest[j - 1] && r[j] in rest;
          } else {
            assert r[i] == rest[i - 1] && r[j] == rest[j - 1];
          }
        }
      }
    }
  }

  /**
   * Appending a deduplicated page never introduces a repeated id: loaded items
   * and page each without repeats stay without repeats together.
   */
  lemma AppendUnknownKeepsIdsDistinct(known: seq<Item>, page: seq<Item>)
    requires DistinctIds(known) && DistinctIds(page)
    ensures DistinctIds(known + UnknownItems(page, known))
  {
    var added := UnknownItems(page, known);
    UnknownItemsDistinct(page, known);
    var all := known + added;
    forall i, j | 0 <= i < j < |all| ensures all[i].id != all[j].id {
      if j < |known| {
        assert all[i] == known[i] && all[j] == known[j];
      } else if i < |known| {
        assert all[i] == known[i] && all[j] == added[j - |known|];
        assert all[j] in added;
        assert known[i].id in Ids(known);
      } else {
        assert all[i] == added[i - |known|] && all[j] == added[j - |known|];
      }
    }
  }

  /**
   * The filter compares against the loaded ids only, so a page that carries a
   * new id twice keeps both copies and the loaded items then repeat that id.
   */
  lemma RepeatedNewIdKeptTwice(x: Item)
    ensures UnknownItems([x, x], []) == [x, x]
    ensures !DistinctIds([] + UnknownItems([x, x], []))
  {
    var none: seq<Item> := [];
    assert Ids(none) == {};
    assert [x, x][1..] == [x];
    assert UnknownItems([x], none) == [x] + UnknownItems([x][1..], none);
    assert UnknownItems([x, x], none) == [x] + UnknownItems([x], none);
    assert none + [x, x] == [x, x];
  }

  /** A token is set: present and non-empty, which is what the `if (state.adminToken)` tests accept. */
  predicate TokenSet(token: Option<string>)
  {
    token.Some? && token.value != ""
  }

  /**
   * `imageCache[id] || null` behind a non-empty id: the cached URL, or none
   * when the id is empty, absent or cached as empty.
   */
  function CachedUrl(cache: map<string, string>, id: string): (r: Option<string>)
    ensures r.Some? <==> id != "" && id in cache && cache[id] != ""
    ensures r.Some? ==> r.value == cache[id]
  {
    if id != "" && id in cache && cache[id] != "" then Some(cache[id]) else None
  }

  /**
   * `{ ...options.headers }` plus `X-Admin-Token` when a token is set
   * (public/app.js:159-162): the header is added only for a non-empty token, and
   * every other header is passed on as given.
   */
  function AdminHeaders(headers: map<string, string>, token: Option<string>): (sent: map<string, string>)
    ensures TokenSet(token) ==> AdminTokenHeader in sent && sent[AdminTokenHeader] == token.value
    ensures !TokenSet(token) ==> sent == headers
    ensures forall h :: h != AdminTokenHeader ==> (h in sent <==> h in headers) && (h in sent ==> sent[h] == headers[h])
  {
    if TokenSet(token) then headers[AdminTokenHeader := token.value] else headers
  }

  /**
   * The poster cache after `renderCards` shows one item: an item with an id
   * and a poster but no non-empty cached URL has its poster remembered; any
   * other item leaves the cache as it is.
   */
  function RememberShown(cache: map<string, string>, item: Item): map<string, string>
  {
    if item.poster != "" && item.id != "" && CachedUrl(cache, item.id).None?
    then cache[item.id := item.poster] else cache
  }

  /** The poster cache after `renderCards` shows `items` in order. */
  function RememberAll(cache: map<string, string>, items: seq<Item>): map<string, string>
    decreases |items|
  {
    if |items| == 0 then cache
    else RememberShown(RememberAll(cache, items[..|items| - 1]), items[|items| - 1])
  }

  /**
   * Rendering never overwrites a non-empty cached URL, and leaves every shown
   * item with an id and a poster with a non-empty cached URL; no other id is
   * touched.
   */
  lemma {:induction false} RememberAllKeepsAndCaches(cache: map<string, string>, items: seq<Item>)
    ensures var r := RememberAll(cache, items);
      && (forall id :: id in cache && cache[id] != "" ==> id in r && r[id] == cache[id])
      && (forall x :: x in items && x.id != "" && x.poster != "" ==> x.id in r && r[x.id] != "")
      && (forall id :: id in r && (id !in cache || r[id] != cache[id]) ==> exists x :: x in items && x.id == id && r[id] == x.poster)
    decreases |items|
  {
    if |items| > 0 {
      var init := items[..|items| - 1];
      var last := items[|items| - 1];
      RememberAllKeepsAndCaches(cache, init);
      assert items == init + [last];
      forall id | id in RememberAll(cache, items) && (id !in cache || RememberAll(cache, items)[id] != cache[id])
        ensures exists x :: x in items && x.id == id && RememberAll(cache, items)[id] == x.poster
      {
        var mid := RememberAll(cache, init);
        if id == last.id && RememberShown(mid, last) != mid {
          assert last in items;
        } else {
          assert id in mid && (id !in cache || mid[id] != cache[id]);
          var x :| x in init && x.id == id && mid[id] == x.poster;
          assert x in items;
        }
      }
    }
  }

  class ClientState {
    var recentItems: seq<Item>
    var recentPage: int
    var recentLoading: bool
    var recentHasMore: bool
    var admin: Option<string>
    var adminToken: Option<string>
    var activeViews: set<View>
    var adminNavShown: bool
    var requestsNavShown: bool
    var imageCache: map<string, string>

    /**
     * The initial `state` (public/app.js:1-14) and `loadImageCache`: an
     * unreadable stored cache starts empty. The views and navigation entries
     * start as the page's markup has them.
     */
    constructor (storedCache: Option<map<string, string>>, initialViews: set<View>, navShown: bool)
      ensures recentItems == [] && recentPage == 0 && !recentLoading && recentHasMore
      ensures admin == None && adminToken == None
      ensures activeViews == initialViews && adminNavShown == navShown && requestsNavShown == navShown
      ensures imageCache == if storedCache.Some? then storedCache.value else map[]
    {
      recentItems, recentPage, recentLoading, recentHasMore := [], 0, false, true;
      admin, adminToken := None, None;
      activeViews, adminNavShown, requestsNavShown := initialViews, navShown, navShown;
      imageCache := if storedCache.Some? then storedCache.value else map[];
    }

    /** `state.adminToken` is truthy. */
    predicate HasAdminToken()
      reads this
    {
      TokenSet(adminToken)
    }

    /**
     * `setActiveView` (public/app.js:117-127): exactly the chosen view becomes
     * active, except that the admin and requests views without an admin token
     * send the page home.
     */
    method SetActiveView(view: View)
      modifies this`activeViews
      ensures activeViews == {if (view == AdminView || view == RequestsView) && !HasAdminToken() then HomeView else view}
      ensures |activeViews| == 1
      ensures (AdminView in activeViews || RequestsView in activeViews) ==> HasAdminToken()
      decreases if view == AdminView || view == RequestsView then 1 else 0
    {
      if (view == AdminView || view == RequestsView) && !HasAdminToken() {
        SetActiveView(HomeView);
        return;
      }
      activeViews := {view};
    }

    /**
     * `setAdminVisibility` (public/app.js:137-147): both admin navigation
     * entries follow the flag, and hiding them while an admin view is active
     * sends the page home.
     */
    method SetAdminVisibility(isAdmin: bool)
      modifies this`adminNavShown, this`requestsNavShown, this`activeViews
      ensures adminNavShown == isAdmin && requestsNavShown == isAdmin
      ensures if !isAdmin && (AdminView in old(activeViews) || RequestsView in old(activeViews))
              then activeViews == {HomeView} else activeViews == old(activeViews)
    {
      adminNavShown := isAdmin;
      requestsNavShown := isAdmin;
      if !isAdmin && (AdminView in activeViews || RequestsView in activeViews) {
        SetActiveView(HomeView);
      }
    }

    /**
     * `clearAdminSession` (public/app.js:149-156): the admin and the token are
     * cleared, the admin navigation is hidden, and no admin view stays active.
     */
    method ClearAdminSession()
      modifies this`admin, this`adminToken, this`adminNavShown, this`requestsNavShown, this`activeViews
      ensures admin == None && adminToken == None && !adminNavShown && !requestsNavShown
      ensures AdminView !in activeViews && RequestsView !in activeViews
      ensures if AdminView in old(activeViews) || RequestsView in old(activeViews)
              then activeViews == {HomeView} else activeViews == old(activeViews)
    {
      admin := None;
      adminToken := None;
      SetAdminVisibility(false);
    }

    /**
     * `fetchWithAdmin` (public/app.js:158-168) with the server as a function
     * from the headers sent to the status it answers: the token header goes out
     * only when a token is set, and a 401 clears the admin session.
     */
    method FetchWithAdmin(headers: map<string, string>, server: map<string, string> -> int)
      returns (sent: map<string, string>, status: int)
      modifies this`admin, this`adminToken, this`adminNavShown, this`requestsNavShown, this`activeViews
      ensures sent == AdminHeaders(headers, old(adminToken)) && status == server(sent)
      ensures status == 401 ==>
        && admin == None && adminToken == None && !adminNavShown && !requestsNavShown
        && AdminView !in activeViews && RequestsView !in activeViews
        && activeViews == (if AdminView in old(activeViews) || RequestsView in old(activeViews)
                           then {HomeView} else old(activeViews))
      ensures status != 401 ==>
        && admin == old(admin) && adminToken == old(adminToken)
        && adminNavShown == old(adminNavShown) && requestsNavShown == old(requestsNavShown)
        && activeViews == old(activeViews)
    {
      sent := AdminHeaders(headers, adminToken);
      status := server(sent);
      if status == 401 {
        ClearAdminSession();
      }
    }

    /**
     * The admin-login click handler once the server has answered
     * (public/app.js:295-302): on success the admin is set, the token is taken
     * from the answer's `token` field, which the server's answer does not have,
     * and the admin navigation is shown.
     */
    method CompleteAdminLogin(reply: Reply<string>)
      modifies this`admin, this`adminToken, this`adminNavShown, this`requestsNavShown, this`activeViews
      ensures reply.Ok? ==>
        && admin == Some(reply.body) && adminToken == None && !HasAdminToken()
        && adminNavShown && requestsNavShown && activeViews == old(activeViews)
      ensures !reply.Ok? ==>
        && admin == old(admin) && adminToken == old(adminToken)
        && adminNavShown == old(adminNavShown) && requestsNavShown == old(requestsNavShown)
        && activeViews == old(activeViews)
    {
      if !reply.Ok? {
        return;
      }
      admin := Some(reply.body);
      adminToken := None;
      SetAdminVisibility(true);
    }

    /** `getCachedPoster` (public/app.js:76-79): null without an id or a cached URL. */
    function GetCachedPoster(id: string): (r: Option<string>)
      reads this
      ensures r.Some? <==> id != "" && id in imageCache && imageCache[id] != ""
      ensures r.Some? ==> r.value == imageCache[id]
    {
      CachedUrl(imageCache, id)
    }

    /**
     * `rememberPoster` (public/app.js:81-85): nothing changes without an id or
     * a URL, or when the cache already holds that URL; otherwise only the entry
     * of that id changes, and the cache then answers with the URL.
     */
    method RememberPoster(id: string, url: string)
      modifies this`imageCache
      ensures if id == "" || url == "" || (id in old(imageCache) && old(imageCache)[id] == url)
              then imageCache == old(imageCache) else imageCache == old(imageCache)[id := url]
      ensures id != "" && url != "" ==> GetCachedPoster(id) == Some(url)
    {
      if id == "" || url == "" || (id in imageCache && imageCache[id] == url) {
        return;
      }
      imageCache := imageCache[id := url];
    }

    /**
     * The poster choice of `renderCards` (public/app.js:328-332): the cached
     * URL, else the item's poster, else the placeholder; an item poster shown
     * for want of a cached one is remembered, so an item with an id and a
     * poster is afterwards cached with exactly the URL shown.
     */
    method ShowPoster(item: Item) returns (url: string)
      modifies this`imageCache
      ensures url != ""
      ensures old(GetCachedPoster(item.id)).Some? ==> url == old(GetCachedPoster(item.id)).value && imageCache == old(imageCache)
      ensures old(GetCachedPoster(item.id)).None? ==> url == (if item.poster != "" then item.poster else PlaceholderPoster)
      ensures item.id != "" && item.poster != "" ==> GetCachedPoster(item.id) == Some(url)
      ensures old(GetCachedPoster(item.id)).None? ==>
        imageCache == if item.id != "" && item.poster != "" then old(imageCache)[item.id := item.poster] else old(imageCache)
    {
      var cached := GetCachedPoster(item.id);
      url := if cached.Some? then cached.value else if item.poster != "" then item.poster else PlaceholderPoster;
      if cached.None? && item.poster != "" {
        RememberPoster(item.id, item.poster);
      }
    }

    /**
     * The poster handling of `renderCards` (public/app.js:319-332): each item
     * is shown in turn, and its poster is remembered when it has one and the
     * cache had none for it.
     */
    method RenderCards(items: seq<Item>)
      modifies this`imageCache
      ensures imageCache == RememberAll(old(imageCache), items)
    {
      var i := 0;
      while i < |items|
        invariant 0 <= i <= |items|
        invariant imageCache == RememberAll(old(imageCache), items[..i])
      {
        ghost var before := imageCache;
        var _ := ShowPoster(items[i]);
        assert items[..i + 1][..i] == items[..i];
        assert imageCache == RememberShown(before, items[i]);
        i := i + 1;
      }
      assert items[..|items|] == items;
    }

    /**
     * The part of `loadMoreRecent` before its `await` (public/app.js:581-583):
     * nothing happens while a page is loading or when no more pages are
     * expected; otherwise loading starts and the next page number is returned.
     */
    method BeginLoadMore() returns (nextPage: Option<int>)
      modifies this`recentLoading
      ensures if old(recentLoading) || !recentHasMore then nextPage == None && recentLoading == old(recentLoading)
              else nextPage == Some(recentPage + 1) && recentLoading
    {
      if recentLoading || !recentHasMore {
        return None;
      }
      recentLoading := true;
      nextPage := Some(recentPage + 1);
    }

    /**
     * The part of `loadMoreRecent` after its `await` (public/app.js:584-601).
     * When the page is empty or holds only loaded ids, no more pages are
     * expected and items and page number stay; otherwise the loaded items keep
     * their order and gain exactly the page's unknown items, and the page number
     * becomes the one fetched. Loading ends either way.
     */
    method FinishLoadMore(nextPage: int, fetched: Fetched)
      modifies this`recentItems, this`recentPage, this`recentLoading, this`recentHasMore, this`imageCache
      ensures !recentLoading
      ensures var page := if fetched.Page? then fetched.recent else [];
              var added := UnknownItems(page, old(recentItems));
        if |added| == 0 then
          && !recentHasMore && recentItems == old(recentItems) && recentPage == old(recentPage)
          && imageCache == old(imageCache)
        else
          && recentItems == old(recentItems) + added && recentPage == nextPage && recentHasMore == old(recentHasMore)
          && imageCache == RememberAll(old(imageCache), added)
    {
      var nextItems := if fetched.Page? then fetched.recent else [];
      if |nextItems| == 0 {
        recentHasMore := false;
        recentLoading := false;
        return;
      }
      var newItems := UnknownItems(nextItems, recentItems);
      if |newItems| == 0 {
        recentHasMore := false;
        recentLoading := false;
        return;
      }
      recentItems := recentItems + newItems;
      recentPage := nextPage;
      RenderCards(newItems);
      recentLoading := false;
    }

    /**
     * `loadMoreRecent` run to its end with the fetched page given
     * (public/app.js:580-602): a no-op while loading or with no more pages;
     * otherwise the page number grows by exactly one when the page brought new
     * ids, and stays with no more pages expected when it did not.
     */
    method LoadMoreRecent(fetched: Fetched)
      modifies this`recentItems, this`recentPage, this`recentLoading, this`recentHasMore, this`imageCache
      ensures old(recentLoading) || !old(recentHasMore) ==>
        && recentItems == old(recentItems) && recentPage == old(recentPage)
        && recentLoading == old(recentLoading) && recentHasMore == old(recentHasMore)
        && imageCache == old(imageCache)
      ensures !old(recentLoading) && old(recentHasMore) ==>
        var added := UnknownItems(if fetched.Page? then fetched.recent else [], old(recentItems));
        && !recentLoading
        && recentItems == old(recentItems) + added
        && recentPage == (if |added| == 0 then old(recentPage) else old(recentPage) + 1)
        && recentHasMore == (|added| != 0)
        && imageCache == RememberAll(old(imageCache), added)
    {
      var nextPage := BeginLoadMore();
      if nextPage.Some? {
        FinishLoadMore(nextPage.value, fetched);
      }
    }

    /**
     * `loadHome` (public/app.js:604-612): the pager restarts at page 0 with
     * more pages expected; a failed fetch keeps the loaded items and the
     * cache, a successful one replaces the items with the first page and
     * renders it and then the approvals, remembering their posters. The
     * loading flag is not touched.
     */
    method LoadHome(fetched: Fetched)
      modifies this`recentItems, this`recentPage, this`recentHasMore, this`imageCache
      ensures recentPage == 0 && recentHasMore
      ensures recentItems == if fetched.Page? then fetched.recent else old(recentItems)
      ensures imageCache == if fetched.Page? then RememberAll(RememberAll(old(imageCache), fetched.recent), fetched.approvals)
                            else old(imageCache)
    {
      recentPage := 0;
      recentHasMore := true;
      if fetched.Failed? {
        return;
      }
      recentItems := fetched.recent;
      RenderCards(recentItems);
      RenderCards(fetched.approvals);
    }
  }

  /**
   * The server answers an admin login without a token and the client stores
   * whatever `token` the answer has. So after a successful admin login, or a
   * failed one by a client that held no token, the admin and requests views
   * still send the page home; only a token held from before lets them through.
   */
  method AdminViewsAfterLogin(store: Server.Store, client: ClientState, username: string, password: string, target: View)
    returns (shown: set<View>)
    requires target == AdminView || target == RequestsView
    modifies client
    ensures store.AdminLogin(username, password).Ok? || !old(client.HasAdminToken()) ==> shown == {HomeView}
    ensures !store.AdminLogin(username, password).Ok? && old(client.HasAdminToken()) ==> shown == {target}
  {
    var reply := store.AdminLogin(username, password);
    client.CompleteAdminLogin(reply);
    client.SetActiveView(target);
    shown := client.activeViews;
  }
}
