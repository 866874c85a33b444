/**
 * The records the server keeps in its data directory (server.js:16-26) and the
 * replies its handlers send. JSON objects become datatypes holding the fields the
 * core reads; a string field that the source tests for truthiness uses "" for
 * "missing", which is what JavaScript's `||` and `!` make of both.
 */
module Records {
  import opened Wrappers

  /** A search result as the client posts it in a request body. */
  datatype Item = Item(id: string, title: string, year: string, poster: string, plot: string)

  /**
   * A ledger entry: the item spread together with `type`, `requestedBy`,
   * `requestedAt` and, once denied, `deniedAt`. `kind` is the JSON field `type`.
   */
  datatype Entry = Entry(item: Item, kind: string, requestedBy: string, requestedAt: string, deniedAt: Option<string>)
  {
    function Id(): string { item.id }
  }

  /** The two keys `movies` and `shows` of the requests and blacklist documents. */
  datatype Category = Movies | Shows

  function Other(c: Category): Category { if c == Movies then Shows else Movies }

  /** A `{movies, shows}` document. */
  datatype Lists = Lists(movies: seq<Entry>, shows: seq<Entry>)
  {
    function Get(c: Category): seq<Entry> { if c == Movies then movies else shows }

    /** `doc[listKey] = s`: one list replaced, the other left alone. */
    function Put(c: Category, s: seq<Entry>): (r: Lists)
      ensures r.Get(c) == s && r.Get(Other(c)) == Get(Other(c))
    {
      if c == Movies then this.(movies := s) else this.(shows := s)
    }
  }

  /**
   * A permission policy as stored: each flag may be absent or `null` (`None`),
   * and only a present `true` lets the handler through.
   */
  datatype Policy = Policy(canRequestMovies: Option<bool>, canRequestShows: Option<bool>, autoApprove: Option<bool>)

  predicate Truthy(flag: Option<bool>) { flag == Some(true) }

  /**
   * The `defaults` object of a permissions update: each flag is left out
   * (`None`), sent as `null` (`Some(None)`) or sent as a boolean.
   */
  datatype PolicyPatch = PolicyPatch(canRequestMovies: Option<Option<bool>>, canRequestShows: Option<Option<bool>>,
                                     autoApprove: Option<Option<bool>>)

  /**
   * The permissions document: defaults plus whole per-user overrides. An
   * override stored as `null` is `None`.
   */
  datatype Permissions = Permissions(defaults: Policy, users: map<string, Option<Policy>>)

  datatype Admin = Admin(username: string, password: string)

  /** A Plex user record, kept under its Plex id. */
  datatype User = User(id: string, username: string, plexToken: string, sessionToken: string, background: string)

  /** A download manager (Radarr or Sonarr) as configured. */
  datatype Target = Target(baseUrl: string, apiKey: string)

  /** The parts of config.json the core reads. */
  datatype Config = Config(radarr: Target, sonarr: Target, defaultBackground: string)

  /**
   * What a handler answers: a JSON body, an error status with its message, or
   * nothing at all when an awaited call rejects outside any `try`.
   */
  datatype Reply<T> = Ok(body: T) | Fail(status: int, error: string) | Unanswered

  /**
   * What `readJson` yields for a data file: nothing usable (missing or not JSON),
   * a falsy JSON value (`null`, `false`, `0`, `""`), or a document.
   */
  datatype Stored<T> = Unreadable | Falsy | Present(value: T)

  /** `loadData`: a missing, unparsable or falsy document falls back to its default. */
  function LoadData<T>(stored: Stored<T>, fallback: T): (r: T)
    ensures stored.Present? ==> r == stored.value
    ensures !stored.Present? ==> r == fallback
  {
    if stored.Present? then stored.value else fallback
  }

  const DefaultAdmins: seq<Admin> := [Admin("admin", "admin")]
  const DefaultPolicy: Policy := Policy(Some(true), Some(true), Some(false))
  const DefaultPermissions: Permissions := Permissions(DefaultPolicy, map[])
  const NoEntries: Lists := Lists([], [])
}
