/**
 * The pure helpers of public/app.js: the actors line and the external-links
 * block of a card, the title filter of the blacklist view, and the type the
 * view infers for a blacklist entry before asking the server to remove it.
 * Lower-casing covers ASCII letters only.
 */
module Formatters {
  import opened Records
  import Ledger

  /** `parts.join(sep)`. */
  function Join(parts: seq<string>, sep: string): string
    decreases |parts|
  {
    if |parts| == 0 then ""
    else if |parts| == 1 then parts[0]
    else parts[0] + sep + Join(parts[1..], sep)
  }

  /** `t` occurs in `s` starting at position `i`. */
  predicate OccursAt(s: string, t: string, i: int)
  {
    0 <= i && i + |t| <= |s| && s[i..i + |t|] == t
  }

  /** `s.includes(t)`: `t` occurs in `s` at some position. */
  predicate Includes(s: string, t: string)
  {
    exists i | 0 <= i <= |s| :: OccursAt(s, t, i)
  }

  lemma IncludesLeft(a: string, b: string, t: string)
    requires Includes(a, t)
    ensures Includes(a + b, t)
  {
    var i :| 0 <= i <= |a| && OccursAt(a, t, i);
    assert i + |t| <= |a| && a[i..i + |t|] == t;
    assert (a + b)[i..i + |t|] == a[i..i + |t|];
    assert OccursAt(a + b, t, i);
  }

  lemma IncludesRight(a: string, b: string, t: string)
    requires Includes(b, t)
    ensures Includes(a + b, t)
  {
    var i :| 0 <= i <= |b| && OccursAt(b, t, i);
    assert i + |t| <= |b| && b[i..i + |t|] == t;
    assert (a + b)[|a| + i..|a| + i + |t|] == b[i..i + |t|];
    assert OccursAt(a + b, t, |a| + i);
  }

  /** Every part shows up in the joined text. */
  lemma {:induction false} JoinIncludesEachPart(parts: seq<string>, sep: string, k: nat)
    requires k < |parts|
    ensures Includes(Join(parts, sep), parts[k])
    decreases |parts|
  {
    if |parts| == 1 || k == 0 {
      var p := parts[0];
      assert p[0..|p|] == p;
      assert OccursAt(p, p, 0);
      if |parts| > 1 {
        IncludesLeft(p, sep + Join(parts[1..], sep), p);
        assert p + sep + Join(parts[1..], sep) == p + (sep + Join(parts[1..], sep));
      }
    } else {
      JoinIncludesEachPart(parts[1..], sep, k - 1);
      IncludesRight(parts[0] + sep, Join(parts[1..], sep), parts[k]);
    }
  }

  /** `formatActors` lists this many actors at most. */
  const ActorsShown: nat := 5
  const ActorsLabel: string := "Actors: "
  const NoActors: string := "Actors: Not available"

  /**
   * `formatActors` (public/app.js:87-90): the fixed text for an empty list,
   * otherwise the label followed by the first five actors, comma-separated.
   */
  function FormatActors(actors: seq<string>): (r: string)
    ensures |actors| == 0 ==> r == NoActors
    ensures |actors| > 0 ==> |r| >= |ActorsLabel| && r[..|ActorsLabel|] == ActorsLabel
  {
    if |actors| == 0 then NoActors
    else
      var shown := if |actors| <= ActorsShown then actors else actors[..ActorsShown];
      var r := ActorsLabel + Join(shown, ", ");
      assert r[..|ActorsLabel|] == ActorsLabel;
      r
  }

  /**
   * Only the first five actors matter: two lists that agree on them format
   * alike, and each of those five appears in the text.
   */
  lemma FormatActorsFirstFive(actors: seq<string>, others: seq<string>)
    requires |actors| > 0 && |others| > 0
    requires actors[..if |actors| <= ActorsShown then |actors| else ActorsShown]
          == others[..if |others| <= ActorsShown then |others| else ActorsShown]
    ensures FormatActors(actors) == FormatActors(others)
    ensures forall k :: 0 <= k < |actors| && k < ActorsShown ==> Includes(FormatActors(actors), actors[k])
  {
    var n := if |actors| <= ActorsShown then |actors| else ActorsShown;
    var shown := actors[..n];
    assert actors[..|actors|] == actors && others[..|others|] == others;
    assert |actors| <= ActorsShown ==> shown == actors;
    forall k | 0 <= k < |actors| && k < ActorsShown ensures Includes(FormatActors(actors), actors[k]) {
      JoinIncludesEachPart(shown, ", ", k);
      IncludesRight(ActorsLabel, Join(shown, ", "), shown[k]);
    }
  }

  const Quote: string := "\""

  /** `<a href="..." target="_blank" rel="noreferrer">text</a>`. */
  function Anchor(href: string, text: string): string
  {
    "<a href=" + Quote + href + Quote + " target=" + Quote + "_blank" + Quote
      + " rel=" + Quote + "noreferrer" + Quote + ">" + text + "</a>"
  }

  const NoLinks: string := "<span class=" + Quote + "card-meta" + Quote + ">No external links.</span>"

  /** The links `buildDetailsLinks` collects: IMDB first, then TVDB, each when the item has that URL. */
  function DetailsLinks(imdb: string, tvdb: string): seq<string>
  {
    (if imdb != "" then [Anchor(imdb, "IMDB")] else []) + (if tvdb != "" then [Anchor(tvdb, "TVDB")] else [])
  }

  lemma AnchorOpensTag(href: string, text: string)
    ensures |Anchor(href, text)| >= 2 && Anchor(href, text)[..2] == "<a"
  {
    assert Anchor(href, text) == "<a" + (" href=" + Quote + href + Quote + " target=" + Quote + "_blank" + Quote
      + " rel=" + Quote + "noreferrer" + Quote + ">" + text + "</a>");
  }

  lemma NoLinksOpensSpan()
    ensures |NoLinks| >= 2 && NoLinks[..2] == "<s"
  {
    assert NoLinks == "<s" + ("pan class=" + Quote + "card-meta" + Quote + ">No external links.</span>");
  }

  lemma JoinOne(a: string)
    ensures Join([a], "") == a
  {
  }

  lemma JoinTwo(a: string, b: string)
    ensures Join([a, b], "") == a + b
  {
    assert [a, b][1..] == [b];
    JoinOne(b);
  }

  lemma OpensLikeLeft(a: string, b: string)
    requires |a| >= 2
    ensures (a + b)[..2] == a[..2]
  {
  }

  /** Joining the collected links with `''` concatenates them, and the text opens with a link tag. */
  lemma DetailsLinksJoined(imdb: string, tvdb: string)
    requires imdb != "" || tvdb != ""
    ensures Join(DetailsLinks(imdb, tvdb), "")
         == (if imdb != "" then Anchor(imdb, "IMDB") else "") + (if tvdb != "" then Anchor(tvdb, "TVDB") else "")
    ensures |Join(DetailsLinks(imdb, tvdb), "")| >= 2 && Join(DetailsLinks(imdb, tvdb), "")[..2] == "<a"
  {
    var first := if imdb != "" then Anchor(imdb, "IMDB") else Anchor(tvdb, "TVDB");
    AnchorOpensTag(imdb, "IMDB");
    AnchorOpensTag(tvdb, "TVDB");
    if imdb != "" && tvdb != "" {
      assert DetailsLinks(imdb, tvdb) == [Anchor(imdb, "IMDB"), Anchor(tvdb, "TVDB")];
      JoinTwo(Anchor(imdb, "IMDB"), Anchor(tvdb, "TVDB"));
      OpensLikeLeft(Anchor(imdb, "IMDB"), Anchor(tvdb, "TVDB"));
    } else {
      assert DetailsLinks(imdb, tvdb) == [first];
      JoinOne(first);
      assert first + "" == first;
    }
  }

  /**
   * `buildDetailsLinks` (public/app.js:92-101): the IMDB link, then the TVDB
   * link, each present when the item has that URL, and the "no links" note when
   * it has neither.
   */
  function BuildDetailsLinks(imdb: string, tvdb: string): (r: string)
    ensures imdb == "" && tvdb == "" <==> r == NoLinks
    ensures imdb != "" && tvdb != "" ==> r == Anchor(imdb, "IMDB") + Anchor(tvdb, "TVDB")
    ensures imdb != "" && tvdb == "" ==> r == Anchor(imdb, "IMDB")
    ensures imdb == "" && tvdb != "" ==> r == Anchor(tvdb, "TVDB")
  {
    if |DetailsLinks(imdb, tvdb)| == 0 then NoLinks
    else
      DetailsLinksJoined(imdb, tvdb);
      NoLinksOpensSpan();
      Join(DetailsLinks(imdb, tvdb), "")
  }

  /** ASCII `toLowerCase` on one character. */
  function LowerChar(c: char): char
  {
    if 'A' <= c <= 'Z' then (c as int + 32) as char else c
  }

  /** `toLowerCase`, one character at a time. */
  function Lower(s: string): (r: string)
    ensures |r| == |s| && forall i :: 0 <= i < |s| ==> r[i] == LowerChar(s[i])
  {
    seq(|s|, i requires 0 <= i < |s| => LowerChar(s[i]))
  }

  /** The test of public/app.js:544: the lower-cased title includes the lower-cased filter. */
  predicate TitleMatches(e: Entry, filter: string)
  {
    Includes(Lower(e.item.title), Lower(filter))
  }

  /** The `filter` of public/app.js:543-545 over one list, in order. */
  function FilterByTitle(entries: seq<Entry>, filter: string): (r: seq<Entry>)
    ensures |r| <= |entries|
    ensures forall e :: e in r <==> e in entries && TitleMatches(e, filter)
    decreases |entries|
  {
    if |entries| == 0 then []
    else if TitleMatches(entries[0], filter) then [entries[0]] + FilterByTitle(entries[1..], filter)
    else FilterByTitle(entries[1..], filter)
  }

  /** The entries `renderBlacklist` shows: movies then shows, filtered by title. */
  function BlacklistView(blacklist: Lists, filter: string): (r: seq<Entry>)
    ensures forall e :: e in r <==> (e in blacklist.movies || e in blacklist.shows) && TitleMatches(e, filter)
  {
    FilterByTitle(blacklist.movies + blacklist.shows, filter)
  }

  lemma {:induction false} FilterByTitleAppend(a: seq<Entry>, b: seq<Entry>, filter: string)
    ensures FilterByTitle(a + b, filter) == FilterByTitle(a, filter) + FilterByTitle(b, filter)
    decreases |a|
  {
    if |a| == 0 {
      assert a + b == b;
    } else {
      assert (a + b)[0] == a[0];
      assert (a + b)[1..] == a[1..] + b;
      FilterByTitleAppend(a[1..], b, filter);
    }
  }

  /** The matching movies come first, then the matching shows, each in stored order. */
  lemma BlacklistViewMoviesFirst(blacklist: Lists, filter: string)
    ensures BlacklistView(blacklist, filter) == FilterByTitle(blacklist.movies, filter) + FilterByTitle(blacklist.shows, filter)
  {
    FilterByTitleAppend(blacklist.movies, blacklist.shows, filter);
  }

  /** Every text includes the empty text. */
  lemma IncludesEmpty(s: string)
    ensures Includes(s, "")
  {
    assert s[0..0] == "";
    assert OccursAt(s, "", 0);
  }

  lemma {:induction false} EmptyFilterKeepsList(entries: seq<Entry>)
    ensures FilterByTitle(entries, "") == entries
    decreases |entries|
  {
    if |entries| > 0 {
      assert Lower("") == "";
      IncludesEmpty(Lower(entries[0].item.title));
      EmptyFilterKeepsList(entries[1..]);
      assert [entries[0]] + entries[1..] == entries;
    }
  }

  /** An empty filter shows the whole blacklist, movies then shows. */
  lemma EmptyFilterShowsAll(blacklist: Lists)
    ensures BlacklistView(blacklist, "") == blacklist.movies + blacklist.shows
  {
    EmptyFilterKeepsList(blacklist.movies + blacklist.shows);
  }

  lemma LowerIdempotent(s: string)
    ensures Lower(Lower(s)) == Lower(s)
  {
  }

  lemma {:induction false} FilterByLoweredQuery(entries: seq<Entry>, filter: string)
    ensures FilterByTitle(entries, Lower(filter)) == FilterByTitle(entries, filter)
    decreases |entries|
  {
    LowerIdempotent(filter);
    if |entries| > 0 {
      FilterByLoweredQuery(entries[1..], filter);
    }
  }

  /** The filter ignores the case of the query: a lower-cased query matches the same entries. */
  lemma FilterIgnoresQueryCase(blacklist: Lists, filter: string)
    ensures BlacklistView(blacklist, Lower(filter)) == BlacklistView(blacklist, filter)
  {
    FilterByLoweredQuery(blacklist.movies + blacklist.shows, filter);
  }

  /**
   * The type `renderBlacklist` sends with a removal (public/app.js:555): the
   * entry's own type, or else `movie` when a blacklisted movie has its id and
   * `show` otherwise.
   */
  function BlacklistType(e: Entry, blacklist: Lists): (t: string)
    ensures e.kind != "" ==> t == e.kind
    ensures e.kind == "" ==> (t == "movie" <==> exists m :: m in blacklist.movies && m.Id() == e.Id())
    ensures e.kind == "" ==> t == "movie" || t == "show"
  {
    if e.kind != "" then e.kind
    else if exists m :: m in blacklist.movies && m.Id() == e.Id() then "movie"
    else "show"
  }

  /**
   * The inferred type leads the server to the list the entry is in: an entry
   * filed under its own type, or an untyped entry whose id no movie of the
   * other list shares, is removed from its own list.
   */
  lemma InferredTypeFindsOwnList(e: Entry, blacklist: Lists, c: Category)
    requires e in blacklist.Get(c)
    requires e.kind != "" ==> Ledger.ListKey(e.kind) == c
    requires e.kind == "" && c == Shows ==> forall m :: m in blacklist.movies ==> m.Id() != e.Id()
    ensures Ledger.ListKey(BlacklistType(e, blacklist)) == c
  {
  }
}
