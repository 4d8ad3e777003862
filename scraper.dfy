/** The crawl of Extraction_test.py: fetching through the page cache, the
    players and the matches of one tournament, the per-tournament state
    machine that writes the artifacts and counts them, and the walk over
    the pages of the completed-tournament list. The site is a function from
    URL to page; the cache directory and the output directory are maps. */
module Crawler {
  import opened Common
  import opened Extraction

  /** `scraping_stats`. */
  datatype Stats = Stats(tournamentsScraped: nat, totalPlayers: nat, totalDecklists: nat, totalCards: nat, totalMatches: nat)

  /** `sum(1 for p in players if len(p.decklist) > 0)`. */
  function WithDecklist(players: seq<Player>): (n: nat)
    ensures n <= |players|
  {
    if players == [] then 0
    else WithDecklist(players[..|players| - 1]) + (if players[|players| - 1].decklist != [] then 1 else 0)
  }

  /** A player with a decklist has at least one card in it. */
  lemma {:induction false} DecklistsAtMostCards(players: seq<Player>)
    ensures WithDecklist(players) <= CardCount(players)
  {
    if players != [] {
      DecklistsAtMostCards(players[..|players| - 1]);
    }
  }

  /** The counters after a tournament is written: one more tournament, its
      players and matches added; it adds no more decklists than players and
      no more decklists than cards. */
  function Record(stats: Stats, t: Tournament): (s: Stats)
    ensures s.tournamentsScraped == stats.tournamentsScraped + 1
    ensures s.totalPlayers == stats.totalPlayers + |t.players|
    ensures s.totalMatches == stats.totalMatches + |t.matches|
    ensures stats.totalDecklists <= s.totalDecklists <= stats.totalDecklists + |t.players|
    ensures s.totalDecklists - stats.totalDecklists <= s.totalCards - stats.totalCards
  {
    DecklistsAtMostCards(t.players);
    Stats(stats.tournamentsScraped + 1, stats.totalPlayers + |t.players|,
          stats.totalDecklists + WithDecklist(t.players), stats.totalCards + CardCount(t.players),
          stats.totalMatches + |t.matches|)
  }

  /** The artifact of a listed tournament, its metadata read from its row
      of the list with the defaults of `attrs.get`. */
  function TournamentOf(row: Row, players: seq<Player>, matches: seq<Match>): Tournament {
    Tournament(row.linkId, AttrOr(row.attrs, "data-name", ""), AttrOr(row.attrs, "data-date", ""),
               AttrOr(row.attrs, "data-organizer", ""), AttrOr(row.attrs, "data-format", ""),
               AttrOr(row.attrs, "data-players", "0"), players, matches)
  }

  /** What happened to one listed tournament. `Aborted` is a decklist whose
      text does not convert, which stops the whole run. */
  datatype Outcome = AlreadyWritten | NoPlayers | Completed(t: Tournament) | Aborted

  const FirstTournamentPage: string := "/tournaments/completed?game=POCKET&format=STANDARD&platform=all&type=online&time=all"

  /** The page bound; the page count the list declares is not read. */
  const MaxPage: int := 1

  /** The page number a list page declares, 1 when it declares none. */
  function CurrentPage(p: Pagination): int {
    if p.current.Some? then p.current.value else 1
  }

  function NextPageUrl(current: int): string {
    FirstTournamentPage + "&page=" + IntToString(current + 1)
  }

  /** The list is followed to a next page only while the declared page is
      below the bound, so a page that declares itself page 1 or later is
      the last one visited. */
  lemma NextPageOnlyBelowBound(p: Pagination)
    ensures CurrentPage(p) < MaxPage <==> (p.current.Some? && p.current.value <= 0)
  {
  }

  /** The page a fetch returns: the cached copy when the cache is used and
      holds one, the site's page otherwise. */
  function Served(cache: map<string, Page>, site: string -> Page, url: string, useCache: bool): Page {
    if useCache && CacheKey(url) in cache then cache[CacheKey(url)] else site(url)
  }

  /** The cache after a fetch: a page taken from the site is stored under
      its cache file name. */
  function CacheAfter(cache: map<string, Page>, site: string -> Page, url: string, useCache: bool): map<string, Page> {
    if useCache && CacheKey(url) in cache then cache else cache[CacheKey(url) := site(url)]
  }

  /** After a fetch the cache holds the page that was returned, so a second
      fetch through the cache returns the same page and leaves the cache as
      it is. */
  lemma FetchTwice(cache: map<string, Page>, site: string -> Page, url: string, useCache: bool)
    ensures CacheKey(url) in CacheAfter(cache, site, url, useCache)
    ensures CacheAfter(cache, site, url, useCache)[CacheKey(url)] == Served(cache, site, url, useCache)
    ensures Served(CacheAfter(cache, site, url, useCache), site, url, true) == Served(cache, site, url, useCache)
    ensures CacheAfter(CacheAfter(cache, site, url, useCache), site, url, true) == CacheAfter(cache, site, url, useCache)
  {
  }

  /** b keeps every entry of a. */
  predicate Extends(a: map<string, Page>, b: map<string, Page>) {
    forall k :: k in a ==> k in b && b[k] == a[k]
  }

  /** b keeps every artifact of a. */
  predicate KeepsArtifacts(a: map<string, Tournament>, b: map<string, Tournament>) {
    forall k :: k in a ==> k in b && b[k] == a[k]
  }

  /** Every present URL's cache entry exists in the cache. */
  predicate AllCached(urls: seq<Option<string>>, cache: map<string, Page>) {
    forall i :: 0 <= i < |urls| && urls[i].Some? ==> CacheKey(urls[i].value) in cache
  }

  /** The first n pages answer the first n URLs: present exactly when the
      URL is, and then the cache entry of that URL. */
  predicate PagesFromCache(urls: seq<Option<string>>, pages: seq<Option<Page>>, cache: map<string, Page>, n: nat) {
    n <= |urls| && n <= |pages|
    && forall i :: 0 <= i < n ==>
         (pages[i].Some? <==> urls[i].Some?)
         && (urls[i].Some? ==> CacheKey(urls[i].value) in cache && pages[i].value == cache[CacheKey(urls[i].value)])
  }

  /** A fetch through the cache keeps the earlier answers valid and adds
      its own. */
  lemma PagesFromCacheGrow(urls: seq<Option<string>>, pages: seq<Option<Page>>, c1: map<string, Page>,
                           c2: map<string, Page>, n: nat)
    requires PagesFromCache(urls, pages, c1, n) && |pages| == n && n < |urls|
    requires Extends(c1, c2)
    ensures forall page: Option<Page> ::
      (page.Some? <==> urls[n].Some?)
      && (urls[n].Some? ==> CacheKey(urls[n].value) in c2 && page.value == c2[CacheKey(urls[n].value)])
      ==> PagesFromCache(urls, pages + [page], c2, n + 1)
  {
  }

  /** Every URL of the list, as a present one. */
  function AllSome(urls: seq<string>): (r: seq<Option<string>>)
    ensures |r| == |urls| && forall i :: 0 <= i < |urls| ==> r[i] == Some(urls[i])
  {
    seq(|urls|, i requires 0 <= i < |urls| => Some(urls[i]))
  }

  /** The pages of a list in which every page is present. */
  function Present(pages: seq<Option<Page>>): (r: seq<Page>)
    requires forall i :: 0 <= i < |pages| ==> pages[i].Some?
    ensures |r| == |pages| && forall i :: 0 <= i < |pages| ==> r[i] == pages[i].value
  {
    seq(|pages|, i requires 0 <= i < |pages| => pages[i].value)
  }

  /** Fetching present URLs through the cache yields present pages, each
      the cache entry of its URL. */
  lemma PresentFromCache(urls: seq<string>, pages: seq<Option<Page>>, cache: map<string, Page>)
    requires |pages| == |urls| && PagesFromCache(AllSome(urls), pages, cache, |urls|)
    ensures forall i :: 0 <= i < |pages| ==> pages[i].Some?
    ensures forall i :: 0 <= i < |urls| ==> CacheKey(urls[i]) in cache && Present(pages)[i] == cache[CacheKey(urls[i])]
  {
  }

  /** The standings URL of each listed tournament. */
  function StandingsUrls(trs: seq<Row>): (urls: seq<string>)
    ensures |urls| == |trs| && forall i :: 0 <= i < |trs| ==> urls[i] == StandingsUrl(trs[i].linkId)
  {
    seq(|trs|, i requires 0 <= i < |trs| => StandingsUrl(trs[i].linkId))
  }

  // ---------------------------------------------------------------------
  // The state of a crawl and the specification of each step

  /** What the crawl changes: the cache directory, the requests made to the
      site, the output directory and the counters. */
  datatype World = World(cache: map<string, Page>, fetchLog: seq<string>, written: map<string, Tournament>, stats: Stats)

  /** b starts with a. */
  predicate LogExtends(a: seq<string>, b: seq<string>) {
    |a| <= |b| && b[..|a|] == a
  }

  /** What every step of the crawl keeps: no cache file disappears,
      requests are only appended, written artifacts stay as they are, and
      the tournament counter grows by the number of new artifacts. */
  predicate Keeps(w: World, w2: World) {
    w.cache.Keys <= w2.cache.Keys
    && LogExtends(w.fetchLog, w2.fetchLog)
    && KeepsArtifacts(w.written, w2.written)
    && w2.stats.tournamentsScraped + |w.written| == w.stats.tournamentsScraped + |w2.written|
  }

  lemma LogExtendsTransitive(a: seq<string>, b: seq<string>, c: seq<string>)
    requires LogExtends(a, b) && LogExtends(b, c)
    ensures LogExtends(a, c)
  {
    assert c[..|a|] == c[..|b|][..|a|];
  }

  lemma KeepsTransitive(a: World, b: World, c: World)
    requires Keeps(a, b) && Keeps(b, c)
    ensures Keeps(a, c)
  {
    LogExtendsTransitive(a.fetchLog, b.fetchLog, c.fetchLog);
  }

  /** `async_soup_from_url` on the state: no page for no URL; otherwise the
      page served (the cached one on a hit), the cache after storing a page
      taken from the site, and the request logged on a miss. */
  function FetchW(site: string -> Page, w: World, url: Option<string>, useCache: bool): (World, Option<Page>) {
    if url.None? then (w, None)
    else
      var u := url.value;
      (w.(cache := CacheAfter(w.cache, site, u, useCache),
          fetchLog := w.fetchLog + (if useCache && CacheKey(u) in w.cache then [] else [u])),
       Some(Served(w.cache, site, u, useCache)))
  }

  /** The fan-out `asyncio.gather` over fetches through the cache, as the
      fetches one after the other in list order. */
  function FetchAllW(site: string -> Page, w: World, urls: seq<Option<string>>): (r: (World, seq<Option<Page>>))
    ensures |r.1| == |urls|
  {
    if urls == [] then (w, [])
    else
      var n := |urls| - 1;
      var prev := FetchAllW(site, w, urls[..n]);
      var step := FetchW(site, prev.0, urls[n], true);
      (step.0, prev.1 + [step.1])
  }

  /** The cache files of the present URLs. */
  function UrlKeys(urls: seq<Option<string>>): set<string> {
    set i | 0 <= i < |urls| && urls[i].Some? :: CacheKey(urls[i].value)
  }

  lemma UrlKeysSnoc(urls: seq<Option<string>>)
    requires urls != []
    ensures UrlKeys(urls) == UrlKeys(urls[..|urls| - 1])
      + (if urls[|urls| - 1].Some? then {CacheKey(urls[|urls| - 1].value)} else {})
  {
    var n := |urls| - 1;
    forall k | k in UrlKeys(urls)
      ensures k in UrlKeys(urls[..n]) || (urls[n].Some? && k == CacheKey(urls[n].value))
    {
      var i :| 0 <= i < |urls| && urls[i].Some? && k == CacheKey(urls[i].value);
      if i < n {
        assert urls[..n][i] == urls[i];
      }
    }
    forall k | k in UrlKeys(urls[..n])
      ensures k in UrlKeys(urls)
    {
      var i :| 0 <= i < n && urls[..n][i].Some? && k == CacheKey(urls[..n][i].value);
      assert urls[..n][i] == urls[i];
    }
  }

  /** The URLs a fan-out requests from the site, in order: those whose
      cache file existed neither before the fan-out nor through an earlier
      URL of it. */
  function Missed(cache: map<string, Page>, urls: seq<Option<string>>): seq<string> {
    if urls == [] then []
    else
      var n := |urls| - 1;
      Missed(cache, urls[..n])
        + (if urls[n].Some? && CacheKey(urls[n].value) !in cache && CacheKey(urls[n].value) !in UrlKeys(urls[..n])
           then [urls[n].value] else [])
  }

  /** The fan-out answers each URL with the cache entry of its URL, keeps
      every cache entry, and touches neither the artifacts nor the
      counters. */
  lemma {:induction false} FetchAllPages(site: string -> Page, w: World, urls: seq<Option<string>>)
    ensures var r := FetchAllW(site, w, urls);
      r.0.written == w.written && r.0.stats == w.stats
      && Extends(w.cache, r.0.cache) && LogExtends(w.fetchLog, r.0.fetchLog)
      && PagesFromCache(urls, r.1, r.0.cache, |urls|)
  {
    if urls != [] {
      var n := |urls| - 1;
      FetchAllPages(site, w, urls[..n]);
      var prev := FetchAllW(site, w, urls[..n]);
      assert PagesFromCache(urls, prev.1, prev.0.cache, n) by {
        assert forall i :: 0 <= i < n ==> urls[..n][i] == urls[i];
      }
      var step := FetchW(site, prev.0, urls[n], true);
      PagesFromCacheGrow(urls, prev.1, prev.0.cache, step.0.cache, n);
      assert step.0.fetchLog[..|w.fetchLog|] == prev.0.fetchLog[..|w.fetchLog|];
    }
  }

  /** A cache entry the fan-out adds holds the site's page of one of its
      URLs. */
  predicate NewEntryFromSite(site: string -> Page, urls: seq<Option<string>>, c: map<string, Page>, k: string)
    requires k in c
  {
    exists i :: 0 <= i < |urls| && urls[i].Some? && k == CacheKey(urls[i].value) && c[k] == site(urls[i].value)
  }

  /** One fetch through the cache adds at most the file of its URL, with
      the site's page, and keeps every other file. */
  lemma FetchStepCache(site: string -> Page, w: World, url: Option<string>)
    ensures var c := FetchW(site, w, url, true).0.cache;
      c.Keys == w.cache.Keys + (if url.Some? then {CacheKey(url.value)} else {})
      && Extends(w.cache, c)
      && (url.Some? && CacheKey(url.value) !in w.cache ==> c[CacheKey(url.value)] == site(url.value))
  {
  }

  /** After the fan-out the cache holds the old files and the files of the
      URLs. */
  lemma {:induction false} FetchAllKeys(site: string -> Page, w: World, urls: seq<Option<string>>)
    ensures FetchAllW(site, w, urls).0.cache.Keys == w.cache.Keys + UrlKeys(urls)
  {
    if urls != [] {
      var n := |urls| - 1;
      FetchAllKeys(site, w, urls[..n]);
      UrlKeysSnoc(urls);
      FetchStepCache(site, FetchAllW(site, w, urls[..n]).0, urls[n]);
    }
  }

  /** Each file the fan-out adds holds the site's page of one of its URLs. */
  lemma {:induction false} FetchAllNewEntries(site: string -> Page, w: World, urls: seq<Option<string>>)
    ensures var c := FetchAllW(site, w, urls).0.cache;
      forall k :: k in c && k !in w.cache ==> NewEntryFromSite(site, urls, c, k)
  {
    if urls != [] {
      var n := |urls| - 1;
      FetchAllNewEntries(site, w, urls[..n]);
      var prev := FetchAllW(site, w, urls[..n]).0.cache;
      var c := FetchAllW(site, w, urls).0.cache;
      FetchStepCache(site, FetchAllW(site, w, urls[..n]).0, urls[n]);
      forall k | k in c && k !in w.cache
        ensures NewEntryFromSite(site, urls, c, k)
      {
        if k in prev {
          assert NewEntryFromSite(site, urls[..n], prev, k);
          var i :| 0 <= i < n && urls[..n][i].Some? && k == CacheKey(urls[..n][i].value)
                   && prev[k] == site(urls[..n][i].value);
          assert urls[..n][i] == urls[i];
        } else {
          assert urls[n].Some? && k == CacheKey(urls[n].value);
        }
      }
    }
  }

  /** The fan-out requests from the site exactly the URLs it misses, in
      list order. */
  lemma {:induction false} FetchAllLog(site: string -> Page, w: World, urls: seq<Option<string>>)
    ensures FetchAllW(site, w, urls).0.fetchLog == w.fetchLog + Missed(w.cache, urls)
  {
    if urls != [] {
      var n := |urls| - 1;
      FetchAllLog(site, w, urls[..n]);
      FetchAllKeys(site, w, urls[..n]);
    }
  }

  /** When every URL is cached, the fan-out requests nothing and changes
      nothing: each page is the old cache entry. */
  lemma FetchAllHits(site: string -> Page, w: World, urls: seq<Option<string>>)
    requires AllCached(urls, w.cache)
    ensures FetchAllW(site, w, urls).0 == w
    ensures PagesFromCache(urls, FetchAllW(site, w, urls).1, w.cache, |urls|)
  {
    var r := FetchAllW(site, w, urls);
    FetchAllPages(site, w, urls);
    FetchAllKeys(site, w, urls);
    FetchAllLog(site, w, urls);
    assert UrlKeys(urls) <= w.cache.Keys;
    assert r.0.cache == w.cache;
    MissedNone(w.cache, urls);
  }

  lemma {:induction false} MissedNone(cache: map<string, Page>, urls: seq<Option<string>>)
    requires AllCached(urls, cache)
    ensures Missed(cache, urls) == []
  {
    if urls != [] {
      var n := |urls| - 1;
      assert AllCached(urls[..n], cache) by {
        assert forall i :: 0 <= i < n ==> urls[..n][i] == urls[i];
      }
      MissedNone(cache, urls[..n]);
    }
  }

  /** `extract_players` up to the fan-out: the decklist page of each
      standings row, fetched through the cache. */
  function DecklistPages(site: string -> Page, w: World, standings: Page, tid: string): (r: (World, seq<Option<Page>>))
    ensures |r.1| == |DataRows(standings, "striped")|
  {
    FetchAllW(site, w, DecklistUrls(tid, DataRows(standings, "striped")))
  }

  /** A row links to a decklist exactly when its page is present, and the
      page is the cache entry of the row's decklist URL. */
  lemma DecklistPagesFromCache(site: string -> Page, w: World, standings: Page, tid: string)
    ensures var rows := DataRows(standings, "striped");
      var r := DecklistPages(site, w, standings, tid);
      r.0.written == w.written && r.0.stats == w.stats
      && Extends(w.cache, r.0.cache) && LogExtends(w.fetchLog, r.0.fetchLog)
      && forall i :: 0 <= i < |rows| ==>
           (r.1[i].Some? <==> rows[i].hasDecklistLink)
           && (rows[i].hasDecklistLink ==>
                 CacheKey(DecklistUrl(tid, rows[i].linkId)) in r.0.cache
                 && r.1[i].value == r.0.cache[CacheKey(DecklistUrl(tid, rows[i].linkId))])
  {
    FetchAllPages(site, w, DecklistUrls(tid, DataRows(standings, "striped")));
  }

  /** `extract_matches` on the state: the current pairing page through the
      cache, then the earlier rounds its navigation links to, earlier rounds
      first and the current one last. */
  function PairingPages(site: string -> Page, w: World, tid: string): (r: (World, seq<Page>))
    ensures |r.1| >= 1
  {
    var first := FetchW(site, w, Some(PairingsUrl(tid)), true);
    var current := Served(w.cache, site, PairingsUrl(tid), true);
    var urls := PreviousPairingsUrls(current);
    var rest := FetchAllW(site, first.0, AllSome(urls));
    FetchAllPages(site, first.0, AllSome(urls));
    PresentFromCache(urls, rest.1, rest.0.cache);
    (rest.0, Present(rest.1) + [current])
  }

  /** Each round's page is the cache entry of its URL: the current round
      last, under the pairings URL, and before it the rounds its navigation
      lists, in order. */
  lemma PairingPagesFromCache(site: string -> Page, w: World, tid: string)
    ensures var r := PairingPages(site, w, tid);
      var last := r.1[|r.1| - 1];
      var earlier := PreviousPairingsUrls(last);
      r.0.written == w.written && r.0.stats == w.stats
      && Extends(w.cache, r.0.cache) && LogExtends(w.fetchLog, r.0.fetchLog)
      && CacheKey(PairingsUrl(tid)) in r.0.cache && last == r.0.cache[CacheKey(PairingsUrl(tid))]
      && |r.1| == |earlier| + 1
      && forall i :: 0 <= i < |earlier| ==> CacheKey(earlier[i]) in r.0.cache && r.1[i] == r.0.cache[CacheKey(earlier[i])]
  {
    var first := FetchW(site, w, Some(PairingsUrl(tid)), true);
    var current := Served(w.cache, site, PairingsUrl(tid), true);
    var urls := PreviousPairingsUrls(current);
    FetchAllPages(site, first.0, AllSome(urls));
    var rest := FetchAllW(site, first.0, AllSome(urls));
    PresentFromCache(urls, rest.1, rest.0.cache);
    var r := PairingPages(site, w, tid);
    assert r.1[|r.1| - 1] == current;
    assert r.0.fetchLog[..|w.fetchLog|] == r.0.fetchLog[..|first.0.fetchLog|][..|w.fetchLog|];
  }

  /** `handle_tournament_standings_page` on the state, for the tournament
      of a list row. */
  function HandleTournamentW(site: string -> Page, w: World, standings: Page, row: Row): (World, Outcome) {
    var tid := row.linkId;
    if tid in w.written then (w, AlreadyWritten)
    else
      var d := DecklistPages(site, w, standings, tid);
      var players := PlayersFrom(DataRows(standings, "striped"), d.1);
      if players.None? then (d.0, Aborted)
      else if players.value == [] then (d.0, NoPlayers)
      else
        var m := PairingPages(site, d.0, tid);
        var t := TournamentOf(row, players.value, MatchesOfPages(m.1));
        (m.0.(written := m.0.written[tid := t], stats := Record(m.0.stats, t)), Completed(t))
  }

  /** Some row links to a decklist whose cached page does not convert. */
  predicate CachedDecklistFails(cache: map<string, Page>, tid: string, rows: seq<Row>) {
    exists i :: 0 <= i < |rows| && rows[i].hasDecklistLink
      && CacheKey(DecklistUrl(tid, rows[i].linkId)) in cache
      && Decklist(cache[CacheKey(DecklistUrl(tid, rows[i].linkId))]).None?
  }

  /** The outcome of a tournament: skipped when its artifact exists;
      otherwise skipped when no standings row links a decklist; otherwise
      aborted exactly when one of the decklists, as cached, does not
      convert; completed in every other case. */
  lemma HandleTournamentOutcome(site: string -> Page, w: World, standings: Page, row: Row)
    ensures var r := HandleTournamentW(site, w, standings, row);
      var rows := DataRows(standings, "striped");
      var c := DecklistPages(site, w, standings, row.linkId).0.cache;
      (r.1 == AlreadyWritten <==> row.linkId in w.written)
      && (r.1 == NoPlayers <==> row.linkId !in w.written && LinkedRows(rows) == [])
      && (r.1 == Aborted <==> row.linkId !in w.written && LinkedRows(rows) != [] && CachedDecklistFails(c, row.linkId, rows))
  {
    var tid := row.linkId;
    var rows := DataRows(standings, "striped");
    var d := DecklistPages(site, w, standings, tid);
    DecklistPagesFromCache(site, w, standings, tid);
    PlayersFromFails(rows, d.1);
    NoLinkedRows(rows);
    DecklistFailsCached(site, w, standings, tid);
    if PlayersFrom(rows, d.1).Some? {
      PlayersAreKeptRows(rows, d.1);
      KeptRowsAreLinked(rows, d.1);
    }
    if LinkedRows(rows) == [] {
      assert !SomeDecklistFails(d.1);
    }
  }

  /** A fetched decklist page fails to convert exactly when a cached one
      of a linked row does. */
  lemma DecklistFailsCached(site: string -> Page, w: World, standings: Page, tid: string)
    ensures var d := DecklistPages(site, w, standings, tid);
      SomeDecklistFails(d.1) <==> CachedDecklistFails(d.0.cache, tid, DataRows(standings, "striped"))
  {
    var rows := DataRows(standings, "striped");
    var d := DecklistPages(site, w, standings, tid);
    DecklistPagesFromCache(site, w, standings, tid);
    if SomeDecklistFails(d.1) {
      var i :| 0 <= i < |d.1| && d.1[i].Some? && Decklist(d.1[i].value).None?;
      assert rows[i].hasDecklistLink;
    }
    if CachedDecklistFails(d.0.cache, tid, rows) {
      var i :| 0 <= i < |rows| && rows[i].hasDecklistLink
               && CacheKey(DecklistUrl(tid, rows[i].linkId)) in d.0.cache
               && Decklist(d.0.cache[CacheKey(DecklistUrl(tid, rows[i].linkId))]).None?;
      assert d.1[i].Some? && Decklist(d.1[i].value).None?;
    }
  }

  /** The fetches of a tournament change neither the artifacts nor the
      counters, and only add cache files and requests. */
  lemma FetchesKeep(site: string -> Page, w: World, standings: Page, tid: string)
    ensures var d := DecklistPages(site, w, standings, tid);
      var m := PairingPages(site, d.0, tid);
      d.0.written == w.written && d.0.stats == w.stats
      && m.0.written == w.written && m.0.stats == w.stats
      && Extends(w.cache, d.0.cache) && Extends(w.cache, m.0.cache)
      && LogExtends(w.fetchLog, d.0.fetchLog) && LogExtends(w.fetchLog, m.0.fetchLog)
  {
    var d := DecklistPages(site, w, standings, tid);
    DecklistPagesFromCache(site, w, standings, tid);
    PairingPagesFromCache(site, d.0, tid);
    var m := PairingPages(site, d.0, tid);
    LogExtendsTransitive(w.fetchLog, d.0.fetchLog, m.0.fetchLog);
  }

  /** Writing a new artifact on top of fetches keeps the state. */
  lemma RecordKeeps(w: World, m: World, tid: string, t: Tournament)
    requires tid !in w.written && m.written == w.written && m.stats == w.stats
    requires Extends(w.cache, m.cache) && LogExtends(w.fetchLog, m.fetchLog)
    ensures Keeps(w, m.(written := m.written[tid := t], stats := Record(m.stats, t)))
  {
  }

  /** A skipped tournament changes nothing; only a completed one writes an
      artifact and counts it; every outcome keeps the state. */
  lemma HandleTournamentEffects(site: string -> Page, w: World, standings: Page, row: Row)
    ensures var r := HandleTournamentW(site, w, standings, row);
      Keeps(w, r.0) && Extends(w.cache, r.0.cache)
      && (row.linkId in w.written ==> r.0 == w)
      && (!r.1.Completed? ==> r.0.written == w.written && r.0.stats == w.stats)
      && (r.1.Completed? ==>
            row.linkId !in w.written
            && r.0.written == w.written[row.linkId := r.1.t]
            && r.0.stats == Record(w.stats, r.1.t))
  {
    var tid := row.linkId;
    var r := HandleTournamentW(site, w, standings, row);
    if tid !in w.written {
      FetchesKeep(site, w, standings, tid);
      var d := DecklistPages(site, w, standings, tid);
      var players := PlayersFrom(DataRows(standings, "striped"), d.1);
      if players.None? || players.value == [] {
        assert r.0 == d.0;
        LogExtendsTransitive(w.fetchLog, w.fetchLog, d.0.fetchLog);
      } else {
        var m := PairingPages(site, d.0, tid);
        var t := TournamentOf(row, players.value, MatchesOfPages(m.1));
        assert r == (m.0.(written := m.0.written[tid := t], stats := Record(m.0.stats, t)), Completed(t));
        RecordKeeps(w, m.0, tid, t);
      }
    }
  }

  /** The artifact of a completed tournament: the id and metadata of its
      list row, one player per standings row with a decklist link, in
      standings order, each carrying the decklist read from the cached page
      of that row, and the matches of the cached pairing pages, earlier
      rounds first. */
  lemma HandleTournamentArtifact(site: string -> Page, w: World, standings: Page, row: Row)
    ensures var r := HandleTournamentW(site, w, standings, row);
      var tid := row.linkId;
      var linked := LinkedRows(DataRows(standings, "striped"));
      var pp := PairingPages(site, DecklistPages(site, w, standings, tid).0, tid);
      r.1.Completed? ==>
        r.1.t == TournamentOf(row, r.1.t.players, r.1.t.matches)
        && r.1.t.id == tid
        && r.1.t.matches == MatchesOfPages(pp.1)
        && pp.0.cache == r.0.cache
        && |r.1.t.players| == |linked| > 0
        && forall k :: 0 <= k < |linked| ==>
             r.1.t.players[k] == PlayerOf(linked[k], r.1.t.players[k].decklist)
             && CacheKey(DecklistUrl(tid, linked[k].linkId)) in r.0.cache
             && Decklist(r.0.cache[CacheKey(DecklistUrl(tid, linked[k].linkId))]) == Some(r.1.t.players[k].decklist)
  {
    var tid := row.linkId;
    var r := HandleTournamentW(site, w, standings, row);
    if r.1.Completed? {
      var rows := DataRows(standings, "striped");
      var d := DecklistPages(site, w, standings, tid);
      DecklistPagesFromCache(site, w, standings, tid);
      PairingPagesFromCache(site, d.0, tid);
      var ps := PlayersFrom(rows, d.1).value;
      assert r.1.t.players == ps;
      PlayersAreKeptRows(rows, d.1);
      KeptRowsAreLinked(rows, d.1);
      KeptTogether(rows, d.1);
      var linked := LinkedRows(rows);
      forall k | 0 <= k < |linked|
        ensures CacheKey(DecklistUrl(tid, linked[k].linkId)) in r.0.cache
             && Decklist(r.0.cache[CacheKey(DecklistUrl(tid, linked[k].linkId))]) == Some(ps[k].decklist)
      {
        var i :| 0 <= i < |rows| && rows[i] == KeptRows(rows, d.1)[k] && d.1[i] == Some(KeptPages(d.1)[k]);
        assert rows[i].hasDecklistLink;
      }
    }
  }

  /** Every linked row's decklist page, as cached, lacks the decklist
      block. */
  predicate NoDecklistBlocks(cache: map<string, Page>, tid: string, rows: seq<Row>) {
    forall i :: 0 <= i < |rows| && rows[i].hasDecklistLink && CacheKey(DecklistUrl(tid, rows[i].linkId)) in cache ==>
      cache[CacheKey(DecklistUrl(tid, rows[i].linkId))].decklistDiv.None?
  }

  /** Players whose decklists are all empty count no decklist. */
  lemma {:induction false} NoDecklistCounted(players: seq<Player>)
    requires forall k :: 0 <= k < |players| ==> players[k].decklist == []
    ensures WithDecklist(players) == 0
  {
    if players != [] {
      NoDecklistCounted(players[..|players| - 1]);
    }
  }

  /** Pages without a decklist block never fail to convert. */
  lemma NoBlocksNoFailure(cache: map<string, Page>, tid: string, rows: seq<Row>)
    requires NoDecklistBlocks(cache, tid, rows)
    ensures !CachedDecklistFails(cache, tid, rows)
  {
    forall i | 0 <= i < |rows| && rows[i].hasDecklistLink && CacheKey(DecklistUrl(tid, rows[i].linkId)) in cache
      ensures Decklist(cache[CacheKey(DecklistUrl(tid, rows[i].linkId))]).Some?
    {
    }
  }

  /** In a completed tournament whose linked pages lack the decklist block,
      every player has an empty decklist. */
  lemma NoBlocksEmptyDecklists(site: string -> Page, w: World, standings: Page, row: Row)
    requires HandleTournamentW(site, w, standings, row).1.Completed?
    requires NoDecklistBlocks(DecklistPages(site, w, standings, row.linkId).0.cache, row.linkId, DataRows(standings, "striped"))
    ensures var t := HandleTournamentW(site, w, standings, row).1.t;
      |t.players| == |LinkedRows(DataRows(standings, "striped"))|
      && forall k :: 0 <= k < |t.players| ==> t.players[k].decklist == []
  {
    var tid := row.linkId;
    var rows := DataRows(standings, "striped");
    var d := DecklistPages(site, w, standings, tid);
    var r := HandleTournamentW(site, w, standings, row);
    HandleTournamentArtifact(site, w, standings, row);
    DecklistPagesFromCache(site, w, standings, tid);
    PairingPagesFromCache(site, d.0, tid);
    var linked := LinkedRows(rows);
    forall k | 0 <= k < |r.1.t.players|
      ensures r.1.t.players[k].decklist == []
    {
      var key := CacheKey(DecklistUrl(tid, linked[k].linkId));
      assert key in d.0.cache by {
        var i :| 0 <= i < |rows| && rows[i] == linked[k];
      }
      assert r.0.cache[key] == d.0.cache[key];
    }
  }

  /** A tournament is written as soon as one standings row links a
      decklist, even when no linked page has a decklist block: the
      tournament completes, every player has an empty decklist, and it
      counts as scraped with no decklist. */
  lemma EmptyDecklistsStillWritten(site: string -> Page, w: World, standings: Page, row: Row)
    requires row.linkId !in w.written
    requires LinkedRows(DataRows(standings, "striped")) != []
    requires NoDecklistBlocks(DecklistPages(site, w, standings, row.linkId).0.cache, row.linkId, DataRows(standings, "striped"))
    ensures var r := HandleTournamentW(site, w, standings, row);
      r.1.Completed? && r.0.written == w.written[row.linkId := r.1.t]
      && |r.1.t.players| == |LinkedRows(DataRows(standings, "striped"))|
      && (forall k :: 0 <= k < |r.1.t.players| ==> r.1.t.players[k].decklist == [])
      && WithDecklist(r.1.t.players) == 0
      && r.0.stats.tournamentsScraped == w.stats.tournamentsScraped + 1
      && r.0.stats.totalDecklists == w.stats.totalDecklists
  {
    var r := HandleTournamentW(site, w, standings, row);
    HandleTournamentOutcome(site, w, standings, row);
    NoBlocksNoFailure(DecklistPages(site, w, standings, row.linkId).0.cache, row.linkId, DataRows(standings, "striped"));
    HandleTournamentEffects(site, w, standings, row);
    NoBlocksEmptyDecklists(site, w, standings, row);
    NoDecklistCounted(r.1.t.players);
  }

  /** What handling one listed tournament yields: the new state and the
      outcome. */
  type TournamentStep = (World, Page, Row) -> (World, Outcome)

  /** `handle_tournament_standings_page` as a step. */
  function TournamentStepOf(site: string -> Page): TournamentStep {
    (w0: World, standings: Page, row: Row) => HandleTournamentW(site, w0, standings, row)
  }

  /** The loop over the listed tournaments, in list order, handling each
      with `step` and stopping at the first aborted one: the state after
      it and whether it aborted. */
  function RunList(step: TournamentStep, w: World, standings: seq<Page>, trs: seq<Row>): (World, bool)
    requires |standings| == |trs|
  {
    if trs == [] then (w, false)
    else
      var n := |trs| - 1;
      var prev := RunList(step, w, standings[..n], trs[..n]);
      if prev.1 then prev
      else
        var h := step(prev.0, standings[n], trs[n]);
        (h.0, h.1 == Aborted)
  }

  /** The loop of `handle_tournament_list_page` on the state. */
  function HandleAllW(site: string -> Page, w: World, standings: seq<Page>, trs: seq<Row>): (World, bool)
    requires |standings| == |trs|
  {
    RunList(TournamentStepOf(site), w, standings, trs)
  }

  /** Once the loop has aborted, the rest of the list is not handled. */
  lemma {:induction false} RunListAbortPersists(step: TournamentStep, w: World, standings: seq<Page>, trs: seq<Row>, n: nat)
    requires |standings| == |trs| && n <= |trs|
    requires RunList(step, w, standings[..n], trs[..n]).1
    ensures RunList(step, w, standings, trs) == RunList(step, w, standings[..n], trs[..n])
    decreases |trs| - n
  {
    if n == |trs| {
      assert standings[..n] == standings && trs[..n] == trs;
    } else {
      var m := |trs| - 1;
      assert standings[..m][..n] == standings[..n] && trs[..m][..n] == trs[..n];
      RunListAbortPersists(step, w, standings[..m], trs[..m], n);
    }
  }

  /** A step for `row` keeps the state, only adds cache files and writes at
      most the artifact of `row`. */
  predicate StepKeeps(w0: World, row: Row, h: (World, Outcome)) {
    Keeps(w0, h.0) && Extends(w0.cache, h.0.cache) && h.0.written.Keys <= w0.written.Keys + {row.linkId}
  }

  /** Every artifact written by the loop belongs to a listed tournament. */
  predicate NewIdsFrom(before: map<string, Tournament>, after: map<string, Tournament>, trs: seq<Row>) {
    forall id :: id in after && id !in before ==> exists k :: 0 <= k < |trs| && trs[k].linkId == id
  }

  /** With steps that keep the state, the loop keeps it and writes only
      listed tournaments. */
  lemma {:induction false} RunListKeeps(step: TournamentStep, w: World, standings: seq<Page>, trs: seq<Row>)
    requires |standings| == |trs|
    requires forall w0, p, row :: StepKeeps(w0, row, step(w0, p, row))
    ensures var r := RunList(step, w, standings, trs);
      Keeps(w, r.0) && Extends(w.cache, r.0.cache) && NewIdsFrom(w.written, r.0.written, trs)
  {
    if trs != [] {
      var n := |trs| - 1;
      RunListKeeps(step, w, standings[..n], trs[..n]);
      var prev := RunList(step, w, standings[..n], trs[..n]);
      var r := RunList(step, w, standings, trs);
      if !prev.1 {
        assert StepKeeps(prev.0, trs[n], step(prev.0, standings[n], trs[n]));
        KeepsTransitive(w, prev.0, r.0);
      }
      forall id | id in r.0.written && id !in w.written
        ensures exists k :: 0 <= k < |trs| && trs[k].linkId == id
      {
        if id in prev.0.written {
          var k :| 0 <= k < n && trs[..n][k].linkId == id;
          assert trs[k] == trs[..n][k];
        } else {
          assert trs[n].linkId == id;
        }
      }
    }
  }

  /** The listed tournament k is done: its artifact is written, or no row
      of its standings links a decklist. */
  predicate Handled(written: map<string, Tournament>, standings: seq<Page>, trs: seq<Row>, k: nat)
    requires |standings| == |trs| && k < |trs|
  {
    trs[k].linkId in written || LinkedRows(DataRows(standings[k], "striped")) == []
  }

  /** Every listed tournament is done. */
  predicate Covered(written: map<string, Tournament>, standings: seq<Page>, trs: seq<Row>)
    requires |standings| == |trs|
  {
    forall k :: 0 <= k < |trs| ==> Handled(written, standings, trs, k)
  }

  /** A step that does not abort leaves its tournament done. */
  predicate StepHandles(standings: Page, row: Row, h: (World, Outcome)) {
    h.1 != Aborted ==> row.linkId in h.0.written || LinkedRows(DataRows(standings, "striped")) == []
  }

  /** With such steps, when the loop does not abort, every listed
      tournament is done. */
  lemma {:induction false} RunListCovers(step: TournamentStep, w: World, standings: seq<Page>, trs: seq<Row>)
    requires |standings| == |trs|
    requires forall w0, p, row :: StepKeeps(w0, row, step(w0, p, row)) && StepHandles(p, row, step(w0, p, row))
    ensures var r := RunList(step, w, standings, trs); !r.1 ==> Covered(r.0.written, standings, trs)
  {
    if trs != [] {
      var n := |trs| - 1;
      RunListCovers(step, w, standings[..n], trs[..n]);
      var prev := RunList(step, w, standings[..n], trs[..n]);
      if !prev.1 {
        var h := step(prev.0, standings[n], trs[n]);
        assert StepKeeps(prev.0, trs[n], h) && StepHandles(standings[n], trs[n], h);
        if h.1 != Aborted {
          assert KeepsArtifacts(prev.0.written, h.0.written);
          assert Handled(h.0.written, standings, trs, n);
          HandledOneMore(prev.0.written, h.0.written, standings, trs, n);
        }
      }
    }
  }

  /** Tournaments done before stay done while the artifacts are kept, so
      with the last one done the whole list is. */
  lemma HandledOneMore(before: map<string, Tournament>, after: map<string, Tournament>, standings: seq<Page>, trs: seq<Row>, n: nat)
    requires |standings| == |trs| == n + 1
    requires Covered(before, standings[..n], trs[..n])
    requires KeepsArtifacts(before, after)
    requires Handled(after, standings, trs, n)
    ensures Covered(after, standings, trs)
  {
    forall k | 0 <= k < n
      ensures Handled(after, standings, trs, k)
    {
      assert Handled(before, standings[..n], trs[..n], k);
      assert standings[..n][k] == standings[k] && trs[..n][k] == trs[k];
    }
  }

  /** With steps that skip a tournament whose artifact exists, a list whose
      tournaments all have their artifact changes nothing. */
  lemma {:induction false} RunListNothingNew(step: TournamentStep, w: World, standings: seq<Page>, trs: seq<Row>)
    requires |standings| == |trs|
    requires forall w0: World, p: Page, row: Row :: row.linkId in w0.written ==> step(w0, p, row) == (w0, AlreadyWritten)
    requires forall k :: 0 <= k < |trs| ==> trs[k].linkId in w.written
    ensures RunList(step, w, standings, trs) == (w, false)
  {
    if trs != [] {
      var n := |trs| - 1;
      assert forall k :: 0 <= k < n ==> trs[..n][k] == trs[k];
      RunListNothingNew(step, w, standings[..n], trs[..n]);
    }
  }

  /** The state before the listed tournament k is handled. */
  function Before(step: TournamentStep, w: World, standings: seq<Page>, trs: seq<Row>, k: nat): (World, bool)
    requires |standings| == |trs| && k <= |trs|
  {
    RunList(step, w, standings[..k], trs[..k])
  }

  /** The loop aborts at the listed tournament k: the ones before it went
      through and its own outcome is `Aborted`. */
  predicate AbortsAt(step: TournamentStep, w: World, standings: seq<Page>, trs: seq<Row>, k: nat)
    requires |standings| == |trs| && k < |trs|
  {
    !Before(step, w, standings, trs, k).1
    && step(Before(step, w, standings, trs, k).0, standings[k], trs[k]).1 == Aborted
  }

  lemma AbortsAtPrefix(step: TournamentStep, w: World, standings: seq<Page>, trs: seq<Row>, n: nat, k: nat)
    requires |standings| == |trs| && k < n <= |trs|
    ensures AbortsAt(step, w, standings, trs, k) <==> AbortsAt(step, w, standings[..n], trs[..n], k)
    ensures Before(step, w, standings, trs, k) == Before(step, w, standings[..n], trs[..n], k)
    ensures standings[..n][k] == standings[k] && trs[..n][k] == trs[k]
  {
    assert standings[..n][..k] == standings[..k] && trs[..n][..k] == trs[..k];
  }

  /** The loop aborts exactly when some listed tournament aborts after all
      the ones before it went through, and then it ends in the state that
      tournament's step left. */
  lemma {:induction false} RunListAborts(step: TournamentStep, w: World, standings: seq<Page>, trs: seq<Row>)
    requires |standings| == |trs|
    ensures var r := RunList(step, w, standings, trs);
      (r.1 <==> exists k :: 0 <= k < |trs| && AbortsAt(step, w, standings, trs, k))
      && forall k :: 0 <= k < |trs| && AbortsAt(step, w, standings, trs, k) ==>
           r.0 == step(Before(step, w, standings, trs, k).0, standings[k], trs[k]).0
  {
    if trs != [] {
      var n := |trs| - 1;
      RunListAborts(step, w, standings[..n], trs[..n]);
      var prev := RunList(step, w, standings[..n], trs[..n]);
      var r := RunList(step, w, standings, trs);
      assert Before(step, w, standings, trs, n) == prev;
      if prev.1 {
        assert r == prev;
        var k0 :| 0 <= k0 < n && AbortsAt(step, w, standings[..n], trs[..n], k0);
        AbortsAtPrefix(step, w, standings, trs, n, k0);
        forall k | 0 <= k < |trs| && AbortsAt(step, w, standings, trs, k)
          ensures r.0 == step(Before(step, w, standings, trs, k).0, standings[k], trs[k]).0
        {
          assert k != n;
          AbortsAtPrefix(step, w, standings, trs, n, k);
        }
      } else {
        forall k | 0 <= k < n
          ensures !AbortsAt(step, w, standings, trs, k)
        {
          AbortsAtPrefix(step, w, standings, trs, n, k);
        }
        if r.1 {
          assert AbortsAt(step, w, standings, trs, n);
        }
      }
    }
  }

  /** The loop of a list page keeps the state and writes only listed
      tournaments. */
  lemma HandleAllKeeps(site: string -> Page, w: World, standings: seq<Page>, trs: seq<Row>)
    requires |standings| == |trs|
    ensures var r := HandleAllW(site, w, standings, trs);
      Keeps(w, r.0) && Extends(w.cache, r.0.cache) && NewIdsFrom(w.written, r.0.written, trs)
  {
    var step := TournamentStepOf(site);
    forall w0, p, row ensures StepKeeps(w0, row, step(w0, p, row)) {
      HandleTournamentEffects(site, w0, p, row);
    }
    RunListKeeps(step, w, standings, trs);
  }

  /** When the loop of a list page does not abort, every listed tournament
      is done: written, or no row of its standings links a decklist. */
  lemma HandleAllCovers(site: string -> Page, w: World, standings: seq<Page>, trs: seq<Row>)
    requires |standings| == |trs|
    ensures var r := HandleAllW(site, w, standings, trs);
      !r.1 ==> forall k :: 0 <= k < |trs| ==> Handled(r.0.written, standings, trs, k)
  {
    TournamentStepHandles(site);
    RunListCovers(TournamentStepOf(site), w, standings, trs);
  }

  /** Every tournament step keeps the state and, unless it aborts, leaves
      its tournament done. */
  lemma TournamentStepHandles(site: string -> Page)
    ensures var step := TournamentStepOf(site);
      forall w0, p, row :: StepKeeps(w0, row, step(w0, p, row)) && StepHandles(p, row, step(w0, p, row))
  {
    forall w0, p, row
      ensures StepKeeps(w0, row, HandleTournamentW(site, w0, p, row))
           && StepHandles(p, row, HandleTournamentW(site, w0, p, row))
    {
      HandleTournamentEffects(site, w0, p, row);
      HandleTournamentOutcome(site, w0, p, row);
    }
  }

  /** A list whose tournaments all have their artifact changes nothing. */
  lemma HandleAllNothingNew(site: string -> Page, w: World, standings: seq<Page>, trs: seq<Row>)
    requires |standings| == |trs|
    requires forall k :: 0 <= k < |trs| ==> trs[k].linkId in w.written
    ensures HandleAllW(site, w, standings, trs) == (w, false)
  {
    var step := TournamentStepOf(site);
    forall w0: World, p: Page, row: Row | row.linkId in w0.written ensures step(w0, p, row) == (w0, AlreadyWritten) {
    }
    RunListNothingNew(step, w, standings, trs);
  }

  /** The loop of a list page aborts exactly when some listed tournament's
      decklists fail after all the ones before it went through, and then it
      ends in the state that tournament left. */
  lemma HandleAllAborts(site: string -> Page, w: World, standings: seq<Page>, trs: seq<Row>)
    requires |standings| == |trs|
    ensures var step := TournamentStepOf(site);
      var r := HandleAllW(site, w, standings, trs);
      (r.1 <==> exists k :: 0 <= k < |trs| && AbortsAt(step, w, standings, trs, k))
      && forall k :: 0 <= k < |trs| && AbortsAt(step, w, standings, trs, k) ==>
           r.0 == HandleTournamentW(site, Before(step, w, standings, trs, k).0, standings[k], trs[k]).0
  {
    RunListAborts(TournamentStepOf(site), w, standings, trs);
  }

  /** The standings pages of a list page with pagination, as its loop
      receives them: the list page from the site, then the standings of
      every listed tournament through the cache. */
  function ListedStandings(site: string -> Page, w: World, url: string): (r: (World, seq<Page>))
    requires site(url).pagination.Some?
    ensures |r.1| == |DataRows(site(url), "completed-tournaments")|
  {
    var w1 := FetchW(site, w, Some(url), false).0;
    var urls := StandingsUrls(DataRows(site(url), "completed-tournaments"));
    var f := FetchAllW(site, w1, AllSome(urls));
    FetchAllPages(site, w1, AllSome(urls));
    PresentFromCache(urls, f.1, f.0.cache);
    (f.0, Present(f.1))
  }

  /** `handle_tournament_list_page` on the state: the list page always
      from the site; nothing more without pagination; otherwise each listed
      tournament in list order, and the next page after the declared one
      while that is below the bound. */
  function HandleListPageW(site: string -> Page, w: World, url: string): (World, Option<string>, bool) {
    var page := site(url);
    if page.pagination.None? then (FetchW(site, w, Some(url), false).0, None, false)
    else
      var ls := ListedStandings(site, w, url);
      var h := HandleAllW(site, ls.0, ls.1, DataRows(page, "completed-tournaments"));
      if h.1 then (h.0, None, true)
      else
        var current := CurrentPage(page.pagination.value);
        (h.0, if current < MaxPage then Some(NextPageUrl(current)) else None, false)
  }

  lemma ListedStandingsFromCache(site: string -> Page, w: World, url: string)
    requires site(url).pagination.Some?
    ensures var trs := DataRows(site(url), "completed-tournaments");
      var r := ListedStandings(site, w, url);
      HandleListPageW(site, w, url).0 == HandleAllW(site, r.0, r.1, trs).0
      && HandleListPageW(site, w, url).2 == HandleAllW(site, r.0, r.1, trs).1
      && r.0.written == w.written && r.0.stats == w.stats
      && Extends(w.cache[CacheKey(url) := site(url)], r.0.cache)
      && LogExtends(w.fetchLog + [url], r.0.fetchLog)
      && forall k :: 0 <= k < |trs| ==>
           CacheKey(StandingsUrl(trs[k].linkId)) in r.0.cache && r.1[k] == r.0.cache[CacheKey(StandingsUrl(trs[k].linkId))]
  {
    var w1 := FetchW(site, w, Some(url), false).0;
    var urls := StandingsUrls(DataRows(site(url), "completed-tournaments"));
    FetchAllPages(site, w1, AllSome(urls));
    var f := FetchAllW(site, w1, AllSome(urls));
    PresentFromCache(urls, f.1, f.0.cache);
  }

  /** The next page is requested exactly when the list page has pagination,
      the run did not abort and the declared page is below the bound; a page
      without pagination only refreshes its cache file and logs its URL. */
  lemma HandleListPageNext(site: string -> Page, w: World, url: string)
    ensures var r := HandleListPageW(site, w, url);
      var p := site(url).pagination;
      (r.1.Some? <==> p.Some? && !r.2 && CurrentPage(p.value) < MaxPage)
      && (r.1.Some? ==> r.1.value == NextPageUrl(CurrentPage(p.value)))
      && (p.None? ==>
            r == (w.(cache := w.cache[CacheKey(url) := site(url)], fetchLog := w.fetchLog + [url]), None, false))
  {
  }

  /** A list page keeps the state, refreshes its own cache file, logs its
      URL first and writes only tournaments it lists. */
  lemma HandleListPageKeeps(site: string -> Page, w: World, url: string)
    ensures var r := HandleListPageW(site, w, url);
      var listed := DataRows(site(url), "completed-tournaments");
      Keeps(w, r.0)
      && Extends(w.cache[CacheKey(url) := site(url)], r.0.cache)
      && LogExtends(w.fetchLog + [url], r.0.fetchLog)
      && NewIdsFrom(w.written, r.0.written, listed)
  {
    var r := HandleListPageW(site, w, url);
    if site(url).pagination.Some? {
      var trs := DataRows(site(url), "completed-tournaments");
      ListedStandingsFromCache(site, w, url);
      var ls := ListedStandings(site, w, url);
      HandleAllKeeps(site, ls.0, ls.1, trs);
      LogExtendsTransitive(w.fetchLog, w.fetchLog + [url], ls.0.fetchLog);
      assert Keeps(w, ls.0);
      KeepsTransitive(w, ls.0, r.0);
      LogExtendsTransitive(w.fetchLog + [url], ls.0.fetchLog, r.0.fetchLog);
    }
  }

  /** When a list page with pagination does not abort, every tournament it
      lists is done: written, or its cached standings link no decklist. */
  lemma HandleListPageCovers(site: string -> Page, w: World, url: string)
    ensures var r := HandleListPageW(site, w, url);
      var listed := DataRows(site(url), "completed-tournaments");
      site(url).pagination.Some? && !r.2 ==>
        forall k :: 0 <= k < |listed| ==>
          listed[k].linkId in r.0.written
          || (CacheKey(StandingsUrl(listed[k].linkId)) in r.0.cache
              && LinkedRows(DataRows(r.0.cache[CacheKey(StandingsUrl(listed[k].linkId))], "striped")) == [])
  {
    var r := HandleListPageW(site, w, url);
    if site(url).pagination.Some? && !r.2 {
      var trs := DataRows(site(url), "completed-tournaments");
      ListedStandingsFromCache(site, w, url);
      var ls := ListedStandings(site, w, url);
      HandleAllKeeps(site, ls.0, ls.1, trs);
      HandleAllCovers(site, ls.0, ls.1, trs);
      forall k | 0 <= k < |trs|
        ensures trs[k].linkId in r.0.written
          || (CacheKey(StandingsUrl(trs[k].linkId)) in r.0.cache
              && LinkedRows(DataRows(r.0.cache[CacheKey(StandingsUrl(trs[k].linkId))], "striped")) == [])
      {
        assert Handled(r.0.written, ls.1, trs, k);
      }
    }
  }

  /** A list page whose tournaments all have their artifact writes nothing
      and does not abort. */
  lemma HandleListPageNothingNew(site: string -> Page, w: World, url: string)
    requires forall r :: r in DataRows(site(url), "completed-tournaments") ==> r.linkId in w.written
    ensures var r := HandleListPageW(site, w, url);
      !r.2 && r.0.written == w.written && r.0.stats == w.stats
  {
    if site(url).pagination.Some? {
      var trs := DataRows(site(url), "completed-tournaments");
      ListedStandingsFromCache(site, w, url);
      var ls := ListedStandings(site, w, url);
      assert forall k :: 0 <= k < |trs| ==> trs[k] in trs;
      HandleAllNothingNew(site, ls.0, ls.1, trs);
    }
  }

  /** What handling one list page yields: the new state, the next page to
      request, and whether a tournament aborted the run. */
  type PageStep = (World, string) -> (World, Option<string>, bool)

  /** The walk over the list pages from `url`, handling each with `step`,
      for at most `fuel` pages: the state after it, the pages visited and
      whether the run aborted. */
  function Walk(step: PageStep, w: World, url: string, fuel: nat): (World, seq<string>, bool)
    decreases fuel
  {
    if fuel == 0 then (w, [], false)
    else
      var h := step(w, url);
      if h.2 || h.1.None? then (h.0, [url], h.2)
      else
        var rest := Walk(step, h.0, h.1.value, fuel - 1);
        (rest.0, [url] + rest.1, rest.2)
  }

  /** `handle_tournament_list_page` as a step. */
  function ListPageStepOf(site: string -> Page): PageStep {
    (w0: World, u: string) => HandleListPageW(site, w0, u)
  }

  /** `main`: the walk from `url` with `handle_tournament_list_page` as the
      step. */
  function CrawlW(site: string -> Page, w: World, url: string, fuel: nat): (World, seq<string>, bool) {
    Walk(ListPageStepOf(site), w, url, fuel)
  }

  /** One more page of a walk that goes on: what remains of the walk
      after the pages in `visited` moves `url` into them. */
  lemma WalkOn(step: PageStep, whole: (World, seq<string>, bool), visited: seq<string>,
               w: World, url: string, fuel: nat, h: (World, Option<string>, bool))
    requires fuel > 0 && step(w, url) == h && !h.2 && h.1.Some?
    requires var r := Walk(step, w, url, fuel); whole == (r.0, visited + r.1, r.2)
    ensures var rest := Walk(step, h.0, h.1.value, fuel - 1);
      whole == (rest.0, (visited + [url]) + rest.1, rest.2)
  {
    var rest := Walk(step, h.0, h.1.value, fuel - 1);
    assert visited + ([url] + rest.1) == (visited + [url]) + rest.1;
  }

  /** How the walk goes on from a page handled with result `h`: to the page
      after the declared one, only while that is below the bound and the run
      did not abort. */
  predicate StepFrom(site: string -> Page, url: string, h: (World, Option<string>, bool)) {
    var p := site(url).pagination;
    (h.1.Some? <==> p.Some? && !h.2 && CurrentPage(p.value) < MaxPage)
    && (h.1.Some? ==> h.1.value == NextPageUrl(CurrentPage(p.value)))
  }

  /** `b` is the page requested after the list page `a`: the one after
      its declared page, which is below the bound. */
  predicate Follows(site: string -> Page, a: string, b: string) {
    site(a).pagination.Some? && CurrentPage(site(a).pagination.value) < MaxPage
    && b == NextPageUrl(CurrentPage(site(a).pagination.value))
  }

  /** The visited pages form a path: each follows the one before it. */
  predicate IsPath(site: string -> Page, v: seq<string>) {
    forall i :: 0 < i < |v| ==> Follows(site, v[i - 1], v[i])
  }

  lemma IsPathCons(site: string -> Page, url: string, rest: seq<string>)
    requires IsPath(site, rest)
    requires rest != [] ==> Follows(site, url, rest[0])
    ensures IsPath(site, [url] + rest)
  {
    var v := [url] + rest;
    forall i | 0 < i < |v|
      ensures Follows(site, v[i - 1], v[i])
    {
      if i > 1 {
        assert v[i - 1] == rest[i - 2] && v[i] == rest[i - 1];
      }
    }
  }

  /** A page after which the walk has no next page to request. */
  predicate LastPage(site: string -> Page, u: string) {
    site(u).pagination.None? || CurrentPage(site(u).pagination.value) >= MaxPage
  }

  /** The visited pages `v` of a walk from `url` with `fuel`: at most
      `fuel` of them, `url` first, a path, and, unless the run aborted or
      the fuel ran out, ending at a page with no next page. */
  predicate WalkShape(site: string -> Page, url: string, fuel: nat, v: seq<string>, aborted: bool) {
    |v| <= fuel
    && (fuel > 0 ==> |v| >= 1 && v[0] == url)
    && IsPath(site, v)
    && (!aborted && 0 < |v| < fuel ==> LastPage(site, v[|v| - 1]))
  }

  /** A walk that stops at its first page has the shape of a one-page
      walk. */
  lemma WalkStopShape(site: string -> Page, step: PageStep, w: World, url: string, fuel: nat)
    requires fuel > 0
    requires var h := step(w, url); StepFrom(site, url, h) && (h.2 || h.1.None?)
    ensures var r := Walk(step, w, url, fuel); WalkShape(site, url, fuel, r.1, r.2)
  {
    var h := step(w, url);
    assert Walk(step, w, url, fuel) == (h.0, [url], h.2);
  }

  /** A page that goes on to the first page of a walk's shape extends it. */
  lemma WalkShapeCons(site: string -> Page, url: string, h: (World, Option<string>, bool), fuel: nat, rest: seq<string>, aborted: bool)
    requires StepFrom(site, url, h) && !h.2 && h.1.Some?
    requires WalkShape(site, h.1.value, fuel, rest, aborted)
    ensures WalkShape(site, url, fuel + 1, [url] + rest, aborted)
  {
    IsPathCons(site, url, rest);
    var v := [url] + rest;
    if rest != [] {
      assert v[|v| - 1] == rest[|rest| - 1];
    }
  }

  /** The shape of the rest of a walk gives the shape of the walk. */
  lemma WalkOnShape(site: string -> Page, step: PageStep, w: World, url: string, fuel: nat)
    requires fuel > 0
    requires var h := step(w, url);
      StepFrom(site, url, h) && !h.2 && h.1.Some?
      && var rest := Walk(step, h.0, h.1.value, fuel - 1); WalkShape(site, h.1.value, fuel - 1, rest.1, rest.2)
    ensures var r := Walk(step, w, url, fuel); WalkShape(site, url, fuel, r.1, r.2)
  {
    var h := step(w, url);
    var rest := Walk(step, h.0, h.1.value, fuel - 1);
    WalkShapeCons(site, url, h, fuel - 1, rest.1, rest.2);
  }

  /** With a step that goes on as `StepFrom` says, the walk has that shape. */
  lemma {:induction false} WalkPath(site: string -> Page, step: PageStep, w: World, url: string, fuel: nat)
    requires forall w0, u :: StepFrom(site, u, step(w0, u))
    ensures var r := Walk(step, w, url, fuel); WalkShape(site, url, fuel, r.1, r.2)
    decreases fuel
  {
    if fuel > 0 {
      var h := step(w, url);
      assert StepFrom(site, url, h);
      if h.2 || h.1.None? {
        WalkStopShape(site, step, w, url, fuel);
      } else {
        WalkPath(site, step, h.0, h.1.value, fuel - 1);
        WalkOnShape(site, step, w, url, fuel);
      }
    }
  }

  /** A step on page `u` keeps the state and logs `u` first. */
  predicate StepLogs(w0: World, u: string, h: (World, Option<string>, bool)) {
    Keeps(w0, h.0) && LogExtends(w0.fetchLog + [u], h.0.fetchLog)
  }

  lemma KeepsReflexive(w: World)
    ensures Keeps(w, w)
  {
    assert w.fetchLog[..|w.fetchLog|] == w.fetchLog;
  }

  /** A step that logs its page first, followed by more steps that keep the
      state, still logs that page first. */
  lemma StepThenKeeps(w: World, url: string, h: (World, Option<string>, bool), r: World)
    requires StepLogs(w, url, h) && Keeps(h.0, r)
    ensures Keeps(w, r) && LogExtends(w.fetchLog + [url], r.fetchLog)
  {
    KeepsTransitive(w, h.0, r);
    LogExtendsTransitive(w.fetchLog + [url], h.0.fetchLog, r.fetchLog);
  }

  /** A relation between states that holds from every state to itself and
      chains. */
  ghost predicate Preorder(rel: (World, World) -> bool) {
    (forall a :: rel(a, a)) && forall a, b, c :: rel(a, b) && rel(b, c) ==> rel(a, c)
  }

  /** With a step whose result is related to its start by a preorder, so is
      the walk's result. */
  lemma {:induction false} WalkRelates(step: PageStep, rel: (World, World) -> bool, w: World, url: string, fuel: nat)
    requires Preorder(rel)
    requires forall w0, u :: rel(w0, step(w0, u).0)
    ensures rel(w, Walk(step, w, url, fuel).0)
    ensures var h := step(w, url);
      fuel > 0 && !h.2 && h.1.Some? ==> rel(h.0, Walk(step, h.0, h.1.value, fuel - 1).0)
    decreases fuel
  {
    if fuel > 0 {
      var h := step(w, url);
      assert rel(w, h.0);
      if !(h.2 || h.1.None?) {
        WalkRelates(step, rel, h.0, h.1.value, fuel - 1);
        assert Walk(step, w, url, fuel).0 == Walk(step, h.0, h.1.value, fuel - 1).0;
      }
    }
  }

  /** `Keeps` as a relation. */
  function KeepsRel(): (World, World) -> bool {
    (a: World, b: World) => Keeps(a, b)
  }

  lemma KeepsPreorder()
    ensures Preorder(KeepsRel())
  {
    forall a ensures Keeps(a, a) {
      KeepsReflexive(a);
    }
    forall a, b, c | Keeps(a, b) && Keeps(b, c) ensures Keeps(a, c) {
      KeepsTransitive(a, b, c);
    }
  }

  /** A walk that goes on after a step that logs its page first, and whose
      rest keeps the state, logs that page first. */
  lemma WalkLogsFirst(step: PageStep, w: World, url: string, fuel: nat)
    requires fuel > 0
    requires var h := step(w, url);
      StepLogs(w, url, h)
      && (!h.2 && h.1.Some? ==> Keeps(h.0, Walk(step, h.0, h.1.value, fuel - 1).0))
    ensures LogExtends(w.fetchLog + [url], Walk(step, w, url, fuel).0.fetchLog)
  {
    var h := step(w, url);
    if !h.2 && h.1.Some? {
      var r := Walk(step, h.0, h.1.value, fuel - 1).0;
      assert Walk(step, w, url, fuel).0 == r;
      StepThenKeeps(w, url, h, r);
    }
  }

  /** The crawl starts at `url`, goes from each visited list page to the
      page after its declared one, and only while that page is below the
      bound and no tournament aborted; when it neither aborts nor runs out
      of fuel, its last page has no next page. */
  lemma CrawlPath(site: string -> Page, w: World, url: string, fuel: nat)
    ensures var r := CrawlW(site, w, url, fuel); WalkShape(site, url, fuel, r.1, r.2)
  {
    var step := ListPageStepOf(site);
    forall w0, u ensures StepFrom(site, u, step(w0, u)) {
      HandleListPageNext(site, w0, u);
    }
    WalkPath(site, step, w, url, fuel);
  }

  /** Every list-page step keeps the state. */
  lemma ListPageStepKeeps(site: string -> Page)
    ensures forall w0, u :: KeepsRel()(w0, ListPageStepOf(site)(w0, u).0)
  {
    forall w0, u ensures Keeps(w0, HandleListPageW(site, w0, u).0) {
      HandleListPageKeeps(site, w0, u);
    }
  }

  /** A list-page step requests its page first. */
  lemma ListPageStepLogs(site: string -> Page, w: World, url: string)
    ensures StepLogs(w, url, ListPageStepOf(site)(w, url))
  {
    HandleListPageKeeps(site, w, url);
  }

  /** The crawl keeps the state and, with fuel, requests the first list
      page first. */
  lemma CrawlKeeps(site: string -> Page, w: World, url: string, fuel: nat)
    ensures var r := CrawlW(site, w, url, fuel);
      Keeps(w, r.0) && (fuel > 0 ==> LogExtends(w.fetchLog + [url], r.0.fetchLog))
  {
    KeepsPreorder();
    ListPageStepKeeps(site);
    WalkRelates(ListPageStepOf(site), KeepsRel(), w, url, fuel);
    if fuel > 0 {
      ListPageStepLogs(site, w, url);
      WalkLogsFirst(ListPageStepOf(site), w, url, fuel);
    }
  }

  class Scraper {
    /** The site: the page served at each URL. */
    const site: string -> Page
    /** The cache directory: pages by cache file name. */
    var cache: map<string, Page>
    /** The URLs requested from the site, in order. */
    var fetchLog: seq<string>
    /** The output directory: artifacts by tournament id. */
    var written: map<string, Tournament>
    var stats: Stats

    /** The state the specification functions above work on. */
    function State(): World
      reads this
    {
      World(cache, fetchLog, written, stats)
    }

    constructor (site: string -> Page, cache: map<string, Page>, written: map<string, Tournament>)
      ensures this.site == site && State() == World(cache, [], written, Stats(0, 0, 0, 0, 0))
    {
      this.site := site;
      this.cache := cache;
      this.written := written;
      fetchLog := [];
      stats := Stats(0, 0, 0, 0, 0);
    }

    /** `async_soup_from_url`: no page for no URL; otherwise the cached page
        on a hit, or the site's page, which is then stored in the cache. */
    method Fetch(url: Option<string>, useCache: bool) returns (page: Option<Page>)
      modifies this
      ensures (State(), page) == FetchW(site, old(State()), url, useCache)
      ensures url.Some? ==> CacheKey(url.value) in cache && page == Some(cache[CacheKey(url.value)])
    {
      if url.None? {
        return None;
      }
      var key := CacheKey(url.value);
      if useCache && key in cache {
        assert fetchLog + [] == fetchLog;
        return Some(cache[key]);
      }
      var served := site(url.value);
      fetchLog := fetchLog + [url.value];
      cache := cache[key := served];
      return Some(served);
    }

    /** The fan-out of a list of fetches through the cache, one after the
        other. */
    method FetchAll(urls: seq<Option<string>>) returns (pages: seq<Option<Page>>)
      modifies this
      ensures (State(), pages) == FetchAllW(site, old(State()), urls)
    {
      pages := [];
      for i := 0 to |urls|
        invariant (State(), pages) == FetchAllW(site, old(State()), urls[..i])
      {
        var page := Fetch(urls[i], true);
        assert urls[..i + 1][..i] == urls[..i];
        pages := pages + [page];
      }
      assert urls[..|urls|] == urls;
    }

    /** `extract_players`: the data rows of the standings table, the
        decklist page of each row that links to one, and the players built
        from the rows whose page is present. */
    method ExtractPlayers(standings: Page, tid: string) returns (players: Option<seq<Player>>)
      modifies this
      ensures State() == DecklistPages(site, old(State()), standings, tid).0
      ensures players == PlayersFrom(DataRows(standings, "striped"), DecklistPages(site, old(State()), standings, tid).1)
    {
      var rows := ExtractTrs(standings, "striped");
      var pages := FetchAll(DecklistUrls(tid, rows));
      players := BuildPlayers(rows, pages);
    }

    /** `extract_matches`: the current pairing round through the cache, the
        earlier rounds its navigation links to, and the matches of every
        round, earlier rounds first. */
    method ExtractMatches(tid: string) returns (matches: seq<Match>)
      modifies this
      ensures State() == PairingPages(site, old(State()), tid).0
      ensures matches == MatchesOfPages(PairingPages(site, old(State()), tid).1)
    {
      var last := Fetch(Some(PairingsUrl(tid)), true);
      var current := last.value;
      var earlier := ExtractPreviousPairingsUrls(current);
      ghost var w1 := State();
      var fetched := FetchAll(AllSome(earlier));
      FetchAllPages(site, w1, AllSome(earlier));
      PresentFromCache(earlier, fetched, cache);
      matches := CollectMatches(Present(fetched) + [current]);
    }

    /** `handle_tournament_standings_page` for the tournament of a list row:
        skip it when its artifact exists, abort when a decklist does not
        convert, skip it when no player remains, otherwise count it and
        write its artifact. */
    method HandleTournament(standings: Page, row: Row) returns (outcome: Outcome)
      modifies this
      ensures (State(), outcome) == HandleTournamentW(site, old(State()), standings, row)
    {
      var tid := row.linkId;
      if tid in written {
        return AlreadyWritten;
      }
      var players := ExtractPlayers(standings, tid);
      if players.None? {
        return Aborted;
      }
      if players.value == [] {
        return NoPlayers;
      }
      var matches := ExtractMatches(tid);
      var t := TournamentOf(row, players.value, matches);
      stats := Record(stats, t);
      written := written[tid := t];
      return Completed(t);
    }

    /** The loop of `handle_tournament_list_page` over the listed
        tournaments, in list order; it stops at the first aborted one. */
    method HandleAll(standings: seq<Page>, trs: seq<Row>) returns (aborted: bool)
      requires |standings| == |trs|
      modifies this
      ensures (State(), aborted) == HandleAllW(site, old(State()), standings, trs)
    {
      for i := 0 to |trs|
        invariant (State(), false) == HandleAllW(site, old(State()), standings[..i], trs[..i])
      {
        var outcome := HandleTournament(standings[i], trs[i]);
        assert standings[..i + 1][..i] == standings[..i] && trs[..i + 1][..i] == trs[..i];
        if outcome == Aborted {
          RunListAbortPersists(TournamentStepOf(site), old(State()), standings, trs, i + 1);
          return true;
        }
      }
      assert standings[..|trs|] == standings && trs[..|trs|] == trs;
      return false;
    }

    /** `handle_tournament_list_page` for one page of the list: the page is
        always taken from the site; a page without pagination ends the
        walk; otherwise the standings of every listed tournament are
        fetched, each tournament is handled in list order, and the next
        page is the one after the declared page while that is below the
        bound. */
    method HandleListPage(url: string) returns (next: Option<string>, aborted: bool)
      modifies this
      ensures (State(), next, aborted) == HandleListPageW(site, old(State()), url)
    {
      var fetched := Fetch(Some(url), false);
      var page := fetched.value;
      if page.pagination.None? {
        return None, false;
      }
      var current := CurrentPage(page.pagination.value);
      var trs := ExtractTrs(page, "completed-tournaments");
      var urls := StandingsUrls(trs);
      ghost var w1 := State();
      var standings := FetchAll(AllSome(urls));
      FetchAllPages(site, w1, AllSome(urls));
      PresentFromCache(urls, standings, cache);
      assert (State(), Present(standings)) == ListedStandings(site, old(State()), url);
      aborted := HandleAll(Present(standings), trs);
      if aborted {
        return None, true;
      }
      if current < MaxPage {
        next := Some(NextPageUrl(current));
      } else {
        next := None;
      }
    }

    /** `main`: the walk over the list pages from the first one, for at most
        `fuel` pages; it stops at the last page or when a tournament aborts
        the run. */
    method Crawl(fuel: nat) returns (visited: seq<string>, aborted: bool)
      modifies this
      ensures (State(), visited, aborted) == CrawlW(site, old(State()), FirstTournamentPage, fuel)
    {
      visited := [];
      aborted := false;
      var url := FirstTournamentPage;
      assert visited + CrawlW(site, State(), url, fuel).1 == CrawlW(site, State(), url, fuel).1;
      while |visited| < fuel
        invariant |visited| <= fuel
        invariant var rest := Walk(ListPageStepOf(site), State(), url, fuel - |visited|);
          CrawlW(site, old(State()), FirstTournamentPage, fuel) == (rest.0, visited + rest.1, rest.2)
        decreases fuel - |visited|
      {
        ghost var before := State();
        var next, stop := HandleListPage(url);
        assert ListPageStepOf(site)(before, url) == (State(), next, stop);
        if stop || next.None? {
          visited := visited + [url];
          aborted := stop;
          return;
        }
        WalkOn(ListPageStepOf(site), CrawlW(site, old(State()), FirstTournamentPage, fuel), visited,
               before, url, fuel - |visited|, (State(), next, stop));
        ghost var left := fuel - |visited| - 1;
        visited := visited + [url];
        url := next.value;
        assert fuel - |visited| == left;
      }
      assert visited + [] == visited;
    }
  }
}
