/** The record-building core of the tournament scraper (Extraction_test.py):
    the records written to the per-tournament JSON artifacts, the pages the
    scraper reads (reduced to the parts it looks at), the URL builders, the
    cache-file name, and the extraction of rows, links, matches and
    decklists from a page. */
module Extraction {
  import opened Common

  // ---------------------------------------------------------------------
  // The records of a tournament artifact

  /** One card of a decklist; `category` is the source's `type` field. */
  datatype DeckListItem = DeckListItem(category: string, url: string, name: string, count: int)

  datatype Player = Player(id: string, name: string, placing: string, country: string, decklist: seq<DeckListItem>)

  datatype MatchResult = MatchResult(playerId: string, score: int)

  datatype Match = Match(matchResults: seq<MatchResult>)

  datatype Tournament = Tournament(
    id: string, name: string, date: string, organizer: string, format: string,
    nbPlayers: string, players: seq<Player>, matches: seq<Match>)

  // ---------------------------------------------------------------------
  // Pages, reduced to what the scraper reads from them

  /** A table row: its attributes, the identifier carried by its identifying
      link (the player id on a standings page, the tournament id on the list
      page) and whether it links to a decklist. */
  datatype Row = Row(attrs: map<string, string>, linkId: string, hasDecklistLink: bool)

  /** A link of the pairing-round navigation. */
  datatype Anchor = Anchor(href: string)

  /** A player sub-block of a bracket match, with its id and parsed score. */
  datatype BracketPlayer = BracketPlayer(id: string, score: int)

  /** A `bracket-match` block: whether it holds a `bye` link, and its player
      sub-blocks in document order. */
  datatype BracketBlock = BracketBlock(hasBye: bool, players: seq<BracketPlayer>)

  /** A `p1` or `p2` cell of a pairing row, with its id and parsed count. */
  datatype Cell = Cell(id: string, count: int)

  /** A `tr` of a pairing table: its attributes and its optional cells. */
  datatype PairingRow = PairingRow(attrs: map<string, string>, p1: Option<Cell>, p2: Option<Cell>)

  /** A `table` inside the `pairings` div. The pattern the scraper uses for
      `data-tournament` matches the empty string, so any value is accepted
      and only the presence of the attribute matters. */
  datatype TableTag = TableTag(hasDataTournament: bool)

  /** A link inside the `decklist` div: the text of the heading of its
      section, its `href`, and its own text. */
  datatype CardLink = CardLink(heading: string, href: string, text: string)

  /** The `pagination` list and its optional `data-current` attribute. */
  datatype Pagination = Pagination(current: Option<int>)

  /** A parsed page. `classed` gives, for a class name, the rows of the
      first element carrying that class; the optional parts are absent when
      the page has no such element; `pairingRows` are all the `tr` of the
      page. */
  datatype Page = Page(
    classed: map<string, seq<Row>>,
    miniNav: Option<seq<Anchor>>,
    liveBracket: Option<seq<BracketBlock>>,
    pairingsDiv: Option<seq<TableTag>>,
    pairingRows: seq<PairingRow>,
    decklistDiv: Option<seq<CardLink>>,
    pagination: Option<Pagination>)

  /** `attrs.get(k, default)`. */
  function AttrOr(attrs: map<string, string>, k: string, default: string): (v: string)
    ensures k in attrs ==> v == attrs[k]
    ensures k !in attrs ==> v == default
  {
    if k in attrs then attrs[k] else default
  }

  // ---------------------------------------------------------------------
  // URL builders

  function StandingsUrl(tid: string): string {
    "/tournament/" + tid + "/standings?players"
  }

  function PairingsUrl(tid: string): string {
    "/tournament/" + tid + "/pairings"
  }

  function DecklistUrl(tid: string, pid: string): string {
    "/tournament/" + tid + "/player/" + pid + "/decklist"
  }

  /** Splitting a built URL at `/` gives back its pieces. The scraper reads
      a tournament id as the third piece of a standings link, so on these
      URLs it reads back the id they were built from. */
  lemma StandingsUrlPieces(tid: string)
    requires '/' !in tid
    ensures Split(StandingsUrl(tid), '/') == ["", "tournament", tid, "standings?players"]
  {
    assert '/' !in "tournament" && '/' !in "standings?players";
    var s := ["", "tournament", tid, "standings?players"];
    assert s[1..][1..][1..] == ["standings?players"];
    assert s[1..][1..] == [tid, "standings?players"];
    assert s[1..] == ["tournament", tid, "standings?players"];
    assert Join(s[1..][1..], '/') == tid + "/" + "standings?players";
    assert Join(s[1..], '/') == "tournament" + "/" + (tid + "/" + "standings?players");
    assert Join(s, '/') == "/" + ("tournament" + "/" + (tid + "/" + "standings?players"));
    assert "/" + "tournament" + "/" == "/tournament/" && "/" + "standings?players" == "/standings?players";
    assert Join(s, '/') == StandingsUrl(tid);
    SplitJoin(s, '/');
  }

  lemma PairingsUrlPieces(tid: string)
    requires '/' !in tid
    ensures Split(PairingsUrl(tid), '/') == ["", "tournament", tid, "pairings"]
  {
    assert '/' !in "tournament" && '/' !in "pairings";
    var p := ["", "tournament", tid, "pairings"];
    assert p[1..][1..][1..] == ["pairings"];
    assert p[1..][1..] == [tid, "pairings"];
    assert p[1..] == ["tournament", tid, "pairings"];
    assert Join(p[1..][1..], '/') == tid + "/" + "pairings";
    assert Join(p[1..], '/') == "tournament" + "/" + (tid + "/" + "pairings");
    assert Join(p, '/') == "/" + ("tournament" + "/" + (tid + "/" + "pairings"));
    assert "/" + "tournament" + "/" == "/tournament/" && "/" + "pairings" == "/pairings";
    assert Join(p, '/') == PairingsUrl(tid);
    SplitJoin(p, '/');
  }

  /** The scraper reads a player id as the fifth `/`-piece of a player
      link; on a built decklist URL that piece is the player id. */
  lemma DecklistUrlPieces(tid: string, pid: string)
    requires '/' !in tid && '/' !in pid
    ensures Split(DecklistUrl(tid, pid), '/') == ["", "tournament", tid, "player", pid, "decklist"]
  {
    assert '/' !in "tournament" && '/' !in "player" && '/' !in "decklist";
    DecklistUrlJoin(tid, pid);
    SplitJoin(["", "tournament", tid, "player", pid, "decklist"], '/');
  }

  /** A decklist URL is its pieces joined by `/`. */
  lemma DecklistUrlJoin(tid: string, pid: string)
    ensures Join(["", "tournament", tid, "player", pid, "decklist"], '/') == DecklistUrl(tid, pid)
  {
    var d := ["", "tournament", tid, "player", pid, "decklist"];
    assert d[1..][1..][1..][1..][1..] == ["decklist"];
    assert d[1..][1..][1..][1..] == [pid, "decklist"];
    assert d[1..][1..][1..] == ["player", pid, "decklist"];
    assert d[1..][1..] == [tid, "player", pid, "decklist"];
    assert d[1..] == ["tournament", tid, "player", pid, "decklist"];
    assert Join(d[1..][1..][1..][1..], '/') == pid + "/" + "decklist";
    assert Join(d[1..][1..][1..], '/') == "player" + "/" + (pid + "/" + "decklist");
    assert Join(d[1..][1..], '/') == tid + "/" + ("player" + "/" + (pid + "/" + "decklist"));
    assert Join(d[1..], '/') == "tournament" + "/" + (tid + "/" + ("player" + "/" + (pid + "/" + "decklist")));
    assert Join(d, '/') == "/" + ("tournament" + "/" + (tid + "/" + ("player" + "/" + (pid + "/" + "decklist"))));
    assert "/" + "tournament" + "/" == "/tournament/";
    assert "/" + "player" + "/" == "/player/" && "/" + "decklist" == "/decklist";
  }

  // ---------------------------------------------------------------------
  // Cache file name

  /** `ch.isalnum()` on ASCII characters. */
  predicate IsAlnum(c: char) {
    'a' <= c <= 'z' || 'A' <= c <= 'Z' || IsDigit(c)
  }

  predicate AlnumOrSlash(c: char) {
    IsAlnum(c) || c == '/'
  }

  /** The characters a cache file name is made of, before its extension. */
  predicate CacheChar(c: char) {
    IsAlnum(c) || c == '/' || c == '_'
  }

  /** `\bnul\b` on a string of alphanumerics and slashes matches exactly
      the `/`-pieces equal to "nul". */
  function EscapeNul(piece: string): (r: string)
    ensures r != "nul"
    ensures piece != "nul" ==> r == piece
  {
    if piece == "nul" then "__nul__" else piece
  }

  function EscapePieces(pieces: seq<string>): (r: seq<string>)
    ensures |r| == |pieces|
    ensures forall i :: 0 <= i < |r| ==> r[i] == EscapeNul(pieces[i])
  {
    seq(|pieces|, i requires 0 <= i < |pieces| => EscapeNul(pieces[i]))
  }

  /** The `/`-pieces of the name once only alphanumerics and slashes are
      kept, each "nul" escaped. */
  function CachePieces(url: string): (pieces: seq<string>)
    ensures |pieces| >= 1
    ensures forall k :: 0 <= k < |pieces| ==> '/' !in pieces[k] && pieces[k] != "nul"
  {
    assert '/' !in "__nul__";
    EscapePieces(Split(KeepChars("cache" + url, AlnumOrSlash), '/'))
  }

  /** `sanitize_cache_filename`. */
  function CacheKey(url: string): string {
    Join(CachePieces(url), '/') + ".html"
  }

  /** The name before its extension splits back into its pieces, so no
      `/`-piece of it is "nul". */
  lemma CacheKeyPieces(url: string)
    ensures |CacheKey(url)| >= 5 && CacheKey(url)[|CacheKey(url)| - 5..] == ".html"
    ensures Split(CacheKey(url)[..|CacheKey(url)| - 5], '/') == CachePieces(url)
    ensures forall k :: 0 <= k < |CachePieces(url)| ==> CachePieces(url)[k] != "nul"
  {
    assert CacheKey(url)[..|CacheKey(url)| - 5] == Join(CachePieces(url), '/');
    SplitJoin(CachePieces(url), '/');
  }

  /** The name starts with "cache": the prefix survives the filter and
      begins the first piece, which is too long to be "nul". */
  lemma CacheKeyPrefix(url: string)
    ensures |CacheKey(url)| >= 10 && CacheKey(url)[..5] == "cache"
  {
    var rest := KeepChars(url, AlnumOrSlash);
    KeepCharsAppend("cache", url, AlnumOrSlash);
    KeepCharsAll("cache", AlnumOrSlash);
    assert '/' !in "cache";
    SplitFirstPiece("cache", rest, '/');
    var raw := Split("cache" + rest, '/');
    assert raw[0] == "cache" + Split(rest, '/')[0];
    var pieces := CachePieces(url);
    assert pieces[0] == raw[0];
    JoinStartsWith(pieces, '/');
    var body := Join(pieces, '/');
    assert body[..5] == raw[0][..5] == "cache";
    assert CacheKey(url)[..5] == body[..5];
  }

  /** Before its extension, the name holds only alphanumerics, slashes and
      the underscores of "__nul__". */
  lemma CacheKeyChars(url: string)
    ensures |CacheKey(url)| >= 5
    ensures AllChars(CacheKey(url)[..|CacheKey(url)| - 5], CacheChar)
  {
    var kept := KeepChars("cache" + url, AlnumOrSlash);
    var raw := Split(kept, '/');
    SplitChars(kept, '/', AlnumOrSlash);
    var pieces := CachePieces(url);
    forall k | 0 <= k < |pieces|
      ensures AllChars(pieces[k], CacheChar)
    {
      assert AllChars(raw[k], AlnumOrSlash);
      assert AllChars("__nul__", CacheChar);
    }
    JoinChars(pieces, '/', CacheChar);
    assert CacheKey(url)[..|CacheKey(url)| - 5] == Join(pieces, '/');
  }

  // ---------------------------------------------------------------------
  // Trimming helpers

  /** The data rows of the first element with the given class: all its rows
      but the header, none when there is no such element. */
  function DataRows(page: Page, tableClass: string): (rows: seq<Row>)
    ensures tableClass !in page.classed ==> rows == []
    ensures tableClass in page.classed ==>
      var all := page.classed[tableClass];
      |rows| == (if all == [] then 0 else |all| - 1)
      && forall i :: 0 <= i < |rows| ==> rows[i] == all[i + 1]
  {
    if tableClass !in page.classed || page.classed[tableClass] == [] then []
    else page.classed[tableClass][1..]
  }

  /** `extract_trs`: the header row is popped off the row list. */
  method ExtractTrs(page: Page, tableClass: string) returns (trs: seq<Row>)
    ensures trs == DataRows(page, tableClass)
  {
    if tableClass !in page.classed {
      return [];
    }
    trs := page.classed[tableClass];
    if |trs| > 0 {
      trs := trs[1..];
    }
  }

  /** The links to the earlier pairing rounds: every navigation link but
      the last, which is the current round. */
  function PreviousPairingsUrls(page: Page): (urls: seq<string>)
    ensures page.miniNav.None? ==> urls == []
    ensures page.miniNav.Some? ==>
      var links := page.miniNav.value;
      |urls| == (if links == [] then 0 else |links| - 1)
      && forall i :: 0 <= i < |urls| ==> urls[i] == links[i].href
  {
    if page.miniNav.None? || page.miniNav.value == [] then []
    else
      var links := page.miniNav.value;
      seq(|links| - 1, i requires 0 <= i < |links| - 1 => links[i].href)
  }

  /** `extract_previous_pairings_urls`. */
  method ExtractPreviousPairingsUrls(page: Page) returns (urls: seq<string>)
    ensures urls == PreviousPairingsUrls(page)
  {
    if page.miniNav.None? {
      return [];
    }
    var links := page.miniNav.value;
    if |links| > 0 {
      links := links[..|links| - 1];
    }
    urls := [];
    for i := 0 to |links|
      invariant |urls| == i
      invariant forall k :: 0 <= k < i ==> urls[k] == links[k].href
    {
      urls := urls + [links[i].href];
    }
  }

  // ---------------------------------------------------------------------
  // Pairing pages

  /** `is_bracket_pairing`. */
  predicate IsBracketPairing(page: Page) {
    page.liveBracket.Some?
  }

  /** `is_table_pairing`: a table with a `data-tournament` attribute inside
      the `pairings` div. */
  predicate IsTablePairing(page: Page) {
    page.pairingsDiv.Some? && exists k :: 0 <= k < |page.pairingsDiv.value| && page.pairingsDiv.value[k].hasDataTournament
  }

  /** What one bracket block contributes: nothing for a bye, otherwise one
      match with a result per player sub-block, in document order. */
  function BracketBlockMatch(block: BracketBlock): (m: Option<Match>)
    ensures m.None? <==> block.hasBye
    ensures m.Some? ==>
      |m.value.matchResults| == |block.players|
      && forall i :: 0 <= i < |block.players| ==>
           m.value.matchResults[i] == MatchResult(block.players[i].id, block.players[i].score)
  {
    if block.hasBye then None
    else Some(Match(seq(|block.players|, i requires 0 <= i < |block.players| =>
                          MatchResult(block.players[i].id, block.players[i].score))))
  }

  function BracketMatches(blocks: seq<BracketBlock>): seq<Match> {
    FilterMap(blocks, BracketBlockMatch)
  }

  function CountNonBye(blocks: seq<BracketBlock>): nat {
    if blocks == [] then 0 else CountNonBye(blocks[..|blocks| - 1]) + (if blocks[|blocks| - 1].hasBye then 0 else 1)
  }

  /** One match per block without a bye. */
  lemma {:induction false} BracketMatchCount(blocks: seq<BracketBlock>)
    ensures |BracketMatches(blocks)| == CountNonBye(blocks)
  {
    if blocks != [] {
      BracketMatchCount(blocks[..|blocks| - 1]);
    }
  }

  /** A block with a bye contributes nothing, wherever it stands. */
  lemma ByeBlockContributesNothing(before: seq<BracketBlock>, block: BracketBlock, after: seq<BracketBlock>)
    requires block.hasBye
    ensures BracketMatches(before + [block] + after) == BracketMatches(before + after)
  {
    FilterMapAppend(before + [block], after, BracketBlockMatch);
    FilterMapSnoc(before, block, BracketBlockMatch);
    FilterMapAppend(before, after, BracketBlockMatch);
  }

  /** `extract_matches_from_bracket_pairings`. */
  method ExtractMatchesFromBracketPairings(page: Page) returns (matches: seq<Match>)
    ensures page.liveBracket.None? ==> matches == []
    ensures page.liveBracket.Some? ==> matches == BracketMatches(page.liveBracket.value)
  {
    matches := [];
    if page.liveBracket.None? {
      return;
    }
    var blocks := page.liveBracket.value;
    for i := 0 to |blocks|
      invariant matches == BracketMatches(blocks[..i])
    {
      var block := blocks[i];
      assert blocks[..i + 1] == blocks[..i] + [block];
      FilterMapSnoc(blocks[..i], block, BracketBlockMatch);
      if block.hasBye {
        continue;
      }
      var results := [];
      for j := 0 to |block.players|
        invariant |results| == j
        invariant forall k :: 0 <= k < j ==> results[k] == MatchResult(block.players[k].id, block.players[k].score)
      {
        results := results + [MatchResult(block.players[j].id, block.players[j].score)];
      }
      assert results == BracketBlockMatch(block).value.matchResults;
      matches := matches + [Match(results)];
    }
    assert blocks[..|blocks|] == blocks;
  }

  /** The row carries `data-completed="1"`. */
  predicate IsCompleted(row: PairingRow) {
    "data-completed" in row.attrs && row.attrs["data-completed"] == "1"
  }

  /** What one pairing row contributes: a two-result match, p1 first, when
      the row is completed and has both cells; nothing otherwise. */
  function TableRowMatch(row: PairingRow): (m: Option<Match>)
    ensures m.Some? <==> IsCompleted(row) && row.p1.Some? && row.p2.Some?
    ensures m.Some? ==>
      m.value.matchResults == [MatchResult(row.p1.value.id, row.p1.value.count),
                               MatchResult(row.p2.value.id, row.p2.value.count)]
  {
    if IsCompleted(row) && row.p1.Some? && row.p2.Some? then
      Some(Match([MatchResult(row.p1.value.id, row.p1.value.count),
                  MatchResult(row.p2.value.id, row.p2.value.count)]))
    else None
  }

  function TableMatches(rows: seq<PairingRow>): seq<Match> {
    FilterMap(rows, TableRowMatch)
  }

  function CountReadable(rows: seq<PairingRow>): nat {
    if rows == [] then 0
    else
      var last := rows[|rows| - 1];
      CountReadable(rows[..|rows| - 1]) + (if IsCompleted(last) && last.p1.Some? && last.p2.Some? then 1 else 0)
  }

  /** One match per completed row with both cells, each with two results. */
  lemma {:induction false} TableMatchCount(rows: seq<PairingRow>)
    ensures |TableMatches(rows)| == CountReadable(rows)
    ensures forall k :: 0 <= k < |TableMatches(rows)| ==> |TableMatches(rows)[k].matchResults| == 2
  {
    if rows != [] {
      TableMatchCount(rows[..|rows| - 1]);
    }
  }

  /** A row that is not completed, or misses a cell, contributes nothing. */
  lemma SkippedRowContributesNothing(before: seq<PairingRow>, row: PairingRow, after: seq<PairingRow>)
    requires !(IsCompleted(row) && row.p1.Some? && row.p2.Some?)
    ensures TableMatches(before + [row] + after) == TableMatches(before + after)
  {
    FilterMapAppend(before + [row], after, TableRowMatch);
    FilterMapSnoc(before, row, TableRowMatch);
    FilterMapAppend(before, after, TableRowMatch);
  }

  /** `extract_matches_from_table_pairings`. */
  method ExtractMatchesFromTablePairings(page: Page) returns (matches: seq<Match>)
    ensures matches == TableMatches(page.pairingRows)
  {
    matches := [];
    var rows := page.pairingRows;
    for i := 0 to |rows|
      invariant matches == TableMatches(rows[..i])
    {
      var row := rows[i];
      assert rows[..i + 1] == rows[..i] + [row];
      FilterMapSnoc(rows[..i], row, TableRowMatch);
      if IsCompleted(row) {
        if row.p1.Some? && row.p2.Some? {
          matches := matches + [Match([MatchResult(row.p1.value.id, row.p1.value.count),
                                       MatchResult(row.p2.value.id, row.p2.value.count)])];
        }
      }
    }
    assert rows[..|rows|] == rows;
  }

  datatype Layout = Bracket | Table | Unrecognized

  /** The layout test order of `extract_matches`: bracket first. */
  function Classify(page: Page): (layout: Layout)
    ensures layout == Bracket <==> IsBracketPairing(page)
    ensures layout == Table <==> !IsBracketPairing(page) && IsTablePairing(page)
    ensures layout == Unrecognized <==> !IsBracketPairing(page) && !IsTablePairing(page)
  {
    if IsBracketPairing(page) then Bracket
    else if IsTablePairing(page) then Table
    else Unrecognized
  }

  /** The matches one pairing page contributes. */
  function PageMatches(page: Page): seq<Match> {
    match Classify(page)
    case Bracket => BracketMatches(page.liveBracket.value)
    case Table => TableMatches(page.pairingRows)
    case Unrecognized => []
  }

  /** A bracket container wins over a table; a page with neither layout
      contributes no match. */
  lemma PageMatchesLayout(page: Page)
    ensures IsBracketPairing(page) ==> PageMatches(page) == BracketMatches(page.liveBracket.value)
    ensures !IsBracketPairing(page) && IsTablePairing(page) ==> PageMatches(page) == TableMatches(page.pairingRows)
    ensures !IsBracketPairing(page) && !IsTablePairing(page) ==> PageMatches(page) == []
  {
  }

  /** One loop step of `extract_matches`: classify, then extract. */
  method ExtractPageMatches(page: Page) returns (matches: seq<Match>)
    ensures matches == PageMatches(page)
  {
    if page.liveBracket.Some? {
      matches := ExtractMatchesFromBracketPairings(page);
    } else if IsTablePairing(page) {
      matches := ExtractMatchesFromTablePairings(page);
    } else {
      matches := [];
    }
  }

  /** The matches of the pairing pages, page after page. */
  function MatchesOfPages(pages: seq<Page>): seq<Match> {
    ConcatMap(pages, PageMatches)
  }

  /** The matches of the earlier rounds come first and the current round's
      matches last. */
  lemma CurrentRoundLast(previous: seq<Page>, current: Page)
    ensures MatchesOfPages(previous + [current]) == MatchesOfPages(previous) + PageMatches(current)
  {
    assert (previous + [current])[..|previous|] == previous;
  }

  /** The accumulation loop of `extract_matches`. */
  method CollectMatches(pages: seq<Page>) returns (matches: seq<Match>)
    ensures matches == MatchesOfPages(pages)
  {
    matches := [];
    for i := 0 to |pages|
      invariant matches == MatchesOfPages(pages[..i])
    {
      var m := ExtractPageMatches(pages[i]);
      assert pages[..i + 1] == pages[..i] + [pages[i]];
      CurrentRoundLast(pages[..i], pages[i]);
      matches := matches + m;
    }
    assert pages[..|pages|] == pages;
  }

  // ---------------------------------------------------------------------
  // Decklists

  predicate OccursAt(s: string, pat: string, i: nat) {
    i + |pat| <= |s| && s[i..i + |pat|] == pat
  }

  /** `pocket\.limitlesstcg\.com/cards/.*` searched in a link. */
  predicate IsCardUrl(href: string) {
    exists i :: 0 <= i <= |href| && OccursAt(href, "pocket.limitlesstcg.com/cards/", i)
  }

  /** `text.split(" ")[0]`. */
  function FirstWord(text: string): (w: string)
    ensures ' ' !in w
  {
    Split(text, ' ')[0]
  }

  /** `(text[2:], int(text[0]))`: the quantity is the first character alone
      and the name starts two characters in; a text that is empty or does
      not start with a digit fails to convert. */
  function ParseCardText(text: string): (r: Option<(string, int)>)
    ensures r.Some? <==> |text| > 0 && IsDigit(text[0])
    ensures r.Some? ==> r.value.1 == DigitValue(text[0]) && 0 <= r.value.1 < 10
    ensures r.Some? && |text| >= 2 ==> r.value.0 == text[2..]
    ensures r.Some? && |text| < 2 ==> r.value.0 == ""
  {
    if |text| > 0 && IsDigit(text[0]) then Some((if |text| >= 2 then text[2..] else "", DigitValue(text[0])))
    else None
  }

  /** A quantity below ten written before the name reads back whole. */
  lemma ParseSingleDigitCount(n: nat, name: string)
    requires n < 10
    ensures ParseCardText(NatToString(n) + " " + name) == Some((name, n))
  {
    var text := NatToString(n) + " " + name;
    assert text[2..] == name;
  }

  /** A quantity of ten or more reads as its leading digit and leaves its
      other digits in front of the name. */
  lemma ParseMultiDigitCount(n: nat, name: string)
    requires n >= 10
    ensures ParseCardText(NatToString(n) + " " + name).Some?
    ensures ParseCardText(NatToString(n) + " " + name).value.1 != n
    ensures ParseCardText(NatToString(n) + " " + name).value.0 == (NatToString(n) + " " + name)[2..]
  {
    var text := NatToString(n) + " " + name;
    assert text[0] == NatToString(n)[0];
  }

  lemma ParseCardExamples()
    ensures ParseCardText("3 Charizard") == Some(("Charizard", 3))
    ensures ParseCardText("10 Pikachu") == Some((" Pikachu", 1))
  {
    assert "3 Charizard"[2..] == "Charizard";
    assert "10 Pikachu"[2..] == " Pikachu";
  }

  /** The decklist item a card link gives, if its text converts. */
  function CardItem(card: CardLink): (r: Option<DeckListItem>)
    ensures r.Some? <==> ParseCardText(card.text).Some?
    ensures r.Some? ==>
      r.value == DeckListItem(FirstWord(card.heading), card.href,
                              ParseCardText(card.text).value.0, ParseCardText(card.text).value.1)
  {
    match ParseCardText(card.text)
    case None => None
    case Some((name, count)) => Some(DeckListItem(FirstWord(card.heading), card.href, name, count))
  }

  /** The card links of a decklist, in document order. */
  function CardLinks(page: Page): seq<CardLink> {
    if page.decklistDiv.None? then []
    else FilterMap(page.decklistDiv.value, (c: CardLink) => if IsCardUrl(c.href) then Some(c) else None)
  }

  /** The items of a list of card links: one per link, in order, or no list
      at all when one of the texts fails to convert. */
  function CardItems(cards: seq<CardLink>): (r: Option<seq<DeckListItem>>)
    ensures r.None? <==> exists k :: 0 <= k < |cards| && CardItem(cards[k]).None?
    ensures r.Some? ==> |r.value| == |cards| && forall k :: 0 <= k < |cards| ==> Some(r.value[k]) == CardItem(cards[k])
  {
    if cards == [] then Some([])
    else
      var init := CardItems(cards[..|cards| - 1]);
      var last := CardItem(cards[|cards| - 1]);
      if init.None? then
        None
      else if last.None? then None
      else Some(init.value + [last.value])
  }

  /** The decklist of a page: none is an empty decklist, not an error. */
  function Decklist(page: Page): Option<seq<DeckListItem>> {
    CardItems(CardLinks(page))
  }

  /** `extract_decklist`: the items are appended card by card; a text that
      does not convert stops the extraction. */
  method ExtractDecklist(page: Page) returns (cards: Option<seq<DeckListItem>>)
    ensures cards == Decklist(page)
  {
    var links := CardLinks(page);
    var items := [];
    for i := 0 to |links|
      invariant CardItems(links[..i]) == Some(items)
    {
      assert links[..i + 1][..i] == links[..i];
      match ParseCardText(links[i].text)
      case None =>
        assert CardItem(links[..i + 1][i]).None?;
        assert CardItems(links[..i + 1]).None?;
        CardItemsFailurePersists(links, i + 1);
        return None;
      case Some((name, count)) =>
        items := items + [DeckListItem(FirstWord(links[i].heading), links[i].href, name, count)];
    }
    assert links[..|links|] == links;
    return Some(items);
  }

  /** Once a prefix fails to convert, the whole list fails. */
  lemma CardItemsFailurePersists(cards: seq<CardLink>, n: nat)
    requires n <= |cards|
    requires CardItems(cards[..n]).None?
    ensures CardItems(cards).None?
  {
    var k :| 0 <= k < n && CardItem(cards[..n][k]).None?;
    assert cards[k] == cards[..n][k];
  }

  // ---------------------------------------------------------------------
  // Players

  /** `sum(len(p.decklist) for p in players)`. */
  function CardCount(players: seq<Player>): nat {
    if players == [] then 0 else CardCount(players[..|players| - 1]) + |players[|players| - 1].decklist|
  }

  /** The record of a standings row whose decklist page was fetched. */
  function PlayerOf(row: Row, decklist: seq<DeckListItem>): Player {
    Player(row.linkId, AttrOr(row.attrs, "data-name", ""), AttrOr(row.attrs, "data-placing", "-1"),
           AttrOr(row.attrs, "data-country", ""), decklist)
  }

  /** The players of a standings table given each row's decklist page (none
      when the row has no decklist link): rows without a page are dropped,
      the others keep their order; a decklist that fails to convert fails
      the whole list. */
  function PlayersFrom(rows: seq<Row>, pages: seq<Option<Page>>): Option<seq<Player>>
    requires |rows| == |pages|
  {
    if rows == [] then Some([])
    else
      var n := |rows| - 1;
      AddPlayer(PlayersFrom(rows[..n], pages[..n]), rows[n], pages[n])
  }

  /** One step of the player loop. */
  function AddPlayer(players: Option<seq<Player>>, row: Row, page: Option<Page>): Option<seq<Player>> {
    if players.None? then None
    else if page.None? then players
    else match Decklist(page.value)
         case None => None
         case Some(d) => Some(players.value + [PlayerOf(row, d)])
  }

  /** The rows whose decklist page is present, in order. */
  function KeptRows(rows: seq<Row>, pages: seq<Option<Page>>): (kept: seq<Row>)
    requires |rows| == |pages|
    ensures |kept| <= |rows|
  {
    if rows == [] then []
    else
      var n := |rows| - 1;
      KeptRows(rows[..n], pages[..n]) + (if pages[n].Some? then [rows[n]] else [])
  }

  /** The decklist pages that are present, in order. */
  function KeptPages(pages: seq<Option<Page>>): (kept: seq<Page>)
    ensures |kept| <= |pages|
  {
    if pages == [] then []
    else
      var n := |pages| - 1;
      KeptPages(pages[..n]) + (if pages[n].Some? then [pages[n].value] else [])
  }

  /** The players are exactly the rows with a decklist page, in standings
      order, each with the attributes of its row and the decklist read from
      its page. */
  lemma {:induction false} PlayersAreKeptRows(rows: seq<Row>, pages: seq<Option<Page>>)
    requires |rows| == |pages|
    requires PlayersFrom(rows, pages).Some?
    ensures var ps := PlayersFrom(rows, pages).value;
      var kept := KeptRows(rows, pages);
      var keptPages := KeptPages(pages);
      |ps| == |kept| == |keptPages|
      && forall k :: 0 <= k < |ps| ==>
           Decklist(keptPages[k]) == Some(ps[k].decklist) && ps[k] == PlayerOf(kept[k], ps[k].decklist)
  {
    if rows != [] {
      var n := |rows| - 1;
      PlayersAreKeptRows(rows[..n], pages[..n]);
    }
  }

  /** The k-th kept row and the k-th kept page come from the same row of
      the table. */
  lemma {:induction false} KeptTogether(rows: seq<Row>, pages: seq<Option<Page>>)
    requires |rows| == |pages|
    ensures |KeptRows(rows, pages)| == |KeptPages(pages)|
    ensures forall k :: 0 <= k < |KeptPages(pages)| ==>
      exists i :: 0 <= i < |rows| && rows[i] == KeptRows(rows, pages)[k] && pages[i] == Some(KeptPages(pages)[k])
  {
    if rows != [] {
      var n := |rows| - 1;
      KeptTogether(rows[..n], pages[..n]);
      forall k | 0 <= k < |KeptPages(pages)|
        ensures exists i :: 0 <= i < |rows| && rows[i] == KeptRows(rows, pages)[k] && pages[i] == Some(KeptPages(pages)[k])
      {
        if k < |KeptPages(pages[..n])| {
          var i :| 0 <= i < n && rows[..n][i] == KeptRows(rows[..n], pages[..n])[k]
                   && pages[..n][i] == Some(KeptPages(pages[..n])[k]);
          assert rows[i] == KeptRows(rows, pages)[k] && pages[i] == Some(KeptPages(pages)[k]);
        } else {
          assert rows[n] == KeptRows(rows, pages)[k] && pages[n] == Some(KeptPages(pages)[k]);
        }
      }
    }
  }

  /** Some present decklist page does not convert. */
  predicate SomeDecklistFails(pages: seq<Option<Page>>) {
    exists i :: 0 <= i < |pages| && pages[i].Some? && Decklist(pages[i].value).None?
  }

  lemma DecklistFailsAt(pages: seq<Option<Page>>, i: nat)
    requires i < |pages| && pages[i].Some? && Decklist(pages[i].value).None?
    ensures SomeDecklistFails(pages)
  {
  }

  /** The players fail exactly when some present decklist page does not
      convert. */
  lemma {:induction false} PlayersFromFails(rows: seq<Row>, pages: seq<Option<Page>>)
    requires |rows| == |pages|
    ensures PlayersFrom(rows, pages).None? <==> SomeDecklistFails(pages)
  {
    if rows != [] {
      var n := |rows| - 1;
      PlayersFromFails(rows[..n], pages[..n]);
      assert PlayersFrom(rows, pages) == AddPlayer(PlayersFrom(rows[..n], pages[..n]), rows[n], pages[n]);
      SomeDecklistFailsSnoc(pages);
    }
  }

  /** Some page fails exactly when one before the last does or the last
      does. */
  lemma SomeDecklistFailsSnoc(pages: seq<Option<Page>>)
    requires pages != []
    ensures var n := |pages| - 1;
      SomeDecklistFails(pages)
      <==> SomeDecklistFails(pages[..n]) || (pages[n].Some? && Decklist(pages[n].value).None?)
  {
    var n := |pages| - 1;
    if SomeDecklistFails(pages[..n]) {
      var i :| 0 <= i < n && pages[..n][i].Some? && Decklist(pages[..n][i].value).None?;
      assert pages[i] == pages[..n][i];
      DecklistFailsAt(pages, i);
    } else if pages[n].Some? && Decklist(pages[n].value).None? {
      DecklistFailsAt(pages, n);
    } else {
      assert forall i :: 0 <= i < n ==> pages[..n][i] == pages[i];
    }
  }

  /** The decklist URL of each standings row, none for a row without a
      decklist link. */
  function DecklistUrls(tid: string, rows: seq<Row>): (urls: seq<Option<string>>)
    ensures |urls| == |rows|
    ensures forall i :: 0 <= i < |rows| ==> (urls[i].Some? <==> rows[i].hasDecklistLink)
    ensures forall i :: 0 <= i < |rows| && rows[i].hasDecklistLink ==> urls[i].value == DecklistUrl(tid, rows[i].linkId)
  {
    seq(|rows|, i requires 0 <= i < |rows| => if rows[i].hasDecklistLink then Some(DecklistUrl(tid, rows[i].linkId)) else None)
  }

  /** The player loop of `extract_players`: rows without a page are
      skipped, the others appended with their decklist. */
  method BuildPlayers(rows: seq<Row>, pages: seq<Option<Page>>) returns (players: Option<seq<Player>>)
    requires |rows| == |pages|
    ensures players == PlayersFrom(rows, pages)
  {
    var acc: seq<Player> := [];
    for i := 0 to |rows|
      invariant PlayersFrom(rows[..i], pages[..i]) == Some(acc)
    {
      assert rows[..i + 1][..i] == rows[..i] && pages[..i + 1][..i] == pages[..i];
      assert PlayersFrom(rows[..i + 1], pages[..i + 1]) == AddPlayer(Some(acc), rows[i], pages[i]);
      if pages[i].None? {
        continue;
      }
      var deck := ExtractDecklist(pages[i].value);
      if deck.None? {
        PlayersFromFailurePersists(rows, pages, i + 1);
        return None;
      }
      acc := acc + [PlayerOf(rows[i], deck.value)];
    }
    assert rows[..|rows|] == rows && pages[..|pages|] == pages;
    players := Some(acc);
  }

  /** Once the players of a prefix fail, the whole list fails. */
  lemma {:induction false} PlayersFromFailurePersists(rows: seq<Row>, pages: seq<Option<Page>>, n: nat)
    requires |rows| == |pages| && n <= |rows|
    requires PlayersFrom(rows[..n], pages[..n]).None?
    ensures PlayersFrom(rows, pages).None?
    decreases |rows| - n
  {
    if n == |rows| {
      assert rows[..n] == rows && pages[..n] == pages;
    } else {
      var m := |rows| - 1;
      assert rows[..m][..n] == rows[..n] && pages[..m][..n] == pages[..n];
      PlayersFromFailurePersists(rows[..m], pages[..m], n);
      assert PlayersFrom(rows, pages) == AddPlayer(PlayersFrom(rows[..m], pages[..m]), rows[m], pages[m]);
    }
  }

  /** The standings rows that link to a decklist, in order. */
  function LinkedRows(rows: seq<Row>): (linked: seq<Row>)
    ensures |linked| <= |rows|
    ensures forall r :: r in linked ==> r in rows && r.hasDecklistLink
  {
    if rows == [] then []
    else LinkedRows(rows[..|rows| - 1]) + (if rows[|rows| - 1].hasDecklistLink then [rows[|rows| - 1]] else [])
  }

  /** When a row has a decklist page exactly when it links to a decklist,
      the rows kept are the rows with a decklist link. */
  lemma {:induction false} KeptRowsAreLinked(rows: seq<Row>, pages: seq<Option<Page>>)
    requires |rows| == |pages|
    requires forall k :: 0 <= k < |rows| ==> (pages[k].Some? <==> rows[k].hasDecklistLink)
    ensures KeptRows(rows, pages) == LinkedRows(rows)
  {
    if rows != [] {
      var n := |rows| - 1;
      KeptRowsAreLinked(rows[..n], pages[..n]);
    }
  }

  /** No row links to a decklist exactly when none is linked. */
  lemma {:induction false} NoLinkedRows(rows: seq<Row>)
    ensures LinkedRows(rows) == [] <==> forall k :: 0 <= k < |rows| ==> !rows[k].hasDecklistLink
  {
    if rows != [] {
      var n := |rows| - 1;
      NoLinkedRows(rows[..n]);
      assert forall k :: 0 <= k < n ==> rows[..n][k] == rows[k];
    }
  }
}
