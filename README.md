# TGC: a verified model of the tournament scraper and its loaders

TGC collects the results of online Pokémon TCG Pocket tournaments. It has
three parts:

- The scraper (`Extraction_test.py`) walks the list of completed tournaments.
  For each one it reads the standings, every player's decklist and every
  pairing round. It writes one artifact per tournament and keeps a cache of
  fetched pages on disk.
- The loader (`transfere_bdd.py`) turns the artifacts into the rows of the
  working tables of the database. It also anonymises the player ids.
- The cleaning step (`nettoyage.py`) and the dashboard (`Dash.py`) do the
  analysis on top of those tables.

This project models the core of each part in Dafny and proves what each
core promises. There is one module per part:

| file | module | models |
|---|---|---|
| `common.dfy` | `Common` | Python's one-character `split`/`join`, `str(n)`, character filters, list comprehensions |
| `sorting.dfy` | `Sorting` | Python's stable `sorted` with a key, as an insertion sort |
| `extraction.dfy` | `Extraction` | the page parsing of the scraper: rows, URLs, cache file names, pairings, decklists, players |
| `scraper.dfy` | `Crawler` | the scraper's stateful side: the cache, the artifact directory, the statistics, the walk over the list pages |
| `loader.dfy` | `Loader` | the rows of `wrk_matches`, `wrk_decklists` and `wrk_players`, the anonymisation map, the tab-separated copy text |
| `cleaning.dfy` | `Cleaning` | `harmoniser_colonne`, `extraire_saison_depuis_nom`, the card sort before deck hashing |
| `seasons.dfy` | `Seasons` | `trier_saisons` and its `extract_key` |

## How the model is set up

- **Pages.** A parsed page is a value of `Extraction.Page`. It holds only what
  the scraper looks up: the rows of the tables by class, the pairing
  navigation, the bracket and table layouts, the decklist links and the
  pagination control. Each HTML lookup becomes a field of that value.
- **The outside world.** The website is a function from URL to page. The
  cache directory is a map from cache file name to page, and the output
  directory is a map from tournament id to artifact. These are fields of the
  `Crawler.Scraper` class, and its methods update them in place, as the
  scraper updates the disk. The class also keeps the log of URLs requested
  from the site, so the contracts can say which fetches a step makes.
- **Loops.** Every explicit `for` loop of the source, and the recursion
  over list pages, is a method with a loop. Each such method is proved equal
  to a specification function, and the properties are proved about that
  function. Comprehensions and library calls (`sorted`, `unique`, `''.join`)
  are functions.
- **The scraper as state and steps.** Each scraper operation has a
  specification function on a `Crawler.World` value: the cache, the request
  log, the artifacts and the counters. The method of `Crawler.Scraper` is
  proved to leave its fields equal to that function's result. The loop over
  a list's tournaments and the walk over the list pages are written once,
  for any step function (`Crawler.RunList`, `Crawler.Walk`). What they keep
  is proved from what one step keeps, and then applied to the scraper's own
  steps.
- **The card-count failure.** `int(card.text[0])` fails when the first
  character of a card's text is not a digit. That exception ends the whole
  run, so the model carries it as `None`, and a tournament whose decklist
  fails gives the outcome `Aborted`.
- **Where the code and the prose description disagree, the model follows the
  code.**
  - A bracket match has one result per player block. The code does not
    require two results, or two different players.
  - A table match always has two results, but the two player ids may be
    equal.
  - Only the loader drops matches that do not have two different players.
  - A card count can be 0 (text starting with "0").
  - A tournament is written as soon as one standings row links a decklist,
    even when no player ends up with a non-empty decklist. The only test is
    that the player list is not empty, and a decklist page without the
    decklist block gives an empty decklist rather than dropping the player
    (`Crawler.EmptyDecklistsStillWritten`).

## Model

| member | source | states |
|---|---|---|
| Common.SplitJoin | Extraction_test.py:334 | splitting at `/` gives back the pieces a URL was joined from, when no piece contains `/` |
| Common.JoinSplit | Extraction_test.py:334 | joining the pieces of a split gives back the text, so splitting loses nothing |
| Common.NatToStringRoundTrip | transfere_bdd.py:47 | `str(n)` of a count or match id reads back as `n` |
| Common.KeepCharsAppend | Extraction_test.py:178 | keeping the characters that pass a test treats each character on its own, so filtering a concatenation is the concatenation of the filtered parts |
| Sorting.SortBySorted | Dash.py:55 | the sort returns a permutation of its input, ordered by the key |
| Sorting.SortByStable | Dash.py:55 | elements with the same key keep their input order |
| Sorting.SortByCanonical | nettoyage.py:28 | two rearrangements of the same elements sort to the same sequence when the key identifies its element |
| Extraction.StandingsUrlPieces | Extraction_test.py:97-98 | the standings URL splits at `/` into "", "tournament", the id and "standings?players", so piece 2 is the id again |
| Extraction.PairingsUrlPieces | Extraction_test.py:100-101 | the pairings URL splits into "", "tournament", the id and "pairings" |
| Extraction.DecklistUrlPieces | Extraction_test.py:103-104 | the decklist URL splits into "", "tournament", the tournament id, "player", the player id and "decklist" |
| Extraction.EscapeNul | Extraction_test.py:181 | a `/`-piece equal to "nul" is replaced; the result is never "nul", and any other piece is unchanged |
| Extraction.CachePieces | Extraction_test.py:176-181 | the pieces of a cache name: at least one, none containing `/`, none equal to "nul" |
| Extraction.CacheKeyPieces | Extraction_test.py:175-183 | a cache name ends in ".html", and the part before it splits back into its pieces, none of them "nul" |
| Extraction.CacheKeyPrefix | Extraction_test.py:176-182 | a cache name starts with "cache" and has at least 10 characters |
| Extraction.CacheKeyChars | Extraction_test.py:178 | before ".html", a cache name holds only ASCII letters, digits, `/` and the `_` of the escape |
| Extraction.DataRows | Extraction_test.py:87-95 | no rows when the table is missing; otherwise every row except the first (the header), in order |
| Extraction.ExtractTrs | Extraction_test.py:87-95 | returns exactly `DataRows` |
| Extraction.PreviousPairingsUrls | Extraction_test.py:106-113 | no links without the navigation; otherwise the targets of all its links except the last (the current round), in order |
| Extraction.ExtractPreviousPairingsUrls | Extraction_test.py:106-113 | returns exactly `PreviousPairingsUrls` |
| Extraction.BracketBlockMatch | Extraction_test.py:132-143 | a block gives no match exactly when it has a bye; otherwise one result per player block, with its id and score, in order |
| Extraction.BracketMatchCount | Extraction_test.py:126-144 | one match per block without a bye |
| Extraction.ByeBlockContributesNothing | Extraction_test.py:133-135 | removing a bye block changes no match |
| Extraction.ExtractMatchesFromBracketPairings | Extraction_test.py:126-144 | no matches without the bracket container; otherwise the matches of its blocks in order |
| Extraction.TableRowMatch | Extraction_test.py:148-156 | a row gives a match exactly when it is completed and has both cells; that match has p1's result, then p2's |
| Extraction.TableMatchCount | Extraction_test.py:146-157 | one match per completed row with both cells, and each has two results |
| Extraction.SkippedRowContributesNothing | Extraction_test.py:148-152 | removing a row that is not completed, or lacks a cell, changes no match |
| Extraction.ExtractMatchesFromTablePairings | Extraction_test.py:146-157 | returns exactly the matches of the readable rows, in order |
| Extraction.Classify | Extraction_test.py:254-260 | the layout is bracket exactly when the container is there; table exactly when it is not but a tagged table is; unrecognised otherwise |
| Extraction.PageMatchesLayout | Extraction_test.py:254-260 | the bracket layout wins over the table; an unrecognised page gives no match |
| Extraction.ExtractPageMatches | Extraction_test.py:254-260 | returns exactly the matches of the page's layout |
| Extraction.CurrentRoundLast | Extraction_test.py:252-256 | the current round's matches come after those of all earlier rounds |
| Extraction.CollectMatches | Extraction_test.py:252-262 | the matches of every round, in order |
| Extraction.FirstWord | Extraction_test.py:167 | the first space-separated word of a heading has no space |
| Extraction.ParseCardText | Extraction_test.py:169-170 | the text converts exactly when its first character is a digit; the count is that digit's value, below 10; the name is the text from the third character on |
| Extraction.ParseSingleDigitCount | Extraction_test.py:169-170 | "n name" with n below 10 gives the name and n |
| Extraction.ParseMultiDigitCount | Extraction_test.py:169-170 | "n name" with n of two digits or more converts, but to another count, and the name starts at the third character |
| Extraction.ParseCardExamples | Extraction_test.py:169-170 | "3 Charizard" gives ("Charizard", 3); "10 Pikachu" gives (" Pikachu", 1) |
| Extraction.CardItem | Extraction_test.py:166-171 | a card link gives an item exactly when its text converts; the category is the heading's first word |
| Extraction.CardItems | Extraction_test.py:165-171 | no list exactly when some card fails to convert; otherwise one item per card link, in order |
| Extraction.ExtractDecklist | Extraction_test.py:160-172 | returns exactly the items of the card links of the decklist block |
| Extraction.CardItemsFailurePersists | Extraction_test.py:165-171 | a failing card fails the whole decklist, whatever follows it |
| Extraction.DecklistUrls | Extraction_test.py:230 | one entry per row: the decklist URL exactly when the row links to a decklist |
| Extraction.PlayersAreKeptRows | Extraction_test.py:233-245 | the players are the rows whose page was fetched, in order, each with the decklist its own page converts to, and with its name, placing and country defaults |
| Extraction.KeptTogether | Extraction_test.py:233-236 | each kept row comes with the page at its own position, so a player gets the decklist of its own row |
| Extraction.PlayersFromFails | Extraction_test.py:233-243 | the player list fails exactly when some present decklist page does not convert |
| Extraction.BuildPlayers | Extraction_test.py:233-245 | returns exactly `PlayersFrom` |
| Extraction.PlayersFromFailurePersists | Extraction_test.py:233-245 | a failing decklist fails the whole player list |
| Extraction.LinkedRows | Extraction_test.py:225 | the rows with a decklist link are rows of the table, and each has that link |
| Extraction.KeptRowsAreLinked | Extraction_test.py:230-236 | when each page is present exactly for a linked row, the kept rows are the linked rows |
| Extraction.NoLinkedRows | Extraction_test.py:287-289 | no linked row exactly when no row of the table links to a decklist |
| Crawler.WithDecklist | Extraction_test.py:291 | at most one decklist per player |
| Crawler.DecklistsAtMostCards | Extraction_test.py:304-308 | the decklists counted never exceed the cards counted |
| Crawler.Record | Extraction_test.py:304-308 | one more tournament; its players and matches are added; at most one decklist per player, and no more decklists than cards |
| Crawler.NextPageOnlyBelowBound | Extraction_test.py:328-353 | a next page is requested exactly when the declared page is 0 or below, because the bound is fixed at 1 |
| Crawler.FetchTwice | Extraction_test.py:190-214 | after a fetch the cache holds the page returned; a second fetch through the cache returns it again and changes nothing |
| Crawler.FetchAllPages | Extraction_test.py:231 | the fan-out answers each URL with the cache entry of that URL, and no page for no URL; it keeps every cache entry and every earlier request, and touches neither the artifacts nor the counters |
| Crawler.FetchAllKeys | Extraction_test.py:231 | afterwards the cache holds exactly the old files plus the files of the URLs |
| Crawler.FetchAllNewEntries | Extraction_test.py:231 | every file the fan-out adds holds the site's page of one of its URLs |
| Crawler.FetchAllLog | Extraction_test.py:231 | the site is asked, in list order, for exactly the URLs whose file existed neither before nor through an earlier URL |
| Crawler.FetchAllHits | Extraction_test.py:231 | when every URL is cached, nothing is requested or changed, and each page is the old cache entry |
| Crawler.DecklistPagesFromCache | Extraction_test.py:223-231 | a standings row has a decklist page exactly when it links to one, and that page is the cache entry of its decklist URL |
| Crawler.PairingPagesFromCache | Extraction_test.py:249-252 | the current round's page is the cache entry of the pairings URL and comes last; before it, one page per earlier round its navigation lists, in order, each the cache entry of its URL |
| Crawler.HandleTournamentOutcome | Extraction_test.py:278-289 | skipped exactly when the artifact exists; no players exactly when no standings row links a decklist; aborted exactly when some cached decklist of a linked row does not convert; completed otherwise |
| Crawler.HandleTournamentEffects | Extraction_test.py:278-312 | an existing artifact: nothing changes; any outcome but completed: artifacts and counters unchanged; completed: exactly this artifact is added and counted; every outcome keeps the cache and the earlier requests |
| Crawler.HandleTournamentArtifact | Extraction_test.py:286-303 | a completed artifact has the list row's id and metadata, one player per linked standings row in order, each with the decklist read from that row's cached page, and the matches of the cached pairing pages |
| Crawler.NoDecklistCounted | Extraction_test.py:291 | players whose decklists are all empty count no decklist |
| Crawler.NoBlocksNoFailure | Extraction_test.py:160-164 | a decklist page without the decklist block never fails to convert |
| Crawler.NoBlocksEmptyDecklists | Extraction_test.py:233-243 | in a completed tournament whose linked decklist pages lack the block, there is one player per linked row and every decklist is empty |
| Crawler.EmptyDecklistsStillWritten | Extraction_test.py:286-308 | a new tournament with a linked standings row whose linked pages all lack the decklist block still completes and is written; every decklist is empty, it counts as scraped, and it adds no decklist to the count |
| Crawler.RunListAbortPersists | Extraction_test.py:345-350 | once the loop has aborted, the rest of the list is not handled |
| Crawler.RunListKeeps | Extraction_test.py:345-350 | with steps that keep the state, the loop keeps it, and every new artifact belongs to a listed tournament |
| Crawler.RunListCovers | Extraction_test.py:345-350 | with steps that, unless aborting, leave their tournament done, a loop that does not abort leaves every listed tournament written or without decklists |
| Crawler.RunListNothingNew | Extraction_test.py:278-280 | with steps that skip an existing artifact, a list whose artifacts all exist changes nothing and does not abort |
| Crawler.RunListAborts | Extraction_test.py:345-350 | the loop aborts exactly when some tournament aborts, given the state left by those before it; the final state is that tournament's |
| Crawler.TournamentStepHandles | Extraction_test.py:278-312 | handling one tournament keeps the state, adds at most its own artifact and, unless it aborts, leaves it written or without decklists |
| Crawler.HandleAllKeeps | Extraction_test.py:345-350 | the tournaments of a list page keep the state and write only listed tournaments |
| Crawler.HandleAllCovers | Extraction_test.py:345-350 | when no tournament aborts, every listed tournament is written or has no decklist link |
| Crawler.HandleAllNothingNew | Extraction_test.py:345-350 | when every listed artifact exists, the loop changes nothing |
| Crawler.HandleAllAborts | Extraction_test.py:345-350 | the loop aborts exactly at the first tournament whose handling aborts |
| Crawler.ListedStandingsFromCache | Extraction_test.py:318-343 | the list page is requested first and stored; each listed tournament's standings page is the cache entry of its standings URL; artifacts and counters are unchanged before the loop |
| Crawler.HandleListPageNext | Extraction_test.py:323-354 | a next page exactly when there is pagination, nothing aborted and the declared page is below the bound, and it is the URL of the page after; without pagination only the list page is requested and stored |
| Crawler.HandleListPageKeeps | Extraction_test.py:317-350 | a list page keeps the state, requests the list page first, stores it, and writes only the tournaments it lists |
| Crawler.HandleListPageCovers | Extraction_test.py:333-350 | when the page is not aborted, every listed tournament is written or its cached standings link no decklist |
| Crawler.HandleListPageNothingNew | Extraction_test.py:278-280 | a list page whose tournaments all have their artifact writes nothing, counts nothing and does not abort |
| Crawler.WalkPath | Extraction_test.py:352-354 | with any step that goes on as the list page does, the visited pages start at the first, each follows from the one before, and a walk that neither aborts nor runs out of fuel ends at a page with no next page |
| Crawler.WalkRelates | Extraction_test.py:352-354 | with any step related to its start by a reflexive, transitive relation, so is the whole walk |
| Crawler.CrawlPath | Extraction_test.py:352-360 | the crawl from the first list page visits a path of next-page URLs below the bound, and stops at a page with no next page unless it aborts or runs out of fuel |
| Crawler.CrawlKeeps | Extraction_test.py:352-360 | the crawl keeps the state: no cache file or artifact is lost, requests are only appended, and the counter grows with the artifacts; with fuel, the first list page is requested first |
| Crawler.Scraper.constructor | Extraction_test.py:43-49 | the counters start at zero and nothing has been fetched yet |
| Crawler.Scraper.Fetch | Extraction_test.py:185-216 | the new state and page are those of `FetchW`: no URL, no page and no change; a cache hit, the cached page and no request; otherwise the site's page, logged and stored under the cache name |
| Crawler.Scraper.FetchAll | Extraction_test.py:231 | the loop leaves the state and pages of `FetchAllW`, the fetches one after the other |
| Crawler.Scraper.ExtractPlayers | Extraction_test.py:222-245 | the state after the decklist fan-out and the players built from those pages |
| Crawler.Scraper.ExtractMatches | Extraction_test.py:247-262 | the state after fetching the pairing pages and the matches of those pages, earlier rounds first |
| Crawler.Scraper.HandleTournament | Extraction_test.py:264-312 | the new state and outcome are those of `HandleTournamentW` |
| Crawler.Scraper.HandleAll | Extraction_test.py:345-350 | the loop over the listed tournaments leaves the state of `HandleAllW` and aborts exactly when it does |
| Crawler.Scraper.HandleListPage | Extraction_test.py:317-354 | the new state, next page and abort flag are those of `HandleListPageW` |
| Crawler.Scraper.Crawl | Extraction_test.py:352-360 | the loop over list pages leaves the state, visited pages and abort flag of `CrawlW` from the first list page |
| Loader.RemoveEmojis | transfere_bdd.py:22-23 | the result is ASCII only and no longer than the input |
| Loader.RemoveEmojisPerCharacter | transfere_bdd.py:22-23 | each character is kept exactly when it is ASCII, whatever surrounds it |
| Loader.RemoveEmojisIdentityOnAscii | transfere_bdd.py:22-23 | ASCII text is unchanged, so cleaning twice equals cleaning once |
| Loader.Outcomes | transfere_bdd.py:126 | Win exactly when the first score is higher, Lose exactly when it is lower, Draw on equal scores; the second outcome is the opposite |
| Loader.OutcomesSwap | transfere_bdd.py:126-128 | swapping the scores swaps the two outcomes |
| Loader.FilterAcceptedSound | transfere_bdd.py:119-124 | every loaded match has two results with different players |
| Loader.PairRows | transfere_bdd.py:125-128 | a loaded match gives two rows under one id, the second with player and opponent swapped and the opposite outcome; a skipped match gives none |
| Loader.NumberedRowsShape | transfere_bdd.py:113-129 | two rows per loaded match; the k-th loaded match fills rows 2k and 2k+1 |
| Loader.MatchTableShape | transfere_bdd.py:111-129 | twice as many rows as loaded matches, with match ids 1, 1, 2, 2, ... |
| Loader.RejectedMatchAddsNothing | transfere_bdd.py:119-124 | a skipped match adds no row and takes no id |
| Loader.AppendTournamentMatches | transfere_bdd.py:118-129 | one artifact's matches append their rows, and the counter moves on by one per loaded match |
| Loader.InsertWrkMatches | transfere_bdd.py:111-132 | returns exactly the match table of the artifacts |
| Loader.CardRows | transfere_bdd.py:81-88 | one row per card of a player, in order, with the text fields cleaned |
| Loader.PlayersCardRowsCount | transfere_bdd.py:79-88 | a tournament gives as many card rows as the scraper counted cards |
| Loader.AppendCardRows | transfere_bdd.py:81-88 | appends exactly the player's card rows |
| Loader.InsertWrkDecklists | transfere_bdd.py:73-91 | returns exactly the decklist table of the artifacts |
| Loader.TournamentPlayerRows | transfere_bdd.py:100-106 | one row per player, in order, with the name cleaned |
| Loader.PlayerTableCount | transfere_bdd.py:96-106 | one row per player of every artifact |
| Loader.InsertWrkPlayers | transfere_bdd.py:94-109 | returns exactly the player table of the artifacts |
| Loader.AnonMapping | transfere_bdd.py:149 | the keys are exactly the player ids |
| Loader.AnonMappingLabels | transfere_bdd.py:149 | the i-th distinct id is labelled `anon_{i+1}` |
| Loader.AnonLabelInjective | transfere_bdd.py:149 | different numbers give different labels |
| Loader.AnonMappingInjective | transfere_bdd.py:148-149 | two distinct ids never share a label |
| Loader.CopyToTable | transfere_bdd.py:45-47 | the buffer is exactly the serialised rows |
| Loader.SerializedLines | transfere_bdd.py:46-47 | the text splits at newlines into one tab-joined line per row, then an empty piece |
| Loader.ParseSerialized | transfere_bdd.py:46-47 | reading the text back gives the rows, when no field holds a tab or a newline |
| Loader.MatchTableReadsBack | transfere_bdd.py:45-47 | the match table reads back field for field, numbers and outcome labels included, when its ids hold no tab or newline |
| Loader.DecklistTableReadsBack | transfere_bdd.py:45-47 | the decklist table reads back field for field when its text fields hold no tab or newline |
| Loader.TabInFieldSplitsIt | transfere_bdd.py:47 | a field holding a tab serialises like two fields |
| Cleaning.Unique | nettoyage.py:12 | no value twice, and exactly the non-null values of the column |
| Cleaning.UniquePrefix | nettoyage.py:12 | first-appearance order: the values of any prefix of the column come first |
| Cleaning.BestMatch | nettoyage.py:15 | nothing exactly when there are no keys; otherwise a key whose score is the highest |
| Cleaning.BestMatchFirst | nettoyage.py:15 | on a tie the earliest key wins |
| Cleaning.HarmonizeMap | nettoyage.py:13-19 | the mapping has an entry for exactly the values processed |
| Cleaning.HarmonizeClosed | nettoyage.py:16-19 | every value maps to one of the values processed |
| Cleaning.HarmonizeFixpoint | nettoyage.py:16-19 | every representative is a fixpoint: `mapping[mapping[x]] == mapping[x]` |
| Cleaning.HarmonizePrefix | nettoyage.py:14-19 | once made, an entry is never changed by later values |
| Cleaning.HarmonizeEntry | nettoyage.py:15-19 | a value maps to itself when no earlier key reaches the threshold, and otherwise to the representative of the best-scoring key |
| Cleaning.HarmonizeFirst | nettoyage.py:14-19 | the first value processed maps to itself |
| Cleaning.BuildMapping | nettoyage.py:13-19 | the loop builds exactly `HarmonizeMap` of the distinct values |
| Cleaning.HarmoniserColonne | nettoyage.py:11-21 | the mapping is built from the column's distinct values; nulls stay null; every other value is replaced by its entry |
| Cleaning.MatchAtSound | nettoyage.py:24 | a match at a position reads "(", a non-empty group without '-', "-", one or more digits, ")" |
| Cleaning.MatchAtComplete | nettoyage.py:24 | text of that shape at a position is a match there, with that group |
| Cleaning.SearchFromLeftmost | nettoyage.py:24 | the search returns the group of the leftmost match, and nothing only when no position matches |
| Cleaning.SearchSkipsPlain | nettoyage.py:24 | the search passes over text with no "(" in it, since no match can start there |
| Cleaning.ExtraireSaisonLeftmost | nettoyage.py:23-25 | the set code is the group of the leftmost "(code-digits)"; None exactly when the name has none |
| Cleaning.ExtraireSaisonExample | nettoyage.py:23-25 | "Pikachu ex (A1-96)" gives "A1" |
| Cleaning.ExtraireSaisonCrossesParenthesis | nettoyage.py:24 | the group runs to the first '-', across a ')': "X (promo) (A1-5)" gives "promo) (A1" |
| Cleaning.SortCards | nettoyage.py:28 | the cards, rearranged, in non-decreasing name order |
| Cleaning.SortCardsStable | nettoyage.py:28 | cards with the same name keep their input order |
| Cleaning.SortCardsCanonical | nettoyage.py:27-29 | when no two different cards share a name, every rearrangement of a deck sorts, and so hashes, the same |
| Seasons.ExtractKey | Dash.py:49-54 | a name that parses keys on its letter and its lower-case suffix; any other name gets the fallback key ("Z", 999, name) |
| Seasons.ExtractKeyParts | Dash.py:50-53 | an upper-case letter, a number, lower-case letters and a rest that starts with neither a lower-case letter nor a digit key on (letter, number, lower-case letters) |
| Seasons.KeyCodeOrder | Dash.py:53-55 | comparing the encoded keys is comparing the (letter, number, suffix) tuples |
| Seasons.TrierSaisons | Dash.py:48-55 | a permutation of the seasons, in non-decreasing key order |
| Seasons.TrierSaisonsStable | Dash.py:55 | seasons with the same key keep their input order |
| Seasons.StrictlyBefore | Dash.py:55 | a season with a strictly smaller key comes first |
| Seasons.KeyOfDashedName | Dash.py:50-53 | "A1-x" has the key ("A", 1, "") |
| Seasons.KeyOfSuffixedNames | Dash.py:50-53 | "A1a" and "A1aX" both have the key ("A", 1, "a") |
| Seasons.A2BeforeA10 | Dash.py:48-55 | numbers compare by value: "A2" comes before "A10" |
| Seasons.FallbackAfterParsed | Dash.py:54 | a name that does not parse comes after every parsed season whose letter is below 'Z' |

## Left out

- Network, disk and HTML are not modelled: aiohttp, aiofile, the proxy,
  headers, logging, and BeautifulSoup's tree search. A page is the value the
  lookups would return. The regular expressions that pick the player,
  standings and decklist links from a row are folded into `Row.linkId` and
  `Row.hasDecklistLink`.
- Concurrency: `asyncio.gather` and the semaphore are modelled as fetches
  made one after another, in list order. Two concurrent fetches of the same
  uncached URL are not modelled.
- Crashes other than the card count are not modelled. These are: a missing
  link or attribute (`KeyError`, `AttributeError`), a non-numeric score, or
  a full disk when writing the cache. The model assumes the page holds what
  the code reads.
- Crawler.Scraper.HandleListPage: the declared page number is taken as an
  already-converted integer. A `data-current` value that does not parse is
  not modelled.
- Crawler.Scraper.Crawl: the recursion over list pages becomes a loop, and
  `Crawler.CrawlW` a walk, with a `fuel` bound on the number of pages
  visited. The source has no such bound, so a walk longer than `fuel` pages
  is cut short in the model. With the fixed page bound of 1, the walk
  already ends at the first page that declares a number of 1 or more.
- Crawler.Scraper.ExtractMatches: a pairing page is always present, because
  the pairings URL is never None.
- Character classes: `str.isalnum` and `\d` are ASCII-only here. Python also
  accepts other Unicode letters and digits.
- Extraction.ParseCardText: `int(card.text[0])` also accepts a non-ASCII
  decimal digit, such as the Arabic-Indic three, which converts to 3. The
  model accepts only '0' to '9', so on such a card it gives `None`, and the
  tournament `Aborted`, where the scraper would read a count.
- `insert_wrk_tournaments` (transfere_bdd.py:54-70) is left out. It parses
  dates with `strptime` and player counts with `int`; neither has a
  counterpart in the model.
- SQL is not modelled: truncation, the `COPY` statement itself, and the
  anonymisation `UPDATE`s. Only the rows, the mapping and the copy text are
  modelled. The copy text does not escape tabs or newlines inside a field
  (`Loader.TabInFieldSplitsIt`).
- JSON is not modelled: the artifact is written and read back as the same
  value. So the `.get` defaults of transfere_bdd.py:104-105 and :118-119
  never apply, because the scraper always writes those fields.
- The MD5 digest and `json.dumps` of `calculer_hash_liste` are not modelled.
  Only the sort that feeds them is.
- The fuzzy scorer `fuzz.token_sort_ratio`, with thefuzz's preprocessing, is
  a parameter of the harmonisation. Cleaning.BestMatch assumes the scorer
  never returns a negative score, so `extractOne`'s cutoff of 0 never
  removes a key. `fuzz.token_sort_ratio` always scores between 0 and 100.
- The rest of nettoyage.py (lines 31-182) and the Dash.py dashboard are not
  part of this model: pandas group-bys, merges, winrates and charts.
