/** The loader (transfere_bdd.py): the rows it builds from the tournament
    artifacts for the working tables of the database, the anonymisation
    mapping of player ids, and the tab-separated text it streams to the
    database's bulk copy. The artifacts are given in the order the output
    directory lists them. */
module Loader {
  import opened Common
  import opened Extraction

  // ---------------------------------------------------------------------
  // Text cleaning

  predicate IsAscii(c: char) {
    c as int < 128
  }

  /** `remove_emojis`: every run of characters outside the ASCII range is
      deleted. */
  function RemoveEmojis(text: string): (r: string)
    ensures AllChars(r, IsAscii) && |r| <= |text|
  {
    KeepChars(text, IsAscii)
  }

  /** A character is kept exactly when it is ASCII, independently of its
      neighbours, so the result is the input's ASCII characters in order. */
  lemma RemoveEmojisPerCharacter(a: string, b: string, c: char)
    ensures RemoveEmojis(a + b) == RemoveEmojis(a) + RemoveEmojis(b)
    ensures RemoveEmojis([c]) == if IsAscii(c) then [c] else []
  {
    KeepCharsAppend(a, b, IsAscii);
    assert [c][1..] == [];
  }

  /** ASCII text is left as it is, hence cleaning twice is cleaning once. */
  lemma RemoveEmojisIdentityOnAscii(text: string)
    ensures AllChars(text, IsAscii) ==> RemoveEmojis(text) == text
    ensures RemoveEmojis(RemoveEmojis(text)) == RemoveEmojis(text)
  {
    if AllChars(text, IsAscii) {
      KeepCharsAll(text, IsAscii);
    }
    KeepCharsAll(RemoveEmojis(text), IsAscii);
  }

  // ---------------------------------------------------------------------
  // Match rows

  datatype WinOrLose = Win | Lose | Draw

  function Opposite(o: WinOrLose): WinOrLose {
    match o
    case Win => Lose
    case Lose => Win
    case Draw => Draw
  }

  /** The outcomes of the two players of a match from their scores. */
  function Outcomes(s1: int, s2: int): (r: (WinOrLose, WinOrLose))
    ensures r.0 == Win <==> s1 > s2
    ensures r.0 == Lose <==> s2 > s1
    ensures r.0 == Draw <==> s1 == s2
    ensures r.1 == Opposite(r.0)
  {
    if s1 > s2 then (Win, Lose) else if s2 > s1 then (Lose, Win) else (Draw, Draw)
  }

  /** Swapping the scores swaps the outcomes. */
  lemma OutcomesSwap(s1: int, s2: int)
    ensures Outcomes(s2, s1) == (Outcomes(s1, s2).1, Outcomes(s1, s2).0)
  {
  }

  /** A row of `wrk_matches`. */
  datatype MatchRow = MatchRow(matchId: nat, tournamentId: string, playerId: string, opponentId: string,
                               score: int, outcome: WinOrLose)

  /** A match is loaded when it has exactly two results for two different
      players. */
  predicate Accepted(m: Match) {
    |m.matchResults| == 2 && m.matchResults[0].playerId != m.matchResults[1].playerId
  }

  /** The matches of a tournament, each with its tournament's id. */
  function TournamentPairs(t: Tournament): (ps: seq<(string, Match)>)
    ensures |ps| == |t.matches| && forall i :: 0 <= i < |ps| ==> ps[i] == (t.id, t.matches[i])
  {
    seq(|t.matches|, i requires 0 <= i < |t.matches| => (t.id, t.matches[i]))
  }

  function AcceptPair(p: (string, Match)): Option<(string, Match)> {
    if Accepted(p.1) then Some(p) else None
  }

  /** The loaded matches of all artifacts, in artifact and match order. */
  function AcceptedPairs(ts: seq<Tournament>): seq<(string, Match)> {
    FilterMap(ConcatMap(ts, TournamentPairs), AcceptPair)
  }

  lemma {:induction false} FilterAcceptedSound(ps: seq<(string, Match)>)
    ensures forall k :: 0 <= k < |FilterMap(ps, AcceptPair)| ==> Accepted(FilterMap(ps, AcceptPair)[k].1)
  {
    if ps != [] {
      FilterAcceptedSound(ps[..|ps| - 1]);
    }
  }

  /** The two rows of a loaded match: the second swaps player and opponent
      and carries the second score and the opposite outcome. */
  function PairRows(matchId: nat, p: (string, Match)): (rows: seq<MatchRow>)
    ensures Accepted(p.1) ==>
      var r := p.1.matchResults;
      var o := Outcomes(r[0].score, r[1].score);
      rows == [MatchRow(matchId, p.0, r[0].playerId, r[1].playerId, r[0].score, o.0),
               MatchRow(matchId, p.0, r[1].playerId, r[0].playerId, r[1].score, Opposite(o.0))]
    ensures !Accepted(p.1) ==> rows == []
  {
    if !Accepted(p.1) then []
    else
      var r := p.1.matchResults;
      var o := Outcomes(r[0].score, r[1].score);
      [MatchRow(matchId, p.0, r[0].playerId, r[1].playerId, r[0].score, o.0),
       MatchRow(matchId, p.0, r[1].playerId, r[0].playerId, r[1].score, o.1)]
  }

  /** The rows of a list of loaded matches, the k-th numbered k + 1. */
  function NumberedRows(ps: seq<(string, Match)>): seq<MatchRow> {
    if ps == [] then [] else NumberedRows(ps[..|ps| - 1]) + PairRows(|ps|, ps[|ps| - 1])
  }

  /** The `wrk_matches` table. */
  function MatchTable(ts: seq<Tournament>): seq<MatchRow> {
    NumberedRows(AcceptedPairs(ts))
  }

  lemma NumberedRowsSnoc(ps: seq<(string, Match)>, p: (string, Match))
    ensures NumberedRows(ps + [p]) == NumberedRows(ps) + PairRows(|ps| + 1, p)
  {
    assert (ps + [p])[..|ps|] == ps;
  }

  /** Two rows per loaded match; the k-th loaded match fills rows 2k and
      2k + 1, both with id k + 1. */
  lemma {:induction false} NumberedRowsShape(ps: seq<(string, Match)>)
    requires forall k :: 0 <= k < |ps| ==> Accepted(ps[k].1)
    ensures |NumberedRows(ps)| == 2 * |ps|
    ensures forall k :: 0 <= k < |ps| ==>
      NumberedRows(ps)[2 * k] == PairRows(k + 1, ps[k])[0] && NumberedRows(ps)[2 * k + 1] == PairRows(k + 1, ps[k])[1]
  {
    if ps != [] {
      var n := |ps| - 1;
      NumberedRowsShape(ps[..n]);
      var prev := NumberedRows(ps[..n]);
      var last := PairRows(n + 1, ps[n]);
      assert |last| == 2;
      assert NumberedRows(ps) == prev + last;
      forall k | 0 <= k < n
        ensures NumberedRows(ps)[2 * k] == PairRows(k + 1, ps[k])[0] && NumberedRows(ps)[2 * k + 1] == PairRows(k + 1, ps[k])[1]
      {
        assert ps[..n][k] == ps[k];
      }
    }
  }

  /** The match table holds twice as many rows as there are loaded
      matches, and its match ids run 1, 1, 2, 2, 3, 3, ... */
  lemma MatchTableShape(ts: seq<Tournament>)
    ensures |MatchTable(ts)| == 2 * |AcceptedPairs(ts)|
    ensures forall k :: 0 <= k < |AcceptedPairs(ts)| ==>
      MatchTable(ts)[2 * k].matchId == k + 1 && MatchTable(ts)[2 * k + 1].matchId == k + 1
  {
    var ps := AcceptedPairs(ts);
    FilterAcceptedSound(ConcatMap(ts, TournamentPairs));
    NumberedRowsShape(ps);
    forall k | 0 <= k < |ps|
      ensures MatchTable(ts)[2 * k].matchId == k + 1 && MatchTable(ts)[2 * k + 1].matchId == k + 1
    {
      assert Accepted(ps[k].1);
    }
  }

  /** A match that is not loaded adds no row and takes no id. */
  lemma RejectedMatchAddsNothing(before: seq<(string, Match)>, p: (string, Match), after: seq<(string, Match)>)
    requires !Accepted(p.1)
    ensures FilterMap(before + [p] + after, AcceptPair) == FilterMap(before + after, AcceptPair)
  {
    FilterMapAppend(before + [p], after, AcceptPair);
    FilterMapSnoc(before, p, AcceptPair);
    FilterMapAppend(before, after, AcceptPair);
  }

  lemma AcceptedPairsSnoc(ts: seq<Tournament>, i: nat)
    requires i < |ts|
    ensures AcceptedPairs(ts[..i + 1]) == AcceptedPairs(ts[..i]) + FilterMap(TournamentPairs(ts[i]), AcceptPair)
  {
    assert ts[..i + 1][..i] == ts[..i];
    FilterMapAppend(ConcatMap(ts[..i], TournamentPairs), TournamentPairs(ts[i]), AcceptPair);
  }

  /** The loaded matches among the first j + 1 matches of an artifact. */
  lemma TournamentPairsStep(t: Tournament, j: nat)
    requires j < |t.matches|
    ensures FilterMap(TournamentPairs(t)[..j + 1], AcceptPair)
         == FilterMap(TournamentPairs(t)[..j], AcceptPair) + (if Accepted(t.matches[j]) then [(t.id, t.matches[j])] else [])
  {
    assert TournamentPairs(t)[..j + 1] == TournamentPairs(t)[..j] + [(t.id, t.matches[j])];
    FilterMapSnoc(TournamentPairs(t)[..j], (t.id, t.matches[j]), AcceptPair);
  }

  /** The two rows a loaded match adds under the next id. */
  lemma AcceptedMatchRows(done: seq<(string, Match)>, tid: string, m: Match)
    requires Accepted(m)
    ensures
      var r := m.matchResults;
      var o := Outcomes(r[0].score, r[1].score);
      NumberedRows(done + [(tid, m)])
      == NumberedRows(done) + [MatchRow(|done| + 1, tid, r[0].playerId, r[1].playerId, r[0].score, o.0)]
                            + [MatchRow(|done| + 1, tid, r[1].playerId, r[0].playerId, r[1].score, o.1)]
  {
    NumberedRowsSnoc(done, (tid, m));
  }

  /** The inner loop of `insert_wrk_matches` over one artifact's matches:
      each loaded match appends its two rows under the running id, which
      then moves on; a skipped match changes nothing. */
  method AppendTournamentMatches(t: Tournament, data: seq<MatchRow>, mid: nat, ghost done: seq<(string, Match)>)
    returns (data': seq<MatchRow>, mid': nat, ghost done': seq<(string, Match)>)
    requires data == NumberedRows(done) && mid == |done| + 1
    ensures done' == done + FilterMap(TournamentPairs(t), AcceptPair)
    ensures data' == NumberedRows(done') && mid' == |done'| + 1
  {
    data', mid', done' := data, mid, done;
    for j := 0 to |t.matches|
      invariant done' == done + FilterMap(TournamentPairs(t)[..j], AcceptPair)
      invariant data' == NumberedRows(done') && mid' == |done'| + 1
    {
      var m := t.matches[j];
      TournamentPairsStep(t, j);
      var results := m.matchResults;
      if |results| != 2 {
        continue;
      }
      var p1, p2 := results[0], results[1];
      if p1.playerId == p2.playerId {
        continue;
      }
      var s1, s2 := p1.score, p2.score;
      var outcomes := Outcomes(s1, s2);
      AcceptedMatchRows(done', t.id, m);
      data' := data' + [MatchRow(mid', t.id, p1.playerId, p2.playerId, s1, outcomes.0)];
      data' := data' + [MatchRow(mid', t.id, p2.playerId, p1.playerId, s2, outcomes.1)];
      done' := done' + [(t.id, m)];
      mid' := mid' + 1;
    }
    assert TournamentPairs(t)[..|t.matches|] == TournamentPairs(t);
  }

  /** `insert_wrk_matches`: the running counter starts at 1 and moves on
      after each loaded match. */
  method InsertWrkMatches(ts: seq<Tournament>) returns (data: seq<MatchRow>)
    ensures data == MatchTable(ts)
  {
    data := [];
    var mid := 1;
    ghost var done: seq<(string, Match)> := [];
    for i := 0 to |ts|
      invariant done == AcceptedPairs(ts[..i])
      invariant data == NumberedRows(done) && mid == |done| + 1
    {
      data, mid, done := AppendTournamentMatches(ts[i], data, mid, done);
      AcceptedPairsSnoc(ts, i);
    }
    assert ts[..|ts|] == ts;
  }

  // ---------------------------------------------------------------------
  // Decklist and player rows

  /** A row of `wrk_decklists`. */
  datatype DecklistRow = DecklistRow(tournamentId: string, playerId: string, cardType: string,
                                     cardName: string, cardUrl: string, cardCount: int)

  /** The rows of one player's cards, in decklist order. */
  function CardRows(tid: string, p: Player): (rows: seq<DecklistRow>)
    ensures |rows| == |p.decklist|
    ensures forall k :: 0 <= k < |rows| ==>
      var c := p.decklist[k];
      rows[k] == DecklistRow(tid, p.id, RemoveEmojis(c.category), RemoveEmojis(c.name), RemoveEmojis(c.url), c.count)
  {
    seq(|p.decklist|, k requires 0 <= k < |p.decklist| =>
      DecklistRow(tid, p.id, RemoveEmojis(p.decklist[k].category), RemoveEmojis(p.decklist[k].name),
                  RemoveEmojis(p.decklist[k].url), p.decklist[k].count))
  }

  /** The card rows of the players of one tournament, player after player. */
  function PlayersCardRows(tid: string, players: seq<Player>): seq<DecklistRow> {
    if players == [] then [] else PlayersCardRows(tid, players[..|players| - 1]) + CardRows(tid, players[|players| - 1])
  }

  function TournamentCardRows(t: Tournament): seq<DecklistRow> {
    PlayersCardRows(t.id, t.players)
  }

  /** The `wrk_decklists` table: artifact, then player, then card order. */
  function DecklistTable(ts: seq<Tournament>): seq<DecklistRow> {
    ConcatMap(ts, TournamentCardRows)
  }

  /** A tournament contributes one row per card, as many as the scraper
      counted for it. */
  lemma {:induction false} PlayersCardRowsCount(tid: string, players: seq<Player>)
    ensures |PlayersCardRows(tid, players)| == CardCount(players)
  {
    if players != [] {
      PlayersCardRowsCount(tid, players[..|players| - 1]);
    }
  }

  /** The innermost loop of `insert_wrk_decklists`: one row per card of a
      player, appended in decklist order. */
  method AppendCardRows(data: seq<DecklistRow>, tid: string, p: Player) returns (out: seq<DecklistRow>)
    ensures out == data + CardRows(tid, p)
  {
    out := data;
    for k := 0 to |p.decklist|
      invariant out == data + CardRows(tid, p)[..k]
    {
      var c := p.decklist[k];
      out := out + [DecklistRow(tid, p.id, RemoveEmojis(c.category), RemoveEmojis(c.name),
                                RemoveEmojis(c.url), c.count)];
      assert CardRows(tid, p)[..k + 1] == CardRows(tid, p)[..k] + [CardRows(tid, p)[k]];
    }
    assert CardRows(tid, p)[..|p.decklist|] == CardRows(tid, p);
  }

  /** `insert_wrk_decklists`: artifact by artifact, player by player. */
  method InsertWrkDecklists(ts: seq<Tournament>) returns (data: seq<DecklistRow>)
    ensures data == DecklistTable(ts)
  {
    data := [];
    for i := 0 to |ts|
      invariant data == DecklistTable(ts[..i])
    {
      var t := ts[i];
      ghost var before := data;
      for j := 0 to |t.players|
        invariant data == before + PlayersCardRows(t.id, t.players[..j])
      {
        data := AppendCardRows(data, t.id, t.players[j]);
        assert t.players[..j + 1][..j] == t.players[..j];
      }
      assert t.players[..|t.players|] == t.players;
      assert ts[..i + 1][..i] == ts[..i];
    }
    assert ts[..|ts|] == ts;
  }

  /** A row of `wrk_players`. */
  datatype PlayerRow = PlayerRow(playerId: string, tournamentId: string, name: string, placing: string, country: string)

  function TournamentPlayerRows(t: Tournament): (rows: seq<PlayerRow>)
    ensures |rows| == |t.players|
    ensures forall k :: 0 <= k < |rows| ==>
      rows[k] == PlayerRow(t.players[k].id, t.id, RemoveEmojis(t.players[k].name), t.players[k].placing, t.players[k].country)
  {
    seq(|t.players|, k requires 0 <= k < |t.players| =>
      PlayerRow(t.players[k].id, t.id, RemoveEmojis(t.players[k].name), t.players[k].placing, t.players[k].country))
  }

  /** The `wrk_players` table: one row per player, artifact by artifact. */
  function PlayerTable(ts: seq<Tournament>): seq<PlayerRow> {
    ConcatMap(ts, TournamentPlayerRows)
  }

  function PlayerCount(ts: seq<Tournament>): nat {
    if ts == [] then 0 else PlayerCount(ts[..|ts| - 1]) + |ts[|ts| - 1].players|
  }

  lemma {:induction false} PlayerTableCount(ts: seq<Tournament>)
    ensures |PlayerTable(ts)| == PlayerCount(ts)
  {
    if ts != [] {
      PlayerTableCount(ts[..|ts| - 1]);
    }
  }

  /** `insert_wrk_players`. */
  method InsertWrkPlayers(ts: seq<Tournament>) returns (data: seq<PlayerRow>)
    ensures data == PlayerTable(ts)
  {
    data := [];
    for i := 0 to |ts|
      invariant data == PlayerTable(ts[..i])
    {
      var t := ts[i];
      ghost var before := data;
      for j := 0 to |t.players|
        invariant data == before + TournamentPlayerRows(t)[..j]
      {
        var p := t.players[j];
        data := data + [PlayerRow(p.id, t.id, RemoveEmojis(p.name), p.placing, p.country)];
        assert TournamentPlayerRows(t)[..j + 1] == TournamentPlayerRows(t)[..j] + [TournamentPlayerRows(t)[j]];
      }
      assert TournamentPlayerRows(t)[..|t.players|] == TournamentPlayerRows(t);
      assert ts[..i + 1][..i] == ts[..i];
    }
    assert ts[..|ts|] == ts;
  }

  // ---------------------------------------------------------------------
  // Anonymisation

  function AnonLabel(n: nat): string {
    "anon_" + NatToString(n)
  }

  /** `{pid: f"anon_{i+1}" for i, pid in enumerate(player_ids)}`. */
  function AnonMapping(ids: seq<string>): (m: map<string, string>)
    ensures m.Keys == set i | 0 <= i < |ids| :: ids[i]
  {
    if ids == [] then map[]
    else AnonMapping(ids[..|ids| - 1])[ids[|ids| - 1] := AnonLabel(|ids|)]
  }

  /** The i-th of the distinct ids gets the label `anon_{i+1}`. */
  lemma {:induction false} AnonMappingLabels(ids: seq<string>)
    requires Distinct(ids)
    ensures forall i :: 0 <= i < |ids| ==> ids[i] in AnonMapping(ids) && AnonMapping(ids)[ids[i]] == AnonLabel(i + 1)
  {
    if ids != [] {
      var n := |ids| - 1;
      AnonMappingLabels(ids[..n]);
      forall i | 0 <= i < n
        ensures AnonMapping(ids)[ids[i]] == AnonLabel(i + 1)
      {
        assert ids[..n][i] == ids[i];
      }
    }
  }

  lemma AnonLabelInjective(m: nat, n: nat)
    requires AnonLabel(m) == AnonLabel(n)
    ensures m == n
  {
    assert AnonLabel(m)[5..] == NatToString(m);
    assert AnonLabel(n)[5..] == NatToString(n);
    NatToStringInjective(m, n);
  }

  /** Distinct ids get distinct labels. */
  lemma AnonMappingInjective(ids: seq<string>, x: string, y: string)
    requires Distinct(ids)
    requires x in AnonMapping(ids) && y in AnonMapping(ids)
    requires AnonMapping(ids)[x] == AnonMapping(ids)[y]
    ensures x == y
  {
    AnonMappingLabels(ids);
    var i :| 0 <= i < |ids| && ids[i] == x;
    var j :| 0 <= j < |ids| && ids[j] == y;
    AnonLabelInjective(i + 1, j + 1);
  }

  // ---------------------------------------------------------------------
  // Bulk-copy text

  function OutcomeLabel(o: WinOrLose): string {
    match o
    case Win => "Win"
    case Lose => "Lose"
    case Draw => "Draw"
  }

  /** `map(str, row)` for each kind of row. */
  function MatchRowFields(r: MatchRow): seq<string> {
    [NatToString(r.matchId), r.tournamentId, r.playerId, r.opponentId, IntToString(r.score), OutcomeLabel(r.outcome)]
  }

  function DecklistRowFields(r: DecklistRow): seq<string> {
    [r.tournamentId, r.playerId, r.cardType, r.cardName, r.cardUrl, IntToString(r.cardCount)]
  }

  /** The text fields of a table, row by row. */
  function TableFields<R>(rows: seq<R>, fields: R -> seq<string>): (t: seq<seq<string>>)
    ensures |t| == |rows| && forall i :: 0 <= i < |rows| ==> t[i] == fields(rows[i])
  {
    seq(|rows|, i requires 0 <= i < |rows| => fields(rows[i]))
  }

  /** One line of the copy: the fields joined by tabs, then a newline. */
  function Line(fields: seq<string>): string {
    Join(fields, '\t') + "\n"
  }

  /** The whole text written to the copy buffer. */
  function Serialized(rows: seq<seq<string>>): string {
    ConcatMap(rows, Line)
  }

  /** The writes of `copy_to_table` into its text buffer. */
  method CopyToTable(rows: seq<seq<string>>) returns (buffer: string)
    ensures buffer == Serialized(rows)
  {
    buffer := "";
    for i := 0 to |rows|
      invariant buffer == Serialized(rows[..i])
    {
      buffer := buffer + Join(rows[i], '\t') + "\n";
      assert rows[..i + 1][..i] == rows[..i];
    }
    assert rows[..|rows|] == rows;
  }

  predicate FieldChar(c: char) {
    c != '\t' && c != '\n'
  }

  predicate NotNewline(c: char) {
    c != '\n'
  }

  /** Rows the text format can carry: at least one field each, and no tab
      or newline inside a field. */
  predicate Clean(rows: seq<seq<string>>) {
    forall i :: 0 <= i < |rows| ==>
      |rows[i]| >= 1 && forall k :: 0 <= k < |rows[i]| ==> AllChars(rows[i][k], FieldChar)
  }

  /** Reading the text back: the lines before the final newline, each cut
      at its tabs. */
  function ParseTable(text: string): seq<seq<string>> {
    var lines := Split(text, '\n');
    seq(|lines| - 1, i requires 0 <= i < |lines| - 1 => Split(lines[i], '\t'))
  }

  lemma {:induction false} SerializedLines(rows: seq<seq<string>>)
    requires Clean(rows)
    ensures Split(Serialized(rows), '\n') == seq(|rows|, i requires 0 <= i < |rows| => Join(rows[i], '\t')) + [""]
  {
    if rows != [] {
      var first := Join(rows[0], '\t');
      assert rows == [rows[0]] + rows[1..];
      ConcatMapAppend([rows[0]], rows[1..], Line);
      assert [rows[0]][..0] == [];
      assert Serialized(rows) == first + "\n" + Serialized(rows[1..]);
      JoinChars(rows[0], '\t', NotNewline);
      assert '\n' !in first;
      SplitPiece(first, Serialized(rows[1..]), '\n');
      SerializedLines(rows[1..]);
    }
  }

  /** With clean rows, reading the copy text back gives the rows. */
  lemma ParseSerialized(rows: seq<seq<string>>)
    requires Clean(rows)
    ensures ParseTable(Serialized(rows)) == rows
  {
    SerializedLines(rows);
    forall i | 0 <= i < |rows|
      ensures ParseTable(Serialized(rows))[i] == rows[i]
    {
      assert forall k :: 0 <= k < |rows[i]| ==> '\t' !in rows[i][k];
      SplitJoin(rows[i], '\t');
    }
  }

  /** A rendered number holds no tab and no newline. */
  lemma NumberFieldClean(i: int)
    ensures AllChars(IntToString(i), FieldChar) && AllChars(NatToString(if i < 0 then -i else i), FieldChar)
  {
  }

  /** Only the text fields can break the copy format: when the ids of the
      match rows hold no tab and no newline, the match table reads back
      field for field, numbers and outcome labels included. */
  lemma MatchTableReadsBack(rows: seq<MatchRow>)
    requires forall i :: 0 <= i < |rows| ==>
      AllChars(rows[i].tournamentId, FieldChar) && AllChars(rows[i].playerId, FieldChar)
      && AllChars(rows[i].opponentId, FieldChar)
    ensures ParseTable(Serialized(TableFields(rows, MatchRowFields))) == TableFields(rows, MatchRowFields)
  {
    var t := TableFields(rows, MatchRowFields);
    forall i | 0 <= i < |rows|
      ensures |t[i]| >= 1 && forall k :: 0 <= k < |t[i]| ==> AllChars(t[i][k], FieldChar)
    {
      NumberFieldClean(rows[i].matchId);
      NumberFieldClean(rows[i].score);
    }
    ParseSerialized(t);
  }

  /** The same for the decklist table: the card count never breaks the
      format. */
  lemma DecklistTableReadsBack(rows: seq<DecklistRow>)
    requires forall i :: 0 <= i < |rows| ==>
      AllChars(rows[i].tournamentId, FieldChar) && AllChars(rows[i].playerId, FieldChar)
      && AllChars(rows[i].cardType, FieldChar) && AllChars(rows[i].cardName, FieldChar)
      && AllChars(rows[i].cardUrl, FieldChar)
    ensures ParseTable(Serialized(TableFields(rows, DecklistRowFields))) == TableFields(rows, DecklistRowFields)
  {
    var t := TableFields(rows, DecklistRowFields);
    forall i | 0 <= i < |rows|
      ensures |t[i]| >= 1 && forall k :: 0 <= k < |t[i]| ==> AllChars(t[i][k], FieldChar)
    {
      NumberFieldClean(rows[i].cardCount);
    }
    ParseSerialized(t);
  }

  /** A tab inside a field is not escaped: it reads back as a field
      boundary. */
  lemma TabInFieldSplitsIt()
    ensures Serialized([["a\tb"]]) == Serialized([["a", "b"]])
  {
    assert [["a\tb"]][..0] == [] && [["a", "b"]][..0] == [];
    assert ["a", "b"][1..] == ["b"];
  }
}
