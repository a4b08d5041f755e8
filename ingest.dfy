/** The shaping of FPL feed records into database rows: the current gameweek,
    the fixture rows, the player rows, and the per-match stat and price rows
    of the player histories. Executing SQL is not part of the model; each
    operation returns the rows it would write. */
module Ingest {
  import opened Common

  // ---------------------------------------------------------------------------
  // Current gameweek

  /** An entry of the feed's `events` list. */
  datatype Event = Event(id: int, isCurrent: bool, isNext: bool)

  function CurrentFlag(): Event -> bool
  {
    (e: Event) => e.isCurrent
  }

  function NextFlag(): Event -> bool
  {
    (e: Event) => e.isNext
  }

  /** The id of the first event that carries `flag`, scanning from the front. */
  function FirstFlagged(events: seq<Event>, flag: Event -> bool): Option<int>
  {
    if events == [] then None
    else if flag(events[0]) then Some(events[0].id)
    else FirstFlagged(events[1..], flag)
  }

  /** The largest positive event id, 0 when there is none. */
  function MaxPositiveId(events: seq<Event>): (m: int)
    ensures m >= 0
    ensures forall i :: 0 <= i < |events| && events[i].id > 0 ==> events[i].id <= m
    ensures m > 0 ==> exists i :: 0 <= i < |events| && events[i].id == m
    ensures m == 0 <==> forall i :: 0 <= i < |events| ==> events[i].id <= 0
  {
    if events == [] then 0
    else
      var init := events[..|events| - 1];
      var last := events[|events| - 1].id;
      var m := MaxPositiveId(init);
      assert forall i :: 0 <= i < |init| ==> init[i] == events[i];
      if last > m then last else m
  }

  /** `get_current_event_id`: the first current event, else the first next
      event, else the largest positive id, else 0. */
  function CurrentEventId(events: seq<Event>): int
  {
    match FirstFlagged(events, CurrentFlag())
    case Some(id) => id
    case None =>
      match FirstFlagged(events, NextFlag())
      case Some(id) => id
      case None => MaxPositiveId(events)
  }

  /** A scan finds nothing exactly when no event carries the flag. */
  lemma {:induction false} FirstFlaggedNone(events: seq<Event>, flag: Event -> bool)
    ensures FirstFlagged(events, flag) == None <==> forall i :: 0 <= i < |events| ==> !flag(events[i])
  {
    if events != [] {
      FirstFlaggedNone(events[1..], flag);
      assert forall i :: 1 <= i < |events| ==> events[1..][i - 1] == events[i];
    }
  }

  /** What a scan finds is the id of a flagged event with no flagged event
      before it. */
  lemma {:induction false} FirstFlaggedIndex(events: seq<Event>, flag: Event -> bool) returns (i: int)
    requires FirstFlagged(events, flag).Some?
    ensures 0 <= i < |events| && flag(events[i])
    ensures FirstFlagged(events, flag).value == events[i].id
    ensures forall j :: 0 <= j < i ==> !flag(events[j])
  {
    if flag(events[0]) {
      i := 0;
    } else {
      var k := FirstFlaggedIndex(events[1..], flag);
      i := k + 1;
      assert forall j :: 1 <= j < i ==> events[1..][j - 1] == events[j];
    }
  }

  /** The three tiers of `get_current_event_id`. */
  lemma {:induction false} CurrentEventIdTiers(events: seq<Event>) returns (i: int)
    ensures (exists j :: 0 <= j < |events| && events[j].isCurrent) ==>
      0 <= i < |events| && events[i].isCurrent && CurrentEventId(events) == events[i].id &&
      forall j :: 0 <= j < i ==> !events[j].isCurrent
    ensures ((forall j :: 0 <= j < |events| ==> !events[j].isCurrent) &&
             (exists j :: 0 <= j < |events| && events[j].isNext)) ==>
      0 <= i < |events| && events[i].isNext && CurrentEventId(events) == events[i].id &&
      forall j :: 0 <= j < i ==> !events[j].isNext
    ensures (forall j :: 0 <= j < |events| ==> !events[j].isCurrent && !events[j].isNext) ==>
      CurrentEventId(events) == MaxPositiveId(events)
  {
    i := 0;
    FirstFlaggedNone(events, CurrentFlag());
    FirstFlaggedNone(events, NextFlag());
    if FirstFlagged(events, CurrentFlag()).Some? {
      i := FirstFlaggedIndex(events, CurrentFlag());
    } else if FirstFlagged(events, NextFlag()).Some? {
      i := FirstFlaggedIndex(events, NextFlag());
    }
  }

  // ---------------------------------------------------------------------------
  // Fixtures

  /** A fixture of the feed, with its numbers parsed; a missing kickoff is None. */
  datatype FixtureInput = FixtureInput(
    id: int,
    event: int,
    kickoffTime: Option<string>,
    finished: bool,
    teamH: int,
    teamA: int,
    teamHDifficulty: int,
    teamADifficulty: int)

  /** A row of the `fixtures` table. */
  datatype FixtureRecord = FixtureRecord(
    id: int,
    event: int,
    kickoffTime: string,
    finished: int,
    teamH: int,
    teamA: int,
    teamHDifficulty: int,
    teamADifficulty: int,
    updatedAt: string)

  function FixtureRecordOf(f: FixtureInput, now: string): FixtureRecord
  {
    FixtureRecord(f.id, f.event, f.kickoffTime.GetOr(""), if f.finished then 1 else 0,
                  f.teamH, f.teamA, f.teamHDifficulty, f.teamADifficulty, now)
  }

  function HasId(): FixtureInput -> bool
  {
    (f: FixtureInput) => f.id > 0
  }

  /** The rows `upsert_fixtures` writes: one per fixture with a positive id,
      in feed order. */
  function FixtureRows(fixtures: seq<FixtureInput>, now: string): (rows: seq<FixtureRecord>)
    ensures |rows| == Count(fixtures, HasId())
    ensures forall f :: f in fixtures && f.id > 0 ==> FixtureRecordOf(f, now) in rows
    ensures forall r :: r in rows ==> exists f :: f in fixtures && f.id > 0 && r == FixtureRecordOf(f, now)
  {
    if fixtures == [] then []
    else
      var init := fixtures[..|fixtures| - 1];
      var last := fixtures[|fixtures| - 1];
      var rows := FixtureRows(init, now);
      assert fixtures == init + [last];
      rows + if last.id > 0 then [FixtureRecordOf(last, now)] else []
  }

  /** Every fixture row has a positive id, a 1/0 finished flag that says
      whether the fixture finished, and "" for a missing kickoff. */
  lemma {:induction false} FixtureRowsShape(fixtures: seq<FixtureInput>, now: string)
    ensures forall r :: r in FixtureRows(fixtures, now) ==>
      r.id > 0 && (r.finished == 0 || r.finished == 1)
    ensures forall f :: f in fixtures && f.id > 0 ==>
      exists r :: (r in FixtureRows(fixtures, now) && r.id == f.id &&
        (r.finished == 1 <==> f.finished) && (f.kickoffTime.None? ==> r.kickoffTime == ""))
  {
    forall f | f in fixtures && f.id > 0
      ensures exists r :: (r in FixtureRows(fixtures, now) && r.id == f.id &&
        (r.finished == 1 <==> f.finished) && (f.kickoffTime.None? ==> r.kickoffTime == ""))
    {
      assert FixtureRecordOf(f, now) in FixtureRows(fixtures, now);
    }
  }

  // ---------------------------------------------------------------------------
  // Players

  /** An element of the feed's `elements` list, with its numbers parsed and
      missing strings as None. */
  datatype PlayerInput = PlayerInput(
    id: int,
    firstName: Option<string>,
    secondName: Option<string>,
    webName: Option<string>,
    team: int,
    elementType: int,
    status: Option<string>,
    nowCost: real,
    totalPoints: int,
    minutes: int,
    news: Option<string>)

  /** A row of the `players` table. */
  datatype PlayerRecord = PlayerRecord(
    id: int,
    firstName: string,
    secondName: string,
    webName: string,
    team: int,
    position: string,
    status: string,
    nowCost: real,
    totalPoints: int,
    minutes: int,
    news: string,
    updatedAt: string)

  /** `str(value or "")`: the text itself, or "" when it is missing. */
  predicate TextOrEmpty(o: Option<string>, s: string)
  {
    (o.None? ==> s == "") && (o.Some? ==> s == o.value)
  }

  /** The row of one element: the price in millions (the feed gives tenths),
      the position name of its element type or "UNK", and "" for missing text. */
  function PlayerRecordOf(p: PlayerInput, positionNames: map<int, string>, now: string): (r: PlayerRecord)
    ensures r.id == p.id && r.team == p.team
    ensures r.nowCost * 10.0 == p.nowCost
    ensures p.elementType in positionNames ==> r.position == positionNames[p.elementType]
    ensures p.elementType !in positionNames ==> r.position == "UNK"
    ensures TextOrEmpty(p.firstName, r.firstName) && TextOrEmpty(p.secondName, r.secondName)
    ensures TextOrEmpty(p.webName, r.webName) && TextOrEmpty(p.status, r.status)
    ensures TextOrEmpty(p.news, r.news)
    ensures r.totalPoints == p.totalPoints && r.minutes == p.minutes && r.updatedAt == now
  {
    PlayerRecord(
      p.id,
      p.firstName.GetOr(""),
      p.secondName.GetOr(""),
      p.webName.GetOr(""),
      p.team,
      if p.elementType in positionNames then positionNames[p.elementType] else "UNK",
      p.status.GetOr(""),
      p.nowCost / 10.0,
      p.totalPoints,
      p.minutes,
      p.news.GetOr(""),
      now)
  }

  function PlayerRecordFn(positionNames: map<int, string>, now: string): PlayerInput -> PlayerRecord
  {
    p => PlayerRecordOf(p, positionNames, now)
  }

  /** The row loop of `upsert_players`: one row per element, in feed order. */
  method PlayerRows(players: seq<PlayerInput>, positionNames: map<int, string>, now: string)
    returns (rows: seq<PlayerRecord>)
    ensures rows == MapSeq(players, PlayerRecordFn(positionNames, now))
    ensures |rows| == |players|
  {
    var recordOf := PlayerRecordFn(positionNames, now);
    rows := [];
    for i := 0 to |players|
      invariant rows == MapSeq(players[..i], recordOf)
    {
      rows := rows + [recordOf(players[i])];
      MapSeqStep(players, i, recordOf);
    }
    assert players[..|players|] == players;
  }

  /** Each player row is the row of the element at the same position, so the
      stored price times ten gives back the feed's price. */
  lemma {:induction false} PlayerRowsPrices(players: seq<PlayerInput>, positionNames: map<int, string>, now: string)
    ensures forall i :: 0 <= i < |players| ==>
      MapSeq(players, PlayerRecordFn(positionNames, now))[i].id == players[i].id &&
      MapSeq(players, PlayerRecordFn(positionNames, now))[i].nowCost * 10.0 == players[i].nowCost
  {
    MapSeqAt(players, PlayerRecordFn(positionNames, now));
  }

  // ---------------------------------------------------------------------------
  // Per-match stats and prices

  /** A row of a player's match history, with its numbers parsed. */
  datatype HistoryRow = HistoryRow(
    fixture: int,
    round: int,
    kickoffTime: Option<string>,
    opponentTeam: int,
    wasHome: bool,
    minutes: int,
    value: int,
    totalPoints: int)

  /** A row of the `gw_player_stats` table. */
  datatype StatRow = StatRow(
    playerId: int,
    fixtureId: int,
    round: int,
    kickoffTime: string,
    opponentTeam: int,
    wasHome: int,
    minutes: int,
    value: int,
    totalPoints: int,
    updatedAt: string)

  /** A row of the `prices` table. */
  datatype PriceRow = PriceRow(
    playerId: int,
    fixtureId: int,
    round: int,
    kickoffTime: string,
    price: real,
    updatedAt: string)

  function StatOf(playerId: int, h: HistoryRow, now: string): StatRow
  {
    StatRow(playerId, h.fixture, h.round, h.kickoffTime.GetOr(""), h.opponentTeam,
            if h.wasHome then 1 else 0, h.minutes, h.value, h.totalPoints, now)
  }

  /** The stat rows of one player's history: one per match with a positive
      fixture id, in history order. */
  function StatRowsFor(playerId: int, history: seq<HistoryRow>, now: string): (rows: seq<StatRow>)
    ensures |rows| <= |history|
  {
    if history == [] then []
    else
      var last := history[|history| - 1];
      StatRowsFor(playerId, history[..|history| - 1], now) +
      if last.fixture > 0 then [StatOf(playerId, last, now)] else []
  }

  /** A player's stat rows are exactly the rows of the matches with a
      positive fixture id. */
  lemma {:induction false} StatRowsForMembers(playerId: int, history: seq<HistoryRow>, now: string)
    ensures forall h :: h in history && h.fixture > 0 ==> StatOf(playerId, h, now) in StatRowsFor(playerId, history, now)
    ensures forall s :: s in StatRowsFor(playerId, history, now) ==>
      exists h :: h in history && h.fixture > 0 && s == StatOf(playerId, h, now)
  {
    if history != [] {
      var init := history[..|history| - 1];
      StatRowsForMembers(playerId, init, now);
      assert history == init + [history[|history| - 1]];
    }
  }

  /** The stat rows of every player, players in the histories' order. */
  function StatRows(histories: seq<(int, seq<HistoryRow>)>, now: string): seq<StatRow>
  {
    if histories == [] then []
    else
      var last := histories[|histories| - 1];
      StatRows(histories[..|histories| - 1], now) + StatRowsFor(last.0, last.1, now)
  }

  /** The price row of a stat row: the value in tenths becomes a price. */
  function PriceOf(s: StatRow): PriceRow
  {
    PriceRow(s.playerId, s.fixtureId, s.round, s.kickoffTime, (s.value as real) / 10.0, s.updatedAt)
  }

  /** The price rows that go with a list of stat rows: one per stat row with a
      positive value, in the same order. */
  function PricesOfStats(stats: seq<StatRow>): (prices: seq<PriceRow>)
    ensures |prices| <= |stats|
  {
    if stats == [] then []
    else
      var last := stats[|stats| - 1];
      PricesOfStats(stats[..|stats| - 1]) + if last.value > 0 then [PriceOf(last)] else []
  }

  /** The price rows are exactly the prices of the stat rows with a positive
      value. */
  lemma {:induction false} PricesOfStatsMembers(stats: seq<StatRow>)
    ensures forall s :: s in stats && s.value > 0 ==> PriceOf(s) in PricesOfStats(stats)
    ensures forall p :: p in PricesOfStats(stats) ==> exists s :: s in stats && s.value > 0 && p == PriceOf(s)
  {
    if stats != [] {
      var init := stats[..|stats| - 1];
      PricesOfStatsMembers(init);
      assert stats == init + [stats[|stats| - 1]];
    }
  }

  /** `upsert_gw_stats_and_prices` without the SQL: the stat rows and price
      rows of every player's history, and their counts. */
  method GwStatsAndPrices(histories: seq<(int, seq<HistoryRow>)>, now: string)
    returns (statRows: seq<StatRow>, priceRows: seq<PriceRow>, statCount: int, priceCount: int)
    ensures statRows == StatRows(histories, now)
    ensures priceRows == PricesOfStats(statRows)
    ensures statCount == |statRows| && priceCount == |priceRows|
  {
    statRows, priceRows := [], [];
    for k := 0 to |histories|
      invariant statRows == StatRows(histories[..k], now)
      invariant priceRows == PricesOfStats(statRows)
    {
      assert histories[..k + 1][..k] == histories[..k];
      statRows, priceRows := AppendHistory(histories[k].0, histories[k].1, now, statRows, priceRows);
    }
    assert histories[..|histories|] == histories;
    statCount, priceCount := |statRows|, |priceRows|;
  }

  /** The inner loop over one player's history: a match with a fixture id of 0
      or less is skipped; every other match adds a stat row, and a price row
      too when its value is positive. */
  method AppendHistory(playerId: int, history: seq<HistoryRow>, now: string,
                       stats0: seq<StatRow>, prices0: seq<PriceRow>)
    returns (statRows: seq<StatRow>, priceRows: seq<PriceRow>)
    requires prices0 == PricesOfStats(stats0)
    ensures statRows == stats0 + StatRowsFor(playerId, history, now)
    ensures priceRows == PricesOfStats(statRows)
  {
    statRows, priceRows := stats0, prices0;
    for j := 0 to |history|
      invariant statRows == stats0 + StatRowsFor(playerId, history[..j], now)
      invariant priceRows == PricesOfStats(statRows)
    {
      var h := history[j];
      StatRowsForStep(playerId, history, j, now);
      if h.fixture > 0 {
        var stat := StatOf(playerId, h, now);
        PricesOfStatsSnoc(statRows, stat);
        statRows := statRows + [stat];
        if h.value > 0 {
          priceRows := priceRows + [PriceOf(stat)];
        }
      }
    }
    assert history[..|history|] == history;
  }

  lemma {:induction false} StatRowsForStep(playerId: int, history: seq<HistoryRow>, j: int, now: string)
    requires 0 <= j < |history|
    ensures StatRowsFor(playerId, history[..j + 1], now) ==
      StatRowsFor(playerId, history[..j], now) +
      if history[j].fixture > 0 then [StatOf(playerId, history[j], now)] else []
  {
    assert history[..j + 1][..j] == history[..j];
  }

  lemma {:induction false} PricesOfStatsSnoc(stats: seq<StatRow>, s: StatRow)
    ensures PricesOfStats(stats + [s]) == PricesOfStats(stats) + if s.value > 0 then [PriceOf(s)] else []
  {
    assert (stats + [s])[..|stats|] == stats;
  }

  /** Every stat row comes from a match with a positive fixture id of a player
      in the histories, and every such match has its stat row. */
  lemma {:induction false} StatRowsFromHistories(histories: seq<(int, seq<HistoryRow>)>, now: string)
    ensures forall s :: s in StatRows(histories, now) ==> s.fixtureId > 0
    ensures forall k, h :: 0 <= k < |histories| && h in histories[k].1 && h.fixture > 0 ==>
      StatOf(histories[k].0, h, now) in StatRows(histories, now)
  {
    if histories != [] {
      var init := histories[..|histories| - 1];
      var last := histories[|histories| - 1];
      StatRowsFromHistories(init, now);
      StatRowsForMembers(last.0, last.1, now);
      assert forall k :: 0 <= k < |init| ==> init[k] == histories[k];
    }
  }

  /** There are never more price rows than stat rows; every price row has the
      (player, fixture) key of a stat row with a positive value, and its price
      times ten is that value. */
  lemma {:induction false} PricesFollowStats(stats: seq<StatRow>)
    ensures |PricesOfStats(stats)| <= |stats|
    ensures forall p :: p in PricesOfStats(stats) ==>
      exists s :: (s in stats && s.value > 0 && p.playerId == s.playerId && p.fixtureId == s.fixtureId &&
        p.price * 10.0 == s.value as real && p.price > 0.0)
  {
    PricesOfStatsMembers(stats);
    forall p | p in PricesOfStats(stats)
      ensures exists s :: (s in stats && s.value > 0 && p.playerId == s.playerId && p.fixtureId == s.fixtureId &&
        p.price * 10.0 == s.value as real && p.price > 0.0)
    {
      var s :| s in stats && s.value > 0 && p == PriceOf(s);
      assert p.price * 10.0 == s.value as real;
    }
  }
}
