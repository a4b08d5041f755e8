/** The per-(player, target fixture) assembly of `build_feature_table`: the
    history conversions, the leakage guard, the feature row of one target and
    the sorted output table. */
module FeatureTable {
  import opened Common
  import opened Ordering
  import opened Text
  import opened Signals
  import opened TeamFixtures

  /** A row of the players query (players joined with their team). */
  datatype Player = Player(
    playerId: int,
    playerName: string,
    teamId: int,
    team: string,
    position: string,
    nowCost: real,
    status: string)

  /** A row of `gw_player_stats`; `kickoff` is the parsed `kickoff_time`. */
  datatype HistoryRow = HistoryRow(
    playerId: int,
    fixtureId: int,
    round: Option<int>,
    kickoff: Option<int>,
    minutes: Option<real>,
    totalPoints: Option<real>,
    expectedGoalInvolvements: Option<real>,
    expectedGoals: Option<real>,
    expectedAssists: Option<real>,
    value: Option<real>)

  /** One entry of `player_history`. */
  datatype Match = Match(kickoff: Option<int>, round: int, minutes: real, points: real, xgi: real, price: real)

  /** The conversions applied to the history columns: missing numbers become
      0, the xGI proxy falls back to xG + xA, and the price is `value / 10`. */
  function MatchOf(h: HistoryRow): (m: Match)
    ensures m.kickoff == h.kickoff
    ensures h.round.Some? ==> m.round == h.round.value
    ensures h.round.None? ==> m.round == 0
    ensures h.minutes.Some? ==> m.minutes == h.minutes.value
    ensures h.minutes.None? ==> m.minutes == 0.0
    ensures h.totalPoints.Some? ==> m.points == h.totalPoints.value
    ensures h.totalPoints.None? ==> m.points == 0.0
    ensures h.expectedGoalInvolvements.Some? ==> m.xgi == h.expectedGoalInvolvements.value
    ensures h.expectedGoalInvolvements.None?
            ==> m.xgi == h.expectedGoals.GetOr(0.0) + h.expectedAssists.GetOr(0.0)
    ensures h.value.Some? ==> m.price * 10.0 == h.value.value
    ensures h.value.None? ==> m.price == 0.0
  {
    Match(h.kickoff, h.round.GetOr(0), h.minutes.GetOr(0.0), h.totalPoints.GetOr(0.0),
          h.expectedGoalInvolvements.GetOr(h.expectedGoals.GetOr(0.0) + h.expectedAssists.GetOr(0.0)),
          h.value.GetOr(0.0) / 10.0)
  }

  /** Sort key of a player's history: kickoff (missing last), round, fixture. */
  function HistoryKey(h: HistoryRow): Key
  {
    [Num(if h.kickoff.Some? then 0.0 else 1.0),
     Num(if h.kickoff.Some? then h.kickoff.value as real else 0.0),
     Num(h.round.GetOr(0) as real),
     Num(h.fixtureId as real)]
  }

  function Matches(hs: seq<HistoryRow>): (ms: seq<Match>)
    ensures |ms| == |hs| && forall i :: 0 <= i < |hs| ==> ms[i] == MatchOf(hs[i])
  {
    seq(|hs|, i requires 0 <= i < |hs| => MatchOf(hs[i]))
  }

  /** `player_history`: for every player with history, the converted rows in
      (kickoff, round, fixture) order. */
  function PlayerHistory(history: seq<HistoryRow>): (ph: map<int, seq<Match>>)
    ensures forall p :: p in ph <==> exists i :: 0 <= i < |history| && history[i].playerId == p
  {
    map p | p in PlayerIds(history)
      :: Matches(SortByKey(RowsOfPlayer(history, p), HistoryKey))
  }

  /** The history rows of one player, in their original order. */
  function RowsOfPlayer(history: seq<HistoryRow>, p: int): (rs: seq<HistoryRow>)
    ensures forall h :: h in rs <==> h in history && h.playerId == p
  {
    Filter(history, (h: HistoryRow) => h.playerId == p)
  }

  /** The players that have history rows. */
  function PlayerIds(history: seq<HistoryRow>): set<int>
  {
    set i | 0 <= i < |history| :: history[i].playerId
  }

  /** A player's sorted history holds exactly that player's rows, each once
      per occurrence, in ascending (kickoff, round, fixture) order. */
  lemma {:induction false} PlayerHistorySorted(history: seq<HistoryRow>, p: int)
    ensures var hs := SortByKey(RowsOfPlayer(history, p), HistoryKey);
      && SortedBy(hs, HistoryKey)
      && multiset(hs) == multiset(RowsOfPlayer(history, p))
      && (forall h :: h in hs <==> h in history && h.playerId == p)
  {
    var rs := RowsOfPlayer(history, p);
    var hs := SortByKey(rs, HistoryKey);
    forall h ensures h in hs <==> h in rs {
      assert h in hs <==> h in multiset(hs);
    }
  }

  // ---------------------------------------------------------------------------
  // Leakage guard

  /** `_is_prior_match`: with both kickoffs known, strictly earlier; otherwise
      an earlier round than the target event. */
  predicate IsPriorMatch(matchDt: Option<int>, matchRound: int, targetDt: Option<int>, targetEvent: int)
  {
    if matchDt.Some? && targetDt.Some? then matchDt.value < targetDt.value
    else matchRound < targetEvent
  }

  /** A fixture is never prior to itself. */
  lemma {:induction false} PriorIrreflexive(dt: Option<int>, event: int)
    ensures !IsPriorMatch(dt, event, dt, event)
  {
  }

  /** The history rows that may feed the features of a target. */
  function Prior(ms: seq<Match>, targetDt: Option<int>, targetEvent: int): (r: seq<Match>)
    ensures |r| <= |ms|
    ensures forall m :: m in r ==> m in ms
    ensures forall m :: m in r && m.kickoff.Some? && targetDt.Some? ==> m.kickoff.value < targetDt.value
    ensures forall m :: m in r && (m.kickoff.None? || targetDt.None?) ==> m.round < targetEvent
    ensures forall m :: m in ms && IsPriorMatch(m.kickoff, m.round, targetDt, targetEvent) ==> m in r
  {
    Filter(ms, (m: Match) => IsPriorMatch(m.kickoff, m.round, targetDt, targetEvent))
  }

  /** History after the target never changes what feeds it. */
  lemma {:induction false} PriorIgnoresLater(ms: seq<Match>, later: seq<Match>, targetDt: Option<int>, targetEvent: int)
    requires forall m :: m in later ==> !IsPriorMatch(m.kickoff, m.round, targetDt, targetEvent)
    ensures Prior(ms + later, targetDt, targetEvent) == Prior(ms, targetDt, targetEvent)
  {
    var p := (m: Match) => IsPriorMatch(m.kickoff, m.round, targetDt, targetEvent);
    FilterAppend(ms, later, p);
    FilterNone(later, p);
    assert Filter(ms, p) + [] == Filter(ms, p);
  }

  // ---------------------------------------------------------------------------
  // Per-target features

  function MinutesOf(ms: seq<Match>): (r: seq<real>)
    ensures |r| == |ms| && forall i :: 0 <= i < |ms| ==> r[i] == ms[i].minutes
  {
    seq(|ms|, i requires 0 <= i < |ms| => ms[i].minutes)
  }

  function PointsOf(ms: seq<Match>): (r: seq<real>)
    ensures |r| == |ms| && forall i :: 0 <= i < |ms| ==> r[i] == ms[i].points
  {
    seq(|ms|, i requires 0 <= i < |ms| => ms[i].points)
  }

  function XgiOf(ms: seq<Match>): (r: seq<real>)
    ensures |r| == |ms| && forall i :: 0 <= i < |ms| ==> r[i] == ms[i].xgi
  {
    seq(|ms|, i requires 0 <= i < |ms| => ms[i].xgi)
  }

  /** The positive prices, in order. */
  function PositivePrices(ms: seq<Match>): (r: seq<real>)
    ensures forall x :: x in r ==> x > 0.0
    ensures forall i :: 0 <= i < |ms| && ms[i].price > 0.0 ==> ms[i].price in r
  {
    if ms == [] then []
    else
      var rest := PositivePrices(ms[..|ms| - 1]);
      var last := ms[|ms| - 1];
      assert forall i :: 0 <= i < |ms| - 1 ==> ms[..|ms| - 1][i] == ms[i];
      if last.price > 0.0 then rest + [last.price] else rest
  }

  /** The last prior price above zero, else the player's current price. */
  function LastPrice(prior: seq<Match>, nowCost: real): (r: real)
    ensures (exists i :: 0 <= i < |prior| && prior[i].price > 0.0) ==>
      exists i :: (0 <= i < |prior| && prior[i].price > 0.0 && r == prior[i].price
                   && forall j :: i < j < |prior| ==> prior[j].price <= 0.0)
    ensures (forall i :: 0 <= i < |prior| ==> prior[i].price <= 0.0) ==> r == nowCost
  {
    var ps := PositivePrices(prior);
    LastPositiveIsLastPrice(prior);
    if ps != [] then
      assert ps[|ps| - 1] in ps;
      ps[|ps| - 1]
    else nowCost
  }

  lemma {:induction false} LastPositiveIsLastPrice(ms: seq<Match>)
    ensures PositivePrices(ms) == [] <==> forall i :: 0 <= i < |ms| ==> ms[i].price <= 0.0
    ensures var ps := PositivePrices(ms);
      ps != [] ==> exists i :: (0 <= i < |ms| && ms[i].price == ps[|ps| - 1]
                                && forall j :: i < j < |ms| ==> ms[j].price <= 0.0)
  {
    if ms != [] {
      var ms' := ms[..|ms| - 1];
      assert forall i :: 0 <= i < |ms'| ==> ms'[i] == ms[i];
      LastPositiveIsLastPrice(ms');
      if ms[|ms| - 1].price <= 0.0 && PositivePrices(ms') != [] {
        var i :| 0 <= i < |ms'| && ms'[i].price == PositivePrices(ms')[|PositivePrices(ms')| - 1]
                 && forall j :: i < j < |ms'| ==> ms'[j].price <= 0.0;
        assert forall j :: i < j < |ms| ==> ms[j].price <= 0.0;
      }
    }
  }

  /** `injury_flag`: 0 exactly for the status "a" (any case), else 1. */
  function InjuryFlag(status: string): (f: int)
    ensures f == 0 <==> status == "a" || status == "A"
    ensures f == 0 || f == 1
  {
    if Lower(status) == "a" then 0 else 1
  }

  /** A target row of the players-fixtures merge. */
  datatype TargetRow = TargetRow(player: Player, fixture: TeamFixture)

  /** The maps the assembly looks values up in. */
  datatype Context = Context(
    history: map<int, seq<Match>>,
    dgw: map<(int, int), nat>,
    rest: RestMap,
    horizonMap: map<(int, int), HorizonStat>,
    teamNames: map<int, string>,
    horizon: int)

  /** One output row. */
  datatype FeatureRow = FeatureRow(
    playerId: int,
    playerName: string,
    teamId: int,
    team: string,
    position: string,
    fixtureId: int,
    targetEvent: int,
    kickoffTime: string,
    isHome: int,
    opponentTeamId: int,
    opponentTeam: string,
    opponentDifficulty: int,
    dgwCountInEvent: int,
    isDgw: int,
    restDays: Option<real>,
    horizon: int,
    horizonFixtureCountTeam: int,
    horizonAvgFixtureDifficulty: real,
    horizonHomeCount: int,
    recentPointsAvg3: real,
    recentPointsAvg5: real,
    recentMinutesAvg3: real,
    recentMinutesAvg5: real,
    recentXgiAvg3: real,
    recentXgiAvg5: real,
    minutesVolatility5: real,
    pointsVolatility5: real,
    benchingProbability: real,
    riskScore: real,
    lastPrice: real,
    currentStatus: string)

  /** The prior matches of a target. */
  function PriorOf(t: TargetRow, ctx: Context): seq<Match>
  {
    var hs := if t.player.playerId in ctx.history then ctx.history[t.player.playerId] else [];
    Prior(hs, t.fixture.kickoff, t.fixture.event)
  }

  /** The feature row of one target: the trailing-window signals over the
      prior matches and the team/fixture lookups with their defaults. */
  function FeatureFor(t: TargetRow, ctx: Context, sqrt: real -> real): (r: FeatureRow)
    requires SqrtOk(sqrt)
    ensures r.playerId == t.player.playerId && r.teamId == t.fixture.teamId
    ensures r.fixtureId == t.fixture.fixtureId && r.targetEvent == t.fixture.event
    ensures r.isDgw == 1 <==> r.dgwCountInEvent > 1
    ensures r.isDgw == 0 || r.isDgw == 1
    ensures (t.fixture.teamId, t.fixture.event) !in ctx.dgw ==> r.dgwCountInEvent == 1
    ensures (t.fixture.teamId, t.fixture.event) !in ctx.horizonMap
      ==> r.horizonFixtureCountTeam == 0 && r.horizonHomeCount == 0 && r.horizonAvgFixtureDifficulty == 0.0
    ensures t.fixture.opponentTeamId !in ctx.teamNames ==> r.opponentTeam == "UNK"
    ensures (t.fixture.teamId, t.fixture.fixtureId) !in ctx.rest ==> r.restDays.None?
    ensures r.horizon >= 1
    ensures 0.0 <= r.benchingProbability <= 1.0 && 0.0 <= r.riskScore <= 1.0
    ensures r.minutesVolatility5 >= 0.0 && r.pointsVolatility5 >= 0.0
    ensures PriorOf(t, ctx) == [] ==> r.benchingProbability == 1.0 && r.recentMinutesAvg5 == 0.0
  {
    var p, f := t.player, t.fixture;
    var prior := PriorOf(t, ctx);
    var minutes, points, xgi := MinutesOf(prior), PointsOf(prior), XgiOf(prior);
    var minutesVolatility := RollingStd(minutes, 5, sqrt) / 90.0;
    var benching := BenchingProbability(TakeLast(minutes, 5));
    var injury := InjuryFlag(p.status);
    var dgwCount := if (f.teamId, f.event) in ctx.dgw then ctx.dgw[(f.teamId, f.event)] else 1;
    var h := if (f.teamId, f.event) in ctx.horizonMap then ctx.horizonMap[(f.teamId, f.event)]
             else HorizonStat(0, 0.0, 0);
    var rest := if (f.teamId, f.fixtureId) in ctx.rest then ctx.rest[(f.teamId, f.fixtureId)] else None;
    FeatureRow(
      p.playerId, p.playerName, f.teamId, p.team, p.position, f.fixtureId, f.event,
      f.kickoffTime.GetOr(""), f.isHome, f.opponentTeamId,
      if f.opponentTeamId in ctx.teamNames then ctx.teamNames[f.opponentTeamId] else "UNK",
      f.opponentDifficulty, dgwCount, if dgwCount > 1 then 1 else 0, rest,
      IntMax(1, ctx.horizon), h.fixtureCount, h.avgDifficulty, h.homeCount,
      RollingMean(points, 3), RollingMean(points, 5),
      RollingMean(minutes, 3), RollingMean(minutes, 5),
      RollingMean(xgi, 3), RollingMean(xgi, 5),
      minutesVolatility, RollingStd(points, 5, sqrt),
      benching, RiskScore(benching, minutesVolatility, injury),
      LastPrice(prior, p.nowCost), p.status)
  }
  /** The looked-up columns of a feature row when the lookup finds its key:
      the double-gameweek count, the rest days and the opponent's name. */
  lemma {:induction false} FeatureForLookups(t: TargetRow, ctx: Context, sqrt: real -> real)
    requires SqrtOk(sqrt)
    ensures (t.fixture.teamId, t.fixture.event) in ctx.dgw ==>
      FeatureFor(t, ctx, sqrt).dgwCountInEvent == ctx.dgw[(t.fixture.teamId, t.fixture.event)]
    ensures (t.fixture.teamId, t.fixture.fixtureId) in ctx.rest ==>
      FeatureFor(t, ctx, sqrt).restDays == ctx.rest[(t.fixture.teamId, t.fixture.fixtureId)]
    ensures t.fixture.opponentTeamId in ctx.teamNames ==>
      FeatureFor(t, ctx, sqrt).opponentTeam == ctx.teamNames[t.fixture.opponentTeamId]
  {
  }

  /** A horizon entry found for the target's (team, event) gives the row's
      three horizon columns. */
  lemma {:induction false} FeatureForHorizon(t: TargetRow, ctx: Context, sqrt: real -> real)
    requires SqrtOk(sqrt)
    requires (t.fixture.teamId, t.fixture.event) in ctx.horizonMap
    ensures var r, h := FeatureFor(t, ctx, sqrt), ctx.horizonMap[(t.fixture.teamId, t.fixture.event)];
      && r.horizonFixtureCountTeam == h.fixtureCount
      && r.horizonAvgFixtureDifficulty == h.avgDifficulty
      && r.horizonHomeCount == h.homeCount
  {
  }

  /** The columns a feature row copies from its player and its fixture. */
  lemma {:induction false} FeatureForCopies(t: TargetRow, ctx: Context, sqrt: real -> real)
    requires SqrtOk(sqrt)
    ensures var r, f := FeatureFor(t, ctx, sqrt), t.fixture;
      && r.horizon == IntMax(1, ctx.horizon)
      && r.kickoffTime == f.kickoffTime.GetOr("") && r.isHome == f.isHome
      && r.opponentTeamId == f.opponentTeamId && r.opponentDifficulty == f.opponentDifficulty
      && r.playerName == t.player.playerName && r.team == t.player.team
      && r.position == t.player.position && r.currentStatus == t.player.status
  {
  }

  /** The recent averages of a feature row are the rolling means over the
      last 3 and 5 prior matches of points, minutes and the xGI proxy. */
  lemma {:induction false} FeatureForRecentAverages(t: TargetRow, ctx: Context, sqrt: real -> real)
    requires SqrtOk(sqrt)
    ensures var r, prior := FeatureFor(t, ctx, sqrt), PriorOf(t, ctx);
      && r.recentPointsAvg3 == RollingMean(PointsOf(prior), 3)
      && r.recentPointsAvg5 == RollingMean(PointsOf(prior), 5)
      && r.recentMinutesAvg3 == RollingMean(MinutesOf(prior), 3)
      && r.recentMinutesAvg5 == RollingMean(MinutesOf(prior), 5)
      && r.recentXgiAvg3 == RollingMean(XgiOf(prior), 3)
      && r.recentXgiAvg5 == RollingMean(XgiOf(prior), 5)
  {
  }

  /** The risk columns of a feature row come from the prior matches: the
      volatilities over the last five, the benching probability of the last
      five minutes, the risk score built from them, and the last positive
      prior price falling back to `now_cost`. */
  lemma {:induction false} FeatureForRisk(t: TargetRow, ctx: Context, sqrt: real -> real)
    requires SqrtOk(sqrt)
    ensures var r, prior := FeatureFor(t, ctx, sqrt), PriorOf(t, ctx);
      && r.minutesVolatility5 == RollingStd(MinutesOf(prior), 5, sqrt) / 90.0
      && r.pointsVolatility5 == RollingStd(PointsOf(prior), 5, sqrt)
      && r.benchingProbability == BenchingProbability(TakeLast(MinutesOf(prior), 5))
      && r.riskScore == RiskScore(r.benchingProbability, r.minutesVolatility5, InjuryFlag(t.player.status))
      && r.lastPrice == LastPrice(prior, t.player.nowCost)
  {
  }

  /** Changing a player's history only after the target leaves the target's
      feature row as it was: no information leaks from the future. */
  lemma {:induction false} NoLeakage(t: TargetRow, ctx: Context, later: seq<Match>, sqrt: real -> real)
    requires SqrtOk(sqrt)
    requires t.player.playerId in ctx.history
    requires forall m :: m in later ==> !IsPriorMatch(m.kickoff, m.round, t.fixture.kickoff, t.fixture.event)
    ensures var hs := ctx.history[t.player.playerId];
      FeatureFor(t, ctx.(history := ctx.history[t.player.playerId := hs + later]), sqrt) == FeatureFor(t, ctx, sqrt)
  {
    var hs := ctx.history[t.player.playerId];
    var ctx' := ctx.(history := ctx.history[t.player.playerId := hs + later]);
    PriorIgnoresLater(hs, later, t.fixture.kickoff, t.fixture.event);
    assert PriorOf(t, ctx') == PriorOf(t, ctx);
  }

  // ---------------------------------------------------------------------------
  // Table assembly

  /** `team_name_map`: the distinct (team id, team name) pairs of the players,
      in order of first appearance (`drop_duplicates`). */
  function TeamPairs(ps: seq<Player>): (r: seq<(int, string)>)
    ensures forall x :: x in r <==> exists i :: 0 <= i < |ps| && x == (ps[i].teamId, ps[i].team)
    ensures forall i, j :: 0 <= i < j < |r| ==> r[i] != r[j]
  {
    if ps == [] then []
    else
      var ps' := ps[..|ps| - 1];
      var last := ps[|ps| - 1];
      var r' := TeamPairs(ps');
      assert forall i :: 0 <= i < |ps'| ==> ps'[i] == ps[i];
      if (last.teamId, last.team) in r' then r' else r' + [(last.teamId, last.team)]
  }

  /** The dictionary built from the pairs: a later pair for the same id wins. */
  function NameMap(pairs: seq<(int, string)>): (m: map<int, string>)
    ensures forall id :: id in m <==> exists i :: 0 <= i < |pairs| && pairs[i].0 == id
    ensures forall id :: id in m ==> (id, m[id]) in pairs
  {
    if pairs == [] then map[]
    else
      var pairs' := pairs[..|pairs| - 1];
      var last := pairs[|pairs| - 1];
      assert forall i :: 0 <= i < |pairs'| ==> pairs'[i] == pairs[i];
      NameMap(pairs')[last.0 := last.1]
  }

  /** The ids of the name map are exactly the players' team ids. */
  lemma {:induction false} TeamNameMapKeys(ps: seq<Player>)
    ensures forall id :: id in NameMap(TeamPairs(ps)) <==> exists i :: 0 <= i < |ps| && ps[i].teamId == id
  {
    var pairs := TeamPairs(ps);
    var m := NameMap(pairs);
    forall id | exists i :: 0 <= i < |ps| && ps[i].teamId == id
      ensures id in m
    {
      var i :| 0 <= i < |ps| && ps[i].teamId == id;
      assert (ps[i].teamId, ps[i].team) in pairs;
      var k :| 0 <= k < |pairs| && pairs[k] == (ps[i].teamId, ps[i].team);
    }
    forall id | id in m
      ensures exists i :: 0 <= i < |ps| && ps[i].teamId == id
    {
      var k :| 0 <= k < |pairs| && pairs[k].0 == id;
      assert pairs[k] in pairs;
    }
  }

  /** Each id of the name map carries the name of a player of that team. */
  lemma {:induction false} TeamNameMapValues(ps: seq<Player>)
    ensures forall id :: id in NameMap(TeamPairs(ps)) ==>
      exists i :: 0 <= i < |ps| && ps[i].teamId == id && ps[i].team == NameMap(TeamPairs(ps))[id]
  {
    var pairs := TeamPairs(ps);
    var m := NameMap(pairs);
    forall id | id in m
      ensures exists i :: 0 <= i < |ps| && ps[i].teamId == id && ps[i].team == m[id]
    {
      assert (id, m[id]) in pairs;
    }
  }

  /** Every player's team id maps to the name of one of that team's players. */
  function TeamNameMap(ps: seq<Player>): (m: map<int, string>)
    ensures forall id :: id in m <==> exists i :: 0 <= i < |ps| && ps[i].teamId == id
    ensures forall id :: id in m ==> exists i :: 0 <= i < |ps| && ps[i].teamId == id && ps[i].team == m[id]
  {
    TeamNameMapKeys(ps);
    TeamNameMapValues(ps);
    NameMap(TeamPairs(ps))
  }

  /** The target fixtures: unfinished ones unless finished are included, and
      only those with a positive event. */
  function TargetFixtures(rows: seq<TeamFixture>, includeFinished: bool): (r: seq<TeamFixture>)
    ensures forall f :: f in r <==> f in rows && (includeFinished || f.finished == 0) && f.event > 0
  {
    Filter(rows, (f: TeamFixture) => (includeFinished || f.finished == 0) && f.event > 0)
  }

  /** The target rows of one player: the player's team's target fixtures. */
  function PlayerTargets(p: Player, targets: seq<TeamFixture>): (r: seq<TargetRow>)
    ensures forall x :: x in r <==> x.player == p && x.fixture in targets && x.fixture.teamId == p.teamId
  {
    var fs := Filter(targets, (f: TeamFixture) => f.teamId == p.teamId);
    var r := seq(|fs|, i requires 0 <= i < |fs| => TargetRow(p, fs[i]));
    assert forall x :: x in r ==> x.fixture in fs;
    forall i | 0 <= i < |fs| ensures TargetRow(p, fs[i]) in r {
      assert r[i] == TargetRow(p, fs[i]);
    }
    r
  }

  /** `players.merge(targets, on="team_id", how="inner")`: for each player in
      order, that team's target fixtures in order. */
  function Join(players: seq<Player>, targets: seq<TeamFixture>): (r: seq<TargetRow>)
    ensures forall x :: x in r <==> x.player in players && x.fixture in targets && x.fixture.teamId == x.player.teamId
  {
    if players == [] then []
    else
      var players' := players[..|players| - 1];
      assert players == players' + [players[|players| - 1]];
      Join(players', targets) + PlayerTargets(players[|players| - 1], targets)
  }

  /** The output sort key (target_event, fixture_id, team_id, player_id). */
  function OutputKey(r: FeatureRow): Key
  {
    [Num(r.targetEvent as real), Num(r.fixtureId as real), Num(r.teamId as real), Num(r.playerId as real)]
  }

  datatype BuildError = MissingSourceData | NoTargetFixtures

  /** The table's two counts (targets and rows) and its rows. */
  datatype Table = Table(targetCount: int, rows: seq<FeatureRow>)

  /** The lookup maps of `build_feature_table`. */
  function ContextOf(players: seq<Player>, fixtures: seq<Fixture>, history: seq<HistoryRow>, horizon: int): Context
  {
    var teamRows := BuildTeamFixtureRows(fixtures);
    Context(PlayerHistory(history), DgwCounts(teamRows), RestDaysSpec(teamRows),
            HorizonSpec(teamRows, IntMax(1, horizon)), TeamNameMap(players), horizon)
  }

  /** The merged target rows. */
  function TargetRows(players: seq<Player>, fixtures: seq<Fixture>, includeFinished: bool): seq<TargetRow>
  {
    Join(players, TargetFixtures(BuildTeamFixtureRows(fixtures), includeFinished))
  }

  /** The feature row of each target, as one function value. */
  function RowOf(ctx: Context, sqrt: real -> real): TargetRow -> FeatureRow
    requires SqrtOk(sqrt)
  {
    t => FeatureFor(t, ctx, sqrt)
  }

  /** The feature rows before the final sort, one per target row. */
  function FeatureRows(targets: seq<TargetRow>, ctx: Context, sqrt: real -> real): seq<FeatureRow>
    requires SqrtOk(sqrt)
  {
    MapSeq(targets, RowOf(ctx, sqrt))
  }

  /** A merged target row pairs a player with a target fixture of the
      player's team. */
  lemma {:induction false} TargetRowFacts(players: seq<Player>, fixtures: seq<Fixture>, includeFinished: bool, t: TargetRow)
    requires t in TargetRows(players, fixtures, includeFinished)
    ensures t.player in players && t.player.teamId == t.fixture.teamId
    ensures t.fixture in BuildTeamFixtureRows(fixtures) && t.fixture.event > 0
    ensures includeFinished || t.fixture.finished == 0
  {
  }

  /** `build_feature_table` after the database reads: the error cases, then
      one feature row per merged target row, sorted by (target_event,
      fixture_id, team_id, player_id). */
  method BuildFeatureTable(players: seq<Player>, fixtures: seq<Fixture>, history: seq<HistoryRow>,
                           horizon: int, includeFinished: bool, sqrt: real -> real)
    returns (r: Result<Table, BuildError>)
    requires SqrtOk(sqrt)
    ensures players == [] || fixtures == [] ==> r == Err(MissingSourceData)
    ensures players != [] && fixtures != [] ==>
      (r == Err(NoTargetFixtures) <==> TargetFixtures(BuildTeamFixtureRows(fixtures), includeFinished) == [])
    ensures r.Ok? ==>
      var targets := TargetRows(players, fixtures, includeFinished);
      && r.value.targetCount == |targets| == |r.value.rows|
      && SortedBy(r.value.rows, OutputKey)
      && multiset(r.value.rows)
         == multiset(FeatureRows(targets, ContextOf(players, fixtures, history, horizon), sqrt))
  {
    if players == [] || fixtures == [] {
      return Err(MissingSourceData);
    }
    var teamFixtures := BuildTeamFixtureRows(fixtures);
    var teamNameMap := TeamNameMap(players);
    var dgwCountMap := DgwCounts(teamFixtures);
    var restDaysMap := BuildRestDaysMap(teamFixtures);
    var horizonMap := BuildHorizonMap(teamFixtures, IntMax(1, horizon));
    var targetFixtures := TargetFixtures(teamFixtures, includeFinished);
    if targetFixtures == [] {
      return Err(NoTargetFixtures);
    }
    var targetRows := Join(players, targetFixtures);
    var ctx := Context(PlayerHistory(history), dgwCountMap, restDaysMap, horizonMap, teamNameMap, horizon);
    assert ctx == ContextOf(players, fixtures, history, horizon);
    var rowOf := RowOf(ctx, sqrt);
    var featureRows: seq<FeatureRow> := [];
    for i := 0 to |targetRows|
      invariant featureRows == MapSeq(targetRows[..i], rowOf)
    {
      featureRows := featureRows + [rowOf(targetRows[i])];
      MapSeqStep(targetRows, i, rowOf);
    }
    assert targetRows[..|targetRows|] == targetRows;
    var sorted := SortByKey(featureRows, OutputKey);
    return Ok(Table(|targetRows|, sorted));
  }

  /** When no two target rows share (event, fixture, team, player), the sorted
      table is the only sorted arrangement of its rows. */
  lemma {:induction false} OutputOrderIsDetermined(rows: seq<FeatureRow>, other: seq<FeatureRow>)
    requires SortedBy(rows, OutputKey) && SortedBy(other, OutputKey)
    requires multiset(rows) == multiset(other)
    requires forall x, y :: x in rows && y in rows && OutputKey(x) == OutputKey(y) ==> x == y
    ensures rows == other
  {
    SortedPermutationUnique(rows, other, OutputKey);
  }
}
