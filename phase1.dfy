/** The computations of the phase-1 player table: per-90 rates, the average
    of recent minutes, each team's next opponent, and the player rows with
    their Understat override counters and their sort order. */
module Phase1 {
  import opened Common
  import opened Text
  import opened Ordering
  import Ranking

  // ---------------------------------------------------------------------------
  // Rates and recent minutes

  /** `per90`: a count scaled to a 90-minute rate, 0 for players below the
      minutes threshold or without minutes. */
  function Per90(value: real, minutes: real, minMinutes: real): (r: real)
    ensures minutes <= 0.0 || minutes < minMinutes ==> r == 0.0
    ensures minutes > 0.0 && minutes >= minMinutes ==> r * minutes == 90.0 * value
    ensures value >= 0.0 ==> r >= 0.0
  {
    if minutes <= 0.0 || minutes < minMinutes then 0.0
    else
      var q := value / minutes;
      assert q * minutes == value;
      q * 90.0
  }

  /** The minutes of the history rows that carry a value, in order (the rows
      whose `minutes` is not None). */
  function PresentMinutes(history: seq<Option<real>>): (ms: seq<real>)
    ensures |ms| <= |history|
  {
    if history == [] then []
    else
      var ms := PresentMinutes(history[..|history| - 1]);
      match history[|history| - 1]
      case Some(m) => ms + [m]
      case None => ms
  }

  lemma {:induction false} PresentMinutesAppend(a: seq<Option<real>>, b: seq<Option<real>>)
    ensures PresentMinutes(a + b) == PresentMinutes(a) + PresentMinutes(b)
    decreases |b|
  {
    if b == [] {
      assert a + b == a;
    } else {
      var b' := b[..|b| - 1];
      assert (a + b)[..|a + b| - 1] == a + b';
      assert (a + b)[|a + b| - 1] == b[|b| - 1];
      PresentMinutesAppend(a, b');
    }
  }

  /** Every present value is the value of some row. */
  lemma {:induction false} PresentMinutesFrom(history: seq<Option<real>>)
    ensures forall x :: x in PresentMinutes(history) ==> Some(x) in history
  {
    if history != [] {
      var h' := history[..|history| - 1];
      PresentMinutesFrom(h');
      assert forall o :: o in h' ==> o in history;
    }
  }

  /** `average_last_n_minutes`: the mean of the last `lastN` present minutes. */
  function AverageLastNMinutes(history: seq<Option<real>>, lastN: int): (r: real)
    ensures lastN <= 0 || PresentMinutes(history) == [] ==> r == 0.0
    ensures lastN > 0 && PresentMinutes(history) != [] ==>
      r * (IntMin(lastN, |PresentMinutes(history)|) as real) == Sum(TakeLast(PresentMinutes(history), lastN))
  {
    if lastN <= 0 then 0.0
    else
      var recent := TakeLast(PresentMinutes(history), lastN);
      if recent == [] then 0.0
      else
        MeanTimesLength(recent);
        assert |recent| == IntMin(lastN, |PresentMinutes(history)|);
        Mean(recent)
  }

  /** The average lies within any range [lo, hi] around 0 that holds every
      present minutes value. */
  lemma {:induction false} AverageLastNBounds(history: seq<Option<real>>, lastN: int, lo: real, hi: real)
    requires lo <= 0.0 <= hi
    requires forall i :: 0 <= i < |history| && history[i].Some? ==> lo <= history[i].value <= hi
    ensures lo <= AverageLastNMinutes(history, lastN) <= hi
  {
    var ms := PresentMinutes(history);
    if lastN > 0 && ms != [] {
      PresentMinutesFrom(history);
      var recent := TakeLast(ms, lastN);
      forall i | 0 <= i < |recent| ensures lo <= recent[i] <= hi {
        assert recent[i] == ms[|ms| - |recent| + i];
        assert Some(recent[i]) in history;
      }
      MeanBounds(recent, lo, hi);
    }
  }

  /** Rows older than the last `lastN` present values, and rows without
      minutes, do not affect the average. */
  lemma {:induction false} AverageLastNIgnoresOlder(older: seq<Option<real>>, history: seq<Option<real>>, lastN: int)
    requires |PresentMinutes(history)| >= lastN
    ensures AverageLastNMinutes(older + history, lastN) == AverageLastNMinutes(history, lastN)
    ensures AverageLastNMinutes(history + [None], lastN) == AverageLastNMinutes(history, lastN)
  {
    PresentMinutesAppend(older, history);
    PresentMinutesAppend(history, [None]);
    assert PresentMinutes([None]) == [];
    assert PresentMinutes(history + [None]) == PresentMinutes(history) + [];
    if lastN > 0 {
      TakeLastAppend(PresentMinutes(older), PresentMinutes(history), lastN);
    }
  }

  /** The last n elements of a + b are those of b when b has at least n. */
  lemma {:induction false} TakeLastAppend(a: seq<real>, b: seq<real>, n: nat)
    requires |b| >= n
    ensures TakeLast(a + b, n) == TakeLast(b, n)
  {
    assert (a + b)[|a + b| - n..] == b[|b| - n..];
  }

  // ---------------------------------------------------------------------------
  // Next opponent of each team

  /** A fixture of the FPL fixtures feed; `kickoff` is the parsed
      `kickoff_time` (None when it is missing or unparsable). */
  datatype UpcomingFixture = UpcomingFixture(
    finished: bool,
    kickoff: Option<int>,
    event: Option<int>,
    teamH: Option<int>,
    teamA: Option<int>)

  /** A fixture still to be played: not finished and not kicked off before
      `now`; a fixture without a valid kickoff is kept. */
  predicate IsUpcoming(f: UpcomingFixture, now: int)
  {
    !f.finished && !(f.kickoff.Some? && f.kickoff.value < now)
  }

  predicate Involves(f: UpcomingFixture, team: int)
  {
    f.teamH == Some(team) || f.teamA == Some(team)
  }

  /** `upcoming_by_team.setdefault(team_id, []).append(fixture)` for a team
      id that may be missing. */
  function AddFixture(m: map<int, seq<UpcomingFixture>>, team: Option<int>, f: UpcomingFixture)
    : map<int, seq<UpcomingFixture>>
  {
    match team
    case None => m
    case Some(t) => m[t := (if t in m then m[t] else []) + [f]]
  }

  /** The upcoming fixtures of each team, in feed order. */
  function UpcomingByTeam(fs: seq<UpcomingFixture>, now: int): (m: map<int, seq<UpcomingFixture>>)
    ensures forall t :: t in m ==> m[t] != []
  {
    if fs == [] then map[]
    else
      var m := UpcomingByTeam(fs[..|fs| - 1], now);
      var f := fs[|fs| - 1];
      if IsUpcoming(f, now) then AddFixture(AddFixture(m, f.teamH, f), f.teamA, f) else m
  }

  /** The list of a team holds exactly the team's upcoming fixtures (and
      every team with an upcoming fixture has a list). */
  lemma {:induction false} UpcomingByTeamMembers(fs: seq<UpcomingFixture>, now: int)
    ensures forall t, f :: f in fs && IsUpcoming(f, now) && Involves(f, t) ==>
      t in UpcomingByTeam(fs, now) && f in UpcomingByTeam(fs, now)[t]
    ensures forall t, f :: t in UpcomingByTeam(fs, now) && f in UpcomingByTeam(fs, now)[t] ==>
      f in fs && IsUpcoming(f, now) && Involves(f, t)
  {
    if fs != [] {
      var fs' := fs[..|fs| - 1];
      var last := fs[|fs| - 1];
      UpcomingByTeamMembers(fs', now);
      InInit(fs);
      var m := UpcomingByTeam(fs', now);
      if IsUpcoming(last, now) {
        AddFixtureMembers(m, last.teamH, last);
        AddFixtureMembers(AddFixture(m, last.teamH, last), last.teamA, last);
      }
    }
  }

  /** Adding a fixture for a team id extends that team's list by it. */
  lemma {:induction false} AddFixtureMembers(m: map<int, seq<UpcomingFixture>>, team: Option<int>, f: UpcomingFixture)
    ensures forall t :: t in AddFixture(m, team, f) <==> t in m || team == Some(t)
    ensures forall t, g :: t in AddFixture(m, team, f) ==>
      (g in AddFixture(m, team, f)[t] <==> (t in m && g in m[t]) || (team == Some(t) && g == f))
  {
  }

  /** `fixture.get("event") or 999`: a missing or zero event sorts last. */
  function EventOr999(event: Option<int>): int
  {
    match event
    case Some(e) => if e == 0 then 999 else e
    case None => 999
  }

  /** The sort key (kickoff, event) of a fixture; a fixture without a valid
      kickoff sorts after every fixture with one, as `datetime.max` does. */
  function FixtureKey(f: UpcomingFixture): Key
  {
    match f.kickoff
    case Some(k) => [Num(0.0), Num(k as real), Num(EventOr999(f.event) as real)]
    case None => [Num(1.0), Num(0.0), Num(EventOr999(f.event) as real)]
  }

  /** The next-opponent label `"<opponent> (H)"` or `"<opponent> (A)"` of a
      team in a fixture, with "UNKNOWN" for an opponent without a name. */
  function Label(f: UpcomingFixture, team: int, teamNames: map<int, string>): string
  {
    var isHome := f.teamH == Some(team);
    var opponent := if isHome then f.teamA else f.teamH;
    var name := if opponent.Some? && opponent.value in teamNames then teamNames[opponent.value] else "UNKNOWN";
    name + [' ', '(', if isHome then 'H' else 'A', ')']
  }

  /** The first fixture of a team's list with the smallest (kickoff, event):
      what a stable sort by that key puts in front. */
  function NextFixture(fixtures: seq<UpcomingFixture>): UpcomingFixture
    requires fixtures != []
  {
    FirstMin(fixtures, FixtureKey)
  }

  /** The label of each team's first fixture. */
  function TeamLabels(upcoming: map<int, seq<UpcomingFixture>>, teamNames: map<int, string>): map<int, string>
    requires forall t :: t in upcoming ==> upcoming[t] != []
  {
    map t | t in upcoming :: Label(NextFixture(upcoming[t]), t, teamNames)
  }

  /** The dictionary `get_next_fixture_by_team` returns. */
  function NextOpponents(fs: seq<UpcomingFixture>, teamNames: map<int, string>, now: int): map<int, string>
  {
    TeamLabels(UpcomingByTeam(fs, now), teamNames)
  }

  /** `get_next_fixture_by_team`, with the clock reading passed in as `now`. */
  method GetNextFixtureByTeam(fixtures: seq<UpcomingFixture>, teamNames: map<int, string>, now: int)
    returns (next: map<int, string>)
    ensures next == NextOpponents(fixtures, teamNames, now)
  {
    var upcoming, teams := CollectUpcoming(fixtures, now);
    next := LabelTeams(upcoming, teams, teamNames);
  }

  /** The second loop of `get_next_fixture_by_team`: sort each team's list
      and label its first fixture, visiting the teams in dictionary order. */
  method LabelTeams(upcoming: map<int, seq<UpcomingFixture>>, teams: seq<int>, teamNames: map<int, string>)
    returns (next: map<int, string>)
    requires forall t :: t in upcoming ==> upcoming[t] != []
    requires forall t :: t in teams <==> t in upcoming
    ensures next == TeamLabels(upcoming, teamNames)
  {
    ghost var spec := TeamLabels(upcoming, teamNames);
    assert spec.Keys == upcoming.Keys;
    next := map[];
    for i := 0 to |teams|
      invariant forall t :: t in next <==> t in teams[..i]
      invariant forall t :: t in next ==> next[t] == spec[t]
    {
      var t := teams[i];
      var teamLabel := LabelTeam(upcoming[t], t, teamNames);
      assert teamLabel == spec[t];
      next := next[t := teamLabel];
      InInit(teams[..i + 1]);
      assert teams[..i + 1][..i] == teams[..i];
    }
    assert teams[..|teams|] == teams;
    assert next.Keys == spec.Keys by {
      forall t ensures t in next <==> t in spec {
      }
    }
    SameMap(next, spec);
  }

  /** Two maps with the same keys and the same value at each key are equal. */
  lemma {:induction false} SameMap<K, V>(m: map<K, V>, n: map<K, V>)
    requires m.Keys == n.Keys
    requires forall k :: k in m ==> m[k] == n[k]
    ensures m == n
  {
  }

  /** The body of the second loop: sort the team's fixtures by (kickoff,
      event) and label the first. */
  method LabelTeam(fixtures: seq<UpcomingFixture>, team: int, teamNames: map<int, string>) returns (teamLabel: string)
    requires fixtures != []
    ensures teamLabel == Label(NextFixture(fixtures), team, teamNames)
  {
    var sorted := SortByKey(fixtures, FixtureKey);
    var fixture := sorted[0];
    SortHeadIsFirstMin(fixtures, FixtureKey);
    var isHome := fixture.teamH == Some(team);
    var opponent := if isHome then fixture.teamA else fixture.teamH;
    var name := if opponent.Some? && opponent.value in teamNames then teamNames[opponent.value] else "UNKNOWN";
    teamLabel := name + [' ', '(', if isHome then 'H' else 'A', ')'];
  }

  /** The first loop of `get_next_fixture_by_team`: the upcoming fixtures of
      each team, and the teams in the order the dictionary received them. */
  method CollectUpcoming(fixtures: seq<UpcomingFixture>, now: int)
    returns (upcoming: map<int, seq<UpcomingFixture>>, teams: seq<int>)
    ensures upcoming == UpcomingByTeam(fixtures, now)
    ensures forall t :: t in teams <==> t in upcoming
  {
    upcoming := map[];
    teams := [];
    for i := 0 to |fixtures|
      invariant upcoming == UpcomingByTeam(fixtures[..i], now)
      invariant forall t :: t in teams <==> t in upcoming
    {
      var f := fixtures[i];
      assert fixtures[..i + 1][..i] == fixtures[..i];
      if f.finished {
        continue;
      }
      if f.kickoff.Some? && f.kickoff.value < now {
        continue;
      }
      if f.teamH.Some? {
        var t := f.teamH.value;
        if t !in upcoming {
          teams := teams + [t];
        }
        upcoming := upcoming[t := (if t in upcoming then upcoming[t] else []) + [f]];
      }
      if f.teamA.Some? {
        var t := f.teamA.value;
        if t !in upcoming {
          teams := teams + [t];
        }
        upcoming := upcoming[t := (if t in upcoming then upcoming[t] else []) + [f]];
      }
    }
    assert fixtures[..|fixtures|] == fixtures;
  }

  /** A team gets a label exactly when it plays an upcoming fixture. */
  lemma {:induction false} NextOpponentsKeys(fs: seq<UpcomingFixture>, teamNames: map<int, string>, now: int, t: int)
    ensures t in NextOpponents(fs, teamNames, now) <==> exists f :: f in fs && IsUpcoming(f, now) && Involves(f, t)
  {
    UpcomingByTeamMembers(fs, now);
    var up := UpcomingByTeam(fs, now);
    assert NextOpponents(fs, teamNames, now).Keys == up.Keys;
    if t in up {
      assert up[t] != [];
      var f := up[t][0];
      assert f in up[t];
      assert f in fs && IsUpcoming(f, now) && Involves(f, t);
    }
  }

  /** The labelled fixture is an upcoming fixture of the team, and no upcoming
      fixture of the team comes before it by (kickoff, event). */
  lemma {:induction false} NextFixtureIsEarliest(fs: seq<UpcomingFixture>, now: int, t: int)
    requires t in UpcomingByTeam(fs, now)
    ensures NextFixture(UpcomingByTeam(fs, now)[t]) in fs
    ensures IsUpcoming(NextFixture(UpcomingByTeam(fs, now)[t]), now)
    ensures Involves(NextFixture(UpcomingByTeam(fs, now)[t]), t)
    ensures forall g :: g in fs && IsUpcoming(g, now) && Involves(g, t) ==>
      KeyLeq(FixtureKey(NextFixture(UpcomingByTeam(fs, now)[t])), FixtureKey(g))
  {
    UpcomingByTeamMembers(fs, now);
    FirstMinIsLeast(UpcomingByTeam(fs, now)[t], FixtureKey);
  }

  /** Read back by the ranking step, a label says "home" exactly when the
      team is the home side of its next fixture; the default "TBD" of a team
      without one reads as away. */
  lemma {:induction false} LabelReadsBack(f: UpcomingFixture, team: int, teamNames: map<int, string>)
    ensures Ranking.ParseFixtureHome(Label(f, team, teamNames)) == if f.teamH == Some(team) then 1 else 0
    ensures Ranking.ParseFixtureHome("TBD") == 0
  {
    var isHome := f.teamH == Some(team);
    var opponent := if isHome then f.teamA else f.teamH;
    var name := if opponent.Some? && opponent.value in teamNames then teamNames[opponent.value] else "UNKNOWN";
    Ranking.ParseFixtureHomeOfLabel(name, if isHome then 'H' else 'A');
    Ranking.ParseFixtureHomeNoParen("TBD");
  }

  // ---------------------------------------------------------------------------
  // Player rows

  /** One element of the bootstrap `elements` list, with its fields already
      parsed to numbers. */
  datatype PlayerInput = PlayerInput(
    id: int,
    team: int,
    elementType: int,
    minutes: real,
    expectedGoals: real,
    expectedAssists: real,
    firstName: string,
    secondName: string,
    nowCost: real,
    goalsScored: int,
    assists: int)

  /** A row of the phase-1 player table. */
  datatype PlayerRow = PlayerRow(
    player: string,
    team: string,
    position: string,
    price: real,
    minutesAvg: real,
    goals: int,
    assists: int,
    xg90: real,
    xa90: real,
    nextOpponent: string)

  /** The lookups `build_player_rows` consults for every player: team short
      names, position names, each team's next opponent, each player's match
      history (minutes only), the options and the Understat overrides keyed
      by normalised (player, team). */
  datatype PlayerContext = PlayerContext(
    teamNames: map<int, string>,
    positionNames: map<int, string>,
    nextOpponent: map<int, string>,
    histories: map<int, seq<Option<real>>>,
    lastN: int,
    minMinutes: real,
    overrides: map<(string, string), (real, real)>)

  /** The override and match counters of the pipeline statistics. */
  datatype OverrideStats = OverrideStats(
    playersTotal: int,
    matched: int,
    unmatched: int,
    coveragePct: real)

  /** `f"{first.strip()} {second.strip()}".strip()`. */
  function PlayerName(first: string, second: string): string
  {
    Strip(Strip(first) + " " + Strip(second))
  }

  function TeamNameOf(p: PlayerInput, ctx: PlayerContext): string
  {
    if p.team in ctx.teamNames then ctx.teamNames[p.team] else "UNKNOWN"
  }

  /** The key under which an Understat override for the player is looked up. */
  function OverrideKey(p: PlayerInput, ctx: PlayerContext): (string, string)
  {
    (NormalizeText(PlayerName(p.firstName, p.secondName)), NormalizeText(TeamNameOf(p, ctx)))
  }

  predicate Matched(p: PlayerInput, ctx: PlayerContext)
  {
    OverrideKey(p, ctx) in ctx.overrides
  }

  /** The row built for one player: an override replaces both rates,
      otherwise they are per-90 rates of the season's expected goals and
      assists. */
  function RowFor(p: PlayerInput, ctx: PlayerContext): (r: PlayerRow)
    ensures Matched(p, ctx) ==> (r.xg90, r.xa90) == ctx.overrides[OverrideKey(p, ctx)]
    ensures !Matched(p, ctx) ==> r.xg90 == Per90(p.expectedGoals, p.minutes, ctx.minMinutes)
    ensures !Matched(p, ctx) ==> r.xa90 == Per90(p.expectedAssists, p.minutes, ctx.minMinutes)
    ensures r.team == TeamNameOf(p, ctx)
    ensures r.player == PlayerName(p.firstName, p.secondName)
    ensures p.team in ctx.nextOpponent ==> r.nextOpponent == ctx.nextOpponent[p.team]
    ensures p.team !in ctx.nextOpponent ==> r.nextOpponent == "TBD"
    ensures p.elementType in ctx.positionNames ==> r.position == ctx.positionNames[p.elementType]
    ensures p.elementType !in ctx.positionNames ==> r.position == "UNK"
    ensures p.id in ctx.histories ==> r.minutesAvg == AverageLastNMinutes(ctx.histories[p.id], ctx.lastN)
    ensures p.id !in ctx.histories ==> r.minutesAvg == 0.0
    ensures r.goals == p.goalsScored && r.assists == p.assists
    ensures r.price * 10.0 == p.nowCost
  {
    var name := PlayerName(p.firstName, p.secondName);
    var team := TeamNameOf(p, ctx);
    var history := if p.id in ctx.histories then ctx.histories[p.id] else [];
    var key := OverrideKey(p, ctx);
    var xg90 := if key in ctx.overrides then ctx.overrides[key].0
      else Per90(p.expectedGoals, p.minutes, ctx.minMinutes);
    var xa90 := if key in ctx.overrides then ctx.overrides[key].1
      else Per90(p.expectedAssists, p.minutes, ctx.minMinutes);
    PlayerRow(
      name,
      team,
      if p.elementType in ctx.positionNames then ctx.positionNames[p.elementType] else "UNK",
      p.nowCost / 10.0,
      AverageLastNMinutes(history, ctx.lastN),
      p.goalsScored,
      p.assists,
      xg90,
      xa90,
      if p.team in ctx.nextOpponent then ctx.nextOpponent[p.team] else "TBD")
  }

  function RowOf(ctx: PlayerContext): PlayerInput -> PlayerRow
  {
    p => RowFor(p, ctx)
  }

  /** The final order: team, position, descending xg90, descending xa90,
      player name. */
  function RowKey(r: PlayerRow): Key
  {
    [Str(r.team), Str(r.position), Num(-r.xg90), Num(-r.xa90), Str(r.player)]
  }

  function MatchedOf(ctx: PlayerContext): PlayerInput -> bool
  {
    p => Matched(p, ctx)
  }

  /** The number of players whose override key is present. */
  function MatchedCount(players: seq<PlayerInput>, ctx: PlayerContext): nat
  {
    Count(players, MatchedOf(ctx))
  }

  /** `override_coverage_pct` before rounding. */
  function Coverage(matched: int, total: int): real
  {
    if total > 0 then 100.0 * (matched as real) / (total as real) else 0.0
  }

  /** The player rows of `build_player_rows` and its override counters; the
      histories, team names and next opponents are inputs (fetching them is
      not part of the model). */
  method BuildPlayerRows(players: seq<PlayerInput>, ctx: PlayerContext)
    returns (rows: seq<PlayerRow>, stats: OverrideStats)
    ensures rows == SortByKey(MapSeq(players, RowOf(ctx)), RowKey)
    ensures multiset(rows) == multiset(MapSeq(players, RowOf(ctx)))
    ensures SortedBy(rows, RowKey)
    ensures stats.playersTotal == |players|
    ensures stats.matched == MatchedCount(players, ctx)
    ensures stats.matched + stats.unmatched == stats.playersTotal
    ensures stats.coveragePct == Coverage(stats.matched, stats.playersTotal)
  {
    var built, matched, unmatched := RowsInFeedOrder(players, RowOf(ctx), MatchedOf(ctx));
    rows := SortByKey(built, RowKey);
    stats := OverrideStats(|players|, matched, unmatched, Coverage(matched, |players|));
  }

  /** The player loop: one row per player in feed order, counting the
      players whose override key matched and those whose key did not. The
      row and the match test of one player are parameters, so the loop's
      proof does not depend on how a row is built. */
  method RowsInFeedOrder(players: seq<PlayerInput>, rowOf: PlayerInput -> PlayerRow,
                         matchedOf: PlayerInput -> bool)
    returns (built: seq<PlayerRow>, matched: int, unmatched: int)
    ensures built == MapSeq(players, rowOf)
    ensures matched == Count(players, matchedOf)
    ensures matched + unmatched == |players|
  {
    built := [];
    matched, unmatched := 0, 0;
    for i := 0 to |players|
      invariant built == MapSeq(players[..i], rowOf)
      invariant matched == Count(players[..i], matchedOf)
      invariant matched + unmatched == i
    {
      CountStep(players, i, matchedOf);
      if matchedOf(players[i]) {
        matched := matched + 1;
      } else {
        unmatched := unmatched + 1;
      }
      built := built + [rowOf(players[i])];
      MapSeqStep(players, i, rowOf);
    }
    assert players[..|players|] == players;
  }

  /** Coverage is a percentage, and it is 100 exactly when every player of a
      non-empty list matched. */
  lemma {:induction false} CoverageBounds(matched: int, total: int)
    requires 0 <= matched <= total
    ensures 0.0 <= Coverage(matched, total) <= 100.0
    ensures total > 0 ==> (Coverage(matched, total) == 100.0 <==> matched == total)
  {
    if total > 0 {
      var n := total as real;
      var c := Coverage(matched, total);
      assert c * n == 100.0 * (matched as real);
      DivBounds(100.0 * (matched as real), n, 0.0, 100.0);
      if c == 100.0 {
        assert 100.0 * n == 100.0 * (matched as real);
      }
    }
  }

  /** The cleaned-up player name has no surrounding whitespace, and the
      override key is in `normalize_text` form. */
  lemma {:induction false} OverrideKeyNormalized(p: PlayerInput, ctx: PlayerContext)
    ensures PlayerName(p.firstName, p.secondName) == Strip(PlayerName(p.firstName, p.secondName))
    ensures Normalized(OverrideKey(p, ctx).0) && Normalized(OverrideKey(p, ctx).1)
  {
    StripIdempotent(Strip(p.firstName) + " " + Strip(p.secondName));
  }

  /** When every player's key is in the override table all of them count as
      matched; when none is, the matched count is 0. */
  lemma {:induction false} MatchedCountAll(players: seq<PlayerInput>, ctx: PlayerContext)
    ensures (forall p :: p in players ==> Matched(p, ctx)) ==> MatchedCount(players, ctx) == |players|
    ensures (forall p :: p in players ==> !Matched(p, ctx)) ==> MatchedCount(players, ctx) == 0
  {
    CountAllOrNone(players, MatchedOf(ctx));
  }
}
