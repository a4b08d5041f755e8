/** Fixture-side inputs of the feature table: the home/away split of each
    fixture, the per-team rest-days scan, the forward-horizon aggregate and the
    double-gameweek counts. */
module TeamFixtures {
  import opened Common
  import opened Ordering

  /** A row of the fixtures table. Missing database values are `None`;
      `kickoff` is the parsed `kickoff_time` (`None` for a missing or
      unparsable text). Times are seconds since an arbitrary epoch. */
  datatype Fixture = Fixture(
    id: int,
    event: Option<int>,
    kickoffTime: Option<string>,
    kickoff: Option<int>,
    finished: Option<int>,
    teamH: int,
    teamA: int,
    teamHDifficulty: Option<int>,
    teamADifficulty: Option<int>)

  /** One fixture seen from one of its two teams. */
  datatype TeamFixture = TeamFixture(
    fixtureId: int,
    event: int,
    kickoffTime: Option<string>,
    kickoff: Option<int>,
    finished: int,
    teamId: int,
    opponentTeamId: int,
    opponentDifficulty: int,
    isHome: int)

  function HomeRow(f: Fixture): TeamFixture
  {
    TeamFixture(f.id, f.event.GetOr(0), f.kickoffTime, f.kickoff, f.finished.GetOr(0),
                f.teamH, f.teamA, f.teamHDifficulty.GetOr(0), 1)
  }

  function AwayRow(f: Fixture): TeamFixture
  {
    TeamFixture(f.id, f.event.GetOr(0), f.kickoffTime, f.kickoff, f.finished.GetOr(0),
                f.teamA, f.teamH, f.teamADifficulty.GetOr(0), 0)
  }

  /** `_build_team_fixture_rows` (with the `finished` default applied just
      before it): all home rows, then all away rows. Each fixture is seen once
      from the home side and once, mirrored, from the away side; a missing
      event, difficulty or finished flag becomes 0. */
  function BuildTeamFixtureRows(fs: seq<Fixture>): (rows: seq<TeamFixture>)
    ensures |rows| == 2 * |fs|
    ensures forall i :: 0 <= i < |fs| ==>
      var h, a := rows[i], rows[|fs| + i];
      && h.fixtureId == a.fixtureId == fs[i].id
      && h.teamId == a.opponentTeamId == fs[i].teamH
      && a.teamId == h.opponentTeamId == fs[i].teamA
      && h.isHome == 1 && a.isHome == 0
      && h.opponentDifficulty == fs[i].teamHDifficulty.GetOr(0)
      && a.opponentDifficulty == fs[i].teamADifficulty.GetOr(0)
      && h.event == a.event == (if fs[i].event.Some? then fs[i].event.value else 0)
      && h.kickoff == a.kickoff == fs[i].kickoff
      && h.finished == a.finished == (if fs[i].finished.Some? then fs[i].finished.value else 0)
  {
    seq(|fs|, i requires 0 <= i < |fs| => HomeRow(fs[i]))
    + seq(|fs|, i requires 0 <= i < |fs| => AwayRow(fs[i]))
  }

  /** Number of fixtures with the given id. */
  function CountFixtureId(fs: seq<Fixture>, id: int): nat
  {
    if fs == [] then 0
    else CountFixtureId(fs[..|fs| - 1], id) + (if fs[|fs| - 1].id == id then 1 else 0)
  }

  /** Number of team rows with the given fixture id. */
  function CountRowFixtureId(rows: seq<TeamFixture>, id: int): nat
  {
    if rows == [] then 0
    else CountRowFixtureId(rows[..|rows| - 1], id) + (if rows[|rows| - 1].fixtureId == id then 1 else 0)
  }

  lemma {:induction false} CountRowFixtureIdAppend(a: seq<TeamFixture>, b: seq<TeamFixture>, id: int)
    ensures CountRowFixtureId(a + b, id) == CountRowFixtureId(a, id) + CountRowFixtureId(b, id)
    decreases |b|
  {
    if b == [] {
      assert a + b == a;
    } else {
      var b' := b[..|b| - 1];
      assert (a + b)[..|a + b| - 1] == a + b';
      CountRowFixtureIdAppend(a, b', id);
    }
  }

  lemma {:induction false} CountSide(fs: seq<Fixture>, side: seq<TeamFixture>, id: int)
    requires |side| == |fs|
    requires forall i :: 0 <= i < |fs| ==> side[i].fixtureId == fs[i].id
    ensures CountRowFixtureId(side, id) == CountFixtureId(fs, id)
  {
    if fs != [] {
      CountSide(fs[..|fs| - 1], side[..|side| - 1], id);
    }
  }

  /** Every fixture yields exactly two team rows. */
  lemma {:induction false} TwoRowsPerFixture(fs: seq<Fixture>, id: int)
    ensures CountRowFixtureId(BuildTeamFixtureRows(fs), id) == 2 * CountFixtureId(fs, id)
  {
    var home := seq(|fs|, i requires 0 <= i < |fs| => HomeRow(fs[i]));
    var away := seq(|fs|, i requires 0 <= i < |fs| => AwayRow(fs[i]));
    assert BuildTeamFixtureRows(fs) == home + away;
    CountRowFixtureIdAppend(home, away, id);
    CountSide(fs, home, id);
    CountSide(fs, away, id);
  }

  /** The rows of one team, in table order (a `groupby` group). */
  function TeamRows(rows: seq<TeamFixture>, team: int): (g: seq<TeamFixture>)
    ensures forall r :: r in g <==> r in rows && r.teamId == team
  {
    if rows == [] then []
    else
      var rows' := rows[..|rows| - 1];
      var last := rows[|rows| - 1];
      assert rows == rows' + [last];
      if last.teamId == team then TeamRows(rows', team) + [last] else TeamRows(rows', team)
  }

  /** The distinct team ids of the rows in order of first appearance (the
      group order of `groupby(sort=False)`). */
  function Teams(rows: seq<TeamFixture>): (ts: seq<int>)
    ensures forall t :: t in ts <==> exists i :: 0 <= i < |rows| && rows[i].teamId == t
    ensures forall i, j :: 0 <= i < j < |ts| ==> ts[i] != ts[j]
  {
    if rows == [] then []
    else
      var rows' := rows[..|rows| - 1];
      var ts := Teams(rows');
      var t := rows[|rows| - 1].teamId;
      assert forall i :: 0 <= i < |rows'| ==> rows'[i] == rows[i];
      if t in ts then ts else ts + [t]
  }

  // ---------------------------------------------------------------------------
  // Rest days

  type RestMap = map<(int, int), Option<real>>

  /** Sort key of `_build_rest_days_map`: kickoff (missing kickoffs last),
      then event, then fixture id. */
  function RestKey(r: TeamFixture): Key
  {
    [Num(if r.kickoff.Some? then 0.0 else 1.0),
     Num(if r.kickoff.Some? then r.kickoff.value as real else 0.0),
     Num(r.event as real),
     Num(r.fixtureId as real)]
  }

  /** The most recent valid kickoff among `g`: the value `previous_dt` holds
      after scanning `g`. */
  function PrevValid(g: seq<TeamFixture>): Option<int>
  {
    if g == [] then None
    else if g[|g| - 1].kickoff.Some? then g[|g| - 1].kickoff
    else PrevValid(g[..|g| - 1])
  }

  /** `previous_dt` is missing exactly when no row had a kickoff, and is
      otherwise the kickoff of the last row that had one. */
  lemma {:induction false} PrevValidFacts(g: seq<TeamFixture>)
    ensures PrevValid(g).None? <==> forall i :: 0 <= i < |g| ==> g[i].kickoff.None?
    ensures PrevValid(g).Some? ==>
      exists i :: (0 <= i < |g| && g[i].kickoff == PrevValid(g)
                   && forall j :: i < j < |g| ==> g[j].kickoff.None?)
  {
    if g != [] && g[|g| - 1].kickoff.None? {
      var g' := g[..|g| - 1];
      assert forall i :: 0 <= i < |g'| ==> g'[i] == g[i];
      PrevValidFacts(g');
    }
  }

  /** Days between the previous valid kickoff and this one, never negative;
      `None` when either is missing. */
  function RestDays(previous: Option<int>, current: Option<int>): (r: Option<real>)
    ensures r.Some? <==> previous.Some? && current.Some?
    ensures r.Some? ==> r.value >= 0.0
    ensures r.Some? && previous.value <= current.value
            ==> r.value * 86400.0 == (current.value - previous.value) as real
  {
    if previous.Some? && current.Some? then
      Some(Max(0.0, (current.value - previous.value) as real / 86400.0))
    else None
  }

  /** The map after scanning the sorted group `g` of `team` on top of `m`. */
  function ScanGroup(m: RestMap, team: int, g: seq<TeamFixture>): RestMap
  {
    if g == [] then m
    else
      var k := |g| - 1;
      ScanGroup(m, team, g[..k])[(team, g[k].fixtureId) := RestDays(PrevValid(g[..k]), g[k].kickoff)]
  }

  function SortedTeamRows(rows: seq<TeamFixture>, team: int): (g: seq<TeamFixture>)
    ensures multiset(g) == multiset(TeamRows(rows, team))
    ensures SortedBy(g, RestKey)
  {
    SortByKey(TeamRows(rows, team), RestKey)
  }

  /** The map after scanning the groups of the teams `ts`, in order. */
  function RestOver(rows: seq<TeamFixture>, ts: seq<int>): RestMap
  {
    if ts == [] then map[]
    else
      var t := ts[|ts| - 1];
      ScanGroup(RestOver(rows, ts[..|ts| - 1]), t, SortedTeamRows(rows, t))
  }

  /** What `_build_rest_days_map` returns. */
  function RestDaysSpec(rows: seq<TeamFixture>): RestMap
  {
    RestOver(rows, Teams(rows))
  }

  /** `_build_rest_days_map`: for each team, walk its fixtures in kickoff order
      and record the days since the previous fixture that had a kickoff. */
  method BuildRestDaysMap(rows: seq<TeamFixture>) returns (m: RestMap)
    ensures m == RestDaysSpec(rows)
  {
    var teams := Teams(rows);
    m := map[];
    var t := 0;
    while t < |teams|
      invariant 0 <= t <= |teams|
      invariant m == RestOver(rows, teams[..t])
    {
      var team := teams[t];
      var g := SortedTeamRows(rows, team);
      m := ScanTeam(m, team, g);
      assert teams[..t + 1][..t] == teams[..t];
      t := t + 1;
    }
    assert teams[..|teams|] == teams;
  }

  /** The inner loop of `_build_rest_days_map` over one team's sorted rows;
      `previous` only moves past rows that have a kickoff. */
  method ScanTeam(m0: RestMap, team: int, g: seq<TeamFixture>) returns (m: RestMap)
    ensures m == ScanGroup(m0, team, g)
  {
    m := m0;
    var previous: Option<int> := None;
    var i := 0;
    while i < |g|
      invariant 0 <= i <= |g|
      invariant previous == PrevValid(g[..i])
      invariant m == ScanGroup(m0, team, g[..i])
    {
      var current := g[i].kickoff;
      var rest: Option<real> := None;
      if previous.Some? && current.Some? {
        var deltaDays := (current.value - previous.value) as real / 86400.0;
        rest := Some(Max(0.0, deltaDays));
      }
      assert rest == RestDays(previous, current);
      assert g[..i + 1][..i] == g[..i];
      m := m[(team, g[i].fixtureId) := rest];
      if current.Some? {
        previous := current;
      }
      i := i + 1;
    }
    assert g[..|g|] == g;
  }

  predicate RestValuesNonNegative(m: RestMap)
  {
    forall k :: k in m && m[k].Some? ==> m[k].value >= 0.0
  }

  lemma {:induction false} ScanGroupKeeps(m: RestMap, team: int, g: seq<TeamFixture>)
    requires RestValuesNonNegative(m)
    ensures RestValuesNonNegative(ScanGroup(m, team, g))
    ensures forall k :: (k in ScanGroup(m, team, g)
      <==> k in m || (k.0 == team && exists i :: 0 <= i < |g| && g[i].fixtureId == k.1))
  {
    if g != [] {
      var g' := g[..|g| - 1];
      ScanGroupKeeps(m, team, g');
      assert forall i :: 0 <= i < |g'| ==> g'[i] == g[i];
    }
  }

  /** Every rest-days value is absent or non-negative, and the map has an
      entry for exactly the (team, fixture) pairs of the rows. */
  lemma {:induction false} RestOverFacts(rows: seq<TeamFixture>, ts: seq<int>)
    ensures RestValuesNonNegative(RestOver(rows, ts))
    ensures forall k :: (k in RestOver(rows, ts)
      <==> k.0 in ts && exists r :: r in rows && r.teamId == k.0 && r.fixtureId == k.1)
  {
    if ts != [] {
      var t := ts[|ts| - 1];
      var ts' := ts[..|ts| - 1];
      RestOverFacts(rows, ts');
      var g := SortedTeamRows(rows, t);
      ScanGroupKeeps(RestOver(rows, ts'), t, g);
      forall k: (int, int) ensures (k.0 == t && exists i :: 0 <= i < |g| && g[i].fixtureId == k.1)
                       <==> (k.0 == t && exists r :: r in rows && r.teamId == t && r.fixtureId == k.1)
      {
        if k.0 == t {
          if i :| 0 <= i < |g| && g[i].fixtureId == k.1 {
            assert g[i] in multiset(TeamRows(rows, t));
          }
          if r :| r in rows && r.teamId == t && r.fixtureId == k.1 {
            assert r in multiset(g);
            var i :| 0 <= i < |g| && g[i] == r;
          }
        }
      }
      assert forall x :: x in ts <==> x in ts' || x == t;
    }
  }

  /** The map built by `_build_rest_days_map` has an entry for each (team,
      fixture) pair of the rows and no other, and every value is `None` or at
      least 0. */
  lemma {:induction false} RestDaysSpecFacts(rows: seq<TeamFixture>)
    ensures RestValuesNonNegative(RestDaysSpec(rows))
    ensures forall k :: (k in RestDaysSpec(rows)
      <==> exists r :: r in rows && r.teamId == k.0 && r.fixtureId == k.1)
  {
    RestOverFacts(rows, Teams(rows));
  }

  /** In a group sorted by kickoff, the previous valid kickoff is never later
      than the current one, so the rest is the exact gap in days and the
      clamp at 0 never bites. */
  lemma {:induction false} SortedRestIsGap(g: seq<TeamFixture>, k: int)
    requires SortedBy(g, RestKey)
    requires 0 <= k < |g| && g[k].kickoff.Some? && PrevValid(g[..k]).Some?
    ensures PrevValid(g[..k]).value <= g[k].kickoff.value
    ensures RestDays(PrevValid(g[..k]), g[k].kickoff).value * 86400.0
         == (g[k].kickoff.value - PrevValid(g[..k]).value) as real
  {
    var p := PrevValid(g[..k]);
    PrevValidFacts(g[..k]);
    var i :| 0 <= i < k && g[..k][i].kickoff == p;
    assert g[i].kickoff == p;
    var a, b := g[i], g[k];
    assert KeyLeq(RestKey(a), RestKey(b));
    assert RestKey(a) == [Num(0.0)] + RestKey(a)[1..];
    assert RestKey(b) == [Num(0.0)] + RestKey(b)[1..];
    KeyLeqHead(0.0, RestKey(a)[1..], 0.0, RestKey(b)[1..]);
    assert RestKey(a)[1..] == [Num(p.value as real)] + RestKey(a)[2..];
    assert RestKey(b)[1..] == [Num(b.kickoff.value as real)] + RestKey(b)[2..];
    KeyLeqHead(p.value as real, RestKey(a)[2..], b.kickoff.value as real, RestKey(b)[2..]);
  }

  /** No two rows of the group share a fixture id. */
  predicate DistinctFixtures(g: seq<TeamFixture>)
  {
    forall i, j :: 0 <= i < j < |g| ==> g[i].fixtureId != g[j].fixtureId
  }

  /** Scanning a group stores, under each of its fixtures, the rest since the
      previous valid kickoff of the group. */
  lemma {:induction false} ScanGroupAt(m: RestMap, team: int, g: seq<TeamFixture>, k: int)
    requires DistinctFixtures(g) && 0 <= k < |g|
    ensures (team, g[k].fixtureId) in ScanGroup(m, team, g)
    ensures ScanGroup(m, team, g)[(team, g[k].fixtureId)] == RestDays(PrevValid(g[..k]), g[k].kickoff)
  {
    var n := |g| - 1;
    if k < n {
      var g' := g[..n];
      assert g'[k] == g[k] && g'[..k] == g[..k];
      assert DistinctFixtures(g') by {
        forall i, j | 0 <= i < j < |g'| ensures g'[i].fixtureId != g'[j].fixtureId {
          assert g'[i] == g[i] && g'[j] == g[j];
        }
      }
      ScanGroupAt(m, team, g', k);
      assert g[n].fixtureId != g[k].fixtureId;
    }
  }

  /** Scanning another team's group leaves this team's entries alone. */
  lemma {:induction false} ScanGroupOther(m: RestMap, team: int, g: seq<TeamFixture>, key: (int, int))
    requires key.0 != team && key in m
    ensures key in ScanGroup(m, team, g) && ScanGroup(m, team, g)[key] == m[key]
  {
    if g != [] {
      ScanGroupOther(m, team, g[..|g| - 1], key);
    }
  }

  /** After scanning the teams `ts`, the entry of a fixture of a scanned team
      is the rest computed in that team's sorted group. */
  lemma {:induction false} RestOverAt(rows: seq<TeamFixture>, ts: seq<int>, t: int, k: int)
    requires t in ts
    requires DistinctFixtures(SortedTeamRows(rows, t)) && 0 <= k < |SortedTeamRows(rows, t)|
    ensures var g := SortedTeamRows(rows, t);
      && (t, g[k].fixtureId) in RestOver(rows, ts)
      && RestOver(rows, ts)[(t, g[k].fixtureId)] == RestDays(PrevValid(g[..k]), g[k].kickoff)
  {
    var g := SortedTeamRows(rows, t);
    var u := ts[|ts| - 1];
    var ts' := ts[..|ts| - 1];
    if u == t {
      ScanGroupAt(RestOver(rows, ts'), t, g, k);
    } else {
      assert ts == ts' + [u];
      assert t in ts';
      RestOverAt(rows, ts', t, k);
      ScanGroupOther(RestOver(rows, ts'), u, SortedTeamRows(rows, u), (t, g[k].fixtureId));
    }
  }

  /** The rest-days map the feature table reads holds, for the k-th fixture
      of a team in kickoff order, the rest since the previous valid kickoff
      of that team, when the team's fixture ids are distinct. */
  lemma {:induction false} RestDaysSpecAt(rows: seq<TeamFixture>, t: int, k: int)
    requires DistinctFixtures(SortedTeamRows(rows, t)) && 0 <= k < |SortedTeamRows(rows, t)|
    ensures var g := SortedTeamRows(rows, t);
      && (t, g[k].fixtureId) in RestDaysSpec(rows)
      && RestDaysSpec(rows)[(t, g[k].fixtureId)] == RestDays(PrevValid(g[..k]), g[k].kickoff)
  {
    var g := SortedTeamRows(rows, t);
    assert g[k] in multiset(TeamRows(rows, t));
    var i :| 0 <= i < |rows| && rows[i] == g[k];
    assert t in Teams(rows);
    RestOverAt(rows, Teams(rows), t, k);
  }

  /** In the rest-days map, a team's first fixture in kickoff order and any
      fixture without a kickoff have no value. */
  lemma {:induction false} RestDaysNoneCases(rows: seq<TeamFixture>, t: int, k: int)
    requires DistinctFixtures(SortedTeamRows(rows, t)) && 0 <= k < |SortedTeamRows(rows, t)|
    requires k == 0 || SortedTeamRows(rows, t)[k].kickoff.None?
    ensures var key := (t, SortedTeamRows(rows, t)[k].fixtureId);
      key in RestDaysSpec(rows) && RestDaysSpec(rows)[key].None?
  {
    var g := SortedTeamRows(rows, t);
    RestDaysSpecAt(rows, t, k);
    if k == 0 { assert g[..k] == []; }
  }

  // ---------------------------------------------------------------------------
  // Forward horizon and double gameweeks

  /** Number of rows whose event lies in [lo, hi). */
  function CountIn(g: seq<TeamFixture>, lo: int, hi: int): (k: nat)
    ensures k <= |g|
    ensures forall i :: 0 <= i < |g| && lo <= g[i].event < hi ==> k > 0
  {
    if g == [] then 0
    else
      var g' := g[..|g| - 1];
      assert forall i :: 0 <= i < |g'| ==> g'[i] == g[i];
      CountIn(g', lo, hi) + (if lo <= g[|g| - 1].event < hi then 1 else 0)
  }

  /** Number of home rows whose event lies in [lo, hi). */
  function HomeIn(g: seq<TeamFixture>, lo: int, hi: int): int
  {
    if g == [] then 0
    else HomeIn(g[..|g| - 1], lo, hi) + (if lo <= g[|g| - 1].event < hi then g[|g| - 1].isHome else 0)
  }

  /** Sum of the opponent difficulties of the rows whose event lies in [lo, hi). */
  function DifficultyIn(g: seq<TeamFixture>, lo: int, hi: int): real
  {
    if g == [] then 0.0
    else DifficultyIn(g[..|g| - 1], lo, hi)
         + (if lo <= g[|g| - 1].event < hi then g[|g| - 1].opponentDifficulty as real else 0.0)
  }

  /** Extending a window by one event adds that event's rows. */
  lemma {:induction false} WindowsSplit(g: seq<TeamFixture>, lo: int, hi: int)
    requires lo <= hi
    ensures CountIn(g, lo, hi + 1) == CountIn(g, lo, hi) + CountIn(g, hi, hi + 1)
    ensures HomeIn(g, lo, hi + 1) == HomeIn(g, lo, hi) + HomeIn(g, hi, hi + 1)
    ensures DifficultyIn(g, lo, hi + 1) == DifficultyIn(g, lo, hi) + DifficultyIn(g, hi, hi + 1)
  {
    if g != [] {
      WindowsSplit(g[..|g| - 1], lo, hi);
    }
  }

  /** The per-event aggregate of one team: fixture count, mean opponent
      difficulty and number of home fixtures. */
  datatype EventStat = EventStat(fixtureCount: nat, avgDifficulty: real, homeCount: int)

  function EventsOf(g: seq<TeamFixture>): set<int>
  {
    set i | 0 <= i < |g| :: g[i].event
  }

  /** `group.groupby("event").agg(count, mean, sum)` as a map from event. */
  function EventStats(g: seq<TeamFixture>): (stats: map<int, EventStat>)
    ensures stats.Keys == EventsOf(g)
    ensures forall e :: e in stats ==> StatFacts(g, e, stats[e])
  {
    var stats := map e | e in EventsOf(g) :: StatOf(g, e);
    assert forall e :: e in stats ==> StatFacts(g, e, stats[e]) by {
      forall e | e in stats ensures StatFacts(g, e, stats[e]) {
        var st := StatOf(g, e);
        assert stats[e] == st;
      }
    }
    stats
  }

  /** The mean difficulty of an event weighted by its fixture count. */
  function WeightedDifficulty(s: EventStat): real
  {
    s.avgDifficulty * (s.fixtureCount as real)
  }

  /** `s` is the aggregate of the rows of `g` in event `e`. */
  predicate StatFacts(g: seq<TeamFixture>, e: int, s: EventStat)
  {
    && s.fixtureCount == CountIn(g, e, e + 1) > 0
    && WeightedDifficulty(s) == DifficultyIn(g, e, e + 1)
    && s.homeCount == HomeIn(g, e, e + 1)
  }

  /** The aggregate of one event that occurs in `g`. */
  function StatOf(g: seq<TeamFixture>, e: int): (s: EventStat)
    requires e in EventsOf(g)
    ensures s.fixtureCount == CountIn(g, e, e + 1) > 0
    ensures WeightedDifficulty(s) == DifficultyIn(g, e, e + 1)
    ensures s.homeCount == HomeIn(g, e, e + 1)
  {
    var n := CountIn(g, e, e + 1);
    var d := DifficultyIn(g, e, e + 1);
    DivMul(d, n as real);
    EventStat(n, d / (n as real), HomeIn(g, e, e + 1))
  }

  lemma {:induction false} DivMul(x: real, n: real)
    requires n != 0.0
    ensures (x / n) * n == x
  {
  }

  /** Running totals of the horizon window. */
  datatype Totals = Totals(fixtures: int, home: int, weightedDifficulty: real)

  /** Totals over the events start, start+1, ..., start+width-1 that have
      statistics; events without fixtures contribute nothing. */
  function Window(stats: map<int, EventStat>, start: int, width: nat): Totals
  {
    if width == 0 then Totals(0, 0, 0.0)
    else
      var t := Window(stats, start, width - 1);
      var c := start + width - 1;
      if c in stats then
        Totals(t.fixtures + stats[c].fixtureCount, t.home + stats[c].homeCount,
               t.weightedDifficulty + WeightedDifficulty(stats[c]))
      else t
  }

  /** The horizon entry of one (team, event). */
  datatype HorizonStat = HorizonStat(fixtureCount: int, avgDifficulty: real, homeCount: int)

  function HorizonEntry(stats: map<int, EventStat>, event: int, horizon: int): HorizonStat
  {
    var t := Window(stats, event, IntMax(1, horizon));
    var avg := if t.fixtures > 0 then t.weightedDifficulty / (t.fixtures as real) else 0.0;
    HorizonStat(t.fixtures, avg, t.home)
  }

  /** The (team, event) pairs of the rows. */
  function TeamEvents(rows: seq<TeamFixture>): set<(int, int)>
  {
    set i | 0 <= i < |rows| :: (rows[i].teamId, rows[i].event)
  }

  /** What `_build_horizon_map` returns. */
  function HorizonSpec(rows: seq<TeamFixture>, horizon: int): map<(int, int), HorizonStat>
  {
    map k | k in TeamEvents(rows) :: HorizonEntry(EventStats(TeamRows(rows, k.0)), k.1, horizon)
  }

  /** The window totals are the counts and sums over the rows themselves. */
  lemma {:induction false} WindowIsRows(g: seq<TeamFixture>, start: int, width: nat)
    ensures Window(EventStats(g), start, width)
         == Totals(CountIn(g, start, start + width), HomeIn(g, start, start + width),
                   DifficultyIn(g, start, start + width))
  {
    WindowOfStats(g, EventStats(g), start, width);
  }

  lemma {:induction false} WindowOfStats(g: seq<TeamFixture>, stats: map<int, EventStat>, start: int, width: nat)
    requires stats.Keys == EventsOf(g)
    requires forall e :: e in stats ==> StatFacts(g, e, stats[e])
    ensures Window(stats, start, width)
         == Totals(CountIn(g, start, start + width), HomeIn(g, start, start + width),
                   DifficultyIn(g, start, start + width))
  {
    if width == 0 {
      EmptyWindow(g, start);
    } else {
      var c := start + width - 1;
      WindowOfStats(g, stats, start, width - 1);
      var t := Window(stats, start, width - 1);
      assert t == Totals(CountIn(g, start, c), HomeIn(g, start, c), DifficultyIn(g, start, c));
      WindowsSplit(g, start, c);
      if c in stats {
        var st := stats[c];
        assert StatFacts(g, c, st);
        assert Window(stats, start, width)
            == Totals(t.fixtures + st.fixtureCount, t.home + st.homeCount,
                      t.weightedDifficulty + WeightedDifficulty(st));
      } else {
        NoRowsInEvent(g, c);
        assert Window(stats, start, width) == t;
      }
    }
  }

  lemma {:induction false} EmptyWindow(g: seq<TeamFixture>, start: int)
    ensures CountIn(g, start, start) == 0 && HomeIn(g, start, start) == 0
         && DifficultyIn(g, start, start) == 0.0
  {
    if g != [] { EmptyWindow(g[..|g| - 1], start); }
  }

  lemma {:induction false} NoRowsInEvent(g: seq<TeamFixture>, c: int)
    requires c !in EventsOf(g)
    ensures CountIn(g, c, c + 1) == 0 && HomeIn(g, c, c + 1) == 0
         && DifficultyIn(g, c, c + 1) == 0.0
  {
    if g != [] {
      var g' := g[..|g| - 1];
      assert EventsOf(g') <= EventsOf(g) by {
        forall e | e in EventsOf(g') ensures e in EventsOf(g) {
          var i :| 0 <= i < |g'| && g'[i].event == e;
          assert g[i].event == e;
        }
      }
      assert g[|g| - 1].event in EventsOf(g);
      NoRowsInEvent(g', c);
    }
  }

  /** Each horizon entry counts the team's fixtures and home fixtures in the
      events [event, event + max(1, horizon)), and its difficulty is their
      fixture-weighted mean, or 0 when there are none. */
  lemma {:induction false} HorizonCountsRows(rows: seq<TeamFixture>, horizon: int, team: int, event: int)
    requires (team, event) in TeamEvents(rows)
    ensures var h, g, hi := HorizonSpec(rows, horizon)[(team, event)], TeamRows(rows, team),
                            event + IntMax(1, horizon);
      && h.fixtureCount == CountIn(g, event, hi)
      && h.homeCount == HomeIn(g, event, hi)
      && h.avgDifficulty == (if CountIn(g, event, hi) > 0
                             then DifficultyIn(g, event, hi) / (CountIn(g, event, hi) as real)
                             else 0.0)
  {
    WindowIsRows(TeamRows(rows, team), event, IntMax(1, horizon));
  }

  /** The number of fixtures each (team, event) has (`dgw_count_map`). */
  function DgwCounts(rows: seq<TeamFixture>): map<(int, int), nat>
  {
    map k | k in TeamEvents(rows) :: CountIn(TeamRows(rows, k.0), k.1, k.1 + 1)
  }

  /** The double-gameweek count of a (team, event) is the number of rows,
      over the whole table, that have that team and that event. */
  lemma {:induction false} DgwCountIs(rows: seq<TeamFixture>, team: int, event: int)
    requires (team, event) in TeamEvents(rows)
    ensures (team, event) in DgwCounts(rows)
    ensures DgwCounts(rows)[(team, event)] == CountTeamEvent(rows, team, event)
  {
    DgwCountInGroup(rows, team, event);
    TeamRowsCount(rows, team, event);
  }

  /** Number of rows of `team` in `event`. */
  function CountTeamEvent(rows: seq<TeamFixture>, team: int, event: int): nat
  {
    if rows == [] then 0
    else
      var last := rows[|rows| - 1];
      CountTeamEvent(rows[..|rows| - 1], team, event)
      + (if last.teamId == team && last.event == event then 1 else 0)
  }

  /** Counting within the team's group is counting within all the rows. */
  lemma {:induction false} TeamRowsCount(rows: seq<TeamFixture>, team: int, event: int)
    ensures CountIn(TeamRows(rows, team), event, event + 1) == CountTeamEvent(rows, team, event)
  {
    if rows != [] {
      var rows' := rows[..|rows| - 1];
      var last := rows[|rows| - 1];
      TeamRowsCount(rows', team, event);
      var g' := TeamRows(rows', team);
      if last.teamId == team {
        var g := g' + [last];
        assert TeamRows(rows, team) == g;
        assert g[..|g| - 1] == g';
        assert CountIn(g, event, event + 1)
            == CountIn(g', event, event + 1) + (if last.event == event then 1 else 0);
      } else {
        assert TeamRows(rows, team) == g';
      }
    }
  }

  /** More than one row of `team` in `event` exists exactly when a row other
      than `rows[i]` (which is one) is. */
  lemma {:induction false} MatchCount(rows: seq<TeamFixture>, i: int)
    requires 0 <= i < |rows|
    ensures var r := rows[i];
      && CountTeamEvent(rows, r.teamId, r.event) >= 1
      && (CountTeamEvent(rows, r.teamId, r.event) > 1 <==> SameSlotElsewhere(rows, i))
  {
    var r := rows[i];
    var n := |rows| - 1;
    var rows' := rows[..n];
    if i == n {
      NoneCount(rows', r.teamId, r.event);
      if j :| 0 <= j < |rows'| && rows'[j].teamId == r.teamId && rows'[j].event == r.event {
        assert rows[j] == rows'[j];
      }
      if SameSlotElsewhere(rows, i) {
        var j :| 0 <= j < |rows| && j != i && rows[j].teamId == r.teamId && rows[j].event == r.event;
        assert rows'[j] == rows[j];
      }
    } else {
      MatchCount(rows', i);
      assert rows'[i] == r;
      if SameSlotElsewhere(rows', i) {
        var j :| 0 <= j < |rows'| && j != i && rows'[j].teamId == r.teamId && rows'[j].event == r.event;
        assert rows[j] == rows'[j];
      }
      if SameSlotElsewhere(rows, i) {
        var j :| 0 <= j < |rows| && j != i && rows[j].teamId == r.teamId && rows[j].event == r.event;
        if j < n { assert rows'[j] == rows[j]; }
      }
    }
  }

  /** Another row than `rows[i]` has the same team and event. */
  predicate SameSlotElsewhere(rows: seq<TeamFixture>, i: int)
    requires 0 <= i < |rows|
  {
    exists j :: 0 <= j < |rows| && j != i && rows[j].teamId == rows[i].teamId && rows[j].event == rows[i].event
  }

  lemma {:induction false} NoneCount(rows: seq<TeamFixture>, team: int, event: int)
    ensures CountTeamEvent(rows, team, event) == 0
        <==> forall j :: 0 <= j < |rows| ==> !(rows[j].teamId == team && rows[j].event == event)
  {
    if rows != [] {
      var rows' := rows[..|rows| - 1];
      NoneCount(rows', team, event);
      assert forall j :: 0 <= j < |rows'| ==> rows'[j] == rows[j];
    }
  }

  /** Every team row's own (team, event) is in the double-gameweek map with a
      count of at least one; the count is above one exactly when the team has
      another fixture in the same event. */
  lemma {:induction false} DgwCountOfRow(rows: seq<TeamFixture>, i: int)
    requires 0 <= i < |rows|
    ensures var k := (rows[i].teamId, rows[i].event);
      && k in DgwCounts(rows) && DgwCounts(rows)[k] >= 1
      && (DgwCounts(rows)[k] > 1 <==> SameSlotElsewhere(rows, i))
  {
    var r := rows[i];
    var k := (r.teamId, r.event);
    assert k in TeamEvents(rows);
    assert DgwCounts(rows)[k] == CountIn(TeamRows(rows, r.teamId), r.event, r.event + 1);
    TeamRowsCount(rows, r.teamId, r.event);
    MatchCount(rows, i);
  }

  /** A one-event horizon counts exactly the fixtures of the double-gameweek
      map. */
  lemma {:induction false} HorizonOneIsDgw(rows: seq<TeamFixture>, k: (int, int))
    requires k in TeamEvents(rows)
    ensures HorizonSpec(rows, 1)[k].fixtureCount == DgwCounts(rows)[k]
  {
    var (team, event) := k;
    DgwCountInGroup(rows, team, event);
    HorizonCountsRows(rows, 1, team, event);
  }

  lemma {:induction false} DgwCountInGroup(rows: seq<TeamFixture>, team: int, event: int)
    requires (team, event) in TeamEvents(rows)
    ensures DgwCounts(rows)[(team, event)] == CountIn(TeamRows(rows, team), event, event + 1)
  {
  }

  /** The distinct events of the rows, in order of first appearance. */
  function DistinctEvents(g: seq<TeamFixture>): (es: seq<int>)
    ensures forall e :: e in es <==> e in EventsOf(g)
  {
    if g == [] then []
    else
      var g' := g[..|g| - 1];
      var es := DistinctEvents(g');
      var e := g[|g| - 1].event;
      assert EventsOf(g) == EventsOf(g') + {e} by {
        forall x | x in EventsOf(g) ensures x in EventsOf(g') + {e} {
          var i :| 0 <= i < |g| && g[i].event == x;
          if i < |g'| { assert g'[i] == g[i]; }
        }
        forall x | x in EventsOf(g') ensures x in EventsOf(g) {
          var i :| 0 <= i < |g'| && g'[i].event == x;
          assert g[i] == g'[i];
        }
      }
      if e in es then es else es + [e]
  }

  function EventKey(e: int): Key
  {
    [Num(e as real)]
  }

  /** Every entry of `m` is the horizon entry of its (team, event). */
  ghost predicate HorizonEntriesOk(rows: seq<TeamFixture>, horizon: int, m: map<(int, int), HorizonStat>)
  {
    forall k :: k in m ==> m[k] == HorizonEntry(EventStats(TeamRows(rows, k.0)), k.1, horizon)
  }

  /** `_build_horizon_map`: for each team and each of its events in ascending
      order, total the per-event statistics over the next `max(1, horizon)`
      events. */
  method BuildHorizonMap(rows: seq<TeamFixture>, horizon: int)
    returns (m: map<(int, int), HorizonStat>)
    ensures m == HorizonSpec(rows, horizon)
  {
    var teams := Teams(rows);
    m := map[];
    for t := 0 to |teams|
      invariant m.Keys == KeysOfTeams(rows, teams[..t])
      invariant HorizonEntriesOk(rows, horizon, m)
    {
      m := AddTeamHorizon(m, rows, teams[t], horizon);
      KeysOfTeamsStep(rows, teams, t);
    }
    assert teams[..|teams|] == teams;
    KeysOfAllTeams(rows, teams);
    HorizonMapIsSpec(rows, horizon, m);
  }

  /** The (team, event) pairs whose team is among `ts`. */
  function KeysOfTeams(rows: seq<TeamFixture>, ts: seq<int>): set<(int, int)>
  {
    set k | k in TeamEvents(rows) && k.0 in ts
  }

  /** The (team, event) pairs of one team. */
  function KeysOfTeam(rows: seq<TeamFixture>, team: int): set<(int, int)>
  {
    set k | k in TeamEvents(rows) && k.0 == team
  }

  lemma {:induction false} KeysOfTeamsStep(rows: seq<TeamFixture>, teams: seq<int>, t: int)
    requires 0 <= t < |teams|
    ensures KeysOfTeams(rows, teams[..t + 1]) == KeysOfTeams(rows, teams[..t]) + KeysOfTeam(rows, teams[t])
  {
    assert forall x :: x in teams[..t + 1] <==> x in teams[..t] || x == teams[t];
  }

  lemma {:induction false} KeysOfAllTeams(rows: seq<TeamFixture>, teams: seq<int>)
    requires forall t :: t in teams <==> exists i :: 0 <= i < |rows| && rows[i].teamId == t
    ensures KeysOfTeams(rows, teams) == TeamEvents(rows)
  {
  }

  lemma {:induction false} HorizonMapIsSpec(rows: seq<TeamFixture>, horizon: int, m: map<(int, int), HorizonStat>)
    requires m.Keys == TeamEvents(rows)
    requires HorizonEntriesOk(rows, horizon, m)
    ensures m == HorizonSpec(rows, horizon)
  {
  }

  lemma {:induction false} HorizonEntriesOkUpdate(rows: seq<TeamFixture>, horizon: int, m: map<(int, int), HorizonStat>,
                               k: (int, int), v: HorizonStat)
    requires HorizonEntriesOk(rows, horizon, m)
    requires v == HorizonEntry(EventStats(TeamRows(rows, k.0)), k.1, horizon)
    ensures HorizonEntriesOk(rows, horizon, m[k := v])
  {
  }

  /** One iteration of the team loop of `_build_horizon_map`: adds the entries
      of every event of `team`. */
  method AddTeamHorizon(m0: map<(int, int), HorizonStat>, rows: seq<TeamFixture>, team: int, horizon: int)
    returns (m: map<(int, int), HorizonStat>)
    requires HorizonEntriesOk(rows, horizon, m0)
    ensures HorizonEntriesOk(rows, horizon, m)
    ensures m.Keys == m0.Keys + KeysOfTeam(rows, team)
  {
    var stats := EventStats(TeamRows(rows, team));
    var allEvents := SortedEvents(rows, team);
    m := FillTeam(m0, team, stats, allEvents, horizon);
    TeamEntriesAreSpec(rows, horizon, m0, m, team);
  }

  /** The event loop of one team: one horizon entry per event of `es`. */
  method FillTeam(m0: map<(int, int), HorizonStat>, team: int, stats: map<int, EventStat>, es: seq<int>,
                  horizon: int)
    returns (m: map<(int, int), HorizonStat>)
    ensures m.Keys == m0.Keys + PairsWith(team, es)
    ensures TeamEntriesOk(m0, m, team, stats, horizon)
  {
    m := m0;
    for j := 0 to |es|
      invariant m.Keys == m0.Keys + PairsWith(team, es[..j])
      invariant TeamEntriesOk(m0, m, team, stats, horizon)
    {
      var event := es[j];
      var h := HorizonEntryAt(stats, event, horizon);
      m := m[(team, event) := h];
      PairsWithStep(team, es, j);
    }
    assert es[..|es|] == es;
  }

  /** Every entry of `m` is the one of `m0` or the horizon entry of a `team`
      event. */
  ghost predicate TeamEntriesOk(m0: map<(int, int), HorizonStat>, m: map<(int, int), HorizonStat>,
                                team: int, stats: map<int, EventStat>, horizon: int)
  {
    forall k :: k in m ==> (k in m0 && m[k] == m0[k]) || (k.0 == team && m[k] == HorizonEntry(stats, k.1, horizon))
  }

  lemma {:induction false} TeamEntriesAreSpec(rows: seq<TeamFixture>, horizon: int, m0: map<(int, int), HorizonStat>,
                           m: map<(int, int), HorizonStat>, team: int)
    requires HorizonEntriesOk(rows, horizon, m0)
    requires TeamEntriesOk(m0, m, team, EventStats(TeamRows(rows, team)), horizon)
    ensures HorizonEntriesOk(rows, horizon, m)
  {
  }

  /** The team's distinct events in ascending order. */
  function SortedEvents(rows: seq<TeamFixture>, team: int): (es: seq<int>)
    ensures SortedBy(es, EventKey)
    ensures PairsWith(team, es) == KeysOfTeam(rows, team)
  {
    var es := SortByKey(DistinctEvents(TeamRows(rows, team)), EventKey);
    SortedEventsAreTeamKeys(rows, team, es);
    es
  }

  /** The keys (team, e) for the events `e` of `es`. */
  function PairsWith(team: int, es: seq<int>): set<(int, int)>
  {
    if es == [] then {} else PairsWith(team, es[..|es| - 1]) + {(team, es[|es| - 1])}
  }

  lemma {:induction false} PairsWithMembers(team: int, es: seq<int>)
    ensures forall k :: k in PairsWith(team, es) <==> k.0 == team && k.1 in es
  {
    if es != [] {
      var es' := es[..|es| - 1];
      assert es == es' + [es[|es| - 1]];
      PairsWithMembers(team, es');
    }
  }

  lemma {:induction false} PairsWithStep(team: int, es: seq<int>, j: int)
    requires 0 <= j < |es|
    ensures PairsWith(team, es[..j + 1]) == PairsWith(team, es[..j]) + {(team, es[j])}
  {
    assert es[..j + 1][..j] == es[..j];
  }

  lemma {:induction false} SortedEventsAreTeamKeys(rows: seq<TeamFixture>, team: int, allEvents: seq<int>)
    requires allEvents == SortByKey(DistinctEvents(TeamRows(rows, team)), EventKey)
    ensures PairsWith(team, allEvents) == KeysOfTeam(rows, team)
  {
    var g := TeamRows(rows, team);
    assert forall e :: e in allEvents <==> e in DistinctEvents(g) by {
      forall e ensures e in allEvents <==> e in DistinctEvents(g) {
        assert e in allEvents <==> e in multiset(allEvents);
      }
    }
    TeamEventsOfTeam(rows, team, allEvents);
    PairsWithMembers(team, allEvents);
  }

  /** The body of the event loop of `_build_horizon_map`: the totals over the
      window and the fixture-weighted mean difficulty. */
  method HorizonEntryAt(stats: map<int, EventStat>, event: int, horizon: int) returns (h: HorizonStat)
    ensures h == HorizonEntry(stats, event, horizon)
  {
    var totals := WindowTotals(stats, event, IntMax(1, horizon));
    var totalFixtures, totalHome, weightedDiffSum := totals.fixtures, totals.home, totals.weightedDifficulty;
    var avgDifficulty := if totalFixtures > 0 then weightedDiffSum / (totalFixtures as real) else 0.0;
    h := HorizonStat(totalFixtures, avgDifficulty, totalHome);
  }

  /** The inner loop of `_build_horizon_map`: totals over the events
      `start .. start + width - 1`, skipping events without fixtures. */
  method WindowTotals(stats: map<int, EventStat>, start: int, width: nat) returns (t: Totals)
    ensures t == Window(stats, start, width)
  {
    var totalFixtures := 0;
    var totalHome := 0;
    var weightedDiffSum := 0.0;
    for c := start to start + width
      invariant Totals(totalFixtures, totalHome, weightedDiffSum) == Window(stats, start, c - start)
    {
      if c in stats {
        var s := stats[c];
        totalFixtures := totalFixtures + s.fixtureCount;
        totalHome := totalHome + s.homeCount;
        weightedDiffSum := weightedDiffSum + s.avgDifficulty * (s.fixtureCount as real);
      }
    }
    t := Totals(totalFixtures, totalHome, weightedDiffSum);
  }

  /** The events of a team's group are its (team, event) pairs. */
  lemma {:induction false} TeamEventsOfTeam(rows: seq<TeamFixture>, team: int, events: seq<int>)
    requires forall e :: e in events <==> e in EventsOf(TeamRows(rows, team))
    ensures forall e :: e in events <==> (team, e) in TeamEvents(rows)
  {
    var g := TeamRows(rows, team);
    forall e ensures e in events <==> (team, e) in TeamEvents(rows)
    {
      if e in events {
        var i :| 0 <= i < |g| && g[i].event == e;
        assert g[i] in g;
        var j :| 0 <= j < |rows| && rows[j] == g[i];
        assert (rows[j].teamId, rows[j].event) == (team, e);
      }
      if (team, e) in TeamEvents(rows) {
        var j :| 0 <= j < |rows| && (rows[j].teamId, rows[j].event) == (team, e);
        assert rows[j] in g;
        var i :| 0 <= i < |g| && g[i] == rows[j];
        assert e in EventsOf(g);
      }
    }
  }

}
