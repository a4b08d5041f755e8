/** The Understat export: choosing a player's current club from Understat's
    team list, mapping Understat club names to FPL short names, and the
    per-player rows of the override file. */
module Understat {
  import opened Common
  import opened Text
  import opened Ordering
  import Phase1

  // ---------------------------------------------------------------------------
  // Club of a player

  /** `choose_team`: the last of `[part.strip() for part in title.split(",")
      if part.strip()]` (the title of a player who moved lists the clubs in order), ""
      when the title is empty or every part is blank. */
  function ChooseTeam(title: string): string
  {
    if title == "" then ""
    else
      var teams := Filter(MapSeq(SplitOn(title, ','), StripOf()), NonEmptyOf());
      if teams == [] then "" else teams[|teams| - 1]
  }

  /** The last non-empty string, "" when there is none: a reference
      definition that scans from the end. */
  function LastNonEmpty(ss: seq<string>): string
  {
    if ss == [] then ""
    else if ss[|ss| - 1] != "" then ss[|ss| - 1]
    else LastNonEmpty(ss[..|ss| - 1])
  }

  /** Keeping the non-empty strings and taking the last agrees with the
      reference scan. */
  lemma {:induction false} FilterNonEmptyLast(ss: seq<string>)
    ensures Filter(ss, NonEmptyOf()) == [] <==> LastNonEmpty(ss) == ""
    ensures Filter(ss, NonEmptyOf()) != [] ==>
      Filter(ss, NonEmptyOf())[|Filter(ss, NonEmptyOf())| - 1] == LastNonEmpty(ss)
  {
    if ss != [] {
      FilterNonEmptyLast(ss[..|ss| - 1]);
    }
  }

  /** `LastNonEmpty` is "" exactly when every string is empty. */
  lemma {:induction false} LastNonEmptyNone(ss: seq<string>)
    ensures LastNonEmpty(ss) == "" <==> forall i :: 0 <= i < |ss| ==> ss[i] == ""
  {
    if ss != [] {
      var init := ss[..|ss| - 1];
      LastNonEmptyNone(init);
      assert forall i :: 0 <= i < |init| ==> init[i] == ss[i];
    }
  }

  /** The string `LastNonEmpty` picks is at some index after which every
      string is empty. */
  lemma {:induction false} LastNonEmptyIsLast(ss: seq<string>) returns (i: int)
    requires LastNonEmpty(ss) != ""
    ensures 0 <= i < |ss| && LastNonEmpty(ss) == ss[i]
    ensures forall j :: i < j < |ss| ==> ss[j] == ""
  {
    var init := ss[..|ss| - 1];
    if ss[|ss| - 1] != "" {
      i := |ss| - 1;
    } else {
      i := LastNonEmptyIsLast(init);
      assert forall j :: i < j < |init| ==> init[j] == ss[j];
    }
  }

  /** `choose_team` takes the last non-empty part after stripping. */
  lemma {:induction false} ChooseTeamIsLastNonEmpty(title: string)
    ensures ChooseTeam(title) == LastNonEmpty(MapSeq(SplitOn(title, ','), StripOf()))
  {
    var ss := MapSeq(SplitOn(title, ','), StripOf());
    FilterNonEmptyLast(ss);
    if title == "" {
      assert SplitOn(title, ',') == [""];
      assert ss == [Strip("")];
      StripChars("");
    }
  }

  /** The club is "" exactly when every part of the title is blank. */
  lemma {:induction false} ChooseTeamBlank(title: string)
    ensures ChooseTeam(title) == "" <==>
      forall i :: 0 <= i < |SplitOn(title, ',')| ==> Strip(SplitOn(title, ',')[i]) == ""
  {
    var parts := SplitOn(title, ',');
    ChooseTeamIsLastNonEmpty(title);
    MapSeqAt(parts, StripOf());
    LastNonEmptyNone(MapSeq(parts, StripOf()));
  }

  /** A club that is not "" is the stripped form of a part after which every
      part is blank. */
  lemma {:induction false} ChooseTeamIsLastPart(title: string) returns (i: int)
    requires ChooseTeam(title) != ""
    ensures 0 <= i < |SplitOn(title, ',')| && ChooseTeam(title) == Strip(SplitOn(title, ',')[i])
    ensures forall j :: i < j < |SplitOn(title, ',')| ==> Strip(SplitOn(title, ',')[j]) == ""
  {
    var parts := SplitOn(title, ',');
    ChooseTeamIsLastNonEmpty(title);
    MapSeqAt(parts, StripOf());
    i := LastNonEmptyIsLast(MapSeq(parts, StripOf()));
  }

  /** The club carries no comma and no surrounding whitespace. */
  lemma {:induction false} ChooseTeamClean(title: string)
    ensures ',' !in ChooseTeam(title)
    ensures Strip(ChooseTeam(title)) == ChooseTeam(title)
  {
    if ChooseTeam(title) == "" {
      StripChars("");
    } else {
      var i := ChooseTeamIsLastPart(title);
      var part := SplitOn(title, ',')[i];
      StripIdempotent(part);
      StripChars(part);
    }
  }

  // ---------------------------------------------------------------------------
  // Club names

  /** Understat and FPL spellings of the same clubs, both normalised. */
  const TeamAliases: map<string, string> := map[
    "man city" := "manchester city",
    "man utd" := "manchester united",
    "manchester city" := "man city",
    "manchester united" := "man utd",
    "spurs" := "tottenham hotspur",
    "tottenham" := "spurs",
    "tottenham hotspur" := "spurs",
    "wolves" := "wolverhampton wanderers",
    "wolverhampton wanderers" := "wolves",
    "nott'm forest" := "nottingham forest",
    "nottingham forest" := "nott'm forest",
    "newcastle" := "newcastle united",
    "newcastle united" := "newcastle",
    "brighton" := "brighton and hove albion"]

  /** Every alias names a club: none is the empty string. */
  lemma AliasTargetsNonEmpty()
    ensures "" !in TeamAliases.Values
  {
  }

  /** `map_understat_team_to_fpl_short`: the FPL short name of an Understat
      club, found directly by its normalised name or through its alias,
      otherwise the Understat name itself, stripped. */
  function MapUnderstatTeam(teamName: string, fplTeamMap: map<string, string>): (r: string)
    ensures NormalizeText(teamName) in fplTeamMap ==> r == fplTeamMap[NormalizeText(teamName)]
    ensures (NormalizeText(teamName) !in fplTeamMap && NormalizeText(teamName) in TeamAliases &&
             TeamAliases[NormalizeText(teamName)] in fplTeamMap) ==>
      r == fplTeamMap[TeamAliases[NormalizeText(teamName)]]
    ensures (NormalizeText(teamName) !in fplTeamMap &&
             !(NormalizeText(teamName) in TeamAliases && TeamAliases[NormalizeText(teamName)] in fplTeamMap)) ==>
      r == Strip(teamName)
    ensures r in fplTeamMap.Values || r == Strip(teamName)
  {
    var norm := NormalizeText(teamName);
    AliasTargetsNonEmpty();
    assert norm in TeamAliases ==> TeamAliases[norm] in TeamAliases.Values;
    if norm in fplTeamMap then fplTeamMap[norm]
    else if norm in TeamAliases && TeamAliases[norm] != "" && TeamAliases[norm] in fplTeamMap then
      fplTeamMap[TeamAliases[norm]]
    else Strip(teamName)
  }

  /** Spelling that normalises away (case, spacing) does not change the
      mapping. */
  lemma {:induction false} MapUnderstatTeamIgnoresSpelling(teamName: string, fplTeamMap: map<string, string>)
    requires NormalizeText(teamName) in fplTeamMap
    ensures MapUnderstatTeam(NormalizeText(teamName), fplTeamMap) == MapUnderstatTeam(teamName, fplTeamMap)
  {
    NormalizeTextIdempotent(teamName);
  }

  /** A club of the FPL feed: `short_name` and `name`, missing ones as "". */
  datatype FplTeam = FplTeam(shortName: string, name: string)

  /** The entries one FPL club adds to the name map. */
  function AddTeamNames(m: map<string, string>, team: FplTeam): map<string, string>
  {
    var short := Strip(team.shortName);
    var full := Strip(team.name);
    var m' := if short != "" then m[NormalizeText(short) := short] else m;
    if full != "" && short != "" then m'[NormalizeText(full) := short] else m'
  }

  /** The map `load_fpl_team_short_names` builds from the clubs of the feed. */
  function TeamShortNameMap(teams: seq<FplTeam>): map<string, string>
  {
    if teams == [] then map[] else AddTeamNames(TeamShortNameMap(teams[..|teams| - 1]), teams[|teams| - 1])
  }

  /** The map-building loop of `load_fpl_team_short_names`; fetching the
      feed is not part of the model. */
  method LoadFplTeamShortNames(teams: seq<FplTeam>) returns (byName: map<string, string>)
    ensures byName == TeamShortNameMap(teams)
  {
    byName := map[];
    for i := 0 to |teams|
      invariant byName == TeamShortNameMap(teams[..i])
    {
      assert teams[..i + 1][..i] == teams[..i];
      var shortName := Strip(teams[i].shortName);
      var fullName := Strip(teams[i].name);
      if shortName != "" {
        byName := byName[NormalizeText(shortName) := shortName];
      }
      if fullName != "" && shortName != "" {
        byName := byName[NormalizeText(fullName) := shortName];
      }
    }
    assert teams[..|teams|] == teams;
  }

  /** The stripped short names of the clubs, in feed order. */
  function ShortNames(teams: seq<FplTeam>): (r: seq<string>)
    ensures |r| == |teams|
  {
    if teams == [] then [] else ShortNames(teams[..|teams| - 1]) + [Strip(teams[|teams| - 1].shortName)]
  }

  /** Every key of the name map is normalised. */
  lemma {:induction false} TeamShortNameMapKeys(teams: seq<FplTeam>)
    ensures forall k :: k in TeamShortNameMap(teams) ==> Normalized(k)
  {
    if teams != [] {
      TeamShortNameMapKeys(teams[..|teams| - 1]);
    }
  }

  /** Adding one club keeps every earlier entry or maps to its non-empty
      short name. */
  lemma {:induction false} AddTeamNamesValues(m: map<string, string>, team: FplTeam)
    ensures forall k :: k in AddTeamNames(m, team) ==>
      (k in m && AddTeamNames(m, team)[k] == m[k]) ||
      (AddTeamNames(m, team)[k] == Strip(team.shortName) && Strip(team.shortName) != "")
  {
  }

  /** Every value of the name map is the non-empty short name of a club. */
  lemma {:induction false} TeamShortNameMapValues(teams: seq<FplTeam>)
    ensures forall k :: k in TeamShortNameMap(teams) ==>
      TeamShortNameMap(teams)[k] != "" && TeamShortNameMap(teams)[k] in ShortNames(teams)
  {
    if teams != [] {
      var init := teams[..|teams| - 1];
      var prev := TeamShortNameMap(init);
      TeamShortNameMapValues(init);
      AddTeamNamesValues(prev, teams[|teams| - 1]);
      assert ShortNames(teams) == ShortNames(init) + [Strip(teams[|teams| - 1].shortName)];
      forall k | k in TeamShortNameMap(teams)
        ensures TeamShortNameMap(teams)[k] != "" && TeamShortNameMap(teams)[k] in ShortNames(teams)
      {
        if k in prev && TeamShortNameMap(teams)[k] == prev[k] {
          assert prev[k] in ShortNames(init);
        }
      }
    }
  }

  /** The last club with a given non-empty short name can be found under
      that name in any spelling, and under its full name. */
  lemma {:induction false} TeamShortNameMapFindsLast(teams: seq<FplTeam>)
    requires teams != []
    requires Strip(teams[|teams| - 1].shortName) != ""
    ensures NormalizeText(Strip(teams[|teams| - 1].name)) in TeamShortNameMap(teams) ||
      Strip(teams[|teams| - 1].name) == ""
    ensures Strip(teams[|teams| - 1].name) != "" ==>
      TeamShortNameMap(teams)[NormalizeText(Strip(teams[|teams| - 1].name))] == Strip(teams[|teams| - 1].shortName)
    ensures NormalizeText(Strip(teams[|teams| - 1].shortName)) in TeamShortNameMap(teams)
  {
  }

  /** Through the FPL name map a club becomes an FPL short name, or stays the
      Understat name when neither it nor its alias is known. */
  lemma {:induction false} MappedTeamIsShortName(teamName: string, teams: seq<FplTeam>)
    ensures MapUnderstatTeam(teamName, TeamShortNameMap(teams)) == Strip(teamName) ||
      MapUnderstatTeam(teamName, TeamShortNameMap(teams)) in ShortNames(teams)
  {
    TeamShortNameMapValues(teams);
  }

  // ---------------------------------------------------------------------------
  // Rows

  /** A player of Understat's league data, with the numbers parsed. */
  datatype UnderstatPlayer = UnderstatPlayer(
    playerName: string,
    teamTitle: string,
    time: real,
    xG: real,
    xA: real)

  /** A row of the exported override file. */
  datatype UnderstatRow = UnderstatRow(
    player: string,
    team: string,
    xg90: real,
    xa90: real,
    minutesUnderstat: int,
    xgTotal: real,
    xaTotal: real,
    teamUnderstat: string)

  /** The row of one player. */
  function RowFor(p: UnderstatPlayer, fplTeamMap: map<string, string>): (r: UnderstatRow)
    ensures p.time <= 0.0 ==> r.xg90 == 0.0 && r.xa90 == 0.0
    ensures p.time > 0.0 ==> r.xg90 * p.time == 90.0 * p.xG && r.xa90 * p.time == 90.0 * p.xA
    ensures r.player == Strip(p.playerName)
    ensures r.teamUnderstat == ChooseTeam(Strip(p.teamTitle))
    ensures r.team == MapUnderstatTeam(r.teamUnderstat, fplTeamMap)
    ensures r.minutesUnderstat == TruncToInt(p.time)
    ensures r.xgTotal == p.xG && r.xaTotal == p.xA
  {
    var teamUnderstat := ChooseTeam(Strip(p.teamTitle));
    UnderstatRow(
      Strip(p.playerName),
      MapUnderstatTeam(teamUnderstat, fplTeamMap),
      Phase1.Per90(p.xG, p.time, 0.0),
      Phase1.Per90(p.xA, p.time, 0.0),
      TruncToInt(p.time),
      p.xG,
      p.xA,
      teamUnderstat)
  }

  function RowOf(fplTeamMap: map<string, string>): UnderstatPlayer -> UnderstatRow
  {
    p => RowFor(p, fplTeamMap)
  }

  /** The output order: team, then player name. */
  function RowKey(r: UnderstatRow): Key
  {
    [Str(r.team), Str(r.player)]
  }

  /** `build_rows`: one row per player, sorted by (team, player). */
  method BuildRows(players: seq<UnderstatPlayer>, fplTeamMap: map<string, string>)
    returns (rows: seq<UnderstatRow>)
    ensures rows == SortByKey(MapSeq(players, RowOf(fplTeamMap)), RowKey)
    ensures |rows| == |players|
    ensures multiset(rows) == multiset(MapSeq(players, RowOf(fplTeamMap)))
    ensures SortedBy(rows, RowKey)
  {
    var rowOf := RowOf(fplTeamMap);
    var built: seq<UnderstatRow> := [];
    for i := 0 to |players|
      invariant built == MapSeq(players[..i], rowOf)
    {
      built := built + [rowOf(players[i])];
      MapSeqStep(players, i, rowOf);
    }
    assert players[..|players|] == players;
    rows := SortByKey(built, RowKey);
  }
}
