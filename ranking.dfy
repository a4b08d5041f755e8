/** The position-grouped ranking of outfield players: candidate filtering,
    min-max normalisation per position, the weighted score and the top-N
    ranking with contiguous ranks. */
module Ranking {
  import opened Common
  import opened Text
  import opened Ordering

  /** A ranking candidate; the last five fields are filled in later, in place. */
  datatype Candidate = Candidate(
    player: string,
    team: string,
    position: string,
    price: real,
    nextOpponent: string,
    minutesAvg: real,
    xg90: real,
    xa90: real,
    attackRaw: real,
    minutesRaw: real,
    valueRaw: real,
    fixtureHome: int,
    attackNorm: real,
    minutesNorm: real,
    valueNorm: real,
    score: real,
    rankPosition: int)

  /** `parse_fixture_home`: 1 when the trimmed label ends with "(H)". */
  function ParseFixtureHome(nextOpponent: string): (r: int)
    ensures r == 0 || r == 1
    ensures r == 1 <==> EndsWith(Strip(nextOpponent), "(H)")
  {
    if EndsWith(Strip(nextOpponent), "(H)") then 1 else 0
  }

  /** Surrounding whitespace does not change the answer. */
  lemma {:induction false} ParseFixtureHomeIgnoresPadding(s: string)
    ensures ParseFixtureHome(Strip(s)) == ParseFixtureHome(s)
  {
    StripIdempotent(s);
  }

  /** The labels of the next-fixture step, "<opponent> (H)" and "<opponent> (A)",
      parse back to home and away whatever the opponent's name. */
  lemma {:induction false} ParseFixtureHomeOfLabel(opponent: string, side: char)
    ensures ParseFixtureHome(opponent + [' ', '(', side, ')']) == if side == 'H' then 1 else 0
  {
    var s := opponent + [' ', '(', side, ')'];
    StripKeepsTail(s, 3);
    var r := Strip(s);
    assert r[|r| - 3..] == ['(', side, ')'];
    if side == 'H' {
      assert r[|r| - 3..] == "(H)";
    } else {
      assert r[|r| - 2] != "(H)"[1];
    }
  }

  /** A label without an opening parenthesis, such as "TBD", is never home. */
  lemma {:induction false} ParseFixtureHomeNoParen(s: string)
    requires '(' !in s
    ensures ParseFixtureHome(s) == 0
  {
    StripChars(s);
    var r := Strip(s);
    if |r| >= 3 {
      assert r[|r| - 3] in r;
    }
  }

  // ---------------------------------------------------------------------------
  // Positions

  const Allowed: set<string> := {"GKP", "DEF", "MID", "FWD"}

  datatype PositionError = InvalidPosition(item: string) | NoPositions

  /** The trimmed, upper-cased, non-blank comma-separated items. */
  function PositionItems(parts: seq<string>): (items: seq<string>)
    ensures |items| <= |parts|
    ensures forall x :: x in items ==> x != []
  {
    if parts == [] then []
    else
      var rest := PositionItems(parts[..|parts| - 1]);
      var item := Strip(parts[|parts| - 1]);
      if item != [] then rest + [Upper(item)] else rest
  }

  /** The items are `[item.strip().upper() for item in parts if item.strip()]`:
      the parts stripped, the blank ones dropped, the rest upper-cased, in
      order. */
  lemma {:induction false} PositionItemsComprehension(parts: seq<string>)
    ensures PositionItems(parts) == MapSeq(Filter(MapSeq(parts, StripOf()), NonEmptyOf()), UpperOf())
  {
    if parts != [] {
      var init := parts[..|parts| - 1];
      var item := Strip(parts[|parts| - 1]);
      PositionItemsComprehension(init);
      var stripped := MapSeq(init, StripOf());
      assert MapSeq(parts, StripOf()) == stripped + [item];
      var kept := Filter(stripped, NonEmptyOf());
      assert (stripped + [item])[..|stripped|] == stripped;
      if item != [] {
        assert Filter(stripped + [item], NonEmptyOf()) == kept + [item];
        assert (kept + [item])[..|kept|] == kept;
        assert MapSeq(kept + [item], UpperOf()) == MapSeq(kept, UpperOf()) + [Upper(item)];
      } else {
        assert Filter(stripped + [item], NonEmptyOf()) == kept;
      }
    }
  }

  /** The items without repeats, each at its first occurrence. */
  function Dedup(items: seq<string>): (r: seq<string>)
    ensures forall x :: x in r <==> x in items
    ensures forall i, j :: 0 <= i < j < |r| ==> r[i] != r[j]
  {
    if items == [] then []
    else
      var items' := items[..|items| - 1];
      var last := items[|items| - 1];
      assert items == items' + [last];
      var r' := Dedup(items');
      if last in r' then r' else r' + [last]
  }

  /** The index of the first occurrence of `x`. */
  function FirstIndex(s: seq<string>, x: string): (k: nat)
    requires x in s
    ensures k < |s| && s[k] == x && x !in s[..k]
  {
    if s[0] == x then 0
    else
      var k' := FirstIndex(s[1..], x);
      assert s[..k' + 1] == [s[0]] + s[1..][..k'];
      k' + 1
  }

  /** Items after `a` do not move the first occurrence of an item of `a`. */
  lemma {:induction false} FirstIndexPrefix(a: seq<string>, b: seq<string>, x: string)
    requires x in a
    ensures FirstIndex(a + b, x) == FirstIndex(a, x)
  {
    if a[0] != x {
      assert (a + b)[1..] == a[1..] + b;
      FirstIndexPrefix(a[1..], b, x);
    }
  }

  /** De-duplication keeps first-occurrence order: of two results, the one
      listed first occurs first in the items. */
  lemma {:induction false} DedupOrder(items: seq<string>)
    ensures forall i, j :: 0 <= i < j < |Dedup(items)| ==>
      FirstIndex(items, Dedup(items)[i]) < FirstIndex(items, Dedup(items)[j])
  {
    if items != [] {
      var items' := items[..|items| - 1];
      var last := items[|items| - 1];
      assert items == items' + [last];
      var r' := Dedup(items');
      DedupOrder(items');
      forall x | x in items' ensures FirstIndex(items, x) == FirstIndex(items', x) {
        FirstIndexPrefix(items', [last], x);
      }
      if last !in r' {
        var r := Dedup(items);
        assert r == r' + [last];
        assert last !in items';
        var f := FirstIndex(items, last);
        assert f == |items| - 1;
        forall i, j | 0 <= i < j < |r|
          ensures FirstIndex(items, r[i]) < FirstIndex(items, r[j])
        {
          assert r[i] == r'[i];
          if j < |r'| { assert r[j] == r'[j]; }
        }
      }
    }
  }

  lemma {:induction false} DedupStep(items: seq<string>, k: int)
    requires 0 <= k < |items|
    ensures var d := Dedup(items[..k]);
      Dedup(items[..k + 1]) == if items[k] in d then d else d + [items[k]]
  {
    assert items[..k + 1][..k] == items[..k];
  }

  predicate AllAllowed(items: seq<string>)
  {
    forall j :: 0 <= j < |items| ==> items[j] in Allowed
  }

  /** `items[k]` is the first item that is not a position. */
  predicate FirstInvalid(items: seq<string>, k: int)
  {
    0 <= k < |items| && items[k] !in Allowed && AllAllowed(items[..k])
  }

  /** What `parse_positions` answers for the given items. */
  ghost predicate PositionsAnswer(items: seq<string>, r: Result<seq<string>, PositionError>)
  {
    && (r.Ok? <==> items != [] && AllAllowed(items))
    && (r.Ok? ==> r.value == Dedup(items) && r.value != [])
    && (r == Err(NoPositions) <==> items == [])
    && (r.Err? && items != [] ==> exists k :: FirstInvalid(items, k) && r.error == InvalidPosition(items[k]))
  }

  /** `parse_positions`: the requested positions in order without repeats; an
      error names the first item that is not a position, and an empty list is
      an error. */
  method ParsePositions(raw: string) returns (r: Result<seq<string>, PositionError>)
    ensures PositionsAnswer(PositionItems(SplitOn(raw, ',')), r)
  {
    var items := PositionItems(SplitOn(raw, ','));
    r := CheckPositions(items);
  }

  /** The loop of `parse_positions` over the cleaned items. */
  method CheckPositions(items: seq<string>) returns (r: Result<seq<string>, PositionError>)
    ensures PositionsAnswer(items, r)
  {
    var unique: seq<string> := [];
    for k := 0 to |items|
      invariant AllAllowed(items[..k])
      invariant unique == Dedup(items[..k])
    {
      var item := items[k];
      if item !in Allowed {
        assert FirstInvalid(items, k);
        assert !AllAllowed(items);
        return Err(InvalidPosition(item));
      }
      DedupStep(items, k);
      assert AllAllowed(items[..k + 1]) by {
        assert forall j :: 0 <= j < k ==> items[..k + 1][j] == items[..k][j];
      }
      if item !in unique {
        unique := unique + [item];
      }
    }
    assert items[..|items|] == items;
    if unique == [] {
      return Err(NoPositions);
    }
    return Ok(unique);
  }

  // ---------------------------------------------------------------------------
  // Normalisation and score

  function SeqMin(s: seq<real>): (m: real)
    requires s != []
    ensures m in s && forall i :: 0 <= i < |s| ==> m <= s[i]
  {
    if |s| == 1 then s[0]
    else
      var m' := SeqMin(s[..|s| - 1]);
      assert forall i :: 0 <= i < |s| - 1 ==> s[..|s| - 1][i] == s[i];
      Min(m', s[|s| - 1])
  }

  function SeqMax(s: seq<real>): (m: real)
    requires s != []
    ensures m in s && forall i :: 0 <= i < |s| ==> s[i] <= m
  {
    if |s| == 1 then s[0]
    else
      var m' := SeqMax(s[..|s| - 1]);
      assert forall i :: 0 <= i < |s| - 1 ==> s[..|s| - 1][i] == s[i];
      Max(m', s[|s| - 1])
  }

  /** The position of `v` within [lo, hi] as a fraction of the span. */
  function Scale(v: real, lo: real, hi: real): real
    requires lo < hi
  {
    (v - lo) / (hi - lo)
  }

  lemma {:induction false} ScaleFacts(v: real, w: real, lo: real, hi: real)
    requires lo < hi
    ensures lo <= v <= hi ==> 0.0 <= Scale(v, lo, hi) <= 1.0
    ensures Scale(lo, lo, hi) == 0.0 && Scale(hi, lo, hi) == 1.0
    ensures v < w ==> Scale(v, lo, hi) < Scale(w, lo, hi)
  {
    if lo <= v <= hi { DivBounds(v - lo, hi - lo, 0.0, 1.0); }
    if v < w { DivStrict(v - lo, w - lo, hi - lo); }
  }

  /** `minmax_normalize`: 0.5 everywhere when all values are equal, otherwise
      `(v - min) / (max - min)`. */
  function MinmaxNormalize(values: seq<real>): (r: seq<real>)
    ensures |r| == |values|
    ensures forall i :: 0 <= i < |r| ==> 0.0 <= r[i] <= 1.0
  {
    if values == [] then []
    else
      var lo, hi := SeqMin(values), SeqMax(values);
      if hi == lo then seq(|values|, _ => 0.5)
      else
        var r := seq(|values|, i requires 0 <= i < |values| => Scale(values[i], lo, hi));
        assert forall i :: 0 <= i < |values| ==> 0.0 <= r[i] <= 1.0 by {
          forall i | 0 <= i < |values| ensures 0.0 <= r[i] <= 1.0 {
            ScaleFacts(values[i], values[i], lo, hi);
          }
        }
        r
  }

  /** Equal values normalise to 0.5. */
  lemma {:induction false} MinmaxAllEqual(values: seq<real>, c: real)
    requires forall i :: 0 <= i < |values| ==> values[i] == c
    ensures forall i :: 0 <= i < |values| ==> MinmaxNormalize(values)[i] == 0.5
  {
  }

  lemma {:induction false} MinmaxExample()
    ensures MinmaxNormalize([2.0, 2.0, 2.0]) == [0.5, 0.5, 0.5]
  {
    MinmaxAllEqual([2.0, 2.0, 2.0], 2.0);
  }

  /** Unless all values are equal, a minimum maps to 0 and a maximum to 1, and
      the order of the values is kept. */
  lemma {:induction false} MinmaxEnds(values: seq<real>, i: int, j: int)
    requires 0 <= i < |values| && 0 <= j < |values|
    requires values[i] != values[j]
    ensures var r := MinmaxNormalize(values);
      && (values[i] == SeqMin(values) ==> r[i] == 0.0)
      && (values[i] == SeqMax(values) ==> r[i] == 1.0)
      && (values[i] < values[j] ==> r[i] < r[j])
  {
    var lo, hi := SeqMin(values), SeqMax(values);
    assert lo < hi;
    var r := MinmaxNormalize(values);
    assert r[i] == Scale(values[i], lo, hi) && r[j] == Scale(values[j], lo, hi);
    ScaleFacts(values[i], values[j], lo, hi);
  }

  lemma {:induction false} DivStrict(x: real, y: real, d: real)
    requires d > 0.0 && x < y
    ensures x / d < y / d
  {
    assert (y / d - x / d) * d == y - x;
  }

  /** `compute_weighted_score` before rounding. */
  function WeightedScore(attackNorm: real, minutesNorm: real, valueNorm: real, fixtureNorm: real,
                         wAttack: real, wMinutes: real, wValue: real, wFixture: real): real
  {
    wAttack * attackNorm + wMinutes * minutesNorm + wValue * valueNorm + wFixture * fixtureNorm
  }

  lemma {:induction false} WeightedScoreExample()
    ensures WeightedScore(0.8, 0.5, 0.6, 1.0, 0.50, 0.25, 0.20, 0.05) == 0.695
  {
  }

  /** With non-negative weights summing to 1 and signals in [0, 1], the score
      lies in [0, 1] and does not decrease when any signal grows. */
  lemma {:induction false} WeightedScoreBounds(a: real, m: real, v: real, f: real, wa: real, wm: real, wv: real, wf: real)
    requires 0.0 <= wa && 0.0 <= wm && 0.0 <= wv && 0.0 <= wf && wa + wm + wv + wf == 1.0
    requires 0.0 <= a <= 1.0 && 0.0 <= m <= 1.0 && 0.0 <= v <= 1.0 && 0.0 <= f <= 1.0
    ensures 0.0 <= WeightedScore(a, m, v, f, wa, wm, wv, wf) <= 1.0
  {
    var pa := MulUnit(wa, a);
    var pm := MulUnit(wm, m);
    var pv := MulUnit(wv, v);
    var pf := MulUnit(wf, f);
  }

  /** A weight times a signal in [0, 1] lies between 0 and the weight. */
  lemma {:induction false} MulUnit(w: real, x: real) returns (p: real)
    requires 0.0 <= w && 0.0 <= x <= 1.0
    ensures p == w * x
    ensures 0.0 <= p <= w
  {
    p := w * x;
  }

  lemma {:induction false} WeightedScoreMonotone(a: real, m: real, v: real, f: real, a': real, m': real, v': real, f': real,
                              wa: real, wm: real, wv: real, wf: real)
    requires 0.0 <= wa && 0.0 <= wm && 0.0 <= wv && 0.0 <= wf
    requires a <= a' && m <= m' && v <= v' && f <= f'
    ensures WeightedScore(a, m, v, f, wa, wm, wv, wf) <= WeightedScore(a', m', v', f', wa, wm, wv, wf)
  {
    assert wa * a <= wa * a' && wm * m <= wm * m' && wv * v <= wv * v' && wf * f <= wf * f';
  }

  // ---------------------------------------------------------------------------
  // Candidates

  /** A row of the phase-1 table with its numbers already parsed. */
  datatype InputRow = InputRow(
    player: string,
    team: string,
    position: string,
    price: real,
    nextOpponent: string,
    minutesAvg: real,
    xg90: real,
    xa90: real)

  /** The row passes the filters of `build_candidates`. */
  predicate Keeps(row: InputRow, positions: seq<string>, minMinutesAvg: real)
  {
    Upper(Strip(row.position)) in positions && row.minutesAvg >= minMinutesAvg && row.xg90 + row.xa90 > 0.0
  }

  /** Attack per unit of price, 0 for a non-positive price. */
  function ValueRaw(attack: real, price: real): (v: real)
    ensures price > 0.0 ==> v * price == attack
    ensures price <= 0.0 ==> v == 0.0
  {
    if price > 0.0 then attack / price else 0.0
  }

  /** The candidate built from a kept row. */
  function CandidateOf(row: InputRow): (c: Candidate)
    ensures c.position == Upper(Strip(row.position)) && c.price == row.price
    ensures c.minutesAvg == row.minutesAvg && c.xg90 == row.xg90 && c.xa90 == row.xa90
    ensures c.attackRaw == row.xg90 + 0.7 * row.xa90
    ensures c.player == Strip(row.player) && c.team == Strip(row.team)
    ensures c.nextOpponent == Strip(row.nextOpponent)
    ensures c.minutesRaw == Clamp(row.minutesAvg / 90.0, 0.0, 1.0) && 0.0 <= c.minutesRaw <= 1.0
    ensures c.valueRaw == ValueRaw(c.attackRaw, row.price)
    ensures c.fixtureHome == ParseFixtureHome(row.nextOpponent)
    ensures c.attackNorm == c.minutesNorm == c.valueNorm == c.score == 0.0 && c.rankPosition == 0
  {
    var attack := row.xg90 + 0.7 * row.xa90;
    Candidate(Strip(row.player), Strip(row.team), Upper(Strip(row.position)), row.price,
              Strip(row.nextOpponent), row.minutesAvg, row.xg90, row.xa90, attack,
              Clamp(row.minutesAvg / 90.0, 0.0, 1.0),
              ValueRaw(attack, row.price),
              ParseFixtureHome(row.nextOpponent), 0.0, 0.0, 0.0, 0.0, 0)
  }

  /** The candidates of the kept rows, in row order. */
  function CandidatesOf(rows: seq<InputRow>, positions: seq<string>, minMinutesAvg: real): seq<Candidate>
  {
    if rows == [] then []
    else
      var cs' := CandidatesOf(rows[..|rows| - 1], positions, minMinutesAvg);
      var row := rows[|rows| - 1];
      if Keeps(row, positions, minMinutesAvg) then cs' + [CandidateOf(row)] else cs'
  }

  /** Every candidate passed the filters of `build_candidates`. */
  lemma {:induction false} CandidatesOfSound(rows: seq<InputRow>, positions: seq<string>, minMinutesAvg: real)
    ensures |CandidatesOf(rows, positions, minMinutesAvg)| <= |rows|
    ensures forall c :: c in CandidatesOf(rows, positions, minMinutesAvg) ==>
      c.position in positions && c.minutesAvg >= minMinutesAvg && c.xg90 + c.xa90 > 0.0
  {
    if rows != [] {
      CandidatesOfSound(rows[..|rows| - 1], positions, minMinutesAvg);
    }
  }

  /** Every row that passes the filters has its candidate in the list. */
  lemma {:induction false} CandidatesOfComplete(rows: seq<InputRow>, positions: seq<string>, minMinutesAvg: real, i: int)
    requires 0 <= i < |rows| && Keeps(rows[i], positions, minMinutesAvg)
    ensures CandidateOf(rows[i]) in CandidatesOf(rows, positions, minMinutesAvg)
  {
    var rows' := rows[..|rows| - 1];
    if i < |rows'| {
      assert rows'[i] == rows[i];
      CandidatesOfComplete(rows', positions, minMinutesAvg, i);
    } else {
      var row := rows[|rows| - 1];
      assert Keeps(row, positions, minMinutesAvg);
      var cs' := CandidatesOf(rows', positions, minMinutesAvg);
      assert CandidatesOf(rows, positions, minMinutesAvg) == cs' + [CandidateOf(row)];
    }
  }

  /** `build_candidates`: one candidate per row that has a requested
      position, enough minutes and some attacking output. */
  method BuildCandidates(rows: seq<InputRow>, positions: seq<string>, minMinutesAvg: real)
    returns (candidates: seq<Candidate>)
    ensures candidates == CandidatesOf(rows, positions, minMinutesAvg)
  {
    candidates := [];
    for i := 0 to |rows|
      invariant candidates == CandidatesOf(rows[..i], positions, minMinutesAvg)
    {
      var row := rows[i];
      assert rows[..i + 1][..i] == rows[..i];
      var position := Upper(Strip(row.position));
      if position !in positions {
        continue;
      }
      if row.minutesAvg < minMinutesAvg {
        continue;
      }
      if row.xg90 + row.xa90 <= 0.0 {
        continue;
      }
      candidates := candidates + [CandidateOf(row)];
    }
    assert rows[..|rows|] == rows;
  }

  // ---------------------------------------------------------------------------
  // Grouping by position

  /** The candidates of one position in list order: the `grouped[position]`
      list that both the normalisation and the ranking build. */
  function Group(cs: seq<Candidate>, pos: string): seq<Candidate>
  {
    if cs == [] then []
    else
      var g := Group(cs[..|cs| - 1], pos);
      if cs[|cs| - 1].position == pos then g + [cs[|cs| - 1]] else g
  }

  lemma {:induction false} GroupFacts(cs: seq<Candidate>, pos: string)
    ensures |Group(cs, pos)| <= |cs|
    ensures forall c :: c in Group(cs, pos) <==> c in cs && c.position == pos
  {
    if cs != [] {
      var cs' := cs[..|cs| - 1];
      GroupFacts(cs', pos);
      assert cs == cs' + [cs[|cs| - 1]];
    }
  }

  lemma {:induction false} GroupAppend(a: seq<Candidate>, b: seq<Candidate>, pos: string)
    ensures Group(a + b, pos) == Group(a, pos) + Group(b, pos)
    decreases |b|
  {
    if b == [] {
      assert a + b == a;
    } else {
      var b' := b[..|b| - 1];
      assert (a + b)[..|a + b| - 1] == a + b';
      GroupAppend(a, b', pos);
    }
  }

  /** Grouping a list whose candidates all share one position. */
  lemma {:induction false} GroupOfOnePosition(cs: seq<Candidate>, q: string, pos: string)
    requires forall i :: 0 <= i < |cs| ==> cs[i].position == q
    ensures Group(cs, pos) == if q == pos then cs else []
  {
    if cs != [] {
      var cs' := cs[..|cs| - 1];
      GroupOfOnePosition(cs', q, pos);
      assert cs == cs' + [cs[|cs| - 1]];
    }
  }

  /** The indices of one position's candidates, in increasing order. */
  function IndicesOf(cs: seq<Candidate>, pos: string): (idx: seq<int>)
    ensures forall k :: 0 <= k < |idx| ==> 0 <= idx[k] < |cs|
  {
    if cs == [] then []
    else
      var idx := IndicesOf(cs[..|cs| - 1], pos);
      if cs[|cs| - 1].position == pos then idx + [|cs| - 1] else idx
  }

  lemma {:induction false} IndicesOfPositions(cs: seq<Candidate>, pos: string)
    ensures forall k :: 0 <= k < |IndicesOf(cs, pos)| ==> cs[IndicesOf(cs, pos)[k]].position == pos
  {
    if cs != [] {
      var cs' := cs[..|cs| - 1];
      IndicesOfPositions(cs', pos);
      var idx' := IndicesOf(cs', pos);
      assert forall k :: 0 <= k < |idx'| ==> cs[idx'[k]] == cs'[idx'[k]];
      assert IndicesOf(cs, pos) == if cs[|cs| - 1].position == pos then idx' + [|cs| - 1] else idx';
    }
  }

  lemma {:induction false} IndicesOfIncreasing(cs: seq<Candidate>, pos: string)
    ensures forall k, l :: 0 <= k < l < |IndicesOf(cs, pos)| ==> IndicesOf(cs, pos)[k] < IndicesOf(cs, pos)[l]
  {
    if cs != [] {
      var cs' := cs[..|cs| - 1];
      IndicesOfIncreasing(cs', pos);
      var idx' := IndicesOf(cs', pos);
      var idx := IndicesOf(cs, pos);
      assert idx == if cs[|cs| - 1].position == pos then idx' + [|cs| - 1] else idx';
      forall k, l | 0 <= k < l < |idx| ensures idx[k] < idx[l] {
        if l < |idx'| {
          assert idx[k] == idx'[k] && idx[l] == idx'[l];
        } else {
          assert idx[k] == idx'[k] && idx'[k] < |cs'| && idx[l] == |cs'|;
        }
      }
    }
  }

  lemma {:induction false} IndicesOfComplete(cs: seq<Candidate>, pos: string)
    ensures forall i :: 0 <= i < |cs| && cs[i].position == pos ==> i in IndicesOf(cs, pos)
  {
    if cs != [] {
      var cs' := cs[..|cs| - 1];
      IndicesOfComplete(cs', pos);
      assert forall i :: 0 <= i < |cs'| ==> cs'[i] == cs[i];
    }
  }

  /** The indices depend on the positions alone. */
  lemma {:induction false} IndicesOfSamePositions(cs: seq<Candidate>, ds: seq<Candidate>, pos: string)
    requires |cs| == |ds|
    requires forall i :: 0 <= i < |cs| ==> cs[i].position == ds[i].position
    ensures IndicesOf(cs, pos) == IndicesOf(ds, pos)
  {
    if cs != [] {
      IndicesOfSamePositions(cs[..|cs| - 1], ds[..|ds| - 1], pos);
    }
  }

  /** The candidates at the given indices. */
  function Gather(cs: seq<Candidate>, idx: seq<int>): (g: seq<Candidate>)
    requires forall k :: 0 <= k < |idx| ==> 0 <= idx[k] < |cs|
  {
    seq(|idx|, k requires 0 <= k < |idx| => cs[idx[k]])
  }

  /** The candidates at a position's indices are that position's group. */
  lemma {:induction false} GatherIndices(cs: seq<Candidate>, pos: string)
    ensures Gather(cs, IndicesOf(cs, pos)) == Group(cs, pos)
  {
    if cs != [] {
      var cs' := cs[..|cs| - 1];
      GatherIndices(cs', pos);
      var idx' := IndicesOf(cs', pos);
      assert Gather(cs, idx') == Gather(cs', idx');
    }
  }

  /** The loop that collects a position's group, kept as indices into the
      candidate list so that the group's entries can be updated in place. */
  method GroupIndices(a: array<Candidate>, pos: string) returns (idx: seq<int>)
    ensures idx == IndicesOf(a[..], pos)
  {
    idx := [];
    for i := 0 to a.Length
      invariant idx == IndicesOf(a[..i], pos)
    {
      assert a[..i + 1][..i] == a[..i];
      if a[i].position == pos {
        idx := idx + [i];
      }
    }
    assert a[..a.Length] == a[..];
  }

  // ---------------------------------------------------------------------------
  // Normalisation by position

  datatype Signal = Attack | Minutes | Value

  function RawOf(c: Candidate, signal: Signal): real
  {
    match signal
    case Attack => c.attackRaw
    case Minutes => c.minutesRaw
    case Value => c.valueRaw
  }

  function Raws(g: seq<Candidate>, signal: Signal): (r: seq<real>)
    ensures |r| == |g|
  {
    seq(|g|, k requires 0 <= k < |g| => RawOf(g[k], signal))
  }

  /** The two candidates agree on everything but the three normalised signals. */
  predicate SameBase(c: Candidate, d: Candidate)
  {
    c.(attackNorm := 0.0, minutesNorm := 0.0, valueNorm := 0.0)
      == d.(attackNorm := 0.0, minutesNorm := 0.0, valueNorm := 0.0)
  }

  /** The k-th member of the group of `pos` in `s0` carries, in `s`, the k-th
      min-max normalised value of each signal over that group. */
  ghost predicate NormsAt(s: seq<Candidate>, s0: seq<Candidate>, pos: string, k: int)
    requires |s| == |s0| && 0 <= k < |IndicesOf(s0, pos)|
  {
    var idx := IndicesOf(s0, pos);
    var g := Gather(s0, idx);
    && s[idx[k]].attackNorm == MinmaxNormalize(Raws(g, Attack))[k]
    && s[idx[k]].minutesNorm == MinmaxNormalize(Raws(g, Minutes))[k]
    && s[idx[k]].valueNorm == MinmaxNormalize(Raws(g, Value))[k]
  }

  /** `normalize_by_position`: every candidate of a requested position gets
      the min-max normalisation of its attack, minutes and value signals
      within its position group; nothing else changes. */
  method NormalizeByPosition(a: array<Candidate>, positions: seq<string>)
    modifies a
    ensures forall i :: 0 <= i < a.Length ==> SameBase(a[i], old(a[i]))
    ensures forall i :: 0 <= i < a.Length && old(a[i]).position !in positions ==> a[i] == old(a[i])
    ensures forall q, k :: q in positions && 0 <= k < |IndicesOf(old(a[..]), q)| ==> NormsAt(a[..], old(a[..]), q, k)
  {
    ghost var s0 := a[..];
    for p := 0 to |positions|
      invariant forall i :: 0 <= i < a.Length ==> SameBase(a[i], s0[i])
      invariant forall i :: 0 <= i < a.Length && s0[i].position !in positions[..p] ==> a[i] == s0[i]
      invariant forall q, k :: q in positions[..p] && 0 <= k < |IndicesOf(s0, q)| ==> NormsAt(a[..], s0, q, k)
    {
      var pos := positions[p];
      ghost var before := a[..];
      NormalizeGroup(a, pos, s0);
      forall q, k | q in positions[..p + 1] && 0 <= k < |IndicesOf(s0, q)|
        ensures NormsAt(a[..], s0, q, k)
      {
        if q != pos {
          assert q in positions[..p];
          IndicesOfPositions(s0, q);
          NormsAtFrame(before, a[..], s0, q, k);
        }
      }
    }
    assert positions[..|positions|] == positions;
  }

  /** NormsAt survives any change that leaves the candidate it is about alone. */
  lemma {:induction false} NormsAtFrame(s: seq<Candidate>, s': seq<Candidate>, s0: seq<Candidate>, pos: string, k: int)
    requires |s| == |s'| == |s0| && 0 <= k < |IndicesOf(s0, pos)|
    requires NormsAt(s, s0, pos, k)
    requires s'[IndicesOf(s0, pos)[k]] == s[IndicesOf(s0, pos)[k]]
    ensures NormsAt(s', s0, pos, k)
  {
  }

  /** Candidates that differ only in their normalised signals form the same
      groups with the same raw signals. */
  lemma {:induction false} GroupRaws(s: seq<Candidate>, s0: seq<Candidate>, pos: string)
    requires |s| == |s0|
    requires forall i :: 0 <= i < |s| ==> SameBase(s[i], s0[i])
    ensures IndicesOf(s, pos) == IndicesOf(s0, pos)
    ensures forall i :: 0 <= i < |s| && s[i].position != pos ==> i !in IndicesOf(s0, pos)
    ensures forall sig: Signal :: Raws(Gather(s, IndicesOf(s0, pos)), sig) == Raws(Gather(s0, IndicesOf(s0, pos)), sig)
  {
    assert forall i :: 0 <= i < |s| ==> s[i].position == s0[i].position;
    IndicesOfSamePositions(s, s0, pos);
    IndicesOfPositions(s0, pos);
    var idx := IndicesOf(s0, pos);
    forall sig: Signal ensures Raws(Gather(s, idx), sig) == Raws(Gather(s0, idx), sig) {
      assert forall k :: 0 <= k < |idx| ==> RawOf(s[idx[k]], sig) == RawOf(s0[idx[k]], sig);
    }
  }

  /** One pass of the loop of `normalize_by_position`: the group of `pos`
      is normalised and written back. */
  method NormalizeGroup(a: array<Candidate>, pos: string, ghost s0: seq<Candidate>)
    requires a.Length == |s0|
    requires forall i :: 0 <= i < a.Length ==> SameBase(a[i], s0[i])
    modifies a
    ensures forall i :: 0 <= i < a.Length ==> SameBase(a[i], s0[i])
    ensures forall i :: 0 <= i < a.Length && a[i].position != pos ==> a[i] == old(a[i])
    ensures forall k :: 0 <= k < |IndicesOf(s0, pos)| ==> NormsAt(a[..], s0, pos, k)
  {
    var idx := GroupIndices(a, pos);
    GroupRaws(a[..], s0, pos);
    IndicesOfIncreasing(s0, pos);
    if idx == [] {
      return;
    }
    var group := Gather(a[..], idx);
    var attackNorms := MinmaxNormalize(Raws(group, Attack));
    var minutesNorms := MinmaxNormalize(Raws(group, Minutes));
    var valueNorms := MinmaxNormalize(Raws(group, Value));
    WriteNorms(a, idx, attackNorms, minutesNorms, valueNorms);
  }

  /** The inner loop of `normalize_by_position`: the k-th member of the group
      receives the k-th normalised value of each signal. */
  method WriteNorms(a: array<Candidate>, idx: seq<int>, attackNorms: seq<real>, minutesNorms: seq<real>,
                    valueNorms: seq<real>)
    requires |attackNorms| == |minutesNorms| == |valueNorms| == |idx|
    requires forall k :: 0 <= k < |idx| ==> 0 <= idx[k] < a.Length
    requires forall k, l :: 0 <= k < l < |idx| ==> idx[k] < idx[l]
    modifies a
    ensures forall i :: 0 <= i < a.Length ==> SameBase(a[i], old(a[i]))
    ensures forall i :: 0 <= i < a.Length && i !in idx ==> a[i] == old(a[i])
    ensures forall l :: 0 <= l < |idx| ==>
      && a[idx[l]].attackNorm == attackNorms[l]
      && a[idx[l]].minutesNorm == minutesNorms[l]
      && a[idx[l]].valueNorm == valueNorms[l]
  {
    for k := 0 to |idx|
      invariant forall i :: 0 <= i < a.Length ==> SameBase(a[i], old(a[i]))
      invariant forall i :: 0 <= i < a.Length && i !in idx[..k] ==> a[i] == old(a[i])
      invariant forall l :: 0 <= l < k ==>
        && a[idx[l]].attackNorm == attackNorms[l]
        && a[idx[l]].minutesNorm == minutesNorms[l]
        && a[idx[l]].valueNorm == valueNorms[l]
    {
      var i := idx[k];
      a[i] := a[i].(attackNorm := attackNorms[k], minutesNorm := minutesNorms[k], valueNorm := valueNorms[k]);
      assert idx[..k + 1] == idx[..k] + [i];
    }
    assert idx[..|idx|] == idx;
  }

  // ---------------------------------------------------------------------------
  // Scores and ranking

  /** The four weights of `compute_weighted_score`. */
  datatype Weights = Weights(attack: real, minutes: real, value: real, fixture: real)

  function ScoreOf(c: Candidate, w: Weights): real
  {
    WeightedScore(c.attackNorm, c.minutesNorm, c.valueNorm, c.fixtureHome as real,
                  w.attack, w.minutes, w.value, w.fixture)
  }

  /** The candidates once the first loop of `rank_candidates` has set every score. */
  function Scored(cs: seq<Candidate>, w: Weights): seq<Candidate>
  {
    seq(|cs|, i requires 0 <= i < |cs| => cs[i].(score := ScoreOf(cs[i], w)))
  }

  /** The sort key: score and value descending, then price ascending, then
      player and team names. */
  function RankKey(c: Candidate): Key
  {
    [Num(-c.score), Num(-c.valueRaw), Num(c.price), Str(c.player), Str(c.team)]
  }

  /** The length of `group[:max(0, topN)]` for a group of n candidates. */
  function TopCount(topN: int, n: nat): (r: nat)
    ensures r <= n && r <= IntMax(0, topN)
    ensures r == n || r == IntMax(0, topN)
  {
    if topN <= 0 then 0 else if topN < n then topN else n
  }

  /** The first n candidates of `sorted`, numbered from 1. */
  function Numbered(sorted: seq<Candidate>, n: nat): (r: seq<Candidate>)
    requires n <= |sorted|
  {
    seq(n, k requires 0 <= k < n => sorted[k].(rankPosition := k + 1))
  }

  lemma {:induction false} NumberedStep(sorted: seq<Candidate>, n: nat)
    requires n < |sorted|
    ensures Numbered(sorted, n + 1) == Numbered(sorted, n) + [sorted[n].(rankPosition := n + 1)]
  {
  }

  /** The ranked rows of one position: the best `topN` of its group in key
      order, numbered from 1. */
  function RankedGroup(cs: seq<Candidate>, pos: string, topN: int): seq<Candidate>
  {
    var sorted := SortByKey(Group(cs, pos), RankKey);
    Numbered(sorted, TopCount(topN, |sorted|))
  }

  /** The `ranked` list: the ranked rows of each requested position in turn. */
  function RankedOver(cs: seq<Candidate>, positions: seq<string>, topN: int): seq<Candidate>
  {
    if positions == [] then []
    else RankedOver(cs, positions[..|positions| - 1], topN) + RankedGroup(cs, positions[|positions| - 1], topN)
  }

  /** The `rows_by_position` dictionary. */
  function RowsByPosition(cs: seq<Candidate>, positions: seq<string>, topN: int): map<string, int>
  {
    if positions == [] then map[]
    else
      var last := positions[|positions| - 1];
      RowsByPosition(cs, positions[..|positions| - 1], topN)[last := |RankedGroup(cs, last, topN)|]
  }

  /** One more position adds its group behind the rows so far and records
      its row count. */
  lemma {:induction false} RankedOverStep(cs: seq<Candidate>, positions: seq<string>, p: nat, topN: int)
    requires p < |positions|
    ensures RankedOver(cs, positions[..p + 1], topN)
         == RankedOver(cs, positions[..p], topN) + RankedGroup(cs, positions[p], topN)
    ensures RowsByPosition(cs, positions[..p + 1], topN)
         == RowsByPosition(cs, positions[..p], topN)[positions[p] := |RankedGroup(cs, positions[p], topN)|]
  {
    assert positions[..p + 1][..p] == positions[..p];
  }

  /** `rank_candidates`: scores every candidate in place, then ranks each
      requested position's group. */
  method RankCandidates(a: array<Candidate>, positions: seq<string>, topN: int, w: Weights)
    returns (ranked: seq<Candidate>, rowsByPosition: map<string, int>)
    modifies a
    ensures a[..] == Scored(old(a[..]), w)
    ensures ranked == RankedOver(a[..], positions, topN)
    ensures rowsByPosition == RowsByPosition(a[..], positions, topN)
  {
    ScoreAll(a, w);
    ranked, rowsByPosition := RankPositions(a, positions, topN);
  }

  /** The position loop of `rank_candidates`. */
  method RankPositions(a: array<Candidate>, positions: seq<string>, topN: int)
    returns (ranked: seq<Candidate>, rowsByPosition: map<string, int>)
    ensures ranked == RankedOver(a[..], positions, topN)
    ensures rowsByPosition == RowsByPosition(a[..], positions, topN)
  {
    ranked := [];
    rowsByPosition := map[];
    for p := 0 to |positions|
      invariant ranked == RankedOver(a[..], positions[..p], topN)
      invariant rowsByPosition == RowsByPosition(a[..], positions[..p], topN)
    {
      var pos := positions[p];
      var top := RankGroup(a, pos, topN);
      RankedOverStep(a[..], positions, p, topN);
      ranked := ranked + top;
      rowsByPosition := rowsByPosition[pos := |top|];
    }
    assert positions[..|positions|] == positions;
  }

  /** The first loop of `rank_candidates`. */
  method ScoreAll(a: array<Candidate>, w: Weights)
    modifies a
    ensures a[..] == Scored(old(a[..]), w)
  {
    ghost var s0 := a[..];
    for i := 0 to a.Length
      invariant forall j :: 0 <= j < i ==> a[j] == s0[j].(score := ScoreOf(s0[j], w))
      invariant forall j :: i <= j < a.Length ==> a[j] == s0[j]
    {
      a[i] := a[i].(score := ScoreOf(a[i], w));
    }
    assert forall j :: 0 <= j < a.Length ==> a[..][j] == Scored(s0, w)[j];
  }

  /** One pass of the position loop of `rank_candidates`: sort the group,
      keep the first `topN` and number them from 1. */
  method RankGroup(a: array<Candidate>, pos: string, topN: int) returns (top: seq<Candidate>)
    ensures top == RankedGroup(a[..], pos, topN)
  {
    var idx := GroupIndices(a, pos);
    GatherIndices(a[..], pos);
    var sorted := SortByKey(Gather(a[..], idx), RankKey);
    var n := TopCount(topN, |sorted|);
    top := [];
    for k := 0 to n
      invariant top == Numbered(sorted, k)
    {
      NumberedStep(sorted, k);
      top := top + [sorted[k].(rankPosition := k + 1)];
    }
  }

  // ---------------------------------------------------------------------------
  // Properties of the ranking

  /** Setting the rank leaves the sort key unchanged. */
  lemma {:induction false} RankKeyIgnoresRank(c: Candidate, n: int)
    ensures RankKey(c.(rankPosition := n)) == RankKey(c)
  {
  }

  /** Numbering a sorted permutation of the group of `pos`: the rows keep
      the group's position, are numbered 1, 2, ... and stay in key order. */
  lemma {:induction false} NumberedFacts(g: seq<Candidate>, sorted: seq<Candidate>, n: nat, pos: string)
    requires forall c :: c in g ==> c.position == pos
    requires multiset(sorted) == multiset(g) && SortedBy(sorted, RankKey)
    requires n <= |sorted|
    ensures |Numbered(sorted, n)| == n
    ensures forall k :: 0 <= k < n ==>
      && Numbered(sorted, n)[k].rankPosition == k + 1
      && Numbered(sorted, n)[k].position == pos
      && exists c :: c in g && Numbered(sorted, n)[k] == c.(rankPosition := k + 1)
    ensures SortedBy(Numbered(sorted, n), RankKey)
  {
    var r := Numbered(sorted, n);
    forall k | 0 <= k < n
      ensures r[k].position == pos && exists c :: c in g && r[k] == c.(rankPosition := k + 1)
    {
      assert sorted[k] in multiset(g);
    }
    NumberedSorted(sorted, n);
  }

  /** Numbering keeps the key order. */
  lemma {:induction false} NumberedSorted(sorted: seq<Candidate>, n: nat)
    requires SortedBy(sorted, RankKey) && n <= |sorted|
    ensures SortedBy(Numbered(sorted, n), RankKey)
  {
    var r := Numbered(sorted, n);
    forall i, j | 0 <= i < j < n ensures KeyLeq(RankKey(r[i]), RankKey(r[j])) {
      RankKeyIgnoresRank(sorted[i], i + 1);
      RankKeyIgnoresRank(sorted[j], j + 1);
    }
  }

  /** The ranked rows of a position are candidates of that position, numbered
      1, 2, ... in key order, and there are min(max(0, topN), group size) of them. */
  lemma {:induction false} RankedGroupFacts(cs: seq<Candidate>, pos: string, topN: int)
    ensures |RankedGroup(cs, pos, topN)| == TopCount(topN, |Group(cs, pos)|)
    ensures forall k :: 0 <= k < |RankedGroup(cs, pos, topN)| ==>
      && RankedGroup(cs, pos, topN)[k].rankPosition == k + 1
      && RankedGroup(cs, pos, topN)[k].position == pos
      && exists c :: c in Group(cs, pos) && RankedGroup(cs, pos, topN)[k] == c.(rankPosition := k + 1)
    ensures SortedBy(RankedGroup(cs, pos, topN), RankKey)
  {
    var g := Group(cs, pos);
    GroupFacts(cs, pos);
    var sorted := SortByKey(g, RankKey);
    NumberedFacts(g, sorted, TopCount(topN, |sorted|), pos);
  }

  /** No candidate of the group with a strictly better key than a ranked row
      is left out: it is ranked ahead of that row. */
  lemma {:induction false} RankedGroupIsTop(cs: seq<Candidate>, pos: string, topN: int, c: Candidate, k: int)
    requires c in Group(cs, pos) && 0 <= k < |RankedGroup(cs, pos, topN)|
    requires KeyLess(RankKey(c), RankKey(RankedGroup(cs, pos, topN)[k]))
    ensures exists j :: 0 <= j < k && RankedGroup(cs, pos, topN)[j] == c.(rankPosition := j + 1)
  {
    var sorted := SortByKey(Group(cs, pos), RankKey);
    var n := TopCount(topN, |sorted|);
    assert RankedGroup(cs, pos, topN) == Numbered(sorted, n);
    var l := IndexOf(sorted, c);
    assert Numbered(sorted, n)[k] == sorted[k].(rankPosition := k + 1);
    RankKeyIgnoresRank(sorted[k], k + 1);
    SortedStrictlyBefore(sorted, RankKey, l, k);
    assert Numbered(sorted, n)[l] == c.(rankPosition := l + 1);
  }

  /** Some index at which `x` occurs in `s`. */
  lemma {:induction false} IndexOf<T>(s: seq<T>, x: T) returns (l: int)
    requires x in multiset(s)
    ensures 0 <= l < |s| && s[l] == x
  {
    assert x in s;
    l :| 0 <= l < |s| && s[l] == x;
  }

  /** A key is never strictly below one it is at most. */
  lemma {:induction false} KeyLeqAntisymmetricStrict(a: Key, b: Key)
    requires KeyLeq(a, b)
    ensures !KeyLess(b, a)
  {
    if KeyLess(b, a) {
      KeyLeqAntisymmetric(a, b);
      KeyLessIrreflexive(a);
    }
  }

  /** Every ranked row has a requested position and a rank of at least 1. */
  lemma {:induction false} RankedOverFacts(cs: seq<Candidate>, positions: seq<string>, topN: int)
    ensures forall c :: c in RankedOver(cs, positions, topN) ==> c.position in positions && c.rankPosition >= 1
  {
    if positions != [] {
      var ps' := positions[..|positions| - 1];
      var last := positions[|positions| - 1];
      RankedOverFacts(cs, ps', topN);
      RankedGroupFacts(cs, last, topN);
      var rg := RankedGroup(cs, last, topN);
      forall c | c in rg ensures c.position == last && c.rankPosition >= 1 {
        var k :| 0 <= k < |rg| && rg[k] == c;
      }
    }
  }

  /** `rows_by_position` has one entry per requested position, holding the
      number of rows ranked for it, at most max(0, topN). */
  lemma {:induction false} RowsByPositionFacts(cs: seq<Candidate>, positions: seq<string>, topN: int)
    ensures forall p :: p in RowsByPosition(cs, positions, topN) <==> p in positions
    ensures forall p :: p in positions ==>
      && RowsByPosition(cs, positions, topN)[p] == |RankedGroup(cs, p, topN)|
      && RowsByPosition(cs, positions, topN)[p] <= IntMax(0, topN)
  {
    if positions != [] {
      RowsByPositionFacts(cs, positions[..|positions| - 1], topN);
      RankedGroupFacts(cs, positions[|positions| - 1], topN);
    }
  }

  /** Selecting a position from one position's ranked rows keeps all or none. */
  lemma {:induction false} GroupOfRankedGroup(cs: seq<Candidate>, q: string, topN: int, pos: string)
    ensures Group(RankedGroup(cs, q, topN), pos) == if q == pos then RankedGroup(cs, q, topN) else []
  {
    RankedGroupFacts(cs, q, topN);
    GroupOfOnePosition(RankedGroup(cs, q, topN), q, pos);
  }

  /** The last of distinct positions does not occur before it. */
  lemma {:induction false} DistinctLast(positions: seq<string>)
    requires positions != []
    requires forall i, j :: 0 <= i < j < |positions| ==> positions[i] != positions[j]
    ensures positions[|positions| - 1] !in positions[..|positions| - 1]
    ensures var init := positions[..|positions| - 1];
      forall i, j :: 0 <= i < j < |init| ==> init[i] != init[j]
  {
    var init := positions[..|positions| - 1];
    forall i, j | 0 <= i < j < |init| ensures init[i] != init[j] {
      assert init[i] == positions[i] && init[j] == positions[j];
    }
  }

  /** With distinct requested positions, the rows of the `ranked` list that
      have a given position are exactly that position's ranked group. */
  lemma {:induction false} RankedPerPosition(cs: seq<Candidate>, positions: seq<string>, topN: int, pos: string)
    requires forall i, j :: 0 <= i < j < |positions| ==> positions[i] != positions[j]
    ensures Group(RankedOver(cs, positions, topN), pos) == if pos in positions then RankedGroup(cs, pos, topN) else []
  {
    if positions != [] {
      var ps' := positions[..|positions| - 1];
      var last := positions[|positions| - 1];
      var before := RankedOver(cs, ps', topN);
      var here := RankedGroup(cs, last, topN);
      assert RankedOver(cs, positions, topN) == before + here;
      DistinctLast(positions);
      RankedPerPosition(cs, ps', topN, pos);
      GroupAppend(before, here, pos);
      GroupOfRankedGroup(cs, last, topN, pos);
      InInit(positions);
      if pos == last {
        assert Group(before, pos) == [];
        assert [] + here == here;
      } else {
        assert Group(here, pos) == [];
        assert Group(before, pos) + [] == Group(before, pos);
      }
    }
  }

  /** What the output checks of the ranking step demand: for each requested
      position, its rows in the output carry ranks 1, 2, ... without gaps, are
      in key order, number at most max(0, topN), and that number is the one
      `rows_by_position` reports. */
  lemma {:induction false} RankedOutputChecks(cs: seq<Candidate>, positions: seq<string>, topN: int, pos: string)
    requires forall i, j :: 0 <= i < j < |positions| ==> positions[i] != positions[j]
    requires pos in positions
    ensures var rows := Group(RankedOver(cs, positions, topN), pos);
      && (forall k :: 0 <= k < |rows| ==> rows[k].rankPosition == k + 1)
      && SortedBy(rows, RankKey)
      && |rows| <= IntMax(0, topN)
      && pos in RowsByPosition(cs, positions, topN)
      && |rows| == RowsByPosition(cs, positions, topN)[pos]
  {
    RankedPerPosition(cs, positions, topN, pos);
    RankedGroupFacts(cs, pos, topN);
    RowsByPositionFacts(cs, positions, topN);
  }
}
