/**
 * The round-robin standings engine: every team of one league is credited
 * with the stored results that name it, the rows are ordered by points, goal
 * difference, goals scored and finally the team code, and ranks 1..n are
 * handed out in that order.
 */
module Standings {
  import opened Optional
  import opened Text
  import opened Dict

  /** A stored round-robin score: home goals `s1`, away goals `s2`; either may
      still be missing while the match has not been played. */
  datatype Score = Score(s1: Option<int>, s2: Option<int>)

  /** One entry of a league's team table: the one-letter code and the display name. */
  datatype Team = Team(code: char, name: string)

  /** One line of the standings table, before it is ranked. */
  datatype Row = Row(
    name: string,
    code: char,
    points: int,
    played: int,
    wins: int,
    draws: int,
    losses: int,
    goalsFor: int,
    goalsAgainst: int,
    goalDiff: int,
    sortIndex: int)

  /** A ranked line of the standings table. */
  datatype Standing = Standing(rank: nat, row: Row)

  /** The letter's position in the alphabet, `ord(code) - 65`. */
  function SortIndex(code: char): int {
    (code as int) - 65
  }

  /** The row a team starts from: its name, code and alphabet position, and
      every counter at zero. */
  function FreshRow(t: Team): (r: Row)
    ensures r.name == t.name && r.code == t.code && r.sortIndex == SortIndex(t.code)
    ensures r.played == 0 && r.goalsFor == 0 && r.goalsAgainst == 0
    ensures Consistent(r) && r.points == 0 && r.goalDiff == 0
  {
    Row(t.name, t.code, 0, 0, 0, 0, 0, 0, 0, 0, SortIndex(t.code))
  }

  /** The bookkeeping identities of a row: a win is worth 3 points and a draw 1,
      every match played is exactly one of win, draw or loss, and the goal
      difference is goals scored minus goals conceded. */
  predicate Consistent(r: Row) {
    && r.wins >= 0 && r.draws >= 0 && r.losses >= 0
    && r.points == 3 * r.wins + r.draws
    && r.played == r.wins + r.draws + r.losses
    && r.goalDiff == r.goalsFor - r.goalsAgainst
  }

  /** The key under which the league page stores a round-robin score:
      league, slot number, home code and away code joined by underscores. */
  function LeagueKey(league: string, slot: nat, home: char, away: char): (key: string)
    ensures StartsWith(key, league + "_")
    ensures |key| >= |league| + 6 && key[|key| - 3..] == [home, '_', away]
  {
    league + "_" + NatToString(slot) + "_" + [home] + "_" + [away]
  }

  /** Whether a stored result takes part in the standings of `league` at all:
      its key carries the league prefix, splits into at least four pieces,
      and both goals are present. */
  predicate Counts(league: string, e: Entry<Score>)
    ensures Counts(league, e) && '_' !in league ==> Split(e.key, '_')[0] == league
  {
    FirstPiece(league, '_', e.key);
    && StartsWith(e.key, league + "_")
    && |Split(e.key, '_')| >= 4
    && e.value.s1.Some? && e.value.s2.Some?
  }

  /** The goals (scored, conceded) that a counted result gives the team with
      `code`, seen from that team's side; `None` when the result does not
      concern the team. A team named as home is credited as home only. */
  function Role(code: char, league: string, e: Entry<Score>): (r: Option<(int, int)>)
    ensures r.Some? <==> Counts(league, e) && (Split(e.key, '_')[2] == [code] || Split(e.key, '_')[3] == [code])
    ensures r.Some? ==> (r.value == (e.value.s1.value, e.value.s2.value) || r.value == (e.value.s2.value, e.value.s1.value))
  {
    if !Counts(league, e) then None
    else
      var parts := Split(e.key, '_');
      if parts[2] == [code] then Some((e.value.s1.value, e.value.s2.value))
      else if parts[3] == [code] then Some((e.value.s2.value, e.value.s1.value))
      else None
  }

  /** A row credited with one stored result (one pass of the inner loop). */
  function AddResult(row: Row, league: string, e: Entry<Score>): (r: Row)
    ensures r.name == row.name && r.code == row.code && r.sortIndex == row.sortIndex
    ensures Role(row.code, league, e).None? ==> r == row
    ensures Role(row.code, league, e).Some? ==>
      var (f, a) := Role(row.code, league, e).value;
      && r.played == row.played + 1
      && r.goalsFor == row.goalsFor + f && r.goalsAgainst == row.goalsAgainst + a
      && (r.wins == row.wins + 1 <==> f > a) && (r.draws == row.draws + 1 <==> f == a)
      && (r.losses == row.losses + 1 <==> f < a)
      && (r.wins - row.wins) + (r.draws - row.draws) + (r.losses - row.losses) == 1
      && row.wins <= r.wins && row.draws <= r.draws && row.losses <= r.losses
      && r.points - row.points == 3 * (r.wins - row.wins) + (r.draws - row.draws)
      && r.goalDiff - row.goalDiff == f - a
    ensures Consistent(row) ==> Consistent(r)
  {
    match Role(row.code, league, e)
    case None => row
    case Some((f, a)) =>
      row.(
        played := row.played + 1,
        goalsFor := row.goalsFor + f,
        goalsAgainst := row.goalsAgainst + a,
        goalDiff := row.goalDiff + (f - a),
        points := row.points + (if f > a then 3 else if f == a then 1 else 0),
        wins := row.wins + (if f > a then 1 else 0),
        draws := row.draws + (if f == a then 1 else 0),
        losses := row.losses + (if f < a then 1 else 0))
  }

  /** A stored result changes a team's row exactly when it counts for the league
      and its key names the team as home or away. */
  lemma ResultTouchesRowIff(row: Row, league: string, e: Entry<Score>)
    ensures AddResult(row, league, e) != row <==>
      && Counts(league, e)
      && (Split(e.key, '_')[2] == [row.code] || Split(e.key, '_')[3] == [row.code])
  {
  }

  /** What the counted results of one team add up to: matches, goals scored and
      conceded, wins, draws and losses. */
  datatype Totals = Totals(played: nat, scored: int, conceded: int, wins: nat, draws: nat, losses: nat)

  /** The totals of the results in `es` that count for the team with `code`,
      each seen from that team's side. */
  function TotalsOf(code: char, league: string, es: Table<Score>): (t: Totals)
    ensures t.played == t.wins + t.draws + t.losses
    ensures t.played <= |es|
    ensures t.played == 0 <==> forall i :: 0 <= i < |es| ==> Role(code, league, es[i]).None?
    decreases |es|
  {
    if es == [] then Totals(0, 0, 0, 0, 0, 0)
    else
      var rest := TotalsOf(code, league, es[1..]);
      assert forall i :: 0 < i < |es| ==> es[i] == es[1..][i - 1];
      match Role(code, league, es[0])
      case None => rest
      case Some((f, a)) =>
        Totals(rest.played + 1, rest.scored + f, rest.conceded + a,
               rest.wins + (if f > a then 1 else 0),
               rest.draws + (if f == a then 1 else 0),
               rest.losses + (if f < a then 1 else 0))
  }

  /** A row credited with every stored result, in the table's order: it gains
      exactly the totals of the results that count for its team. */
  function Tally(row: Row, league: string, es: Table<Score>): (r: Row)
    ensures r.name == row.name && r.code == row.code && r.sortIndex == row.sortIndex
    ensures var t := TotalsOf(row.code, league, es);
            && r.played == row.played + t.played
            && r.goalsFor == row.goalsFor + t.scored && r.goalsAgainst == row.goalsAgainst + t.conceded
            && r.wins == row.wins + t.wins && r.draws == row.draws + t.draws && r.losses == row.losses + t.losses
            && r.points == row.points + 3 * t.wins + t.draws
            && r.goalDiff == row.goalDiff + t.scored - t.conceded
    ensures row.played <= r.played <= row.played + |es|
    ensures Consistent(row) ==> Consistent(r)
    decreases |es|
  {
    if es == [] then row else Tally(AddResult(row, league, es[0]), league, es[1..])
  }

  /** Crediting the first result and then the rest credits them all. */
  lemma TallyStep(row: Row, league: string, es: Table<Score>)
    requires es != []
    ensures Tally(row, league, es) == Tally(AddResult(row, league, es[0]), league, es[1..])
  {
  }

  /** The rows of one more team are the rows so far and that team's tally. */
  lemma TeamRowsStep(teams: seq<Team>, t: nat, league: string, results: Table<Score>)
    requires t < |teams|
    ensures TeamRows(teams[..t + 1], league, results)
            == TeamRows(teams[..t], league, results) + [Tally(FreshRow(teams[t]), league, results)]
  {
  }

  /** The team table of a league: the regular league's for "reg", the mixed
      league's for anything else. */
  function LeagueTeams(leagueType: string, teamsReg: seq<Team>, teamsMix: seq<Team>): seq<Team> {
    if leagueType == "reg" then teamsReg else teamsMix
  }

  /** The team table is a dictionary keyed by code: no code occurs twice. */
  predicate DistinctCodes(teams: seq<Team>) {
    forall i, j :: 0 <= i < j < |teams| ==> teams[i].code != teams[j].code
  }

  /** The unsorted rows, one per team in table order. */
  function TeamRows(teams: seq<Team>, league: string, results: Table<Score>): (rows: seq<Row>)
    ensures |rows| == |teams|
  {
    seq(|teams|, i requires 0 <= i < |teams| => Tally(FreshRow(teams[i]), league, results))
  }

  /** `a` ranks above `b`: more points, else better goal difference, else more
      goals scored, else the earlier code. */
  predicate Before(a: Row, b: Row)
    ensures a.points > b.points ==> Before(a, b)
    ensures Before(a, b) ==> a.points >= b.points
    ensures Before(a, b) && a.points == b.points ==> a.goalDiff >= b.goalDiff
  {
    || a.points > b.points
    || (a.points == b.points && a.goalDiff > b.goalDiff)
    || (a.points == b.points && a.goalDiff == b.goalDiff && a.goalsFor > b.goalsFor)
    || (a.points == b.points && a.goalDiff == b.goalDiff && a.goalsFor == b.goalsFor
        && a.sortIndex < b.sortIndex)
  }

  /** Every row ranks above every later row. */
  predicate Sorted(s: seq<Row>) {
    forall i, j :: 0 <= i < j < |s| ==> Before(s[i], s[j])
  }

  predicate DistinctIndices(s: seq<Row>) {
    forall i, j :: 0 <= i < j < |s| ==> s[i].sortIndex != s[j].sortIndex
  }

  /** `Before` is a strict total order on rows with distinct sort indices. */
  lemma BeforeIsStrictTotalOrder(a: Row, b: Row, c: Row)
    ensures !Before(a, a)
    ensures Before(a, b) ==> !Before(b, a)
    ensures Before(a, b) && Before(b, c) ==> Before(a, c)
    ensures a.sortIndex != b.sortIndex ==> Before(a, b) || Before(b, a)
  {
  }

  /** `x` placed into a sorted sequence. */
  function Insert(x: Row, s: seq<Row>): (r: seq<Row>)
    requires Sorted(s)
    requires forall i :: 0 <= i < |s| ==> s[i].sortIndex != x.sortIndex
    ensures Sorted(r)
    ensures multiset(r) == multiset(s) + multiset{x}
    ensures |r| == |s| + 1
    decreases |s|
  {
    if s == [] then [x]
    else if Before(x, s[0]) then
      PrependSorted(x, s);
      [x] + s
    else
      assert Sorted(s[1..]);
      var rest := Insert(x, s[1..]);
      HeadStaysFirst(x, s, rest);
      assert s == [s[0]] + s[1..];
      [s[0]] + rest
  }

  /** A row that ranks above a whole sorted sequence can lead it (using transitivity). */
  lemma PrependSorted(a: Row, s: seq<Row>)
    requires Sorted(s)
    requires |s| > 0 ==> Before(a, s[0])
    ensures Sorted([a] + s)
  {
    var r := [a] + s;
    forall i, j | 0 <= i < j < |r| ensures Before(r[i], r[j]) {
      if i == 0 {
        if j > 1 {
          BeforeIsStrictTotalOrder(a, s[0], s[j - 1]);
        }
      } else {
        assert r[i] == s[i - 1] && r[j] == s[j - 1];
      }
    }
  }

  /** When `x` does not rank above the head of `s`, the head still ranks above
      everything the insertion into the tail produced. */
  lemma HeadStaysFirst(x: Row, s: seq<Row>, rest: seq<Row>)
    requires Sorted(s) && |s| > 0
    requires !Before(x, s[0]) && x.sortIndex != s[0].sortIndex
    requires Sorted(rest) && multiset(rest) == multiset(s[1..]) + multiset{x}
    ensures Sorted([s[0]] + rest)
  {
    if |rest| > 0 {
      assert rest[0] in multiset(s[1..]) + multiset{x};
      if rest[0] == x {
        BeforeIsStrictTotalOrder(s[0], x, x);
      } else {
        assert rest[0] in s[1..];
        var k :| 0 <= k < |s[1..]| && s[1..][k] == rest[0];
        assert s[k + 1] == rest[0];
      }
    }
    PrependSorted(s[0], rest);
  }

  /** Every element of a permutation of `s` is an element of `s`. */
  lemma PermutationElements(s: seq<Row>, r: seq<Row>)
    requires multiset(r) == multiset(s)
    ensures forall j :: 0 <= j < |r| ==> r[j] in s
  {
    forall j | 0 <= j < |r| ensures r[j] in s {
      assert r[j] in multiset(r);
    }
  }

  /** The rows in ranking order (the sort of the standings table). */
  function SortRows(s: seq<Row>): (r: seq<Row>)
    requires DistinctIndices(s)
    ensures Sorted(r)
    ensures multiset(r) == multiset(s)
    ensures |r| == |s|
    decreases |s|
  {
    if s == [] then []
    else
      assert DistinctIndices(s[1..]);
      var rest := SortRows(s[1..]);
      PermutationElements(s[1..], rest);
      assert forall j :: 0 <= j < |rest| ==> rest[j].sortIndex != s[0].sortIndex;
      assert s == [s[0]] + s[1..];
      Insert(s[0], rest)
  }

  /** Ranks 1, 2, 3, ... in sequence order. */
  function AssignRanks(rows: seq<Row>): (table: seq<Standing>)
    ensures |table| == |rows|
    ensures forall i :: 0 <= i < |table| ==> table[i].rank == i + 1 && table[i].row == rows[i]
    ensures forall i, j :: 0 <= i < j < |table| ==> table[i].rank < table[j].rank
  {
    seq(|rows|, i requires 0 <= i < |rows| => Standing(i + 1, rows[i]))
  }

  /** The ranked standings table of one league. */
  function StandingsOf(leagueType: string, teamsReg: seq<Team>, teamsMix: seq<Team>, results: Table<Score>): (table: seq<Standing>)
    requires DistinctCodes(LeagueTeams(leagueType, teamsReg, teamsMix))
    ensures |table| == |LeagueTeams(leagueType, teamsReg, teamsMix)|
    ensures forall i :: 0 <= i < |table| ==> table[i].rank == i + 1
  {
    var teams := LeagueTeams(leagueType, teamsReg, teamsMix);
    DistinctCodesGiveDistinctIndices(teams, leagueType, results);
    AssignRanks(SortRows(TeamRows(teams, leagueType, results)))
  }

  lemma DistinctCodesGiveDistinctIndices(teams: seq<Team>, league: string, results: Table<Score>)
    requires DistinctCodes(teams)
    ensures DistinctIndices(TeamRows(teams, league, results))
  {
  }

  /** One pass of the inner loop: the team's row credited with one stored
      result, skipping results of another league, malformed keys and
      unplayed matches. */
  method CreditResult(stats: Row, leagueType: string, key: string, res: Score) returns (stats': Row)
    ensures stats' == AddResult(stats, leagueType, Entry(key, res))
  {
    stats' := stats;
    if !StartsWith(key, leagueType + "_") {
      return;
    }
    var parts := Split(key, '_');
    if |parts| < 4 {
      return;
    }
    var homeCode, awayCode := parts[2], parts[3];
    var code := stats.code;
    if res.s1.Some? && res.s2.Some? {
      var s1, s2 := res.s1.value, res.s2.value;
      if [code] == homeCode {
        stats' := stats'.(played := stats'.played + 1, goalsFor := stats'.goalsFor + s1,
                          goalsAgainst := stats'.goalsAgainst + s2, goalDiff := stats'.goalDiff + (s1 - s2));
        if s1 > s2 {
          stats' := stats'.(points := stats'.points + 3, wins := stats'.wins + 1);
        } else if s1 == s2 {
          stats' := stats'.(points := stats'.points + 1, draws := stats'.draws + 1);
        } else {
          stats' := stats'.(losses := stats'.losses + 1);
        }
      } else if [code] == awayCode {
        stats' := stats'.(played := stats'.played + 1, goalsFor := stats'.goalsFor + s2,
                          goalsAgainst := stats'.goalsAgainst + s1, goalDiff := stats'.goalDiff + (s2 - s1));
        if s2 > s1 {
          stats' := stats'.(points := stats'.points + 3, wins := stats'.wins + 1);
        } else if s2 == s1 {
          stats' := stats'.(points := stats'.points + 1, draws := stats'.draws + 1);
        } else {
          stats' := stats'.(losses := stats'.losses + 1);
        }
      }
    }
  }

  /** The standings computation: one row per team of the chosen league,
      credited result by result, then sorted and ranked. */
  method CalculateStandings(leagueType: string, teamsReg: seq<Team>, teamsMix: seq<Team>, results: Table<Score>)
    returns (table: seq<Standing>)
    requires DistinctCodes(LeagueTeams(leagueType, teamsReg, teamsMix))
    ensures table == StandingsOf(leagueType, teamsReg, teamsMix, results)
  {
    var teams := if leagueType == "reg" then teamsReg else teamsMix;
    var data: seq<Row> := [];
    for t := 0 to |teams|
      invariant data == TeamRows(teams[..t], leagueType, results)
    {
      var stats := FreshRow(teams[t]);
      for k := 0 to |results|
        invariant Tally(stats, leagueType, results[k..]) == Tally(FreshRow(teams[t]), leagueType, results)
      {
        assert results[k..][1..] == results[k + 1..];
        TallyStep(stats, leagueType, results[k..]);
        stats := CreditResult(stats, leagueType, results[k].key, results[k].value);
      }
      TeamRowsStep(teams, t, leagueType, results);
      data := data + [stats];
    }
    assert teams[..|teams|] == teams;
    DistinctCodesGiveDistinctIndices(teams, leagueType, results);
    table := AssignRanks(SortRows(data));
  }

  /** The table is one ranked row per team: ranks run 1..n in order, every row
      ranks strictly above every later one, the rows are exactly the teams'
      tallies, and each row keeps the bookkeeping identities. */
  lemma StandingsProperties(leagueType: string, teamsReg: seq<Team>, teamsMix: seq<Team>, results: Table<Score>)
    requires DistinctCodes(LeagueTeams(leagueType, teamsReg, teamsMix))
    ensures var teams := LeagueTeams(leagueType, teamsReg, teamsMix);
            var table := StandingsOf(leagueType, teamsReg, teamsMix, results);
            && |table| == |teams|
            && (forall i :: 0 <= i < |table| ==> table[i].rank == i + 1)
            && (forall i, j :: 0 <= i < j < |table| ==> Before(table[i].row, table[j].row))
            && multiset(seq(|table|, i requires 0 <= i < |table| => table[i].row))
               == multiset(TeamRows(teams, leagueType, results))
            && (forall i :: 0 <= i < |table| ==> Consistent(table[i].row))
  {
    var teams := LeagueTeams(leagueType, teamsReg, teamsMix);
    var rows := TeamRows(teams, leagueType, results);
    DistinctCodesGiveDistinctIndices(teams, leagueType, results);
    TeamRowsConsistent(teams, leagueType, results);
    RankedRows(rows);
    RankedRowsConsistent(rows);
  }

  /** Every unsorted row keeps the bookkeeping identities. */
  lemma TeamRowsConsistent(teams: seq<Team>, league: string, results: Table<Score>)
    ensures forall i :: 0 <= i < |teams| ==> Consistent(TeamRows(teams, league, results)[i])
  {
    forall i | 0 <= i < |teams| ensures Consistent(TeamRows(teams, league, results)[i]) {
      assert Consistent(FreshRow(teams[i]));
    }
  }

  /** Sorting and ranking rows with distinct sort indices: ranks 1..n in order,
      strictly sorted, and the same rows. */
  lemma RankedRows(rows: seq<Row>)
    requires DistinctIndices(rows)
    ensures var table := AssignRanks(SortRows(rows));
            && |table| == |rows|
            && (forall i :: 0 <= i < |table| ==> table[i].rank == i + 1)
            && (forall i, j :: 0 <= i < j < |table| ==> Before(table[i].row, table[j].row))
            && multiset(seq(|table|, i requires 0 <= i < |table| => table[i].row)) == multiset(rows)
  {
    var table := AssignRanks(SortRows(rows));
    assert seq(|table|, i requires 0 <= i < |table| => table[i].row) == SortRows(rows);
  }

  /** Sorting and ranking keeps the bookkeeping identities of every row. */
  lemma RankedRowsConsistent(rows: seq<Row>)
    requires DistinctIndices(rows)
    requires forall i :: 0 <= i < |rows| ==> Consistent(rows[i])
    ensures var table := AssignRanks(SortRows(rows));
            forall i :: 0 <= i < |table| ==> Consistent(table[i].row)
  {
    var sorted := SortRows(rows);
    PermutationElements(rows, sorted);
    forall i | 0 <= i < |sorted| ensures Consistent(sorted[i]) {
      assert sorted[i] in rows;
    }
  }

  /** Two strictly sorted orderings of the same rows are the same sequence: the
      ranking does not depend on how the sort is carried out. */
  lemma {:induction false} SortedUnique(a: seq<Row>, b: seq<Row>)
    requires Sorted(a) && Sorted(b)
    requires multiset(a) == multiset(b)
    ensures a == b
    decreases |a|
  {
    if |a| > 0 {
      SortedHeadsAgree(a, b);
      TailMultiset(a);
      TailMultiset(b);
      assert Sorted(a[1..]) && Sorted(b[1..]);
      SortedUnique(a[1..], b[1..]);
      assert a == [a[0]] + a[1..] && b == [b[0]] + b[1..];
    }
  }

  /** Two strictly sorted orderings of the same non-empty rows start with the same row. */
  lemma SortedHeadsAgree(a: seq<Row>, b: seq<Row>)
    requires Sorted(a) && Sorted(b)
    requires multiset(a) == multiset(b) && |a| > 0
    ensures |b| > 0 && a[0] == b[0]
  {
    assert a[0] in multiset(b);
    assert b[0] in multiset(a);
    var i :| 0 <= i < |a| && a[i] == b[0];
    var j :| 0 <= j < |b| && b[j] == a[0];
    if i > 0 && j > 0 {
      BeforeIsStrictTotalOrder(a[0], b[0], a[0]);
    }
  }

  lemma TailMultiset(a: seq<Row>)
    requires |a| > 0
    ensures multiset(a[1..]) == multiset(a) - multiset{a[0]}
  {
    assert a == [a[0]] + a[1..];
  }

  /** The key a score is stored under splits back into its four parts, and it
      passes the league-prefix filter of its own league. */
  lemma KeyRoundTrip(league: string, slot: nat, home: char, away: char)
    requires '_' !in league && home != '_' && away != '_'
    ensures Split(LeagueKey(league, slot, home, away), '_') == [league, NatToString(slot), [home], [away]]
    ensures StartsWith(LeagueKey(league, slot, home, away), league + "_")
  {
    var parts := [league, NatToString(slot), [home], [away]];
    assert Join(parts, '_') == LeagueKey(league, slot, home, away) by {
      assert Join(parts[3..], '_') == [away];
      assert Join(parts[2..], '_') == [home] + "_" + [away];
      assert Join(parts[1..], '_') == NatToString(slot) + "_" + [home] + "_" + [away];
    }
    SplitJoin(parts, '_');
  }

  /** A key built for league `other` passes the prefix filter of league `league`
      exactly when the two are the same league. */
  lemma KeyLeagueFilter(league: string, other: string, slot: nat, home: char, away: char)
    requires '_' !in league && '_' !in other
    ensures StartsWith(LeagueKey(other, slot, home, away), league + "_") <==> league == other
  {
    var x := NatToString(slot) + "_" + [home] + "_" + [away];
    assert LeagueKey(other, slot, home, away) == other + ['_'] + x;
    PrefixBeforeSeparator(other, league, '_', x);
  }

  /** A score stored under its match key counts for the home team as
      (home goals, away goals), for the away team mirrored, and for no one else;
      a score with a goal missing counts for no one. */
  lemma RecordedScoreRoles(league: string, slot: nat, home: char, away: char, sc: Score, code: char)
    requires '_' !in league && home != '_' && away != '_'
    ensures var e := Entry(LeagueKey(league, slot, home, away), sc);
            Role(code, league, e) ==
              if sc.s1.None? || sc.s2.None? then None
              else if code == home then Some((sc.s1.value, sc.s2.value))
              else if code == away then Some((sc.s2.value, sc.s1.value))
              else None
  {
    KeyRoundTrip(league, slot, home, away);
  }

  /** Writing a value under a key that can never count for this team, whatever
      value it holds, leaves the team's tally unchanged. */
  lemma {:induction false} TallyUnchangedByIrrelevantWrite(row: Row, league: string, es: Table<Score>, k: string, v: Score)
    requires forall w :: Role(row.code, league, Entry(k, w)).None?
    ensures Tally(row, league, Assign(es, k, v)) == Tally(row, league, es)
    decreases |es|
  {
    assert Role(row.code, league, Entry(k, v)).None?;
    if es == [] {
      assert Assign(es, k, v)[1..] == [];
    } else if es[0].key == k {
      assert Role(row.code, league, es[0]).None? by {
        assert es[0] == Entry(k, es[0].value);
      }
      assert Assign(es, k, v)[1..] == es[1..];
    } else {
      var r' := AddResult(row, league, es[0]);
      TallyUnchangedByIrrelevantWrite(r', league, es[1..], k, v);
      assert Assign(es, k, v)[0] == es[0];
      assert Assign(es, k, v)[1..] == Assign(es[1..], k, v);
    }
  }

  /** Recording a score of the other league never changes a row of this league. */
  lemma OtherLeagueWriteInvisible(row: Row, league: string, other: string, es: Table<Score>,
                                  slot: nat, home: char, away: char, v: Score)
    requires '_' !in league && '_' !in other && league != other
    ensures Tally(row, league, Assign(es, LeagueKey(other, slot, home, away), v)) == Tally(row, league, es)
  {
    KeyLeagueFilter(league, other, slot, home, away);
    TallyUnchangedByIrrelevantWrite(row, league, es, LeagueKey(other, slot, home, away), v);
  }

  /** Recording a score changes the rows of the two teams of that match only. */
  lemma WriteTouchesOnlyItsTeams(row: Row, league: string, es: Table<Score>,
                                 slot: nat, home: char, away: char, v: Score)
    requires '_' !in league && home != '_' && away != '_'
    requires row.code != home && row.code != away
    ensures Tally(row, league, Assign(es, LeagueKey(league, slot, home, away), v)) == Tally(row, league, es)
  {
    forall w ensures Role(row.code, league, Entry(LeagueKey(league, slot, home, away), w)).None? {
      RecordedScoreRoles(league, slot, home, away, w, row.code);
    }
    TallyUnchangedByIrrelevantWrite(row, league, es, LeagueKey(league, slot, home, away), v);
  }
}
