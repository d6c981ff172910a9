/**
 * The application's two result tables and the two places that write them: the
 * league page records a round-robin score under its match key, the knockout
 * card records a knockout score (with the shoot-out after a regulation draw)
 * under its match id. Also the hand-over from the standings table to the
 * bracket: the bracket is given the team names in ranking order.
 */
module ScoreBook {
  import opened Optional
  import opened Dict
  import opened Standings
  import opened Bracket

  /** The record the knockout card stores: the shoot-out fields are only asked
      for, and only stored, when the regulation score is level. */
  function KnockoutRecord(v1: int, v2: int, pk1: int, pk2: int): (res: KnockoutScore)
    ensures res.s1 == Some(v1) && res.s2 == Some(v2)
    ensures res.pk1.Some? <==> v1 == v2
    ensures res.pk2.Some? <==> v1 == v2
    ensures res.pk1.Some? ==> res.pk1.value == pk1 && res.pk2.value == pk2
  {
    KnockoutScore(Some(v1), Some(v2), if v1 == v2 then Some(pk1) else None, if v1 == v2 then Some(pk2) else None)
  }

  /** A knockout score entered through the card is undecided exactly when both
      the regulation score and the shoot-out are level; otherwise the left side
      wins exactly when it leads after regulation or, level there, in the shoot-out. */
  lemma RecordedKnockoutDecision(v1: int, v2: int, pk1: int, pk2: int)
    ensures Decide(KnockoutRecord(v1, v2, pk1, pk2)).winner.None? <==> v1 == v2 && pk1 == pk2
    ensures Decide(KnockoutRecord(v1, v2, pk1, pk2)).winner == Some(Left) <==> v1 > v2 || (v1 == v2 && pk1 > pk2)
  {
  }

  /** The team names in ranking order, as the bracket receives them. */
  function RankedNames(table: seq<Standing>): (names: seq<string>)
    ensures |names| == |table|
    ensures forall i :: 0 <= i < |table| ==> names[i] == table[i].row.name
  {
    seq(|table|, i requires 0 <= i < |table| => table[i].row.name)
  }

  /** The semifinals of a cup are played by the teams ranked first to fourth in
      the cup's band of the standings: 1st v 4th and 2nd v 3rd. */
  lemma SemifinalSeedsFromStandings(leagueType: string, teamsReg: seq<Team>, teamsMix: seq<Team>,
                                    results: Table<Score>, cup: string, tourn: Table<KnockoutScore>)
    requires DistinctCodes(LeagueTeams(leagueType, teamsReg, teamsMix))
    requires |LeagueTeams(leagueType, teamsReg, teamsMix)| >= 12
    ensures var table := StandingsOf(leagueType, teamsReg, teamsMix, results);
            var names := RankedNames(table);
            var o := CupOffset(cup);
            && |table| >= 12
            && table[o].rank == o + 1 && table[o + 3].rank == o + 4
            && table[o + 1].rank == o + 2 && table[o + 2].rank == o + 3
            && Resolve(leagueType, cup, Slot(SF1, Left), names, tourn) == Some(table[o].row.name)
            && Resolve(leagueType, cup, Slot(SF1, Right), names, tourn) == Some(table[o + 3].row.name)
            && Resolve(leagueType, cup, Slot(SF2, Left), names, tourn) == Some(table[o + 1].row.name)
            && Resolve(leagueType, cup, Slot(SF2, Right), names, tourn) == Some(table[o + 2].row.name)
  {
    StandingsProperties(leagueType, teamsReg, teamsMix, results);
  }

  /** Both result tables of a running tournament. */
  class ScoreBook {
    var results: Table<Score>
    var tournResults: Table<KnockoutScore>

    ghost predicate Valid()
      reads this
    {
      DistinctKeys(results) && DistinctKeys(tournResults)
    }

    constructor ()
      ensures Valid() && results == [] && tournResults == []
    {
      results := [];
      tournResults := [];
    }

    /** Store a round-robin score under its match key, replacing what was there. */
    method RecordLeagueScore(key: string, v1: int, v2: int)
      requires Valid()
      modifies this
      ensures Valid()
      ensures results == Assign(old(results), key, Score(Some(v1), Some(v2)))
      ensures forall k :: Get(results, k) == if k == key then Some(Score(Some(v1), Some(v2))) else Get(old(results), k)
      ensures tournResults == old(tournResults)
    {
      AssignKeepsDistinct(results, key, Score(Some(v1), Some(v2)));
      forall k ensures Get(Assign(results, key, Score(Some(v1), Some(v2))), k)
                       == if k == key then Some(Score(Some(v1), Some(v2))) else Get(results, k) {
        GetAfterAssign(results, key, Score(Some(v1), Some(v2)), k);
      }
      results := Assign(results, key, Score(Some(v1), Some(v2)));
    }

    /** Store a knockout score under its match id, replacing what was there; the
        shoot-out is kept only after a regulation draw. */
    method RecordKnockoutScore(matchId: string, v1: int, v2: int, pk1: int, pk2: int)
      requires Valid()
      modifies this
      ensures Valid()
      ensures tournResults == Assign(old(tournResults), matchId, KnockoutRecord(v1, v2, pk1, pk2))
      ensures forall k :: Get(tournResults, k)
                          == if k == matchId then Some(KnockoutRecord(v1, v2, pk1, pk2)) else Get(old(tournResults), k)
      ensures results == old(results)
    {
      var pkV1, pkV2 := None, None;
      if v1 == v2 {
        pkV1, pkV2 := Some(pk1), Some(pk2);
      }
      var record := KnockoutScore(Some(v1), Some(v2), pkV1, pkV2);
      AssignKeepsDistinct(tournResults, matchId, record);
      forall k ensures Get(Assign(tournResults, matchId, record), k)
                       == if k == matchId then Some(record) else Get(tournResults, k) {
        GetAfterAssign(tournResults, matchId, record, k);
      }
      tournResults := Assign(tournResults, matchId, record);
    }
  }
}
