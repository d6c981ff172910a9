/**
 * The knockout bracket of one cup: four teams taken from a band of the league
 * ranking, two semifinals (1st v 4th, 2nd v 3rd of the band), a final between
 * the semifinal winners and a third-place match between the losers. Nothing
 * about who plays whom is stored; every slot is derived again from the
 * ranking and the stored knockout scores.
 */
module Bracket {
  import opened Optional
  import opened Dict

  /** A stored knockout score: regulation goals and, after a drawn match, the
      shoot-out. Any field may be missing. */
  datatype KnockoutScore = KnockoutScore(s1: Option<int>, s2: Option<int>, pk1: Option<int>, pk2: Option<int>)

  /** What a match id without a stored score reads as. */
  const Unplayed: KnockoutScore := KnockoutScore(None, None, None, None)

  datatype Side = Left | Right {
    function Opposite(): (o: Side)
      ensures o != this
    {
      if this == Left then Right else Left
    }
  }

  datatype Round = SF1 | SF2 | Final | Third {
    /** The round's name inside a match id. */
    function Name(): string {
      match this
      case SF1 => "SF1"
      case SF2 => "SF2"
      case Final => "Final"
      case Third => "3rd"
    }
  }

  /** A place in the bracket: the left side of a round is the name the source
      writes as the round itself ("SF1", "Final", ...), the right side is the
      one it writes with "_Opp". */
  datatype Slot = Slot(round: Round, side: Side)

  /** The semifinal feeding one side of the final and of the third-place match. */
  function FeederSemi(side: Side): Round {
    if side == Left then SF1 else SF2
  }

  /** The first rank index (0-based) of a cup's band of four; an unknown cup
      name falls back to the top band. */
  function CupOffset(cup: string): (start: nat)
    ensures start == 0 || start == 4 || start == 8
    ensures start == 4 <==> cup == "Elite"
    ensures start == 8 <==> cup == "Classical"
  {
    if cup == "Champions" then 0
    else if cup == "Elite" then 4
    else if cup == "Classical" then 8
    else 0
  }

  /** The three cups split the twelve ranks into three bands of four: every
      rank index belongs to exactly one of them. */
  lemma CupBandsPartition(i: nat)
    requires i < 12
    ensures var inC := CupOffset("Champions") <= i < CupOffset("Champions") + 4;
            var inE := CupOffset("Elite") <= i < CupOffset("Elite") + 4;
            var inK := CupOffset("Classical") <= i < CupOffset("Classical") + 4;
            (inC || inE || inK) && !(inC && inE) && !(inC && inK) && !(inE && inK)
  {
  }

  /** The four teams of a cup, best-ranked first. */
  function Band(cup: string, ranks: seq<string>): (band: seq<string>)
    requires |ranks| >= 12
    ensures |band| == 4
    ensures forall i :: 0 <= i < 4 ==> band[i] == ranks[CupOffset(cup) + i]
  {
    ranks[CupOffset(cup)..CupOffset(cup) + 4]
  }

  /** The id a knockout score is stored under: league, cup and round joined by underscores. */
  function MatchId(league: string, cup: string, round: Round): (id: string)
    ensures |id| == |league| + |cup| + 2 + |round.Name()|
    ensures id[..|league| + 1] == league + "_"
    ensures id[|league| + 1..|league| + 1 + |cup|] == cup && id[|league| + 1 + |cup|] == '_'
    ensures id[|league| + |cup| + 2..] == round.Name()
  {
    league + "_" + cup + "_" + round.Name()
  }

  /** The rounds of one cup never share a stored score. */
  lemma MatchIdsDistinct(league: string, cup: string, r1: Round, r2: Round)
    requires r1 != r2
    ensures MatchId(league, cup, r1) != MatchId(league, cup, r2)
  {
    var p := league + "_" + cup + "_";
    assert (p + r1.Name())[|p|..] == r1.Name();
    assert (p + r2.Name())[|p|..] == r2.Name();
  }

  /** The stored score of a match, or the unplayed record when there is none. */
  function Stored(tourn: Table<KnockoutScore>, id: string): (res: KnockoutScore)
    ensures id !in Keys(tourn) ==> res == Unplayed
    ensures id in Keys(tourn) ==> exists i :: 0 <= i < |tourn| && tourn[i] == Entry(id, res)
  {
    Get(tourn, id).GetOr(Unplayed)
  }

  /** The outcome of a match: which side won and which lost, when that is known. */
  datatype Decision = Decision(winner: Option<Side>, loser: Option<Side>)

  /** The left side has won: more regulation goals, or level goals and a higher
      recorded shoot-out score. */
  predicate LeftWins(res: KnockoutScore) {
    && res.s1.Some? && res.s2.Some?
    && (|| res.s1.value > res.s2.value
        || (res.s1.value == res.s2.value && res.pk1.Some? && res.pk2.Some? && res.pk1.value > res.pk2.value))
  }

  /** The same score seen with the sides exchanged. */
  function Mirror(res: KnockoutScore): KnockoutScore {
    KnockoutScore(res.s2, res.s1, res.pk2, res.pk1)
  }

  /** Winner and loser of a match from its score; the shoot-out is consulted only
      on a regulation draw. */
  function Decide(res: KnockoutScore): (d: Decision)
    ensures d.winner.None? <==> d.loser.None?
    ensures d.winner.Some? ==> d.loser == Some(d.winner.value.Opposite())
    ensures d.winner == Some(Left) <==> LeftWins(res)
    ensures d.winner == Some(Right) <==> LeftWins(Mirror(res))
    ensures d.winner.None? <==>
      (|| res.s1.None? || res.s2.None?
       || (res.s1 == res.s2 && (res.pk1.None? || res.pk2.None? || res.pk1 == res.pk2)))
  {
    if res.s1.Some? && res.s2.Some? then
      var s1, s2 := res.s1.value, res.s2.value;
      if s1 > s2 then Decision(Some(Left), Some(Right))
      else if s2 > s1 then Decision(Some(Right), Some(Left))
      else if res.pk1.Some? && res.pk2.Some? then
        var pk1, pk2 := res.pk1.value, res.pk2.value;
        if pk1 > pk2 then Decision(Some(Left), Some(Right))
        else if pk2 > pk1 then Decision(Some(Right), Some(Left))
        else Decision(None, None)
      else Decision(None, None)
    else Decision(None, None)
  }

  /** Exchanging the sides of a score exchanges winner and loser. */
  lemma DecideMirror(res: KnockoutScore)
    ensures Decide(Mirror(res)) == Decision(Decide(res).loser, Decide(res).winner)
  {
    assert Mirror(Mirror(res)) == res;
  }

  /** The outcome of the match stored under `id`. */
  function MatchResult(tourn: Table<KnockoutScore>, id: string): (d: Decision)
    ensures id !in Keys(tourn) ==> d == Decision(None, None)
    ensures d.winner.Some? <==> d.loser.Some?
  {
    Decide(Stored(tourn, id))
  }

  /** The team `side` picks from a match between `l` and `r`, if it picks one. */
  function Pick(side: Option<Side>, l: string, r: string): (team: Option<string>)
    ensures team.None? <==> side.None?
    ensures team.Some? ==> team.value == l || team.value == r
  {
    match side
    case Some(Left) => Some(l)
    case Some(Right) => Some(r)
    case None => None
  }

  /** The team in a bracket slot, or `None` while it is not known: before the
      ranking holds twelve teams, or while the feeding semifinal is undecided. */
  function Resolve(league: string, cup: string, slot: Slot, ranks: seq<string>, tourn: Table<KnockoutScore>): (team: Option<string>)
    ensures |ranks| < 12 ==> team.None?
    ensures |ranks| >= 12 ==>
      var band := Band(cup, ranks);
      && (slot == Slot(SF1, Left) ==> team == Some(band[0]))
      && (slot == Slot(SF1, Right) ==> team == Some(band[3]))
      && (slot == Slot(SF2, Left) ==> team == Some(band[1]))
      && (slot == Slot(SF2, Right) ==> team == Some(band[2]))
  {
    var start := CupOffset(cup);
    if |ranks| < 12 then None
    else
      var t1, t4 := ranks[start], ranks[start + 3];
      var t2, t3 := ranks[start + 1], ranks[start + 2];
      match slot
      case Slot(SF1, Left) => Some(t1)
      case Slot(SF1, Right) => Some(t4)
      case Slot(SF2, Left) => Some(t2)
      case Slot(SF2, Right) => Some(t3)
      case _ =>
        var w1 := MatchResult(tourn, MatchId(league, cup, SF1)).winner;
        var w2 := MatchResult(tourn, MatchId(league, cup, SF2)).winner;
        var win1, lose1 := Pick(w1, t1, t4), Pick(w1, t4, t1);
        var win2, lose2 := Pick(w2, t2, t3), Pick(w2, t3, t2);
        match slot
        case Slot(Final, Left) => win1
        case Slot(Final, Right) => win2
        case Slot(Third, Left) => lose1
        case Slot(Third, Right) => lose2
  }

  /** Each side of the final holds the winner of its semifinal and each side of
      the third-place match its loser; while that semifinal is undecided the
      slot is open. */
  lemma FinalAndThirdFollowSemis(league: string, cup: string, side: Side, ranks: seq<string>, tourn: Table<KnockoutScore>)
    requires |ranks| >= 12
    ensures var semi := FeederSemi(side);
            var d := MatchResult(tourn, MatchId(league, cup, semi));
            && Resolve(league, cup, Slot(Final, side), ranks, tourn)
               == (if d.winner.None? then None else Resolve(league, cup, Slot(semi, d.winner.value), ranks, tourn))
            && Resolve(league, cup, Slot(Third, side), ranks, tourn)
               == (if d.loser.None? then None else Resolve(league, cup, Slot(semi, d.loser.value), ranks, tourn))
  {
  }

  /** The slots depend on the stored knockout scores only through the outcomes
      of the cup's two semifinals. */
  lemma ResolveDependsOnlyOnSemiOutcomes(league: string, cup: string, slot: Slot, ranks: seq<string>,
                                         tourn: Table<KnockoutScore>, tourn': Table<KnockoutScore>)
    requires MatchResult(tourn', MatchId(league, cup, SF1)) == MatchResult(tourn, MatchId(league, cup, SF1))
    requires MatchResult(tourn', MatchId(league, cup, SF2)) == MatchResult(tourn, MatchId(league, cup, SF2))
    ensures Resolve(league, cup, slot, ranks, tourn') == Resolve(league, cup, slot, ranks, tourn)
  {
  }

  /** A score stored under any id other than the cup's two semifinals (the
      final's and the third-place match's own ids among them) changes no slot. */
  lemma ResolveReadsOnlySemis(league: string, cup: string, slot: Slot, ranks: seq<string>,
                              tourn: Table<KnockoutScore>, id: string, v: KnockoutScore)
    requires id != MatchId(league, cup, SF1) && id != MatchId(league, cup, SF2)
    ensures Resolve(league, cup, slot, ranks, Assign(tourn, id, v)) == Resolve(league, cup, slot, ranks, tourn)
  {
    var tourn' := Assign(tourn, id, v);
    GetAfterAssign(tourn, id, v, MatchId(league, cup, SF1));
    GetAfterAssign(tourn, id, v, MatchId(league, cup, SF2));
    ResolveDependsOnlyOnSemiOutcomes(league, cup, slot, ranks, tourn, tourn');
  }

  /** In particular, a score entered for the final or the third-place match
      never fills a slot whose semifinal is undecided. */
  lemma FinalScoreCannotFillSlots(league: string, cup: string, slot: Slot, ranks: seq<string>,
                                  tourn: Table<KnockoutScore>, r: Round, v: KnockoutScore)
    requires r == Final || r == Third
    ensures Resolve(league, cup, slot, ranks, Assign(tourn, MatchId(league, cup, r), v))
            == Resolve(league, cup, slot, ranks, tourn)
  {
    MatchIdsDistinct(league, cup, r, SF1);
    MatchIdsDistinct(league, cup, r, SF2);
    ResolveReadsOnlySemis(league, cup, slot, ranks, tourn, MatchId(league, cup, r), v);
  }

  /** Once both semifinals are decided, the final and the third-place match
      hold the cup's four teams between them, each once; the final's left side
      is one of the first semifinal's teams and its right side one of the
      second's. */
  lemma DecidedSemisFillFinalAndThird(league: string, cup: string, ranks: seq<string>, tourn: Table<KnockoutScore>)
    requires |ranks| >= 12
    requires MatchResult(tourn, MatchId(league, cup, SF1)).winner.Some?
    requires MatchResult(tourn, MatchId(league, cup, SF2)).winner.Some?
    ensures var fl := Resolve(league, cup, Slot(Final, Left), ranks, tourn);
            var fr := Resolve(league, cup, Slot(Final, Right), ranks, tourn);
            var tl := Resolve(league, cup, Slot(Third, Left), ranks, tourn);
            var tr := Resolve(league, cup, Slot(Third, Right), ranks, tourn);
            var band := Band(cup, ranks);
            && fl.Some? && fr.Some? && tl.Some? && tr.Some?
            && multiset{fl.value, fr.value, tl.value, tr.value} == multiset(band)
            && (fl.value == band[0] || fl.value == band[3])
            && (fr.value == band[1] || fr.value == band[2])
  {
    var band := Band(cup, ranks);
    DecidedSemiSplitsItsPair(league, cup, Left, ranks, tourn);
    DecidedSemiSplitsItsPair(league, cup, Right, ranks, tourn);
    var fl := Resolve(league, cup, Slot(Final, Left), ranks, tourn).value;
    var fr := Resolve(league, cup, Slot(Final, Right), ranks, tourn).value;
    var tl := Resolve(league, cup, Slot(Third, Left), ranks, tourn).value;
    var tr := Resolve(league, cup, Slot(Third, Right), ranks, tourn).value;
    PairsMakeBand(fl, tl, fr, tr, band);
  }

  /** Two pairs that split the band's outer and inner seeds make up the band. */
  lemma PairsMakeBand<T>(a: T, b: T, c: T, d: T, band: seq<T>)
    requires |band| == 4
    requires (a == band[0] && b == band[3]) || (a == band[3] && b == band[0])
    requires (c == band[1] && d == band[2]) || (c == band[2] && d == band[1])
    ensures multiset{a, c, b, d} == multiset(band)
  {
    PairMultiset(a, b, band[0], band[3]);
    PairMultiset(c, d, band[1], band[2]);
    BandSplit(band);
    Interleave(a, b, c, d);
  }

  lemma PairMultiset<T>(x: T, y: T, p: T, q: T)
    requires (x == p && y == q) || (x == q && y == p)
    ensures multiset{x, y} == multiset{p, q}
  {
    if x == p && y == q {
    } else {
      assert multiset{x, y} == multiset{q, p};
    }
  }

  lemma BandSplit<T>(band: seq<T>)
    requires |band| == 4
    ensures multiset(band) == multiset{band[0], band[3]} + multiset{band[1], band[2]}
  {
    assert band == [band[0]] + [band[1]] + [band[2]] + [band[3]];
  }

  lemma Interleave<T>(a: T, b: T, c: T, d: T)
    ensures multiset{a, c, b, d} == multiset{a, b} + multiset{c, d}
  {
  }

  /** A decided semifinal sends one of its two teams to the final and the other
      to the third-place match, on its own side of both. */
  lemma DecidedSemiSplitsItsPair(league: string, cup: string, side: Side, ranks: seq<string>, tourn: Table<KnockoutScore>)
    requires |ranks| >= 12
    requires MatchResult(tourn, MatchId(league, cup, FeederSemi(side))).winner.Some?
    ensures var f := Resolve(league, cup, Slot(Final, side), ranks, tourn);
            var t := Resolve(league, cup, Slot(Third, side), ranks, tourn);
            var band := Band(cup, ranks);
            var (top, bottom) := if side == Left then (band[0], band[3]) else (band[1], band[2]);
            || (f == Some(top) && t == Some(bottom))
            || (f == Some(bottom) && t == Some(top))
  {
    FinalAndThirdFollowSemis(league, cup, side, ranks, tourn);
  }

  /** The ten labels of the bracket picture: the four seeds, the two finalists,
      the two third-place contenders, the champion and the third-placed team. */
  datatype BracketLabels = BracketLabels(
    seed1: string, seed2: string, seed3: string, seed4: string,
    finalLeft: string, finalRight: string,
    thirdLeft: string, thirdRight: string,
    champion: string, thirdPlace: string)

  const SF1WinnerLabel: string := "SF1勝者"
  const SF2WinnerLabel: string := "SF2勝者"
  const SF1LoserLabel: string := "SF1敗者"
  const SF2LoserLabel: string := "SF2敗者"
  const ChampionLabel: string := "優勝"
  const ThirdPlaceLabel: string := "3位"

  /** The label `side` picks from `l` and `r`, or the placeholder while no side is picked. */
  function Choose(side: Option<Side>, l: string, r: string, placeholder: string): (shown: string)
    ensures side.None? ==> shown == placeholder
    ensures side.Some? ==> shown == l || shown == r
  {
    match side
    case Some(Left) => l
    case Some(Right) => r
    case None => placeholder
  }

  /** The bracket picture's labels; `None` while the ranking holds fewer than
      twelve teams, when no picture is drawn. */
  function Labels(league: string, cup: string, ranks: seq<string>, tourn: Table<KnockoutScore>): (r: Option<BracketLabels>)
    ensures r.None? <==> |ranks| < 12
  {
    if |ranks| < 12 then None
    else
      var start := CupOffset(cup);
      var wSf1 := MatchResult(tourn, MatchId(league, cup, SF1)).winner;
      var wSf2 := MatchResult(tourn, MatchId(league, cup, SF2)).winner;
      var wFin := MatchResult(tourn, MatchId(league, cup, Final)).winner;
      var w3rd := MatchResult(tourn, MatchId(league, cup, Third)).winner;
      Some(LabelsFor(ranks[start], ranks[start + 1], ranks[start + 2], ranks[start + 3], wSf1, wSf2, wFin, w3rd))
  }

  /** The labels for the band `t1..t4` once the four matches' winners are known. */
  function LabelsFor(t1: string, t2: string, t3: string, t4: string,
                     wSf1: Option<Side>, wSf2: Option<Side>, wFin: Option<Side>, w3rd: Option<Side>): (l: BracketLabels)
    ensures l.seed1 == t1 && l.seed2 == t2 && l.seed3 == t3 && l.seed4 == t4
    ensures wSf1.None? ==> l.finalLeft == SF1WinnerLabel && l.thirdLeft == SF1LoserLabel
    ensures wSf1.Some? ==> (l.finalLeft, l.thirdLeft) == (t1, t4) || (l.finalLeft, l.thirdLeft) == (t4, t1)
    ensures wSf2.None? ==> l.finalRight == SF2WinnerLabel && l.thirdRight == SF2LoserLabel
    ensures wSf2.Some? ==> (l.finalRight, l.thirdRight) == (t2, t3) || (l.finalRight, l.thirdRight) == (t3, t2)
    ensures wFin.None? ==> l.champion == ChampionLabel
    ensures wFin.Some? ==> l.champion == l.finalLeft || l.champion == l.finalRight
    ensures w3rd.None? ==> l.thirdPlace == ThirdPlaceLabel
    ensures w3rd.Some? ==> l.thirdPlace == l.thirdLeft || l.thirdPlace == l.thirdRight
  {
    var f1 := Choose(wSf1, t1, t4, SF1WinnerLabel);
    var f2 := Choose(wSf2, t2, t3, SF2WinnerLabel);
    var th1 := Choose(wSf1, t4, t1, SF1LoserLabel);
    var th2 := Choose(wSf2, t3, t2, SF2LoserLabel);
    var champ := Choose(wFin, f1, f2, ChampionLabel);
    var third := Choose(w3rd, th1, th2, ThirdPlaceLabel);
    BracketLabels(t1, t2, t3, t4, f1, f2, th1, th2, champ, third)
  }

  /** The picture's finalist and third-place labels are the resolved slots, with
      a placeholder naming the undecided semifinal where a slot is open; its
      seed labels are the cup's band in rank order. */
  lemma LabelsAgreeWithSlots(league: string, cup: string, ranks: seq<string>, tourn: Table<KnockoutScore>)
    requires |ranks| >= 12
    ensures var l := Labels(league, cup, ranks, tourn).value;
            var band := Band(cup, ranks);
            && l.seed1 == band[0] && l.seed2 == band[1] && l.seed3 == band[2] && l.seed4 == band[3]
            && l.finalLeft == Resolve(league, cup, Slot(Final, Left), ranks, tourn).GetOr(SF1WinnerLabel)
            && l.finalRight == Resolve(league, cup, Slot(Final, Right), ranks, tourn).GetOr(SF2WinnerLabel)
            && l.thirdLeft == Resolve(league, cup, Slot(Third, Left), ranks, tourn).GetOr(SF1LoserLabel)
            && l.thirdRight == Resolve(league, cup, Slot(Third, Right), ranks, tourn).GetOr(SF2LoserLabel)
  {
    var band := Band(cup, ranks);
    var w1 := MatchResult(tourn, MatchId(league, cup, SF1)).winner;
    var w2 := MatchResult(tourn, MatchId(league, cup, SF2)).winner;
    var wf := MatchResult(tourn, MatchId(league, cup, Final)).winner;
    var w3 := MatchResult(tourn, MatchId(league, cup, Third)).winner;
    assert Labels(league, cup, ranks, tourn) == Some(LabelsFor(band[0], band[1], band[2], band[3], w1, w2, wf, w3));
    SemiSlots(league, cup, Left, ranks, tourn);
    SemiSlots(league, cup, Right, ranks, tourn);
  }

  /** The final and third-place slots on one side, as picked by that side's semifinal. */
  lemma SemiSlots(league: string, cup: string, side: Side, ranks: seq<string>, tourn: Table<KnockoutScore>)
    requires |ranks| >= 12
    ensures var band := Band(cup, ranks);
            var w := MatchResult(tourn, MatchId(league, cup, FeederSemi(side))).winner;
            var (top, bottom) := if side == Left then (band[0], band[3]) else (band[1], band[2]);
            && Resolve(league, cup, Slot(Final, side), ranks, tourn) == Pick(w, top, bottom)
            && Resolve(league, cup, Slot(Third, side), ranks, tourn) == Pick(w, bottom, top)
  {
  }

  /** With every match of the cup decided, the champion is the final's winner and
      the third-placed team the third-place match's winner, both teams of the
      band; with the band's names distinct the two differ. */
  lemma DecidedPodium(league: string, cup: string, ranks: seq<string>, tourn: Table<KnockoutScore>)
    requires |ranks| >= 12
    requires forall r: Round :: MatchResult(tourn, MatchId(league, cup, r)).winner.Some?
    ensures var l := Labels(league, cup, ranks, tourn).value;
            var wf := MatchResult(tourn, MatchId(league, cup, Final)).winner.value;
            var w3 := MatchResult(tourn, MatchId(league, cup, Third)).winner.value;
            && Some(l.champion) == Resolve(league, cup, Slot(Final, wf), ranks, tourn)
            && Some(l.thirdPlace) == Resolve(league, cup, Slot(Third, w3), ranks, tourn)
            && l.champion in Band(cup, ranks) && l.thirdPlace in Band(cup, ranks)
            && ((forall i, j :: 0 <= i < j < 4 ==> Band(cup, ranks)[i] != Band(cup, ranks)[j])
                ==> l.champion != l.thirdPlace)
  {
    assert MatchResult(tourn, MatchId(league, cup, SF1)).winner.Some?;
    assert MatchResult(tourn, MatchId(league, cup, SF2)).winner.Some?;
    assert MatchResult(tourn, MatchId(league, cup, Final)).winner.Some?;
    assert MatchResult(tourn, MatchId(league, cup, Third)).winner.Some?;
    ChampionLabelCases(league, cup, ranks, tourn);
    ThirdPlaceLabelCases(league, cup, ranks, tourn);
    DecidedSemisFillFinalAndThird(league, cup, ranks, tourn);
    DecidedSemiSplitsItsPair(league, cup, Left, ranks, tourn);
    DecidedSemiSplitsItsPair(league, cup, Right, ranks, tourn);
  }

  /** While the final is undecided the champion label is the placeholder; once
      it is decided the label is the chosen finalist label, which is itself a
      semifinal placeholder if that semifinal is still undecided. */
  lemma ChampionLabelCases(league: string, cup: string, ranks: seq<string>, tourn: Table<KnockoutScore>)
    requires |ranks| >= 12
    ensures var l := Labels(league, cup, ranks, tourn).value;
            var wf := MatchResult(tourn, MatchId(league, cup, Final)).winner;
            && (wf.None? ==> l.champion == ChampionLabel)
            && (wf == Some(Left) ==> l.champion == Resolve(league, cup, Slot(Final, Left), ranks, tourn).GetOr(SF1WinnerLabel))
            && (wf == Some(Right) ==> l.champion == Resolve(league, cup, Slot(Final, Right), ranks, tourn).GetOr(SF2WinnerLabel))
  {
    LabelsAgreeWithSlots(league, cup, ranks, tourn);
  }

  /** The third-place label likewise: the placeholder while that match is
      undecided, otherwise the chosen contender label. */
  lemma ThirdPlaceLabelCases(league: string, cup: string, ranks: seq<string>, tourn: Table<KnockoutScore>)
    requires |ranks| >= 12
    ensures var l := Labels(league, cup, ranks, tourn).value;
            var w3 := MatchResult(tourn, MatchId(league, cup, Third)).winner;
            && (w3.None? ==> l.thirdPlace == ThirdPlaceLabel)
            && (w3 == Some(Left) ==> l.thirdPlace == Resolve(league, cup, Slot(Third, Left), ranks, tourn).GetOr(SF1LoserLabel))
            && (w3 == Some(Right) ==> l.thirdPlace == Resolve(league, cup, Slot(Third, Right), ranks, tourn).GetOr(SF2LoserLabel))
  {
    LabelsAgreeWithSlots(league, cup, ranks, tourn);
  }
}
