# Patent Cup scoring core in Dafny

A model of the scoring logic in `app.py`, the tournament app for the Patent Cup 2025 futsal day. Two leagues are played: the regular league `reg` and the mixed league `mix`. Each has twelve teams, and each team has a one-letter code. The logic has two coupled parts.

* **Standings** (`standings.dfy`).
  * Each team of a league is credited with every stored round-robin result whose key names it.
    * The key is `league_slot_home_away`.
    * A result counts only when its key carries the league prefix, splits into at least four pieces, and has both goals.
  * A team gets matches played, wins, draws, losses, goals for and against, goal difference and points (3/1/0).
  * The rows are sorted by points, goal difference and goals scored, all descending, then by the code's alphabet position ascending.
  * Ranks 1..n are handed out in that order.
  * `CalculateStandings` is the loop nest of the source; the inner loop's body is the method `CreditResult`. Both are proved equal to functional specifications (`StandingsOf`, `AddResult`), and the properties are proved about those.
* **Bracket** (`bracket.dfy`).
  * Each cup (Champions, Elite, Classical) takes a band of four ranks: offset 0, 4 or 8.
  * The semifinals are 1st v 4th and 2nd v 3rd of the band.
  * The final pairs the semifinal winners, and the third-place match pairs the losers.
  * A knockout is won on goals, or on the shoot-out after a regulation draw. Otherwise it is undecided.
  * Bracket slots are not stored. They are re-derived from the ranking and the stored knockout scores.
  * The bracket picture shows a placeholder ("SF1勝者", "SF2勝者", "SF1敗者", "SF2敗者", "優勝", "3位") for each place that is not decided yet.
* **Score book** (`scorebook.dfy`).
  * The two result tables, as a class with the two methods that write one entry each.
  * The hand-over of the ranked team names from the standings to the bracket.
* `dict.dfy` models a Python `dict`: an insertion-ordered sequence of entries with distinct keys, `get` and `d[k] = v`.
* `text.dfy` models `str.split`, `str.startswith` and `str(n)`. It also has the join of a non-empty list of pieces, used to state the split round trips. Python's join of an empty list is `""`; the application never joins, so that case is not modelled.
* `optional.dfy` models Python's `None`.

## Model

| member | source | states |
|---|---|---|
| Text.SplitJoin | app.py:289 | splitting a `_`-joined list of separator-free pieces gives back the pieces |
| Text.JoinSplit | app.py:289 | joining the pieces of a split with the separator gives back the string |
| Text.Split | app.py:289 | `str.split` on a single character gives at least one piece, and no piece contains the separator (partners: `Text.SplitJoin`, `Text.JoinSplit`) |
| Text.FirstPiece | app.py:288-289 | a key that starts with a separator-free league name and `_` has that name as its first piece |
| Text.PrefixBeforeSeparator | app.py:288 | `a + "_" + x` starts with `b + "_"` exactly when `a == b`, for separator-free `a`, `b` |
| Standings.FreshRow | app.py:285-286 | a team's row starts with its name and code, sort index `ord(code) - 65`, and every counter zero (played, goals for, goals against, points, goal difference), so the bookkeeping identities hold |
| Standings.AddResult | app.py:288-303 | a result that does not count for the team leaves its row unchanged. A counted result adds one match played and the goals from the team's side (home as `(s1,s2)`, away mirrored). It adds to wins iff scored > conceded, to draws iff equal, to losses iff fewer, and to exactly one of the three. Points = 3·W + D, played = W + D + L and goal difference = for − against are preserved |
| Standings.Counts | app.py:288-292 | a counted result's key, for a league name without `_`, has that league as its first piece |
| Standings.Role | app.py:288-303 | a result plays a role for a team exactly when it counts for the league and part 2 or part 3 of its key is the team's code; the role is the score `(s1, s2)` or its mirror `(s2, s1)` |
| Standings.ResultTouchesRowIff | app.py:287-292 | a result changes a team's row iff its key has the league prefix, splits into at least 4 parts, both goals are present, and part 2 or part 3 is the team's code |
| Standings.TotalsOf | app.py:287-303 | the totals of the results counting for a team satisfy played = W + D + L and played ≤ number of results, and played is 0 exactly when no result counts for the team |
| Standings.Tally | app.py:287-303 | crediting every result keeps name, code and sort index and adds exactly the totals of the counted results: their number to played, their goals scored and conceded to goals for and against, their wins, draws and losses, 3·W + D to points and scored − conceded to goal difference; it adds at most one match per result and preserves the bookkeeping identities |
| Standings.Before | app.py:306 | more points always ranks higher; a row ranked higher has at least as many points and, on equal points, at least the goal difference |
| Standings.BeforeIsStrictTotalOrder | app.py:306 | the tie-break chain (points, goal difference, goals scored, code index) is irreflexive, asymmetric and transitive, and total on rows with distinct codes |
| Standings.Insert | app.py:306 | inserting a row into a strictly sorted sequence keeps it strictly sorted and adds exactly that row |
| Standings.SortRows | app.py:306 | the sort yields a strictly sorted permutation of the rows |
| Standings.SortedUnique | app.py:306 | two strictly sorted permutations of the same rows are equal, so the order does not depend on the sort algorithm |
| Standings.DistinctCodesGiveDistinctIndices | app.py:284-286 | distinct team codes give the rows distinct sort indices |
| Standings.AssignRanks | app.py:307 | numbering keeps the rows in order and gives the i-th row rank i + 1, so ranks strictly increase |
| Standings.StandingsOf | app.py:281-308 | the table has one row per team of the chosen league, ranked 1..n in order |
| Standings.CreditResult | app.py:288-303 | one pass of the inner loop, with its early exits for another league's key, a key of fewer than 4 parts and a missing goal, returns exactly the row `AddResult` describes |
| Standings.RankedRows | app.py:306-307 | sorting and numbering rows with distinct sort indices gives ranks 1..n in order, a strict `Before` order and the same rows |
| Standings.RankedRowsConsistent | app.py:306-307 | sorting and numbering keeps the bookkeeping identities of every row |
| Standings.TeamRowsConsistent | app.py:284-304 | every team's unsorted row satisfies points = 3·W + D, played = W + D + L and goal difference = for − against |
| Standings.CalculateStandings | app.py:281-308 | the loop over the teams, each crediting every stored result in order, then sorting and numbering, returns exactly the ranked table `StandingsOf` |
| Standings.StandingsProperties | app.py:281-308 | the table has one row per team of the chosen league. Ranks are 1..n in order, each row ranks strictly above every later row, the rows are exactly the teams' tallies, and every row satisfies points = 3·W + D, played = W + D + L and goal difference = for − against |
| Standings.LeagueKey | app.py:593 | a match key starts with the league name and `_`, and ends with `home_away` |
| Standings.KeyRoundTrip | app.py:593 | a key built as `league_slot_home_away` splits back into `[league, slot, home, away]` and passes its own league's prefix filter |
| Standings.KeyLeagueFilter | app.py:288 | a key built for one league passes another league's prefix filter iff the two leagues are the same |
| Standings.RecordedScoreRoles | app.py:291-303 | a stored score counts for its home team as (s1, s2), for its away team as (s2, s1), for no other team, and for nobody while a goal is missing |
| Standings.TallyUnchangedByIrrelevantWrite | app.py:287-292 | writing any value under a key that can never count for a team leaves that team's tally unchanged |
| Standings.OtherLeagueWriteInvisible | app.py:288 | recording a score of the other league changes no row of this league |
| Standings.WriteTouchesOnlyItsTeams | app.py:291-303 | recording a score changes the rows of that match's two teams only |
| Bracket.CupOffset | app.py:311-315 | the band offset is 0, 4 or 8: 4 exactly for Elite, 8 exactly for Classical, 0 for Champions and any other name |
| Bracket.CupBandsPartition | app.py:311-315 | the three cups' bands split ranks 0..11 with every rank in exactly one band |
| Bracket.Band | app.py:333-334 | a cup's four teams are ranks offset..offset+3 in order |
| Bracket.MatchId | app.py:342 | a match id is the league, `_`, the cup, `_`, and the round name, in that order |
| Bracket.MatchIdsDistinct | app.py:342 | the four rounds of a cup have four different match ids |
| Bracket.Stored | app.py:318 | an id without a stored score reads as four missing fields; a stored one reads as the value stored under it |
| Bracket.MatchResult | app.py:318-329 | a match without a stored score has neither winner nor loser, and a match has a winner exactly when it has a loser |
| Bracket.Decide | app.py:317-329 | winner and loser are both `None` or opposite sides. Left wins iff s1 > s2, or s1 == s2 with both penalties present and pk1 > pk2 (right wins in the mirrored case). The match is undecided iff a goal is missing, or the goals are level and a penalty is missing or the penalties are level |
| Bracket.DecideMirror | app.py:321-328 | exchanging the two sides of a score exchanges winner and loser |
| Bracket.Pick | app.py:344-347 | a slot fed by a semifinal is filled exactly when that semifinal is decided, and then by one of its two teams |
| Bracket.Resolve | app.py:331-340 | with fewer than 12 ranked teams every slot is `None`; otherwise SF1 is band[0] v band[3] and SF2 is band[1] v band[2] |
| Bracket.FinalAndThirdFollowSemis | app.py:342-354 | each side of the final is its semifinal's winner and each side of the third-place match its loser, `None` while that semifinal is undecided |
| Bracket.ResolveDependsOnlyOnSemiOutcomes | app.py:342-354 | the slots depend on the stored knockout scores only through the outcomes of the cup's two semifinals |
| Bracket.ResolveReadsOnlySemis | app.py:342-344 | storing any score under an id other than the two semifinal ids changes no slot |
| Bracket.FinalScoreCannotFillSlots | app.py:342-354 | a score stored under the final's or the third-place match's id changes no slot, so an undecided semifinal's slots stay `None` |
| Bracket.DecidedSemiSplitsItsPair | app.py:344-354 | a decided semifinal sends one of its two teams to the final and the other to the third-place match, on its own side |
| Bracket.DecidedSemisFillFinalAndThird | app.py:344-354 | once both semifinals are decided, the four final and third-place occupants are exactly the cup's four band teams (as a multiset) |
| Bracket.Labels | app.py:408-424 | no picture (`None`) exactly when fewer than 12 teams are ranked |
| Bracket.Choose | app.py:419-424 | a label is its placeholder while its match is undecided, otherwise one of the two names the match is between |
| Bracket.LabelsFor | app.py:418-424 | the seed labels are the band teams in rank order. While SF1 (SF2) is undecided its finalist and third-place labels are its placeholders; once decided they are its two teams, one each. The champion (third place) label is "優勝" ("3位") while that match is undecided and otherwise one of its two contender labels |
| Bracket.LabelsAgreeWithSlots | app.py:411-422 | the seed labels are the band in rank order. Each finalist or third-place label is the resolved slot, or "SF1勝者", "SF2勝者", "SF1敗者", "SF2敗者" while its semifinal is undecided |
| Bracket.ChampionLabelCases | app.py:423 | the champion label is "優勝" while the final is undecided, otherwise the finalist label its winner picks |
| Bracket.ThirdPlaceLabelCases | app.py:424 | the third-place label is "3位" while that match is undecided, otherwise the contender label its winner picks |
| Bracket.DecidedPodium | app.py:419-424 | with all four matches decided, the champion is the final winner's slot and the third-placed team the third-place winner's slot. Both are teams of the band, and they differ when the band's names are distinct |
| Dict.Get | app.py:318 | `get` is `None` exactly for an absent key, and a found value is stored under that key |
| Dict.Assign | app.py:612 | `d[k] = v` makes the keys the old keys plus `k`. For an existing key the length is unchanged; a new key is appended as `(k, v)` after the old entries |
| Dict.AssignInPlace | app.py:612 | on a dict with distinct keys that holds `k`, `d[k] = v` puts `(k, v)` at the position `k` had and leaves every other entry where it was |
| Dict.GetAfterAssign | app.py:612 | after `d[k] = v`, looking up `k` gives `v` and every other key gives what it gave before |
| Dict.AssignKeepsDistinct | app.py:383 | `d[k] = v` keeps the keys distinct |
| ScoreBook.KnockoutRecord | app.py:375-383 | the saved record holds both regulation goals, and holds the shoot-out goals exactly when the regulation goals are level |
| ScoreBook.RecordedKnockoutDecision | app.py:375-383 | a knockout saved from the card is undecided iff the goals and the shoot-out are both level; otherwise left wins iff it leads on goals or, level there, on penalties |
| ScoreBook.RankedNames | app.py:630 | the bracket receives one name per standings row, the i-th name being the name of the i-th ranked row |
| ScoreBook.SemifinalSeedsFromStandings | app.py:630-644 | the semifinals of a cup are played by the teams ranked offset+1 v offset+4 and offset+2 v offset+3 in the standings |
| ScoreBook.ScoreBook.RecordLeagueScore | app.py:612 | the league table becomes `results[key] = (v1, v2)`. Lookups of every other key are unchanged, the knockout table is unchanged, and keys stay distinct |
| ScoreBook.ScoreBook.RecordKnockoutScore | app.py:375-383 | the knockout table becomes `tourn_results[id] = (v1, v2, pk)`, with penalties stored only after a regulation draw. Lookups of every other id are unchanged, the league table is unchanged, and ids stay distinct |

## Left out

- Page layout, tabs, forms, buttons and the rerun flow. These are user interface with nothing to compute.
- The editing state that decides when a score can be entered. For example, the "入力" button only appears once both teams of a knockout are known. The model lets any score be written at any time.
- Secrets, password check, login through query parameters, and reset. These are authentication plumbing.
- JSON load and save, and file deletion. These are file I/O; the score book starts empty instead.
- The timetable templates and the clock arithmetic with `datetime`. These are static tables and library date code. Match keys take the slot number as a parameter.
- Assembly of the Graphviz DOT text and chart rendering. These go through a foreign library. The model keeps the ten labels the picture shows, not the picture.
- Building, styling and displaying the pandas DataFrame. Only the sort order and the rank numbering are modelled. The pandas sort is modelled by an insertion sort with the same strict comparator, and `Standings.SortedUnique` shows that any strictly sorted permutation is the same sequence.
- `get_team_name` and other display-name lookups. These are cosmetic.
- Team codes are single characters (`Team.code: char`), as `ord(code)` requires in the source. Team tables are sequences with distinct codes instead of dicts.
- Bracket.Resolve: round names form a closed datatype (`SF1`, `SF2`, `Final`, `Third`, each with a left and an opposite side), so the source's final `return None` for an unknown round name cannot occur.
- Bracket.Resolve: the unused `match_id_prefix` parameter is dropped.
- Standings.CalculateStandings: requires distinct team codes. The source reads them from a dict, so they are distinct there too.
- Goals are unbounded integers. The number inputs limit nothing in the source, so there is no width to model.
