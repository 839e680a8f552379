# Pickleball club: matchmaking, statistics and export, modelled in Dafny

This project models the logic of a pickleball club's session manager.

- **Matchmaking engine.** It proposes the next doubles match from the players
  available on court and the session's match history. There are three modes:
  - rotation, for fair play time;
  - strict partners, which penalises repeated partnerships;
  - playoff seeding, where #1 and #4 play #2 and #3.
- **Stats endpoint.** It rebuilds every player's counters from the finished
  matches.
- **Match-update endpoint.** It reverts a match's old result and applies the
  corrected one.
- **CSV export.** It writes a session's match history to a file.
- **In-memory storage adapter.** The test suite runs against it.
- **Session quality counters.** They are shown on the session page.

## Modules

| file | module | what it holds |
|---|---|---|
| `util.dfy` | `Util` | Option, JavaScript's default string order (`LexLess`, a strict total order), `join`, `filter`, decimal rendering |
| `types.dfy` | `Types` | the stored records: `Player`, `Match`, `RosterSession` |
| `stable_sort.dfy` | `StableSorting` | one stable insertion sort standing for every `Array.prototype.sort` call, proved sorted, a permutation and stable |
| `match_order.dfy` | `MatchOrder` | matches in ascending timestamp order |
| `matchmaker.dfy` | `Matchmaker` | the engine: team keys, the partnership ledger, fatigue, fairness stats, selection, scoring, analytics, reasons, playoff seeding |
| `matchmaker_properties.dfy` | `MatchmakerProperties` | what the engine promises, as lemmas |
| `stats_route.dfy` | `StatsRoute` | the zero-then-aggregate statistics pass |
| `mock_storage.dfy` | `MockStorage` | the storage adapter as a class over three sequences |
| `matches_route.dfy` | `MatchesRoute` | the match-update request: lock guard, winner from scores, revert then reapply, run against the storage class |
| `session_export.dfy` | `SessionExport` | CSV quoting (section 2, rules 6 and 7 of RFC 4180), rows, the filename |
| `session_stats.dfy` | `SessionStats` | the quality counters |

Imperative source becomes methods whose loops carry invariants. Each method is
proved equal to a specification function, and the lemmas state the properties
of those functions. This applies to:

- the stats pass;
- the player-stats, ledger and fatigue loops;
- the config scoring loop;
- the quality counters;
- the update bookkeeping.

The storage adapter is a class whose methods state its whole new state.

Sorting comparators are modelled as follows:

- `b.timestamp - a.timestamp` is written as the strict "less than" it induces.
- The engine stably sorts by that order, so ties keep their input order. With
  no history, for example, rotation proposes the first four players in the
  order given.

"Never played" (`Infinity` in the source) is the sentinel `|history|`.

## Model

| member | source | states |
|---|---|---|
| Matchmaker.HistoricalTeams | src/lib/matchmaker.ts:38-49 | the set built is exactly the ledger of normalised two-player team keys of the history |
| MatchmakerProperties.NormalizeTeamSymmetric | src/lib/matchmaker.ts:31-33 | a team's key does not depend on the order its two IDs are listed in |
| MatchmakerProperties.NormalizeTeamInjective | src/lib/matchmaker.ts:31-33 | for unambiguous IDs (none contains '-', or all have one length, as generated UUIDs do), two teams share a key iff they hold the same two players |
| MatchmakerProperties.DashedIdsCollide | src/lib/matchmaker.ts:31-33 | IDs that contain '-' and differ in length can give two different teams one key |
| MatchmakerProperties.LedgerMembership | src/lib/matchmaker.ts:38-49 | a key is in the ledger iff some match of the history has a two-player team with that key |
| Matchmaker.SortedHistory | src/lib/matchmaker.ts:102 | the timestamp-descending copy keeps the history's length |
| MatchmakerProperties.SortedHistoryNewestFirst | src/lib/matchmaker.ts:102 | the sorted history is a permutation of the history, newest first |
| Matchmaker.FatiguedPlayers | src/lib/matchmaker.ts:107-117 | the loop builds exactly the set of IDs in both of the two newest matches, empty with fewer than two |
| Matchmaker.InitialStats | src/lib/matchmaker.ts:58-67 | exactly the available players get an entry, with no games and "never played" |
| Matchmaker.RecordMatch | src/lib/matchmaker.ts:73-85 | one match adds each player's occurrences to its games and sets its last-played position only the first time it appears; the keys are unchanged |
| Matchmaker.CalculatePlayerStats | src/lib/matchmaker.ts:54-88 | the loop yields the per-player stats function over the newest-first history |
| Matchmaker.StatsStep | src/lib/matchmaker.ts:73-85 | one more match adds the player's occurrences and keeps the first position found |
| Matchmaker.LastPlayedIndex | src/lib/matchmaker.ts:65-84 | the recorded position lies within the history or is the "never" sentinel |
| MatchmakerProperties.LastPlayedIndexIsFirstAppearance | src/lib/matchmaker.ts:73-85 | the recorded position is the newest match holding the player, and no newer match holds it |
| MatchmakerProperties.GamesPlayedIffPlayed | src/lib/matchmaker.ts:73-85 | a player has games counted iff it has a last-played position |
| StableSorting.SortPermutes | src/lib/matchmaker.ts:217-233 | sorting permutes its input |
| StableSorting.SortSorted | src/lib/matchmaker.ts:217-233 | under a strict weak order, sorting yields an ordered sequence |
| StableSorting.SortAllTied | src/lib/matchmaker.ts:217-233 | when every pair is tied, the sort leaves the input unchanged |
| StableSorting.SortStable | src/lib/matchmaker.ts:217-233 | stability: for any x, the elements tied with x come out in their input order |
| MatchmakerProperties.RotationOrderIsStrictWeakOrder | src/lib/matchmaker.ts:217-232 | the rotation comparator (rested first, longer rest first, fewer games first) is a strict weak order |
| MatchmakerProperties.RotationSelectionIsBest | src/lib/matchmaker.ts:217-233 | rotation picks four available players, and no passed-over player precedes any of them |
| MatchmakerProperties.RotationPrefersRested | src/lib/matchmaker.ts:217-233 | with at least four rested players available, no fatigued player is picked |
| MatchmakerProperties.EmptyHistoryTakesFirstFour | src/lib/matchmaker.ts:217-249 | with no history, the proposal is the first four available players in input order, p1 and p2 against p3 and p4 |
| MatchmakerProperties.SelectionFromAvailable | src/lib/matchmaker.ts:128-233 | in either mode, every selected player is available |
| MatchmakerProperties.StrictSelectsFour | src/lib/matchmaker.ts:128-213 | with distinct IDs and at least four available, strict mode selects exactly four |
| MatchmakerProperties.SelectionDistinct | src/lib/matchmaker.ts:128-233 | with distinct available IDs, and a newest match (if any) that lists no player twice, the selection has no duplicates |
| Matchmaker.Configs | src/lib/matchmaker.ts:239-249 | there are three candidate splits, each two against two |
| MatchmakerProperties.SplitsRearrangeSelection | src/lib/matchmaker.ts:239-249 | each split holds exactly the four selected players, all different when the selection is |
| Matchmaker.ScoreConfig | src/lib/matchmaker.ts:255-305 | one split's score: a repeat penalty per team already played (1000 strict, 100 rotation) plus, when both last winners are selected, +50/+200 for separating them or -75/-300 for keeping them together |
| Matchmaker.ScoreConfigs | src/lib/matchmaker.ts:252-307 | the scoring loop yields one score per split, as the score function gives it |
| Matchmaker.ScoreAll | src/lib/matchmaker.ts:252-307 | one scored entry per split |
| MatchmakerProperties.ScoreParts | src/lib/matchmaker.ts:255-306 | a split's score is the winner rule's term (+200/−300 rotation, +50/−75 strict) minus 100 (rotation) or 1000 (strict) per team already in the ledger |
| MatchmakerProperties.SplitOutscoresTogether | src/lib/matchmaker.ts:265-283 | in rotation, when the winner rule applies, a split separating the winners outscores one keeping them together |
| Matchmaker.Rank | src/lib/matchmaker.ts:310 | the descending stable sort keeps every scored split |
| MatchmakerProperties.HigherScoreIsStrictWeakOrder | src/lib/matchmaker.ts:310 | the score comparator is a strict weak order |
| Matchmaker.RankedWellShaped | src/lib/matchmaker.ts:310-311 | every ranked split is still two against two |
| Matchmaker.ProposeMatchSpec | src/lib/matchmaker.ts:94-335 | fewer than four available gives null; a proposal has two teams of two and three ranked splits |
| Matchmaker.ProposeMatch | src/lib/matchmaker.ts:94-335 | the imperative proposal equals the specification function |
| MatchmakerProperties.ProposesIffFourAvailable | src/lib/matchmaker.ts:100-236 | with distinct IDs, a proposal is made iff at least four players are available |
| MatchmakerProperties.ProposalIsBestSplit | src/lib/matchmaker.ts:245-327 | the proposed teams are the first split of maximum score, and the analytics are computed for it |
| MatchmakerProperties.StrictMinimisesRepeats | src/lib/matchmaker.ts:255-311 | in strict mode no split repeats fewer ledger teams than the proposal |
| MatchmakerProperties.RestedWinners | src/lib/matchmaker.ts:129-130 | the last winners who are available and not fatigued |
| MatchmakerProperties.WinnersCandidate | src/lib/matchmaker.ts:135-155 | the candidate starts with the winners |
| MatchmakerProperties.StrictKeepsFreshWinners | src/lib/matchmaker.ts:125-213 | in strict mode, with distinct IDs: when both last winners are available and rested and the candidate has a fresh split, the selection is the winners then the two best-ranked others, both winners are in the proposal and it repeats no partnership; otherwise the selection is rotation's |
| MatchmakerProperties.FreshWinnersProposal | src/lib/matchmaker.ts:157-311 | a fresh winners candidate is selected, both winners play, and the proposal repeats no partnership |
| MatchmakerProperties.StrictPicksCandidate | src/lib/matchmaker.ts:128-173 | a fresh candidate is the strict selection, four players starting with the two winners |
| MatchmakerProperties.FreshConfigRepeatsNothing | src/lib/matchmaker.ts:157-169 | a fresh split of the candidate is one of the three splits with no repeated team |
| MatchmakerProperties.ProposalHoldsSelection | src/lib/matchmaker.ts:239-311 | the proposal's two teams hold all four selected players |
| MatchmakerProperties.ProposalIsFourDistinctAvailable | src/lib/matchmaker.ts:239-327 | with distinct available IDs and no history match listing a player twice, the four proposed players are distinct and all available |
| MatchmakerProperties.RotationSplitsWinners | src/lib/matchmaker.ts:265-311 | in rotation, if some split separates the selected last winners, the proposal separates them |
| MatchmakerProperties.SplitExists | src/lib/matchmaker.ts:245-249 | among four distinct players with unambiguous IDs, some split separates any two of them by key |
| MatchmakerProperties.RotationAlwaysSplitsWinners | src/lib/matchmaker.ts:217-311 | in rotation, with distinct unambiguous IDs, whenever both last winners are selected the proposal splits them |
| MatchmakerProperties.RotationWinnersSelected | src/lib/matchmaker.ts:215-236 | with distinct available IDs, at least four of them, no history match listing a player twice, and the winner rule applying: rotation selects four distinct available players, and the selected winners are two distinct players |
| MatchmakerProperties.AnalyticsWinnersSplit | src/lib/matchmaker.ts:352-365 | `winnersWereSplit` is null unless both last winners were selected, and otherwise says whether the proposal separates them |
| MatchmakerProperties.AnalyticsReportsRepeats | src/lib/matchmaker.ts:338-388 | `keptWinners` iff both last winners were selected; `hadFatiguedPlayers` holds exactly the selected fatigued players; one sorted partnership is reported per proposed team whose key is in the ledger |
| MatchmakerProperties.SortedPairKey | src/lib/matchmaker.ts:373-380 | a reported partnership lists its two players in string order and joins to the team's key |
| MatchmakerProperties.NoReasonsIff | src/lib/matchmaker.ts:409-424 | no reason is given iff the mode is rotation, both teams repeat and all four players are fatigued |
| MatchmakerProperties.JoinedReasonsNotFallback | src/lib/matchmaker.ts:426-428 | a joined list of reasons never reads as the fallback sentence |
| MatchmakerProperties.FallbackReasonWhenNothingToSay | src/lib/matchmaker.ts:409-428 | the main reason is the fallback sentence iff no reason applies |
| MatchmakerProperties.FractionNegativelyTransitive | src/lib/matchmaker.ts:462-478 | the cross-multiplied ratio comparison is negatively transitive |
| MatchmakerProperties.PlayoffPrecedesIsStrictWeakOrder | src/lib/matchmaker.ts:462-478 | the playoff ranking comparator is a strict weak order |
| Matchmaker.ProposePlayoffMatch | src/lib/matchmaker.ts:451-519 | null iff fewer than four are available or fewer than four stats belong to available players; otherwise two teams of two |
| MatchmakerProperties.PlayoffSeeding | src/lib/matchmaker.ts:457-492 | the ranking is a permutation of the available players' stats, in comparator order (no later player precedes an earlier one: higher win fraction, then more wins, then more points, then more points per game); team1 is seeds 1 and 4, team2 seeds 2 and 3 |
| MatchOrder.Chronological | src/components/SessionStats.tsx:65 | the ascending-timestamp copy keeps every match |
| MatchOrder.ChronologicalOrder | src/lib/session-match-history-export.ts:54-56 | the copy is a permutation in ascending timestamp order |
| MatchOrder.ChronologicalKeepsTies | src/lib/session-match-history-export.ts:56 | for every timestamp, the matches stored at that time keep their stored order, whatever the other matches are |
| MatchOrder.TiedAreSameTime | src/lib/session-match-history-export.ts:56 | under the timestamp comparator, the matches tied with x are exactly those at x's timestamp |
| StatsRoute.FirstOccurrences | src/app/api/stats/route.ts:31-63 | the map's keys, in first-insertion order: distinct, and exactly the stored IDs |
| StatsRoute.LatestRecord | src/app/api/stats/route.ts:34-41 | a key's value is a stored record with that ID |
| StatsRoute.StatsReport | src/app/api/stats/route.ts:17-63 | one entry per distinct stored ID |
| StatsRoute.ZeroedEntries | src/app/api/stats/route.ts:31-42 | the initial map holds exactly the stored IDs, each with zeroed counters, and its keys in first-insertion order |
| StatsRoute.CreditTeam | src/app/api/stats/route.ts:45-60 | crediting one team adds to each stored player its appearances in the team, and leaves the keys alone |
| StatsRoute.FoldMatches | src/app/api/stats/route.ts:44-61 | after the fold, each entry holds its starting counters plus its totals over the counted matches |
| StatsRoute.ComputeStats | src/app/api/stats/route.ts:10-63 | the imperative pass returns the specification report |
| StatsRoute.ReportOnePerStoredPlayer | src/app/api/stats/route.ts:31-63 | entries follow the stored order of first appearance; with distinct IDs, entry k is player k zeroed and credited with its totals |
| StatsRoute.FirstOccurrencesOfDistinct | src/app/api/stats/route.ts:34-42 | with distinct IDs the key order is the stored order |
| StatsRoute.LatestRecordOfDistinct | src/app/api/stats/route.ts:34-42 | with distinct IDs each key maps to its own record |
| StatsRoute.CountedAppend | src/app/api/stats/route.ts:18-28 | a further match is counted iff it is finished and, for `today`, not before the threshold |
| StatsRoute.ReportAddsMatchCredit | src/app/api/stats/route.ts:18-61 | one more match adds its credit to each entry when counted and changes nothing otherwise |
| StatsRoute.ReportAppend | src/app/api/stats/route.ts:44-61 | folding one more counted match adds exactly that match's credit to each entry |
| StatsRoute.TotalsAppend | src/app/api/stats/route.ts:44-61 | a player's totals over a longer list add the new match's credit |
| StatsRoute.SingleAppearanceCredit | src/app/api/stats/route.ts:55-60 | a player listed once plays one game; on team1 it wins iff the winner is 1 and scores s1 against s2; on team2 it wins iff the winner is not 1 (undefined included) and scores s2 against s1; missing scores are 0 |
| StatsRoute.NoCreditUnlisted | src/app/api/stats/route.ts:59-60 | a player in neither team gets nothing from the match |
| StatsRoute.ReportIgnoresUnknown | src/app/api/stats/route.ts:46-47 | a match of only unstored IDs leaves every entry unchanged |
| StatsRoute.UnknownIdsIgnored | src/app/api/stats/route.ts:46-47 | the same for the whole report |
| StatsRoute.TotalsWonAtMostPlayed | src/app/api/stats/route.ts:48-49 | wins never exceed games played |
| StatsRoute.ReportWonAtMostPlayed | src/app/api/stats/route.ts:48-63 | every reported entry has wins ≤ games played |
| StatsRoute.TeamCreditStep | src/app/api/stats/route.ts:59-60 | crediting one more team member adds one game to that member only |
| MockStorage.MockStorageAdapter.constructor | tests/helpers/mock-storage.ts:11-19 | the three collections start as copies of the arguments |
| MockStorage.MockStorageAdapter.GetPlayers | tests/helpers/mock-storage.ts:22-24 | returns the stored players |
| MockStorage.MockStorageAdapter.AddPlayer | tests/helpers/mock-storage.ts:26-44 | returns the first player whose name matches case-insensitively and changes nothing; otherwise appends and returns a zero-stat player |
| MockStorage.ToLower | tests/helpers/mock-storage.ts:28 | lowering keeps the length and leaves no upper-case letter |
| MockStorage.AddPlayerTwiceReturnsFirst | tests/helpers/mock-storage.ts:26-44 | after a new name is added, looking it up finds the added player |
| MockStorage.MockStorageAdapter.UpdatePlayer | tests/helpers/mock-storage.ts:46-51 | replaces the first player with that ID; nothing else changes |
| MockStorage.ReplaceFirst | tests/helpers/mock-storage.ts:46-141 | length kept; no match leaves the list as it was; every other position unchanged |
| MockStorage.ReplaceFirstFound | tests/helpers/mock-storage.ts:46-141 | after replacing, the first record with that ID is the new one |
| MockStorage.FirstIndex | tests/helpers/mock-storage.ts:47-137 | `findIndex`: the first position satisfying the test, or none when no position does |
| MockStorage.FirstWhere | tests/helpers/mock-storage.ts:28-59 | `find`: a result exists iff some element matches, and it is an element that matches |
| MockStorage.MockStorageAdapter.GetActiveSession | tests/helpers/mock-storage.ts:54-56 | the first active session, or null |
| MockStorage.MockStorageAdapter.GetSession | tests/helpers/mock-storage.ts:58-60 | the first session with that ID, or null |
| MockStorage.MockStorageAdapter.GetSessions | tests/helpers/mock-storage.ts:62-64 | returns the stored sessions |
| MockStorage.MockStorageAdapter.CreateSession | tests/helpers/mock-storage.ts:66-82 | deactivates every session and appends an active, unclosed, empty one |
| MockStorage.Deactivated | tests/helpers/mock-storage.ts:68-70 | every session is inactive, with nothing else changed |
| MockStorage.OnlyNewSessionActive | tests/helpers/mock-storage.ts:66-82 | after creation exactly the new session is active, and it is the one `getActiveSession` finds |
| MockStorage.MockStorageAdapter.StartNewSession | tests/helpers/mock-storage.ts:84-86 | the same as creating a session |
| MockStorage.MockStorageAdapter.CheckInPlayer | tests/helpers/mock-storage.ts:88-97 | fails with "No active session" when none is active; otherwise only the first active session changes, gaining the ID if absent |
| MockStorage.CheckedIn | tests/helpers/mock-storage.ts:94-96 | the ID is on the roster afterwards, earlier IDs stay, and no other field changes |
| MockStorage.CheckInKeepsDistinct | tests/helpers/mock-storage.ts:94-96 | a roster without duplicates stays without duplicates |
| MockStorage.MockStorageAdapter.CheckOutPlayer | tests/helpers/mock-storage.ts:99-106 | fails with "No active session" when none is active; otherwise only the first active session changes, losing the ID |
| MockStorage.CheckedOut | tests/helpers/mock-storage.ts:105 | every occurrence of the ID goes; every other ID keeps its count; no other field changes |
| MockStorage.CheckOutUndoesCheckIn | tests/helpers/mock-storage.ts:88-106 | checking out a player just checked in restores the roster |
| MockStorage.MockStorageAdapter.CloseSession | tests/helpers/mock-storage.ts:108-116 | fails with "Session not found" when the ID is unknown; otherwise the first such session is closed |
| MockStorage.Closed | tests/helpers/mock-storage.ts:114-115 | inactive and closed, with ID, start date and roster untouched |
| MockStorage.MockStorageAdapter.DeleteSession | tests/helpers/mock-storage.ts:118-121 | removes exactly the sessions with that ID and the matches of that session, keeping the rest in order |
| MockStorage.MockStorageAdapter.GetMatches | tests/helpers/mock-storage.ts:124-126 | returns the stored matches |
| MockStorage.MockStorageAdapter.GetMatchesBySessionId | tests/helpers/mock-storage.ts:128-130 | the matches of that session in stored order |
| MockStorage.MockStorageAdapter.AddMatch | tests/helpers/mock-storage.ts:132-134 | appends the match |
| MockStorage.MockStorageAdapter.UpdateMatch | tests/helpers/mock-storage.ts:136-141 | replaces the first match with that ID |
| MockStorage.MockStorageAdapter.DeleteMatch | tests/helpers/mock-storage.ts:143-145 | removes every match with that ID |
| MockStorage.MockStorageAdapter.Reset | tests/helpers/mock-storage.ts:148-152 | all three collections become empty |
| MockStorage.MockStorageAdapter.Seed | tests/helpers/mock-storage.ts:154-162 | the collections become the given ones |
| MatchesRoute.NewWinner | src/app/api/matches/route.ts:97-100 | team 1 wins only on a strictly higher score; ties go to team 2 |
| MatchesRoute.Saved | src/app/api/matches/route.ts:67-112 | a finished match is saved with the computed winner; an unfinished one is saved as sent |
| MatchesRoute.BumpFirst | src/app/api/matches/route.ts:73-82 | a single ID's update keeps the list's length |
| MatchesRoute.UpdateStats | src/app/api/matches/route.ts:72-83 | a team's update keeps the list's length |
| MatchesRoute.UpdateStatsKeepsIds | src/app/api/matches/route.ts:72-83 | no player's ID changes |
| MatchesRoute.UpdateStatsPerPlayer | src/app/api/matches/route.ts:72-83 | the first record of each ID gets ± its appearances in the team (one game, a win on the winning side, its own and the opponents' points); other records are unchanged |
| MatchesRoute.ApplyMatch | src/app/api/matches/route.ts:86-108 | applying both teams keeps the list's length |
| MatchesRoute.ApplyMatchKeepsIds | src/app/api/matches/route.ts:86-108 | no player's ID changes |
| MatchesRoute.ApplyMatchPerPlayer | src/app/api/matches/route.ts:86-108 | each player's change is ± the credits from both teams with the scores swapped for team2 |
| MatchesRoute.ApplyIsStatsRouteCredit | src/app/api/matches/route.ts:97-108 | applying a finished update credits each player exactly as the stats endpoint would for the saved match |
| MatchesRoute.RevertUndoesApply | src/app/api/matches/route.ts:86-94 | reverting with multiplier −1 undoes applying with +1 |
| MatchesRoute.RevertUndoesApplyAt | src/app/api/matches/route.ts:86-94 | the same for one player |
| MatchesRoute.CorrectionAsIfOnlyCorrected | src/app/api/matches/route.ts:68-108 | correcting a finished result leaves the totals as if only the corrected result had ever been applied |
| MatchesRoute.UnlistedUnchanged | src/app/api/matches/route.ts:72-83 | a player in neither team is unchanged |
| MatchesRoute.UnknownIdsSkipped | src/app/api/matches/route.ts:75-76 | a match of only unstored IDs changes nothing |
| MatchesRoute.BumpFirstIn | src/app/api/matches/route.ts:73-82 | the in-store update writes exactly the updated list and nothing else |
| MatchesRoute.UpdateStatsIn | src/app/api/matches/route.ts:72-83 | the loop over a team writes exactly the function's result to the store |
| MatchesRoute.ApplyMatchIn | src/app/api/matches/route.ts:102-108 | applying both teams in the store writes exactly the function's result |
| MatchesRoute.CorrectStats | src/app/api/matches/route.ts:67-108 | a finished update reverts any old finished version with a winner, then applies the new result, and returns the new winner; sessions and matches are untouched |
| MatchesRoute.Put | src/app/api/matches/route.ts:50-115 | a locked session's match is rejected with nothing changed; otherwise stats are corrected and the first match with that ID is replaced by the saved match |
| MatchesRoute.SameIdsSameIndex | src/app/api/matches/route.ts:75 | lists with the same IDs find an ID at the same position |
| SessionExport.EscapeString | src/lib/session-match-history-export.ts:5-9 | a value with no quote, comma or line feed is unchanged; otherwise it is wrapped in quotes |
| SessionExport.EscapeRoundTrip | src/lib/session-match-history-export.ts:6-8 | stripping the quotes and un-doubling gives back the value |
| SessionExport.UndoubleDoubled | src/lib/session-match-history-export.ts:7 | un-doubling inverts the quote doubling |
| SessionExport.NumbersUnquoted | src/lib/session-match-history-export.ts:5-9 | a number is written as its decimal text, never quoted |
| SessionExport.Lines | src/lib/session-match-history-export.ts:12-16 | one header line plus one line per row |
| SessionExport.CsvLines | src/lib/session-match-history-export.ts:12-16 | splitting the CSV at line feeds gives the headers joined by commas, then each row's fields in header order |
| SessionExport.PlainRowRoundTrip | src/lib/session-match-history-export.ts:14 | a row with no field needing quotes splits at commas back into its fields in header order, missing keys empty |
| SessionExport.SplitJoin | src/lib/session-match-history-export.ts:15 | joining line-feed-free parts and splitting again gives the parts |
| SessionExport.NameMapIsLastName | src/lib/session-match-history-export.ts:52 | an ID is in the map iff some player has it, and maps to the last such player's name |
| SessionExport.DisplayName | src/lib/session-match-history-export.ts:27 | an unknown ID or a stored empty name shows as `Unknown`; otherwise the stored name |
| SessionExport.TeamNamesOfPair | src/lib/session-match-history-export.ts:26-28 | a pair's names are joined with ` & ` |
| SessionExport.UnstoredIsUnknown | src/lib/session-match-history-export.ts:26-52 | an ID no player has renders as `Unknown` |
| SessionExport.WinnerNames | src/lib/session-match-history-export.ts:61-66 | team1's names for winner 1, team2's for winner 2, empty otherwise |
| SessionExport.ExportRows | src/lib/session-match-history-export.ts:58-83 | one row per exported match, in order |
| SessionExport.ExportedAreFinishedInOrder | src/lib/session-match-history-export.ts:54-56 | exactly the finished matches are exported, ascending by timestamp |
| SessionExport.ExportLines | src/lib/session-match-history-export.ts:46-85 | with line-feed-free inputs the CSV has the header line then one line per exported match, each that match's row |
| SessionExport.RowAvoidsNewline | src/lib/session-match-history-export.ts:58-83 | a row built from line-feed-free inputs has no line feed in any field |
| SessionExport.FallbackDate | src/lib/session-match-history-export.ts:23 | at most 20 characters, all in `[a-zA-Z0-9-_]`, keeping every allowed character and turning every other one into `-` |
| SessionExport.FallbackDateIdempotent | src/lib/session-match-history-export.ts:23 | sanitising twice equals sanitising once |
| SessionExport.FilenameParts | src/lib/session-match-history-export.ts:87 | the filename is `session-`, the date, `-`, the session ID, then `-match-history.csv` |
| SessionExport.ExportFilename | src/lib/session-match-history-export.ts:18-87 | the filename starts with `session-` and the parsed date, or the sanitised fallback date, and ends with `-match-history.csv` |
| SessionStats.PlayersInMatches | src/components/SessionStats.tsx:43-47 | the loop collects exactly the IDs appearing in the matches |
| SessionStats.HadFatigued | src/components/SessionStats.tsx:72-83 | set iff some player of the match is in both preceding matches |
| SessionStats.FatigueIsMatchmakerRule | src/components/SessionStats.tsx:72-83 | that is the engine's fatigue set of the two preceding matches |
| SessionStats.FatigueBlock | src/components/SessionStats.tsx:71-84 | one step advances the fatigue-avoidance count by the next match |
| SessionStats.WinnerSplitBlock | src/components/SessionStats.tsx:86-102 | one step advances the winner-split total and count by the next match |
| SessionStats.PartnershipBlock | src/components/SessionStats.tsx:104-119 | one step advances the variety count and adds the match's keys to both sets |
| SessionStats.CalculateQualityMetrics | src/components/SessionStats.tsx:55-146 | the loop yields the specification counts |
| SessionStats.PairKey | src/components/SessionStats.tsx:92-94 | sorting a pair and joining with '-' gives the engine's team key |
| SessionStats.PartnershipKeyIsLedgerKey | src/components/SessionStats.tsx:105-106 | a two-player team's key is the engine's key and is never empty |
| SessionStats.LedgerStep | src/components/SessionStats.tsx:111-118 | the sets grow by exactly the match's non-empty keys |
| SessionStats.FatigueAvoidedAtMost | src/components/SessionStats.tsx:84-129 | the count is at most the number of matches, and the first two always count |
| SessionStats.SplitsWithinReturns | src/components/SessionStats.tsx:93-100 | splits ≤ returns ≤ matches − 1 |
| SessionStats.VarietyAtMost | src/components/SessionStats.tsx:109-139 | at most the number of matches, at least one if any |
| SessionStats.CountsWithinTotals | src/components/SessionStats.tsx:124-146 | every count is within its total; both match totals are the number of matches |
| SessionStats.VarietyIsFreshTeams | src/components/SessionStats.tsx:104-109 | a match counts iff neither two-player team's key was a team key of an earlier match |
| SessionStats.TeamKeyHoldsBoth | src/components/SessionStats.tsx:92-94 | for unambiguous IDs, a team's key is the winners' key iff the team holds both winners |
| SessionStats.WinnersSplitMeansSeparated | src/components/SessionStats.tsx:90-100 | for two-player teams and unambiguous IDs, a returning pair counts as split iff neither team holds both |
| SessionStats.UsedIsDistinctTeams | src/components/SessionStats.tsx:111-145 | used is the number of distinct two-player team keys; total is n(n−1)/2; unused is total − used |
| SessionStats.PossiblePartnershipsExact | src/components/SessionStats.tsx:122 | the halving is exact: twice the total is n(n−1) |

## Left out

- Every React page and component, and the `useEffect`, fetch and JSX parts of
  `SessionStats.tsx`.
  - The list of finished matches (`SessionStats.tsx:37`) is the input to
    `CalculateQualityMetrics`.
  - `calculateStats` there is floating-point display statistics.
- Percentages and averages are floating point and are not modelled. The
  playoff ranking compares win fraction and points per game exactly, by
  integer cross-multiplication. A JavaScript `number` is modelled as an
  unbounded integer; fractional scores do not arise.
- Clock, locale and randomness are parameters:
  - the "today" threshold;
  - the lock's date key and its lookup;
  - `toISOString` of a timestamp;
  - the parsed-date branch of the filename;
  - generated IDs and start dates.
- Persistence other than the in-memory adapter (Firestore, the JSON file,
  migration) is not modelled. The match-update request runs against the
  in-memory adapter.
- Authentication, routing and the thin session and player routes are not
  modelled. The matchmaker route's availability filter is the caller's choice
  of `availablePlayerIds`.
- The matches route's GET and POST handlers are not modelled. Neither is the
  single-match route under `matches/[id]`.
- Display text is not modelled:
  - the scoring breakdown and `combined` string in `generateReason`;
  - the playoff rationale;
  - the display-name helper inside `generateReason`.

  Which main reason is chosen is modelled.
- `LexLess` compares Dafny characters, which stands for UTF-16 code-unit order.
  Characters outside the Basic Multilingual Plane are not split into
  surrogates.
- MatchmakerProperties.NormalizeTeamInjective: requires unambiguous IDs: either none
  contains '-', or all have one length. The UUIDs the storage adapters generate are all
  36 characters long, so they qualify. IDs that contain '-' and differ in length can give
  two different teams one key, exactly as in the source (DashedIdsCollide).
- MatchmakerProperties.SplitExists: requires unambiguous IDs, for the same reason.
- MatchmakerProperties.RotationAlwaysSplitsWinners: requires distinct, unambiguous
  available IDs, for the same reason, and no history match that lists a player twice.
  If the last winning team is [a, a], the selection holds a twice and no split
  separates the winners.
- SessionStats.TeamKeyHoldsBoth: requires unambiguous IDs, for the same reason.
- SessionStats.WinnersSplitMeansSeparated: requires unambiguous IDs and two-player
  teams, for the same reason.
- MatchmakerProperties.StrictKeepsFreshWinners: requires distinct available IDs, so that
  the candidate has four players.
- SessionStats.UsedIsDistinctTeams: does not claim used ≤ total. A team listing one player
  twice can make it false, and the source does not prevent that.
- MatchmakerProperties.StrictSelectsFour: requires distinct available IDs, and so
  does MatchmakerProperties.ProposesIffFourAvailable. With duplicates the strict-mode candidate can have empty
  slots. The model keeps them and builds the "x-" or "-" keys that the source's
  join produces.
- MockStorage.ToLower: lowers ASCII letters only. JavaScript's `toLowerCase` also folds
  other scripts.
- MockStorage.MockStorageAdapter.GetSessions: the adapter holds records by value. In the source,
  `getSessions` and `getMatches` copy the arrays but share the records, so a
  caller sees later in-place changes. The model does not capture that sharing.
- SessionExport.EscapeString: quotes only on '"', ',' and '\n', like the source. A carriage
  return is left unquoted, although section 2, rule 6 of RFC 4180 would quote
  it.
