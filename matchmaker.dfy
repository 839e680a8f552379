/** The matchmaking engine (src/lib/matchmaker.ts): rotation and strict-partners
    proposals over a snapshot of available players and match history, and the
    playoff seeding. Functions give the specification of each step; the steps the
    source performs with loops (the partnership ledger, the fatigue set, the
    per-player fairness stats, the scoring of the three splits) are methods proved
    against them, and `ProposeMatch` composes them. */
module Matchmaker {
  import opened Util
  import opened StableSorting
  import opened Types

  datatype Mode = Rotation | StrictPartners

  /** Fairness signals of one available player. `lastPlayedIndex` is the position
      (most recent first) of the newest match the player appears in; the source's
      `Infinity` ("never played") is the history length, larger than any position. */
  datatype PlayerStats = PlayerStats(playerId: PlayerId, gamesPlayed: nat, lastPlayedIndex: nat)

  /** One way of splitting the four selected players into two teams. */
  datatype Config = Config(team1: seq<PlayerId>, team2: seq<PlayerId>)

  datatype ScoredConfig = ScoredConfig(config: Config, score: int)

  datatype Partnership = Partnership(player1: PlayerId, player2: PlayerId)

  datatype MatchAnalytics = MatchAnalytics(
    hadFatiguedPlayers: seq<PlayerId>,
    winnersWereSplit: Option<bool>,
    repeatedPartnerships: seq<Partnership>,
    keptWinners: bool)

  /** A rotation proposal. `ranked` is the scoring breakdown before it is rendered
      as text: the three splits with their scores, best first. */
  datatype MatchProposal = MatchProposal(
    team1: seq<PlayerId>,
    team2: seq<PlayerId>,
    mainReason: string,
    ranked: seq<ScoredConfig>,
    analytics: MatchAnalytics)

  /** A playoff proposal; `seeds` are the available players' IDs in ranking order. */
  datatype PlayoffProposal = PlayoffProposal(
    team1: seq<PlayerId>,
    team2: seq<PlayerId>,
    mainReason: string,
    seeds: seq<PlayerId>)

  // ---------------------------------------------------------------------------
  // Team keys and the partnership ledger

  /** `[player1, player2].sort().join('-')` */
  function NormalizeTeam(player1: PlayerId, player2: PlayerId): string
  {
    if LexLess(player2, player1) then player2 + "-" + player1 else player1 + "-" + player2
  }

  predicate WellShaped(c: Config)
  {
    |c.team1| == 2 && |c.team2| == 2
  }

  /** Keys of the 2-player teams of one match; other team sizes add nothing. */
  function TeamKeys(m: Match): set<string>
  {
    (if |m.team1| == 2 then {NormalizeTeam(m.team1[0], m.team1[1])} else {})
    + (if |m.team2| == 2 then {NormalizeTeam(m.team2[0], m.team2[1])} else {})
  }

  /** The partnership ledger: every team key seen in the history. */
  function Ledger(history: seq<Match>): set<string>
  {
    if |history| == 0 then {}
    else Ledger(history[..|history| - 1]) + TeamKeys(history[|history| - 1])
  }

  /** `getHistoricalTeams` */
  method HistoricalTeams(history: seq<Match>) returns (teams: set<string>)
    ensures teams == Ledger(history)
  {
    teams := {};
    for i := 0 to |history|
      invariant teams == Ledger(history[..i])
    {
      var m := history[i];
      if |m.team1| == 2 {
        teams := teams + {NormalizeTeam(m.team1[0], m.team1[1])};
      }
      if |m.team2| == 2 {
        teams := teams + {NormalizeTeam(m.team2[0], m.team2[1])};
      }
      assert history[..i + 1][..i] == history[..i];
    }
    assert history[..|history|] == history;
  }

  // ---------------------------------------------------------------------------
  // History order and fatigue

  /** The comparator `(a, b) => b.timestamp - a.timestamp`: newer first. */
  predicate MoreRecent(a: Match, b: Match)
  {
    a.timestamp > b.timestamp
  }

  function SortedHistory(history: seq<Match>): (sorted: seq<Match>)
    ensures |sorted| == |history|
  {
    StableSort(history, MoreRecent)
  }

  /** Players present in both of the two most recent matches; none with fewer than two. */
  function FatigueSet(sortedHistory: seq<Match>): set<PlayerId>
  {
    if |sortedHistory| < 2 then {}
    else set id | id in Participants(sortedHistory[0]) && id in Participants(sortedHistory[1])
  }

  /** The `playedTwoInARow` loop of `proposeMatch`. */
  method FatiguedPlayers(sortedHistory: seq<Match>) returns (fatigued: set<PlayerId>)
    ensures fatigued == FatigueSet(sortedHistory)
  {
    fatigued := {};
    if |sortedHistory| >= 2 {
      var lastPlayers := Participants(sortedHistory[0]);
      var secondLastPlayers := Participants(sortedHistory[1]);
      for j := 0 to |lastPlayers|
        invariant fatigued == set id | id in lastPlayers[..j] && id in secondLastPlayers
      {
        if lastPlayers[j] in secondLastPlayers {
          fatigued := fatigued + {lastPlayers[j]};
        }
        assert lastPlayers[..j + 1] == lastPlayers[..j] + [lastPlayers[j]];
      }
      assert lastPlayers[..|lastPlayers|] == lastPlayers;
    }
  }

  // ---------------------------------------------------------------------------
  // Fairness stats

  /** Number of appearances of `id` across the matches (a player listed twice counts twice). */
  function GamesPlayed(sortedHistory: seq<Match>, id: PlayerId): nat
  {
    if |sortedHistory| == 0 then 0
    else GamesPlayed(sortedHistory[..|sortedHistory| - 1], id)
         + multiset(Participants(sortedHistory[|sortedHistory| - 1]))[id]
  }

  /** Position of the first match containing `id`, or the length when there is none. */
  function LastPlayedIndex(sortedHistory: seq<Match>, id: PlayerId): (index: nat)
    ensures index <= |sortedHistory|
  {
    if |sortedHistory| == 0 then 0
    else
      var init := sortedHistory[..|sortedHistory| - 1];
      if LastPlayedIndex(init, id) < |init| then LastPlayedIndex(init, id)
      else if id in Participants(sortedHistory[|sortedHistory| - 1]) then |init|
      else |sortedHistory|
  }

  function PlayerStatsOf(availablePlayerIds: seq<PlayerId>, sortedHistory: seq<Match>): map<PlayerId, PlayerStats>
  {
    map id | id in availablePlayerIds ::
      PlayerStats(id, GamesPlayed(sortedHistory, id), LastPlayedIndex(sortedHistory, id))
  }

  /** What the stats of `id` read after the first `index` matches of the sorted history;
      a player not seen yet keeps the "never played" sentinel. */
  function StatsSoFar(sortedHistory: seq<Match>, index: nat, id: PlayerId): PlayerStats
    requires index <= |sortedHistory|
  {
    var lastPlayed := LastPlayedIndex(sortedHistory[..index], id);
    PlayerStats(id, GamesPlayed(sortedHistory[..index], id),
      if lastPlayed < index then lastPlayed else |sortedHistory|)
  }

  /** Visiting one more match adds its appearances and sets an unset last-played index. */
  lemma StatsStep(sortedHistory: seq<Match>, index: nat, id: PlayerId)
    requires index < |sortedHistory|
    ensures var before := StatsSoFar(sortedHistory, index, id);
      StatsSoFar(sortedHistory, index + 1, id) == PlayerStats(id,
        before.gamesPlayed + multiset(Participants(sortedHistory[index]))[id],
        if before.lastPlayedIndex != |sortedHistory| then before.lastPlayedIndex
        else if id in Participants(sortedHistory[index]) then index else |sortedHistory|)
  {
    assert sortedHistory[..index + 1][..index] == sortedHistory[..index];
  }

  /** One pass of the inner loop of `calculatePlayerStats` over the players of the match
      at position `index`: tracked players get a game and, if unset, that position. */
  method RecordMatch(stats: map<PlayerId, PlayerStats>, allPlayers: seq<PlayerId>, index: nat, never: nat)
    returns (updated: map<PlayerId, PlayerStats>)
    requires index < never
    requires forall id :: id in stats ==> stats[id].playerId == id
    ensures updated.Keys == stats.Keys
    ensures forall id :: id in stats ==> updated[id] == PlayerStats(id,
      stats[id].gamesPlayed + multiset(allPlayers)[id],
      if stats[id].lastPlayedIndex != never then stats[id].lastPlayedIndex
      else if id in allPlayers then index else never)
  {
    updated := stats;
    for j := 0 to |allPlayers|
      invariant updated.Keys == stats.Keys
      invariant forall id :: id in stats ==> updated[id] == PlayerStats(id,
        stats[id].gamesPlayed + multiset(allPlayers[..j])[id],
        if stats[id].lastPlayedIndex != never then stats[id].lastPlayedIndex
        else if id in allPlayers[..j] then index else never)
    {
      var playerId := allPlayers[j];
      if playerId in updated {
        var stat := updated[playerId];
        var lastPlayedIndex := if stat.lastPlayedIndex == never then index else stat.lastPlayedIndex;
        updated := updated[playerId := PlayerStats(playerId, stat.gamesPlayed + 1, lastPlayedIndex)];
      }
      assert allPlayers[..j + 1] == allPlayers[..j] + [playerId];
    }
    assert allPlayers[..|allPlayers|] == allPlayers;
  }

  /** The initial stats: every available player with no games and the sentinel. */
  method InitialStats(availablePlayerIds: seq<PlayerId>, never: nat) returns (stats: map<PlayerId, PlayerStats>)
    ensures forall id :: id in stats <==> id in availablePlayerIds
    ensures forall id :: id in stats ==> stats[id] == PlayerStats(id, 0, never)
  {
    stats := map[];
    for k := 0 to |availablePlayerIds|
      invariant forall id :: id in stats <==> id in availablePlayerIds[..k]
      invariant forall id :: id in stats ==> stats[id] == PlayerStats(id, 0, never)
    {
      var id := availablePlayerIds[k];
      stats := stats[id := PlayerStats(id, 0, never)];
      assert availablePlayerIds[..k + 1] == availablePlayerIds[..k] + [id];
    }
    assert availablePlayerIds[..|availablePlayerIds|] == availablePlayerIds;
  }

  /** The stats after `RecordMatch` on the match at `index` are the stats so far after it. */
  lemma RecordMatchAdvances(sortedHistory: seq<Match>, index: nat,
                            before: map<PlayerId, PlayerStats>, after: map<PlayerId, PlayerStats>)
    requires index < |sortedHistory|
    requires forall id :: id in before ==> before[id] == StatsSoFar(sortedHistory, index, id)
    requires after.Keys == before.Keys
    requires forall id :: id in before ==> after[id] == PlayerStats(id,
      before[id].gamesPlayed + multiset(Participants(sortedHistory[index]))[id],
      if before[id].lastPlayedIndex != |sortedHistory| then before[id].lastPlayedIndex
      else if id in Participants(sortedHistory[index]) then index else |sortedHistory|)
    ensures forall id :: id in after ==> after[id] == StatsSoFar(sortedHistory, index + 1, id)
  {
    forall id | id in after ensures after[id] == StatsSoFar(sortedHistory, index + 1, id) {
      StatsStep(sortedHistory, index, id);
    }
  }

  /** Stats so far over the whole sorted history are the stats `PlayerStatsOf` describes. */
  lemma StatsComplete(availablePlayerIds: seq<PlayerId>, sortedHistory: seq<Match>, stats: map<PlayerId, PlayerStats>)
    requires forall id :: id in stats <==> id in availablePlayerIds
    requires forall id :: id in stats ==> stats[id] == StatsSoFar(sortedHistory, |sortedHistory|, id)
    ensures stats == PlayerStatsOf(availablePlayerIds, sortedHistory)
  {
    var expected := PlayerStatsOf(availablePlayerIds, sortedHistory);
    assert sortedHistory[..|sortedHistory|] == sortedHistory;
    assert stats.Keys == expected.Keys;
    forall id | id in stats ensures stats[id] == expected[id] {
      assert stats[id] == StatsSoFar(sortedHistory, |sortedHistory|, id);
    }
  }

  /** `calculatePlayerStats` */
  method CalculatePlayerStats(availablePlayerIds: seq<PlayerId>, history: seq<Match>)
    returns (stats: map<PlayerId, PlayerStats>)
    ensures stats == PlayerStatsOf(availablePlayerIds, SortedHistory(history))
  {
    var sortedHistory := SortedHistory(history);
    var never := |sortedHistory|;
    stats := InitialStats(availablePlayerIds, never);
    forall id | id in stats ensures stats[id] == StatsSoFar(sortedHistory, 0, id) {
      assert sortedHistory[..0] == [];
    }
    for index := 0 to |sortedHistory|
      invariant forall id :: id in stats <==> id in availablePlayerIds
      invariant forall id :: id in stats ==> stats[id] == StatsSoFar(sortedHistory, index, id)
    {
      ghost var before := stats;
      stats := RecordMatch(stats, Participants(sortedHistory[index]), index, never);
      RecordMatchAdvances(sortedHistory, index, before, stats);
    }
    StatsComplete(availablePlayerIds, sortedHistory, stats);
  }

  // ---------------------------------------------------------------------------
  // Selecting the four players

  function StatOf(stats: map<PlayerId, PlayerStats>, id: PlayerId): PlayerStats
  {
    if id in stats then stats[id] else PlayerStats(id, 0, 0)
  }

  /** The selection comparator is negative: not fatigued first, then longer rest
      (larger `lastPlayedIndex`), then fewer games. */
  predicate RotationPrecedes(fatigued: set<PlayerId>, stats: map<PlayerId, PlayerStats>, a: PlayerId, b: PlayerId)
  {
    if (a in fatigued) != (b in fatigued) then a !in fatigued
    else
      var sa, sb := StatOf(stats, a), StatOf(stats, b);
      if sa.lastPlayedIndex != sb.lastPlayedIndex then sa.lastPlayedIndex > sb.lastPlayedIndex
      else sa.gamesPlayed < sb.gamesPlayed
  }

  function RotationOrder(fatigued: set<PlayerId>, stats: map<PlayerId, PlayerStats>): (PlayerId, PlayerId) -> bool
  {
    (a: PlayerId, b: PlayerId) => RotationPrecedes(fatigued, stats, a, b)
  }

  /** `s.slice(0, n)` */
  function Take<T>(s: seq<T>, n: nat): (r: seq<T>)
    ensures |r| == if |s| < n then |s| else n
  {
    if |s| < n then s else s[..n]
  }

  /** Standard rotation selection: the first four of the stably sorted list. */
  function RotationSelection(availablePlayerIds: seq<PlayerId>, fatigued: set<PlayerId>, stats: map<PlayerId, PlayerStats>): seq<PlayerId>
  {
    Take(StableSort(availablePlayerIds, RotationOrder(fatigued, stats)), 4)
  }

  /** The winning side of a match whose `winnerTeam` is set. */
  function WinnersOf(m: Match): seq<PlayerId>
    requires m.winnerTeam.Some?
  {
    if m.winnerTeam.value == 1 then m.team1 else m.team2
  }

  /** `candidate[k]`, which is `undefined` past the end. */
  function Slot(candidate: seq<PlayerId>, k: nat): Option<PlayerId>
  {
    if k < |candidate| then Some(candidate[k]) else None
  }

  /** `normalizeTeam` on slots that may be `undefined`: the default sort puts
      `undefined` last and `join` renders it as the empty string. */
  function SlotKey(a: Option<PlayerId>, b: Option<PlayerId>): string
  {
    match (a, b)
    case (Some(x), Some(y)) => NormalizeTeam(x, y)
    case (Some(x), None) => x + "-"
    case (None, Some(y)) => y + "-"
    case (None, None) => "-"
  }

  predicate FreshSplit(candidate: seq<PlayerId>, historical: set<string>, i: nat, j: nat, k: nat, l: nat)
  {
    SlotKey(Slot(candidate, i), Slot(candidate, j)) !in historical
    && SlotKey(Slot(candidate, k), Slot(candidate, l)) !in historical
  }

  /** `hasFreshConfig`: one of the three splits of [w1, w2, p1, p2] has both teams fresh. */
  predicate HasFreshConfig(candidate: seq<PlayerId>, historical: set<string>)
  {
    FreshSplit(candidate, historical, 0, 1, 2, 3)
    || FreshSplit(candidate, historical, 0, 2, 1, 3)
    || FreshSplit(candidate, historical, 0, 3, 1, 2)
  }

  /** Selection in strict-partners mode: keep the last match's winners when both are
      available and rested and some split with two rested others is all fresh. */
  function StrictSelection(
    availablePlayerIds: seq<PlayerId>, sortedHistory: seq<Match>, fatigued: set<PlayerId>,
    stats: map<PlayerId, PlayerStats>, historical: set<string>): seq<PlayerId>
  {
    if |sortedHistory| > 0 && sortedHistory[0].winnerTeam.Some? then
      var availableWinners := Filter(WinnersOf(sortedHistory[0]),
        w => w in availablePlayerIds && w !in fatigued);
      if |availableWinners| == 2 then
        var otherPlayers := StableSort(Filter(availablePlayerIds, id => id !in availableWinners),
          RotationOrder(fatigued, stats));
        var candidate := availableWinners + Take(otherPlayers, 2);
        if HasFreshConfig(candidate, historical) then candidate
        else RotationSelection(availablePlayerIds, fatigued, stats)
      else RotationSelection(availablePlayerIds, fatigued, stats)
    else RotationSelection(availablePlayerIds, fatigued, stats)
  }

  function SelectPlayers(
    mode: Mode, availablePlayerIds: seq<PlayerId>, sortedHistory: seq<Match>, fatigued: set<PlayerId>,
    stats: map<PlayerId, PlayerStats>, historical: set<string>): seq<PlayerId>
  {
    if mode == StrictPartners then StrictSelection(availablePlayerIds, sortedHistory, fatigued, stats, historical)
    else RotationSelection(availablePlayerIds, fatigued, stats)
  }

  // ---------------------------------------------------------------------------
  // Splitting the four into two teams

  /** The three splits, in the order the source scores them. */
  function Configs(selected: seq<PlayerId>): (configs: seq<Config>)
    requires |selected| >= 4
    ensures |configs| == 3 && forall k :: 0 <= k < 3 ==> WellShaped(configs[k])
  {
    var p1, p2, p3, p4 := selected[0], selected[1], selected[2], selected[3];
    [Config([p1, p2], [p3, p4]), Config([p1, p3], [p2, p4]), Config([p1, p4], [p2, p3])]
  }

  /** `winners.filter(w => selectedPlayers.includes(w))` for the most recent match. */
  function WinnersInSelection(lastMatch: Match, selected: seq<PlayerId>): seq<PlayerId>
    requires lastMatch.winnerTeam.Some?
  {
    Filter(WinnersOf(lastMatch), w => w in selected)
  }

  /** Score of one split: a penalty per team already in the ledger, and when both of
      the last match's winners are selected a bonus for splitting them or a penalty
      for keeping them together. */
  function ConfigScore(
    mode: Mode, config: Config, historical: set<string>, sortedHistory: seq<Match>, selected: seq<PlayerId>): int
    requires WellShaped(config)
  {
    var team1Key := NormalizeTeam(config.team1[0], config.team1[1]);
    var team2Key := NormalizeTeam(config.team2[0], config.team2[1]);
    var repeatPenalty := if mode == StrictPartners then 1000 else 100;
    var repeats := (if team1Key in historical then -repeatPenalty else 0)
                 + (if team2Key in historical then -repeatPenalty else 0);
    var winnerRule :=
      if |sortedHistory| > 0 && sortedHistory[0].winnerTeam.Some? then
        var winners := WinnersInSelection(sortedHistory[0], selected);
        if |winners| == 2 then
          var winnersTeamKey := NormalizeTeam(winners[0], winners[1]);
          if team1Key != winnersTeamKey && team2Key != winnersTeamKey then
            (if mode == StrictPartners then 50 else 200)
          else
            (if mode == StrictPartners then -75 else -300)
        else 0
      else 0;
    repeats + winnerRule
  }

  function ScoreAll(
    mode: Mode, configs: seq<Config>, historical: set<string>, sortedHistory: seq<Match>, selected: seq<PlayerId>): (scored: seq<ScoredConfig>)
    requires forall k :: 0 <= k < |configs| ==> WellShaped(configs[k])
    ensures |scored| == |configs|
  {
    seq(|configs|, k requires 0 <= k < |configs| =>
      ScoredConfig(configs[k], ConfigScore(mode, configs[k], historical, sortedHistory, selected)))
  }

  /** The body of the `scoredConfigs.push` loop: the score of one split. */
  method ScoreConfig(
    mode: Mode, config: Config, historical: set<string>, sortedHistory: seq<Match>, selected: seq<PlayerId>)
    returns (score: int)
    requires WellShaped(config)
    ensures score == ConfigScore(mode, config, historical, sortedHistory, selected)
  {
    var team1Key := NormalizeTeam(config.team1[0], config.team1[1]);
    var team2Key := NormalizeTeam(config.team2[0], config.team2[1]);
    score := 0;
    var repeatPenalty := if mode == StrictPartners then 1000 else 100;
    if team1Key in historical { score := score - repeatPenalty; }
    if team2Key in historical { score := score - repeatPenalty; }
    if |sortedHistory| > 0 && sortedHistory[0].winnerTeam.Some? {
      var winners := WinnersInSelection(sortedHistory[0], selected);
      if |winners| == 2 {
        var winnersTeamKey := NormalizeTeam(winners[0], winners[1]);
        if team1Key != winnersTeamKey && team2Key != winnersTeamKey {
          score := score + if mode == StrictPartners then 50 else 200;
        } else {
          score := score - if mode == StrictPartners then 75 else 300;
        }
      }
    }
  }

  /** The `scoredConfigs.push` loop. */
  method ScoreConfigs(
    mode: Mode, configs: seq<Config>, historical: set<string>, sortedHistory: seq<Match>, selected: seq<PlayerId>)
    returns (scored: seq<ScoredConfig>)
    requires forall k :: 0 <= k < |configs| ==> WellShaped(configs[k])
    ensures scored == ScoreAll(mode, configs, historical, sortedHistory, selected)
  {
    scored := [];
    for i := 0 to |configs|
      invariant |scored| == i
      invariant forall k :: 0 <= k < i ==>
        scored[k] == ScoredConfig(configs[k], ConfigScore(mode, configs[k], historical, sortedHistory, selected))
    {
      var config := configs[i];
      var score := ScoreConfig(mode, config, historical, sortedHistory, selected);
      scored := scored + [ScoredConfig(config, score)];
    }
  }

  /** The comparator `(a, b) => b.score - a.score`: higher score first. */
  predicate HigherScore(a: ScoredConfig, b: ScoredConfig)
  {
    a.score > b.score
  }

  function Rank(scored: seq<ScoredConfig>): (ranked: seq<ScoredConfig>)
    ensures |ranked| == |scored|
  {
    StableSort(scored, HigherScore)
  }

  /** Ranking only reorders the scored splits, so every ranked split is still two against two. */
  lemma RankedWellShaped(
    mode: Mode, configs: seq<Config>, historical: set<string>, sortedHistory: seq<Match>, selected: seq<PlayerId>)
    requires forall k :: 0 <= k < |configs| ==> WellShaped(configs[k])
    ensures forall k :: 0 <= k < |configs| ==>
      WellShaped(Rank(ScoreAll(mode, configs, historical, sortedHistory, selected))[k].config)
  {
    var scored := ScoreAll(mode, configs, historical, sortedHistory, selected);
    SortPermutes(scored, HigherScore);
    forall k | 0 <= k < |configs| ensures WellShaped(Rank(scored)[k].config) {
      assert Rank(scored)[k] in multiset(scored);
      var i :| 0 <= i < |scored| && scored[i] == Rank(scored)[k];
    }
  }

  // ---------------------------------------------------------------------------
  // Rationale and analytics

  function FatigueCount(config: Config, fatigued: set<PlayerId>): nat
  {
    |Filter(config.team1 + config.team2, p => p in fatigued)|
  }

  /** The reasons `generateReason` lists for the best split: team freshness, then rest. */
  function Reasons(mode: Mode, best: Config, historical: set<string>, fatigued: set<PlayerId>): seq<string>
    requires WellShaped(best)
  {
    var team1IsNew := NormalizeTeam(best.team1[0], best.team1[1]) !in historical;
    var team2IsNew := NormalizeTeam(best.team2[0], best.team2[1]) !in historical;
    var freshness :=
      if team1IsNew && team2IsNew then [if mode == StrictPartners then "Fresh partnerships" else "Fresh team pairings"]
      else if team1IsNew || team2IsNew then [if mode == StrictPartners then "One new partnership" else "One new team pairing"]
      else if mode == StrictPartners then ["Best partnership variety available"]
      else [];
    var fatigueCount := FatigueCount(best, fatigued);
    var rest :=
      if fatigueCount == 0 then ["all players well-rested"]
      else if fatigueCount < 4 then [NatToString(4 - fatigueCount) + " rested players"]
      else [];
    freshness + rest
  }

  /** Written as two literals so that its first letters are visible to the verifier. */
  const FallbackReason := "Best " + "available match based on rotation rules."

  /** The main reason of the proposal: the reasons joined, or the fallback when there are none. */
  function MainReason(mode: Mode, best: Config, historical: set<string>, fatigued: set<PlayerId>): string
    requires WellShaped(best)
  {
    var reasons := Reasons(mode, best, historical, fatigued);
    if |reasons| > 0 then Join(reasons, ", ") + "." else FallbackReason
  }

  /** `[...team].sort()` of a two-player team, as a partnership record. */
  function SortedPair(team: seq<PlayerId>): Partnership
    requires |team| == 2
  {
    if LexLess(team[1], team[0]) then Partnership(team[1], team[0]) else Partnership(team[0], team[1])
  }

  /** `generateAnalytics` */
  function GenerateAnalytics(
    history: seq<Match>, proposal: Config, selected: seq<PlayerId>, historical: set<string>, fatigued: set<PlayerId>): MatchAnalytics
    requires WellShaped(proposal)
  {
    var sortedHistory := SortedHistory(history);
    var hadFatiguedPlayers := Filter(selected, id => id in fatigued);
    var team1Key := NormalizeTeam(proposal.team1[0], proposal.team1[1]);
    var team2Key := NormalizeTeam(proposal.team2[0], proposal.team2[1]);
    var winnersWereSplit: Option<bool> :=
      if |sortedHistory| > 0 && sortedHistory[0].winnerTeam.Some? then
        var winners := WinnersInSelection(sortedHistory[0], selected);
        if |winners| == 2 then
          var winnersKey := NormalizeTeam(winners[0], winners[1]);
          Some(team1Key != winnersKey && team2Key != winnersKey)
        else None
      else None;
    var repeatedPartnerships :=
      (if team1Key in historical then [SortedPair(proposal.team1)] else [])
      + (if team2Key in historical then [SortedPair(proposal.team2)] else []);
    MatchAnalytics(hadFatiguedPlayers, winnersWereSplit, repeatedPartnerships, winnersWereSplit.Some?)
  }

  // ---------------------------------------------------------------------------
  // The proposal

  /** What `proposeMatch` returns, step by step; `None` is the source's `null`. */
  function ProposeMatchSpec(availablePlayerIds: seq<PlayerId>, history: seq<Match>, mode: Mode): (r: Option<MatchProposal>)
    ensures |availablePlayerIds| < 4 ==> r.None?
    ensures r.Some? ==> |r.value.team1| == 2 && |r.value.team2| == 2 && |r.value.ranked| == 3
  {
    if |availablePlayerIds| < 4 then None
    else
      var sortedHistory := SortedHistory(history);
      var fatigued := FatigueSet(sortedHistory);
      var stats := PlayerStatsOf(availablePlayerIds, sortedHistory);
      var historical := Ledger(history);
      var selected := SelectPlayers(mode, availablePlayerIds, sortedHistory, fatigued, stats, historical);
      if |selected| < 4 then None
      else
        var ranked := Rank(ScoreAll(mode, Configs(selected), historical, sortedHistory, selected));
        RankedWellShaped(mode, Configs(selected), historical, sortedHistory, selected);
        var best := ranked[0].config;
        Some(MatchProposal(best.team1, best.team2,
          MainReason(mode, best, historical, fatigued), ranked,
          GenerateAnalytics(history, best, selected, historical, fatigued)))
  }

  /** `proposeMatch` */
  method ProposeMatch(availablePlayerIds: seq<PlayerId>, history: seq<Match>, mode: Mode)
    returns (proposal: Option<MatchProposal>)
    ensures proposal == ProposeMatchSpec(availablePlayerIds, history, mode)
  {
    if |availablePlayerIds| < 4 {
      return None;
    }
    var sortedHistory := SortedHistory(history);
    var playedTwoInARow := FatiguedPlayers(sortedHistory);
    var playerStats := CalculatePlayerStats(availablePlayerIds, history);
    var historicalTeams := HistoricalTeams(history);
    var selectedPlayers := SelectPlayers(mode, availablePlayerIds, sortedHistory, playedTwoInARow, playerStats, historicalTeams);
    if |selectedPlayers| < 4 {
      return None;
    }
    var configs := Configs(selectedPlayers);
    var scoredConfigs := ScoreConfigs(mode, configs, historicalTeams, sortedHistory, selectedPlayers);
    var ranked := Rank(scoredConfigs);
    RankedWellShaped(mode, configs, historicalTeams, sortedHistory, selectedPlayers);
    var bestConfig := ranked[0].config;
    var mainReason := MainReason(mode, bestConfig, historicalTeams, playedTwoInARow);
    var analytics := GenerateAnalytics(history, bestConfig, selectedPlayers, historicalTeams, playedTwoInARow);
    proposal := Some(MatchProposal(bestConfig.team1, bestConfig.team2, mainReason, ranked, analytics));
  }

  // ---------------------------------------------------------------------------
  // Playoff mode

  /** Win fraction as numerator and positive denominator; 0 without matches. */
  function WinFraction(p: Player): (int, int)
  {
    if p.matchesPlayed > 0 then (p.matchesWon, p.matchesPlayed) else (0, 1)
  }

  /** Points per game as numerator and positive denominator; 0 without matches. */
  function PointsPerGame(p: Player): (int, int)
  {
    if p.matchesPlayed > 0 then (p.pointsScored, p.matchesPlayed) else (0, 1)
  }

  /** x > y for fractions with positive denominators, by cross-multiplication. */
  predicate FractionGreater(x: (int, int), y: (int, int))
  {
    x.0 * y.1 > y.0 * x.1
  }

  /** The ranking comparator is negative: higher win fraction, then more wins, then
      more points, then more points per game. */
  predicate PlayoffPrecedes(a: Player, b: Player)
  {
    if FractionGreater(WinFraction(a), WinFraction(b)) || FractionGreater(WinFraction(b), WinFraction(a)) then
      FractionGreater(WinFraction(a), WinFraction(b))
    else if a.matchesWon != b.matchesWon then a.matchesWon > b.matchesWon
    else if a.pointsScored != b.pointsScored then a.pointsScored > b.pointsScored
    else FractionGreater(PointsPerGame(a), PointsPerGame(b))
  }

  /** Available players' stats in ranking order. */
  function PlayoffRanking(availablePlayerIds: seq<PlayerId>, playerStats: seq<Player>): seq<Player>
  {
    StableSort(Filter(playerStats, (p: Player) => p.id in availablePlayerIds), PlayoffPrecedes)
  }

  /** `proposePlayoffMatch`: seed #1 with #4 against #2 with #3. */
  function ProposePlayoffMatch(availablePlayerIds: seq<PlayerId>, history: seq<Match>, playerStats: seq<Player>): (r: Option<PlayoffProposal>)
    ensures r.None? <==> |availablePlayerIds| < 4 || |PlayoffRanking(availablePlayerIds, playerStats)| < 4
    ensures r.Some? ==> |r.value.team1| == 2 && |r.value.team2| == 2
  {
    if |availablePlayerIds| < 4 then None
    else
      var ranking := PlayoffRanking(availablePlayerIds, playerStats);
      if |ranking| < 4 then None
      else
        var team1 := [ranking[0].id, ranking[3].id];
        var team2 := [ranking[1].id, ranking[2].id];
        Some(PlayoffProposal(team1, team2, "Playoff Match: Top seeds face off", Ids(ranking)))
  }
}
