/** What the matchmaking engine promises, proved about the model in module Matchmaker. */
module MatchmakerProperties {
  import opened Util
  import opened StableSorting
  import opened Types
  import opened Matchmaker

  // ---------------------------------------------------------------------------
  // Team keys

  /** A team's key does not depend on the order its two players are listed in. */
  lemma NormalizeTeamSymmetric(a: PlayerId, b: PlayerId)
    ensures NormalizeTeam(a, b) == NormalizeTeam(b, a)
  {
    LexTrichotomy(a, b);
  }

  predicate NoDash(id: PlayerId)
  {
    forall k :: 0 <= k < |id| ==> id[k] != '-'
  }

  /** IDs whose joined team keys split back into the two IDs: none contains '-', or all
      have one length (as the 36-character UUIDs the storage adapters generate do). */
  predicate Unambiguous(ids: seq<PlayerId>)
  {
    || (forall x :: x in ids ==> NoDash(x))
    || (forall x, y :: x in ids && y in ids ==> |x| == |y|)
  }

  /** Every part of an unambiguous list of IDs is unambiguous. */
  lemma UnambiguousWithin(sub: seq<PlayerId>, ids: seq<PlayerId>)
    requires Unambiguous(ids) && forall x :: x in sub ==> x in ids
    ensures Unambiguous(sub)
  {
  }

  lemma {:induction false} JoinedInjective(a: string, b: string, c: string, d: string)
    requires (NoDash(a) && NoDash(c)) || |a| == |c|
    requires a + "-" + b == c + "-" + d
    ensures a == c && b == d
  {
    var s := a + "-" + b;
    if |a| != |c| {
      DashPosition(a, b);
      DashPosition(c, d);
    }
    assert |a| == |c|;
    assert a == s[..|a|] == c;
    assert b == s[|a| + 1..] == d;
  }

  /** In `a + "-" + b` with a free of '-', the first '-' sits right after a. */
  lemma DashPosition(a: string, b: string)
    requires NoDash(a)
    ensures (a + "-" + b)[|a|] == '-'
    ensures forall k :: 0 <= k < |a| ==> (a + "-" + b)[k] != '-'
  {
  }

  /** With unambiguous IDs, two teams share a key exactly when they hold the same two players. */
  lemma NormalizeTeamInjective(a: PlayerId, b: PlayerId, c: PlayerId, d: PlayerId)
    requires Unambiguous([a, b, c, d])
    ensures NormalizeTeam(a, b) == NormalizeTeam(c, d) <==> multiset{a, b} == multiset{c, d}
  {
    NormalizeTeamSymmetric(a, b);
    NormalizeTeamSymmetric(c, d);
    if NormalizeTeam(a, b) == NormalizeTeam(c, d) {
      var x, y := if LexLess(b, a) then b else a, if LexLess(b, a) then a else b;
      var z, w := if LexLess(d, c) then d else c, if LexLess(d, c) then c else d;
      JoinedInjective(x, y, z, w);
    }
  }

  /** Without that hypothesis keys can collide: two different teams, one key. */
  lemma DashedIdsCollide()
    ensures NormalizeTeam("a", "b-c") == NormalizeTeam("a-b", "c")
    ensures multiset{"a", "b-c"} != multiset{"a-b", "c"}
  {
    assert LexLess("a", "b-c");
    assert LexLess("a-b", "c");
    assert "a-b" !in multiset{"a", "b-c"};
  }

  /** A key is in the ledger exactly when some match of the history has a two-player
      team with that key. */
  lemma {:induction false} LedgerMembership(history: seq<Match>, key: string)
    ensures key in Ledger(history) <==> exists i :: 0 <= i < |history| && key in TeamKeys(history[i])
  {
    if |history| > 0 {
      var init := history[..|history| - 1];
      LedgerMembership(init, key);
      if key in Ledger(init) {
        var i :| 0 <= i < |init| && key in TeamKeys(init[i]);
        assert history[i] == init[i];
      }
      if exists i :: 0 <= i < |history| && key in TeamKeys(history[i]) {
        var i :| 0 <= i < |history| && key in TeamKeys(history[i]);
        if i < |init| {
          assert init[i] == history[i];
        }
      }
    }
  }

  // ---------------------------------------------------------------------------
  // History order, fatigue and fairness stats

  lemma MoreRecentIsStrictWeakOrder()
    ensures StrictWeakOrder(MoreRecent)
  {
  }

  /** The sorted history holds the same matches, newest first, ties in their stored order. */
  lemma SortedHistoryNewestFirst(history: seq<Match>)
    ensures multiset(SortedHistory(history)) == multiset(history)
    ensures forall i, j :: 0 <= i < j < |history| ==>
      SortedHistory(history)[i].timestamp >= SortedHistory(history)[j].timestamp
  {
    SortPermutes(history, MoreRecent);
    MoreRecentIsStrictWeakOrder();
    SortSorted(history, MoreRecent);
  }

  /** The position recorded for a player is that of the newest match it appears in;
      the sentinel |history| means it appears in none. */
  lemma {:induction false} LastPlayedIndexIsFirstAppearance(sortedHistory: seq<Match>, id: PlayerId)
    ensures var index := LastPlayedIndex(sortedHistory, id);
      (index < |sortedHistory| ==> id in Participants(sortedHistory[index]))
      && forall i :: 0 <= i < index && i < |sortedHistory| ==> id !in Participants(sortedHistory[i])
  {
    if |sortedHistory| > 0 {
      var init := sortedHistory[..|sortedHistory| - 1];
      LastPlayedIndexIsFirstAppearance(init, id);
      var index := LastPlayedIndex(sortedHistory, id);
      forall i | 0 <= i < index && i < |sortedHistory| ensures id !in Participants(sortedHistory[i]) {
        assert i < |init| ==> sortedHistory[i] == init[i];
      }
    }
  }

  /** A player has games counted exactly when it has a last-played position. */
  lemma {:induction false} GamesPlayedIffPlayed(sortedHistory: seq<Match>, id: PlayerId)
    ensures GamesPlayed(sortedHistory, id) > 0 <==> LastPlayedIndex(sortedHistory, id) < |sortedHistory|
  {
    if |sortedHistory| > 0 {
      var init := sortedHistory[..|sortedHistory| - 1];
      GamesPlayedIffPlayed(init, id);
      var last := Participants(sortedHistory[|sortedHistory| - 1]);
      assert id in last <==> multiset(last)[id] > 0;
    }
  }

  // ---------------------------------------------------------------------------
  // Selection

  lemma RotationOrderIsStrictWeakOrder(fatigued: set<PlayerId>, stats: map<PlayerId, PlayerStats>)
    ensures StrictWeakOrder(RotationOrder(fatigued, stats))
  {
    var lt := RotationOrder(fatigued, stats);
    forall a, b | lt(a, b) ensures !lt(b, a) {
    }
    forall a, b, c | lt(a, c) ensures lt(a, b) || lt(b, c) {
    }
  }

  /** Rotation picks four of the available players, none of whom any passed-over
      player precedes in the selection order. */
  lemma RotationSelectionIsBest(availablePlayerIds: seq<PlayerId>, fatigued: set<PlayerId>, stats: map<PlayerId, PlayerStats>)
    requires |availablePlayerIds| >= 4
    ensures var selected := RotationSelection(availablePlayerIds, fatigued, stats);
      |selected| == 4
      && (forall x :: x in selected ==> x in availablePlayerIds)
      && forall x, y :: x in selected && y in availablePlayerIds && y !in selected ==>
           !RotationPrecedes(fatigued, stats, y, x)
  {
    var lt := RotationOrder(fatigued, stats);
    var sorted := StableSort(availablePlayerIds, lt);
    var selected := RotationSelection(availablePlayerIds, fatigued, stats);
    assert selected == sorted[..4];
    SortMembers(availablePlayerIds, lt);
    RotationOrderIsStrictWeakOrder(fatigued, stats);
    SortSorted(availablePlayerIds, lt);
    forall x, y | x in selected && y in availablePlayerIds && y !in selected
      ensures !RotationPrecedes(fatigued, stats, y, x)
    {
      var i :| 0 <= i < 4 && selected[i] == x;
      var j :| 0 <= j < |sorted| && sorted[j] == y;
      assert j >= 4;
      assert !lt(sorted[j], sorted[i]);
    }
  }

  /** When at least four available players are rested, rotation picks no fatigued player. */
  lemma RotationPrefersRested(availablePlayerIds: seq<PlayerId>, fatigued: set<PlayerId>, stats: map<PlayerId, PlayerStats>)
    requires |Filter(availablePlayerIds, id => id !in fatigued)| >= 4
    ensures forall x :: x in RotationSelection(availablePlayerIds, fatigued, stats) ==> x !in fatigued
  {
    var lt := RotationOrder(fatigued, stats);
    var rested := (id: PlayerId) => id !in fatigued;
    var sorted := StableSort(availablePlayerIds, lt);
    RotationOrderIsStrictWeakOrder(fatigued, stats);
    SortPartitions(availablePlayerIds, lt, rested);
    SortPermutes(availablePlayerIds, lt);
    FilterPermutation(sorted, availablePlayerIds, rested);
    PartitionedPrefix(sorted, rested, 4);
    assert RotationSelection(availablePlayerIds, fatigued, stats) == sorted[..4];
  }

  /** In either mode, every selected player is available. */
  lemma SelectionFromAvailable(
    mode: Mode, availablePlayerIds: seq<PlayerId>, sortedHistory: seq<Match>, fatigued: set<PlayerId>,
    stats: map<PlayerId, PlayerStats>, historical: set<string>)
    ensures forall x :: x in SelectPlayers(mode, availablePlayerIds, sortedHistory, fatigued, stats, historical) ==>
      x in availablePlayerIds
  {
    SortMembers(availablePlayerIds, RotationOrder(fatigued, stats));
    if |sortedHistory| > 0 && sortedHistory[0].winnerTeam.Some? {
      var availableWinners := Filter(WinnersOf(sortedHistory[0]),
        w => w in availablePlayerIds && w !in fatigued);
      var others := Filter(availablePlayerIds, id => id !in availableWinners);
      SortMembers(others, RotationOrder(fatigued, stats));
    }
  }

  // ---------------------------------------------------------------------------
  // Scoring and the best split

  /** Number of the split's two teams already in the ledger. */
  function RepeatCount(c: Config, historical: set<string>): nat
    requires WellShaped(c)
  {
    (if NormalizeTeam(c.team1[0], c.team1[1]) in historical then 1 else 0)
    + (if NormalizeTeam(c.team2[0], c.team2[1]) in historical then 1 else 0)
  }

  /** Both of the last match's winners are among the selected four. */
  predicate WinnerRuleApplies(sortedHistory: seq<Match>, selected: seq<PlayerId>)
  {
    |sortedHistory| > 0 && sortedHistory[0].winnerTeam.Some?
    && |WinnersInSelection(sortedHistory[0], selected)| == 2
  }

  /** Neither team of the split is the winners' team. */
  predicate SplitsWinners(c: Config, sortedHistory: seq<Match>, selected: seq<PlayerId>)
    requires WellShaped(c) && WinnerRuleApplies(sortedHistory, selected)
  {
    var winners := WinnersInSelection(sortedHistory[0], selected);
    var winnersTeamKey := NormalizeTeam(winners[0], winners[1]);
    NormalizeTeam(c.team1[0], c.team1[1]) != winnersTeamKey
    && NormalizeTeam(c.team2[0], c.team2[1]) != winnersTeamKey
  }

  /** The score as a repeat penalty plus the winner rule's bonus or penalty. */
  lemma ScoreParts(mode: Mode, c: Config, historical: set<string>, sortedHistory: seq<Match>, selected: seq<PlayerId>)
    requires WellShaped(c)
    ensures var score := ConfigScore(mode, c, historical, sortedHistory, selected);
      var penalty := if mode == StrictPartners then 1000 else 100;
      var rule := if !WinnerRuleApplies(sortedHistory, selected) then 0
        else if SplitsWinners(c, sortedHistory, selected) then (if mode == StrictPartners then 50 else 200)
        else (if mode == StrictPartners then -75 else -300);
      score == rule - penalty * RepeatCount(c, historical)
  {
  }

  lemma HigherScoreIsStrictWeakOrder()
    ensures StrictWeakOrder(HigherScore)
  {
  }

  /** The proposal is the first of the three splits, in source order, with the highest
      score; its analytics describe that split. */
  lemma ProposalIsBestSplit(availablePlayerIds: seq<PlayerId>, history: seq<Match>, mode: Mode)
    returns (selected: seq<PlayerId>, k: nat)
    requires ProposeMatchSpec(availablePlayerIds, history, mode).Some?
    ensures var sortedHistory := SortedHistory(history);
      selected == SelectPlayers(mode, availablePlayerIds, sortedHistory, FatigueSet(sortedHistory),
        PlayerStatsOf(availablePlayerIds, sortedHistory), Ledger(history))
    ensures |selected| >= 4 && k < 3
    ensures var p := ProposeMatchSpec(availablePlayerIds, history, mode).value;
      var best := Configs(selected)[k];
      p.team1 == best.team1 && p.team2 == best.team2
      && p.analytics == GenerateAnalytics(history, best, selected, Ledger(history), FatigueSet(SortedHistory(history)))
    ensures var scored := ScoreAll(mode, Configs(selected), Ledger(history), SortedHistory(history), selected);
      (forall i :: 0 <= i < 3 ==> scored[i].score <= scored[k].score)
      && (forall i :: 0 <= i < k ==> scored[i].score < scored[k].score)
  {
    var sortedHistory := SortedHistory(history);
    selected := SelectPlayers(mode, availablePlayerIds, sortedHistory, FatigueSet(sortedHistory),
      PlayerStatsOf(availablePlayerIds, sortedHistory), Ledger(history));
    var scored := ScoreAll(mode, Configs(selected), Ledger(history), sortedHistory, selected);
    HigherScoreIsStrictWeakOrder();
    k := SortHead(scored, HigherScore);
    forall i | 0 <= i < k ensures scored[i].score < scored[k].score {
      assert !Minimal(scored, scored[i], HigherScore);
    }
  }

  /** In strict-partners mode the proposal repeats no more known teams than any other
      split of the same four players: the 1000-point penalty outweighs the winner rule. */
  lemma StrictMinimisesRepeats(availablePlayerIds: seq<PlayerId>, history: seq<Match>)
    requires ProposeMatchSpec(availablePlayerIds, history, StrictPartners).Some?
    ensures var p := ProposeMatchSpec(availablePlayerIds, history, StrictPartners).value;
      var sortedHistory := SortedHistory(history);
      var selected := SelectPlayers(StrictPartners, availablePlayerIds, sortedHistory, FatigueSet(sortedHistory),
        PlayerStatsOf(availablePlayerIds, sortedHistory), Ledger(history));
      |selected| >= 4
      && forall c :: c in Configs(selected) ==>
           RepeatCount(Config(p.team1, p.team2), Ledger(history)) <= RepeatCount(c, Ledger(history))
  {
    var selected, k := ProposalIsBestSplit(availablePlayerIds, history, StrictPartners);
    var sortedHistory := SortedHistory(history);
    var configs := Configs(selected);
    var scored := ScoreAll(StrictPartners, configs, Ledger(history), sortedHistory, selected);
    forall c | c in configs ensures RepeatCount(configs[k], Ledger(history)) <= RepeatCount(c, Ledger(history)) {
      var i :| 0 <= i < 3 && configs[i] == c;
      ScoreParts(StrictPartners, c, Ledger(history), sortedHistory, selected);
      ScoreParts(StrictPartners, configs[k], Ledger(history), sortedHistory, selected);
      assert scored[i].score <= scored[k].score;
    }
  }

  /** With the winner rule in force in rotation mode, a split that keeps the winners
      together never scores as high as one that separates them. */
  lemma SplitOutscoresTogether(c: Config, d: Config, historical: set<string>, sortedHistory: seq<Match>, selected: seq<PlayerId>)
    requires WellShaped(c) && WellShaped(d) && WinnerRuleApplies(sortedHistory, selected)
    requires SplitsWinners(c, sortedHistory, selected) && !SplitsWinners(d, sortedHistory, selected)
    ensures ConfigScore(Rotation, d, historical, sortedHistory, selected)
          < ConfigScore(Rotation, c, historical, sortedHistory, selected)
  {
    ScoreParts(Rotation, c, historical, sortedHistory, selected);
    ScoreParts(Rotation, d, historical, sortedHistory, selected);
  }

  /** The analytics report whether the winner rule applied and, if so, whether the split separates the winners. */
  lemma AnalyticsWinnersSplit(history: seq<Match>, c: Config, selected: seq<PlayerId>, historical: set<string>, fatigued: set<PlayerId>)
    requires WellShaped(c)
    ensures var a := GenerateAnalytics(history, c, selected, historical, fatigued);
      var sortedHistory := SortedHistory(history);
      a.winnersWereSplit == if WinnerRuleApplies(sortedHistory, selected)
        then Some(SplitsWinners(c, sortedHistory, selected)) else None
  {
  }

  /** A reported partnership lists its two players in the default string order, and its
      key is the team's key. */
  lemma SortedPairKey(team: seq<PlayerId>)
    requires |team| == 2
    ensures var p := SortedPair(team);
      && !LexLess(p.player2, p.player1)
      && p.player1 + "-" + p.player2 == NormalizeTeam(team[0], team[1])
      && multiset{p.player1, p.player2} == multiset(team)
  {
    LexTrichotomy(team[0], team[1]);
    assert team == [team[0], team[1]];
  }

  /** The other analytics fields: winners count as kept exactly when the winner rule
      applies, the fatigued list is the selected players in the fatigued set, and one
      sorted partnership is reported for each proposed team already in history. */
  lemma AnalyticsReportsRepeats(history: seq<Match>, c: Config, selected: seq<PlayerId>, historical: set<string>, fatigued: set<PlayerId>)
    requires WellShaped(c)
    ensures var a := GenerateAnalytics(history, c, selected, historical, fatigued);
      && (a.keptWinners <==> WinnerRuleApplies(SortedHistory(history), selected))
      && (forall x :: x in a.hadFatiguedPlayers <==> x in selected && x in fatigued)
      && |a.repeatedPartnerships|
         == (if NormalizeTeam(c.team1[0], c.team1[1]) in historical then 1 else 0)
          + (if NormalizeTeam(c.team2[0], c.team2[1]) in historical then 1 else 0)
      && forall p :: p in a.repeatedPartnerships ==>
           && !LexLess(p.player2, p.player1)
           && p.player1 + "-" + p.player2 in historical
           && (multiset{p.player1, p.player2} == multiset(c.team1) || multiset{p.player1, p.player2} == multiset(c.team2))
  {
    var a := GenerateAnalytics(history, c, selected, historical, fatigued);
    var r1: seq<Partnership> := if NormalizeTeam(c.team1[0], c.team1[1]) in historical then [SortedPair(c.team1)] else [];
    var r2: seq<Partnership> := if NormalizeTeam(c.team2[0], c.team2[1]) in historical then [SortedPair(c.team2)] else [];
    assert a.repeatedPartnerships == r1 + r2;
    RepeatedReportShape(c, historical, r1, r2);
  }

  /** The two optional one-element reports, concatenated, hold one sorted, recorded pair
      per repeated team. */
  lemma RepeatedReportShape(c: Config, historical: set<string>, r1: seq<Partnership>, r2: seq<Partnership>)
    requires WellShaped(c)
    requires r1 == if NormalizeTeam(c.team1[0], c.team1[1]) in historical then [SortedPair(c.team1)] else []
    requires r2 == if NormalizeTeam(c.team2[0], c.team2[1]) in historical then [SortedPair(c.team2)] else []
    ensures |r1 + r2| == (if NormalizeTeam(c.team1[0], c.team1[1]) in historical then 1 else 0)
                       + (if NormalizeTeam(c.team2[0], c.team2[1]) in historical then 1 else 0)
    ensures forall p :: p in r1 + r2 ==>
           && !LexLess(p.player2, p.player1)
           && p.player1 + "-" + p.player2 in historical
           && (multiset{p.player1, p.player2} == multiset(c.team1) || multiset{p.player1, p.player2} == multiset(c.team2))
  {
    SortedPairKey(c.team1);
    SortedPairKey(c.team2);
    forall p: Partnership | p in r1 + r2
      ensures && !LexLess(p.player2, p.player1)
              && p.player1 + "-" + p.player2 in historical
              && (multiset{p.player1, p.player2} == multiset(c.team1) || multiset{p.player1, p.player2} == multiset(c.team2))
    {
      assert p in r1 || p in r2;
    }
  }

  /** In rotation mode, when both of the last winners are selected and some split
      separates them, the proposal separates them: the winner rule's 500-point swing
      outweighs the repeat penalties. */
  lemma RotationSplitsWinners(availablePlayerIds: seq<PlayerId>, history: seq<Match>)
    requires ProposeMatchSpec(availablePlayerIds, history, Rotation).Some?
    requires var sortedHistory := SortedHistory(history);
      var selected := RotationSelection(availablePlayerIds, FatigueSet(sortedHistory),
        PlayerStatsOf(availablePlayerIds, sortedHistory));
      |selected| >= 4 && WinnerRuleApplies(sortedHistory, selected)
      && exists i :: 0 <= i < 3 && SplitsWinners(Configs(selected)[i], sortedHistory, selected)
    ensures ProposeMatchSpec(availablePlayerIds, history, Rotation).value.analytics.winnersWereSplit == Some(true)
  {
    var selected, k := ProposalIsBestSplit(availablePlayerIds, history, Rotation);
    var sortedHistory := SortedHistory(history);
    var configs := Configs(selected);
    assert selected == RotationSelection(availablePlayerIds, FatigueSet(sortedHistory),
      PlayerStatsOf(availablePlayerIds, sortedHistory));
    var i :| 0 <= i < 3 && SplitsWinners(configs[i], sortedHistory, selected);
    var scored := ScoreAll(Rotation, configs, Ledger(history), sortedHistory, selected);
    assert scored[i].score == ConfigScore(Rotation, configs[i], Ledger(history), sortedHistory, selected);
    assert scored[k].score == ConfigScore(Rotation, configs[k], Ledger(history), sortedHistory, selected);
    if !SplitsWinners(configs[k], sortedHistory, selected) {
      SplitOutscoresTogether(configs[i], configs[k], Ledger(history), sortedHistory, selected);
      assert false;
    }
    AnalyticsWinnersSplit(history, configs[k], selected, Ledger(history), FatigueSet(sortedHistory));
  }

  /** With no history every player ties, so the first four available players are
      proposed in input order, as [p1, p2] against [p3, p4], in either mode. */
  lemma EmptyHistoryTakesFirstFour(availablePlayerIds: seq<PlayerId>, mode: Mode)
    requires |availablePlayerIds| >= 4
    ensures var r := ProposeMatchSpec(availablePlayerIds, [], mode);
      r.Some?
      && r.value.team1 == [availablePlayerIds[0], availablePlayerIds[1]]
      && r.value.team2 == [availablePlayerIds[2], availablePlayerIds[3]]
  {
    var sortedHistory := SortedHistory([]);
    assert sortedHistory == [];
    var selected := EmptyHistorySelectsFirstFour(availablePlayerIds, mode);
    var selected', k := ProposalIsBestSplit(availablePlayerIds, [], mode);
    EmptyHistoryScoresTie(mode, selected);
    var scored := ScoreAll(mode, Configs(selected), Ledger([]), sortedHistory, selected);
    assert scored[0].score == 0 && scored[k].score == 0;
    assert Configs(selected)[0] == Config([availablePlayerIds[0], availablePlayerIds[1]], [availablePlayerIds[2], availablePlayerIds[3]]);
  }

  /** With no history every player ties in the rotation order, so the first four are selected. */
  lemma EmptyHistorySelectsFirstFour(availablePlayerIds: seq<PlayerId>, mode: Mode) returns (selected: seq<PlayerId>)
    requires |availablePlayerIds| >= 4
    ensures selected == SelectPlayers(mode, availablePlayerIds, SortedHistory([]), FatigueSet(SortedHistory([])),
      PlayerStatsOf(availablePlayerIds, SortedHistory([])), Ledger([]))
    ensures selected == availablePlayerIds[..4]
  {
    var sortedHistory := SortedHistory([]);
    assert sortedHistory == [];
    var stats := PlayerStatsOf(availablePlayerIds, sortedHistory);
    var lt := RotationOrder({}, stats);
    forall i, j | 0 <= i < |availablePlayerIds| && 0 <= j < |availablePlayerIds|
      ensures !lt(availablePlayerIds[i], availablePlayerIds[j])
    {
      assert StatOf(stats, availablePlayerIds[i]) == PlayerStats(availablePlayerIds[i], 0, 0);
      assert StatOf(stats, availablePlayerIds[j]) == PlayerStats(availablePlayerIds[j], 0, 0);
    }
    SortAllTied(availablePlayerIds, lt);
    selected := SelectPlayers(mode, availablePlayerIds, sortedHistory, FatigueSet(sortedHistory), stats, Ledger([]));
  }

  /** With no history and an empty ledger every split scores 0. */
  lemma EmptyHistoryScoresTie(mode: Mode, selected: seq<PlayerId>)
    requires |selected| >= 4
    ensures var scored := ScoreAll(mode, Configs(selected), Ledger([]), SortedHistory([]), selected);
      forall i :: 0 <= i < 3 ==> scored[i].score == 0
  {
    assert SortedHistory([]) == [];
    var configs := Configs(selected);
    forall i | 0 <= i < 3
      ensures ScoreAll(mode, configs, Ledger([]), SortedHistory([]), selected)[i].score == 0
    {
      ScoreParts(mode, configs[i], Ledger([]), SortedHistory([]), selected);
    }
  }


  // ---------------------------------------------------------------------------
  // Strict partners keeps fresh winners on court

  /** The last match's winners who are available and not fatigued, in their team's order. */
  function RestedWinners(availablePlayerIds: seq<PlayerId>, sortedHistory: seq<Match>, fatigued: set<PlayerId>): (r: seq<PlayerId>)
    requires |sortedHistory| > 0 && sortedHistory[0].winnerTeam.Some?
    ensures forall x :: x in r ==> x in availablePlayerIds && x !in fatigued && x in WinnersOf(sortedHistory[0])
  {
    Filter(WinnersOf(sortedHistory[0]), w => w in availablePlayerIds && w !in fatigued)
  }

  /** The winners followed by the first two of the other players in rotation order. */
  function WinnersCandidate(availablePlayerIds: seq<PlayerId>, winners: seq<PlayerId>, fatigued: set<PlayerId>,
                            stats: map<PlayerId, PlayerStats>): (r: seq<PlayerId>)
    ensures |winners| <= |r| && r[..|winners|] == winners
  {
    winners + Take(StableSort(Filter(availablePlayerIds, id => id !in winners), RotationOrder(fatigued, stats)), 2)
  }

  /** Strict partners keeps both of the last winners on court when both are available and
      rested and some split of them with the two best-ranked others has both teams fresh;
      the proposal then repeats no partnership. Otherwise it falls back to rotation's pick. */
  lemma StrictKeepsFreshWinners(availablePlayerIds: seq<PlayerId>, history: seq<Match>)
    requires Distinct(availablePlayerIds) && |availablePlayerIds| >= 4
    ensures ProposeMatchSpec(availablePlayerIds, history, StrictPartners).Some?
    ensures var sortedHistory := SortedHistory(history);
      var fatigued, stats := FatigueSet(sortedHistory), PlayerStatsOf(availablePlayerIds, sortedHistory);
      var selected := SelectPlayers(StrictPartners, availablePlayerIds, sortedHistory, fatigued, stats, Ledger(history));
      var p := ProposeMatchSpec(availablePlayerIds, history, StrictPartners).value;
      if |sortedHistory| > 0 && sortedHistory[0].winnerTeam.Some?
         && |RestedWinners(availablePlayerIds, sortedHistory, fatigued)| == 2
         && HasFreshConfig(WinnersCandidate(availablePlayerIds, RestedWinners(availablePlayerIds, sortedHistory, fatigued),
              fatigued, stats), Ledger(history))
      then
        var winners := RestedWinners(availablePlayerIds, sortedHistory, fatigued);
        && selected == WinnersCandidate(availablePlayerIds, winners, fatigued, stats)
        && winners[0] in p.team1 + p.team2 && winners[1] in p.team1 + p.team2
        && RepeatCount(Config(p.team1, p.team2), Ledger(history)) == 0
      else selected == RotationSelection(availablePlayerIds, fatigued, stats)
  {
    ProposesIffFourAvailable(availablePlayerIds, history, StrictPartners);
    var sortedHistory := SortedHistory(history);
    var fatigued, stats := FatigueSet(sortedHistory), PlayerStatsOf(availablePlayerIds, sortedHistory);
    if |sortedHistory| > 0 && sortedHistory[0].winnerTeam.Some?
       && |RestedWinners(availablePlayerIds, sortedHistory, fatigued)| == 2
    {
      var winners := RestedWinners(availablePlayerIds, sortedHistory, fatigued);
      var candidate := WinnersCandidate(availablePlayerIds, winners, fatigued, stats);
      if HasFreshConfig(candidate, Ledger(history)) {
        FreshWinnersProposal(availablePlayerIds, history, winners, candidate);
      }
    }
  }

  /** The proposal from a fresh candidate of four keeps its first two players and repeats
      no partnership. */
  lemma FreshWinnersProposal(availablePlayerIds: seq<PlayerId>, history: seq<Match>,
                             winners: seq<PlayerId>, candidate: seq<PlayerId>)
    requires Distinct(availablePlayerIds) && |availablePlayerIds| >= 4
    requires var sortedHistory := SortedHistory(history);
      && |sortedHistory| > 0 && sortedHistory[0].winnerTeam.Some?
      && winners == RestedWinners(availablePlayerIds, sortedHistory, FatigueSet(sortedHistory))
      && |winners| == 2
      && candidate == WinnersCandidate(availablePlayerIds, winners, FatigueSet(sortedHistory),
           PlayerStatsOf(availablePlayerIds, sortedHistory))
      && HasFreshConfig(candidate, Ledger(history))
    ensures ProposeMatchSpec(availablePlayerIds, history, StrictPartners).Some?
    ensures var sortedHistory := SortedHistory(history);
      var p := ProposeMatchSpec(availablePlayerIds, history, StrictPartners).value;
      && SelectPlayers(StrictPartners, availablePlayerIds, sortedHistory, FatigueSet(sortedHistory),
           PlayerStatsOf(availablePlayerIds, sortedHistory), Ledger(history)) == candidate
      && winners[0] in p.team1 + p.team2 && winners[1] in p.team1 + p.team2
      && RepeatCount(Config(p.team1, p.team2), Ledger(history)) == 0
  {
    ProposesIffFourAvailable(availablePlayerIds, history, StrictPartners);
    var sortedHistory := SortedHistory(history);
    StrictPicksCandidate(availablePlayerIds, sortedHistory, FatigueSet(sortedHistory),
      PlayerStatsOf(availablePlayerIds, sortedHistory), Ledger(history), winners, candidate);
    var selected := ProposalHoldsSelection(availablePlayerIds, history, StrictPartners);
    var i := FreshConfigRepeatsNothing(candidate, Ledger(history));
    StrictMinimisesRepeats(availablePlayerIds, history);
    assert Configs(candidate)[i] in Configs(candidate);
  }

  /** In strict partners, a fresh winners candidate is the selection, and it has four players. */
  lemma StrictPicksCandidate(
    availablePlayerIds: seq<PlayerId>, sortedHistory: seq<Match>, fatigued: set<PlayerId>,
    stats: map<PlayerId, PlayerStats>, historical: set<string>, winners: seq<PlayerId>, candidate: seq<PlayerId>)
    requires Distinct(availablePlayerIds) && |availablePlayerIds| >= 4
    requires |sortedHistory| > 0 && sortedHistory[0].winnerTeam.Some?
    requires winners == RestedWinners(availablePlayerIds, sortedHistory, fatigued) && |winners| == 2
    requires candidate == WinnersCandidate(availablePlayerIds, winners, fatigued, stats)
    requires HasFreshConfig(candidate, historical)
    ensures SelectPlayers(StrictPartners, availablePlayerIds, sortedHistory, fatigued, stats, historical) == candidate
    ensures |candidate| == 4 && candidate[0] == winners[0] && candidate[1] == winners[1]
  {
    AtLeastTwoOthers(winners, availablePlayerIds);
  }

  /** A candidate of four with a fresh split has a split that repeats no partnership. */
  lemma FreshConfigRepeatsNothing(candidate: seq<PlayerId>, historical: set<string>) returns (i: nat)
    requires |candidate| == 4 && HasFreshConfig(candidate, historical)
    ensures i < 3 && RepeatCount(Configs(candidate)[i], historical) == 0
  {
    if FreshSplit(candidate, historical, 0, 1, 2, 3) {
      i := 0;
    } else if FreshSplit(candidate, historical, 0, 2, 1, 3) {
      i := 1;
    } else {
      i := 2;
    }
  }

  /** The proposal's two teams hold each of the four selected players. */
  lemma ProposalHoldsSelection(availablePlayerIds: seq<PlayerId>, history: seq<Match>, mode: Mode)
    returns (selected: seq<PlayerId>)
    requires ProposeMatchSpec(availablePlayerIds, history, mode).Some?
    ensures var sortedHistory := SortedHistory(history);
      selected == SelectPlayers(mode, availablePlayerIds, sortedHistory, FatigueSet(sortedHistory),
        PlayerStatsOf(availablePlayerIds, sortedHistory), Ledger(history))
    ensures |selected| >= 4
    ensures var p := ProposeMatchSpec(availablePlayerIds, history, mode).value;
      forall j :: 0 <= j < 4 ==> selected[j] in p.team1 + p.team2
  {
    var k;
    selected, k := ProposalIsBestSplit(availablePlayerIds, history, mode);
    SplitsRearrangeSelection(selected, k);
  }

  // ---------------------------------------------------------------------------
  // Proposals exist and are four distinct available players

  /** Strict-partners selection always yields four players when the available IDs are distinct. */
  lemma StrictSelectsFour(
    availablePlayerIds: seq<PlayerId>, sortedHistory: seq<Match>, fatigued: set<PlayerId>,
    stats: map<PlayerId, PlayerStats>, historical: set<string>)
    requires Distinct(availablePlayerIds) && |availablePlayerIds| >= 4
    ensures |StrictSelection(availablePlayerIds, sortedHistory, fatigued, stats, historical)| == 4
  {
    if |sortedHistory| > 0 && sortedHistory[0].winnerTeam.Some? {
      var availableWinners := Filter(WinnersOf(sortedHistory[0]),
        w => w in availablePlayerIds && w !in fatigued);
      if |availableWinners| == 2 {
        AtLeastTwoOthers(availableWinners, availablePlayerIds);
      }
    }
  }

  /** Besides two winners, four distinct available players leave at least two others. */
  lemma AtLeastTwoOthers(availableWinners: seq<PlayerId>, availablePlayerIds: seq<PlayerId>)
    requires |availableWinners| == 2 && Distinct(availablePlayerIds) && |availablePlayerIds| >= 4
    ensures |Filter(availablePlayerIds, id => id !in availableWinners)| >= 2
  {
    var isWinner := (id: PlayerId) => id in availableWinners;
    var isOther := (id: PlayerId) => id !in availableWinners;
    FilterComplement(availablePlayerIds, isWinner, isOther);
    DistinctFilter(availablePlayerIds, isWinner);
    DistinctWithin(Filter(availablePlayerIds, isWinner), availableWinners);
  }

  /** With distinct available IDs a proposal exists exactly when four players are available. */
  lemma ProposesIffFourAvailable(availablePlayerIds: seq<PlayerId>, history: seq<Match>, mode: Mode)
    requires Distinct(availablePlayerIds)
    ensures ProposeMatchSpec(availablePlayerIds, history, mode).Some? <==> |availablePlayerIds| >= 4
  {
    if |availablePlayerIds| >= 4 {
      var sortedHistory := SortedHistory(history);
      StrictSelectsFour(availablePlayerIds, sortedHistory, FatigueSet(sortedHistory),
        PlayerStatsOf(availablePlayerIds, sortedHistory), Ledger(history));
    }
  }

  lemma DistinctTake<T>(s: seq<T>, n: nat)
    requires Distinct(s)
    ensures Distinct(Take(s, n))
  {
  }

  /** A distinct sequence stays distinct after the stable sort. */
  lemma DistinctSorted<T>(s: seq<T>, lt: (T, T) -> bool)
    requires Distinct(s)
    ensures Distinct(StableSort(s, lt))
  {
    SortPermutes(s, lt);
    DistinctPermutation(s, StableSort(s, lt));
  }

  lemma WinnersDistinct(m: Match)
    requires m.winnerTeam.Some? && Distinct(Participants(m))
    ensures Distinct(WinnersOf(m))
  {
    var winners := WinnersOf(m);
    forall i, j | 0 <= i < j < |winners| ensures winners[i] != winners[j] {
      if m.winnerTeam.value == 1 {
        assert Participants(m)[i] == winners[i] && Participants(m)[j] == winners[j];
      } else {
        assert Participants(m)[|m.team1| + i] == winners[i] && Participants(m)[|m.team1| + j] == winners[j];
      }
    }
  }

  /** Selection repeats nobody when the available IDs are distinct and no match lists a player twice. */
  lemma SelectionDistinct(
    mode: Mode, availablePlayerIds: seq<PlayerId>, sortedHistory: seq<Match>, fatigued: set<PlayerId>,
    stats: map<PlayerId, PlayerStats>, historical: set<string>)
    requires Distinct(availablePlayerIds)
    requires |sortedHistory| > 0 ==> Distinct(Participants(sortedHistory[0]))
    ensures Distinct(SelectPlayers(mode, availablePlayerIds, sortedHistory, fatigued, stats, historical))
  {
    RotationSelectionDistinct(availablePlayerIds, fatigued, stats);
    if mode == StrictPartners && |sortedHistory| > 0 && sortedHistory[0].winnerTeam.Some? {
      var winners := WinnersOf(sortedHistory[0]);
      WinnersDistinct(sortedHistory[0]);
      var availableWinners := Filter(winners, w => w in availablePlayerIds && w !in fatigued);
      DistinctFilter(winners, w => w in availablePlayerIds && w !in fatigued);
      WinnersPlusOthersDistinct(availableWinners, availablePlayerIds, RotationOrder(fatigued, stats));
    }
  }

  lemma RotationSelectionDistinct(availablePlayerIds: seq<PlayerId>, fatigued: set<PlayerId>, stats: map<PlayerId, PlayerStats>)
    requires Distinct(availablePlayerIds)
    ensures Distinct(RotationSelection(availablePlayerIds, fatigued, stats))
  {
    var lt := RotationOrder(fatigued, stats);
    DistinctSorted(availablePlayerIds, lt);
    DistinctTake(StableSort(availablePlayerIds, lt), 4);
  }

  /** The winners followed by the first two of the other players repeat nobody. */
  lemma WinnersPlusOthersDistinct(availableWinners: seq<PlayerId>, availablePlayerIds: seq<PlayerId>,
                                  lt: (PlayerId, PlayerId) -> bool)
    requires Distinct(availableWinners) && Distinct(availablePlayerIds)
    ensures Distinct(availableWinners + Take(StableSort(Filter(availablePlayerIds, id => id !in availableWinners), lt), 2))
  {
    var others := Filter(availablePlayerIds, id => id !in availableWinners);
    DistinctFilter(availablePlayerIds, id => id !in availableWinners);
    DistinctSorted(others, lt);
    var sortedOthers := StableSort(others, lt);
    SortMembers(others, lt);
    DistinctTake(sortedOthers, 2);
    var picked := Take(sortedOthers, 2);
    var candidate := availableWinners + picked;
    forall i, j | 0 <= i < j < |candidate| ensures candidate[i] != candidate[j] {
      if i < |availableWinners| && j >= |availableWinners| {
        assert candidate[j] in sortedOthers;
      }
    }
  }

  /** When the available IDs are distinct and no match lists a player twice, the proposal
      is four distinct available players. */
  lemma ProposalIsFourDistinctAvailable(availablePlayerIds: seq<PlayerId>, history: seq<Match>, mode: Mode)
    requires Distinct(availablePlayerIds)
    requires forall i :: 0 <= i < |history| ==> Distinct(Participants(history[i]))
    requires ProposeMatchSpec(availablePlayerIds, history, mode).Some?
    ensures var p := ProposeMatchSpec(availablePlayerIds, history, mode).value;
      Distinct(p.team1 + p.team2) && forall x :: x in p.team1 + p.team2 ==> x in availablePlayerIds
  {
    var selected, k := ProposalIsBestSplit(availablePlayerIds, history, mode);
    var sortedHistory := SortedHistory(history);
    if |sortedHistory| > 0 {
      SortMembers(history, MoreRecent);
      assert sortedHistory[0] in history;
      assert Distinct(Participants(sortedHistory[0]));
    }
    SelectionDistinct(mode, availablePlayerIds, sortedHistory, FatigueSet(sortedHistory),
      PlayerStatsOf(availablePlayerIds, sortedHistory), Ledger(history));
    SelectionFromAvailable(mode, availablePlayerIds, sortedHistory, FatigueSet(sortedHistory),
      PlayerStatsOf(availablePlayerIds, sortedHistory), Ledger(history));
    SplitsRearrangeSelection(selected, k);
  }

  /** Each split places the four selected players, each once. */
  lemma SplitsRearrangeSelection(selected: seq<PlayerId>, k: nat)
    requires |selected| >= 4 && k < 3
    ensures var c := Configs(selected)[k];
      (forall x :: x in c.team1 + c.team2 ==> x in selected)
      && (forall j :: 0 <= j < 4 ==> selected[j] in c.team1 + c.team2)
      && (Distinct(selected) ==> Distinct(c.team1 + c.team2))
  {
    var s0, s1, s2, s3 := selected[0], selected[1], selected[2], selected[3];
    var c := Configs(selected)[k];
    var four := c.team1 + c.team2;
    if k == 0 {
      assert four == [s0, s1, s2, s3];
    } else if k == 1 {
      assert four == [s0, s2, s1, s3];
    } else {
      assert four == [s0, s3, s1, s2];
    }
  }

  /** Among the three splits of four distinct players with unambiguous IDs, one separates
      two distinct winners. */
  lemma SplitExists(selected: seq<PlayerId>, sortedHistory: seq<Match>) returns (i: nat)
    requires |selected| == 4 && Distinct(selected)
    requires Unambiguous(selected)
    requires WinnerRuleApplies(sortedHistory, selected)
    requires Distinct(WinnersInSelection(sortedHistory[0], selected))
    ensures i < 3 && SplitsWinners(Configs(selected)[i], sortedHistory, selected)
  {
    var w := WinnersInSelection(sortedHistory[0], selected);
    assert w[0] in w && w[1] in w;
    i := SeparatingSplit(selected, w[0], w[1]);
  }

  /** One of the three splits of four distinct players puts x and y on opposite teams,
      so with unambiguous IDs neither team has their key. */
  lemma SeparatingSplit(selected: seq<PlayerId>, x: PlayerId, y: PlayerId) returns (i: nat)
    requires |selected| == 4 && Distinct(selected) && Unambiguous(selected)
    requires x in selected && y in selected && x != y
    ensures i < 3
    ensures var c := Configs(selected)[i];
      NormalizeTeam(c.team1[0], c.team1[1]) != NormalizeTeam(x, y)
      && NormalizeTeam(c.team2[0], c.team2[1]) != NormalizeTeam(x, y)
  {
    var a :| 0 <= a < 4 && selected[a] == x;
    var b :| 0 <= b < 4 && selected[b] == y;
    i := if (a < 2 && b < 2) || (a >= 2 && b >= 2) then 1 else 0;
    var c := Configs(selected)[i];
    SplitsRearrangeSelection(selected, i);
    assert !(x in c.team1 && y in c.team1) && !(x in c.team2 && y in c.team2);
    assert c.team1[0] in c.team1 + c.team2 && c.team1[1] in c.team1 + c.team2;
    assert c.team2[0] in c.team1 + c.team2 && c.team2[1] in c.team1 + c.team2;
    OtherTeamOtherKey(selected, c.team1, x, y);
    OtherTeamOtherKey(selected, c.team2, x, y);
  }

  /** A team of unambiguous IDs without both x and y does not have their key. */
  lemma OtherTeamOtherKey(ids: seq<PlayerId>, team: seq<PlayerId>, x: PlayerId, y: PlayerId)
    requires Unambiguous(ids) && |team| == 2
    requires team[0] in ids && team[1] in ids && x in ids && y in ids
    requires !(x in team && y in team)
    ensures NormalizeTeam(team[0], team[1]) != NormalizeTeam(x, y)
  {
    UnambiguousWithin([team[0], team[1], x, y], ids);
    NormalizeTeamInjective(team[0], team[1], x, y);
    assert team == [team[0], team[1]];
    assert x in multiset{x, y} && y in multiset{x, y};
  }

  /** Rotation with distinct, unambiguous IDs separates the last match's winners whenever
      both are selected. */
  lemma RotationAlwaysSplitsWinners(availablePlayerIds: seq<PlayerId>, history: seq<Match>)
    requires Distinct(availablePlayerIds) && Unambiguous(availablePlayerIds)
    requires forall i :: 0 <= i < |history| ==> Distinct(Participants(history[i]))
    requires |availablePlayerIds| >= 4
    requires var sortedHistory := SortedHistory(history);
      WinnerRuleApplies(sortedHistory, RotationSelection(availablePlayerIds, FatigueSet(sortedHistory),
        PlayerStatsOf(availablePlayerIds, sortedHistory)))
    ensures ProposeMatchSpec(availablePlayerIds, history, Rotation).Some?
    ensures ProposeMatchSpec(availablePlayerIds, history, Rotation).value.analytics.winnersWereSplit == Some(true)
  {
    var sortedHistory := SortedHistory(history);
    var selected := RotationWinnersSelected(availablePlayerIds, history);
    UnambiguousWithin(selected, availablePlayerIds);
    var i := SplitExists(selected, sortedHistory);
    RotationSplitsWinners(availablePlayerIds, history);
  }

  /** The rotation selection of distinct players holds four distinct available players
      and two distinct winners. */
  lemma RotationWinnersSelected(availablePlayerIds: seq<PlayerId>, history: seq<Match>) returns (selected: seq<PlayerId>)
    requires Distinct(availablePlayerIds)
    requires forall i :: 0 <= i < |history| ==> Distinct(Participants(history[i]))
    requires |availablePlayerIds| >= 4
    requires var sortedHistory := SortedHistory(history);
      WinnerRuleApplies(sortedHistory, RotationSelection(availablePlayerIds, FatigueSet(sortedHistory),
        PlayerStatsOf(availablePlayerIds, sortedHistory)))
    ensures var sortedHistory := SortedHistory(history);
      selected == RotationSelection(availablePlayerIds, FatigueSet(sortedHistory),
        PlayerStatsOf(availablePlayerIds, sortedHistory))
    ensures |selected| == 4 && Distinct(selected)
    ensures forall x :: x in selected ==> x in availablePlayerIds
    ensures ProposeMatchSpec(availablePlayerIds, history, Rotation).Some?
    ensures Distinct(WinnersInSelection(SortedHistory(history)[0], selected))
  {
    var sortedHistory := SortedHistory(history);
    selected := RotationSelection(availablePlayerIds, FatigueSet(sortedHistory),
      PlayerStatsOf(availablePlayerIds, sortedHistory));
    ProposesIffFourAvailable(availablePlayerIds, history, Rotation);
    RotationSelectionIsBest(availablePlayerIds, FatigueSet(sortedHistory), PlayerStatsOf(availablePlayerIds, sortedHistory));
    assert |selected| == 4;
    SortMembers(history, MoreRecent);
    assert sortedHistory[0] in history;
    assert Distinct(Participants(sortedHistory[0]));
    SelectionDistinct(Rotation, availablePlayerIds, sortedHistory, FatigueSet(sortedHistory),
      PlayerStatsOf(availablePlayerIds, sortedHistory), Ledger(history));
    assert Distinct(selected);
    WinnersDistinct(sortedHistory[0]);
    DistinctFilter(WinnersOf(sortedHistory[0]), w => w in selected);
  }

  // ---------------------------------------------------------------------------
  // Playoff seeding

  lemma MulKeepsOrder(a: int, b: int, c: int)
    requires a <= b && c > 0
    ensures a * c <= b * c
  {
  }

  /** Comparing fractions with positive denominators by cross-multiplication is
      negatively transitive. */
  lemma FractionNegativelyTransitive(x: (int, int), y: (int, int), z: (int, int))
    requires x.1 > 0 && y.1 > 0 && z.1 > 0
    ensures FractionGreater(x, z) ==> FractionGreater(x, y) || FractionGreater(y, z)
  {
    if !FractionGreater(x, y) && !FractionGreater(y, z) {
      MulKeepsOrder(x.0 * y.1, y.0 * x.1, z.1);
      MulKeepsOrder(y.0 * z.1, z.0 * y.1, x.1);
      assert x.0 * y.1 * z.1 == (x.0 * z.1) * y.1;
      assert y.0 * x.1 * z.1 == y.0 * z.1 * x.1;
      assert z.0 * y.1 * x.1 == (z.0 * x.1) * y.1;
      if x.0 * z.1 > z.0 * x.1 {
        MulKeepsOrder(z.0 * x.1 + 1, x.0 * z.1, y.1);
      }
    }
  }

  lemma PlayoffPrecedesIsStrictWeakOrder()
    ensures StrictWeakOrder(PlayoffPrecedes)
  {
    forall a: Player, b: Player, c: Player
      ensures PlayoffPrecedes(a, c) ==> PlayoffPrecedes(a, b) || PlayoffPrecedes(b, c)
    {
      var fa, fb, fc := WinFraction(a), WinFraction(b), WinFraction(c);
      FractionNegativelyTransitive(fa, fb, fc);
      FractionNegativelyTransitive(fb, fc, fa);
      FractionNegativelyTransitive(fb, fa, fc);
      FractionNegativelyTransitive(fc, fa, fb);
      FractionNegativelyTransitive(fa, fc, fb);
      FractionNegativelyTransitive(fc, fb, fa);
      var ga, gb, gc := PointsPerGame(a), PointsPerGame(b), PointsPerGame(c);
      FractionNegativelyTransitive(ga, gb, gc);
    }
  }

  /** Playoff seeds are the available players' records in ranking order: no later seed
      has a strictly higher win rate than an earlier one, and on equal win rates no
      later seed has more wins. Seeds one and four face seeds two and three. */
  lemma PlayoffSeeding(availablePlayerIds: seq<PlayerId>, history: seq<Match>, playerStats: seq<Player>)
    requires ProposePlayoffMatch(availablePlayerIds, history, playerStats).Some?
    ensures var r := ProposePlayoffMatch(availablePlayerIds, history, playerStats).value;
      var ranking := PlayoffRanking(availablePlayerIds, playerStats);
      multiset(ranking) == multiset(Filter(playerStats, (p: Player) => p.id in availablePlayerIds))
      && r.seeds == Ids(ranking)
      && r.team1 == [r.seeds[0], r.seeds[3]] && r.team2 == [r.seeds[1], r.seeds[2]]
      && forall i, j :: 0 <= i < j < |ranking| ==>
           !PlayoffPrecedes(ranking[j], ranking[i])
           && !FractionGreater(WinFraction(ranking[j]), WinFraction(ranking[i]))
           && (!FractionGreater(WinFraction(ranking[i]), WinFraction(ranking[j])) ==>
                 ranking[j].matchesWon <= ranking[i].matchesWon)
  {
    var available := Filter(playerStats, (p: Player) => p.id in availablePlayerIds);
    SortPermutes(available, PlayoffPrecedes);
    PlayoffPrecedesIsStrictWeakOrder();
    SortSorted(available, PlayoffPrecedes);
  }

  // ---------------------------------------------------------------------------
  // The rationale

  /** No reason is listed exactly in rotation mode with both teams already in the
      ledger and all four players fatigued. */
  lemma NoReasonsIff(mode: Mode, best: Config, historical: set<string>, fatigued: set<PlayerId>)
    requires WellShaped(best)
    ensures |Reasons(mode, best, historical, fatigued)| == 0 <==>
      mode == Rotation
      && NormalizeTeam(best.team1[0], best.team1[1]) in historical
      && NormalizeTeam(best.team2[0], best.team2[1]) in historical
      && forall x :: x in best.team1 + best.team2 ==> x in fatigued
  {
    var players := best.team1 + best.team2;
    var isFatigued := (p: PlayerId) => p in fatigued;
    if FatigueCount(best, fatigued) == 4 {
      FilterKeepsAll(players, isFatigued);
    } else if forall x :: x in players ==> x in fatigued {
      FilterAll(players, isFatigued);
    }
  }

  /** A joined list of reasons never reads as the fallback sentence. */
  lemma JoinedReasonsNotFallback(mode: Mode, best: Config, historical: set<string>, fatigued: set<PlayerId>)
    requires WellShaped(best)
    requires |Reasons(mode, best, historical, fatigued)| > 0
    ensures Join(Reasons(mode, best, historical, fatigued), ", ") + "." != FallbackReason
  {
    FirstReasonShape(mode, best, historical, fatigued);
    JoinedNotFallback(Reasons(mode, best, historical, fatigued));
  }

  lemma JoinedNotFallback(reasons: seq<string>)
    requires |reasons| > 0
    requires reasons[0] == "Best partnership variety available" || (|reasons[0]| > 0 && reasons[0][0] != 'B')
    ensures Join(reasons, ", ") + "." != FallbackReason
  {
    JoinStartsWithFirst(reasons, ", ");
    var first := reasons[0];
    var text := Join(reasons, ", ") + ".";
    assert text[..|first|] == first;
    if first == "Best partnership variety available" {
      assert text[5] == first[5] == 'p' && FallbackReason[5] == 'a';
    } else {
      assert text[0] == first[0];
      assert FallbackReason[0] == 'B';
    }
  }

  /** The first reason is the strict-mode variety sentence or starts with a letter other than 'B'. */
  lemma FirstReasonShape(mode: Mode, best: Config, historical: set<string>, fatigued: set<PlayerId>)
    requires WellShaped(best)
    requires |Reasons(mode, best, historical, fatigued)| > 0
    ensures var first := Reasons(mode, best, historical, fatigued)[0];
      first == "Best partnership variety available" || (|first| > 0 && first[0] != 'B')
  {
    var fatigueCount := FatigueCount(best, fatigued);
    if 0 < fatigueCount < 4 {
      var digits := NatToString(4 - fatigueCount);
      assert (digits + " rested players")[0] == digits[0];
    }
  }


  /** The rationale falls back to the generic sentence exactly when nothing can be said:
      rotation mode, both teams already in the ledger and all four players fatigued. */
  lemma FallbackReasonWhenNothingToSay(mode: Mode, best: Config, historical: set<string>, fatigued: set<PlayerId>)
    requires WellShaped(best)
    ensures MainReason(mode, best, historical, fatigued) == FallbackReason <==>
      mode == Rotation
      && NormalizeTeam(best.team1[0], best.team1[1]) in historical
      && NormalizeTeam(best.team2[0], best.team2[1]) in historical
      && forall x :: x in best.team1 + best.team2 ==> x in fatigued
  {
    NoReasonsIff(mode, best, historical, fatigued);
    if |Reasons(mode, best, historical, fatigued)| > 0 {
      JoinedReasonsNotFallback(mode, best, historical, fatigued);
    }
  }
}
