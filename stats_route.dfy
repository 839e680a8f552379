/** The leaderboard computation of the stats route (src/app/api/stats/route.ts, GET):
    every stored player starts from zero counters and the finished matches of the
    requested range are folded into them. The start of "today" comes from the clock
    and is a parameter here. */
module StatsRoute {
  import opened Util
  import opened Types

  /** Increments to a player's four counters. */
  datatype Counters = Counters(played: int, won: int, scored: int, allowed: int)

  const NoCounters := Counters(0, 0, 0, 0)

  function Plus(a: Counters, b: Counters): Counters
  {
    Counters(a.played + b.played, a.won + b.won, a.scored + b.scored, a.allowed + b.allowed)
  }

  /** The player record with the counters added. */
  function Credited(p: Player, c: Counters): Player
  {
    p.(matchesPlayed := p.matchesPlayed + c.played, matchesWon := p.matchesWon + c.won,
       pointsScored := p.pointsScored + c.scored, pointsAllowed := p.pointsAllowed + c.allowed)
  }

  /** `{ ...p, matchesPlayed: 0, matchesWon: 0, pointsScored: 0, pointsAllowed: 0 }` */
  function Zeroed(p: Player): Player
  {
    p.(matchesPlayed := 0, matchesWon := 0, pointsScored := 0, pointsAllowed := 0)
  }

  /** What one side of a match credits to `id`: one game (and a win for the winning
      side) per time the ID is listed, with the side's points for and against. */
  function TeamCredit(team: seq<PlayerId>, id: PlayerId, isWinner: bool, scored: int, allowed: int): Counters
  {
    var n := multiset(team)[id];
    Counters(n, if isWinner then n else 0, n * scored, n * allowed)
  }

  /** What a counted match credits to `id`: team 1 wins only when `winnerTeam` is 1;
      team 2 is credited the win otherwise, even when no winner is recorded. */
  function MatchCredit(m: Match, id: PlayerId): Counters
  {
    var s1, s2 := ScoreOrZero(m.score1), ScoreOrZero(m.score2);
    var win1 := m.winnerTeam == Some(1);
    Plus(TeamCredit(m.team1, id, win1, s1, s2), TeamCredit(m.team2, id, !win1, s2, s1))
  }

  /** The sum of the credits of the matches to `id`. */
  function Totals(matches: seq<Match>, id: PlayerId): Counters
  {
    if |matches| == 0 then NoCounters
    else Plus(Totals(matches[..|matches| - 1], id), MatchCredit(matches[|matches| - 1], id))
  }

  /** `searchParams.get('range') || 'today'` */
  function EffectiveRange(range: Option<string>): string
  {
    if range.Some? && range.value != "" then range.value else "today"
  }

  predicate IsFinished(m: Match)
  {
    m.isFinished
  }

  /** `m => m.timestamp >= todayStart.getTime()` */
  function NotBefore(todayStart: int): Match -> bool
  {
    (m: Match) => m.timestamp >= todayStart
  }

  /** Finished matches, and with range "today" only those at or after `todayStart`. */
  function CountedMatches(matches: seq<Match>, range: Option<string>, todayStart: int): seq<Match>
  {
    var finished := Filter(matches, IsFinished);
    if EffectiveRange(range) == "today" then Filter(finished, NotBefore(todayStart)) else finished
  }

  /** Keys of a JavaScript Map filled from `ids`: each ID once, at its first position. */
  function FirstOccurrences(ids: seq<PlayerId>): (keys: seq<PlayerId>)
    ensures Distinct(keys)
    ensures forall id :: id in keys <==> id in ids
  {
    if |ids| == 0 then []
    else
      var init, last := ids[..|ids| - 1], ids[|ids| - 1];
      assert ids == init + [last];
      if last in init then FirstOccurrences(init) else FirstOccurrences(init) + [last]
  }

  /** The last stored record with this ID, which is the one the Map keeps. */
  function LatestRecord(players: seq<Player>, id: PlayerId): (p: Player)
    requires id in Ids(players)
    ensures p in players && p.id == id
  {
    var init, last := players[..|players| - 1], players[|players| - 1];
    if last.id == id then last
    else
      assert Ids(players) == Ids(init) + [last.id];
      LatestRecord(init, id)
  }

  /** One entry per stored ID in first-stored order, holding the record with zeroed
      counters plus the totals of the given matches. */
  function Report(players: seq<Player>, counted: seq<Match>): (report: seq<Player>)
    ensures |report| == |FirstOccurrences(Ids(players))|
  {
    var keys := FirstOccurrences(Ids(players));
    seq(|keys|, k requires 0 <= k < |keys| =>
      Credited(Zeroed(LatestRecord(players, keys[k])), Totals(counted, keys[k])))
  }

  /** The leaderboard the route returns: the report over the counted matches. */
  function StatsReport(players: seq<Player>, matches: seq<Match>, range: Option<string>, todayStart: int): (report: seq<Player>)
    ensures |report| == |FirstOccurrences(Ids(players))|
  {
    Report(players, CountedMatches(matches, range, todayStart))
  }

  /** Listing one more ID on a team adds that ID's share to its credit. */
  lemma TeamCreditStep(team: seq<PlayerId>, j: nat, id: PlayerId, isWinner: bool, scored: int, allowed: int)
    requires j < |team|
    ensures TeamCredit(team[..j + 1], id, isWinner, scored, allowed)
      == Plus(TeamCredit(team[..j], id, isWinner, scored, allowed),
              if team[j] == id then Counters(1, if isWinner then 1 else 0, scored, allowed) else NoCounters)
  {
    var before, after := team[..j], team[..j + 1];
    assert after == before + [team[j]];
    assert multiset(after) == multiset(before) + multiset{team[j]};
    var n := multiset(before)[id];
    if team[j] == id {
      assert multiset(after)[id] == n + 1;
      Distribute(n, scored);
      Distribute(n, allowed);
      assert TeamCredit(after, id, isWinner, scored, allowed)
          == Counters(n + 1, if isWinner then n + 1 else 0, n * scored + scored, n * allowed + allowed);
    } else {
      assert multiset(after)[id] == n;
    }
  }

  /** `TeamCreditStep` for the last listed ID. */
  lemma TeamCreditLast(team: seq<PlayerId>, id: PlayerId, isWinner: bool, scored: int, allowed: int)
    requires |team| > 0
    ensures TeamCredit(team, id, isWinner, scored, allowed)
      == Plus(TeamCredit(team[..|team| - 1], id, isWinner, scored, allowed),
              if team[|team| - 1] == id then Counters(1, if isWinner then 1 else 0, scored, allowed) else NoCounters)
  {
    assert team[..|team|] == team;
    TeamCreditStep(team, |team| - 1, id, isWinner, scored, allowed);
  }

  /** Crediting twice is crediting the sum. */
  lemma CreditedPlus(p: Player, a: Counters, b: Counters)
    ensures Credited(Credited(p, a), b) == Credited(p, Plus(a, b))
  {
  }

  /** One more listed ID credits the entry with one game for that ID only. */
  lemma CreditOneMore(start: Player, current: Player, team: seq<PlayerId>, j: nat, id: PlayerId,
                      isWinner: bool, scored: int, allowed: int)
    requires j < |team|
    requires current == Credited(start, TeamCredit(team[..j], id, isWinner, scored, allowed))
    ensures team[j] == id ==>
      Credited(current, Counters(1, if isWinner then 1 else 0, scored, allowed))
      == Credited(start, TeamCredit(team[..j + 1], id, isWinner, scored, allowed))
    ensures team[j] != id ==> current == Credited(start, TeamCredit(team[..j + 1], id, isWinner, scored, allowed))
  {
    TeamCreditStep(team, j, id, isWinner, scored, allowed);
    var step := if team[j] == id then Counters(1, if isWinner then 1 else 0, scored, allowed) else NoCounters;
    CreditedPlus(start, TeamCredit(team[..j], id, isWinner, scored, allowed), step);
  }

  /** One more match credits an entry with both of its teams' shares. */
  lemma FoldOneMore(start: Player, current: Player, matches: seq<Match>, i: nat, id: PlayerId)
    requires i < |matches|
    requires current == Credited(start, Totals(matches[..i], id))
    ensures var m := matches[i];
      var s1, s2 := ScoreOrZero(m.score1), ScoreOrZero(m.score2);
      var win1 := m.winnerTeam == Some(1);
      Credited(Credited(current, TeamCredit(m.team1, id, win1, s1, s2)), TeamCredit(m.team2, id, !win1, s2, s1))
      == Credited(start, Totals(matches[..i + 1], id))
  {
    var m := matches[i];
    var s1, s2 := ScoreOrZero(m.score1), ScoreOrZero(m.score2);
    var win1 := m.winnerTeam == Some(1);
    assert matches[..i + 1] == matches[..i] + [m];
    TotalsAppend(matches[..i], m, id);
    CreditedPlus(current, TeamCredit(m.team1, id, win1, s1, s2), TeamCredit(m.team2, id, !win1, s2, s1));
    CreditedPlus(start, Totals(matches[..i], id), MatchCredit(m, id));
  }

  lemma Distribute(n: int, x: int)
    ensures (n + 1) * x == n * x + x
  {
  }

  /** The `updateStats` closure for every ID of one team: known IDs get one game, a win
      if the team won, and the points. */
  method CreditTeam(statsMap: map<PlayerId, Player>, team: seq<PlayerId>, isWinner: bool, scored: int, allowed: int)
    returns (updated: map<PlayerId, Player>)
    ensures updated.Keys == statsMap.Keys
    ensures forall id :: id in statsMap ==>
      updated[id] == Credited(statsMap[id], TeamCredit(team, id, isWinner, scored, allowed))
  {
    updated := statsMap;
    for j := 0 to |team|
      invariant updated.Keys == statsMap.Keys
      invariant forall id :: id in statsMap ==>
        updated[id] == Credited(statsMap[id], TeamCredit(team[..j], id, isWinner, scored, allowed))
    {
      var playerId := team[j];
      ghost var before := updated;
      var one := Counters(1, if isWinner then 1 else 0, scored, allowed);
      if playerId in updated {
        // one game, a win if the team won, and the points for and against
        updated := updated[playerId := Credited(updated[playerId], one)];
      }
      forall id | id in statsMap
        ensures updated[id] == Credited(statsMap[id], TeamCredit(team[..j + 1], id, isWinner, scored, allowed))
      {
        CreditOneMore(statsMap[id], before[id], team, j, id, isWinner, scored, allowed);
        if playerId != id {
          assert updated[id] == before[id];
        }
      }
    }
    assert team[..|team|] == team;
  }

  /** The Map filled from the stored players: keys in first-insertion order, each entry
      the last record stored under that ID with zeroed counters. */
  method ZeroedEntries(players: seq<Player>) returns (keys: seq<PlayerId>, statsMap: map<PlayerId, Player>)
    ensures keys == FirstOccurrences(Ids(players))
    ensures forall id :: id in statsMap <==> id in Ids(players)
    ensures forall id :: id in statsMap ==> statsMap[id] == Zeroed(LatestRecord(players, id))
  {
    keys := [];
    statsMap := map[];
    for i := 0 to |players|
      invariant keys == FirstOccurrences(Ids(players[..i]))
      invariant forall id :: id in statsMap <==> id in Ids(players[..i])
      invariant forall id :: id in statsMap ==> statsMap[id] == Zeroed(LatestRecord(players[..i], id))
    {
      var p := players[i];
      ghost var keysBefore, mapBefore := keys, statsMap;
      if p.id !in statsMap {
        keys := keys + [p.id];
      }
      statsMap := statsMap[p.id := Zeroed(p)];
      ZeroedStep(players, i, keysBefore, mapBefore);
    }
    assert players[..|players|] == players;
  }

  /** Storing the record at position `i` keeps the loop's three facts. */
  lemma ZeroedStep(players: seq<Player>, i: nat, keys: seq<PlayerId>, statsMap: map<PlayerId, Player>)
    requires i < |players|
    requires keys == FirstOccurrences(Ids(players[..i]))
    requires forall id :: id in statsMap <==> id in Ids(players[..i])
    requires forall id :: id in statsMap ==> statsMap[id] == Zeroed(LatestRecord(players[..i], id))
    ensures var keys' := if players[i].id !in statsMap then keys + [players[i].id] else keys;
      keys' == FirstOccurrences(Ids(players[..i + 1]))
    ensures var statsMap' := statsMap[players[i].id := Zeroed(players[i])];
      && (forall id :: id in statsMap' <==> id in Ids(players[..i + 1]))
      && forall id :: id in statsMap' ==> statsMap'[id] == Zeroed(LatestRecord(players[..i + 1], id))
  {
    var ids := Ids(players[..i + 1]);
    assert ids == Ids(players[..i]) + [players[i].id];
    assert ids[..i] == Ids(players[..i]);
    var statsMap' := statsMap[players[i].id := Zeroed(players[i])];
    forall id | id in statsMap' ensures statsMap'[id] == Zeroed(LatestRecord(players[..i + 1], id)) {
      LatestRecordStep(players, i, id);
    }
  }

  /** One more stored record replaces the latest record of its own ID only. */
  lemma LatestRecordStep(players: seq<Player>, i: nat, id: PlayerId)
    requires i < |players| && id in Ids(players[..i + 1])
    ensures LatestRecord(players[..i + 1], id)
      == if players[i].id == id then players[i] else LatestRecord(players[..i], id)
  {
    assert players[..i + 1][..i] == players[..i];
    assert Ids(players[..i + 1]) == Ids(players[..i]) + [players[i].id];
  }

  /** The `forEach` over the counted matches. */
  method FoldMatches(statsMap: map<PlayerId, Player>, filteredMatches: seq<Match>) returns (updated: map<PlayerId, Player>)
    ensures updated.Keys == statsMap.Keys
    ensures forall id :: id in statsMap ==> updated[id] == Credited(statsMap[id], Totals(filteredMatches, id))
  {
    updated := statsMap;
    for i := 0 to |filteredMatches|
      invariant updated.Keys == statsMap.Keys
      invariant forall id :: id in statsMap ==> updated[id] == Credited(statsMap[id], Totals(filteredMatches[..i], id))
    {
      var m := filteredMatches[i];
      var s1, s2 := ScoreOrZero(m.score1), ScoreOrZero(m.score2);
      var win1 := m.winnerTeam == Some(1);
      ghost var before := updated;
      updated := CreditTeam(updated, m.team1, win1, s1, s2);
      updated := CreditTeam(updated, m.team2, !win1, s2, s1);
      forall id | id in statsMap
        ensures updated[id] == Credited(statsMap[id], Totals(filteredMatches[..i + 1], id))
      {
        FoldOneMore(statsMap[id], before[id], filteredMatches, i, id);
      }
    }
    assert filteredMatches[..|filteredMatches|] == filteredMatches;
  }

  /** GET: the stats of every stored player over the counted matches. */
  method ComputeStats(players: seq<Player>, matches: seq<Match>, range: Option<string>, todayStart: int)
    returns (results: seq<Player>)
    ensures results == StatsReport(players, matches, range, todayStart)
  {
    var filteredMatches := Filter(matches, IsFinished);
    if EffectiveRange(range) == "today" {
      filteredMatches := Filter(filteredMatches, NotBefore(todayStart));
    }
    var keys, statsMap := ZeroedEntries(players);
    statsMap := FoldMatches(statsMap, filteredMatches);
    results := seq(|keys|, k requires 0 <= k < |keys| => statsMap[keys[k]]);
    assert filteredMatches == CountedMatches(matches, range, todayStart);
    ghost var expected := Report(players, filteredMatches);
    assert forall k :: 0 <= k < |keys| ==> results[k] == expected[k];
  }

  // ---------------------------------------------------------------------------
  // Properties

  lemma {:induction false} FirstOccurrencesOfDistinct(ids: seq<PlayerId>)
    requires Distinct(ids)
    ensures FirstOccurrences(ids) == ids
  {
    if |ids| > 0 {
      var init := ids[..|ids| - 1];
      FirstOccurrencesOfDistinct(init);
      assert ids == init + [ids[|ids| - 1]];
    }
  }

  lemma {:induction false} LatestRecordOfDistinct(players: seq<Player>, k: nat)
    requires Distinct(Ids(players)) && k < |players|
    ensures LatestRecord(players, players[k].id) == players[k]
  {
    var init := players[..|players| - 1];
    if k < |players| - 1 {
      assert Ids(players) == Ids(init) + [players[|players| - 1].id];
      assert players[|players| - 1].id != players[k].id by {
        assert Ids(players)[k] != Ids(players)[|players| - 1];
      }
      LatestRecordOfDistinct(init, k);
    }
  }

  /** One entry per stored ID, in first-stored order, each the stored record with its
      counters recomputed; with distinct IDs, entry k is stored player k. */
  lemma ReportOnePerStoredPlayer(players: seq<Player>, matches: seq<Match>, range: Option<string>, todayStart: int)
    ensures var report := StatsReport(players, matches, range, todayStart);
      var keys := FirstOccurrences(Ids(players));
      forall k :: 0 <= k < |report| ==> report[k].id == keys[k]
    ensures Distinct(Ids(players)) ==>
      var report := StatsReport(players, matches, range, todayStart);
      |report| == |players|
      && forall k :: 0 <= k < |players| ==>
           report[k] == Credited(Zeroed(players[k]), Totals(CountedMatches(matches, range, todayStart), players[k].id))
  {
    if Distinct(Ids(players)) {
      FirstOccurrencesOfDistinct(Ids(players));
      forall k | 0 <= k < |players| {
        LatestRecordOfDistinct(players, k);
      }
    }
  }

  /** Totals never count more wins than games, and neither is negative. */
  lemma {:induction false} TotalsWonAtMostPlayed(matches: seq<Match>, id: PlayerId)
    ensures 0 <= Totals(matches, id).won <= Totals(matches, id).played
  {
    if |matches| > 0 {
      TotalsWonAtMostPlayed(matches[..|matches| - 1], id);
    }
  }

  lemma ReportWonAtMostPlayed(players: seq<Player>, matches: seq<Match>, range: Option<string>, todayStart: int)
    ensures var report := StatsReport(players, matches, range, todayStart);
      forall k :: 0 <= k < |report| ==> 0 <= report[k].matchesWon <= report[k].matchesPlayed
  {
    var keys := FirstOccurrences(Ids(players));
    forall k | 0 <= k < |keys| {
      TotalsWonAtMostPlayed(CountedMatches(matches, range, todayStart), keys[k]);
    }
  }

  /** Whether a match counts: finished, and for "today" not before the threshold. */
  predicate Counts(m: Match, range: Option<string>, todayStart: int)
  {
    m.isFinished && (EffectiveRange(range) == "today" ==> m.timestamp >= todayStart)
  }

  lemma CountedAppend(matches: seq<Match>, m: Match, range: Option<string>, todayStart: int)
    ensures CountedMatches(matches + [m], range, todayStart)
      == CountedMatches(matches, range, todayStart) + (if Counts(m, range, todayStart) then [m] else [])
  {
    FilterAppend(matches, [m], IsFinished);
    if m.isFinished {
      assert Filter([m], IsFinished) == [m];
      FilterAppend(Filter(matches, IsFinished), [m], NotBefore(todayStart));
    } else {
      assert Filter([m], IsFinished) == [];
    }
  }

  lemma TotalsAppend(matches: seq<Match>, m: Match, id: PlayerId)
    ensures Totals(matches + [m], id) == Plus(Totals(matches, id), MatchCredit(m, id))
  {
    assert (matches + [m])[..|matches|] == matches;
  }

  /** Folding one more match into the report adds its credit to every entry. */
  lemma ReportAppend(players: seq<Player>, counted: seq<Match>, m: Match)
    ensures var keys := FirstOccurrences(Ids(players));
      forall k :: 0 <= k < |keys| ==>
        Report(players, counted + [m])[k] == Credited(Report(players, counted)[k], MatchCredit(m, keys[k]))
  {
    var keys := FirstOccurrences(Ids(players));
    forall k | 0 <= k < |keys|
      ensures Report(players, counted + [m])[k] == Credited(Report(players, counted)[k], MatchCredit(m, keys[k]))
    {
      TotalsAppend(counted, m, keys[k]);
      CreditedPlus(Zeroed(LatestRecord(players, keys[k])), Totals(counted, keys[k]), MatchCredit(m, keys[k]));
    }
  }

  /** Storing one more match changes each entry by that match's credit when it counts,
      and not at all otherwise (unfinished, or before the threshold for "today"). */
  lemma ReportAddsMatchCredit(players: seq<Player>, matches: seq<Match>, m: Match, range: Option<string>, todayStart: int)
    ensures var before := StatsReport(players, matches, range, todayStart);
      var after := StatsReport(players, matches + [m], range, todayStart);
      var keys := FirstOccurrences(Ids(players));
      |after| == |before|
      && forall k :: 0 <= k < |after| ==>
           after[k] == if Counts(m, range, todayStart) then Credited(before[k], MatchCredit(m, keys[k])) else before[k]
  {
    var before, after := CountedMatches(matches, range, todayStart), CountedMatches(matches + [m], range, todayStart);
    CountedAppend(matches, m, range, todayStart);
    if Counts(m, range, todayStart) {
      assert after == before + [m];
      ReportAppend(players, before, m);
    } else {
      assert after == before;
    }
  }

  /** An ID a match does not list is credited nothing by it. */
  lemma NoCreditUnlisted(m: Match, id: PlayerId)
    requires id !in Participants(m)
    ensures MatchCredit(m, id) == NoCounters
  {
    assert id !in m.team1 && id !in m.team2;
  }

  /** Folding in a match that lists no stored ID leaves the report as it was. */
  lemma ReportIgnoresUnknown(players: seq<Player>, counted: seq<Match>, m: Match)
    requires forall id :: id in Participants(m) ==> id !in Ids(players)
    ensures Report(players, counted + [m]) == Report(players, counted)
  {
    ReportAppend(players, counted, m);
    var keys := FirstOccurrences(Ids(players));
    var before, after := Report(players, counted), Report(players, counted + [m]);
    forall k | 0 <= k < |keys| ensures after[k] == before[k] {
      assert keys[k] in Ids(players);
      NoCreditUnlisted(m, keys[k]);
    }
  }

  /** A match none of whose IDs is a stored player's changes nothing. */
  lemma UnknownIdsIgnored(players: seq<Player>, matches: seq<Match>, m: Match, range: Option<string>, todayStart: int)
    requires forall id :: id in Participants(m) ==> id !in Ids(players)
    ensures StatsReport(players, matches + [m], range, todayStart) == StatsReport(players, matches, range, todayStart)
  {
    var before, after := CountedMatches(matches, range, todayStart), CountedMatches(matches + [m], range, todayStart);
    CountedAppend(matches, m, range, todayStart);
    if Counts(m, range, todayStart) {
      assert after == before + [m];
      ReportIgnoresUnknown(players, before, m);
    } else {
      assert after == before;
    }
  }

  /** A player listed once credits one game and the side's points; team 1 wins exactly
      when `winnerTeam` is 1 and team 2 whenever it is not. */
  lemma SingleAppearanceCredit(m: Match, id: PlayerId)
    requires multiset(Participants(m))[id] == 1
    ensures var c := MatchCredit(m, id);
      var s1, s2 := ScoreOrZero(m.score1), ScoreOrZero(m.score2);
      c.played == 1
      && (id in m.team1 ==> c.won == (if m.winnerTeam == Some(1) then 1 else 0) && c.scored == s1 && c.allowed == s2)
      && (id in m.team2 ==> c.won == (if m.winnerTeam == Some(1) then 0 else 1) && c.scored == s2 && c.allowed == s1)
  {
    assert multiset(Participants(m)) == multiset(m.team1) + multiset(m.team2);
  }
}
