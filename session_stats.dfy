/** The after-the-fact quality counters of the session statistics panel
    (`calculateQualityMetrics` in src/components/SessionStats.tsx): a walk over the
    finished matches in timestamp order that counts matches avoiding fatigue, matches
    that split the previous winners, and matches with only fresh partnerships. */
module SessionStats {
  import opened Util
  import opened StableSorting
  import opened Types
  import opened MatchOrder
  import opened Matchmaker
  import opened MatchmakerProperties

  /** `{ count, total }` of one metric; the percentage is left out. */
  datatype Tally = Tally(count: int, total: int)

  /** `{ used, total, unused }` of the partnership usage; the percentage is left out. */
  datatype Usage = Usage(used: int, total: int, unused: int)

  datatype QualityMetrics = QualityMetrics(
    fatigueAvoidance: Tally,
    winnerSplitting: Tally,
    partnershipVariety: Tally,
    unusedPartnerships: Usage)

  // ---------------------------------------------------------------------------
  // Keys

  /** `[...ids].sort().join('-')`: the default sort orders strings by code units. */
  function SortedKey(ids: seq<PlayerId>): string
  {
    Join(StableSort(ids, LexLess), "-")
  }

  /** The key of a 2-player team, and `''` for a team of any other size. */
  function PartnershipKey(team: seq<PlayerId>): string
  {
    if |team| == 2 then SortedKey(team) else ""
  }

  /** Sorting and joining two IDs is the matchmaker's `normalizeTeam`. */
  lemma PairKey(a: PlayerId, b: PlayerId)
    ensures SortedKey([a, b]) == NormalizeTeam(a, b)
  {
    assert [a, b][..1] == [a];
    assert StableSort([a], LexLess) == [a] by {
      assert [a][..0] == [];
    }
    var sorted := StableSort([a, b], LexLess);
    assert sorted == Insert([a], b, LexLess);
    if LexLess(b, a) {
      assert Insert([a], b, LexLess) == Insert([], b, LexLess) + [a];
      assert sorted == [b, a];
    } else {
      assert sorted == [a, b];
    }
    assert sorted[1..] == [sorted[1]];
  }

  /** A 2-player team's key is the one the matchmaker's ledger records for it. */
  lemma PartnershipKeyIsLedgerKey(team: seq<PlayerId>)
    requires |team| == 2
    ensures PartnershipKey(team) == NormalizeTeam(team[0], team[1])
    ensures PartnershipKey(team) != ""
  {
    assert team == [team[0], team[1]];
    PairKey(team[0], team[1]);
  }

  // ---------------------------------------------------------------------------
  // What each match contributes, over the matches in timestamp order

  /** Some player of match i also played in each of the two matches before it. */
  predicate Fatigued(s: seq<Match>, i: nat)
    requires i < |s|
  {
    i >= 2 && exists id :: id in Participants(s[i]) && id in Participants(s[i - 1]) && id in Participants(s[i - 2])
  }

  function InMatch(m: Match): PlayerId -> bool
  {
    id => id in Participants(m)
  }

  /** `winners.filter(w => currentPlayers.includes(w))` */
  function WinnersInCurrent(prev: Match, m: Match): seq<PlayerId>
    requires prev.winnerTeam.Some?
  {
    Filter(WinnersOf(prev), InMatch(m))
  }

  /** The previous match has a winner and exactly two of its winners play in match i. */
  predicate WinnersReturn(s: seq<Match>, i: nat)
    requires i < |s|
  {
    i > 0 && s[i - 1].winnerTeam.Some? && |WinnersInCurrent(s[i - 1], s[i])| == 2
  }

  /** The returning winners are not one of match i's teams. */
  predicate WinnersSplit(s: seq<Match>, i: nat)
    requires i < |s|
  {
    && WinnersReturn(s, i)
    && var winnersKey := SortedKey(WinnersInCurrent(s[i - 1], s[i]));
       SortedKey(s[i].team1) != winnersKey && SortedKey(s[i].team2) != winnersKey
  }

  /** A 2-player team of match i was already a team in an earlier match. */
  predicate Repeated(s: seq<Match>, i: nat)
    requires i < |s|
  {
    var seen := Ledger(s[..i]);
    var team1Key, team2Key := PartnershipKey(s[i].team1), PartnershipKey(s[i].team2);
    (team1Key != "" && team1Key in seen) || (team2Key != "" && team2Key in seen)
  }

  // ---------------------------------------------------------------------------
  // The counts over the first n matches

  function FatigueAvoidedCount(s: seq<Match>, n: nat): nat
    requires n <= |s|
  {
    if n == 0 then 0 else FatigueAvoidedCount(s, n - 1) + (if Fatigued(s, n - 1) then 0 else 1)
  }

  function WinnersReturnCount(s: seq<Match>, n: nat): nat
    requires n <= |s|
  {
    if n == 0 then 0 else WinnersReturnCount(s, n - 1) + (if WinnersReturn(s, n - 1) then 1 else 0)
  }

  function WinnersSplitCount(s: seq<Match>, n: nat): nat
    requires n <= |s|
  {
    if n == 0 then 0 else WinnersSplitCount(s, n - 1) + (if WinnersSplit(s, n - 1) then 1 else 0)
  }

  function VarietyCount(s: seq<Match>, n: nat): nat
    requires n <= |s|
  {
    if n == 0 then 0 else VarietyCount(s, n - 1) + (if Repeated(s, n - 1) then 0 else 1)
  }

  /** `(playerCount * (playerCount - 1)) / 2`; the product is even, so the division is exact. */
  function PossiblePartnerships(playerCount: nat): nat
  {
    (playerCount * (playerCount - 1)) / 2
  }

  /** The metrics `calculateQualityMetrics` reports, without percentages. */
  function Quality(matches: seq<Match>, playerCount: nat): QualityMetrics
  {
    var s := Chronological(matches);
    var n := |s|;
    var used := |Ledger(s)|;
    QualityMetrics(
      Tally(FatigueAvoidedCount(s, n), |matches|),
      Tally(WinnersSplitCount(s, n), WinnersReturnCount(s, n)),
      Tally(VarietyCount(s, n), |matches|),
      Usage(used, PossiblePartnerships(playerCount), PossiblePartnerships(playerCount) - used))
  }

  // ---------------------------------------------------------------------------
  // The imperative walk

  /** The `currentPlayers.forEach` loop that sets `hadFatigued`. */
  method HadFatigued(m: Match, prevMatch: Match, prevPrevMatch: Match) returns (hadFatigued: bool)
    ensures hadFatigued <==>
      exists id :: id in Participants(m) && id in Participants(prevMatch) && id in Participants(prevPrevMatch)
  {
    var prevPlayers := Participants(prevMatch);
    var prevPrevPlayers := Participants(prevPrevMatch);
    var currentPlayers := Participants(m);
    hadFatigued := false;
    for j := 0 to |currentPlayers|
      invariant hadFatigued <==>
        exists k :: 0 <= k < j && currentPlayers[k] in prevPlayers && currentPlayers[k] in prevPrevPlayers
    {
      if currentPlayers[j] in prevPlayers && currentPlayers[j] in prevPrevPlayers {
        hadFatigued := true;
      }
    }
    if exists id :: id in currentPlayers && id in prevPlayers && id in prevPrevPlayers {
      var id :| id in currentPlayers && id in prevPlayers && id in prevPrevPlayers;
      var k :| 0 <= k < |currentPlayers| && currentPlayers[k] == id;
    }
  }

  /** Lines 71-84: bumps the fatigue-avoidance count unless a player of match `index`
      also played in each of the two matches before it. */
  method FatigueBlock(sortedMatches: seq<Match>, index: nat, fatigueAvoidanceCount: nat) returns (count: nat)
    requires index < |sortedMatches|
    requires fatigueAvoidanceCount == FatigueAvoidedCount(sortedMatches, index)
    ensures count == FatigueAvoidedCount(sortedMatches, index + 1)
  {
    var hadFatigued := false;
    if index > 1 {
      hadFatigued := HadFatigued(sortedMatches[index], sortedMatches[index - 1], sortedMatches[index - 2]);
    }
    count := fatigueAvoidanceCount;
    if !hadFatigued {
      count := count + 1;
    }
  }

  /** Lines 86-102: when both of the previous match's winners play again, bumps the
      total, and bumps the count when they are not one of this match's teams. */
  method WinnerSplitBlock(sortedMatches: seq<Match>, index: nat, winnerSplitTotal: nat, winnerSplitCount: nat)
    returns (total: nat, count: nat)
    requires index < |sortedMatches|
    requires winnerSplitTotal == WinnersReturnCount(sortedMatches, index)
    requires winnerSplitCount == WinnersSplitCount(sortedMatches, index)
    ensures total == WinnersReturnCount(sortedMatches, index + 1)
    ensures count == WinnersSplitCount(sortedMatches, index + 1)
  {
    total, count := winnerSplitTotal, winnerSplitCount;
    if index > 0 && sortedMatches[index - 1].winnerTeam.Some? {
      var m := sortedMatches[index];
      var prevMatch := sortedMatches[index - 1];
      var winnersInCurrent := Filter(WinnersOf(prevMatch), InMatch(m));
      if |winnersInCurrent| == 2 {
        total := total + 1;
        var winnersKey := SortedKey(winnersInCurrent);
        if SortedKey(m.team1) != winnersKey && SortedKey(m.team2) != winnersKey {
          count := count + 1;
        }
      }
    }
  }

  /** Lines 104-119: bumps the variety count unless a 2-player team of match `index`
      was seen before, then records its 2-player teams in both sets. */
  method PartnershipBlock(sortedMatches: seq<Match>, index: nat, partnershipVarietyCount: nat,
                          usedPartnerships: set<string>, historicalTeams: set<string>)
    returns (count: nat, used: set<string>, historical: set<string>)
    requires index < |sortedMatches|
    requires partnershipVarietyCount == VarietyCount(sortedMatches, index)
    requires historicalTeams == Ledger(sortedMatches[..index]) && usedPartnerships == historicalTeams
    ensures count == VarietyCount(sortedMatches, index + 1)
    ensures historical == Ledger(sortedMatches[..index + 1]) && used == historical
  {
    var m := sortedMatches[index];
    var team1Key := PartnershipKey(m.team1);
    var team2Key := PartnershipKey(m.team2);
    var hasRepeats := (team1Key != "" && team1Key in historicalTeams) || (team2Key != "" && team2Key in historicalTeams);
    count, used, historical := partnershipVarietyCount, usedPartnerships, historicalTeams;
    if !hasRepeats {
      count := count + 1;
    }
    if team1Key != "" {
      used := used + {team1Key};
      historical := historical + {team1Key};
    }
    if team2Key != "" {
      used := used + {team2Key};
      historical := historical + {team2Key};
    }
    LedgerStep(sortedMatches, index);
  }

  /** `calculateQualityMetrics` */
  method CalculateQualityMetrics(matches: seq<Match>, playerCount: nat) returns (q: QualityMetrics)
    ensures q == Quality(matches, playerCount)
  {
    var fatigueAvoidanceCount, winnerSplitCount, winnerSplitTotal, partnershipVarietyCount := 0, 0, 0, 0;
    var usedPartnerships: set<string> := {};
    var historicalTeams: set<string> := {};
    var sortedMatches := Chronological(matches);
    for index := 0 to |sortedMatches|
      invariant fatigueAvoidanceCount == FatigueAvoidedCount(sortedMatches, index)
      invariant winnerSplitTotal == WinnersReturnCount(sortedMatches, index)
      invariant winnerSplitCount == WinnersSplitCount(sortedMatches, index)
      invariant partnershipVarietyCount == VarietyCount(sortedMatches, index)
      invariant historicalTeams == Ledger(sortedMatches[..index])
      invariant usedPartnerships == historicalTeams
    {
      fatigueAvoidanceCount := FatigueBlock(sortedMatches, index, fatigueAvoidanceCount);
      winnerSplitTotal, winnerSplitCount := WinnerSplitBlock(sortedMatches, index, winnerSplitTotal, winnerSplitCount);
      partnershipVarietyCount, usedPartnerships, historicalTeams :=
        PartnershipBlock(sortedMatches, index, partnershipVarietyCount, usedPartnerships, historicalTeams);
    }
    assert sortedMatches[..|sortedMatches|] == sortedMatches;
    var totalPossiblePartnerships := (playerCount * (playerCount - 1)) / 2;
    q := QualityMetrics(
      Tally(fatigueAvoidanceCount, |matches|),
      Tally(winnerSplitCount, winnerSplitTotal),
      Tally(partnershipVarietyCount, |matches|),
      Usage(|usedPartnerships|, totalPossiblePartnerships, totalPossiblePartnerships - |usedPartnerships|));
  }

  /** Adding match i's non-empty partnership keys to the ledger of the matches before it
      gives the ledger up to and including it. */
  lemma LedgerStep(s: seq<Match>, i: nat)
    requires i < |s|
    ensures Ledger(s[..i + 1]) == Ledger(s[..i])
      + (if PartnershipKey(s[i].team1) != "" then {PartnershipKey(s[i].team1)} else {})
      + (if PartnershipKey(s[i].team2) != "" then {PartnershipKey(s[i].team2)} else {})
  {
    assert s[..i + 1][..i] == s[..i];
    if |s[i].team1| == 2 {
      PartnershipKeyIsLedgerKey(s[i].team1);
    }
    if |s[i].team2| == 2 {
      PartnershipKeyIsLedgerKey(s[i].team2);
    }
  }

  // ---------------------------------------------------------------------------
  // Properties of the metrics

  lemma {:induction false} FatigueAvoidedAtMost(s: seq<Match>, n: nat)
    requires n <= |s|
    ensures FatigueAvoidedCount(s, n) <= n
    ensures FatigueAvoidedCount(s, n) >= if n < 2 then n else 2
  {
    if n > 0 {
      FatigueAvoidedAtMost(s, n - 1);
    }
  }

  /** A match is flagged as fatigued exactly when it fields a player the matchmaker's
      fatigue rule excludes after the two matches before it (newest first). */
  lemma FatigueIsMatchmakerRule(s: seq<Match>, i: nat)
    requires 2 <= i < |s|
    ensures Fatigued(s, i) <==> exists id :: id in Participants(s[i]) && id in FatigueSet([s[i - 1], s[i - 2]])
  {
    var recent := [s[i - 1], s[i - 2]];
    assert recent[0] == s[i - 1] && recent[1] == s[i - 2];
  }

  lemma {:induction false} SplitsWithinReturns(s: seq<Match>, n: nat)
    requires n <= |s|
    ensures WinnersSplitCount(s, n) <= WinnersReturnCount(s, n)
    ensures WinnersReturnCount(s, n) <= if n == 0 then 0 else n - 1
  {
    if n > 0 {
      SplitsWithinReturns(s, n - 1);
    }
  }

  lemma {:induction false} VarietyAtMost(s: seq<Match>, n: nat)
    requires n <= |s|
    ensures VarietyCount(s, n) <= n
    ensures n > 0 ==> VarietyCount(s, n) >= 1
  {
    if n > 0 {
      VarietyAtMost(s, n - 1);
      if n == 1 {
        assert s[..0] == [];
      }
    }
  }

  /** Every count lies between 0 and its total; the first two matches always avoid
      fatigue, the first match always has fresh partnerships, and the first match never
      joins the winner-splitting total. */
  lemma CountsWithinTotals(matches: seq<Match>, playerCount: nat)
    ensures var q := Quality(matches, playerCount);
      && 0 <= q.fatigueAvoidance.count <= q.fatigueAvoidance.total == |matches|
      && q.fatigueAvoidance.count >= (if |matches| < 2 then |matches| else 2)
      && 0 <= q.winnerSplitting.count <= q.winnerSplitting.total
      && q.winnerSplitting.total <= (if |matches| == 0 then 0 else |matches| - 1)
      && 0 <= q.partnershipVariety.count <= q.partnershipVariety.total == |matches|
      && (|matches| > 0 ==> q.partnershipVariety.count >= 1)
  {
    var s := Chronological(matches);
    FatigueAvoidedAtMost(s, |s|);
    SplitsWithinReturns(s, |s|);
    VarietyAtMost(s, |s|);
  }

  /** The product n(n - 1) is even, so `total` is exactly the number of unordered pairs. */
  lemma PossiblePartnershipsExact(playerCount: nat)
    ensures 2 * PossiblePartnerships(playerCount) == playerCount * (playerCount - 1)
  {
    var n: int := playerCount;
    var h := n / 2;
    var p := if n % 2 == 0 then h * (n - 1) else n * h;
    if n % 2 == 0 {
      assert n == 2 * h;
      assert n * (n - 1) == (2 * h) * (n - 1);
    } else {
      assert n - 1 == 2 * h;
      assert n * (n - 1) == n * (2 * h);
    }
    assert n * (n - 1) == 2 * p;
    assert (2 * p) / 2 == p;
  }

  /** A match is counted as varied exactly when no earlier match had one of its
      2-player teams, as the matchmaker keys teams. */
  lemma VarietyIsFreshTeams(s: seq<Match>, i: nat)
    requires i < |s|
    ensures !Repeated(s, i) <==>
      forall j :: 0 <= j < i ==>
        && (|s[i].team1| == 2 ==> NormalizeTeam(s[i].team1[0], s[i].team1[1]) !in TeamKeys(s[j]))
        && (|s[i].team2| == 2 ==> NormalizeTeam(s[i].team2[0], s[i].team2[1]) !in TeamKeys(s[j]))
  {
    var before := s[..i];
    var m := s[i];
    if |m.team1| == 2 {
      PartnershipKeyIsLedgerKey(m.team1);
      LedgerMembership(before, NormalizeTeam(m.team1[0], m.team1[1]));
    }
    if |m.team2| == 2 {
      PartnershipKeyIsLedgerKey(m.team2);
      LedgerMembership(before, NormalizeTeam(m.team2[0], m.team2[1]));
    }
    assert forall j :: 0 <= j < i ==> before[j] == s[j];
  }

  /** Two distinct players make up a 2-player team exactly when both are on it. */
  lemma PairOfDistinct(a: PlayerId, b: PlayerId, x: PlayerId, y: PlayerId)
    requires x != y
    ensures multiset{a, b} == multiset{x, y} <==> x in [a, b] && y in [a, b]
  {
    if x in [a, b] && y in [a, b] {
      if x == a {
        assert y == b;
      } else {
        assert x == b && y == a;
      }
    }
    if multiset{a, b} == multiset{x, y} {
      assert x in multiset{a, b} && y in multiset{a, b};
    }
  }

  /** With unambiguous IDs, a 2-player team has the key of two distinct players exactly
      when both are on it. */
  lemma TeamKeyHoldsBoth(ids: seq<PlayerId>, team: seq<PlayerId>, x: PlayerId, y: PlayerId)
    requires |team| == 2 && x != y
    requires Unambiguous(ids) && team[0] in ids && team[1] in ids && x in ids && y in ids
    ensures SortedKey(team) == SortedKey([x, y]) <==> x in team && y in team
  {
    UnambiguousWithin([team[0], team[1], x, y], ids);
    assert team == [team[0], team[1]];
    PairKey(team[0], team[1]);
    PairKey(x, y);
    NormalizeTeamInjective(team[0], team[1], x, y);
    PairOfDistinct(team[0], team[1], x, y);
  }

  /** With unambiguous IDs, two doubles teams and two distinct returning winners, the match
      counts as splitting the winners exactly when neither team holds both of them. */
  lemma WinnersSplitMeansSeparated(s: seq<Match>, i: nat)
    requires i < |s| && WinnersReturn(s, i)
    requires |s[i].team1| == 2 && |s[i].team2| == 2
    requires Unambiguous(Participants(s[i]))
    requires WinnersInCurrent(s[i - 1], s[i])[0] != WinnersInCurrent(s[i - 1], s[i])[1]
    ensures var w := WinnersInCurrent(s[i - 1], s[i]);
      WinnersSplit(s, i) <==>
        && !(w[0] in s[i].team1 && w[1] in s[i].team1)
        && !(w[0] in s[i].team2 && w[1] in s[i].team2)
  {
    var w := WinnersInCurrent(s[i - 1], s[i]);
    assert InMatch(s[i])(w[0]) && InMatch(s[i])(w[1]);
    SeparatedIffNoTeamHoldsBoth(s[i], w);
  }

  /** Two distinct players of a doubles match with unambiguous IDs: neither team has their
      key exactly when neither team holds both. */
  lemma SeparatedIffNoTeamHoldsBoth(m: Match, w: seq<PlayerId>)
    requires |m.team1| == 2 && |m.team2| == 2 && Unambiguous(Participants(m))
    requires |w| == 2 && w[0] != w[1] && w[0] in Participants(m) && w[1] in Participants(m)
    ensures SortedKey(m.team1) != SortedKey(w) && SortedKey(m.team2) != SortedKey(w) <==>
      && !(w[0] in m.team1 && w[1] in m.team1)
      && !(w[0] in m.team2 && w[1] in m.team2)
  {
    assert m.team1[0] in Participants(m) && m.team1[1] in Participants(m);
    assert m.team2[0] in Participants(m) && m.team2[1] in Participants(m);
    assert w == [w[0], w[1]];
    TeamKeyHoldsBoth(Participants(m), m.team1, w[0], w[1]);
    TeamKeyHoldsBoth(Participants(m), m.team2, w[0], w[1]);
  }

  /** The partnerships counted as used are the distinct 2-player team keys of all the
      matches, whatever their order; `unused` is what remains of the possible pairs. */
  lemma UsedIsDistinctTeams(matches: seq<Match>, playerCount: nat)
    ensures var q := Quality(matches, playerCount);
      && q.unusedPartnerships.used == |Ledger(matches)|
      && q.unusedPartnerships.total == PossiblePartnerships(playerCount)
      && q.unusedPartnerships.unused == q.unusedPartnerships.total - q.unusedPartnerships.used
  {
    var s := Chronological(matches);
    ChronologicalOrder(matches);
    forall key ensures key in Ledger(s) <==> key in Ledger(matches) {
      LedgerMembership(s, key);
      LedgerMembership(matches, key);
      if key in Ledger(s) {
        var i :| 0 <= i < |s| && key in TeamKeys(s[i]);
        assert s[i] in multiset(s);
        var j :| 0 <= j < |matches| && matches[j] == s[i];
      }
      if key in Ledger(matches) {
        var i :| 0 <= i < |matches| && key in TeamKeys(matches[i]);
        assert matches[i] in multiset(matches);
        var j :| 0 <= j < |s| && s[j] == matches[i];
      }
    }
    assert Ledger(s) == Ledger(matches);
  }

  /** `playersInMatches`: every ID on either team of a finished match. */
  function PlayersIn(matches: seq<Match>): set<PlayerId>
  {
    set m, id | m in matches && id in Participants(m) :: id
  }

  /** The nested `forEach` that fills `playersInMatches`. */
  method PlayersInMatches(finishedMatches: seq<Match>) returns (playersInMatches: set<PlayerId>)
    ensures playersInMatches == PlayersIn(finishedMatches)
  {
    playersInMatches := {};
    for i := 0 to |finishedMatches|
      invariant playersInMatches == PlayersIn(finishedMatches[..i])
    {
      var ids := Participants(finishedMatches[i]);
      for j := 0 to |ids|
        invariant playersInMatches == PlayersIn(finishedMatches[..i]) + set k | 0 <= k < j :: ids[k]
      {
        playersInMatches := playersInMatches + {ids[j]};
      }
      PlayersInStep(finishedMatches, i);
    }
    assert finishedMatches[..|finishedMatches|] == finishedMatches;
  }

  lemma PlayersInStep(s: seq<Match>, i: nat)
    requires i < |s|
    ensures PlayersIn(s[..i + 1]) == PlayersIn(s[..i]) + set k | 0 <= k < |Participants(s[i])| :: Participants(s[i])[k]
  {
    var ids := Participants(s[i]);
    var after, before := PlayersIn(s[..i + 1]), PlayersIn(s[..i]);
    var added := set k | 0 <= k < |ids| :: ids[k];
    assert s[..i + 1] == s[..i] + [s[i]];
    forall id | id in after ensures id in before + added {
      var m :| m in s[..i + 1] && id in Participants(m);
      if m == s[i] {
        var k :| 0 <= k < |ids| && ids[k] == id;
      } else {
        assert m in s[..i];
      }
    }
    forall id | id in before + added ensures id in after {
      if id in before {
        var m :| m in s[..i] && id in Participants(m);
        assert m in s[..i + 1] && id in Participants(m);
      } else {
        var k :| 0 <= k < |ids| && ids[k] == id;
        assert s[i] in s[..i + 1] && id in Participants(s[i]);
      }
    }
  }
}
