/** The stat bookkeeping of the matches route's PUT (src/app/api/matches/route.ts):
    when a finished result is saved, the stored players' counters are corrected in
    place, first reverting the stored version of the match if it had been scored and
    then applying the new result, whose winner is derived from the scores. The store
    is the in-memory adapter; the locale date of the match's timestamp, which keys
    the lock check, is a parameter. */
module MatchesRoute {
  import opened Util
  import opened Types
  import opened StatsRoute
  import opened MockStorage

  /** The `multiplier` of `updateStats`: 1 applies a result, -1 reverts it. */
  type Sign = m: int | m == 1 || m == -1 witness 1

  /** `{ success: true }`, or the 403 "Session is closed. Scores are locked." */
  datatype PutResponse = Success | Locked

  /** `value * multiplier` */
  function Times(value: int, multiplier: Sign): int
  {
    if multiplier == 1 then value else -value
  }

  /** Every counter times the multiplier. */
  function Scaled(c: Counters, multiplier: Sign): Counters
  {
    Counters(Times(c.played, multiplier), Times(c.won, multiplier), Times(c.scored, multiplier), Times(c.allowed, multiplier))
  }

  /** What `updateStats` does to the player it finds for one listed ID. */
  function Bumped(p: Player, isWin: bool, pointsFor: int, pointsAgainst: int, multiplier: Sign): Player
  {
    p.(matchesPlayed := p.matchesPlayed + multiplier,
       matchesWon := if isWin then p.matchesWon + multiplier else p.matchesWon,
       pointsScored := p.pointsScored + Times(pointsFor, multiplier),
       pointsAllowed := p.pointsAllowed + Times(pointsAgainst, multiplier))
  }

  /** One iteration of `updateStats`: the first player with the ID, if any, is bumped. */
  function BumpFirst(players: seq<Player>, id: PlayerId, isWin: bool, pointsFor: int, pointsAgainst: int, multiplier: Sign)
    : (r: seq<Player>)
    ensures |r| == |players|
  {
    match FirstIndex(players, HasPlayerId(id))
    case None => players
    case Some(i) => players[i := Bumped(players[i], isWin, pointsFor, pointsAgainst, multiplier)]
  }

  /** `updateStats(ids, ...)` on the players snapshot: each listed ID in turn bumps the
      first player with that ID, if any. */
  function UpdateStats(players: seq<Player>, ids: seq<PlayerId>, isWin: bool, pointsFor: int, pointsAgainst: int, multiplier: Sign)
    : (r: seq<Player>)
    ensures |r| == |players|
  {
    if |ids| == 0 then players
    else
      var before := UpdateStats(players, ids[..|ids| - 1], isWin, pointsFor, pointsAgainst, multiplier);
      BumpFirst(before, ids[|ids| - 1], isWin, pointsFor, pointsAgainst, multiplier)
  }

  /** Both `updateStats` calls for one match: team 1 with (score1, score2), then team 2
      with (score2, score1), the win going to team 1 exactly when `team1Won`. */
  function ApplyMatch(players: seq<Player>, m: Match, team1Won: bool, multiplier: Sign): (r: seq<Player>)
    ensures |r| == |players|
  {
    var s1, s2 := ScoreOrZero(m.score1), ScoreOrZero(m.score2);
    UpdateStats(UpdateStats(players, m.team1, team1Won, s1, s2, multiplier), m.team2, !team1Won, s2, s1, multiplier)
  }

  /** `s1 > s2 ? 1 : 2` over the scores with a missing score read as 0. */
  function NewWinner(body: Match): (w: TeamNumber)
    ensures ScoreOrZero(body.score1) == ScoreOrZero(body.score2) ==> w == 2
    ensures w == 1 ==> ScoreOrZero(body.score1) > ScoreOrZero(body.score2)
  {
    if ScoreOrZero(body.score1) > ScoreOrZero(body.score2) then 1 else 2
  }

  /** The body as it is saved: a finished body gets the winner derived from its scores. */
  function Saved(body: Match): (saved: Match)
    ensures body.isFinished ==> saved.winnerTeam == Some(NewWinner(body))
    ensures !body.isFinished ==> saved == body
  {
    if body.isFinished then body.(winnerTeam := Some(NewWinner(body))) else body
  }

  /** The stored version is reverted only if it was finished with a winner. */
  predicate Reverts(oldVersion: Option<Match>)
  {
    oldVersion.Some? && oldVersion.value.isFinished && oldVersion.value.winnerTeam.Some?
  }

  /** The players after the bookkeeping of a PUT that is not locked. */
  function PutPlayers(players: seq<Player>, matches: seq<Match>, body: Match): seq<Player>
  {
    if !body.isFinished then players
    else
      var oldVersion := FirstWhere(matches, HasMatchId(body.id));
      var reverted :=
        if Reverts(oldVersion) then ApplyMatch(players, oldVersion.value, oldVersion.value.winnerTeam == Some(1), -1)
        else players;
      ApplyMatch(reverted, body, NewWinner(body) == 1, 1)
  }

  /** The lock: a body with a timestamp whose day's session exists and is closed. */
  predicate IsLocked(sessions: seq<RosterSession>, body: Match, matchDate: string)
  {
    var session := FirstWhere(sessions, HasSessionId(matchDate));
    body.timestamp != 0 && session.Some? && session.value.isClosed
  }

  // ---------------------------------------------------------------------------
  // The route

  /** The body of the `updateStats` loop for one listed ID: the player found in the
      snapshot is bumped there and written back to the store. */
  method BumpFirstIn(db: MockStorageAdapter, players: seq<Player>, id: PlayerId, isWin: bool,
                     pointsFor: int, pointsAgainst: int, multiplier: Sign)
    returns (updated: seq<Player>)
    requires db.players == players
    modifies db
    ensures updated == BumpFirst(players, id, isWin, pointsFor, pointsAgainst, multiplier)
    ensures db.players == updated && db.sessions == old(db.sessions) && db.matches == old(db.matches)
  {
    updated := players;
    var index := FirstIndex(players, HasPlayerId(id));
    if index.Some? {
      var p := players[index.value];
      p := p.(matchesPlayed := p.matchesPlayed + 1 * multiplier);
      if isWin {
        p := p.(matchesWon := p.matchesWon + 1 * multiplier);
      }
      p := p.(pointsScored := p.pointsScored + pointsFor * multiplier,
              pointsAllowed := p.pointsAllowed + pointsAgainst * multiplier);
      assert p.id == id;
      updated := players[index.value := p];
      db.UpdatePlayer(p);
    }
  }

  /** The `updateStats` closure: its loop over the listed IDs. */
  method UpdateStatsIn(db: MockStorageAdapter, players: seq<Player>, ids: seq<PlayerId>, isWin: bool,
                       pointsFor: int, pointsAgainst: int, multiplier: Sign)
    returns (updated: seq<Player>)
    requires db.players == players
    modifies db
    ensures updated == UpdateStats(players, ids, isWin, pointsFor, pointsAgainst, multiplier)
    ensures db.players == updated && db.sessions == old(db.sessions) && db.matches == old(db.matches)
  {
    updated := players;
    for j := 0 to |ids|
      invariant updated == UpdateStats(players, ids[..j], isWin, pointsFor, pointsAgainst, multiplier)
      invariant db.players == updated && db.sessions == old(db.sessions) && db.matches == old(db.matches)
    {
      assert ids[..j + 1][..j] == ids[..j];
      updated := BumpFirstIn(db, updated, ids[j], isWin, pointsFor, pointsAgainst, multiplier);
    }
    assert ids[..|ids|] == ids;
  }

  /** The two `updateStats` calls of one branch: team 1 with (score1, score2), then
      team 2 with (score2, score1); the branches on the winner differ only in which of
      the two calls passes `isWin`. */
  method ApplyMatchIn(db: MockStorageAdapter, players: seq<Player>, m: Match, team1Won: bool, multiplier: Sign)
    returns (updated: seq<Player>)
    requires db.players == players
    modifies db
    ensures updated == ApplyMatch(players, m, team1Won, multiplier)
    ensures db.players == updated && db.sessions == old(db.sessions) && db.matches == old(db.matches)
  {
    var s1, s2 := ScoreOrZero(m.score1), ScoreOrZero(m.score2);
    updated := UpdateStatsIn(db, players, m.team1, team1Won, s1, s2, multiplier);
    updated := UpdateStatsIn(db, updated, m.team2, !team1Won, s2, s1, multiplier);
  }

  /** The bookkeeping for a finished body: the stored version's result is reverted if
      it was finished with a winner, then the new result is applied. */
  method CorrectStats(db: MockStorageAdapter, body: Match) returns (winnerTeam: TeamNumber)
    requires body.isFinished
    modifies db
    ensures winnerTeam == NewWinner(body)
    ensures db.players == PutPlayers(old(db.players), old(db.matches), body)
    ensures db.sessions == old(db.sessions) && db.matches == old(db.matches)
  {
    var players := db.GetPlayers();
    var matches := db.GetMatches();
    var oldVersion := FirstWhere(matches, HasMatchId(body.id));
    if oldVersion.Some? && oldVersion.value.isFinished && oldVersion.value.winnerTeam.Some? {
      var o := oldVersion.value;
      players := ApplyMatchIn(db, players, o, o.winnerTeam == Some(1), -1);
    }
    var s1, s2 := ScoreOrZero(body.score1), ScoreOrZero(body.score2);
    winnerTeam := if s1 > s2 then 1 else 2;
    players := ApplyMatchIn(db, players, body, winnerTeam == 1, 1);
  }

  /** PUT: rejected without any change when the match's day is locked; otherwise a
      finished body has its stats corrected and its winner set, and the body is saved
      over the first stored match with its ID. */
  method Put(db: MockStorageAdapter, body: Match, matchDate: string) returns (response: PutResponse)
    modifies db
    ensures IsLocked(old(db.sessions), body, matchDate) ==>
      response == Locked && db.players == old(db.players) && db.sessions == old(db.sessions) && db.matches == old(db.matches)
    ensures !IsLocked(old(db.sessions), body, matchDate) ==>
      && response == Success
      && db.players == PutPlayers(old(db.players), old(db.matches), body)
      && db.matches == ReplaceFirst(old(db.matches), HasMatchId(body.id), Saved(body))
      && db.sessions == old(db.sessions)
  {
    if body.timestamp != 0 {
      var session := db.GetSession(matchDate);
      if session.Some? && session.value.isClosed {
        return Locked;
      }
    }
    var saved := body;
    if body.isFinished {
      var winnerTeam := CorrectStats(db, body);
      saved := body.(winnerTeam := Some(winnerTeam));
    }
    db.UpdateMatch(saved);
    response := Success;
  }

  // ---------------------------------------------------------------------------
  // Properties

  /** Whether position k holds the first stored player with its ID, the one `find`
      returns and the only one the bookkeeping touches. */
  predicate FirstOfItsId(players: seq<Player>, k: nat)
    requires k < |players|
  {
    FirstIndex(players, HasPlayerId(players[k].id)) == Some(k)
  }

  /** Lookups by ID agree on snapshots that hold the same IDs at the same positions. */
  lemma {:induction false} SameIdsSameIndex(a: seq<Player>, b: seq<Player>, id: PlayerId)
    requires |a| == |b| && forall k :: 0 <= k < |a| ==> a[k].id == b[k].id
    ensures FirstIndex(a, HasPlayerId(id)) == FirstIndex(b, HasPlayerId(id))
  {
    if |a| > 0 && a[0].id != id {
      SameIdsSameIndex(a[1..], b[1..], id);
    }
  }

  /** What the listed IDs credit to `id`, one listing at a time. */
  function ListedCredit(ids: seq<PlayerId>, id: PlayerId, isWin: bool, pointsFor: int, pointsAgainst: int): Counters
  {
    if |ids| == 0 then NoCounters
    else Plus(ListedCredit(ids[..|ids| - 1], id, isWin, pointsFor, pointsAgainst),
              if ids[|ids| - 1] == id then Counters(1, if isWin then 1 else 0, pointsFor, pointsAgainst) else NoCounters)
  }

  /** Crediting one listing at a time is what the stats route credits a team. */
  lemma {:induction false} ListedCreditIsTeamCredit(ids: seq<PlayerId>, id: PlayerId, isWin: bool, pointsFor: int, pointsAgainst: int)
    ensures ListedCredit(ids, id, isWin, pointsFor, pointsAgainst) == TeamCredit(ids, id, isWin, pointsFor, pointsAgainst)
  {
    if |ids| > 0 {
      ListedCreditIsTeamCredit(ids[..|ids| - 1], id, isWin, pointsFor, pointsAgainst);
      TeamCreditLast(ids, id, isWin, pointsFor, pointsAgainst);
    }
  }

  /** The bookkeeping changes counters only: every position keeps its ID. */
  lemma {:induction false} UpdateStatsKeepsIds(players: seq<Player>, ids: seq<PlayerId>, isWin: bool,
                                               pointsFor: int, pointsAgainst: int, multiplier: Sign)
    ensures var r := UpdateStats(players, ids, isWin, pointsFor, pointsAgainst, multiplier);
      forall k :: 0 <= k < |r| ==> r[k].id == players[k].id
  {
    if |ids| > 0 {
      UpdateStatsKeepsIds(players, ids[..|ids| - 1], isWin, pointsFor, pointsAgainst, multiplier);
    }
  }

  /** One more listed ID adds its share to the credit of the player it names. */
  lemma BumpIsCredit(p: Player, c: Counters, isWin: bool, pointsFor: int, pointsAgainst: int, multiplier: Sign)
    ensures Bumped(Credited(p, Scaled(c, multiplier)), isWin, pointsFor, pointsAgainst, multiplier)
      == Credited(p, Scaled(Plus(c, Counters(1, if isWin then 1 else 0, pointsFor, pointsAgainst)), multiplier))
  {
  }

  /** Per player, `updateStats` adds (or with -1 subtracts) one game per time the
      player's ID is listed, a win per listing when `isWin`, and the points for and
      against per listing, all to the first stored player with that ID; every other
      record is left alone, so unknown IDs change nothing. */
  lemma {:induction false} UpdateStatsPerPlayer(players: seq<Player>, ids: seq<PlayerId>, isWin: bool,
                                                pointsFor: int, pointsAgainst: int, multiplier: Sign, k: nat)
    requires k < |players|
    ensures UpdateStats(players, ids, isWin, pointsFor, pointsAgainst, multiplier)[k]
      == if FirstOfItsId(players, k)
         then Credited(players[k], Scaled(ListedCredit(ids, players[k].id, isWin, pointsFor, pointsAgainst), multiplier))
         else players[k]
  {
    if |ids| == 0 {
      assert Credited(players[k], Scaled(ListedCredit(ids, players[k].id, isWin, pointsFor, pointsAgainst), multiplier)) == players[k];
    } else {
      UpdateStatsPerPlayer(players, ids[..|ids| - 1], isWin, pointsFor, pointsAgainst, multiplier, k);
      UpdateStatsStep(players, ids, isWin, pointsFor, pointsAgainst, multiplier, k);
    }
  }

  /** `UpdateStatsPerPlayer` for a list from the same for the list without its last ID. */
  lemma UpdateStatsStep(players: seq<Player>, ids: seq<PlayerId>, isWin: bool,
                        pointsFor: int, pointsAgainst: int, multiplier: Sign, k: nat)
    requires |ids| > 0 && k < |players|
    requires UpdateStats(players, ids[..|ids| - 1], isWin, pointsFor, pointsAgainst, multiplier)[k]
      == if FirstOfItsId(players, k)
         then Credited(players[k], Scaled(ListedCredit(ids[..|ids| - 1], players[k].id, isWin, pointsFor, pointsAgainst), multiplier))
         else players[k]
    ensures UpdateStats(players, ids, isWin, pointsFor, pointsAgainst, multiplier)[k]
      == if FirstOfItsId(players, k)
         then Credited(players[k], Scaled(ListedCredit(ids, players[k].id, isWin, pointsFor, pointsAgainst), multiplier))
         else players[k]
  {
    var id, n := players[k].id, |ids| - 1;
    var before := UpdateStats(players, ids[..n], isWin, pointsFor, pointsAgainst, multiplier);
    assert UpdateStats(players, ids, isWin, pointsFor, pointsAgainst, multiplier)
      == BumpFirst(before, ids[n], isWin, pointsFor, pointsAgainst, multiplier);
    UpdateStatsKeepsIds(players, ids[..n], isWin, pointsFor, pointsAgainst, multiplier);
    BumpStepPerPlayer(players, before, ids[n], ListedCredit(ids[..n], id, isWin, pointsFor, pointsAgainst),
                      isWin, pointsFor, pointsAgainst, multiplier, k);
  }

  /** The inductive step of `UpdateStatsPerPlayer`: bumping for one more ID adds that
      ID's share to the credit of the first player holding it. */
  lemma BumpStepPerPlayer(players: seq<Player>, before: seq<Player>, last: PlayerId, credit: Counters,
                          isWin: bool, pointsFor: int, pointsAgainst: int, multiplier: Sign, k: nat)
    requires k < |players| && |before| == |players|
    requires forall j :: 0 <= j < |before| ==> before[j].id == players[j].id
    requires before[k] == if FirstOfItsId(players, k) then Credited(players[k], Scaled(credit, multiplier)) else players[k]
    ensures BumpFirst(before, last, isWin, pointsFor, pointsAgainst, multiplier)[k]
      == if FirstOfItsId(players, k)
         then Credited(players[k], Scaled(Plus(credit,
                if last == players[k].id then Counters(1, if isWin then 1 else 0, pointsFor, pointsAgainst) else NoCounters),
              multiplier))
         else players[k]
  {
    SameIdsSameIndex(before, players, last);
    var found := FirstIndex(players, HasPlayerId(last));
    if FirstOfItsId(players, k) && last == players[k].id {
      assert found == Some(k);
      BumpIsCredit(players[k], credit, isWin, pointsFor, pointsAgainst, multiplier);
    } else {
      assert found != Some(k);
    }
  }

  /** Both `updateStats` calls change counters only. */
  lemma ApplyMatchKeepsIds(players: seq<Player>, m: Match, team1Won: bool, multiplier: Sign)
    ensures var r := ApplyMatch(players, m, team1Won, multiplier);
      forall k :: 0 <= k < |r| ==> r[k].id == players[k].id
  {
    var s1, s2 := ScoreOrZero(m.score1), ScoreOrZero(m.score2);
    var after1 := UpdateStats(players, m.team1, team1Won, s1, s2, multiplier);
    UpdateStatsKeepsIds(players, m.team1, team1Won, s1, s2, multiplier);
    UpdateStatsKeepsIds(after1, m.team2, !team1Won, s2, s1, multiplier);
  }

  /** Crediting twice is crediting the sum. */
  lemma CreditedTwice(p: Player, c1: Counters, c2: Counters, multiplier: Sign)
    ensures Credited(Credited(p, Scaled(c1, multiplier)), Scaled(c2, multiplier)) == Credited(p, Scaled(Plus(c1, c2), multiplier))
  {
  }

  /** Per player, applying a match adds (or subtracts) both teams' credits. */
  lemma ApplyMatchPerPlayer(players: seq<Player>, m: Match, team1Won: bool, multiplier: Sign, k: nat)
    requires k < |players|
    ensures var s1, s2 := ScoreOrZero(m.score1), ScoreOrZero(m.score2);
      var id := players[k].id;
      ApplyMatch(players, m, team1Won, multiplier)[k]
      == if FirstOfItsId(players, k)
         then Credited(players[k], Scaled(Plus(ListedCredit(m.team1, id, team1Won, s1, s2), ListedCredit(m.team2, id, !team1Won, s2, s1)), multiplier))
         else players[k]
  {
    var s1, s2 := ScoreOrZero(m.score1), ScoreOrZero(m.score2);
    var id := players[k].id;
    var after1 := UpdateStats(players, m.team1, team1Won, s1, s2, multiplier);
    UpdateStatsPerPlayer(players, m.team1, team1Won, s1, s2, multiplier, k);
    UpdateStatsKeepsIds(players, m.team1, team1Won, s1, s2, multiplier);
    SameIdsSameIndex(after1, players, id);
    assert after1[k].id == id;
    assert FirstOfItsId(after1, k) == FirstOfItsId(players, k);
    UpdateStatsPerPlayer(after1, m.team2, !team1Won, s2, s1, multiplier, k);
    if FirstOfItsId(players, k) {
      CreditedTwice(players[k], ListedCredit(m.team1, id, team1Won, s1, s2), ListedCredit(m.team2, id, !team1Won, s2, s1), multiplier);
    }
  }

  /** The new result is credited to each stored player exactly as the stats route
      credits the saved match: the route's incremental bookkeeping and its recompute
      from finished matches agree match by match. */
  lemma ApplyIsStatsRouteCredit(players: seq<Player>, body: Match, k: nat)
    requires body.isFinished && k < |players|
    ensures ApplyMatch(players, body, NewWinner(body) == 1, 1)[k]
      == if FirstOfItsId(players, k) then Credited(players[k], MatchCredit(Saved(body), players[k].id)) else players[k]
  {
    var s1, s2 := ScoreOrZero(body.score1), ScoreOrZero(body.score2);
    var id := players[k].id;
    var win1 := NewWinner(body) == 1;
    ApplyMatchPerPlayer(players, body, win1, 1, k);
    ListedCreditIsTeamCredit(body.team1, id, win1, s1, s2);
    ListedCreditIsTeamCredit(body.team2, id, !win1, s2, s1);
    assert Scaled(Plus(TeamCredit(body.team1, id, win1, s1, s2), TeamCredit(body.team2, id, !win1, s2, s1)), 1)
      == MatchCredit(Saved(body), id);
  }

  /** Reverting a result undoes applying it, player by player. */
  lemma RevertUndoesApplyAt(players: seq<Player>, m: Match, team1Won: bool, k: nat)
    requires k < |players|
    ensures ApplyMatch(ApplyMatch(players, m, team1Won, 1), m, team1Won, -1)[k] == players[k]
  {
    var applied := ApplyMatch(players, m, team1Won, 1);
    ApplyMatchPerPlayer(players, m, team1Won, 1, k);
    ApplyMatchPerPlayer(applied, m, team1Won, -1, k);
    ApplyMatchKeepsIds(players, m, team1Won, 1);
    SameIdsSameIndex(applied, players, players[k].id);
    assert FirstOfItsId(applied, k) == FirstOfItsId(players, k);
  }

  /** Reverting a result undoes applying it. */
  lemma RevertUndoesApply(players: seq<Player>, m: Match, team1Won: bool)
    ensures ApplyMatch(ApplyMatch(players, m, team1Won, 1), m, team1Won, -1) == players
  {
    var reverted := ApplyMatch(ApplyMatch(players, m, team1Won, 1), m, team1Won, -1);
    forall k | 0 <= k < |players| ensures reverted[k] == players[k] {
      RevertUndoesApplyAt(players, m, team1Won, k);
    }
  }

  /** A score correction leaves the players as if only the corrected result had ever
      been applied: when the stored version was finished with a winner and its result
      was applied to `base`, the PUT yields `base` with just the new result applied. */
  lemma CorrectionAsIfOnlyCorrected(base: seq<Player>, matches: seq<Match>, oldVersion: Match, body: Match)
    requires body.isFinished && oldVersion.isFinished && oldVersion.winnerTeam.Some?
    requires FirstWhere(matches, HasMatchId(body.id)) == Some(oldVersion)
    ensures PutPlayers(ApplyMatch(base, oldVersion, oldVersion.winnerTeam == Some(1), 1), matches, body)
      == ApplyMatch(base, body, NewWinner(body) == 1, 1)
  {
    RevertUndoesApply(base, oldVersion, oldVersion.winnerTeam == Some(1));
  }

  /** An ID that is not listed is credited nothing. */
  lemma {:induction false} UnlistedNoCredit(ids: seq<PlayerId>, id: PlayerId, isWin: bool, pointsFor: int, pointsAgainst: int)
    requires id !in ids
    ensures ListedCredit(ids, id, isWin, pointsFor, pointsAgainst) == NoCounters
  {
    if |ids| > 0 {
      assert id !in ids[..|ids| - 1];
      UnlistedNoCredit(ids[..|ids| - 1], id, isWin, pointsFor, pointsAgainst);
    }
  }

  /** Applying a result leaves a player whose ID it does not list alone. */
  lemma UnlistedUnchanged(players: seq<Player>, m: Match, team1Won: bool, multiplier: Sign, k: nat)
    requires k < |players| && players[k].id !in m.team1 && players[k].id !in m.team2
    ensures ApplyMatch(players, m, team1Won, multiplier)[k] == players[k]
  {
    var id := players[k].id;
    var s1, s2 := ScoreOrZero(m.score1), ScoreOrZero(m.score2);
    var c1, c2 := ListedCredit(m.team1, id, team1Won, s1, s2), ListedCredit(m.team2, id, !team1Won, s2, s1);
    ApplyMatchPerPlayer(players, m, team1Won, multiplier, k);
    UnlistedNoCredit(m.team1, id, team1Won, s1, s2);
    UnlistedNoCredit(m.team2, id, !team1Won, s2, s1);
    NothingCredited(players[k], c1, c2, multiplier);
  }

  lemma NothingCredited(p: Player, c1: Counters, c2: Counters, multiplier: Sign)
    requires c1 == NoCounters && c2 == NoCounters
    ensures Credited(p, Scaled(Plus(c1, c2), multiplier)) == p
  {
    assert Plus(c1, c2) == NoCounters;
    assert Scaled(NoCounters, multiplier) == NoCounters;
  }

  /** Applying a result whose IDs are all unknown changes no player. */
  lemma UnknownIdsSkipped(players: seq<Player>, m: Match, team1Won: bool, multiplier: Sign)
    requires forall id :: id in Participants(m) ==> id !in Ids(players)
    ensures ApplyMatch(players, m, team1Won, multiplier) == players
  {
    var r := ApplyMatch(players, m, team1Won, multiplier);
    forall k | 0 <= k < |players| ensures r[k] == players[k] {
      var id := players[k].id;
      assert Ids(players)[k] == id;
      assert id !in Participants(m);
      assert id !in m.team1 && id !in m.team2 by {
        assert forall x :: x in m.team1 || x in m.team2 ==> x in m.team1 + m.team2;
      }
      UnlistedUnchanged(players, m, team1Won, multiplier, k);
    }
  }
}
