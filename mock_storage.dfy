/** The in-memory storage adapter (tests/helpers/mock-storage.ts): three arrays of
    players, roster sessions and matches, changed in place by the adapter's operations.
    A thrown `Error` is an `Outcome` of `Failed` with the error's message, and the
    state is left as it was. IDs the source draws from the clock and `Math.random`
    are parameters. */
module MockStorage {
  import opened Util
  import opened Types

  datatype Outcome = Done | Failed(message: string)

  // ---------------------------------------------------------------------------
  // Lookups the adapter performs with `find`, `findIndex` and `filter`

  /** `s.findIndex(p)`, with -1 as `None`. */
  function FirstIndex<T>(s: seq<T>, p: T -> bool): (r: Option<nat>)
    ensures r.Some? ==> r.value < |s| && p(s[r.value]) && forall j :: 0 <= j < r.value ==> !p(s[j])
    ensures r.None? ==> forall j :: 0 <= j < |s| ==> !p(s[j])
  {
    if |s| == 0 then None
    else if p(s[0]) then Some(0)
    else match FirstIndex(s[1..], p)
      case None => None
      case Some(i) => Some(i + 1)
  }

  /** `s.find(p)`, with undefined as `None`. */
  function FirstWhere<T>(s: seq<T>, p: T -> bool): (r: Option<T>)
    ensures r.Some? <==> exists k :: 0 <= k < |s| && p(s[k])
    ensures r.Some? ==> r.value in s && p(r.value)
  {
    match FirstIndex(s, p)
    case None => None
    case Some(i) => Some(s[i])
  }

  /** The first element that satisfies p becomes x; without one nothing changes. */
  function ReplaceFirst<T>(s: seq<T>, p: T -> bool, x: T): (r: seq<T>)
    ensures |r| == |s|
    ensures FirstIndex(s, p).None? ==> r == s
    ensures forall k :: 0 <= k < |s| && FirstIndex(s, p) != Some(k) ==> r[k] == s[k]
  {
    match FirstIndex(s, p)
    case None => s
    case Some(i) => s[i := x]
  }

  function HasPlayerId(id: PlayerId): Player -> bool
  {
    (p: Player) => p.id == id
  }

  function HasSessionId(id: string): RosterSession -> bool
  {
    (s: RosterSession) => s.id == id
  }

  predicate IsActive(s: RosterSession)
  {
    s.isActive
  }

  function HasMatchId(id: string): Match -> bool
  {
    (m: Match) => m.id == id
  }

  function OtherSession(sessionId: string): RosterSession -> bool
  {
    (s: RosterSession) => s.id != sessionId
  }

  function InSession(sessionId: string): Match -> bool
  {
    (m: Match) => m.sessionId == sessionId
  }

  function NotInSession(sessionId: string): Match -> bool
  {
    (m: Match) => m.sessionId != sessionId
  }

  function OtherMatch(matchId: string): Match -> bool
  {
    (m: Match) => m.id != matchId
  }

  function OtherPlayer(playerId: PlayerId): PlayerId -> bool
  {
    (id: PlayerId) => id != playerId
  }

  /** `toLowerCase` on the ASCII letters. */
  function ToLower(s: string): (r: string)
    ensures |r| == |s|
    ensures forall k :: 0 <= k < |s| ==> !('A' <= r[k] <= 'Z')
  {
    seq(|s|, k requires 0 <= k < |s| => if 'A' <= s[k] <= 'Z' then (s[k] as int + 32) as char else s[k])
  }

  function NameMatches(name: string): Player -> bool
  {
    (p: Player) => ToLower(p.name) == ToLower(name)
  }

  // ---------------------------------------------------------------------------
  // The record-level changes

  /** The record `addPlayer` creates. */
  function NewPlayer(id: PlayerId, name: string): Player
  {
    Player(id, name, 0, 0, 0, 0)
  }

  /** The record `createSession` appends. */
  function NewSession(id: string, startDate: string): RosterSession
  {
    RosterSession(id, startDate, [], true, false)
  }

  /** Every session with `isActive` cleared and nothing else changed. */
  function Deactivated(sessions: seq<RosterSession>): (r: seq<RosterSession>)
    ensures |r| == |sessions|
    ensures forall k :: 0 <= k < |r| ==> !r[k].isActive && r[k].(isActive := sessions[k].isActive) == sessions[k]
  {
    seq(|sessions|, k requires 0 <= k < |sessions| => sessions[k].(isActive := false))
  }

  /** The roster after `checkInPlayer`: the ID is appended unless already present. */
  function CheckedIn(s: RosterSession, playerId: PlayerId): (r: RosterSession)
    ensures playerId in r.playerIds
    ensures r.(playerIds := s.playerIds) == s
    ensures forall id :: id in s.playerIds ==> id in r.playerIds
  {
    if playerId in s.playerIds then s else s.(playerIds := s.playerIds + [playerId])
  }

  /** The roster after `checkOutPlayer`: every occurrence of the ID is removed and every
      other ID keeps its occurrences, in order. */
  function CheckedOut(s: RosterSession, playerId: PlayerId): (r: RosterSession)
    ensures playerId !in r.playerIds
    ensures r.(playerIds := s.playerIds) == s
    ensures forall id :: id != playerId ==> multiset(r.playerIds)[id] == multiset(s.playerIds)[id]
  {
    s.(playerIds := Filter(s.playerIds, OtherPlayer(playerId)))
  }

  /** The session after `closeSession`: inactive and closed, roster untouched. */
  function Closed(s: RosterSession): (r: RosterSession)
    ensures !r.isActive && r.isClosed
    ensures r.id == s.id && r.startDate == s.startDate && r.playerIds == s.playerIds
  {
    s.(isActive := false, isClosed := true)
  }

  // ---------------------------------------------------------------------------
  // The adapter

  class MockStorageAdapter {
    var players: seq<Player>
    var sessions: seq<RosterSession>
    var matches: seq<Match>

    constructor(initialPlayers: seq<Player>, initialSessions: seq<RosterSession>, initialMatches: seq<Match>)
      ensures players == initialPlayers && sessions == initialSessions && matches == initialMatches
    {
      players := initialPlayers;
      sessions := initialSessions;
      matches := initialMatches;
    }

    method GetPlayers() returns (result: seq<Player>)
      ensures result == players
    {
      result := players;
    }

    /** Returns the first stored player whose name equals `name` ignoring case;
        otherwise appends and returns a new player with zeroed counters. */
    method AddPlayer(name: string, newId: PlayerId) returns (player: Player)
      modifies this
      ensures sessions == old(sessions) && matches == old(matches)
      ensures FirstWhere(old(players), NameMatches(name)).Some? ==>
        player == FirstWhere(old(players), NameMatches(name)).value && players == old(players)
      ensures FirstWhere(old(players), NameMatches(name)).None? ==>
        player == NewPlayer(newId, name) && players == old(players) + [player]
    {
      var existing := FirstWhere(players, NameMatches(name));
      if existing.Some? {
        return existing.value;
      }
      player := NewPlayer(newId, name);
      players := players + [player];
    }

    /** Replaces the first stored player with the same ID, if any. */
    method UpdatePlayer(player: Player)
      modifies this
      ensures players == ReplaceFirst(old(players), HasPlayerId(player.id), player)
      ensures sessions == old(sessions) && matches == old(matches)
    {
      var index := FirstIndex(players, HasPlayerId(player.id));
      if index.Some? {
        players := players[index.value := player];
      }
    }

    method GetActiveSession() returns (result: Option<RosterSession>)
      ensures result == FirstWhere(sessions, IsActive)
    {
      result := FirstWhere(sessions, IsActive);
    }

    method GetSession(id: string) returns (result: Option<RosterSession>)
      ensures result == FirstWhere(sessions, HasSessionId(id))
    {
      result := FirstWhere(sessions, HasSessionId(id));
    }

    method GetSessions() returns (result: seq<RosterSession>)
      ensures result == sessions
    {
      result := sessions;
    }

    /** Deactivates every stored session, then appends an active, unclosed session
        with an empty roster. */
    method CreateSession(newId: string, startDate: string) returns (session: RosterSession)
      modifies this
      ensures session == NewSession(newId, startDate)
      ensures sessions == Deactivated(old(sessions)) + [session]
      ensures players == old(players) && matches == old(matches)
    {
      ghost var before := sessions;
      for i := 0 to |sessions|
        invariant players == old(players) && matches == old(matches)
        invariant |sessions| == |before|
        invariant forall k :: 0 <= k < i ==> sessions[k] == before[k].(isActive := false)
        invariant forall k :: i <= k < |sessions| ==> sessions[k] == before[k]
      {
        sessions := sessions[i := sessions[i].(isActive := false)];
      }
      assert sessions == Deactivated(before);
      session := NewSession(newId, startDate);
      sessions := sessions + [session];
    }

    method StartNewSession(newId: string, startDate: string) returns (session: RosterSession)
      modifies this
      ensures session == NewSession(newId, startDate)
      ensures sessions == Deactivated(old(sessions)) + [session]
      ensures players == old(players) && matches == old(matches)
    {
      session := CreateSession(newId, startDate);
    }

    /** Adds the ID to the roster of the first active session unless it is already
        there; fails with "No active session" when no session is active. */
    method CheckInPlayer(playerId: PlayerId) returns (outcome: Outcome)
      modifies this
      ensures players == old(players) && matches == old(matches)
      ensures FirstIndex(old(sessions), IsActive).None? ==>
        outcome == Failed("No active session") && sessions == old(sessions)
      ensures FirstIndex(old(sessions), IsActive).Some? ==>
        var i := FirstIndex(old(sessions), IsActive).value;
        outcome == Done && sessions == old(sessions)[i := CheckedIn(old(sessions)[i], playerId)]
    {
      var index := FirstIndex(sessions, IsActive);
      if index.None? {
        return Failed("No active session");
      }
      var session := sessions[index.value];
      if playerId !in session.playerIds {
        sessions := sessions[index.value := session.(playerIds := session.playerIds + [playerId])];
      }
      outcome := Done;
    }

    /** Removes every occurrence of the ID from the roster of the first active session;
        fails with "No active session" when no session is active. */
    method CheckOutPlayer(playerId: PlayerId) returns (outcome: Outcome)
      modifies this
      ensures players == old(players) && matches == old(matches)
      ensures FirstIndex(old(sessions), IsActive).None? ==>
        outcome == Failed("No active session") && sessions == old(sessions)
      ensures FirstIndex(old(sessions), IsActive).Some? ==>
        var i := FirstIndex(old(sessions), IsActive).value;
        outcome == Done && sessions == old(sessions)[i := CheckedOut(old(sessions)[i], playerId)]
    {
      var index := FirstIndex(sessions, IsActive);
      if index.None? {
        return Failed("No active session");
      }
      var session := sessions[index.value];
      sessions := sessions[index.value := session.(playerIds := Filter(session.playerIds, OtherPlayer(playerId)))];
      outcome := Done;
    }

    /** Marks the first session with this ID inactive and closed; fails with
        "Session not found" when there is none. */
    method CloseSession(sessionId: string) returns (outcome: Outcome)
      modifies this
      ensures players == old(players) && matches == old(matches)
      ensures FirstIndex(old(sessions), HasSessionId(sessionId)).None? ==>
        outcome == Failed("Session not found") && sessions == old(sessions)
      ensures FirstIndex(old(sessions), HasSessionId(sessionId)).Some? ==>
        var i := FirstIndex(old(sessions), HasSessionId(sessionId)).value;
        outcome == Done && sessions == old(sessions)[i := Closed(old(sessions)[i])]
    {
      var index := FirstIndex(sessions, HasSessionId(sessionId));
      if index.None? {
        return Failed("Session not found");
      }
      var session := sessions[index.value];
      sessions := sessions[index.value := session.(isActive := false, isClosed := true)];
      outcome := Done;
    }

    /** Removes the sessions with this ID and the matches recorded under it. */
    method DeleteSession(sessionId: string)
      modifies this
      ensures sessions == Filter(old(sessions), OtherSession(sessionId))
      ensures matches == Filter(old(matches), NotInSession(sessionId))
      ensures players == old(players)
    {
      sessions := Filter(sessions, OtherSession(sessionId));
      matches := Filter(matches, NotInSession(sessionId));
    }

    method GetMatches() returns (result: seq<Match>)
      ensures result == matches
    {
      result := matches;
    }

    method GetMatchesBySessionId(sessionId: string) returns (result: seq<Match>)
      ensures result == Filter(matches, InSession(sessionId))
    {
      result := Filter(matches, InSession(sessionId));
    }

    method AddMatch(m: Match)
      modifies this
      ensures matches == old(matches) + [m]
      ensures players == old(players) && sessions == old(sessions)
    {
      matches := matches + [m];
    }

    /** Replaces the first stored match with the same ID, if any. */
    method UpdateMatch(m: Match)
      modifies this
      ensures matches == ReplaceFirst(old(matches), HasMatchId(m.id), m)
      ensures players == old(players) && sessions == old(sessions)
    {
      var index := FirstIndex(matches, HasMatchId(m.id));
      if index.Some? {
        matches := matches[index.value := m];
      }
    }

    method DeleteMatch(matchId: string)
      modifies this
      ensures matches == Filter(old(matches), OtherMatch(matchId))
      ensures players == old(players) && sessions == old(sessions)
    {
      matches := Filter(matches, OtherMatch(matchId));
    }

    method Reset()
      modifies this
      ensures players == [] && sessions == [] && matches == []
    {
      players := [];
      sessions := [];
      matches := [];
    }

    method Seed(newPlayers: seq<Player>, newSessions: seq<RosterSession>, newMatches: seq<Match>)
      modifies this
      ensures players == newPlayers && sessions == newSessions && matches == newMatches
    {
      players := newPlayers;
      sessions := newSessions;
      matches := newMatches;
    }
  }

  // ---------------------------------------------------------------------------
  // Properties of the operations

  /** After `createSession` exactly one session is active, the new one, and it is the
      one `getActiveSession` returns. */
  lemma OnlyNewSessionActive(before: seq<RosterSession>, newId: string, startDate: string)
    ensures var after := Deactivated(before) + [NewSession(newId, startDate)];
      (forall k :: 0 <= k < |after| ==> (after[k].isActive <==> k == |before|))
      && FirstWhere(after, IsActive) == Some(NewSession(newId, startDate))
  {
    var after := Deactivated(before) + [NewSession(newId, startDate)];
    assert IsActive(after[|before|]);
    assert FirstIndex(after, IsActive) == Some(|before|) by {
      var r := FirstIndex(after, IsActive);
      assert r.Some?;
      assert !IsActive(after[r.value]) || r.value == |before|;
    }
  }

  /** Checking in keeps a duplicate-free roster duplicate-free. */
  lemma CheckInKeepsDistinct(s: RosterSession, playerId: PlayerId)
    requires Distinct(s.playerIds)
    ensures Distinct(CheckedIn(s, playerId).playerIds)
  {
    if playerId !in s.playerIds {
      var ids := s.playerIds + [playerId];
      forall i, j | 0 <= i < j < |ids| ensures ids[i] != ids[j] {
        if j == |ids| - 1 {
          assert ids[i] in s.playerIds;
        }
      }
    }
  }

  /** Checking out a player who was just checked in restores the roster. */
  lemma CheckOutUndoesCheckIn(s: RosterSession, playerId: PlayerId)
    requires playerId !in s.playerIds
    ensures CheckedOut(CheckedIn(s, playerId), playerId) == s
  {
    var ids := s.playerIds + [playerId];
    FilterAppend(s.playerIds, [playerId], OtherPlayer(playerId));
    assert Filter([playerId], OtherPlayer(playerId)) == [];
    FilterAll(s.playerIds, OtherPlayer(playerId));
  }

  /** A replaced record is the one a later lookup by the same key finds. */
  lemma ReplaceFirstFound<T>(s: seq<T>, p: T -> bool, x: T)
    requires p(x) && FirstIndex(s, p).Some?
    ensures FirstWhere(ReplaceFirst(s, p, x), p) == Some(x)
  {
    var i := FirstIndex(s, p).value;
    var r := ReplaceFirst(s, p, x);
    assert r[i] == x;
    var j := FirstIndex(r, p);
    assert j.Some? && j.value == i;
  }

  /** Adding a name a second time returns the player the first call created and
      stores nothing new. */
  lemma AddPlayerTwiceReturnsFirst(players: seq<Player>, name: string, newId: PlayerId)
    requires FirstWhere(players, NameMatches(name)).None?
    ensures FirstWhere(players + [NewPlayer(newId, name)], NameMatches(name)) == Some(NewPlayer(newId, name))
  {
    var after := players + [NewPlayer(newId, name)];
    assert NameMatches(name)(after[|players|]);
    var j := FirstIndex(after, NameMatches(name));
    assert j.Some? && j.value == |players|;
  }
}
