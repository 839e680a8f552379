/** The records the club application stores (src/lib/types.ts). Optional numeric fields
    are `Option`s; `isClosed?` is a plain bool whose absence reads as false. */
module Types {
  import opened Util

  type PlayerId = string

  /** `winnerTeam?: 1 | 2` */
  type TeamNumber = n: int | n == 1 || n == 2 witness 1

  datatype Player = Player(
    id: PlayerId,
    name: string,
    matchesPlayed: int,
    matchesWon: int,
    pointsScored: int,
    pointsAllowed: int)

  datatype Match = Match(
    id: string,
    sessionId: string,
    team1: seq<PlayerId>,
    team2: seq<PlayerId>,
    score1: Option<int>,
    score2: Option<int>,
    isFinished: bool,
    timestamp: int,
    winnerTeam: Option<TeamNumber>,
    courtNumber: Option<int>)

  datatype RosterSession = RosterSession(
    id: string,
    startDate: string,
    playerIds: seq<PlayerId>,
    isActive: bool,
    isClosed: bool)

  /** `[...match.team1, ...match.team2]` */
  function Participants(m: Match): seq<PlayerId>
  {
    m.team1 + m.team2
  }

  /** `value || 0` for an optional score: a missing score counts as 0. */
  function ScoreOrZero(score: Option<int>): int
  {
    match score
    case Some(v) => v
    case None => 0
  }

  /** `players.map(p => p.id)` */
  function Ids(players: seq<Player>): (ids: seq<PlayerId>)
    ensures |ids| == |players| && forall k :: 0 <= k < |players| ==> ids[k] == players[k].id
  {
    seq(|players|, k requires 0 <= k < |players| => players[k].id)
  }
}
