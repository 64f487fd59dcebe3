/**
 * The server's records (backend/app/models.py) and the frames it exchanges
 * with clients.
 *
 * A room's `players` is a Python dict from websocket id to player, iterated
 * in insertion order; it is a sequence here whose entries carry their key
 * (`websocketId`) and whose keys are distinct (`DistinctIds`). Times are
 * integer seconds.
 */
module ServerModels {
  import opened Wrappers

  datatype Player = Player(username: string, color: string, score: int, websocketId: string)

  datatype DomainEntry = DomainEntry(domain: string, rank: int, playerId: string)

  datatype GameState = GameState(
    isActive: bool,
    startTime: Option<int>,
    endTime: Option<int>,
    players: seq<Player>,
    enteredDomains: seq<DomainEntry>,
    roomCode: string)

  datatype Room = Room(code: string, gameState: GameState, lastActivity: int)

  /** A room's game state as first created. */
  function NewGameState(roomCode: string): GameState {
    GameState(false, None, None, [], [], roomCode)
  }

  /** Frames the server accepts, by their `type` field. */
  datatype Command =
    | StartGame
    | SubmitDomain(domain: string)
    | OtherCommand(tag: string)

  /** A player as serialised in outbound frames (the key is `username`). */
  datatype PlayerView = PlayerView(username: string, color: string, score: int)

  datatype GameStateView = GameStateView(
    isActive: bool,
    timeRemaining: int,
    players: seq<PlayerView>,
    enteredDomains: seq<DomainEntry>,
    latestDomain: Option<DomainEntry>)

  /** Frames the server sends, by their `type` field. */
  datatype ServerMessage =
    | GameUpdate(gameState: GameStateView)
    | ErrorMessage(message: string)
    | GameOver(winner: PlayerView)

  /** `f"{room_code}_{username}_{timestamp}"`, the key of a connection and of its player. */
  function WebSocketId(roomCode: string, username: string, stamp: string): string {
    roomCode + "_" + username + "_" + stamp
  }

  /** The characters of a generated room code: `string.ascii_uppercase + string.digits`. */
  predicate IsRoomCodeChar(c: char) {
    'A' <= c <= 'Z' || '0' <= c <= '9'
  }

  predicate IsRoomCode(code: string) {
    |code| == 6 && forall i :: 0 <= i < |code| ==> IsRoomCodeChar(code[i])
  }

  /** The dict's keys are distinct. */
  predicate DistinctIds(ps: seq<Player>) {
    forall i, j :: 0 <= i < j < |ps| ==> ps[i].websocketId != ps[j].websocketId
  }

  predicate HasPlayer(ps: seq<Player>, id: string) {
    exists i :: 0 <= i < |ps| && ps[i].websocketId == id
  }

  /** `players[p.websocket_id] = p`: replace in place under an existing key, else append. */
  function PutPlayer(ps: seq<Player>, p: Player): seq<Player> {
    if HasPlayer(ps, p.websocketId)
    then seq(|ps|, i requires 0 <= i < |ps| => if ps[i].websocketId == p.websocketId then p else ps[i])
    else ps + [p]
  }

  lemma PutPlayerKeepsKeysDistinct(ps: seq<Player>, p: Player)
    requires DistinctIds(ps)
    ensures DistinctIds(PutPlayer(ps, p)) && HasPlayer(PutPlayer(ps, p), p.websocketId)
  {
    if HasPlayer(ps, p.websocketId) {
      var i :| 0 <= i < |ps| && ps[i].websocketId == p.websocketId;
      assert PutPlayer(ps, p)[i] == p;
    } else {
      assert PutPlayer(ps, p)[|ps|] == p;
    }
  }

  /** `del players[id]`, which the source does only when the key is there. */
  function RemovePlayer(ps: seq<Player>, id: string): (r: seq<Player>)
    ensures !HasPlayer(r, id)
    ensures forall q :: q in r <==> q in ps && q.websocketId != id
    ensures DistinctIds(ps) ==> DistinctIds(r)
  {
    if ps == [] then []
    else
      var rest := RemovePlayer(ps[1..], id);
      assert forall q :: q in ps <==> q == ps[0] || q in ps[1..];
      if ps[0].websocketId == id then rest
      else
        assert DistinctIds(ps) ==> forall q :: q in rest ==> q.websocketId != ps[0].websocketId by {
          if DistinctIds(ps) {
            forall q | q in rest ensures q.websocketId != ps[0].websocketId {
              var k :| 0 <= k < |ps[1..]| && ps[1..][k] == q;
              assert ps[k + 1] == q;
            }
          }
        }
        [ps[0]] + rest
  }

  /** Removing a key that is not there changes nothing. */
  lemma {:induction false} RemoveAbsentPlayer(ps: seq<Player>, id: string)
    requires !HasPlayer(ps, id)
    ensures RemovePlayer(ps, id) == ps
  {
    if ps != [] {
      RemoveAbsentPlayer(ps[1..], id);
    }
  }

  /** `players[id].score += points`. */
  function AddScore(ps: seq<Player>, id: string, points: int): seq<Player> {
    seq(|ps|, i requires 0 <= i < |ps| =>
      if ps[i].websocketId == id then ps[i].(score := ps[i].score + points) else ps[i])
  }

  /** No domain appears twice in the log. */
  predicate DistinctDomains(entries: seq<DomainEntry>) {
    forall i, j :: 0 <= i < j < |entries| ==> entries[i].domain != entries[j].domain
  }

  predicate DomainUsed(entries: seq<DomainEntry>, domain: string) {
    exists i :: 0 <= i < |entries| && entries[i].domain == domain
  }

  /** The shape every stored room keeps. */
  predicate RoomWellFormed(code: string, room: Room) {
    && room.code == code
    && room.gameState.roomCode == code
    && DistinctIds(room.gameState.players)
    && DistinctDomains(room.gameState.enteredDomains)
  }
}
