/** The client's view of the wire protocol (frontend/src/types/game.ts). */
module ClientTypes {
  import opened Wrappers

  /**
   * A player as the client reads it. `nickname` is `None` when the frame's
   * object has no `nickname` member, which JavaScript reads as `undefined`.
   */
  datatype Player = Player(nickname: Option<string>, color: string, score: int)

  datatype DomainEntry = DomainEntry(domain: string, rank: int, playerId: string)

  /** The replicated game state, always replaced as a whole. */
  datatype GameState = GameState(
    isActive: bool,
    timeRemaining: int,
    players: seq<Player>,
    enteredDomains: seq<DomainEntry>,
    latestDomain: Option<DomainEntry>)

  /** Frames the server sends, by their `type` tag. */
  datatype Inbound =
    | GameUpdate(gameState: GameState)
    | ErrorMessage(message: string)
    | GameOver(winner: Player)

  /** Frames the client sends, by their `type` tag. */
  datatype Outbound =
    | StartGame
    | SubmitDomain(domain: string)
}
