/** The values the coordinator keeps and the notifications it sends to the clients. */
module Protocol {

  /** A Socket.IO connection id (`request.sid`); opaque to the game. */
  type Sid = string

  datatype Option<+T> = None | Some(value: T)

  /** The winner of a round: a player index, or the tie `'both'`. */
  datatype Winner = Player(index: int) | Both

  /**
   * The per-round record `game_state` as a value: the availability of each candy,
   * the poison pick of each player index, whose turn it is, the seconds left in the
   * turn, and the game-over flag with its winner.
   */
  datatype Round = Round(
    candies: seq<bool>,
    poisonCandies: map<int, int>,
    turn: int,
    timer: int,
    gameOver: bool,
    winner: Option<Winner>)

  /** The named events the coordinator emits, with their payloads. */
  datatype Message =
    | Error(payload: string)
    | JoinedLobby(playerIndex: int)
    | StartPoisonSelection
    | ReturnToWaiting(playerIndex: int)
    | GameStart(state: Round)
    | UpdateState(state: Round)
    | UpdateTimer(timer: int)
    | GameOver(winner: Winner, finalState: Round, canReplay: bool)

  /** `emit(...)` to one connection (the sender, or `room=sid`), or `broadcast=True`. */
  datatype Target = To(sid: Sid) | Broadcast

  datatype Event = Event(target: Target, message: Message)
}
