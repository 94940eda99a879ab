/**
 * The coordinator of `app.py` as pure transitions on a lobby value: one function per
 * event handler, each giving the new lobby and the events it emits, in order.
 * The `Server` classes are proved to change their fields exactly as these say.
 */
module Rules {
  import opened Protocol

  /** Number of candies in a round (`[True] * 15`). */
  const CandyCount: nat := 15
  /** Seconds a player has for a move. */
  const TurnSeconds: int := 30
  const LobbyFull: string := "Lobby is full. Please try again later."

  /** The global `lobby` record: registered players and the optional current round. */
  datatype State = State(players: map<Sid, int>, game: Option<Round>)

  /** What one handler does: the lobby afterwards and the events emitted, in order. */
  datatype Step = Step(lobby: State, emitted: seq<Event>)

  const Initial: State := State(map[], None)

  /** The indexes of the candies still available. */
  function Available(candies: seq<bool>): (r: set<int>)
  {
    set i | 0 <= i < |candies| && candies[i]
  }

  /**
   * Taking candy k removes exactly k from the available set, whether or not it was
   * still there; this is what the tie test of `handle_take_candy` compares.
   */
  lemma TakeRemovesOne(c: seq<bool>, k: int)
    requires 0 <= k < |c|
    ensures Available(c[k := false]) == Available(c) - {k}
  {
    var after := c[k := false];
    forall i | i in Available(c) - {k}
      ensures i in Available(after)
    {
      assert after[i] == c[i];
    }
  }

  /**
   * Python list subscript on a list of length n: an index in [-n, n) denotes a
   * position (negative ones count from the end); any other raises IndexError.
   */
  function PyIndex(index: int, n: nat): (r: Option<nat>)
    ensures r.Some? <==> -(n as int) <= index < n
    ensures r.Some? ==> r.value < n && (r.value == index || r.value == index + n)
  {
    if 0 <= index < n then Some(index)
    else if -(n as int) <= index < 0 then Some(index + n)
    else None
  }

  /** `create_new_game_state`: every candy available, no picks, player 0 first, a full turn. */
  function CreateNewGameState(): (r: Round)
    ensures |r.candies| == CandyCount
    ensures forall i :: i in Available(r.candies) <==> 0 <= i < CandyCount
    ensures r.poisonCandies == map[] && r.turn == 0 && r.timer == TurnSeconds
    ensures !r.gameOver && r.winner == None
  {
    Round(seq(CandyCount, _ => true), map[], 0, TurnSeconds, false, None)
  }

  /** The invariant of a stored round (one that `end_game` has not yet cleared). */
  ghost predicate RoundInv(g: Round)
  {
    && |g.candies| == CandyCount
    && (g.turn == 0 || g.turn == 1)
    && 0 <= g.timer <= TurnSeconds
    && !g.gameOver && g.winner == None
    && g.poisonCandies.Keys <= {0, 1}
  }

  /**
   * The lobby invariant: at most two players, each with index 0 or 1, and a round
   * exists only while two players are registered.
   */
  ghost predicate Inv(s: State)
  {
    && |s.players| <= 2
    && (forall k :: k in s.players ==> s.players[k] == 0 || s.players[k] == 1)
    && (s.game.Some? ==> |s.players| == 2 && RoundInv(s.game.value))
  }

  /** `end_game`: mark the round over, broadcast `gameOver`, then drop the round. */
  function EndGame(s: State, winner: Winner): (r: Step)
    ensures r.lobby == State(s.players, None)
    ensures s.game.None? ==> r.emitted == []
    ensures s.game.Some? ==> |r.emitted| == 1 && r.emitted[0].target == Broadcast
    ensures s.game.Some? ==> r.emitted[0].message.GameOver? && r.emitted[0].message.winner == winner
    ensures s.game.Some? ==> (r.emitted[0].message.canReplay <==> |s.players| == 2)
    ensures s.game.Some? ==> r.emitted[0].message.finalState
                             == s.game.value.(gameOver := true, winner := Some(winner))
  {
    match s.game
    case None => Step(s, [])
    case Some(g) =>
      var final := g.(gameOver := true, winner := Some(winner));
      Step(State(s.players, None), [Event(Broadcast, GameOver(winner, final, |s.players| == 2))])
  }

  /** `handle_connect`: reject a third player, else register with the next index. */
  function HandleConnect(s: State, sid: Sid): (r: Step)
    ensures r.lobby.players.Keys == s.players.Keys + (if |s.players| >= 2 then {} else {sid})
    ensures |r.emitted| >= 1 && r.emitted[0].target == To(sid)
  {
    if |s.players| >= 2 then
      Step(s, [Event(To(sid), Error(LobbyFull))])
    else
      var index := |s.players|;
      var players := s.players[sid := index];
      var joined := [Event(To(sid), JoinedLobby(index))];
      if |players| == 2 then
        Step(State(players, Some(CreateNewGameState())), joined + [Event(Broadcast, StartPoisonSelection)])
      else
        Step(State(players, s.game), joined)
  }

  /**
   * `handle_disconnect`: drop a registered player and the round; the survivor, if any,
   * becomes player 0. The survivor is the first remaining key of the registry; since the
   * registry never holds more than two players it is the only one, so it is picked here
   * by `:|`, which is why this function is ghost.
   */
  ghost function HandleDisconnect(s: State, sid: Sid): (r: Step)
    ensures r.lobby.players.Keys == s.players.Keys - {sid}
    ensures sid in s.players ==> r.lobby.game.None?
  {
    if sid !in s.players then Step(s, [])
    else
      var rest := s.players - {sid};
      if rest.Keys == {} then Step(State(rest, None), [])
      else
        var survivor :| survivor in rest.Keys;
        Step(State(rest[survivor := 0], None), [Event(To(survivor), ReturnToWaiting(0))])
  }

  /** `handle_select_poison`: record (or overwrite) the sender's pick; start once both exist. */
  function HandleSelectPoison(s: State, sid: Sid, index: int): (r: Step)
    ensures r.lobby.players == s.players && r.lobby.game.Some? == s.game.Some?
    ensures |r.emitted| <= 1
  {
    if s.game.None? || sid !in s.players then Step(s, [])
    else
      var g := s.game.value;
      var picked := g.(poisonCandies := g.poisonCandies[s.players[sid] := index]);
      if |picked.poisonCandies| == 2 then
        var started := picked.(turn := 0);
        Step(State(s.players, Some(started)), [Event(Broadcast, GameStart(started))])
      else
        Step(State(s.players, Some(picked)), [])
  }

  /**
   * `handle_take_candy`: only the player whose turn it is may move. Any poison index
   * makes the mover lose; otherwise the candy is removed and the round is a tie when
   * the available candies are exactly the poison picks, else the turn passes. An
   * index outside [-15, 15) raises IndexError, which leaves everything as it was.
   */
  function HandleTakeCandy(s: State, sid: Sid, index: int): (r: Step)
    ensures r.lobby.players == s.players && |r.emitted| <= 1
    ensures r.lobby.game.Some? ==> s.game.Some? && r.lobby.game.value.poisonCandies == s.game.value.poisonCandies
  {
    if s.game.None? || s.game.value.gameOver || sid !in s.players || s.players[sid] != s.game.value.turn then
      Step(s, [])
    else
      var g := s.game.value;
      if index in g.poisonCandies.Values then
        EndGame(s, Player(1 - g.turn))
      else
        match PyIndex(index, |g.candies|)
        case None => Step(s, [])
        case Some(k) =>
          var candies := g.candies[k := false];
          if Available(candies) == g.poisonCandies.Values then
            EndGame(State(s.players, Some(g.(candies := candies))), Both)
          else
            var next := g.(candies := candies, turn := 1 - g.turn, timer := TurnSeconds);
            Step(State(s.players, Some(next)), [Event(Broadcast, UpdateState(next))])
  }

  /** `handle_request_replay`: with two players, start a fresh round whoever asks. */
  function HandleRequestReplay(s: State, sid: Sid): (r: Step)
    ensures r.lobby.players == s.players && |r.emitted| <= 1
  {
    if |s.players| == 2 then
      Step(State(s.players, Some(CreateNewGameState())), [Event(Broadcast, StartPoisonSelection)])
    else
      Step(s, [])
  }

  /** One iteration of `game_loop` after its sleep: a second passes; below zero the mover loses. */
  function TimerTick(s: State): (r: Step)
    ensures r.lobby.players == s.players && |r.emitted| <= 1
    ensures r.lobby.game.Some? ==> s.game.Some? && r.lobby.game.value.timer == s.game.value.timer - 1
  {
    match s.game
    case None => Step(s, [])
    case Some(g) =>
      var ticked := g.(timer := g.timer - 1);
      if ticked.timer < 0 then
        EndGame(State(s.players, Some(ticked)), Player(1 - g.turn))
      else
        Step(State(s.players, Some(ticked)), [Event(Broadcast, UpdateTimer(ticked.timer))])
  }

  /** The `updateTimer` broadcasts of a countdown from t: t - 1, t - 2, ..., 0. */
  function Countdown(t: nat): (r: seq<Event>)
    ensures |r| == t
    ensures forall i :: 0 <= i < t ==> r[i] == Event(Broadcast, UpdateTimer(t - 1 - i))
  {
    seq(t, i requires 0 <= i < t => Event(Broadcast, UpdateTimer(t - 1 - i)))
  }

  /**
   * `game_loop` run to its end with no other event in between: while a round exists
   * and is not over, tick. The mover of the stalled turn loses.
   */
  function TimeOut(s: State): (r: Step)
    ensures r.lobby.players == s.players
    ensures !(s.game.Some? && s.game.value.gameOver) ==> r.lobby.game.None?
    ensures s.game.Some? && !s.game.value.gameOver && s.game.value.timer >= 0 ==>
      var g := s.game.value;
      var loser := Player(1 - g.turn);
      var final := g.(timer := -1, gameOver := true, winner := Some(loser));
      r.emitted == Countdown(g.timer) + [Event(Broadcast, GameOver(loser, final, |s.players| == 2))]
    decreases if s.game.Some? && s.game.value.timer >= 0 then s.game.value.timer + 1 else 0
  {
    if s.game.None? || s.game.value.gameOver then Step(s, [])
    else
      var first := TimerTick(s);
      if first.lobby.game.None? then first
      else
        var rest := TimeOut(first.lobby);
        Step(rest.lobby, first.emitted + rest.emitted)
  }

  /** The events that reach the coordinator. */
  datatype Input =
    | Connect(sid: Sid)
    | Disconnect(sid: Sid)
    | SelectPoison(sid: Sid, index: int)
    | TakeCandy(sid: Sid, index: int)
    | RequestReplay(sid: Sid)
    | Tick

  /** The handler an event is dispatched to. */
  ghost function Apply(s: State, e: Input): (r: Step)
    ensures r.lobby.players.Keys <= s.players.Keys + (if e.Connect? then {e.sid} else {})
  {
    match e
    case Connect(sid) => HandleConnect(s, sid)
    case Disconnect(sid) => HandleDisconnect(s, sid)
    case SelectPoison(sid, index) => HandleSelectPoison(s, sid, index)
    case TakeCandy(sid, index) => HandleTakeCandy(s, sid, index)
    case RequestReplay(sid) => HandleRequestReplay(s, sid)
    case Tick => TimerTick(s)
  }

  /** The connection ids of the `connect` events in a sequence. */
  ghost function Connected(es: seq<Input>): (r: set<Sid>)
    decreases |es|
  {
    if es == [] then {}
    else (if es[0].Connect? then {es[0].sid} else {}) + Connected(es[1..])
  }

  /**
   * A sequence of events handled one after another; the emitted events are concatenated.
   * Only a `connect` registers a connection id.
   */
  ghost function Run(s: State, es: seq<Input>): (r: Step)
    ensures r.lobby.players.Keys <= s.players.Keys + Connected(es)
    decreases |es|
  {
    if es == [] then Step(s, [])
    else
      var first := Apply(s, es[0]);
      var rest := Run(first.lobby, es[1..]);
      Step(rest.lobby, first.emitted + rest.emitted)
  }
}
