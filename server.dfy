/**
 * The coordinator as it runs: the global `lobby` record and its `game_state` are
 * objects whose fields the Socket.IO handlers update in place. Each handler is proved
 * to leave the lobby, and to extend the event log, exactly as its counterpart in
 * `Rules` says, and to keep the lobby invariant.
 */
module Server {
  import opened Protocol
  import Rules
  import Invariants

  /** The per-round record `game_state`; the candies are a fixed buffer of 15 flags. */
  class Game {
    var candies: array<bool>
    var poisonCandies: map<int, int>
    var turn: int
    var timer: int
    var gameOver: bool
    var winner: Option<Winner>

    /** `create_new_game_state`. */
    constructor ()
      ensures fresh(candies)
      ensures Snapshot() == Rules.CreateNewGameState()
    {
      candies := new bool[Rules.CandyCount](_ => true);
      poisonCandies := map[];
      turn := 0;
      timer := Rules.TurnSeconds;
      gameOver := false;
      winner := None;
    }

    /** The round as a value, as it is sent in `gameStart`, `updateState` and `gameOver`. */
    function Snapshot(): (r: Round)
      reads this, candies
    {
      Round(candies[..], poisonCandies, turn, timer, gameOver, winner)
    }
  }

  /** The global `lobby`: the player registry, the current round and the emitted events. */
  class Lobby {
    var players: map<Sid, int>
    var game: Game?
    /** Every event emitted so far, in order. */
    var events: seq<Event>
    ghost var Repr: set<object>

    /** The objects this lobby uses are in its footprint. */
    ghost predicate Framed()
      reads this, Repr
    {
      this in Repr && (game != null ==> game in Repr && game.candies in Repr)
    }

    /** The lobby as a value. */
    ghost function Model(): (r: Rules.State)
      reads this, Repr
      requires Framed()
    {
      Rules.State(players, if game == null then None else Some(game.Snapshot()))
    }

    ghost predicate Valid()
      reads this, Repr
    {
      Framed() && Rules.Inv(Model())
    }

    /** The lobby at start-up: no players, no round. */
    constructor ()
      ensures Valid() && fresh(Repr)
      ensures Model() == Rules.Initial && events == []
    {
      players := map[];
      game := null;
      events := [];
      Repr := {this};
    }

    /** `end_game`. Its callers may have left the round's timer below 0. */
    method EndGame(winner: Winner)
      requires Framed()
      modifies Repr
      ensures Framed() && Repr == old(Repr) && game == null
      ensures var r := Rules.EndGame(old(Model()), winner);
        Model() == r.lobby && events == old(events) + r.emitted
    {
      if game != null {
        game.gameOver := true;
        game.winner := Some(winner);
        events := events + [Event(Broadcast, GameOver(winner, game.Snapshot(), |players| == 2))];
        game := null;
      }
    }

    /** `handle_connect`. A new round is a new object. */
    method HandleConnect(sid: Sid)
      requires Valid()
      modifies Repr
      ensures Valid() && fresh(Repr - old(Repr))
      ensures var r := Rules.HandleConnect(old(Model()), sid);
        Model() == r.lobby && events == old(events) + r.emitted
      ensures game != old(game) ==> game != null && fresh(game) && fresh(game.candies)
    {
      if |players| >= 2 {
        events := events + [Event(To(sid), Error(Rules.LobbyFull))];
        return;
      }
      ghost var before := Model();
      var index := |players|;
      players := players[sid := index];
      events := events + [Event(To(sid), JoinedLobby(index))];
      if |players| == 2 {
        var g := new Game();
        game := g;
        Repr := Repr + {g, g.candies};
        events := events + [Event(Broadcast, StartPoisonSelection)];
      }
      Invariants.ConnectKeepsInv(before, sid);
    }

    /** `handle_disconnect`. */
    method HandleDisconnect(sid: Sid)
      requires Valid()
      modifies Repr
      ensures Valid() && Repr == old(Repr)
      ensures var r := Rules.HandleDisconnect(old(Model()), sid);
        Model() == r.lobby && events == old(events) + r.emitted
    {
      ghost var before := Model();
      if sid in players {
        players := players - {sid};
        game := null;
        if players.Keys != {} {
          forall a, b | a in players && b in players
            ensures a == b
          {
            Invariants.SurvivorUnique(before.players, sid, a, b);
          }
          var survivor :| survivor in players;
          players := players[survivor := 0];
          events := events + [Event(To(survivor), ReturnToWaiting(0))];
        }
      }
      Invariants.DisconnectKeepsInv(before, sid);
    }

    /** `handle_select_poison`. The round object is kept. */
    method HandleSelectPoison(sid: Sid, index: int)
      requires Valid()
      modifies Repr
      ensures Valid() && Repr == old(Repr) && game == old(game)
      ensures var r := Rules.HandleSelectPoison(old(Model()), sid, index);
        Model() == r.lobby && events == old(events) + r.emitted
    {
      ghost var before := Model();
      if game != null && sid in players {
        var playerIndex := players[sid];
        game.poisonCandies := game.poisonCandies[playerIndex := index];
        if |game.poisonCandies| == 2 {
          game.turn := 0;
          events := events + [Event(Broadcast, GameStart(game.Snapshot()))];
        }
      }
      Invariants.SelectPoisonKeepsInv(before, sid, index);
    }

    /**
     * `handle_take_candy`. The candies are updated in place: while the round goes on it
     * is the same object with the same buffer, and no candy becomes available again.
     */
    method HandleTakeCandy(sid: Sid, index: int)
      requires Valid()
      modifies Repr
      ensures Valid() && Repr == old(Repr)
      ensures var r := Rules.HandleTakeCandy(old(Model()), sid, index);
        Model() == r.lobby && events == old(events) + r.emitted
      ensures game != null ==> game == old(game) && game.candies == old(game.candies)
      ensures game != null ==>
        forall i :: 0 <= i < game.candies.Length && game.candies[i] ==> old(game.candies[i])
    {
      ghost var before := Model();
      Invariants.TakeCandyKeepsInv(before, sid, index);
      if game == null || game.gameOver || sid !in players || players[sid] != game.turn {
        return;
      }
      if index in game.poisonCandies.Values {
        EndGame(Player(1 - game.turn));
        return;
      }
      var position := Rules.PyIndex(index, game.candies.Length);
      if position.None? {
        return;
      }
      game.candies[position.value] := false;
      var remaining := Rules.Available(game.candies[..]);
      if remaining == game.poisonCandies.Values {
        EndGame(Both);
      } else {
        game.turn := 1 - game.turn;
        game.timer := Rules.TurnSeconds;
        events := events + [Event(Broadcast, UpdateState(game.Snapshot()))];
      }
    }

    /** `handle_request_replay`. A new round is a new object. */
    method HandleRequestReplay(sid: Sid)
      requires Valid()
      modifies Repr
      ensures Valid() && fresh(Repr - old(Repr))
      ensures var r := Rules.HandleRequestReplay(old(Model()), sid);
        Model() == r.lobby && events == old(events) + r.emitted
      ensures game != old(game) ==> game != null && fresh(game) && fresh(game.candies)
    {
      if |players| == 2 {
        var g := new Game();
        game := g;
        Repr := Repr + {g, g.candies};
        events := events + [Event(Broadcast, StartPoisonSelection)];
      }
    }

    /** The body of one iteration of `game_loop`, after its one-second sleep. */
    method Tick()
      requires Valid()
      modifies Repr
      ensures Valid() && Repr == old(Repr)
      ensures var r := Rules.TimerTick(old(Model()));
        Model() == r.lobby && events == old(events) + r.emitted
      ensures game != null ==> game == old(game)
    {
      ghost var before := Model();
      Invariants.TickKeepsInv(before);
      if game != null {
        game.timer := game.timer - 1;
        if game.timer < 0 {
          EndGame(Player(1 - game.turn));
        } else {
          events := events + [Event(Broadcast, UpdateTimer(game.timer))];
        }
      }
    }

    /**
     * `game_loop` with no other handler running in between: tick while a round exists
     * and is not over. It ends with no round, having emitted the countdown and the
     * stalling player's loss.
     */
    method GameLoop()
      requires Valid()
      modifies Repr
      ensures Valid() && Repr == old(Repr) && game == null
      ensures var r := Rules.TimeOut(old(Model()));
        Model() == r.lobby && events == old(events) + r.emitted
    {
      ghost var total := Rules.TimeOut(Model());
      ghost var start := events;
      while game != null && !game.gameOver
        invariant Valid() && Repr == old(Repr)
        invariant Rules.TimeOut(Model()).lobby == total.lobby
        invariant events + Rules.TimeOut(Model()).emitted == start + total.emitted
        decreases if Model().game.None? then 0 else Model().game.value.timer + 1
      {
        ghost var pre := Model();
        ghost var logged := events;
        Tick();
        Invariants.TimeOutStep(pre, logged, events, Model());
      }
    }
  }
}
