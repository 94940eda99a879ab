# Poison Candy coordinator in Dafny

This project models the authoritative game coordinator of Poison Candy (`app.py`), a two-player
game. The server keeps one global `lobby` record. It holds a player registry (connection id →
player index 0 or 1) and an optional per-round record `game_state` (15 candy flags, each player's
poison pick, the turn, a 30-second turn timer, the game-over flag and the winner). Socket.IO event
handlers change this state: `connect`, `disconnect`, `selectPoison`, `takeCandy` and
`requestReplay`. A background `game_loop` counts the timer down once a second. Each handler emits
named events to the sender, to one connection or to everyone.

Layout:

- `protocol.dfy` (module `Protocol`): the values. A round as a value (`Round`), the winner
  (`Player(i)` or `Both`), the emitted messages and their targets (`To(sid)` or `Broadcast`).
- `rules.dfy` (module `Rules`): each handler as a pure transition from a lobby value to the next
  lobby and the events it emits. Also the lobby invariant `Inv`, one timer iteration, the timer
  loop run to its end (`TimeOut`), and `Run`, which handles a sequence of inputs one by one.
- `invariants.dfy` (module `Invariants`): facts that hold across any sequence of events. Every
  handler keeps `Inv`. Registry indexes stay distinct when connection ids are fresh. No candy
  becomes available again except through a new round.
- `behaviour.dfy` (module `Behaviour`): what each handler promises. This covers its guard, its
  change to the lobby, the events it emits, and how a round ends.
- `scenarios.dfy` (module `Scenarios`): concrete runs with clients `"a"` and `"b"` and a third
  connection `"c"`.
- `server.dfy` (module `Server`): the coordinator as objects. `Game` holds the candies in an
  `array<bool>` of length 15, updated in place. `Lobby` has fields `players`, `game` and an
  append-only `events` log. Each handler is a method, proved to produce exactly the lobby and
  events of its `Rules` counterpart and to keep `Inv`.

The model does what the code does, including behaviour a player might not expect from the game:

- Taking any poison index, your own or your opponent's, makes the mover lose
  (`Scenarios.TakingOpponentsPoisonLoses`).
- `takeCandy` does not wait for both poison picks. Player 0 has the turn from the start of a
  round, so a round can end before the second pick (`Scenarios.MoveBeforeBothPicks`).
- There are no replay-consent rules. A single `requestReplay` restarts the round in any phase
  while two players are registered. The request may even come from a third connection whose
  `connect` was refused (`Behaviour.ReplayIgnoresSender`, `Scenarios.OutsiderRestartsRound`).
- A duplicate `selectPoison` overwrites the earlier pick. A pick made while both picks exist
  broadcasts `gameStart` again and resets the turn to 0 (`Behaviour.SelectPoisonRecords`).
- A timeout is a loss for the stalling player; no forced move happens (`Behaviour.StallingLoses`).
- Whether the chosen candy is still available is not checked. Taking a candy that is already taken
  passes the turn (`Behaviour.SafeMove`).
- The candy index is a Python list subscript. An index in [-15, 0) counts from the end, so -12
  means candy 3. It is not caught by the poison check, which compares the raw index
  (`Scenarios.NegativeIndexRemovesPoison`). An index outside [-15, 15) raises IndexError before
  anything changes (`Behaviour.OutOfRangeIgnored`).
- The tie `'both'` happens when, after a removal, the available candies are exactly the set of
  poison picks.
- `gameOver` always offers a replay. A round exists only while two players are registered, and a
  disconnect drops the round without a `gameOver` (`Behaviour.StepEndsWell`).
- `gameStart` and `updateState` carry both poison picks; nothing is redacted.

## Model

| member | source | states |
|---|---|---|
| `Rules.CreateNewGameState` | app.py:19-28 | a fresh round has 15 candies, all available, no picks, turn 0, timer 30, not over, no winner |
| `Rules.PyIndex` | app.py:111 | a subscript denotes a position exactly when it is in [-n, n); that position is the index itself, or the index plus n when negative |
| `Rules.EndGame` | app.py:42-53 | the round is dropped and the players kept; with a round, exactly one `gameOver` is broadcast, carrying the winner, the final round marked over with that winner, and `canReplay` true iff two players are registered; without a round, nothing happens |
| `Rules.TakeRemovesOne` | app.py:111-112 | taking candy k removes exactly k from `Available`, the set of indexes still true that the tie test compares with the picks, whether or not k was still there |
| `Rules.HandleConnect` | app.py:63-76 | `handle_connect` as written: the sender is always answered first; the registry grows by the sender unless two players are already registered. The full contract is `Behaviour.ConnectWhenFull` and `Behaviour.ConnectJoins` |
| `Rules.HandleDisconnect` | app.py:79-89 | `handle_disconnect` as written: the sender leaves the registry and a registered sender's leaving drops the round. The full contract is `Behaviour.DisconnectUnknown`, `Behaviour.DisconnectLeavesSurvivor` and `Behaviour.DisconnectLast` |
| `Rules.HandleSelectPoison` | app.py:92-99 | `handle_select_poison` as written: the registry is kept, a round exists afterwards iff it did before, and at most one event is emitted. The full contract is `Behaviour.SelectPoisonIgnored` and `Behaviour.SelectPoisonRecords` |
| `Rules.HandleTakeCandy` | app.py:102-120 | `handle_take_candy` as written: the registry and the picks are kept, a round remains only if one existed, and at most one event is emitted. The full contract is `Behaviour.MoveNeedsTurn`, `Behaviour.PoisonLoses`, `Behaviour.OutOfRangeIgnored` and `Behaviour.SafeMove` |
| `Rules.HandleRequestReplay` | app.py:123-127 | `handle_request_replay` as written: the registry is kept and at most one event is emitted. The full contract is `Behaviour.ReplayRestarts` |
| `Rules.TimerTick` | app.py:34-40 | one post-sleep iteration of `game_loop`: the registry is kept, a remaining round has its timer lowered by exactly one, and at most one event is emitted. The full contract is `Behaviour.TickCountsDown` and `Behaviour.TickIdle` |
| `Rules.Apply` | app.py:62-127 | dispatches an event to its handler; only `connect` can add a connection id to the registry |
| `Rules.Run` | app.py:62-127 | handles events one after another and concatenates their emits; the players registered at the end were registered at the start or sent a `connect` |
| `Rules.TimeOut` | app.py:30-40 | left alone, a live round with t seconds left broadcasts `updateTimer` t-1 down to 0, then `gameOver` against the player whose turn it is, with timer -1; the round is gone and the players are kept |
| `Invariants.ConnectKeepsInv` | app.py:65-76 | connect keeps the lobby invariant: at most two players, indexes in {0,1}, a round only with two players, turn in {0,1}, timer in [0,30], 15 candies, picks keyed by 0 or 1 |
| `Invariants.DisconnectKeepsInv` | app.py:81-89 | disconnect keeps the lobby invariant |
| `Invariants.SelectPoisonKeepsInv` | app.py:93-99 | selectPoison keeps the lobby invariant |
| `Invariants.TakeCandyKeepsInv` | app.py:103-120 | takeCandy keeps the lobby invariant, so the turn stays 0 or 1 |
| `Invariants.RequestReplayKeepsInv` | app.py:124-127 | requestReplay keeps the lobby invariant |
| `Invariants.TickKeepsInv` | app.py:34-40 | a timer tick keeps the lobby invariant; the timer never stays below 0 |
| `Invariants.StepKeepsInv` | app.py:62-127 | every handler and the timer keep the lobby invariant |
| `Invariants.RunKeepsInv` | app.py:13-17 | across any sequence of events, every lobby reached satisfies the invariant |
| `Invariants.InitialInv` | app.py:13-17 | the start-up lobby satisfies the invariant |
| `Invariants.ConnectKeepsIndexed` | app.py:70-71 | a newcomer with a fresh id keeps the indexes distinct and equal to 0 .. count-1 |
| `Invariants.DisconnectKeepsIndexed` | app.py:82-88 | after a registered player leaves, the indexes are distinct and 0 .. count-1 (the survivor is 0) |
| `Invariants.StepKeepsIndexed` | app.py:65-89 | any single event with a fresh connect id keeps the indexes distinct and 0 .. count-1 |
| `Invariants.RunKeepsIndexed` | app.py:65-89 | when connection ids are fresh, every registry reached has distinct indexes 0 .. count-1 |
| `Invariants.StepNeverRestores` | app.py:75 | after any event, a remaining round is either the previous round with no candy made available again, or a fresh round installed by connect or requestReplay |
| `Invariants.RunNeverRestores` | app.py:111 | over any sequence of events in which no connect or requestReplay installs a new round (a refused connect, or a replay with fewer than two players, may occur), a round at the end existed at the start and every candy taken is still taken |
| `Invariants.TakenStaysTaken` | app.py:111 | in such a run, a candy taken in the starting round is still taken in any round at the end |
| `Invariants.TimeOutStep` | app.py:32-40 | running the timer loop to its end is one tick followed by running it from the resulting lobby |
| `Behaviour.ConnectWhenFull` | app.py:66-68 | with two players registered, connect leaves the lobby unchanged and emits only the lobby-full `error` to the sender |
| `Behaviour.ConnectJoins` | app.py:70-76 | otherwise the newcomer's index is the prior count and no other index changes; the sender gets `joinedLobby`; reaching two players installs a fresh round and broadcasts `startPoisonSelection`, else the round is untouched |
| `Behaviour.DisconnectUnknown` | app.py:82 | a disconnect from an unregistered id changes nothing and emits nothing |
| `Behaviour.DisconnectLeavesSurvivor` | app.py:82-89 | when one of two players leaves, the registry becomes {other: 0}, the round is dropped, and only the other gets `returnToWaiting{0}` |
| `Behaviour.DisconnectLast` | app.py:82-86 | when the only player leaves, the lobby is empty and nothing is emitted |
| `Behaviour.SelectPoisonIgnored` | app.py:93-94 | with no round or an unregistered sender, selectPoison changes nothing |
| `Behaviour.SelectPoisonRecords` | app.py:95-98 | sets the sender's pick, keeps the other pick, the candies and the timer; broadcasts `gameStart` with the round and sets turn 0 iff both indexes have picks; otherwise emits nothing and keeps the turn |
| `Behaviour.SecondPickOverwrites` | app.py:95 | two picks by the same player leave only the second one |
| `Behaviour.MoveNeedsTurn` | app.py:103-105 | takeCandy changes or emits something only if a live round exists and the sender's index is the turn |
| `Behaviour.PoisonLoses` | app.py:108-109 | taking any poison index ends the round: the lobby has no round, and the only event is a `gameOver` whose winner is the other index, with the candies unchanged and a replay offered |
| `Behaviour.OutOfRangeIgnored` | app.py:111 | a non-poison index outside [-15, 15) raises IndexError and leaves lobby and events unchanged |
| `Behaviour.SafeMove` | app.py:110-120 | a non-poison in-range move removes exactly the candy at its Python position; if the remaining candies then equal the poison picks, a tie `gameOver` is broadcast and the round dropped; otherwise the turn flips, the timer resets to 30, the picks are kept and `updateState` is broadcast with the new round |
| `Behaviour.TurnAlternates` | app.py:105-120 | whenever takeCandy broadcasts `updateState`, the mover had the turn and the new turn is the other index |
| `Behaviour.ReplayRestarts` | app.py:124-127 | with two players, the round becomes a fresh one in any phase and `startPoisonSelection` is broadcast; otherwise nothing changes |
| `Behaviour.ReplayIgnoresSender` | app.py:123-127 | the outcome of requestReplay does not depend on who sent it |
| `Behaviour.TickCountsDown` | app.py:34-40 | on a live round, a tick lowers the timer by one and broadcasts it; from 0 it ends the round against the player whose turn it is, with timer -1 |
| `Behaviour.TickIdle` | app.py:34 | with no round a tick does nothing |
| `Behaviour.StallingLoses` | app.py:30-40 | a live round left alone ends after timer+1 ticks with exactly timer `updateTimer` events, then a `gameOver` against the mover; the final candies are those before the countdown |
| `Behaviour.StepEndsWell` | app.py:42-53 | every `gameOver` a handler emits is broadcast, names 0, 1 or both, has its winner in its final round and offers a replay; after it the round is gone |
| `Behaviour.RunEndsWell` | app.py:48-52 | over any sequence of events, every emitted `gameOver` is well formed in that sense |
| `Scenarios.TwoPlayersJoin` | app.py:65-76 | after "a" and "b" join, they get indexes 0 and 1, a fresh round exists, and `startPoisonSelection` is broadcast |
| `Scenarios.ThirdRejected` | app.py:66-68 | a third connection gets the lobby-full error and nothing changes |
| `Scenarios.BothPick` | app.py:93-98 | picks 3 and 7: the first emits nothing; the second broadcasts `gameStart` with all 15 candies available, turn 0 and picks {0:3, 1:7} |
| `Scenarios.TakingOpponentsPoisonLoses` | app.py:108-109 | "a" taking 7 (the pick of "b") ends the round with winner 1 |
| `Scenarios.WrongTurnIgnored` | app.py:105 | "b" moving on the turn of "a" changes nothing |
| `Scenarios.MoveBeforeBothPicks` | app.py:105-109 | after only "a" has picked 3, "a" may take 3, and the round ends with winner 1 |
| `Scenarios.NegativeIndexRemovesPoison` | app.py:108-120 | index -12 passes the poison check, removes candy 3 (a pick), and the turn passes to 1 |
| `Scenarios.FirstMove` | app.py:110-120 | "a" taking candy 5 (no pick) removes it and passes the turn to 1 |
| `Scenarios.RefusedConnectKeepsRound` | app.py:66-111 | a refused third connection between moves installs no round, so candy 5 stays taken: the run meets the requirement of `Invariants.RunNeverRestores` although it contains a connect |
| `Scenarios.OutsiderRestartsRound` | app.py:124-127 | the refused third connection's requestReplay replaces a started round with a fresh one |
| `Scenarios.OpponentLeaves` | app.py:82-89 | when "b" leaves mid-round, "a" becomes index 0, the round is dropped, and only "a" gets `returnToWaiting{0}` |
| `Server.Game.constructor` | app.py:19-28 | allocates a fresh candy buffer; the new record is the fresh round of `Rules.CreateNewGameState` |
| `Server.Lobby.constructor` | app.py:13-17 | the start-up lobby has no players, no round and an empty event log, and satisfies the invariant |
| `Server.Lobby.EndGame` | app.py:42-53 | marks the record over with its winner, appends the `gameOver` broadcast and drops the round, as `Rules.EndGame` |
| `Server.Lobby.HandleConnect` | app.py:63-76 | registry, round and event log become those of `Rules.HandleConnect`; a new round is a freshly allocated object; the invariant is kept |
| `Server.Lobby.HandleDisconnect` | app.py:79-89 | the registry pop, the cleared round, the survivor's re-index and its event are those of `Rules.HandleDisconnect`; the invariant is kept |
| `Server.Lobby.HandleSelectPoison` | app.py:92-99 | updates the picks and the turn of the same round object in place, as `Rules.HandleSelectPoison` |
| `Server.Lobby.HandleTakeCandy` | app.py:102-120 | writes the candy buffer in place, as `Rules.HandleTakeCandy`; while the round goes on it is the same object and buffer, and no candy flag goes from false to true |
| `Server.Lobby.HandleRequestReplay` | app.py:123-127 | installs a freshly allocated round and broadcasts, as `Rules.HandleRequestReplay` |
| `Server.Lobby.Tick` | app.py:34-40 | one loop iteration on the same round object, as `Rules.TimerTick` |
| `Server.Lobby.GameLoop` | app.py:30-40 | the while loop ends with no round, and lobby and events are those of `Rules.TimeOut` on the starting lobby |

## Left out

- The Flask route and template serving (app.py:56-59) are left out. So is the Socket.IO transport: `emit` is modelled only as appending to `Lobby.events`, tagged with its target.
- The lock, `socketio.start_background_task` and `socketio.sleep` are left out. They are about concurrency and wall-clock timing. The timer is one `Tick` step that can come between any two handlers (an input of `Rules.Run`). Each handler and each tick is modelled as atomic. In the source, `handle_select_poison`, `handle_take_candy` (app.py:92-120) and the body of `game_loop` (app.py:34-40) run without the lock. A tick could therefore change the timer or end the round in the middle of a move, and the model does not capture such interleavings.
- Server.Lobby.GameLoop: runs the loop with no handler in between. The source starts a new loop on every `gameStart`, so several loops may tick the same round. That overlap is not modelled.
- The model assumes that every `emit`, including the `updateTimer` and `gameOver` emits of the timer loop (app.py:38-40), succeeds and reaches its targets. Flask-SocketIO documents its module-level `emit` as bound to the context of a request handler. Called from a task started by `start_background_task`, as at app.py:40, it is documented to fail. The timer loop would then stop after its first decrement, and the timeout described by `Rules.TimeOut`, `Behaviour.StallingLoses` and `Server.Lobby.GameLoop` would not happen. The library is not part of this model.
- Payloads are typed: `data['index']` is an integer. A missing key or a non-integer index (KeyError, TypeError) is not modelled.
- Invariants.RunKeepsIndexed: assumes connection ids are never reused while registered, which the transport guarantees. A `connect` from a registered id is still modelled as written: it overwrites that id's index.
- JSON serialisation of payloads (integer pick keys becoming strings) is not modelled.
- `static/script.js` (rendering and screen switching) is not part of this model.
