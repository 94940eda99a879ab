/**
 * What each handler of `app.py` promises, stated against the lobby before and after
 * and the events it emits.
 */
module Behaviour {
  import opened Protocol
  import opened Rules
  import opened Invariants

  // ---- connect ----

  /** A connect with two players registered only tells the sender the lobby is full. */
  lemma ConnectWhenFull(s: State, sid: Sid)
    requires |s.players| >= 2
    ensures HandleConnect(s, sid) == Step(s, [Event(To(sid), Error(LobbyFull))])
  {
  }

  /**
   * Otherwise the newcomer gets the prior player count as its index, nobody else's
   * index changes, and the sender learns its index. The second player starts a fresh
   * round announced to everyone; before that the round is left as it was.
   */
  lemma ConnectJoins(s: State, sid: Sid)
    requires Inv(s) && |s.players| < 2 && sid !in s.players
    ensures var r := HandleConnect(s, sid);
      && r.lobby.players.Keys == s.players.Keys + {sid}
      && r.lobby.players[sid] == |s.players|
      && (forall k :: k in s.players ==> r.lobby.players[k] == s.players[k])
      && r.emitted[0] == Event(To(sid), JoinedLobby(|s.players|))
      && (|r.lobby.players| == 2 <==> |r.emitted| == 2)
      && (|r.lobby.players| == 2 ==>
            r.lobby.game == Some(CreateNewGameState())
            && r.emitted[1] == Event(Broadcast, StartPoisonSelection))
      && (|r.lobby.players| < 2 ==> r.lobby.game == s.game && |r.emitted| == 1)
  {
  }

  // ---- disconnect ----

  /** A disconnect from a connection that is not registered changes nothing. */
  lemma DisconnectUnknown(s: State, sid: Sid)
    requires sid !in s.players
    ensures HandleDisconnect(s, sid) == Step(s, [])
  {
  }

  /**
   * When one of two players leaves, the round is dropped, the other player becomes
   * player 0 and only it is told to wait for a new opponent.
   */
  lemma DisconnectLeavesSurvivor(s: State, sid: Sid, other: Sid)
    requires Inv(s) && sid in s.players && other in s.players && other != sid
    ensures HandleDisconnect(s, sid)
            == Step(State(map[other := 0], None), [Event(To(other), ReturnToWaiting(0))])
  {
    var rest := s.players - {sid};
    forall a, b | a in rest && b in rest
      ensures a == b
    {
      SurvivorUnique(s.players, sid, a, b);
    }
    assert other in rest;
    forall x | x in rest.Keys
      ensures x == other
    {
      SurvivorUnique(s.players, sid, x, other);
    }
    assert rest.Keys == {other};
    assert rest[other := 0] == map[other := 0];
  }

  /** When the only player leaves, the lobby is empty and nobody is notified. */
  lemma DisconnectLast(s: State, sid: Sid)
    requires s.players.Keys == {sid}
    ensures HandleDisconnect(s, sid) == Step(Initial, [])
  {
    assert (s.players - {sid}).Keys == {};
    assert s.players - {sid} == map[];
  }

  // ---- selectPoison ----

  /** A pick with no round, or from an unregistered connection, is ignored. */
  lemma SelectPoisonIgnored(s: State, sid: Sid, index: int)
    requires s.game.None? || sid !in s.players
    ensures HandleSelectPoison(s, sid, index) == Step(s, [])
  {
  }

  /** A map keyed by player indexes has two entries exactly when both indexes have one. */
  lemma TwoPicksIffBoth(m: map<int, int>)
    requires m.Keys <= {0, 1}
    ensures |m| == 2 <==> 0 in m && 1 in m
  {
    if 0 in m && 1 in m {
      assert m.Keys == {0, 1};
    } else if 0 in m {
      assert m.Keys == {0};
    } else if 1 in m {
      assert m.Keys == {1};
    } else {
      assert m.Keys == {};
    }
  }

  /**
   * A pick sets the sender's entry and no other; candies and timer are untouched.
   * The round starts (turn 0, `gameStart` with the whole round broadcast) exactly when
   * both player indexes now have a pick; otherwise nothing is emitted and the turn
   * is kept.
   */
  lemma SelectPoisonRecords(s: State, sid: Sid, index: int)
    requires Inv(s) && s.game.Some? && sid in s.players
    ensures var g := s.game.value;
      var r := HandleSelectPoison(s, sid, index);
      var h := r.lobby.game.value;
      && r.lobby.players == s.players && r.lobby.game.Some?
      && h.poisonCandies.Keys == g.poisonCandies.Keys + {s.players[sid]}
      && h.poisonCandies[s.players[sid]] == index
      && (forall p :: p in g.poisonCandies && p != s.players[sid] ==> h.poisonCandies[p] == g.poisonCandies[p])
      && h.candies == g.candies && h.timer == g.timer
      && ((0 in h.poisonCandies && 1 in h.poisonCandies) <==> r.emitted == [Event(Broadcast, GameStart(h))])
      && ((0 in h.poisonCandies && 1 in h.poisonCandies) ==> h.turn == 0)
      && (!(0 in h.poisonCandies && 1 in h.poisonCandies) ==> r.emitted == [] && h.turn == g.turn)
  {
    var g := s.game.value;
    TwoPicksIffBoth(g.poisonCandies[s.players[sid] := index]);
  }

  /** A second pick by the same player replaces the first; the opponent's pick is kept. */
  lemma SecondPickOverwrites(s: State, sid: Sid, first: int, second: int)
    requires Inv(s) && s.game.Some? && sid in s.players
    ensures var once := HandleSelectPoison(s, sid, first).lobby;
      var twice := HandleSelectPoison(once, sid, second).lobby;
      && twice.game.Some?
      && twice.game.value.poisonCandies == s.game.value.poisonCandies[s.players[sid] := second]
  {
  }

  // ---- takeCandy ----

  /** A move the mover is entitled to make: a live round, the sender's turn. */
  ghost predicate MoverEntitled(s: State, sid: Sid)
  {
    s.game.Some? && !s.game.value.gameOver && sid in s.players && s.players[sid] == s.game.value.turn
  }

  /** A move changes something only if a live round exists and it is the sender's turn. */
  lemma MoveNeedsTurn(s: State, sid: Sid, index: int)
    ensures var r := HandleTakeCandy(s, sid, index);
      (r.lobby != s || r.emitted != []) ==> MoverEntitled(s, sid)
  {
  }

  /**
   * Taking any poison index, the mover's own or the opponent's, ends the round with
   * the opponent as winner; the candy is not removed and replay is offered.
   */
  lemma PoisonLoses(s: State, sid: Sid, index: int)
    requires Inv(s) && MoverEntitled(s, sid) && index in s.game.value.poisonCandies.Values
    ensures var g := s.game.value;
      var loser := s.players[sid];
      var w := Player(1 - loser);
      && w.index != loser && (w.index == 0 || w.index == 1)
      && HandleTakeCandy(s, sid, index)
         == Step(State(s.players, None),
                 [Event(Broadcast, GameOver(w, g.(gameOver := true, winner := Some(w)), true))])
  {
  }

  /** An index outside [-15, 15) that is not a poison pick raises IndexError: nothing happens. */
  lemma OutOfRangeIgnored(s: State, sid: Sid, index: int)
    requires Inv(s) && MoverEntitled(s, sid)
    requires index !in s.game.value.poisonCandies.Values && !(-15 <= index < 15)
    ensures HandleTakeCandy(s, sid, index) == Step(s, [])
  {
  }

  /**
   * A move that is not a poison index and is in range removes exactly the candy at its
   * (Python) position and no other. The round is a tie when the candies left are then
   * exactly the poison picks; otherwise the turn passes to the other player, the timer
   * is reset and the new round is broadcast. A candy that was already taken can be
   * taken again: the turn still passes.
   */
  lemma SafeMove(s: State, sid: Sid, index: int)
    requires Inv(s) && MoverEntitled(s, sid)
    requires index !in s.game.value.poisonCandies.Values && -15 <= index < 15
    ensures var g := s.game.value;
      var k := if index < 0 then index + 15 else index;
      var candies := g.candies[k := false];
      var r := HandleTakeCandy(s, sid, index);
      && Available(candies) == Available(g.candies) - {k}
      && (Available(candies) == g.poisonCandies.Values ==>
            r == Step(State(s.players, None),
                      [Event(Broadcast, GameOver(Both, g.(candies := candies, gameOver := true, winner := Some(Both)), true))]))
      && (Available(candies) != g.poisonCandies.Values ==>
            var next := r.lobby.game.value;
            && r.lobby.players == s.players && r.lobby.game.Some?
            && next.candies == candies
            && next.turn == 1 - g.turn && (next.turn == 0 || next.turn == 1)
            && next.timer == TurnSeconds
            && next.poisonCandies == g.poisonCandies
            && r.emitted == [Event(Broadcast, UpdateState(next))])
  {
    var k := if index < 0 then index + 15 else index;
    TakeRemovesOne(s.game.value.candies, k);
  }

  /** Turns alternate: whenever a move is broadcast with `updateState`, the mover's turn is over. */
  lemma TurnAlternates(s: State, sid: Sid, index: int)
    requires Inv(s)
    ensures var r := HandleTakeCandy(s, sid, index);
      (|r.emitted| == 1 && r.emitted[0].message.UpdateState?) ==>
        && s.game.Some? && sid in s.players && s.players[sid] == s.game.value.turn
        && r.lobby.game.Some? && r.lobby.game.value.turn == 1 - s.players[sid]
  {
  }

  // ---- requestReplay ----

  /**
   * With two players registered, a replay request replaces the round, whatever phase
   * it was in, with a fresh one and announces poison selection; otherwise it does nothing.
   */
  lemma ReplayRestarts(s: State, sid: Sid)
    ensures var r := HandleRequestReplay(s, sid);
      && (|s.players| == 2 ==>
            r == Step(State(s.players, Some(CreateNewGameState())), [Event(Broadcast, StartPoisonSelection)]))
      && (|s.players| != 2 ==> r == Step(s, []))
  {
  }

  /** There is no consent set: who asks for the replay makes no difference. */
  lemma ReplayIgnoresSender(s: State, a: Sid, b: Sid)
    ensures HandleRequestReplay(s, a) == HandleRequestReplay(s, b)
  {
  }

  // ---- the timer ----

  /**
   * One second on a live round: the timer goes down by one and is broadcast, or, when
   * it falls below 0, the player whose turn it is loses. Candies and picks are untouched.
   */
  lemma TickCountsDown(s: State)
    requires Inv(s) && s.game.Some?
    ensures var g := s.game.value;
      var r := TimerTick(s);
      && (g.timer >= 1 ==>
            r == Step(State(s.players, Some(g.(timer := g.timer - 1))), [Event(Broadcast, UpdateTimer(g.timer - 1))]))
      && (g.timer == 0 ==>
            var w := Player(1 - g.turn);
            r == Step(State(s.players, None),
                      [Event(Broadcast, GameOver(w, g.(timer := -1, gameOver := true, winner := Some(w)), true))]))
  {
  }

  /** With no round the timer does nothing. */
  lemma TickIdle(s: State)
    requires s.game.None?
    ensures TimerTick(s) == Step(s, [])
  {
  }

  /**
   * Left alone, a live round with t seconds on the clock broadcasts the seconds left,
   * t - 1 down to 0, then ends with the stalling player losing. No move is forced:
   * the final candies are the ones before the countdown.
   */
  lemma StallingLoses(s: State)
    requires Inv(s) && s.game.Some?
    ensures var g := s.game.value;
      var r := TimeOut(s);
      && r.lobby == State(s.players, None)
      && |r.emitted| == g.timer + 1
      && r.emitted[g.timer].message.GameOver?
      && r.emitted[g.timer].message.winner == Player(1 - g.turn)
      && r.emitted[g.timer].message.finalState.candies == g.candies
      && (forall i :: 0 <= i < g.timer ==> r.emitted[i].message == UpdateTimer(g.timer - 1 - i))
  {
  }

  // ---- how a round ends ----

  /**
   * A `gameOver` notification is broadcast, names player 0, player 1 or the tie, carries
   * that winner in its final round, and offers a replay.
   */
  ghost predicate WellEnded(e: Event)
  {
    e.message.GameOver? ==>
      && e.target == Broadcast
      && (e.message.winner == Player(0) || e.message.winner == Player(1) || e.message.winner == Both)
      && e.message.canReplay
      && e.message.finalState.gameOver && e.message.finalState.winner == Some(e.message.winner)
  }

  /**
   * Every `gameOver` a handler emits is well formed, and once it is emitted the round is
   * gone. A replay is always offered: a round exists only with two players, and a
   * disconnect drops the round without a `gameOver`.
   */
  lemma StepEndsWell(s: State, e: Input)
    requires Inv(s)
    ensures var r := Apply(s, e);
      forall i :: 0 <= i < |r.emitted| ==>
        WellEnded(r.emitted[i]) && (r.emitted[i].message.GameOver? ==> r.lobby.game.None?)
  {
    match e
    case Connect(sid) =>
    case Disconnect(sid) =>
    case SelectPoison(sid, index) =>
    case TakeCandy(sid, index) =>
    case RequestReplay(sid) =>
    case Tick =>
  }

  /** Across any sequence of events every `gameOver` is well formed. */
  lemma {:induction false} RunEndsWell(s: State, es: seq<Input>)
    requires Inv(s)
    ensures forall i :: 0 <= i < |Run(s, es).emitted| ==> WellEnded(Run(s, es).emitted[i])
    decreases |es|
  {
    if es != [] {
      var first := Apply(s, es[0]);
      StepEndsWell(s, es[0]);
      StepKeepsInv(s, es[0]);
      RunEndsWell(first.lobby, es[1..]);
      var rest := Run(first.lobby, es[1..]);
      assert Run(s, es).emitted == first.emitted + rest.emitted;
      forall i | 0 <= i < |Run(s, es).emitted|
        ensures WellEnded(Run(s, es).emitted[i])
      {
        if i < |first.emitted| {
          assert Run(s, es).emitted[i] == first.emitted[i];
        } else {
          assert Run(s, es).emitted[i] == rest.emitted[i - |first.emitted|];
        }
      }
    }
  }
}
