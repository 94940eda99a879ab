/**
 * Concrete runs of the coordinator with two clients "a" and "b" and a third
 * connection "c", following the handlers step by step.
 */
module Scenarios {
  import opened Protocol
  import opened Rules
  import Invariants

  const A: Sid := "a"
  const B: Sid := "b"
  const C: Sid := "c"

  /** The lobby once "a" and "b" have joined. */
  function Paired(): (r: State)
  {
    State(map[A := 0, B := 1], Some(CreateNewGameState()))
  }

  /** Two joins: each learns its index, then poison selection is announced to both. */
  lemma TwoPlayersJoin()
    ensures var first := HandleConnect(Initial, A);
      var second := HandleConnect(first.lobby, B);
      && first.emitted == [Event(To(A), JoinedLobby(0))]
      && second.lobby == Paired()
      && second.emitted == [Event(To(B), JoinedLobby(1)), Event(Broadcast, StartPoisonSelection)]
  {
    assert |map[A := 0, B := 1]| == 2;
  }

  /** A third connection is told the lobby is full; it changes nothing. */
  lemma ThirdRejected()
    ensures HandleConnect(Paired(), C) == Step(Paired(), [Event(To(C), Error(LobbyFull))])
  {
    assert |Paired().players| == 2;
  }

  /** The round after "a" picks 3 and "b" picks 7. */
  function Started(): (r: State)
  {
    State(map[A := 0, B := 1], Some(CreateNewGameState().(poisonCandies := map[0 := 3, 1 := 7])))
  }

  /** Picks 3 and 7: `gameStart` is broadcast with every candy available, turn 0 and both picks. */
  lemma BothPick()
    ensures var first := HandleSelectPoison(Paired(), A, 3);
      var second := HandleSelectPoison(first.lobby, B, 7);
      && first.emitted == []
      && second.lobby == Started()
      && second.emitted == [Event(Broadcast, GameStart(Started().game.value))]
      && Started().game.value.turn == 0
      && forall i :: 0 <= i < CandyCount ==> Started().game.value.candies[i]
  {
    assert |map[0 := 3, 1 := 7]| == 2;
  }

  /**
   * "a" takes candy 7, the pick of "b": "a" loses, because any poison index ends the
   * round against the mover.
   */
  lemma TakingOpponentsPoisonLoses()
    ensures var g := Started().game.value;
      HandleTakeCandy(Started(), A, 7)
      == Step(State(map[A := 0, B := 1], None),
              [Event(Broadcast, GameOver(Player(1), g.(gameOver := true, winner := Some(Player(1))), true))])
  {
    assert Started().game.value.poisonCandies[1] == 7;
  }

  /** "b" tries to move while it is the turn of "a": nothing happens. */
  lemma WrongTurnIgnored()
    ensures HandleTakeCandy(Started(), B, 5) == Step(Started(), [])
  {
  }

  /**
   * A move is accepted before both picks exist: "a" picks 3 and then takes 3 while "b"
   * has not picked, and the round ends with "b" as winner.
   */
  lemma MoveBeforeBothPicks()
    ensures var picked := HandleSelectPoison(Paired(), A, 3).lobby;
      var g := picked.game.value;
      && g.poisonCandies == map[0 := 3]
      && HandleTakeCandy(picked, A, 3)
         == Step(State(map[A := 0, B := 1], None),
                 [Event(Broadcast, GameOver(Player(1), g.(gameOver := true, winner := Some(Player(1))), true))])
  {
    var g := HandleSelectPoison(Paired(), A, 3).lobby.game.value;
    assert g.poisonCandies[0] == 3;
  }

  /**
   * Index -12 is not a pick, so the poison check passes, but as a Python subscript it
   * denotes candy 3, the pick of "a": the poison candy is removed and play goes on.
   */
  lemma NegativeIndexRemovesPoison()
    ensures var r := HandleTakeCandy(Started(), A, -12);
      && r.lobby.game.Some?
      && !r.lobby.game.value.candies[3]
      && r.lobby.game.value.turn == 1
      && r.emitted == [Event(Broadcast, UpdateState(r.lobby.game.value))]
  {
    var g := Started().game.value;
    forall v | v in g.poisonCandies.Values
      ensures v == 3 || v == 7
    {
      var p :| p in g.poisonCandies && g.poisonCandies[p] == v;
    }
    assert 0 in Available(g.candies[3 := false]);
  }

  /** The round after "a" has taken candy 5. */
  function AfterFirstMove(): (r: State)
  {
    var g := Started().game.value;
    State(map[A := 0, B := 1], Some(g.(candies := g.candies[5 := false], turn := 1)))
  }

  /** "a" takes candy 5, which is no pick: the turn passes to "b". */
  lemma FirstMove()
    ensures HandleTakeCandy(Started(), A, 5).lobby == AfterFirstMove()
  {
    var g := Started().game.value;
    forall v | v in g.poisonCandies.Values
      ensures v == 3 || v == 7
    {
      var p :| p in g.poisonCandies && g.poisonCandies[p] == v;
    }
    assert 0 in Available(g.candies[5 := false]);
  }

  /**
   * After "a" has taken candy 5, a third connection is refused and "b" moves: the
   * refused connect installs no round, so candy 5 is still taken afterwards.
   */
  lemma RefusedConnectKeepsRound()
    ensures var es := [Connect(C), TakeCandy(B, 6)];
      var t := Run(AfterFirstMove(), es).lobby;
      && Invariants.KeepsRound(AfterFirstMove(), es)
      && (t.game.Some? ==> |t.game.value.candies| > 5 && !t.game.value.candies[5])
  {
    var s1 := AfterFirstMove();
    var es := [Connect(C), TakeCandy(B, 6)];
    assert |s1.players| == 2;
    assert Apply(s1, Connect(C)).lobby == s1;
    assert es[1..] == [TakeCandy(B, 6)] && es[1..][1..] == [];
    assert Invariants.KeepsRound(s1, es);
    assert Inv(s1);
    Invariants.TakenStaysTaken(s1, es, 5);
  }

  /** The rejected third connection can still restart the round with `requestReplay`. */
  lemma OutsiderRestartsRound()
    ensures HandleRequestReplay(Started(), C)
            == Step(Paired(), [Event(Broadcast, StartPoisonSelection)])
  {
    assert |Started().players| == 2;
  }

  /** When "b" leaves mid-round, "a" is player 0 again and alone told to wait. */
  lemma OpponentLeaves()
    ensures HandleDisconnect(Started(), B)
            == Step(State(map[A := 0], None), [Event(To(A), ReturnToWaiting(0))])
  {
    var rest := Started().players - {B};
    assert rest == map[A := 0];
    assert rest.Keys == {A};
  }
}
