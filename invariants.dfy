/**
 * Invariants of the coordinator that every handler keeps: the lobby invariant
 * (`Rules.Inv`), distinct registry indexes, and candies that are never restored
 * within a round.
 */
module Invariants {
  import opened Protocol
  import opened Rules

  /** Removing a present key shrinks a map by exactly one. */
  lemma RemoveKeyCard<K, V>(m: map<K, V>, k: K)
    requires k in m
    ensures |m - {k}| == |m| - 1
  {
    assert (m - {k}).Keys == m.Keys - {k};
    assert m.Keys == (m.Keys - {k}) + {k};
  }

  /** A map with at most one key has no two different keys. */
  lemma OnlyKey<K, V>(m: map<K, V>, x: K, y: K)
    requires |m| <= 1 && x in m && y in m
    ensures x == y
  {
    if x != y {
      RemoveKeyCard(m, x);
    }
  }

  /** After a registered player of a registry of at most two leaves, at most one is left. */
  lemma SurvivorUnique(players: map<Sid, int>, sid: Sid, a: Sid, b: Sid)
    requires |players| <= 2 && sid in players
    requires a in players - {sid} && b in players - {sid}
    ensures a == b
  {
    RemoveKeyCard(players, sid);
    OnlyKey(players - {sid}, a, b);
  }

  lemma ConnectKeepsInv(s: State, sid: Sid)
    requires Inv(s)
    ensures Inv(HandleConnect(s, sid).lobby)
  {
  }

  lemma DisconnectKeepsInv(s: State, sid: Sid)
    requires Inv(s)
    ensures Inv(HandleDisconnect(s, sid).lobby)
  {
    if sid in s.players {
      RemoveKeyCard(s.players, sid);
    }
  }

  lemma SelectPoisonKeepsInv(s: State, sid: Sid, index: int)
    requires Inv(s)
    ensures Inv(HandleSelectPoison(s, sid, index).lobby)
  {
  }

  lemma TakeCandyKeepsInv(s: State, sid: Sid, index: int)
    requires Inv(s)
    ensures Inv(HandleTakeCandy(s, sid, index).lobby)
  {
  }

  lemma RequestReplayKeepsInv(s: State, sid: Sid)
    requires Inv(s)
    ensures Inv(HandleRequestReplay(s, sid).lobby)
  {
  }

  lemma TickKeepsInv(s: State)
    requires Inv(s)
    ensures Inv(TimerTick(s).lobby)
  {
  }

  /** Every handler keeps the lobby invariant. */
  lemma StepKeepsInv(s: State, e: Input)
    requires Inv(s)
    ensures Inv(Apply(s, e).lobby)
  {
    match e
    case Connect(sid) => ConnectKeepsInv(s, sid);
    case Disconnect(sid) => DisconnectKeepsInv(s, sid);
    case SelectPoison(sid, index) => SelectPoisonKeepsInv(s, sid, index);
    case TakeCandy(sid, index) => TakeCandyKeepsInv(s, sid, index);
    case RequestReplay(sid) => RequestReplayKeepsInv(s, sid);
    case Tick => TickKeepsInv(s);
  }

  /**
   * Across any sequence of events the registry holds at most two players with indexes
   * in {0, 1}, a round exists only with two players, its turn is 0 or 1, its timer is
   * within [0, 30] and it has 15 candies.
   */
  lemma {:induction false} RunKeepsInv(s: State, es: seq<Input>)
    requires Inv(s)
    ensures Inv(Run(s, es).lobby)
    decreases |es|
  {
    if es != [] {
      StepKeepsInv(s, es[0]);
      RunKeepsInv(Apply(s, es[0]).lobby, es[1..]);
    }
  }

  lemma InitialInv()
    ensures Inv(Initial)
  {
  }

  // ---- Registry indexes ----

  /** The registered indexes are distinct and are exactly 0 .. count - 1. */
  ghost predicate Indexed(p: map<Sid, int>)
  {
    && (forall k :: k in p ==> 0 <= p[k] < |p|)
    && (forall a, b :: a in p && b in p && a != b ==> p[a] != p[b])
  }

  /**
   * The transport gives each connection a new id: no `connect` arrives for an id that
   * is already registered.
   */
  ghost predicate FreshConnects(s: State, es: seq<Input>)
    decreases |es|
  {
    es != [] ==>
      && (es[0].Connect? ==> es[0].sid !in s.players)
      && FreshConnects(Apply(s, es[0]).lobby, es[1..])
  }

  lemma ConnectKeepsIndexed(s: State, sid: Sid)
    requires Inv(s) && Indexed(s.players) && sid !in s.players
    ensures Indexed(HandleConnect(s, sid).lobby.players)
  {
  }

  lemma DisconnectKeepsIndexed(s: State, sid: Sid)
    requires Inv(s) && (sid in s.players || Indexed(s.players))
    ensures Indexed(HandleDisconnect(s, sid).lobby.players)
  {
    var t := HandleDisconnect(s, sid).lobby.players;
    if sid in s.players && t.Keys != {} {
      var rest := s.players - {sid};
      forall a, b | a in rest && b in rest
        ensures a == b
      {
        SurvivorUnique(s.players, sid, a, b);
      }
      var k :| k in t;
      assert t.Keys == {k};
      assert t[k] == 0;
    }
  }

  lemma StepKeepsIndexed(s: State, e: Input)
    requires Inv(s) && Indexed(s.players)
    requires e.Connect? ==> e.sid !in s.players
    ensures Indexed(Apply(s, e).lobby.players)
  {
    match e
    case Connect(sid) => ConnectKeepsIndexed(s, sid);
    case Disconnect(sid) => DisconnectKeepsIndexed(s, sid);
    case _ =>
  }

  /** With fresh connection ids, every registry reached has distinct indexes 0 .. count - 1. */
  lemma {:induction false} RunKeepsIndexed(s: State, es: seq<Input>)
    requires Inv(s) && Indexed(s.players) && FreshConnects(s, es)
    ensures Indexed(Run(s, es).lobby.players)
    decreases |es|
  {
    if es != [] {
      StepKeepsIndexed(s, es[0]);
      StepKeepsInv(s, es[0]);
      RunKeepsIndexed(Apply(s, es[0]).lobby, es[1..]);
    }
  }

  // ---- Candies are never restored within a round ----

  /** The events that can install a new round. */
  predicate Restocks(e: Input)
  {
    e.Connect? || e.RequestReplay?
  }

  /**
   * After any one event, a round that exists either is the round that existed before,
   * with no candy made available again, or is a fresh round installed by `connect` or
   * `requestReplay`.
   */
  lemma StepNeverRestores(s: State, e: Input)
    requires Inv(s)
    ensures var t := Apply(s, e).lobby;
      t.game.Some? ==>
        || (s.game.Some? && Available(t.game.value.candies) <= Available(s.game.value.candies))
        || (Restocks(e) && t.game == Some(CreateNewGameState()))
  {
    match e
    case TakeCandy(sid, index) =>
      var t := Apply(s, e).lobby;
      if t.game.Some? && t != s {
        var g := s.game.value;
        var k := PyIndex(index, |g.candies|).value;
        assert t.game.value.candies == g.candies[k := false];
      }
    case _ =>
  }

  /**
   * No `connect` or `requestReplay` in the sequence installs a new round: each one either
   * is refused or finds fewer than two players, and leaves the round as it was.
   */
  ghost predicate KeepsRound(s: State, es: seq<Input>)
    decreases |es|
  {
    es != [] ==>
      && (Restocks(es[0]) ==> Apply(s, es[0]).lobby.game == s.game)
      && KeepsRound(Apply(s, es[0]).lobby, es[1..])
  }

  /**
   * Across a sequence of events in which no `connect` and no `requestReplay` installs a
   * new round, a round that exists at the end existed at the start, and every candy
   * taken at the start is still taken at the end.
   */
  lemma {:induction false} RunNeverRestores(s: State, es: seq<Input>)
    requires Inv(s) && KeepsRound(s, es)
    ensures var t := Run(s, es).lobby;
      t.game.Some? ==> s.game.Some? && Available(t.game.value.candies) <= Available(s.game.value.candies)
    decreases |es|
  {
    if es != [] {
      var mid := Apply(s, es[0]).lobby;
      StepNeverRestores(s, es[0]);
      StepKeepsInv(s, es[0]);
      RunNeverRestores(mid, es[1..]);
    }
  }

  /** In such a run a candy taken at the start is still taken in the round at the end. */
  lemma TakenStaysTaken(s: State, es: seq<Input>, k: int)
    requires Inv(s) && KeepsRound(s, es)
    requires s.game.Some? && 0 <= k < |s.game.value.candies| && !s.game.value.candies[k]
    ensures var t := Run(s, es).lobby;
      t.game.Some? ==> k < |t.game.value.candies| && !t.game.value.candies[k]
  {
    RunNeverRestores(s, es);
    RunKeepsInv(s, es);
    var t := Run(s, es).lobby;
    if t.game.Some? {
      var c := t.game.value.candies;
      assert k !in Available(s.game.value.candies);
      assert c[k] ==> k in Available(c);
    }
  }

  // ---- The timer loop ----

  /** Running the timer to its end is one tick followed by running it from there. */
  lemma TimeOutStep(s: State, logged: seq<Event>, events: seq<Event>, next: State)
    requires s.game.Some? && !s.game.value.gameOver
    requires next == TimerTick(s).lobby && events == logged + TimerTick(s).emitted
    ensures TimeOut(next).lobby == TimeOut(s).lobby
    ensures events + TimeOut(next).emitted == logged + TimeOut(s).emitted
  {
    if next.game.None? {
      assert TimeOut(next) == Step(next, []);
    }
  }
}
