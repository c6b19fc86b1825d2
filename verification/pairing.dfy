/**
 * The matchmaking loop loopPartidas and criarPartida. The loop's local
 * variable `a` is the state's `waiting` slot, so one iteration becomes three
 * kinds of step: take the first player, pair it with the next one, or give up
 * waiting after the timeout. The goroutines that put a player back in the
 * queue are modelled as an immediate append. In Go a concurrent join may
 * fill the freed slot first, so the goroutine blocks and the player lands
 * behind later joiners; the model drops that reordering.
 */
module Matchmaking {
  import opened Wrappers
  import opened Catalog
  import opened GameState
  import Lobby

  /**
   * The match criarPartida builds for `a` and `b`: A holds the turn, both
   * lives start at 100 and each player is dealt five distinct catalog cards.
   */
  function NewMatch(a: PlayerId, b: PlayerId, picksA: seq<nat>, picksB: seq<nat>): (m: Match)
    ensures m.a == a && m.b == b && m.turn == a
    ensures m.lifeA == StartingLife && m.lifeB == StartingLife
    ensures |m.handA| == HandSize && HandValid(m.handA)
    ensures |m.handB| == HandSize && HandValid(m.handB)
  {
    Match(a, b, a, DealHand(picksA), DealHand(picksB), StartingLife, StartingLife)
  }

  /**
   * criarPartida: the new match goes under a fresh id. Only the index of
   * matches and the match counter change.
   */
  function CreateMatch(s: State, a: PlayerId, b: PlayerId, picksA: seq<nat>, picksB: seq<nat>): (o: Outcome)
    ensures o.reply == Paired(s.nextMatch)
    ensures o.next.players == s.players && o.next.registry == s.registry && o.next.boosters == s.boosters
    ensures o.next.queue == s.queue && o.next.waiting == s.waiting
    ensures o.next.nextPlayer == s.nextPlayer && o.next.nextMatch == s.nextMatch + 1
    ensures o.next.active == s.active[s.nextMatch := NewMatch(a, b, picksA, picksB)]
  {
    var mid := s.nextMatch;
    Outcome(Paired(mid), s.(active := s.active[mid := NewMatch(a, b, picksA, picksB)], nextMatch := mid + 1))
  }

  /** The loop blocks on the queue for its first player: it moves from the head of the queue to the waiting slot. */
  function TakeFirst(s: State): (o: Outcome)
    ensures s.waiting.Some? || |s.queue| == 0 ==> o == Outcome(Idle, s)
    ensures s.waiting.None? && |s.queue| > 0 ==>
      && o.reply == Taken(s.queue[0])
      && o.next == s.(waiting := Some(s.queue[0]), queue := s.queue[1..])
      && s.queue == [o.next.waiting.value] + o.next.queue
  {
    if s.waiting.None? && |s.queue| > 0 then
      Outcome(Taken(s.queue[0]), s.(waiting := Some(s.queue[0]), queue := s.queue[1..]))
    else Outcome(Idle, s)
  }

  /**
   * No second player within 30 seconds: the waiting player goes back to the
   * end of the queue if there is room, and is dropped otherwise.
   */
  function Timeout(s: State): (o: Outcome)
    ensures s.waiting.None? ==> o == Outcome(Idle, s)
    ensures s.waiting.Some? ==> o.next.waiting.None?
    ensures s.waiting.Some? && |s.queue| < QueueCapacity ==>
      o == Outcome(Requeued(s.waiting.value), s.(waiting := None, queue := s.queue + [s.waiting.value]))
    ensures s.waiting.Some? && |s.queue| >= QueueCapacity ==>
      o == Outcome(Dropped(s.waiting.value), s.(waiting := None))
  {
    match s.waiting
    case None => Outcome(Idle, s)
    case Some(a) =>
      if |s.queue| < QueueCapacity then Outcome(Requeued(a), s.(waiting := None, queue := s.queue + [a]))
      else Outcome(Dropped(a), s.(waiting := None))
  }

  /** The state once the pairing loop has taken its second player `b` from the queue and let go of `a`. */
  function Dequeued(s: State): State
    requires |s.queue| > 0
  {
    s.(waiting := None, queue := s.queue[1..])
  }

  /** The state a pairing creates a match in: `a` and `b` taken off the queue and flagged. */
  function Flagging(s: State, a: PlayerId, b: PlayerId): (t: State)
    requires |s.queue| > 0
    ensures t == s.(waiting := None, queue := s.queue[1..], players := t.players)
    ensures t.players.Keys == s.players.Keys
    ensures forall q :: q in s.players ==>
      t.players[q] == if q == a || q == b then s.players[q].(inMatch := true) else s.players[q]
  {
    var s1 := Dequeued(s);
    s1.(players := SetFlag(SetFlag(s1.players, a, true), b, true))
  }

  /**
   * One pairing of loopPartidas exactly as written: with `a` waiting and `b`
   * at the head of the queue, if `a` is already in a match `b` is put back; if
   * `b` is (which includes `b` being `a` itself, whose flag was just set), `a`'s
   * flag is reset and `a` is put back; otherwise both are flagged and a match
   * is created. A player whose flag is set is never put in a new match, and a
   * match never pairs a player with itself. Whether the players are still
   * connected is not looked at.
   */
  function PairStepAsWritten(s: State, picksA: seq<nat>, picksB: seq<nat>): (o: Outcome)
    ensures s.waiting.None? || |s.queue| == 0 ==> o == Outcome(Idle, s)
    ensures s.waiting.Some? && |s.queue| > 0 ==>
      var a := s.waiting.value;
      var b := s.queue[0];
      var s1 := Dequeued(s);
      && (Flagged(s, a) ==> o == Outcome(Requeued(b), s1.(queue := s1.queue + [b])))
      && (!Flagged(s, a) && (Flagged(s, b) || (b == a && a in s.players)) ==>
            o == Outcome(Requeued(a), s1.(queue := s1.queue + [a])))
      && (o.reply.Paired? ==> !Flagged(s, a) && !Flagged(s, b) && (a in s.players ==> a != b))
      && (!Flagged(s, a) && !Flagged(s, b) && a != b ==>
            o == CreateMatch(Flagging(s, a, b), a, b, picksA, picksB))
  {
    if s.waiting.None? || |s.queue| == 0 then Outcome(Idle, s)
    else
      var a := s.waiting.value;
      var b := s.queue[0];
      var s1 := Dequeued(s);
      if Flagged(s1, a) then Outcome(Requeued(b), s1.(queue := s1.queue + [b]))
      else
        var s2 := s1.(players := SetFlag(s1.players, a, true));
        if Flagged(s2, b) then
          var s3 := s2.(players := SetFlag(s2.players, a, false), queue := s2.queue + [a]);
          assert s3.players == s.players by {
            if a in s.players {
              assert s.players[a].(inMatch := true).(inMatch := false) == s.players[a];
            }
          }
          Outcome(Requeued(a), s3)
        else CreateMatch(Flagging(s, a, b), a, b, picksA, picksB)
  }

  /**
   * The pairing step with the missing check added: a waiting or dequeued
   * player who has disconnected is dropped and the other one is put back;
   * between two connected players it is the step as written. Every match it
   * creates is between two connected players.
   */
  function PairStep(s: State, picksA: seq<nat>, picksB: seq<nat>): (o: Outcome)
    ensures s.waiting.None? || |s.queue| == 0 ==> o == Outcome(Idle, s)
    ensures s.waiting.Some? && |s.queue| > 0 ==>
      var a := s.waiting.value;
      var b := s.queue[0];
      var s1 := Dequeued(s);
      && (a !in s.registry ==> o == Outcome(Dropped(a), s1.(queue := s1.queue + [b])))
      && (a in s.registry && b !in s.registry ==> o == Outcome(Dropped(b), s1.(queue := s1.queue + [a])))
      && (a in s.registry && b in s.registry ==> o == PairStepAsWritten(s, picksA, picksB))
      && (o.reply.Paired? ==> a in o.next.registry && b in o.next.registry)
  {
    if s.waiting.None? || |s.queue| == 0 then Outcome(Idle, s)
    else
      var a := s.waiting.value;
      var b := s.queue[0];
      var s1 := Dequeued(s);
      if a !in s.registry then Outcome(Dropped(a), s1.(queue := s1.queue + [b]))
      else if b !in s.registry then Outcome(Dropped(b), s1.(queue := s1.queue + [a]))
      else PairStepAsWritten(s, picksA, picksB)
  }

  // ------------------------------------------------------------------ invariant

  /** A valid state stays valid when the loop takes its first player. */
  lemma TakeFirstPreservesValid(s: State)
    requires Valid(s)
    ensures Valid(TakeFirst(s).next)
  {
    var t := TakeFirst(s).next;
    assert MatchesValid(t) by {
      forall k | k in t.active ensures k < t.nextMatch && MatchValid(t, t.active[k]) {
        assert MatchValid(s, s.active[k]);
      }
    }
  }

  /** A valid state stays valid when the loop gives up waiting. */
  lemma TimeoutPreservesValid(s: State)
    requires Valid(s)
    ensures Valid(Timeout(s).next)
  {
    var t := Timeout(s).next;
    assert MatchesValid(t) by {
      forall k | k in t.active ensures k < t.nextMatch && MatchValid(t, t.active[k]) {
        assert MatchValid(s, s.active[k]);
      }
    }
  }

  /** Putting a player object back at the end of the dequeued queue keeps a state valid. */
  lemma RequeuePreservesValid(s: State, x: PlayerId)
    requires Valid(s) && |s.queue| > 0 && x in s.players
    ensures Valid(Dequeued(s).(queue := Dequeued(s).queue + [x]))
  {
    var t := Dequeued(s).(queue := Dequeued(s).queue + [x]);
    assert PlayersValid(t);
    assert MatchesValid(t) by {
      forall k | k in t.active ensures k < t.nextMatch && MatchValid(t, t.active[k]) {
        assert MatchValid(s, s.active[k]);
      }
    }
  }

  /** Adding a match between two players who are in no match keeps every player in at most one match. */
  lemma AddMatchKeepsOneMatch(active: map<MatchId, Match>, mid: MatchId, m: Match)
    requires OneMatchPerPlayer(active) && mid !in active
    requires !InSomeMatch(active, m.a) && !InSomeMatch(active, m.b)
    ensures OneMatchPerPlayer(active[mid := m])
  {
    var t := active[mid := m];
    forall k1, k2, q | k1 in t && k2 in t && Involves(t[k1], q) && Involves(t[k2], q)
      ensures k1 == k2
    {
      if k1 != mid && k2 != mid {
        assert Involves(active[k1], q) && Involves(active[k2], q);
      } else if k1 != mid {
        assert Involves(active[k1], q);
      } else if k2 != mid {
        assert Involves(active[k2], q);
      }
    }
  }

  /** After a match between `a` and `b` is added, a player other than those two is placed as before. */
  lemma AddMatchKeepsOthers(active: map<MatchId, Match>, mid: MatchId, m: Match, q: PlayerId)
    requires mid !in active && !Involves(m, q)
    ensures InSomeMatch(active[mid := m], q) <==> InSomeMatch(active, q)
  {
    var t := active[mid := m];
    if InSomeMatch(active, q) {
      var k :| k in active && Involves(active[k], q);
      assert k in t && Involves(t[k], q);
    }
    if InSomeMatch(t, q) {
      var k :| k in t && Involves(t[k], q);
      assert k in active && Involves(active[k], q);
    }
  }

  /** After the new match, every flag of a connected player still says whether the player is in a match. */
  lemma CreateMatchKeepsFlags(s: State, a: PlayerId, b: PlayerId, picksA: seq<nat>, picksB: seq<nat>)
    requires s.registry <= s.players.Keys && FlagsAgree(s) && |s.queue| > 0
    requires s.nextMatch !in s.active
    requires a in s.registry && b in s.registry
    ensures var t := CreateMatch(Flagging(s, a, b), a, b, picksA, picksB).next;
      t.registry <= t.players.Keys && FlagsAgree(t)
  {
    var t := CreateMatch(Flagging(s, a, b), a, b, picksA, picksB).next;
    var mid := s.nextMatch;
    var m := t.active[mid];
    assert t.active == s.active[mid := m];
    forall q | q in t.registry ensures t.players[q].inMatch <==> InSomeMatch(t.active, q) {
      if q == a || q == b {
        assert Involves(t.active[mid], q);
      } else {
        assert t.players[q] == s.players[q];
        AddMatchKeepsOthers(s.active, mid, m, q);
      }
    }
  }

  /** The new match and the existing ones are all well formed after the pairing. */
  lemma CreateMatchKeepsMatchesValid(s: State, a: PlayerId, b: PlayerId, picksA: seq<nat>, picksB: seq<nat>)
    requires MatchesValid(s) && |s.queue| > 0
    requires a != b && a in s.registry && b in s.registry
    ensures MatchesValid(CreateMatch(Flagging(s, a, b), a, b, picksA, picksB).next)
  {
    var t := CreateMatch(Flagging(s, a, b), a, b, picksA, picksB).next;
    forall k | k in t.active ensures k < t.nextMatch && MatchValid(t, t.active[k]) {
      if k != s.nextMatch {
        assert MatchValid(s, s.active[k]);
      }
    }
  }

  /** Flagging two players and creating their match keeps ids, the queue and the held player in order. */
  lemma CreateMatchKeepsPlayersValid(s: State, a: PlayerId, b: PlayerId, picksA: seq<nat>, picksB: seq<nat>)
    requires PlayersValid(s) && |s.queue| > 0
    ensures PlayersValid(CreateMatch(Flagging(s, a, b), a, b, picksA, picksB).next)
  {
    FlaggingKeepsPlayersValid(s, a, b);
    var f := Flagging(s, a, b);
    var t := CreateMatch(f, a, b, picksA, picksB).next;
    assert t.players == f.players && t.registry == f.registry && t.queue == f.queue;
    assert t.waiting == f.waiting && t.nextPlayer == f.nextPlayer;
  }

  /** Taking a pair off the queue and flagging them keeps every player id accounted for. */
  lemma FlaggingKeepsPlayersValid(s: State, a: PlayerId, b: PlayerId)
    requires PlayersValid(s) && |s.queue| > 0
    ensures PlayersValid(Flagging(s, a, b))
  {
    var f := Flagging(s, a, b);
    assert f.players.Keys == s.players.Keys;
    assert forall i :: 0 <= i < |f.queue| ==> f.queue[i] == s.queue[i + 1];
  }

  /**
   * Creating a match between two different connected players who are in no
   * match, and flagging both, keeps a state valid.
   */
  lemma CreateMatchPreservesValid(s: State, a: PlayerId, b: PlayerId, picksA: seq<nat>, picksB: seq<nat>)
    requires Valid(s) && |s.queue| > 0
    requires a != b && a in s.registry && b in s.registry
    requires !s.players[a].inMatch && !s.players[b].inMatch
    ensures Valid(CreateMatch(Flagging(s, a, b), a, b, picksA, picksB).next)
  {
    var t := CreateMatch(Flagging(s, a, b), a, b, picksA, picksB).next;
    var mid := s.nextMatch;
    assert mid !in s.active;
    assert t.active == s.active[mid := t.active[mid]];
    CreateMatchKeepsPlayersValid(s, a, b, picksA, picksB);
    CreateMatchKeepsMatchesValid(s, a, b, picksA, picksB);
    AddMatchKeepsOneMatch(s.active, mid, t.active[mid]);
    CreateMatchKeepsFlags(s, a, b, picksA, picksB);
  }

  /** A valid state stays valid after a pairing step: no player ends up in two matches. */
  lemma PairStepPreservesValid(s: State, picksA: seq<nat>, picksB: seq<nat>)
    requires Valid(s)
    ensures Valid(PairStep(s, picksA, picksB).next)
  {
    if s.waiting.Some? && |s.queue| > 0 {
      var a := s.waiting.value;
      var b := s.queue[0];
      if a !in s.registry {
        RequeuePreservesValid(s, b);
      } else if b !in s.registry {
        RequeuePreservesValid(s, a);
      } else if Flagged(s, a) {
        RequeuePreservesValid(s, b);
      } else if Flagged(s, b) || b == a {
        RequeuePreservesValid(s, a);
      } else {
        CreateMatchPreservesValid(s, a, b, picksA, picksB);
      }
    }
  }

  // ------------------------------------------------------------------- finding

  /**
   * The step as written pairs a player who has disconnected: when the loop is
   * holding a player that has left the registry and a connected player who is
   * in no match heads the queue, it flags both and creates a match between
   * them, and the state is no longer valid. The server then sends the pairing
   * announcement on the departed player's outbound channel, which its cleanup
   * has closed, and a send on a closed Go channel panics.
   */
  lemma PairStepAsWrittenPairsDepartedPlayer(s: State, picksA: seq<nat>, picksB: seq<nat>)
    requires Valid(s) && s.waiting.Some? && |s.queue| > 0
    requires s.waiting.value !in s.registry && !Flagged(s, s.waiting.value)
    requires s.queue[0] in s.registry && !Flagged(s, s.queue[0])
    ensures var o := PairStepAsWritten(s, picksA, picksB);
      && o.reply == Paired(s.nextMatch)
      && s.nextMatch in o.next.active && o.next.active[s.nextMatch].a == s.waiting.value
      && s.waiting.value !in o.next.registry
      && !Valid(o.next)
  {
    var o := PairStepAsWritten(s, picksA, picksB);
    assert !MatchValid(o.next, o.next.active[s.nextMatch]);
  }

  /** With the check added, a departed waiting player is dropped and the next player goes back in the queue; the state stays valid. */
  lemma PairStepDropsDepartedPlayer(s: State, picksA: seq<nat>, picksB: seq<nat>)
    requires Valid(s) && s.waiting.Some? && |s.queue| > 0
    requires s.waiting.value !in s.registry
    ensures var o := PairStep(s, picksA, picksB);
      && o.reply == Dropped(s.waiting.value)
      && o.next.active == s.active
      && o.next.queue == s.queue[1..] + [s.queue[0]]
      && o.next.waiting.None?
      && Valid(o.next)
  {
    PairStepPreservesValid(s, picksA, picksB);
  }

  /**
   * The ordinary pairing: a connected free player held by the loop and a
   * different connected free player alone in the queue get a new match, both
   * are flagged, and the queue is left empty.
   */
  lemma PairStepOfFreePlayers(s: State, picksA: seq<nat>, picksB: seq<nat>)
    requires Valid(s) && s.waiting.Some? && |s.queue| == 1
    requires s.waiting.value != s.queue[0]
    requires s.waiting.value in s.registry && s.queue[0] in s.registry
    requires !Flagged(s, s.waiting.value) && !Flagged(s, s.queue[0])
    ensures var a := s.waiting.value;
      var b := s.queue[0];
      var o := PairStep(s, picksA, picksB);
      && o.reply == Paired(s.nextMatch)
      && o.next.active == s.active[s.nextMatch := NewMatch(a, b, picksA, picksB)]
      && Flagged(o.next, a) && Flagged(o.next, b)
      && o.next.queue == [] && o.next.waiting.None?
      && Valid(o.next)
  {
    var a := s.waiting.value;
    var b := s.queue[0];
    var o := PairStep(s, picksA, picksB);
    assert o == CreateMatch(Flagging(s, a, b), a, b, picksA, picksB);
    PairStepPreservesValid(s, picksA, picksB);
  }

  /** First half of the trace: player A connects and joins the queue, and the loop takes A. */
  function TakenAfterJoin(s0: State, nameA: string): State {
    var s1 := Lobby.Connect(s0, nameA).next;
    TakeFirst(Lobby.Join(s1, s0.nextPlayer).next).next
  }

  /** Second half of the trace: A disconnects, then player B connects and joins. */
  function JoinedAfterLeave(s3: State, a: PlayerId, nameB: string): State {
    var s4 := Lobby.Disconnect(s3, a).next;
    var s5 := Lobby.Connect(s4, nameB).next;
    Lobby.Join(s5, s4.nextPlayer).next
  }

  /**
   * The trace from any idle lobby that reaches the situation of the finding:
   * player A connects and joins the queue, the loop takes A, A disconnects,
   * then player B connects and joins.
   */
  function DepartedWaiting(s0: State, nameA: string, nameB: string): State {
    JoinedAfterLeave(TakenAfterJoin(s0, nameA), s0.nextPlayer, nameB)
  }

  lemma TakenAfterJoinFacts(s0: State, nameA: string)
    requires Valid(s0) && s0.waiting.None? && s0.queue == []
    ensures var s3 := TakenAfterJoin(s0, nameA);
      && Valid(s3) && s3.queue == [] && s3.waiting == Some(s0.nextPlayer)
      && s0.nextPlayer in s3.registry && !Flagged(s3, s0.nextPlayer) && s3.nextPlayer == s0.nextPlayer + 1
  {
    var a := s0.nextPlayer;
    var s1 := Lobby.Connect(s0, nameA).next;
    Lobby.ConnectPreservesValid(s0, nameA);
    var s2 := Lobby.Join(s1, a).next;
    Lobby.JoinPreservesValid(s1, a);
    assert s2.queue == [a];
    TakeFirstPreservesValid(s2);
  }

  lemma JoinedAfterLeaveFacts(s3: State, a: PlayerId, nameB: string)
    requires Valid(s3) && s3.queue == [] && s3.waiting == Some(a)
    requires a in s3.registry && !Flagged(s3, a) && s3.nextPlayer == a + 1
    ensures var s := JoinedAfterLeave(s3, a, nameB);
      && Valid(s) && s.waiting == Some(a) && s.queue == [a + 1]
      && a !in s.registry && !Flagged(s, a)
      && a + 1 in s.registry && !Flagged(s, a + 1)
  {
    var s4 := Lobby.Disconnect(s3, a).next;
    Lobby.DisconnectPreservesValid(s3, a);
    assert !Flagged(s4, a);
    var s5 := Lobby.Connect(s4, nameB).next;
    Lobby.ConnectPreservesValid(s4, nameB);
    Lobby.JoinPreservesValid(s5, a + 1);
  }

  /** The trace of DepartedWaiting meets the conditions of PairStepAsWrittenPairsDepartedPlayer. */
  lemma DepartedWaitingTrace(s0: State, nameA: string, nameB: string)
    requires Valid(s0) && s0.waiting.None? && s0.queue == []
    ensures var s := DepartedWaiting(s0, nameA, nameB);
      && Valid(s) && s.waiting == Some(s0.nextPlayer) && s.queue == [s0.nextPlayer + 1]
      && s0.nextPlayer !in s.registry && !Flagged(s, s0.nextPlayer)
      && s0.nextPlayer + 1 in s.registry && !Flagged(s, s0.nextPlayer + 1)
  {
    TakenAfterJoinFacts(s0, nameA);
    JoinedAfterLeaveFacts(TakenAfterJoin(s0, nameA), s0.nextPlayer, nameB);
  }

  /** From the server's start state the trace reaches the finding: Ana (id 0) is paired after she left. */
  lemma DepartedPlayerPairedFromStart()
    ensures var o := PairStepAsWritten(DepartedWaiting(Initial([]), "Ana", "Bia"), [], []);
      && o.reply == Paired(0) && 0 in o.next.active && o.next.active[0].a == 0 && 0 !in o.next.registry
  {
    InitialValid([]);
    DepartedWaitingTrace(Initial([]), "Ana", "Bia");
    PairStepAsWrittenPairsDepartedPlayer(DepartedWaiting(Initial([]), "Ana", "Bia"), [], []);
  }
}
