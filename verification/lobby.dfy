/**
 * The lobby side of the server: a new connection's registration with its
 * display name, joining the matchmaking queue (/entrar), the lobby chat
 * broadcast of transmitir, and the cleanup of removerJogador when a
 * connection ends.
 */
module Lobby {
  import opened Text
  import opened GameState

  /** Name given to a player whose first line is blank. */
  const DefaultName: string := "Jogador"

  /**
   * The display name lidarConexao derives from a connection's first line: the
   * line without surrounding white space, or DefaultName when nothing is left.
   */
  function DisplayName(line: string): (name: string)
    ensures name != []
    ensures !IsSpace(name[0]) && !IsSpace(name[|name| - 1])
    ensures TrimSpace(line) != [] ==> name == TrimSpace(line)
    ensures TrimSpace(line) == [] ==> name == DefaultName
  {
    var trimmed := TrimSpace(line);
    if trimmed == "" then DefaultName else trimmed
  }

  /** A display name is its own display name. */
  lemma DisplayNameIdempotent(line: string)
    ensures DisplayName(DisplayName(line)) == DisplayName(line)
  {
    TrimSpaceOfUnpadded(DisplayName(line));
  }

  /**
   * Registration of a new connection: a fresh player, not in a match, named
   * after its first line, joins the registry; nothing else changes.
   */
  function Connect(s: State, firstLine: string): (o: Outcome)
    ensures o.reply == Welcome(s.nextPlayer)
    ensures o.next.registry == s.registry + {s.nextPlayer}
    ensures s.nextPlayer in o.next.players && o.next.players[s.nextPlayer] == Player(DisplayName(firstLine), false)
    ensures forall q :: q in s.players && q != s.nextPlayer ==> q in o.next.players && o.next.players[q] == s.players[q]
    ensures o.next.nextPlayer > s.nextPlayer
    ensures o.next == s.(players := o.next.players, registry := o.next.registry, nextPlayer := o.next.nextPlayer)
  {
    var id := s.nextPlayer;
    Outcome(Welcome(id), s.(players := s.players[id := Player(DisplayName(firstLine), false)],
                            registry := s.registry + {id},
                            nextPlayer := id + 1))
  }

  /** In a valid state the new player's id is fresh, and the state stays valid. */
  lemma ConnectPreservesValid(s: State, firstLine: string)
    requires Valid(s)
    ensures s.nextPlayer !in s.players && s.nextPlayer !in s.registry
    ensures Valid(Connect(s, firstLine).next)
  {
    var t := Connect(s, firstLine).next;
    var id := s.nextPlayer;
    assert MatchesValid(t) by {
      forall k | k in t.active ensures k < t.nextMatch && MatchValid(t, t.active[k]) {
        assert MatchValid(s, s.active[k]);
      }
    }
    assert FlagsAgree(t);
  }

  // ------------------------------------------------------------------ the queue

  /**
   * /entrar: a player already in a match is refused, a full queue is reported,
   * otherwise the player is appended to the queue. Only the queue can change,
   * and it never grows beyond its capacity.
   */
  function Join(s: State, p: PlayerId): (o: Outcome)
    ensures Flagged(s, p) ==> o == Outcome(AlreadyInMatch, s)
    ensures !Flagged(s, p) && |s.queue| >= QueueCapacity ==> o == Outcome(QueueFull, s)
    ensures !Flagged(s, p) && |s.queue| < QueueCapacity ==> o == Outcome(QueueJoined, s.(queue := s.queue + [p]))
    ensures |s.queue| <= QueueCapacity ==> |o.next.queue| <= QueueCapacity
  {
    if Flagged(s, p) then Outcome(AlreadyInMatch, s)
    else if |s.queue| < QueueCapacity then Outcome(QueueJoined, s.(queue := s.queue + [p]))
    else Outcome(QueueFull, s)
  }

  /** A valid state stays valid when a connected player joins the queue. */
  lemma JoinPreservesValid(s: State, p: PlayerId)
    requires Valid(s) && p in s.registry
    ensures Valid(Join(s, p).next)
  {
    var t := Join(s, p).next;
    assert MatchesValid(t) by {
      forall k | k in t.active ensures k < t.nextMatch && MatchValid(t, t.active[k]) {
        assert MatchValid(s, s.active[k]);
      }
    }
  }

  // ------------------------------------------------------------------ broadcast

  /** The players a lobby chat line from `sender` goes to. */
  function LobbyRecipients(s: State, sender: PlayerId): set<PlayerId> {
    set q | q in s.registry && !Flagged(s, q) && q != sender
  }

  /**
   * transmitir, walking the registry as the server does: a player receives the
   * line exactly when it is registered, not in a match, and not the sender.
   */
  method Transmit(s: State, sender: PlayerId) returns (recipients: set<PlayerId>)
    ensures forall q :: q in recipients <==> q in s.registry && !Flagged(s, q) && q != sender
  {
    recipients := {};
    var todo := s.registry;
    while todo != {}
      invariant todo <= s.registry
      invariant forall q :: q in recipients <==> q in s.registry && q !in todo && !Flagged(s, q) && q != sender
      decreases todo
    {
      var q :| q in todo;
      var inMatch := q in s.players && s.players[q].inMatch;
      if !inMatch && q != sender {
        recipients := recipients + {q};
      }
      todo := todo - {q};
    }
  }

  // ----------------------------------------------------------------- disconnect

  /** The opponents of `p` in the active matches that involve it. */
  function OpponentsOf(active: map<MatchId, Match>, p: PlayerId): set<PlayerId> {
    set k | k in active && Involves(active[k], p) :: Opponent(active[k], p)
  }

  /**
   * removerJogador: `p` leaves the registry; every active match that involves
   * `p` is deleted and its opponent's flag cleared (and told); every other
   * match and player, the queue and the inventory are untouched. The leaving
   * player's own flag is not cleared.
   */
  function Disconnect(s: State, p: PlayerId): (o: Outcome)
    ensures o.reply == Left(OpponentsOf(s.active, p))
    ensures o.next.registry == s.registry - {p}
    ensures forall k :: k in o.next.active <==> k in s.active && !Involves(s.active[k], p)
    ensures forall k :: k in o.next.active ==> o.next.active[k] == s.active[k]
    ensures o.next.players.Keys == s.players.Keys
    ensures forall q :: q in s.players ==>
      o.next.players[q] == (if q in OpponentsOf(s.active, p) then s.players[q].(inMatch := false) else s.players[q])
    ensures o.next == s.(registry := o.next.registry, players := o.next.players, active := o.next.active)
  {
    var opponents := OpponentsOf(s.active, p);
    Outcome(Left(opponents),
            s.(registry := s.registry - {p},
               players := map q | q in s.players :: if q in opponents then s.players[q].(inMatch := false) else s.players[q],
               active := map k | k in s.active && !Involves(s.active[k], p) :: s.active[k]))
  }

  /** The opponents of `p` in the matches among `done`. */
  function OpponentsAmong(active: map<MatchId, Match>, p: PlayerId, done: set<MatchId>): set<PlayerId> {
    set k | k in active && k in done && Involves(active[k], p) :: Opponent(active[k], p)
  }

  /** Visiting one more match adds its opponent of `p`, if it involves `p`. */
  lemma OpponentsAmongStep(active: map<MatchId, Match>, p: PlayerId, done: set<MatchId>, mid: MatchId)
    requires mid in active
    ensures OpponentsAmong(active, p, done + {mid}) ==
      OpponentsAmong(active, p, done) + (if Involves(active[mid], p) then {Opponent(active[mid], p)} else {})
  {
  }

  /** Once every match is visited, the opponents found are all of `p`'s opponents. */
  lemma OpponentsAmongAll(active: map<MatchId, Match>, p: PlayerId)
    ensures OpponentsAmong(active, p, active.Keys) == OpponentsOf(active, p)
  {
  }

  /** `players` is `base` with the flags of exactly the players in `cleared` reset. */
  predicate FlagsCleared(players: map<PlayerId, Player>, base: map<PlayerId, Player>, cleared: set<PlayerId>) {
    && players.Keys == base.Keys
    && forall q :: q in players ==> players[q] == (if q in cleared then base[q].(inMatch := false) else base[q])
  }

  /** Resetting one more flag extends the set of cleared players by that one. */
  lemma FlagsClearedStep(players: map<PlayerId, Player>, base: map<PlayerId, Player>, cleared: set<PlayerId>, q: PlayerId)
    requires FlagsCleared(players, base, cleared)
    ensures FlagsCleared(SetFlag(players, q, false), base, cleared + {q})
  {
  }

  /** With all the opponents cleared, the player objects are those of Disconnect. */
  lemma FlagsClearedDisconnect(players: map<PlayerId, Player>, s: State, p: PlayerId)
    requires FlagsCleared(players, s.players, OpponentsOf(s.active, p))
    ensures players == Disconnect(s, p).next.players
  {
  }

  /**
   * The loop of removerJogador over the active matches, in whatever order the
   * map yields them: it computes exactly Disconnect.
   */
  method RemovePlayer(s: State, p: PlayerId) returns (o: Outcome)
    ensures o == Disconnect(s, p)
  {
    var players := s.players;
    var active := s.active;
    var opponents: set<PlayerId> := {};
    var todo := s.active.Keys;
    while todo != {}
      invariant todo <= s.active.Keys
      invariant forall k :: k in active <==> k in s.active && (k in todo || !Involves(s.active[k], p))
      invariant forall k :: k in active ==> active[k] == s.active[k]
      invariant opponents == OpponentsAmong(s.active, p, s.active.Keys - todo)
      invariant FlagsCleared(players, s.players, opponents)
      decreases todo
    {
      var mid :| mid in todo;
      OpponentsAmongStep(s.active, p, s.active.Keys - todo, mid);
      assert s.active.Keys - (todo - {mid}) == (s.active.Keys - todo) + {mid};
      var m := s.active[mid];
      if m.a == p || m.b == p {
        var opp := if m.a == p then m.b else m.a;
        assert opp == Opponent(m, p);
        FlagsClearedStep(players, s.players, opponents, opp);
        players := SetFlag(players, opp, false);
        opponents := opponents + {opp};
        active := active - {mid};
      }
      todo := todo - {mid};
    }
    OpponentsAmongAll(s.active, p);
    assert s.active.Keys - todo == s.active.Keys;
    FlagsClearedDisconnect(players, s, p);
    assert active == Disconnect(s, p).next.active;
    o := Outcome(Left(opponents), s.(registry := s.registry - {p}, players := players, active := active));
  }

  /**
   * Each connection runs the cleanup once. When one player of a match leaves
   * and later its opponent does, the opponent's cleanup finds no match left
   * to end and no one to notify.
   */
  lemma OpponentCleanupFindsNothing(s: State, k: MatchId)
    requires OneMatchPerPlayer(s.active) && k in s.active
    ensures var m := s.active[k];
      var t := Disconnect(s, m.a).next;
      && !InSomeMatch(t.active, m.b)
      && Disconnect(t, m.b).reply == Left({})
      && Disconnect(t, m.b).next.active == t.active
  {
    var m := s.active[k];
    var t := Disconnect(s, m.a).next;
    DisconnectEndsOnlyOwnMatch(s, m.a, k);
    forall j | j in t.active ensures !Involves(t.active[j], m.b) {
      assert j != k && t.active[j] == s.active[j];
    }
    assert OpponentsOf(t.active, m.b) == {};
    assert Disconnect(t, m.b).next.active == t.active;
  }

  /**
   * When no player is in two matches (as in every valid state), the cleanup
   * ends the one match `p` was in and notifies its opponent only.
   */
  lemma DisconnectEndsOnlyOwnMatch(s: State, p: PlayerId, k: MatchId)
    requires OneMatchPerPlayer(s.active) && k in s.active && Involves(s.active[k], p)
    ensures OpponentsOf(s.active, p) == {Opponent(s.active[k], p)}
    ensures Disconnect(s, p).next.active == s.active - {k}
  {
    var t := Disconnect(s, p).next;
    forall x | x in OpponentsOf(s.active, p) ensures x == Opponent(s.active[k], p) {
      var k' :| k' in s.active && Involves(s.active[k'], p) && x == Opponent(s.active[k'], p);
    }
    assert t.active == s.active - {k};
  }

  /** A valid state stays valid after a player's cleanup. */
  lemma DisconnectPreservesValid(s: State, p: PlayerId)
    requires Valid(s)
    ensures Valid(Disconnect(s, p).next)
  {
    var t := Disconnect(s, p).next;
    var opponents := OpponentsOf(s.active, p);
    assert PlayersValid(t);
    assert MatchesValid(t) by {
      forall k | k in t.active ensures k < t.nextMatch && MatchValid(t, t.active[k]) {
        assert MatchValid(s, s.active[k]);
      }
    }
    assert OneMatchPerPlayer(t.active) by {
      forall k1, k2, q | k1 in t.active && k2 in t.active && Involves(t.active[k1], q) && Involves(t.active[k2], q)
        ensures k1 == k2
      {
        assert Involves(s.active[k1], q) && Involves(s.active[k2], q);
      }
    }
    assert FlagsAgree(t) by {
      forall q | q in t.registry ensures t.players[q].inMatch <==> InSomeMatch(t.active, q) {
        DisconnectKeepsFlag(s, p, q);
      }
    }
  }

  /** After `p`'s cleanup another connected player's flag still tells whether it is in a match. */
  lemma DisconnectKeepsFlag(s: State, p: PlayerId, q: PlayerId)
    requires s.registry <= s.players.Keys && FlagsAgree(s) && OneMatchPerPlayer(s.active)
    requires q in s.registry && q != p
    ensures var t := Disconnect(s, p).next;
      t.players[q].inMatch <==> InSomeMatch(t.active, q)
  {
    var t := Disconnect(s, p).next;
    if q in OpponentsOf(s.active, p) {
      var k :| k in s.active && Involves(s.active[k], p) && q == Opponent(s.active[k], p);
      assert Involves(s.active[k], q);
      assert !t.players[q].inMatch;
      forall k' | k' in t.active ensures !Involves(t.active[k'], q) {
        assert k' in s.active && k' != k;
      }
    } else {
      assert t.players[q] == s.players[q];
      if InSomeMatch(s.active, q) {
        var k :| k in s.active && Involves(s.active[k], q);
        assert k in t.active;
      }
      if InSomeMatch(t.active, q) {
        var k :| k in t.active && Involves(t.active[k], q);
        assert k in s.active;
      }
    }
  }
}
