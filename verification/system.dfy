/**
 * The whole server as one transition system. Each event is one handler of
 * its goroutines run as a single step: a connection arriving with its first
 * line, a line read from a connected player, a connection closing, and the
 * three moves of the matchmaking loop. A run is a sequence of these events,
 * so a handler whose locked regions another goroutine could interleave with
 * is taken to run without such interleaving.
 */
module GameServer {
  import opened Wrappers
  import opened GameState
  import Lobby
  import Matchmaking
  import Relay
  import Catalog
  import Protocol
  import Session

  datatype Event =
    | Arrive(firstLine: string)
    | Line(player: PlayerId, raw: string, decoded: Option<GameAction>)
    | Leave(player: PlayerId)
    | TakeFirst
    | Pair(picksA: seq<nat>, picksB: seq<nat>)
    | Timeout

  /**
   * One event. Lines and closings only come from connected players: an event
   * naming anyone else changes nothing. The pairing move is the one that
   * checks both players are still connected.
   */
  function Step(s: State, e: Event): (o: Outcome)
    ensures e.Line? && e.player !in s.registry ==> o == Outcome(Idle, s)
    ensures e.Leave? && e.player !in s.registry ==> o == Outcome(Idle, s)
    ensures e.Pair? && o.reply.Paired? ==>
      s.waiting.Some? && |s.queue| > 0 && s.waiting.value in o.next.registry && s.queue[0] in o.next.registry
  {
    match e
    case Arrive(firstLine) => Lobby.Connect(s, firstLine)
    case Line(p, raw, decoded) =>
      if p in s.registry then Relay.HandleLine(s, p, raw, decoded) else Outcome(Idle, s)
    case Leave(p) =>
      if p in s.registry then Lobby.Disconnect(s, p) else Outcome(Idle, s)
    case TakeFirst => Matchmaking.TakeFirst(s)
    case Pair(picksA, picksB) => Matchmaking.PairStep(s, picksA, picksB)
    case Timeout => Matchmaking.Timeout(s)
  }

  /** The state after a sequence of events. */
  function Run(s: State, events: seq<Event>): State
    decreases |events|
  {
    if |events| == 0 then s else Run(Step(s, events[0]).next, events[1..])
  }

  /** Every event keeps a valid state valid. */
  lemma StepPreservesValid(s: State, e: Event)
    requires Valid(s)
    ensures Valid(Step(s, e).next)
  {
    match e
    case Arrive(firstLine) => Lobby.ConnectPreservesValid(s, firstLine);
    case Line(p, raw, decoded) =>
      if p in s.registry {
        Relay.HandleLinePreservesValid(s, p, raw, decoded);
      }
    case Leave(p) => Lobby.DisconnectPreservesValid(s, p);
    case TakeFirst => Matchmaking.TakeFirstPreservesValid(s);
    case Pair(picksA, picksB) => Matchmaking.PairStepPreservesValid(s, picksA, picksB);
    case Timeout => Matchmaking.TimeoutPreservesValid(s);
  }

  /** A valid state stays valid through any sequence of events. */
  lemma {:induction false} RunPreservesValid(s: State, events: seq<Event>)
    requires Valid(s)
    ensures Valid(Run(s, events))
    decreases |events|
  {
    if |events| > 0 {
      StepPreservesValid(s, events[0]);
      RunPreservesValid(Step(s, events[0]).next, events[1..]);
    }
  }

  /**
   * Every state the server reaches from its start is valid. In particular no
   * player is in two matches, a connected player's EmPartida flag is set
   * exactly when it is in a match, and the lookup of a connected player's
   * match agrees with that flag.
   */
  lemma ReachableStatesAreValid(boosters: seq<Pack>, events: seq<Event>, p: PlayerId)
    ensures Valid(Run(Initial(boosters), events))
    ensures var s := Run(Initial(boosters), events);
      p in s.registry ==> (FindMatch(s, p).Some? <==> s.players[p].inMatch)
  {
    InitialValid(boosters);
    RunPreservesValid(Initial(boosters), events);
    var s := Run(Initial(boosters), events);
    if p in s.registry {
      FindMatchAgreesWithFlag(s, p);
    }
  }

  // ------------------------------------------------------------ a first game

  /** A line the read loop hands to tratarComando as command `c`. */
  predicate Typed(line: string, c: Protocol.Command) {
    Protocol.ClassifyLine(line).CommandLine? && Protocol.ParseCommand(Protocol.ClassifyLine(line).text) == c
  }

  /** The lines a client types for /entrar and /mao are read as those commands. */
  lemma TypedCommands()
    ensures Typed("/entrar", Protocol.JoinQueue) && Typed("/mao", Protocol.ShowHand)
  {
    Protocol.ClassifyRender(Protocol.JoinQueue);
    Protocol.ClassifyRender(Protocol.ShowHand);
  }

  /** A connected player typing a command line runs that command, whatever else the line holds. */
  lemma TypedLineRunsCommand(s: State, p: PlayerId, line: string, c: Protocol.Command)
    requires p in s.registry && Typed(line, c)
    ensures Step(s, Line(p, line, None)) == Relay.RunCommand(s, p, c)
  {
  }

  /** A client connects, sends its name as the first line, and then types /entrar. */
  function ArrivedAndJoined(s: State, name: string): State {
    Lobby.Join(Lobby.Connect(s, name).next, s.nextPlayer).next
  }

  /** The new player gets the next id, is connected, and is last in the queue; no match changes. */
  lemma ArrivedAndJoinedFacts(s: State, name: string)
    requires |s.queue| < QueueCapacity
    ensures var t := ArrivedAndJoined(s, name);
      && t.queue == s.queue + [s.nextPlayer] && t.waiting == s.waiting
      && t.registry == s.registry + {s.nextPlayer} && t.nextPlayer == s.nextPlayer + 1
      && t.active == s.active && t.nextMatch == s.nextMatch
  {
  }

  /** The new player is not in a match, and no other player's EmPartida flag changes. */
  lemma ArrivedAndJoinedFlag(s: State, name: string, q: PlayerId)
    ensures Flagged(ArrivedAndJoined(s, name), q) <==> q != s.nextPlayer && Flagged(s, q)
  {
  }

  /** A client connecting and joining keeps a valid state valid. */
  lemma ArrivedAndJoinedValid(s: State, name: string)
    requires Valid(s)
    ensures Valid(ArrivedAndJoined(s, name))
  {
    Lobby.ConnectPreservesValid(s, name);
    Lobby.JoinPreservesValid(Lobby.Connect(s, name).next, s.nextPlayer);
  }

  /** The state once two clients have connected and typed /entrar, and the loop has taken the first. */
  function BothQueued(s0: State, nameA: string, nameB: string): State {
    Matchmaking.TakeFirst(ArrivedAndJoined(ArrivedAndJoined(s0, nameA), nameB)).next
  }

  /**
   * Two clients connect and type /entrar one after the other; the loop takes
   * the first and pairs it with the second.
   */
  function PairedUp(s0: State, nameA: string, nameB: string, picksA: seq<nat>, picksB: seq<nat>): Outcome {
    Matchmaking.PairStep(BothQueued(s0, nameA, nameB), picksA, picksB)
  }

  /** After two clients have joined an empty queue, they are queued in order and no match has changed. */
  lemma TwoJoinedQueue(s0: State, nameA: string, nameB: string)
    requires s0.queue == []
    ensures var s := ArrivedAndJoined(ArrivedAndJoined(s0, nameA), nameB);
      && s.waiting == s0.waiting
      && |s.queue| == 2 && s.queue[0] == s0.nextPlayer && s.queue[1] == s0.nextPlayer + 1
      && s.active == s0.active && s.nextMatch == s0.nextMatch
  {
    var a := s0.nextPlayer;
    var s1 := ArrivedAndJoined(s0, nameA);
    ArrivedAndJoinedFacts(s0, nameA);
    assert |s1.queue| == 1 && s1.queue[0] == a && s1.nextPlayer == a + 1;
    ArrivedAndJoinedFacts(s1, nameB);
  }

  /** After two clients have joined, both are connected and neither is in a match. */
  lemma TwoJoinedFree(s0: State, nameA: string, nameB: string)
    requires s0.queue == []
    ensures var a := s0.nextPlayer;
      var s := ArrivedAndJoined(ArrivedAndJoined(s0, nameA), nameB);
      && a in s.registry && a + 1 in s.registry && !Flagged(s, a) && !Flagged(s, a + 1)
  {
    var a := s0.nextPlayer;
    var s1 := ArrivedAndJoined(s0, nameA);
    ArrivedAndJoinedFacts(s0, nameA);
    assert a in s1.registry && s1.nextPlayer == a + 1;
    ArrivedAndJoinedFacts(s1, nameB);
    ArrivedAndJoinedFlag(s0, nameA, a);
    ArrivedAndJoinedFlag(s1, nameB, a);
    ArrivedAndJoinedFlag(s1, nameB, a + 1);
  }

  /** Two clients joining keep a valid state valid. */
  lemma TwoJoinedValid(s0: State, nameA: string, nameB: string)
    requires Valid(s0)
    ensures Valid(ArrivedAndJoined(ArrivedAndJoined(s0, nameA), nameB))
  {
    ArrivedAndJoinedValid(s0, nameA);
    ArrivedAndJoinedValid(ArrivedAndJoined(s0, nameA), nameB);
  }

  /** The first player is held by the loop and the second is alone in the queue, both connected and free. */
  lemma BothQueuedFacts(s0: State, nameA: string, nameB: string)
    requires Valid(s0) && s0.waiting.None? && s0.queue == []
    ensures var a := s0.nextPlayer;
      var s := BothQueued(s0, nameA, nameB);
      && Valid(s) && s.waiting == Some(a) && s.queue == [a + 1]
      && a in s.registry && a + 1 in s.registry && !Flagged(s, a) && !Flagged(s, a + 1)
      && s.active == s0.active && s.nextMatch == s0.nextMatch
  {
    var s2 := ArrivedAndJoined(ArrivedAndJoined(s0, nameA), nameB);
    TwoJoinedQueue(s0, nameA, nameB);
    TwoJoinedFree(s0, nameA, nameB);
    TwoJoinedValid(s0, nameA, nameB);
    Matchmaking.TakeFirstPreservesValid(s2);
  }

  /**
   * From an idle lobby, two players who join one after the other get a match:
   * the first holds the turn, both have 100 lives and five distinct catalog
   * cards, both are flagged as in a match, and the queue is empty again.
   */
  lemma TwoPlayersArePaired(s0: State, nameA: string, nameB: string, picksA: seq<nat>, picksB: seq<nat>)
    requires Valid(s0) && s0.waiting.None? && s0.queue == []
    ensures var a := s0.nextPlayer;
      var o := PairedUp(s0, nameA, nameB, picksA, picksB);
      && o.reply == Paired(s0.nextMatch)
      && o.next.active == s0.active[s0.nextMatch := Matchmaking.NewMatch(a, a + 1, picksA, picksB)]
      && o.next.active[s0.nextMatch].turn == a
      && o.next.active[s0.nextMatch].lifeA == StartingLife && o.next.active[s0.nextMatch].lifeB == StartingLife
      && |o.next.active[s0.nextMatch].handA| == Catalog.HandSize
      && |o.next.active[s0.nextMatch].handB| == Catalog.HandSize
      && Flagged(o.next, a) && Flagged(o.next, a + 1)
      && o.next.queue == [] && o.next.waiting.None?
      && Valid(o.next)
  {
    BothQueuedFacts(s0, nameA, nameB);
    Matchmaking.PairStepOfFreePlayers(BothQueued(s0, nameA, nameB), picksA, picksB);
  }

  /** Right after the pairing, /mao shows each player the hand it was dealt. */
  lemma PairedPlayersSeeTheirHands(s0: State, nameA: string, nameB: string, picksA: seq<nat>, picksB: seq<nat>)
    requires Valid(s0) && s0.waiting.None? && s0.queue == []
    ensures var a := s0.nextPlayer;
      var t := PairedUp(s0, nameA, nameB, picksA, picksB).next;
      var m := Matchmaking.NewMatch(a, a + 1, picksA, picksB);
      && Session.ShowHand(t, a) == Outcome(HandShown(m.handA), t)
      && Session.ShowHand(t, a + 1) == Outcome(HandShown(m.handB), t)
  {
    var a := s0.nextPlayer;
    var t := PairedUp(s0, nameA, nameB, picksA, picksB).next;
    TwoPlayersArePaired(s0, nameA, nameB, picksA, picksB);
    Session.ShowHandOfMatchedPlayer(t, a, s0.nextMatch);
    Session.ShowHandOfMatchedPlayer(t, a + 1, s0.nextMatch);
  }

  /** The first game from the server's start: the first two players to join are paired in match 0. */
  lemma FirstGameFromStart(boosters: seq<Pack>, nameA: string, nameB: string, picksA: seq<nat>, picksB: seq<nat>)
    ensures var o := PairedUp(Initial(boosters), nameA, nameB, picksA, picksB);
      && o.reply == Paired(0)
      && o.next.active == map[0 := Matchmaking.NewMatch(0, 1, picksA, picksB)]
  {
    InitialValid(boosters);
    TwoPlayersArePaired(Initial(boosters), nameA, nameB, picksA, picksB);
  }
}
