/**
 * The server's global state with its sockets, channels and locks taken away:
 * the player objects and the registry of connected players, the matchmaking
 * queue, the player the pairing loop is holding, the index of active matches,
 * the booster inventory and the sources of fresh ids. Every handler of the
 * server becomes one transition from a State to an Outcome, combining the
 * locked regions the handler runs one after another.
 */
module GameState {
  import opened Wrappers
  import opened Catalog

  /** Player ids are opaque and unique; the server derives them from the clock. */
  type PlayerId = nat
  type MatchId = nat

  /** Capacity of the buffered matchmaking channel. */
  const QueueCapacity: nat := 100
  /** Life each player starts a match with. */
  const StartingLife: int := 100

  /** A Jogador without its connection: display name and the EmPartida flag. */
  datatype Player = Player(name: string, inMatch: bool)

  datatype Side = SideA | SideB

  /**
   * A Partida: players A and B, the id of the player whose turn it is, and the
   * hand and life of each side.
   */
  datatype Match = Match(
    a: PlayerId, b: PlayerId, turn: PlayerId,
    handA: seq<CardId>, handB: seq<CardId>,
    lifeA: int, lifeB: int)

  /** A PacoteBooster; its contents are opaque to the game logic. */
  datatype Pack = Pack(id: string, cards: seq<string>)

  /**
   * `players` holds every player object ever created, because the queue and the
   * pairing loop keep pointing at a player after it leaves the registry;
   * `registry` holds the connected ones. `waiting` is the player the pairing
   * loop has taken from the queue and is trying to pair. Boosters are taken
   * from the end of `boosters`.
   */
  datatype State = State(
    players: map<PlayerId, Player>,
    registry: set<PlayerId>,
    queue: seq<PlayerId>,
    waiting: Option<PlayerId>,
    active: map<MatchId, Match>,
    boosters: seq<Pack>,
    nextPlayer: nat,
    nextMatch: nat)

  /** A decoded AcaoJogo: the action name and the card id (0 when absent). */
  datatype GameAction = GameAction(kind: string, cardId: int)

  /** What the server tells the player who caused a transition (the text itself is not modelled). */
  datatype Reply =
    | Welcome(id: PlayerId)
    | Ignored
    | NotInMatch
    | NotYourTurn
    | CardNotInHand
    | Played(card: CardId, damage: int, actorLife: int, opponentLife: int, won: bool)
    | TurnChanged(turn: PlayerId)
    | HandShown(hand: seq<CardId>)
    | CatalogListed
    | AlreadyInMatch
    | QueueJoined
    | QueueFull
    | LeaveNotImplemented
    | PlayUsage
    | InvalidCardId
    | NoBoosters
    | BoosterOpened(pack: Pack)
    | ServerTime
    | UnknownCommand
    | InvalidAction
    | Chatted(recipients: set<PlayerId>)
    | Left(notified: set<PlayerId>)
    | Idle
    | Taken(first: PlayerId)
    | Requeued(player: PlayerId)
    | Dropped(player: PlayerId)
    | Paired(id: MatchId)

  datatype Outcome = Outcome(reply: Reply, next: State)

  /** The state the server starts in: no players, no matches, the given inventory. */
  function Initial(boosters: seq<Pack>): State {
    State(map[], {}, [], None, map[], boosters, 0, 0)
  }

  // ------------------------------------------------------------ match helpers

  predicate Involves(m: Match, p: PlayerId) {
    m.a == p || m.b == p
  }

  /** The side `p` plays on; the server treats anyone who is not A as B. */
  function SideOf(m: Match, p: PlayerId): Side {
    if m.a == p then SideA else SideB
  }

  function Other(side: Side): Side {
    if side == SideA then SideB else SideA
  }

  function PlayerOn(m: Match, side: Side): PlayerId {
    if side == SideA then m.a else m.b
  }

  /** The opponent of `p`, chosen as the server does: B if `p` is A, A otherwise. */
  function Opponent(m: Match, p: PlayerId): PlayerId {
    PlayerOn(m, Other(SideOf(m, p)))
  }

  function Hand(m: Match, side: Side): seq<CardId> {
    if side == SideA then m.handA else m.handB
  }

  function Life(m: Match, side: Side): int {
    if side == SideA then m.lifeA else m.lifeB
  }

  function WithHand(m: Match, side: Side, h: seq<CardId>): Match {
    if side == SideA then m.(handA := h) else m.(handB := h)
  }

  function WithLife(m: Match, side: Side, l: int): Match {
    if side == SideA then m.(lifeA := l) else m.(lifeB := l)
  }

  // ----------------------------------------------------------- player helpers

  /** The EmPartida flag of `q` (false for an id with no player object). */
  predicate Flagged(s: State, q: PlayerId) {
    q in s.players && s.players[q].inMatch
  }

  /** Sets the EmPartida flag of `q`, if `q` has a player object. */
  function SetFlag(players: map<PlayerId, Player>, q: PlayerId, v: bool): map<PlayerId, Player> {
    if q in players then players[q := players[q].(inMatch := v)] else players
  }

  // ------------------------------------------------------------- match lookup

  /** Scans match ids k .. bound-1 for the first active match that involves `p`. */
  function FindFrom(active: map<MatchId, Match>, p: PlayerId, k: nat, bound: nat): (r: Option<MatchId>)
    ensures r.Some? ==> r.value in active && Involves(active[r.value], p) && k <= r.value < bound
    ensures r.None? ==> forall id :: k <= id < bound && id in active ==> !Involves(active[id], p)
    decreases bound - k
  {
    if k >= bound then None
    else if k in active && Involves(active[k], p) then Some(k)
    else FindFrom(active, p, k + 1, bound)
  }

  /**
   * encontrarPartidaPorJogador: an active match that involves `p`, or None.
   * The server walks the map in random order; the scan here goes by ascending
   * id, which finds the same match because a player is in at most one
   * (FindMatchUnique).
   */
  function FindMatch(s: State, p: PlayerId): (r: Option<MatchId>)
    ensures r.Some? ==> r.value in s.active && Involves(s.active[r.value], p)
    ensures r.None? ==> forall id :: id in s.active && id < s.nextMatch ==> !Involves(s.active[id], p)
  {
    FindFrom(s.active, p, 0, s.nextMatch)
  }

  // ---------------------------------------------------------------- invariant

  predicate HandValid(h: seq<CardId>) {
    Distinct(h) && forall k :: 0 <= k < |h| ==> InCatalog(h[k])
  }

  /** A match between two connected, different players, one of whom holds the turn, both alive. */
  predicate MatchValid(s: State, m: Match) {
    && m.a != m.b
    && m.a in s.registry && m.b in s.registry
    && (m.turn == m.a || m.turn == m.b)
    && 0 < m.lifeA <= StartingLife && 0 < m.lifeB <= StartingLife
    && HandValid(m.handA) && HandValid(m.handB)
  }

  ghost predicate InSomeMatch(active: map<MatchId, Match>, q: PlayerId) {
    exists k :: k in active && Involves(active[k], q)
  }

  ghost predicate OneMatchPerPlayer(active: map<MatchId, Match>) {
    forall k1, k2, q :: k1 in active && k2 in active && Involves(active[k1], q) && Involves(active[k2], q) ==> k1 == k2
  }

  /** Every player id is below the id counter and every registered or queued id has a player object. */
  ghost predicate PlayersValid(s: State) {
    && s.registry <= s.players.Keys
    && (forall q :: q in s.players ==> q < s.nextPlayer)
    && (forall i :: 0 <= i < |s.queue| ==> s.queue[i] in s.players)
    && |s.queue| <= QueueCapacity
    && (s.waiting.Some? ==> s.waiting.value in s.players)
  }

  /** Every active match has an id below the match counter and is well formed. */
  ghost predicate MatchesValid(s: State) {
    forall k :: k in s.active ==> k < s.nextMatch && MatchValid(s, s.active[k])
  }

  /** A connected player's EmPartida flag is set exactly when it is in an active match. */
  ghost predicate FlagsAgree(s: State)
    requires s.registry <= s.players.Keys
  {
    forall q :: q in s.registry ==> (s.players[q].inMatch <==> InSomeMatch(s.active, q))
  }

  /**
   * What every reachable state satisfies: ids below their counters, the queue
   * within its capacity, every active match well formed, no player in two
   * matches, and a connected player's EmPartida flag set exactly when it is
   * in a match.
   */
  ghost predicate Valid(s: State) {
    && PlayersValid(s)
    && MatchesValid(s)
    && OneMatchPerPlayer(s.active)
    && FlagsAgree(s)
  }

  /** The server starts in a valid state. */
  lemma InitialValid(boosters: seq<Pack>)
    ensures Valid(Initial(boosters))
  {
  }

  /** In a valid state the lookup finds the one match the player is in, whatever order it scans in. */
  lemma FindMatchUnique(s: State, p: PlayerId, k: MatchId)
    requires Valid(s)
    requires k in s.active && Involves(s.active[k], p)
    ensures FindMatch(s, p) == Some(k)
  {
    var r := FindMatch(s, p);
    assert k < s.nextMatch;
    assert r.Some?;
  }

  /** Every active id lies below the match counter, so the scan sees every active match. */
  lemma FindMatchSeesEveryMatch(s: State, p: PlayerId)
    requires MatchesValid(s)
    ensures FindMatch(s, p).None? <==> !InSomeMatch(s.active, p)
  {
  }

  /** In a valid state a player is found in a match exactly when its flag is set (connected players). */
  lemma FindMatchAgreesWithFlag(s: State, p: PlayerId)
    requires Valid(s) && p in s.registry
    ensures FindMatch(s, p).Some? <==> s.players[p].inMatch
  {
    if s.players[p].inMatch {
      var k :| k in s.active && Involves(s.active[k], p);
      FindMatchUnique(s, p, k);
    }
  }

  /** Replacing a match by a well-formed one between the same two players keeps a state valid. */
  lemma ReplaceMatchPreservesValid(s: State, mid: MatchId, m': Match)
    requires Valid(s) && mid in s.active
    requires m'.a == s.active[mid].a && m'.b == s.active[mid].b
    requires MatchValid(s, m')
    ensures Valid(s.(active := s.active[mid := m']))
  {
    var t := s.(active := s.active[mid := m']);
    assert PlayersValid(t);
    assert MatchesValid(t) by {
      forall k | k in t.active ensures k < t.nextMatch && MatchValid(t, t.active[k]) {
        if k != mid {
          assert MatchValid(s, s.active[k]);
        }
      }
    }
    assert OneMatchPerPlayer(t.active) by {
      forall k1, k2, q | k1 in t.active && k2 in t.active && Involves(t.active[k1], q) && Involves(t.active[k2], q)
        ensures k1 == k2
      {
        assert Involves(s.active[k1], q) && Involves(s.active[k2], q);
      }
    }
    assert FlagsAgree(t) by {
      forall q | q in t.registry ensures t.players[q].inMatch <==> InSomeMatch(t.active, q) {
        SameMembership(s.active, t.active, q);
      }
    }
  }

  /** A match ends: it leaves the index and both its players' EmPartida flags are cleared. */
  function EndMatch(s: State, mid: MatchId): (t: State)
    requires mid in s.active
    ensures t.active == s.active - {mid}
    ensures t.players.Keys == s.players.Keys
    ensures forall q :: q in s.players ==>
      t.players[q] == (if Involves(s.active[mid], q) then s.players[q].(inMatch := false) else s.players[q])
    ensures t == s.(players := t.players, active := t.active)
  {
    var m := s.active[mid];
    s.(players := SetFlag(SetFlag(s.players, m.a, false), m.b, false), active := s.active - {mid})
  }

  /** After a match ends, a connected player's flag still says whether it is in a match. */
  lemma EndMatchKeepsFlag(s: State, mid: MatchId, q: PlayerId)
    requires s.registry <= s.players.Keys && FlagsAgree(s) && OneMatchPerPlayer(s.active)
    requires mid in s.active && q in s.registry
    ensures EndMatch(s, mid).players[q].inMatch <==> InSomeMatch(EndMatch(s, mid).active, q)
  {
    var t := EndMatch(s, mid);
    if Involves(s.active[mid], q) {
      forall k | k in t.active ensures !Involves(t.active[k], q) {
        assert k in s.active && k != mid;
      }
    } else if InSomeMatch(s.active, q) {
      var k :| k in s.active && Involves(s.active[k], q);
      assert k in t.active;
    }
  }

  /** Ending a match keeps a state valid. */
  lemma EndMatchPreservesValid(s: State, mid: MatchId)
    requires Valid(s) && mid in s.active
    ensures Valid(EndMatch(s, mid))
  {
    var t := EndMatch(s, mid);
    assert PlayersValid(t);
    assert MatchesValid(t) by {
      forall k | k in t.active ensures k < t.nextMatch && MatchValid(t, t.active[k]) {
        assert MatchValid(s, s.active[k]);
      }
    }
    assert OneMatchPerPlayer(t.active);
    forall q | q in t.registry ensures t.players[q].inMatch <==> InSomeMatch(t.active, q) {
      EndMatchKeepsFlag(s, mid, q);
    }
  }

  /** Two match indexes with the same ids and the same players per id place a player alike. */
  lemma SameMembership(active: map<MatchId, Match>, active': map<MatchId, Match>, q: PlayerId)
    requires active.Keys == active'.Keys
    requires forall k :: k in active ==> active[k].a == active'[k].a && active[k].b == active'[k].b
    ensures InSomeMatch(active, q) <==> InSomeMatch(active', q)
  {
    if InSomeMatch(active, q) {
      var k :| k in active && Involves(active[k], q);
      assert Involves(active'[k], q);
    }
    if InSomeMatch(active', q) {
      var k :| k in active' && Involves(active'[k], q);
      assert Involves(active[k], q);
    }
  }

  /** The scan depends only on which players each match id holds, not on turns, hands or lives. */
  lemma {:induction false} FindFromSamePlayers(active: map<MatchId, Match>, active': map<MatchId, Match>, p: PlayerId, k: nat, bound: nat)
    requires active.Keys == active'.Keys
    requires forall j :: j in active ==> active[j].a == active'[j].a && active[j].b == active'[j].b
    ensures FindFrom(active, p, k, bound) == FindFrom(active', p, k, bound)
    decreases bound - k
  {
    if k < bound && !(k in active && Involves(active[k], p)) {
      FindFromSamePlayers(active, active', p, k + 1, bound);
    }
  }
}
