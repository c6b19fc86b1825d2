/**
 * What the server does with one line from a connected player: the slash
 * commands of tratarComando, the JSON actions of tratarAcao, and lobby chat.
 */
module Relay {
  import opened Wrappers
  import opened GameState
  import opened Session
  import opened Protocol
  import Lobby

  /**
   * tratarComando after the switch has picked a branch. Only /entrar touches
   * the queue, only /jogar the players and matches, only /booster the
   * inventory; no command connects or disconnects anyone or creates a match.
   */
  function RunCommand(s: State, p: PlayerId, c: Command): (o: Outcome)
    ensures o.next == s.(queue := o.next.queue, players := o.next.players, active := o.next.active, boosters := o.next.boosters)
    ensures !c.JoinQueue? ==> o.next.queue == s.queue
    ensures !c.Play? ==> o.next.players == s.players && o.next.active == s.active
    ensures !c.DrawBooster? ==> o.next.boosters == s.boosters
    ensures c == JoinQueue ==> o == Lobby.Join(s, p)
    ensures c.Play? ==> o == PlayCard(s, p, c.card)
    ensures c == ShowHand ==> o == Session.ShowHand(s, p)
    ensures c == DrawBooster ==> o == TakeBooster(s)
    ensures c == BadCardId ==> o == Outcome(InvalidCardId, s)
    ensures c == Unknown ==> o == Outcome(UnknownCommand, s)
  {
    match c
    case JoinQueue => Lobby.Join(s, p)
    case LeaveQueue => Outcome(LeaveNotImplemented, s)
    case ShowHand => Session.ShowHand(s, p)
    case ListCards => Outcome(CatalogListed, s)
    case Play(n) => HandleAction(s, p, GameAction("jogar_carta", n))
    case PlayUsage => Outcome(Reply.PlayUsage, s)
    case BadCardId => Outcome(InvalidCardId, s)
    case DrawBooster => TakeBooster(s)
    case Ping => Outcome(ServerTime, s)
    case Unknown => Outcome(UnknownCommand, s)
  }

  /**
   * One line of lidarConexao's read loop from player `p`. `decoded` is what
   * json.Unmarshal makes of a line that starts with '{' (None when it fails).
   * A chat line goes to every connected player outside a match except the
   * sender and changes nothing.
   */
  function HandleLine(s: State, p: PlayerId, raw: string, decoded: Option<GameAction>): (o: Outcome)
    ensures o.next == s.(queue := o.next.queue, players := o.next.players, active := o.next.active, boosters := o.next.boosters)
    ensures ClassifyLine(raw) == Skip ==> o == Outcome(Idle, s)
    ensures ClassifyLine(raw).CommandLine? ==> o == RunCommand(s, p, ParseCommand(ClassifyLine(raw).text))
    ensures ClassifyLine(raw).Structured? && decoded.None? ==> o == Outcome(InvalidAction, s)
    ensures ClassifyLine(raw).Structured? && decoded.Some? ==> o == HandleAction(s, p, decoded.value)
    ensures ClassifyLine(raw).Chat? ==> o.next == s && o.reply.Chatted?
    ensures ClassifyLine(raw).Chat? ==>
      forall q :: q in o.reply.recipients <==> q in s.registry && !Flagged(s, q) && q != p
  {
    match ClassifyLine(raw)
    case Skip => Outcome(Idle, s)
    case CommandLine(line) => RunCommand(s, p, ParseCommand(line))
    case Structured(_) =>
      if decoded.None? then Outcome(InvalidAction, s) else HandleAction(s, p, decoded.value)
    case Chat(_) => Outcome(Chatted(Lobby.LobbyRecipients(s, p)), s)
  }

  /** A decoded action keeps a valid state valid. */
  lemma HandleActionPreservesValid(s: State, p: PlayerId, act: GameAction)
    requires Valid(s)
    ensures Valid(HandleAction(s, p, act).next)
  {
    if act.kind == "jogar_carta" {
      PlayCardPreservesValid(s, p, act.cardId);
    } else if act.kind == "fim_turno" {
      EndTurnPreservesValid(s, p);
    }
  }

  /** Any command from a connected player keeps a valid state valid. */
  lemma RunCommandPreservesValid(s: State, p: PlayerId, c: Command)
    requires Valid(s) && p in s.registry
    ensures Valid(RunCommand(s, p, c).next)
  {
    match c
    case JoinQueue => Lobby.JoinPreservesValid(s, p);
    case Play(n) => PlayCardPreservesValid(s, p, n);
    case DrawBooster => TakeBoosterPreservesValid(s);
    case _ =>
  }

  /** Any line from a connected player keeps a valid state valid. */
  lemma HandleLinePreservesValid(s: State, p: PlayerId, raw: string, decoded: Option<GameAction>)
    requires Valid(s) && p in s.registry
    ensures Valid(HandleLine(s, p, raw, decoded).next)
  {
    match ClassifyLine(raw)
    case Skip =>
    case CommandLine(line) => RunCommandPreservesValid(s, p, ParseCommand(line));
    case Structured(_) =>
      if decoded.Some? {
        HandleActionPreservesValid(s, p, decoded.value);
      }
    case Chat(_) =>
  }

  /**
   * Typing "/jogar <id>" and sending the JSON action {"acao":"jogar_carta",
   * "carta_id":<id>} have the same effect.
   */
  lemma PlayCommandMatchesAction(s: State, p: PlayerId, pre: string, card: int, post: string)
    requires Renderable(Play(card)) && Text.AllSpace(pre) && Text.AllSpace(post)
    ensures HandleLine(s, p, pre + Render(Play(card)) + post, None) == HandleAction(s, p, GameAction("jogar_carta", card))
  {
    ClassifyPaddedRender(pre, Play(card), post);
  }
}
