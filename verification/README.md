# Card-battle session server: a Dafny model of its game core

The server lets players connect over TCP with a display name, chat in a
lobby, and join a matchmaking queue. A pairing loop turns two queued
players into a match. Within a match the players take turns playing cards
from a five-card hand. A card's damage depends on its rarity tier. A match
ends when one player's life reaches zero or when a player disconnects. A
shared inventory of booster packs can be drawn from with `/booster`.

The model removes the sockets, goroutines, channels and mutexes. What is
left is one immutable `State` and one pure transition per handler of the
server. A transition combines all the locked regions that handler runs one
after another, as if no other goroutine ran in between. Each transition
returns an `Outcome`: a `Reply` standing for the message sent back, and the
next `State`. The state holds:

- every player object ever created (`players`), including the EmPartida
  flag;
- the set of connected players (`registry`);
- the matchmaking queue, bounded at 100;
- the player the pairing loop is holding (`waiting`);
- the active matches by id;
- the booster stack;
- counters for fresh player and match ids.

Player objects outlive their registration. The queue and the pairing loop
keep pointing at a player after it disconnects, and that is what the
finding below is about.

| file | module | what it models |
|---|---|---|
| `wrappers.dfy` | `Wrappers` | `Option` |
| `text.dfy` | `Text` | the parts of Go's `strings` and `strconv` the server uses: `TrimSpace`, `HasPrefix`, `Contains`, `Split`, `Atoi`, `%d` formatting |
| `catalog.dfy` | `Catalog` | the 20-card catalog, the damage rule, hand dealing |
| `state.dfy` | `GameState` | the global state, match lookup, and the invariant `Valid` |
| `session.dfy` | `Session` | playing a card, ending the turn, showing the hand, taking a booster |
| `lobby.dfy` | `Lobby` | registration with a display name, `/entrar`, the chat broadcast, disconnect cleanup |
| `pairing.dfy` | `Matchmaking` | the matchmaking loop and match creation, plus the finding |
| `protocol.dfy` | `Protocol` | line classification and the slash-command parser |
| `relay.dfy` | `Relay` | what one line from a player does |
| `system.dfy` | `GameServer` | the whole server as events over `State`, and the theorem that every reachable state is valid |

The invariant `Valid` has four parts:

- Every id is below its counter, and the queue is within capacity.
- Every active match is between two different connected players, one of them holds the turn, both lives are in 1..100, and both hands hold distinct catalog cards.
- No player is in two matches.
- A connected player's EmPartida flag is set exactly when the player is in a match.

`GameServer.ReachableStatesAreValid` proves that every state reachable from
the start state through any sequence of events satisfies `Valid`.
`GameServer.TwoPlayersArePaired` and `GameServer.PairedPlayersSeeTheirHands`
follow the ordinary path through the server: two clients connect and type
`/entrar`, the loop pairs them in a fresh match with 100 lives each and
five-card hands, and `/mao` then shows each player the hand it was dealt.

Randomness in hand dealing is an index oracle `picks: seq<nat>`. Choice
number i is `picks[i] % |pool|`. `Catalog.DealReachesEveryHand` shows that no
hand is lost by this: every hand of distinct catalog cards is produced by
some oracle. The JSON decoder's result enters as a parameter of type
`Option<GameAction>`. Packs are opaque values.

### Where the code departs from the documented design

The model follows the code in each case.

- The JSON action names are `jogar_carta` and `fim_turno`. There is no
  booster action, so any other action name is ignored silently.
- `/booster` only reports the pack it takes. It does not add the pack's
  cards to any hand.
- Ending the turn is not gated on holding the turn. Any player of the match
  toggles it (`Session.EndTurn`).
- Chat from a player in a match is not relayed to the opponent. Every chat
  line goes through the lobby broadcast, which skips players in matches, so
  it reaches only players outside matches.
- The help text advertises `/fim`, but no command handles it. It is an
  unknown command (`Protocol.ParseCommand`).

## Model

| member | source | states |
|---|---|---|
| Catalog.LabelInName | cmd/server/main.go:104-115 | the name the catalog gives card `id` contains the label of its tier (Rara for 1-5, Incomum for 6-10, Comum for 11-20) |
| Catalog.DamageByTier | cmd/server/main.go:467-475 | the name-matching damage rule gives 30 for ids 1-5, 20 for 6-10, 10 for 11-20, and 10 for any id outside the catalog; it equals the tier's damage for every catalog card |
| Catalog.DamagePositive | cmd/server/main.go:467-475 | damage is total and always between 10 and 30 |
| Catalog.RemoveAt | cmd/server/main.go:400 | removing position i by joining the slices before and after it leaves a sequence one shorter that keeps every other element, in order; the play at main.go:508 removes a card from the hand the same way |
| Catalog.RemoveAtMultiset | cmd/server/main.go:400 | such a removal takes out exactly one copy of the removed element and nothing else |
| Catalog.IndexOf | cmd/server/main.go:495-501 | the search over a hand stops at the first position holding the card |
| Catalog.DealFrom | cmd/server/main.go:389-406 | the dealing loop takes min(qtd, pool size) cards, each from the pool, without repeating a card of a pool of distinct cards, whatever the random choices |
| Catalog.DealHand | cmd/server/main.go:389-406 | a dealt hand has exactly 5 distinct cards, all in the catalog |
| Catalog.DealReachesEveryHand | cmd/server/main.go:389-406 | every hand of distinct pool cards is dealt by some sequence of random choices, so the oracle loses no behaviour |
| GameState.FindMatch | cmd/server/main.go:569-578 | a found match is active and involves the player; when none is found, no active match with an id below the match counter involves the player, which in a valid state (every active id is below the counter) means no active match at all |
| GameState.FindMatchSeesEveryMatch | cmd/server/main.go:569-578 | when every active id is below the match counter, the lookup finds nothing exactly when no active match involves the player |
| GameState.FindMatchUnique | cmd/server/main.go:569-578 | in a valid state the lookup returns the one match that involves the player, so the map's iteration order does not matter |
| GameState.FindMatchAgreesWithFlag | cmd/server/main.go:569-578 | for a connected player in a valid state, the lookup finds a match exactly when the player's EmPartida flag is set |
| GameState.FindFromSamePlayers | cmd/server/main.go:569-578 | the lookup depends only on which players each match id holds, so turn changes and plays never change where a player is found |
| GameState.EndMatch | cmd/server/main.go:535-547 | a match ending leaves the index, exactly its two players' EmPartida flags are cleared, and every other player object and the rest of the state are unchanged |
| GameState.EndMatchPreservesValid | cmd/server/main.go:535-547 | ending a match keeps the state valid |
| GameState.InitialValid | cmd/server/main.go:53-69 | the empty start state satisfies the invariant |
| Session.PlayCard | cmd/server/main.go:480-548 | no match, not the actor's turn, and card not in hand each leave the state unchanged. A successful play removes the first copy of the card, sets the opponent's life to max(0, life - damage), and keeps the actor's life, the opponent's hand and the turn. At life 0 it removes the match and clears both flags, and nothing else changes |
| Session.PlayInMatch | cmd/server/main.go:506-548 | once every check has passed, the reply reports the card, its damage and both lives; a surviving opponent leaves the match updated as a play says and everything else unchanged, a defeated one ends the match |
| Session.PlayedMatch | cmd/server/main.go:494-524 | the match after a play: the first copy of the card leaves the actor's hand, the opponent's hand and the actor's life stay, and the opponent's life drops by the card's damage but not below 0 |
| Session.RemovesFirstMultiset | cmd/server/main.go:494-509 | the hand after a play is one card shorter and lacks exactly one copy of the played card |
| Session.RemovesFirstKeepsHandValid | cmd/server/main.go:506-509 | a hand of distinct catalog cards stays so after a card is removed |
| Session.PlayLifeBounds | cmd/server/main.go:518-524 | the opponent's life after a play is never negative, the reported damage is the card's damage, and the play wins exactly when that life is 0 |
| Session.PlayRareAtFullLife | cmd/server/main.go:518-524 | a rare card played at full opponent life leaves the opponent at 70, the match running, and the turn with the actor |
| Session.AfterVictoryNotInMatch | cmd/server/main.go:535-548 | after a winning play both players of the match are in no match, and a further play or turn change by either one reports "not in a match" and changes nothing |
| Session.PlayCardPreservesValid | cmd/server/main.go:480-548 | every play, successful or not, keeps the state valid |
| Session.EndTurn | cmd/server/main.go:550-565 | outside a match nothing changes; otherwise the turn goes to B if it was A's and to A otherwise, whoever the actor is, and nothing else changes |
| Session.EndTurnPassesTurn | cmd/server/main.go:556-561 | in a valid state the turn moves to the other player of the match |
| Session.EndTurnTwice | cmd/server/main.go:556-561 | two turn changes, by either player of the match, restore the original state |
| Session.EndTurnPreservesValid | cmd/server/main.go:550-565 | a turn change keeps the state valid |
| Session.HandleAction | cmd/server/main.go:478-566 | "jogar_carta" plays the card, "fim_turno" ends the turn, and every other action changes nothing |
| Session.ShowHand | cmd/server/main.go:273-288 | the reply is the player's own hand exactly when the lookup finds the player's match, and "not in a match" otherwise; the state never changes |
| Session.ShowHandOfMatchedPlayer | cmd/server/main.go:273-288 | in a valid state a player of a match is shown its own hand in that match, A's hand to A and B's to B |
| Session.ShowHandOfUnflaggedPlayer | cmd/server/main.go:273-288 | in a valid state a connected player whose EmPartida flag is clear is told it is not in a match |
| Session.TakeBooster | cmd/server/main.go:581-591 | an empty inventory reports none and stays as it is; otherwise the last pack is returned, exactly the prefix before it remains, and nothing else changes |
| Session.BoostersNeverRepeat | cmd/server/main.go:581-591 | n successive requests return the last min(n, size) packs in reverse order, each position once, and leave the untouched prefix |
| Session.TakeBoosterPreservesValid | cmd/server/main.go:581-591 | taking a booster keeps the state valid |
| Lobby.DisplayName | cmd/server/main.go:160-168 | the display name is the trimmed first line, or "Jogador" when nothing remains; it is non-empty with no white space at either end |
| Lobby.DisplayNameIdempotent | cmd/server/main.go:165-168 | a display name is its own display name |
| Lobby.Connect | cmd/server/main.go:169-184 | a fresh player, named by the display name and not in a match, joins the registry; every other player object and the rest of the state stay as they were |
| Lobby.ConnectPreservesValid | cmd/server/main.go:169-184 | the new id is unused and the state stays valid |
| Lobby.Join | cmd/server/main.go:293-307 | a player in a match is refused and a full queue is reported, both without change; otherwise the player is appended, and the queue never exceeds 100 |
| Lobby.JoinPreservesValid | cmd/server/main.go:293-307 | a connected player joining the queue keeps the state valid |
| Lobby.Transmit | cmd/server/main.go:424-435 | a player receives a chat line exactly when it is connected, not in a match, and not the sender |
| Lobby.Disconnect | cmd/server/main.go:246-270 | the player leaves the registry, every match involving it is deleted and each opponent's flag cleared, and every other match and player object, the queue and the inventory are unchanged |
| Lobby.RemovePlayer | cmd/server/main.go:246-270 | the cleanup loop over the matches, in any order, computes exactly `Disconnect` |
| Lobby.OpponentCleanupFindsNothing | cmd/server/main.go:246-265 | when one player of a match leaves and later its opponent leaves, the opponent is in no match by then, and its cleanup ends no match and notifies no one |
| Lobby.DisconnectEndsOnlyOwnMatch | cmd/server/main.go:250-265 | when no player is in two matches, the cleanup removes only the player's own match and notifies only its opponent |
| Lobby.DisconnectPreservesValid | cmd/server/main.go:246-270 | a cleanup keeps the state valid |
| Matchmaking.NewMatch | cmd/server/main.go:440-454 | a new match has turn = A, both lives 100, and two hands of 5 distinct catalog cards |
| Matchmaking.CreateMatch | cmd/server/main.go:438-464 | the new match goes in under the next match id and the match counter advances; the other matches and the rest of the state are unchanged |
| Matchmaking.Flagging | cmd/server/main.go:356-376 | taking the pair off the queue sets exactly the two players' EmPartida flags and releases the held slot; nothing else changes |
| Matchmaking.TakeFirst | cmd/server/main.go:352-354 | with no player held and a non-empty queue, the queue's head becomes the held player and the rest of the queue stays in order; otherwise nothing changes |
| Matchmaking.Timeout | cmd/server/main.go:379-384 | the held player goes back to the end of the queue if there is room and is dropped otherwise, and no player is held afterwards |
| Matchmaking.PairStepAsWritten | cmd/server/main.go:355-378 | if a is in a match, b is requeued; if b is in a match (or is a), a's flag is reset and a requeued; otherwise both are flagged and matched; a new match never contains an already-matched player or the same player twice |
| Matchmaking.PairStep | cmd/server/main.go:355-378 | the pairing step with a departed player dropped first; between connected players it is the step as written, and every match it creates is between connected players |
| Matchmaking.PairStepOfFreePlayers | cmd/server/main.go:352-378 | a connected free player held by the loop and another connected free player alone in the queue get a new match under the next id, both become flagged, the queue is left empty, and the state stays valid |
| Matchmaking.CreateMatchPreservesValid | cmd/server/main.go:363-378 | flagging two different unmatched connected players and creating their match keeps the state valid |
| Matchmaking.PairStepPreservesValid | cmd/server/main.go:352-378 | a corrected pairing step keeps the state valid, so no player ever ends up in two matches |
| Matchmaking.TakeFirstPreservesValid | cmd/server/main.go:352-354 | taking the first player keeps the state valid |
| Matchmaking.TimeoutPreservesValid | cmd/server/main.go:379-384 | the timeout requeue keeps the state valid |
| Matchmaking.PairStepAsWrittenPairsDepartedPlayer | cmd/server/main.go:355-378 | the step as written matches a held player who has disconnected with the next queued player, and the resulting state is invalid |
| Matchmaking.DepartedWaitingTrace | cmd/server/main.go:293-307 | join, be taken by the loop, disconnect, then another player joins: this ordinary sequence reaches that situation from any idle valid state |
| Matchmaking.DepartedPlayerPairedFromStart | cmd/server/main.go:355-378 | from the server's start state, with players Ana and Bia, the step as written pairs Ana after she has left |
| Matchmaking.PairStepDropsDepartedPlayer | cmd/server/main.go:355-378 | in the same situation the corrected step drops the departed player, requeues the other, and keeps the state valid |
| Protocol.ParseCommand | cmd/server/main.go:291-349 | each exact command is recognised exactly on its text; "/jogar " lines give the Atoi result of the second space-separated field or an invalid-id error; "/ping" matches as a prefix; the usage branch is unreachable; "/fim" is unknown |
| Protocol.PlayField | cmd/server/main.go:322-327 | a "/jogar " line always has a second space-separated field, and it holds no space |
| Protocol.ClassifyLine | cmd/server/main.go:200-222 | after trimming: "/" alone is skipped, other "/" lines are parsed as commands, "{" lines are JSON actions, and everything else, the empty line included, is chat |
| Protocol.ParsePlayLine | cmd/server/main.go:322-333 | "/jogar " followed by the decimal form of any int64 card id parses back to that id |
| Protocol.PlayFieldOf | cmd/server/main.go:322-327 | on "/jogar " followed by a text without spaces, the field read is exactly that text |
| Protocol.ParsePaddedPlayLine | cmd/server/main.go:322-333 | "/jogar " followed by an optional sign, leading zeros and a decimal number in the int64 range parses to that signed number |
| Protocol.ParseNonDecimalPlayLine | cmd/server/main.go:322-333 | "/jogar " followed by a space-free text that is not a signed decimal gives the invalid-id error |
| Protocol.ParseOutOfRangePlayLine | cmd/server/main.go:322-333 | "/jogar " followed by a signed, zero-padded decimal whose value does not fit Go's int, such as 9223372036854775808, gives the invalid-id error and plays no card |
| Protocol.PlayLineExamples | cmd/server/main.go:322-333 | "/jogar 05" and "/jogar +5" both play card 5, while "/jogar 5x" is refused as an invalid id |
| Protocol.ParseRender | cmd/server/main.go:291-349 | the parser reads every command a client can type back as that command |
| Protocol.ClassifyRender | cmd/server/main.go:200-349 | every command a client can type is read as a command line holding exactly its text, which parses back to the command |
| Protocol.ClassifyPaddedRender | cmd/server/main.go:194-200 | white space around a command line, such as its line terminator, does not change how it is read |
| Protocol.RenderInjective | cmd/server/main.go:291-349 | distinct commands have distinct command lines |
| Relay.RunCommand | cmd/server/main.go:291-349 | each command's effect; only /entrar changes the queue, only /jogar the players and matches, only /booster the inventory; no command touches registration, the held player or the counters |
| Relay.HandleLine | cmd/server/main.go:193-223 | skipped lines change nothing, commands and decoded actions are dispatched, undecodable JSON is reported without change, and chat changes nothing and reaches exactly the connected players outside matches other than the sender |
| Relay.HandleActionPreservesValid | cmd/server/main.go:478-566 | every decoded action keeps the state valid |
| Relay.RunCommandPreservesValid | cmd/server/main.go:291-349 | every command from a connected player keeps the state valid |
| Relay.HandleLinePreservesValid | cmd/server/main.go:193-223 | every line from a connected player keeps the state valid |
| Relay.PlayCommandMatchesAction | cmd/server/main.go:322-333 | typing "/jogar id" has the same effect as the JSON action jogar_carta with that id |
| GameServer.Step | cmd/server/main.go:193-223 | events from players who are not connected change nothing, and a pairing event only ever creates a match between connected players |
| GameServer.StepPreservesValid | cmd/server/main.go:155-223 | every event keeps the state valid |
| GameServer.RunPreservesValid | cmd/server/main.go:87-100 | any sequence of events keeps a valid state valid |
| GameServer.ReachableStatesAreValid | cmd/server/main.go:53-69 | every state reachable from the start is valid, and in it a connected player's match lookup agrees with its EmPartida flag |
| GameServer.TypedCommands | cmd/server/main.go:200-222 | the lines "/entrar" and "/mao" are read as the queue and hand commands |
| GameServer.TypedLineRunsCommand | cmd/server/main.go:200-222 | a connected player's line that the read loop takes as a command runs exactly that command |
| GameServer.ArrivedAndJoinedFacts | cmd/server/main.go:169-184 | a client that connects and types /entrar gets the next id, is connected, and is last in the queue; no match changes |
| GameServer.ArrivedAndJoinedFlag | cmd/server/main.go:293-307 | after connecting and joining, the new player is not in a match and no other player's EmPartida flag has changed |
| GameServer.ArrivedAndJoinedValid | cmd/server/main.go:169-184 | connecting and joining keep a valid state valid |
| GameServer.TwoJoinedQueue | cmd/server/main.go:293-307 | two clients joining an empty queue are queued in the order they joined, and no match changes |
| GameServer.TwoJoinedFree | cmd/server/main.go:293-307 | after two clients have joined, both are connected and neither is in a match |
| GameServer.TwoJoinedValid | cmd/server/main.go:169-184 | two clients joining keep a valid state valid |
| GameServer.BothQueuedFacts | cmd/server/main.go:352-354 | once the loop takes the first of the two, it is held and the second is alone in the queue, both connected and free |
| GameServer.TwoPlayersArePaired | cmd/server/main.go:352-464 | from an idle lobby two players who join one after the other are paired in a new match: the first holds the turn, both have 100 lives and five cards, both are flagged, and the queue is empty |
| GameServer.PairedPlayersSeeTheirHands | cmd/server/main.go:273-288 | right after that pairing, /mao shows each player exactly the hand it was dealt |
| GameServer.FirstGameFromStart | cmd/server/main.go:53-69 | from the server's start state the first two players to join are paired in match 0, the only active match |
| Text.TrimSpace | cmd/server/main.go:200 | the result is empty exactly when the line is all white space; otherwise it has no white space at either end |
| Text.TrimSpacePadded | cmd/server/main.go:200 | trimming removes any white-space padding around a string with non-space ends, and nothing else |
| Text.Split | cmd/server/main.go:323 | splitting gives one more field than there are separators, and no field contains the separator |
| Text.JoinSplit | cmd/server/main.go:323 | joining the fields with the separator gives back the line |
| Text.Atoi | cmd/server/main.go:328 | a result is within the int64 range and comes only from an optional sign followed by one or more digits and nothing else; Text.AtoiOfSignedDigits and Text.AtoiOutOfRange give the value and the range error |
| Text.AtoiOfSignedDigits | cmd/server/main.go:328 | an optional sign followed by digits whose value fits in int64 reads as that value, negated after a minus sign |
| Text.AtoiOfPaddedDecimal | cmd/server/main.go:328 | leading zeros after the sign do not change the value read: sign, any number of zeros and the decimal form of n read as n with that sign |
| Text.AtoiOutOfRange | cmd/server/main.go:328 | an optional sign followed by digits whose value lies outside the int64 range is rejected, as strconv's range error rejects it |
| Text.AtoiOfPaddedOutOfRange | cmd/server/main.go:328 | a sign, any number of zeros and the decimal form of a number outside the int64 range are rejected |
| Text.AtoiOfIntToString | cmd/server/main.go:328 | Atoi reads back the decimal form of every int64 |

## Left out

- Sockets, the UDP ping responder, `main`, `escritorJogador` and the
  reader's I/O errors: I/O plumbing. A closed connection is the `Leave`
  event.
- Outbound message text, `enviarMensagem`'s drop when a channel is full,
  and the channels themselves: replies are `Reply` values, not text.
- `rodarPartida`'s periodic signal: timing only, no state change.
- `prepararBoosters` and pack contents: packs are opaque and the start
  state takes any inventory.
- JSON decoding: the decoder's result is a parameter of `Relay.HandleLine`.
- Timestamp ids: players and matches get fresh ids from counters.
- `/ping`'s server time and `/cartas`'s listing text, in map order: only
  the kind of reply is modelled (`ServerTime`, `CatalogListed`).
- `/sair` is modelled only as its "not implemented" reply, which is all
  the server does with it.
- `cmd/test/load_tester.go`, `cmd/client/main.go`, `internal/server/server.go`:
  outside the game core.
- Interleaving inside the pairing step: the loop locks a and b one after
  the other, and each step here runs as one atomic transition.
- Session.PlayCard: combines three locked regions of `tratarAcao` into one
  step. These are the match lookup under the index lock (cmd/server/main.go:570-571),
  the play under the match's lock (486-533), and the victory cleanup, which
  takes each player's lock and then the index lock (538-547). The model
  leaves out the window between the lookup and the match lock. If the
  opponent disconnects in that window, the server plays on a match that
  has already been deleted. It then sends the result on the opponent's
  closed channel (531-532), and that send panics.
- Session.EndTurn: combines the lookup (570-571) and the toggle under the
  match's lock (556-564) into one step. A turn change on a match deleted
  between the two is not modelled, and neither is its send on a closed
  channel.
- Session.ShowHand: combines the lookup (274) and the read of the hand
  under the match's lock (279-281) into one step. A read from a match
  deleted in between is not modelled.
- Matchmaking.CreateMatch: the pairing loop sets the two flags under each
  player's own lock (363, 375), and `criarPartida` inserts the match under
  the index lock (456-458) only afterwards. The model does both in one
  step. It does not cover the moment when both players are flagged but no
  indexed match holds them. In that moment `/entrar` refuses them, and a
  play reports "not in a match".
- Matchmaking.PairStepAsWritten: requeueing in a new goroutine is modelled
  as an immediate append. In Go, a concurrent `/entrar` may take the slot
  the step has just freed. The goroutine then blocks, and the player is
  neither in the queue nor in the loop until it sends. The player then lands
  behind players who joined later. The model drops this reordering and the
  blocking.
- GameState.FindMatch: scans match ids in ascending order, where Go walks
  the map in random order. `GameState.FindMatchUnique` shows this makes no
  difference in a valid state.
- Catalog.DealHand: the pool starts in id order, where Go builds it from
  map iteration. The index oracle already covers every choice, so this
  loses nothing (`Catalog.DealReachesEveryHand`).
- Text.Atoi: works on code points, while Go's `strconv.Atoi` works on
  UTF-8 bytes. Every character it accepts is ASCII, so the two agree.
- GameServer.TwoPlayersArePaired: the trace is stated over the handlers
  `Lobby.Connect`, `Lobby.Join`, `Matchmaking.TakeFirst` and
  `Matchmaking.PairStep` rather than over `Step` events.
  `GameServer.TypedCommands` and `GameServer.TypedLineRunsCommand` connect a
  typed `/entrar` or `/mao` line to the handler it runs.
- GameServer.Step: uses the corrected `Matchmaking.PairStep`, so
  `GameServer.ReachableStatesAreValid` holds for the server with the
  finding fixed.

## Findings

| source | as written | input that shows it | evidently intended | confidence | as-written member | corrected member |
|---|---|---|---|---|---|---|
| cmd/server/main.go:355-378 | the pairing loop never checks that the players it takes from the queue are still connected. It flags a departed player and creates a match with it. `criarPartida` then sends the announcement on that player's outbound channel, which `removerJogador` closed (line 269), and a send on a closed Go channel panics | Ana sends `/entrar`, the loop takes her, Ana disconnects, Bia sends `/entrar` | a departed player is dropped and the other player goes back in the queue | not executed; the panic follows from Go's channel rules | Matchmaking.PairStepAsWrittenPairsDepartedPlayer | Matchmaking.PairStep |
