/**
 * The match state machine of tratarAcao (playing a card, ending the turn),
 * the hand display of mostrarMao and the booster inventory of pegarBooster.
 * Each operation is one transition: the match lookup under the index lock and
 * the work under the match's lock (and, after a victory, the flag and index
 * updates) run as one step.
 */
module Session {
  import opened Wrappers
  import opened Catalog
  import opened GameState

  /** `h'` is `h` with its first occurrence of `c` taken out and the other cards kept in order. */
  ghost predicate RemovesFirst(h: seq<CardId>, c: CardId, h': seq<CardId>) {
    exists i :: 0 <= i < |h| && h[i] == c && c !in h[..i] && h' == RemoveAt(h, i)
  }

  function Max(x: int, y: int): int {
    if x >= y then x else y
  }

  /** The effect a successful play of `card` by `p` has on match `m`, giving `m'`. */
  ghost predicate PlayedOn(m: Match, p: PlayerId, card: CardId, m': Match) {
    var me := SideOf(m, p);
    var opp := Other(me);
    && m'.a == m.a && m'.b == m.b && m'.turn == m.turn
    && RemovesFirst(Hand(m, me), card, Hand(m', me))
    && Hand(m', opp) == Hand(m, opp)
    && Life(m', me) == Life(m, me)
    && Life(m', opp) == Max(0, Life(m, opp) - Damage(card))
  }

  /** `t` differs from `s` at most in the player objects and the active matches. */
  predicate OnlyPlayersAndMatches(s: State, t: State) {
    t == s.(players := t.players, active := t.active)
  }

  /**
   * The successful branch of a play by `p` in match `mid`: the reply reports
   * the damage and both lives; if the opponent survives, the match is updated
   * as PlayedOn says and nothing else changes; if the opponent's life reaches
   * 0, the match ends (EndMatch: it leaves the index and both players' flags
   * are cleared).
   */
  ghost predicate PlaySucceeded(s: State, mid: MatchId, p: PlayerId, card: CardId, o: Outcome)
    requires mid in s.active
  {
    var m := s.active[mid];
    var me := SideOf(m, p);
    var life := Max(0, Life(m, Other(me)) - Damage(card));
    && o.reply == Played(card, Damage(card), Life(m, me), life, life == 0)
    && OnlyPlayersAndMatches(s, o.next)
    && (life > 0 ==>
          && o.next.players == s.players
          && o.next.active.Keys == s.active.Keys
          && PlayedOn(m, p, card, o.next.active[mid])
          && forall k :: k in s.active && k != mid ==> o.next.active[k] == s.active[k])
    && (life == 0 ==> o.next == EndMatch(s, mid))
  }

  /**
   * tratarAcao for "jogar_carta". It fails, changing nothing, when `p` is in no
   * match, when the turn is not `p`'s, or when `card` is not in `p`'s hand.
   * Otherwise it removes the card, damages the opponent (never below 0) and,
   * when the opponent's life reaches 0, ends the match. The turn does not pass.
   */
  function PlayCard(s: State, p: PlayerId, card: CardId): (o: Outcome)
    ensures FindMatch(s, p).None? ==> o == Outcome(NotInMatch, s)
    ensures FindMatch(s, p).Some? ==>
      var mid := FindMatch(s, p).value;
      var m := s.active[mid];
      && (m.turn != p ==> o == Outcome(NotYourTurn, s))
      && (m.turn == p && card !in Hand(m, SideOf(m, p)) ==> o == Outcome(CardNotInHand, s))
      && (m.turn == p && card in Hand(m, SideOf(m, p)) ==> PlaySucceeded(s, mid, p, card, o))
  {
    match FindMatch(s, p)
    case None => Outcome(NotInMatch, s)
    case Some(mid) =>
      var m := s.active[mid];
      if m.turn != p then Outcome(NotYourTurn, s)
      else
        var me := SideOf(m, p);
        var hand := Hand(m, me);
        if card !in hand then Outcome(CardNotInHand, s)
        else PlayInMatch(s, mid, p, card)
  }

  /** A play that passed every check: the match is updated, or ended when the opponent's life reaches 0. */
  function PlayInMatch(s: State, mid: MatchId, p: PlayerId, card: CardId): (o: Outcome)
    requires mid in s.active && card in Hand(s.active[mid], SideOf(s.active[mid], p))
    ensures PlaySucceeded(s, mid, p, card, o)
  {
    var m := s.active[mid];
    var me := SideOf(m, p);
    var m' := PlayedMatch(m, p, card);
    var life := Life(m', Other(me));
    if life <= 0 then
      Outcome(Played(card, Damage(card), Life(m, me), life, true), EndMatch(s, mid))
    else
      Outcome(Played(card, Damage(card), Life(m, me), life, false), s.(active := s.active[mid := m']))
  }

  /**
   * The match once `p` has played `card` from its hand: the first copy of the
   * card leaves the hand and the opponent loses the card's damage, never
   * going below 0.
   */
  function PlayedMatch(m: Match, p: PlayerId, card: CardId): (m': Match)
    requires card in Hand(m, SideOf(m, p))
    ensures PlayedOn(m, p, card, m')
  {
    var me := SideOf(m, p);
    var hand := Hand(m, me);
    var opp := Other(me);
    var life := Life(m, opp) - Damage(card);
    var life := if life < 0 then 0 else life;
    WithLife(WithHand(m, me, RemoveAt(hand, IndexOf(hand, card))), opp, life)
  }

  /** Removing the first occurrence takes exactly one copy of the card out of the hand. */
  lemma RemovesFirstMultiset(h: seq<CardId>, c: CardId, h': seq<CardId>)
    requires RemovesFirst(h, c, h')
    ensures |h'| == |h| - 1
    ensures multiset(h') == multiset(h) - multiset{c}
  {
    var i :| 0 <= i < |h| && h[i] == c && c !in h[..i] && h' == RemoveAt(h, i);
    RemoveAtMultiset(h, i);
  }

  /** A hand of distinct catalog cards stays one after a card is removed. */
  lemma RemovesFirstKeepsHandValid(h: seq<CardId>, c: CardId, h': seq<CardId>)
    requires HandValid(h) && RemovesFirst(h, c, h')
    ensures HandValid(h')
  {
    var i :| 0 <= i < |h| && h[i] == c && c !in h[..i] && h' == RemoveAt(h, i);
    RemoveAtDistinct(h, i);
    forall x | 0 <= x < |h'| ensures InCatalog(h'[x]) {
      assert h'[x] == h[if x < i then x else x + 1];
    }
  }

  /**
   * The life a play leaves the opponent with is never negative, and is 0
   * exactly when the card's damage is at least the life it had.
   */
  lemma PlayLifeBounds(s: State, p: PlayerId, card: CardId)
    requires PlayCard(s, p, card).reply.Played?
    ensures var r := PlayCard(s, p, card).reply;
      && r.opponentLife >= 0
      && r.damage == Damage(card)
      && (r.opponentLife == 0 <==> r.won)
  {
  }

  /**
   * A rare card (id 1) played by the turn holder against an opponent at full
   * life: the opponent drops to 70, the actor keeps the turn, the match goes on.
   */
  lemma PlayRareAtFullLife(s: State, p: PlayerId)
    requires Valid(s) && FindMatch(s, p).Some?
    requires var m := s.active[FindMatch(s, p).value];
      m.turn == p && 1 in Hand(m, SideOf(m, p)) && Life(m, Other(SideOf(m, p))) == StartingLife
    ensures var mid := FindMatch(s, p).value;
      var o := PlayCard(s, p, 1);
      && o.reply == Played(1, 30, Life(s.active[mid], SideOf(s.active[mid], p)), 70, false)
      && mid in o.next.active && o.next.active[mid].turn == p
  {
    DamageByTier(1);
  }

  /**
   * After a winning play neither player of the finished match is in any match,
   * so a further play or end of turn by either of them reports NotInMatch and
   * changes nothing.
   */
  lemma AfterVictoryNotInMatch(s: State, p: PlayerId, card: CardId, q: PlayerId, card': CardId)
    requires Valid(s)
    requires PlayCard(s, p, card).reply.Played? && PlayCard(s, p, card).reply.won
    requires Involves(s.active[FindMatch(s, p).value], q)
    ensures var t := PlayCard(s, p, card).next;
      && FindMatch(t, q).None?
      && PlayCard(t, q, card') == Outcome(NotInMatch, t)
      && EndTurn(t, q) == Outcome(NotInMatch, t)
  {
    var mid := FindMatch(s, p).value;
    var t := PlayCard(s, p, card).next;
    assert t == EndMatch(s, mid);
    forall k | k in t.active && k < t.nextMatch ensures !Involves(t.active[k], q) {
      assert k in s.active && k != mid;
    }
  }

  /** A winning play keeps the state valid: the finished match goes, and with it both players' flags. */
  lemma PlayWonPreservesValid(s: State, p: PlayerId, card: CardId)
    requires Valid(s)
    requires PlayCard(s, p, card).reply.Played? && PlayCard(s, p, card).reply.won
    ensures Valid(PlayCard(s, p, card).next)
  {
    EndMatchPreservesValid(s, FindMatch(s, p).value);
  }

  /** A play the opponent survives keeps the state valid: the hand stays distinct and both lives positive. */
  lemma PlaySurvivedPreservesValid(s: State, p: PlayerId, card: CardId)
    requires Valid(s)
    requires PlayCard(s, p, card).reply.Played? && !PlayCard(s, p, card).reply.won
    ensures Valid(PlayCard(s, p, card).next)
  {
    var mid := FindMatch(s, p).value;
    var m := s.active[mid];
    var t := PlayCard(s, p, card).next;
    var m' := t.active[mid];
    var me := SideOf(m, p);
    DamagePositive(card);
    RemovesFirstKeepsHandValid(Hand(m, me), card, Hand(m', me));
    assert MatchValid(s, m');
    assert t == s.(active := s.active[mid := m']);
    ReplaceMatchPreservesValid(s, mid, m');
  }

  /** A valid state stays valid after a play, successful or not. */
  lemma PlayCardPreservesValid(s: State, p: PlayerId, card: CardId)
    requires Valid(s)
    ensures Valid(PlayCard(s, p, card).next)
  {
    var o := PlayCard(s, p, card);
    if o.reply.Played? {
      if o.reply.won {
        PlayWonPreservesValid(s, p, card);
      } else {
        PlaySurvivedPreservesValid(s, p, card);
      }
    }
  }

  // ---------------------------------------------------------------- end turn

  /**
   * tratarAcao for "fim_turno": the turn passes to B if it was A's and to A
   * otherwise. Whoever in the match sends it, it succeeds: the server does not
   * check that the sender holds the turn. Nothing but the turn changes.
   */
  function EndTurn(s: State, p: PlayerId): (o: Outcome)
    ensures FindMatch(s, p).None? ==> o == Outcome(NotInMatch, s)
    ensures FindMatch(s, p).Some? ==>
      var mid := FindMatch(s, p).value;
      var m := s.active[mid];
      var turn := if m.turn == m.a then m.b else m.a;
      && o.reply == TurnChanged(turn)
      && o.next == s.(active := s.active[mid := m.(turn := turn)])
  {
    match FindMatch(s, p)
    case None => Outcome(NotInMatch, s)
    case Some(mid) =>
      var m := s.active[mid];
      var m' := if m.turn == m.a then m.(turn := m.b) else m.(turn := m.a);
      Outcome(TurnChanged(m'.turn), s.(active := s.active[mid := m']))
  }

  /** Ending the turn hands it to the other player of the match. */
  lemma EndTurnPassesTurn(s: State, p: PlayerId)
    requires Valid(s) && FindMatch(s, p).Some?
    ensures var m := s.active[FindMatch(s, p).value];
      var m' := EndTurn(s, p).next.active[FindMatch(s, p).value];
      && (m'.turn == m.a || m'.turn == m.b)
      && m'.turn != m.turn
  {
  }

  /**
   * Ending the turn twice, by either player of the match, gives back the
   * state before the first: the turn toggles between the two players.
   */
  lemma EndTurnTwice(s: State, p: PlayerId, q: PlayerId)
    requires Valid(s) && FindMatch(s, p).Some?
    requires Involves(s.active[FindMatch(s, p).value], q)
    ensures EndTurn(EndTurn(s, p).next, q).next == s
  {
    var mid := FindMatch(s, p).value;
    var m := s.active[mid];
    var t := EndTurn(s, p).next;
    var m' := t.active[mid];
    FindFromSamePlayers(s.active, t.active, q, 0, s.nextMatch);
    FindMatchUnique(s, q, mid);
    assert t.active[mid := m'.(turn := m.turn)] == s.active;
  }

  /** A valid state stays valid after a turn change. */
  lemma EndTurnPreservesValid(s: State, p: PlayerId)
    requires Valid(s)
    ensures Valid(EndTurn(s, p).next)
  {
    if FindMatch(s, p).Some? {
      var mid := FindMatch(s, p).value;
      ReplaceMatchPreservesValid(s, mid, EndTurn(s, p).next.active[mid]);
    }
  }

  // ------------------------------------------------------------ action dispatch

  /** tratarAcao: "jogar_carta" plays the card, "fim_turno" ends the turn, any other action is silently ignored. */
  function HandleAction(s: State, p: PlayerId, act: GameAction): (o: Outcome)
    ensures act.kind == "jogar_carta" ==> o == PlayCard(s, p, act.cardId)
    ensures act.kind == "fim_turno" ==> o == EndTurn(s, p)
    ensures act.kind != "jogar_carta" && act.kind != "fim_turno" ==> o == Outcome(Ignored, s)
  {
    match act.kind
    case "jogar_carta" => PlayCard(s, p, act.cardId)
    case "fim_turno" => EndTurn(s, p)
    case _ => Outcome(Ignored, s)
  }

  // ---------------------------------------------------------------- show hand

  /** mostrarMao: the hand `p` holds in its match, or NotInMatch; nothing changes. */
  function ShowHand(s: State, p: PlayerId): (o: Outcome)
    ensures o.next == s
    ensures o.reply.HandShown? <==> FindMatch(s, p).Some?
    ensures o.reply.HandShown? ==>
      var m := s.active[FindMatch(s, p).value];
      o.reply.hand == (if p == m.a then m.handA else m.handB)
    ensures !o.reply.HandShown? ==> o.reply == NotInMatch
  {
    match FindMatch(s, p)
    case None => Outcome(NotInMatch, s)
    case Some(mid) =>
      var m := s.active[mid];
      Outcome(HandShown(Hand(m, SideOf(m, p))), s)
  }

  /** In a valid state a player of match `k` is shown its own hand in that match. */
  lemma ShowHandOfMatchedPlayer(s: State, p: PlayerId, k: MatchId)
    requires Valid(s) && k in s.active && Involves(s.active[k], p)
    ensures ShowHand(s, p) ==
      Outcome(HandShown(if p == s.active[k].a then s.active[k].handA else s.active[k].handB), s)
  {
    FindMatchUnique(s, p, k);
  }

  /** In a valid state a connected player whose EmPartida flag is clear is told it is not in a match. */
  lemma ShowHandOfUnflaggedPlayer(s: State, p: PlayerId)
    requires Valid(s) && p in s.registry && !s.players[p].inMatch
    ensures ShowHand(s, p) == Outcome(NotInMatch, s)
  {
    FindMatchAgreesWithFlag(s, p);
  }

  // ------------------------------------------------------------------ boosters

  /**
   * pegarBooster: an empty inventory reports NoBoosters and stays empty;
   * otherwise the last pack is returned and exactly the packs before it stay.
   * The pack is only reported: no hand and no other part of the state changes.
   */
  function TakeBooster(s: State): (o: Outcome)
    ensures |s.boosters| == 0 ==> o == Outcome(NoBoosters, s)
    ensures |s.boosters| > 0 ==>
      && o.reply == BoosterOpened(s.boosters[|s.boosters| - 1])
      && o.next == s.(boosters := s.boosters[..|s.boosters| - 1])
  {
    if |s.boosters| == 0 then Outcome(NoBoosters, s)
    else
      var idx := |s.boosters| - 1;
      Outcome(BoosterOpened(s.boosters[idx]), s.(boosters := s.boosters[..idx]))
  }

  /** The packs `n` successive booster requests receive, and the state they leave. */
  function TakeBoosters(s: State, n: nat): (seq<Pack>, State)
    decreases n
  {
    if n == 0 then ([], s)
    else
      var o := TakeBooster(s);
      var (rest, last) := TakeBoosters(o.next, n - 1);
      (if o.reply.BoosterOpened? then [o.reply.pack] + rest else rest, last)
  }

  /**
   * Successive booster requests hand out the inventory from its end, each
   * position at most once, and leave exactly the untouched prefix: no pack is
   * ever handed out twice, and the rest of the state never changes.
   */
  lemma {:induction false} BoostersNeverRepeat(s: State, n: nat)
    ensures var r := TakeBoosters(s, n);
      && |r.0| == (if n < |s.boosters| then n else |s.boosters|)
      && (forall i :: 0 <= i < |r.0| ==> r.0[i] == s.boosters[|s.boosters| - 1 - i])
      && r.1 == s.(boosters := s.boosters[..|s.boosters| - |r.0|])
    decreases n
  {
    if n > 0 && |s.boosters| > 0 {
      var next := s.(boosters := s.boosters[..|s.boosters| - 1]);
      var r := TakeBoosters(next, n - 1);
      BoostersNeverRepeat(next, n - 1);
      assert TakeBooster(s) == Outcome(BoosterOpened(s.boosters[|s.boosters| - 1]), next);
      var taken := [s.boosters[|s.boosters| - 1]] + r.0;
      assert TakeBoosters(s, n) == (taken, r.1);
      forall i | 0 <= i < |taken| ensures taken[i] == s.boosters[|s.boosters| - 1 - i] {
        if i > 0 {
          assert taken[i] == r.0[i - 1];
        }
      }
      assert next.boosters[..|next.boosters| - |r.0|] == s.boosters[..|s.boosters| - |taken|];
    } else if n > 0 {
      assert TakeBooster(s) == Outcome(NoBoosters, s);
      BoostersNeverRepeat(s, n - 1);
    }
  }

  /** A valid state stays valid after a booster request. */
  lemma TakeBoosterPreservesValid(s: State)
    requires Valid(s)
    ensures Valid(TakeBooster(s).next)
  {
  }
}
