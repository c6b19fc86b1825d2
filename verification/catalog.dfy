/**
 * The fixed card catalog built by inicializarCartas, the damage rule of
 * danoCarta, and the random hand dealing of gerarMaoAleatoria.
 */
module Catalog {
  import opened Text

  type CardId = int

  const CatalogSize: nat := 20
  /** Number of cards dealt to each player when a match is created. */
  const HandSize: nat := 5

  datatype Rarity = Rara | Incomum | Comum

  predicate InCatalog(id: CardId) {
    1 <= id <= CatalogSize
  }

  /** Tier given by inicializarCartas: ids up to 5 are rare, up to 10 uncommon, the rest common. */
  function RarityOf(id: CardId): Rarity
    requires InCatalog(id)
  {
    if id <= 5 then Rara else if id <= 10 then Incomum else Comum
  }

  function RarityLabel(r: Rarity): string {
    match r
    case Rara => "Rara"
    case Incomum => "Incomum"
    case Comum => "Comum"
  }

  /**
   * The catalog entry of `id`, "Carta <id> (<tier>)", or the empty string for
   * an id outside the catalog (the zero value a Go map lookup gives).
   */
  function CardName(id: CardId): string {
    if InCatalog(id) then "Carta " + NatToString(id) + " (" + RarityLabel(RarityOf(id)) + ")" else ""
  }

  /** danoCarta: 30 if the card's name mentions "Rara", else 20 if it mentions "Incomum", else 10. */
  function Damage(id: CardId): int {
    var name := CardName(id);
    if Contains(name, "Rara") then 30 else if Contains(name, "Incomum") then 20 else 10
  }

  /** Damage each tier is meant to deal. */
  function TierDamage(r: Rarity): int {
    match r
    case Rara => 30
    case Incomum => 20
    case Comum => 10
  }

  /** A character that is neither a digit nor in the fixed text around the id is absent from the name. */
  lemma CharNotInName(id: CardId, c: char)
    requires InCatalog(id) && !IsDigit(c)
    requires c !in "Carta " && c !in " (" + RarityLabel(RarityOf(id)) + ")"
    ensures c !in CardName(id)
  {
    var d := NatToString(id);
    assert CardName(id) == "Carta " + d + (" (" + RarityLabel(RarityOf(id)) + ")");
  }

  /** The label of the card's tier occurs in its name. */
  lemma LabelInName(id: CardId)
    requires InCatalog(id)
    ensures Contains(CardName(id), RarityLabel(RarityOf(id)))
  {
    var pre := "Carta " + NatToString(id) + " (";
    var tier := RarityLabel(RarityOf(id));
    assert CardName(id) == pre + tier + ")";
    assert (pre + tier + ")")[|pre|..|pre| + |tier|] == tier;
    ContainsAt(CardName(id), tier, |pre|);
  }

  /**
   * The name-matching rule of danoCarta agrees with the tiers: a card of the
   * catalog deals its tier's damage, and any other id falls back to 10.
   */
  lemma DamageByTier(id: CardId)
    ensures Damage(id) == (if InCatalog(id) then TierDamage(RarityOf(id)) else 10)
    ensures 1 <= id <= 5 ==> Damage(id) == 30
    ensures 6 <= id <= 10 ==> Damage(id) == 20
    ensures !(1 <= id <= 10) ==> Damage(id) == 10
  {
    if InCatalog(id) {
      LabelInName(id);
      match RarityOf(id)
      case Rara =>
      case Incomum =>
        CharNotInName(id, 'R');
        NotContainsMissingHead(CardName(id), "Rara");
      case Comum =>
        CharNotInName(id, 'R');
        NotContainsMissingHead(CardName(id), "Rara");
        CharNotInName(id, 'I');
        NotContainsMissingHead(CardName(id), "Incomum");
    }
  }

  /** Every card deals 10, 20 or 30 damage: the damage rule is total and positive. */
  lemma DamagePositive(id: CardId)
    ensures 10 <= Damage(id) <= 30
  {
    DamageByTier(id);
  }

  // ------------------------------------------------------------- hand dealing

  predicate Distinct<T(==)>(s: seq<T>) {
    forall i, j :: 0 <= i < j < |s| ==> s[i] != s[j]
  }

  /** The catalog ids in the order the dealing pool starts from. */
  function CatalogIds(): (ids: seq<CardId>)
    ensures |ids| == CatalogSize
    ensures forall k :: 0 <= k < |ids| ==> ids[k] == k + 1
  {
    seq(CatalogSize, k => k + 1)
  }

  /**
   * The index oracle standing for rnd.Intn(n): the next recorded choice
   * reduced modulo `n`, or 0 once the record is exhausted. Every index below
   * `n` is some record's choice.
   */
  function PickIndex(picks: seq<nat>, n: nat): (idx: nat)
    requires n > 0
    ensures idx < n
    ensures |picks| > 0 && picks[0] < n ==> idx == picks[0]
  {
    if |picks| == 0 then 0 else picks[0] % n
  }

  function NextPicks(picks: seq<nat>): seq<nat> {
    if |picks| == 0 then [] else picks[1..]
  }

  /** `s` without its element at position `i`, the others kept in order. */
  function RemoveAt<T>(s: seq<T>, i: nat): (r: seq<T>)
    requires i < |s|
    ensures |r| == |s| - 1
    ensures forall k :: 0 <= k < |r| ==> r[k] == s[if k < i then k else k + 1]
  {
    s[..i] + s[i + 1..]
  }

  /** Removing an element keeps a sequence of distinct elements distinct, and the removed one is gone. */
  lemma RemoveAtDistinct<T>(s: seq<T>, i: nat)
    requires i < |s|
    ensures Distinct(s) ==> Distinct(RemoveAt(s, i)) && s[i] !in RemoveAt(s, i)
  {
    var r := RemoveAt(s, i);
    if Distinct(s) {
      forall x, y | 0 <= x < y < |r| ensures r[x] != r[y] {
        assert r[x] == s[if x < i then x else x + 1];
        assert r[y] == s[if y < i then y else y + 1];
      }
      forall k | 0 <= k < |r| ensures r[k] != s[i] {
        assert r[k] == s[if k < i then k else k + 1];
      }
    }
  }

  /** A removal takes exactly one copy of the removed element out. */
  lemma RemoveAtMultiset<T>(s: seq<T>, i: nat)
    requires i < |s|
    ensures multiset(RemoveAt(s, i)) == multiset(s) - multiset{s[i]}
  {
    assert s == s[..i] + [s[i]] + s[i + 1..];
    assert RemoveAt(s, i) == s[..i] + s[i + 1..];
  }

  /** Every element left after a removal was in the sequence. */
  lemma RemoveAtSubset<T>(s: seq<T>, i: nat)
    requires i < |s|
    ensures forall x :: x in RemoveAt(s, i) ==> x in s
  {
    var r := RemoveAt(s, i);
    forall x | x in r ensures x in s {
      var k :| 0 <= k < |r| && r[k] == x;
      assert s[if k < i then k else k + 1] == x;
    }
  }

  /**
   * gerarMaoAleatoria's loop over the pool `ids`: take the chosen card, drop
   * it from the pool, and stop after `qtd` cards or when the pool is empty.
   * rnd.Intn panics on an empty pool, hence the precondition.
   */
  function DealFrom(ids: seq<CardId>, picks: seq<nat>, qtd: nat): (hand: seq<CardId>)
    requires qtd == 0 || |ids| > 0
    ensures |hand| == if qtd < |ids| then qtd else |ids|
    ensures forall k :: 0 <= k < |hand| ==> hand[k] in ids
    ensures Distinct(ids) ==> Distinct(hand)
    decreases qtd
  {
    if qtd == 0 then []
    else
      var idx := PickIndex(picks, |ids|);
      var rest := RemoveAt(ids, idx);
      RemoveAtSubset(ids, idx);
      RemoveAtDistinct(ids, idx);
      [ids[idx]] + (if |rest| == 0 then [] else DealFrom(rest, NextPicks(picks), qtd - 1))
  }

  /** A hand dealt from the full catalog: five distinct catalog cards, whatever the random choices. */
  function DealHand(picks: seq<nat>): (hand: seq<CardId>)
    ensures |hand| == HandSize
    ensures Distinct(hand)
    ensures forall k :: 0 <= k < |hand| ==> InCatalog(hand[k])
  {
    var ids := CatalogIds();
    CatalogIdsDistinct();
    var hand := DealFrom(ids, picks, HandSize);
    assert forall x :: x in ids ==> InCatalog(x);
    hand
  }

  /** The pool starts with every catalog id once. */
  lemma CatalogIdsDistinct()
    ensures Distinct(CatalogIds())
  {
  }

  /** Position of `x` in `s`. */
  function IndexOf(s: seq<CardId>, x: CardId): (i: nat)
    requires x in s
    ensures i < |s| && s[i] == x && x !in s[..i]
  {
    if s[0] == x then 0 else 1 + IndexOf(s[1..], x)
  }

  /** The choices that make the dealing loop produce `hand` from `ids`. */
  function PicksFor(ids: seq<CardId>, hand: seq<CardId>): seq<nat>
    requires forall k :: 0 <= k < |hand| ==> hand[k] in ids
    requires Distinct(hand)
    decreases |hand|
  {
    if |hand| == 0 then []
    else
      var idx := IndexOf(ids, hand[0]);
      PicksForRest(ids, hand, idx);
      [idx] + PicksFor(RemoveAt(ids, idx), hand[1..])
  }

  /** The later cards of a distinct hand survive the removal of its first card from the pool. */
  lemma PicksForRest(ids: seq<CardId>, hand: seq<CardId>, idx: nat)
    requires |hand| > 0 && Distinct(hand)
    requires forall k :: 0 <= k < |hand| ==> hand[k] in ids
    requires idx < |ids| && ids[idx] == hand[0]
    ensures forall k :: 0 <= k < |hand| - 1 ==> hand[1..][k] in RemoveAt(ids, idx)
  {
    var rest := RemoveAt(ids, idx);
    forall k | 0 <= k < |hand| - 1 ensures hand[1..][k] in rest {
      var i :| 0 <= i < |ids| && ids[i] == hand[k + 1];
      assert i != idx;
      assert rest[if i < idx then i else i - 1] == hand[k + 1];
    }
  }

  /** The first choice PicksFor records picks the hand's first card, and the rest are the choices for the rest of the hand. */
  lemma PicksForHead(ids: seq<CardId>, hand: seq<CardId>)
    requires |hand| > 0 && Distinct(hand)
    requires forall k :: 0 <= k < |hand| ==> hand[k] in ids
    ensures var idx := IndexOf(ids, hand[0]);
      && PickIndex(PicksFor(ids, hand), |ids|) == idx
      && NextPicks(PicksFor(ids, hand)) == PicksFor(RemoveAt(ids, idx), hand[1..])
  {
  }

  /**
   * Modelling the random choice by an oracle loses nothing: every hand of
   * distinct cards from the pool is dealt by some sequence of choices.
   */
  lemma {:induction false} DealReachesEveryHand(ids: seq<CardId>, hand: seq<CardId>)
    requires forall k :: 0 <= k < |hand| ==> hand[k] in ids
    requires Distinct(hand)
    ensures DealFrom(ids, PicksFor(ids, hand), |hand|) == hand
    decreases |hand|
  {
    if |hand| > 0 {
      var idx := IndexOf(ids, hand[0]);
      var rest := RemoveAt(ids, idx);
      var picks := PicksFor(ids, hand);
      PicksForHead(ids, hand);
      PicksForRest(ids, hand, idx);
      if |rest| > 0 {
        DealReachesEveryHand(rest, hand[1..]);
        assert DealFrom(ids, picks, |hand|) == [hand[0]] + hand[1..];
      } else {
        assert |hand[1..]| == 0;
      }
      assert hand == [hand[0]] + hand[1..];
    }
  }
}
