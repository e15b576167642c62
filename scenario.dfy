/** The sample game: a green deck whose combo is Ashaya (creatures are lands),
    Ley Weaver (untaps lands), Forest (mana from untapped lands) and Nylea
    (a payoff fed by infinite mana). */
module Scenario {
  import opened Pieces
  import opened Cards
  import opened Hands

  /** Once the ability chain Ashaya -> Ley Weaver -> Forest -> Nylea is all
      catalogued, with Ashaya's ability enabled, a sound hand at a fixed point
      has met its payoff. */
  lemma GreenComboFires(hand: Hand, ashayaAb: Ability, leyWeaverAb: Ability, forestAb: Ability, nyleaAb: Ability)
    requires hand.Sound() && hand.Converged()
    requires ashayaAb in hand.AllAbilities && ashayaAb.isEnabled && CreaturesAreLands in ashayaAb.results
    requires leyWeaverAb in hand.AllAbilities
    requires leyWeaverAb.requirements == {CreaturesAreLands} && leyWeaverAb.results == {InfiniteLandUntaps}
    requires forestAb in hand.AllAbilities
    requires forestAb.requirements == {InfiniteLandUntaps} && forestAb.results == {InfiniteMana}
    requires nyleaAb in hand.AllAbilities
    requires nyleaAb.requirements == {InfiniteMana} && nyleaAb.isPayoff
    ensures hand.hasPayoff
    ensures leyWeaverAb.isEnabled && forestAb.isEnabled && nyleaAb.isEnabled
  {
    // Soundness puts each enabled ability's results among the active pieces,
    // and the fixed point then forces the next ability of the chain enabled.
  }

  /** One step of dealing: `card` goes on the hand's pile and is examined.
      A sound hand at a fixed point stays so, catalogues every ability of
      `card`, and keeps every catalogued ability and its enabled state. */
  method TakeCard(hand: Hand, card: Card)
    modifies hand`AllAbilities, hand`ActivePieces, hand`hasPayoff, hand.cards`AllCards
    modifies (set a | a in hand.AllAbilities || a in card.Abilities)`isEnabled
    ensures hand.cards.AllCards == old(hand.cards.AllCards) + [card, card]
    ensures forall a :: a in card.Abilities ==> a in hand.AllAbilities
    ensures forall a :: a in old(hand.AllAbilities) ==> a in hand.AllAbilities
    ensures forall a :: a in hand.AllAbilities ==> a in old(hand.AllAbilities) || a in card.Abilities
    ensures forall a :: a in hand.AllAbilities && old(a.isEnabled) ==> a.isEnabled
    ensures old(hand.Sound()) && old(hand.Converged()) ==> hand.Sound() && hand.Converged()
  {
    var added := hand.cards.AddCard(card);
    ghost var known := hand.AllAbilities;
    ghost var seeded, activated := hand.ExamineCard(card);
    IntakeAppendsUnseenOnce(known, card.Abilities);
  }

  /** The hand takes every card of `cards`, in order, as `TakeCard` does.
      `pool` holds every ability the hand may enable on the way: those it
      already catalogues and those the cards carry. */
  method TakeCards(hand: Hand, cards: seq<Card>, ghost pool: set<Ability>)
    requires forall a :: a in hand.AllAbilities ==> a in pool
    requires forall k, j :: 0 <= k < |cards| && 0 <= j < |cards[k].Abilities| ==> cards[k].Abilities[j] in pool
    modifies hand`AllAbilities, hand`ActivePieces, hand`hasPayoff, hand.cards`AllCards
    modifies (set a | a in pool)`isEnabled
    ensures |hand.cards.AllCards| == |old(hand.cards.AllCards)| + 2 * |cards|
    ensures forall k, j :: 0 <= k < |cards| && 0 <= j < |cards[k].Abilities| ==> cards[k].Abilities[j] in hand.AllAbilities
    ensures forall a :: a in old(hand.AllAbilities) ==> a in hand.AllAbilities
    ensures forall a :: a in pool && old(a.isEnabled) ==> a.isEnabled
    ensures old(hand.Sound()) && old(hand.Converged()) ==> hand.Sound() && hand.Converged()
  {
    var i := 0;
    while i < |cards|
      invariant 0 <= i <= |cards|
      invariant |hand.cards.AllCards| == |old(hand.cards.AllCards)| + 2 * i
      invariant forall k, j :: 0 <= k < i && 0 <= j < |cards[k].Abilities| ==> cards[k].Abilities[j] in hand.AllAbilities
      invariant forall a :: a in old(hand.AllAbilities) ==> a in hand.AllAbilities
      invariant forall a :: a in hand.AllAbilities ==> a in pool
      invariant forall a :: a in pool && old(a.isEnabled) ==> a.isEnabled
      invariant old(hand.Sound()) && old(hand.Converged()) ==> hand.Sound() && hand.Converged()
    {
      TakeCard(hand, cards[i]);
      i := i + 1;
    }
  }

  /** The deck of the sample game before shuffling: a Forest, four copies of
      it, Ley Weaver and Nylea, each with its one ability, and the commander
      Ashaya kept apart with its ability already enabled. */
  method BuildGreenDeck() returns (deck: CardCollection, commander: Card,
                                   ashayaAb: Ability, forestAb: Ability, leyWeaverAb: Ability, nyleaAb: Ability)
    ensures fresh(deck) && fresh(ashayaAb)
    ensures commander.Abilities == [ashayaAb] && ashayaAb.isEnabled && ashayaAb.results == {CreaturesAreLands}
    ensures |deck.AllCards| == 7
    ensures forall k :: 0 <= k < 7 ==> |deck.AllCards[k].Abilities| == 1 && fresh(deck.AllCards[k].Abilities[0])
    ensures deck.AllCards[0].Abilities == [forestAb]
    ensures forestAb.requirements == {InfiniteLandUntaps} && forestAb.results == {InfiniteMana}
    ensures forall k :: 1 <= k < 5 ==> deck.AllCards[k].Abilities[0].IsCopyOf(forestAb)
    ensures deck.AllCards[5].Abilities == [leyWeaverAb]
    ensures leyWeaverAb.requirements == {CreaturesAreLands} && leyWeaverAb.results == {InfiniteLandUntaps}
    ensures deck.AllCards[6].Abilities == [nyleaAb]
    ensures nyleaAb.requirements == {InfiniteMana} && nyleaAb.isPayoff
  {
    var ashaya, forest, leyWeaver, nylea;
    ashaya, forest, leyWeaver, nylea, ashayaAb, forestAb, leyWeaverAb, nyleaAb := GreenCards();
    deck := new CardCollection("Green");
    commander := ashaya;
    var added := deck.AddCard(forest);
    var copy1 := AddCopy(deck, forest);
    var copy2 := AddCopy(deck, forest);
    var copy3 := AddCopy(deck, forest);
    var copy4 := AddCopy(deck, forest);
    added := deck.AddCard(leyWeaver);
    added := deck.AddCard(nylea);
    assert deck.AllCards == [forest, copy1, copy2, copy3, copy4, leyWeaver, nylea];
  }

  /** The four cards of the sample game, each with its one ability. */
  method GreenCards() returns (ashaya: Card, forest: Card, leyWeaver: Card, nylea: Card,
                               ashayaAb: Ability, forestAb: Ability, leyWeaverAb: Ability, nyleaAb: Ability)
    ensures fresh(forest) && fresh(leyWeaver) && fresh(nylea)
    ensures fresh(ashayaAb) && fresh(forestAb) && fresh(leyWeaverAb) && fresh(nyleaAb)
    ensures ashaya.Abilities == [ashayaAb] && ashayaAb.isEnabled && !ashayaAb.isPayoff
    ensures ashayaAb.requirements == {} && ashayaAb.results == {CreaturesAreLands}
    ensures forest.Abilities == [forestAb] && !forestAb.isEnabled && !forestAb.isPayoff
    ensures forestAb.requirements == {InfiniteLandUntaps} && forestAb.results == {InfiniteMana}
    ensures leyWeaver.Abilities == [leyWeaverAb] && !leyWeaverAb.isEnabled && !leyWeaverAb.isPayoff
    ensures leyWeaverAb.requirements == {CreaturesAreLands} && leyWeaverAb.results == {InfiniteLandUntaps}
    ensures nylea.Abilities == [nyleaAb] && !nyleaAb.isEnabled && nyleaAb.isPayoff
    ensures nyleaAb.requirements == {InfiniteMana} && nyleaAb.results == {InfiniteDamage}
  {
    ashayaAb := new Ability("Ashaya Ability", false, true, results := {CreaturesAreLands});
    forestAb := new Ability("Forest Ability", false, requirements := {InfiniteLandUntaps}, results := {InfiniteMana});
    leyWeaverAb := new Ability("Ley Weaver Ability", false, requirements := {CreaturesAreLands}, results := {InfiniteLandUntaps});
    nyleaAb := new Ability("Nylea Ability", true, requirements := {InfiniteMana}, results := {InfiniteDamage});

    ashaya := CardWith("Ashaya", "Commander", Creature, ashayaAb);
    forest := CardWith("Forest", "Land", Land, forestAb);
    leyWeaver := CardWith("Ley Weaver", "Untap", Creature, leyWeaverAb);
    nylea := CardWith("Nylea, Keen-Eyed", "Payoff", Creature, nyleaAb);
  }

  /** A new card carrying the one ability `ability`. */
  method CardWith(name: string, role: string, cardType: CardType, ability: Ability) returns (card: Card)
    ensures fresh(card) && card.Abilities == [ability]
  {
    card := new Card(name, role, cardType);
    card.Abilities := card.Abilities + [ability];
  }

  /** Puts a copy of a one-ability card on `deck`. */
  method AddCopy(deck: CardCollection, original: Card) returns (copy: Card)
    requires |original.Abilities| == 1
    modifies deck`AllCards
    ensures deck.AllCards == old(deck.AllCards) + [copy]
    ensures fresh(copy) && |copy.Abilities| == 1 && fresh(copy.Abilities[0])
    ensures copy.Abilities[0].IsCopyOf(original.Abilities[0])
  {
    copy := original.Copy();
    var added := deck.AddCard(copy);
  }

  /** The green deck after its shuffle under the draws `picks`: the same
      seven cards in the order the draws give. */
  method ShuffledGreenDeck(picks: seq<nat>) returns (deck: CardCollection, commander: Card,
                                                     ashayaAb: Ability, forestAb: Ability, leyWeaverAb: Ability, nyleaAb: Ability,
                                                     ghost forestAt: nat, ghost leyWeaverAt: nat, ghost nyleaAt: nat)
    requires ValidPicks(picks, 7)
    ensures fresh(deck) && fresh(ashayaAb)
    ensures commander.Abilities == [ashayaAb] && ashayaAb.isEnabled && ashayaAb.results == {CreaturesAreLands}
    ensures |deck.AllCards| == 7
    ensures forall k :: 0 <= k < 7 ==> |deck.AllCards[k].Abilities| == 1 && fresh(deck.AllCards[k].Abilities[0])
    ensures forestAt < 7 && deck.AllCards[forestAt].Abilities == [forestAb]
    ensures forestAb.requirements == {InfiniteLandUntaps} && forestAb.results == {InfiniteMana}
    ensures leyWeaverAt < 7 && deck.AllCards[leyWeaverAt].Abilities == [leyWeaverAb]
    ensures leyWeaverAb.requirements == {CreaturesAreLands} && leyWeaverAb.results == {InfiniteLandUntaps}
    ensures nyleaAt < 7 && deck.AllCards[nyleaAt].Abilities == [nyleaAb]
    ensures nyleaAb.requirements == {InfiniteMana} && nyleaAb.isPayoff
  {
    deck, commander, ashayaAb, forestAb, leyWeaverAb, nyleaAb := BuildGreenDeck();
    ghost var built := deck.AllCards;
    var shuffled := deck.Shuffle(picks);
    forall k | 0 <= k < 7
      ensures |shuffled[k].Abilities| == 1 && fresh(shuffled[k].Abilities[0])
    {
      assert shuffled[k] in built;
    }
    assert built[0] in built && built[5] in built && built[6] in built;
    forestAt :| forestAt < 7 && shuffled[forestAt] == built[0];
    leyWeaverAt :| leyWeaverAt < 7 && shuffled[leyWeaverAt] == built[5];
    nyleaAt :| nyleaAt < 7 && shuffled[nyleaAt] == built[6];
  }

  /** The sample game: builds the green deck, shuffles it with the draws
      `picks`, then has a new hand take the commander and every deck card in
      order, each added to the hand's pile and examined. Whatever the shuffle
      order, the payoff is met. Each card lands twice in the hand's pile: once
      by the explicit add and once by the examination itself. */
  method GreenDeck(picks: seq<nat>) returns (hand: Hand)
    requires ValidPicks(picks, 7)
    ensures hand.hasPayoff
    ensures |hand.cards.AllCards| == 16
  {
    var deck, commander, ashayaAb, forestAb, leyWeaverAb, nyleaAb, forestAt, leyWeaverAt, nyleaAt := ShuffledGreenDeck(picks);
    hand := new Hand();
    TakeCard(hand, commander);

    ghost var pool := {ashayaAb} + set k | 0 <= k < 7 :: deck.AllCards[k].Abilities[0];
    TakeCards(hand, deck.AllCards, pool);
    GreenComboFires(hand, ashayaAb, leyWeaverAb, forestAb, nyleaAb);
  }
}
