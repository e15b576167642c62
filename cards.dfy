/** Abilities, cards and card collections: the data the engine is fed. */
module Cards {
  import opened Pieces

  /** One unlockable effect. Abilities are objects: the engine's catalog
      tells two of them apart by reference, never by content. */
  class Ability {
    const name: string
    const requirements: set<ComboPiece>
    const results: set<ComboPiece>
    const isPayoff: bool
    var isEnabled: bool

    /** The program builds an ability with empty requirement and result sets
        and fills them before first use; here they are given at construction. */
    constructor (name: string := "", isPayoff: bool := false, isEnabled: bool := false,
                 requirements: set<ComboPiece> := {}, results: set<ComboPiece> := {})
      ensures this.name == name && this.isPayoff == isPayoff && this.isEnabled == isEnabled
      ensures this.requirements == requirements && this.results == results
    {
      this.name := name;
      this.isPayoff := isPayoff;
      this.isEnabled := isEnabled;
      this.requirements := requirements;
      this.results := results;
    }

    /** `this` is a copy of `original`: the same content, not yet enabled. */
    ghost predicate IsCopyOf(original: Ability)
      reads this
    {
      name == original.name && isPayoff == original.isPayoff &&
      requirements == original.requirements && results == original.results &&
      !isEnabled
    }

    /** A new ability with this one's name, payoff flag, requirements and
        results, in the disabled state whatever the state of this one. */
    method Copy() returns (copy: Ability)
      ensures fresh(copy) && copy.IsCopyOf(this)
    {
      var copiedRequirements := AddAll({}, requirements);
      var copiedResults := AddAll({}, results);
      copy := new Ability(name, isPayoff, requirements := copiedRequirements, results := copiedResults);
    }
  }

  /** A card: opaque name, role and type, and the abilities it carries. */
  class Card {
    var name: string
    var role: string
    var cardType: CardType
    var Abilities: seq<Ability>

    /** Both constructors of the program: with no arguments a blank artifact. */
    constructor (name: string := "", role: string := "", cardType: CardType := Artifact)
      ensures this.name == name && this.role == role && this.cardType == cardType
      ensures Abilities == []
    {
      this.name := name;
      this.role := role;
      this.cardType := cardType;
      Abilities := [];
    }

    /** A new card with the same name, role and type whose abilities are new,
        pairwise distinct copies of this card's abilities, position by position. */
    method Copy() returns (copied: Card)
      ensures fresh(copied)
      ensures copied.name == name && copied.role == role && copied.cardType == cardType
      ensures |copied.Abilities| == |Abilities|
      ensures forall i :: 0 <= i < |Abilities| ==>
                fresh(copied.Abilities[i]) && copied.Abilities[i].IsCopyOf(Abilities[i])
      ensures forall i, j :: 0 <= i < j < |Abilities| ==> copied.Abilities[i] != copied.Abilities[j]
    {
      copied := new Card(name, role, cardType);
      var i := 0;
      while i < |Abilities|
        invariant 0 <= i <= |Abilities|
        invariant fresh(copied)
        invariant copied.name == name && copied.role == role && copied.cardType == cardType
        invariant |copied.Abilities| == i
        invariant forall k :: 0 <= k < i ==>
                    fresh(copied.Abilities[k]) && copied.Abilities[k].IsCopyOf(Abilities[k])
        invariant forall k, l :: 0 <= k < l < i ==> copied.Abilities[k] != copied.Abilities[l]
      {
        var copy := Abilities[i].Copy();
        copied.Abilities := copied.Abilities + [copy];
        i := i + 1;
      }
    }
  }

  /** Why a list operation failed. */
  datatype ListError = ArgumentOutOfRange

  /** The outcome of an operation that the program lets throw. */
  datatype Result<T> = Success(value: T) | Failure(error: ListError)

  /** `picks` is a full run of draws for shuffling `count` items: one per
      item, the k-th below the number of items left after k draws. */
  predicate ValidPicks(picks: seq<nat>, count: nat) {
    |picks| == count && forall k :: 0 <= k < |picks| ==> picks[k] < count - k
  }

  /** The order the shuffle produces from `s` under the draws `picks`. */
  function Shuffled<T>(s: seq<T>, picks: seq<nat>): (r: seq<T>)
    requires ValidPicks(picks, |s|)
    ensures |r| == |s|
    decreases |s|
  {
    if s == [] then []
    else
      assert picks[0] < |s|;
      assert ValidPicks(picks[1..], |s| - 1) by {
        forall k | 0 <= k < |picks| - 1 ensures picks[1..][k] < |s| - 1 - k {
          assert picks[1..][k] == picks[k + 1];
        }
      }
      [s[picks[0]]] + Shuffled(s[..picks[0]] + s[picks[0] + 1..], picks[1..])
  }

  /** Shuffling only reorders: every item is kept, as often as it occurred. */
  lemma {:induction false} ShuffledIsPermutation<T>(s: seq<T>, picks: seq<nat>)
    requires ValidPicks(picks, |s|)
    ensures multiset(Shuffled(s, picks)) == multiset(s)
    decreases |s|
  {
    if s != [] {
      var rest := s[..picks[0]] + s[picks[0] + 1..];
      assert ValidPicks(picks[1..], |s| - 1) by {
        forall k | 0 <= k < |picks| - 1 ensures picks[1..][k] < |s| - 1 - k {
          assert picks[1..][k] == picks[k + 1];
        }
      }
      ShuffledIsPermutation(rest, picks[1..]);
      assert s == s[..picks[0]] + [s[picks[0]]] + s[picks[0] + 1..];
    }
  }

  /** An ordered pile of cards (a library or a hand). */
  class CardCollection {
    var name: string
    var AllCards: seq<Card>

    constructor (name: string := "")
      ensures this.name == name && AllCards == []
    {
      this.name := name;
      AllCards := [];
    }

    /** Appends `card`; always reports success. */
    method AddCard(card: Card) returns (added: bool)
      modifies this`AllCards
      ensures added
      ensures AllCards == old(AllCards) + [card]
    {
      AllCards := AllCards + [card];
      added := true;
    }

    /** Removes and returns the first card; on an empty pile the program's
        indexer throws, which is the `Failure` here, and the pile is unchanged. */
    method DrawCard() returns (drawn: Result<Card>)
      modifies this`AllCards
      ensures old(AllCards) == [] ==> drawn == Failure(ArgumentOutOfRange) && AllCards == []
      ensures old(AllCards) != [] ==>
                drawn == Success(old(AllCards)[0]) && AllCards == old(AllCards)[1..]
    {
      if AllCards == [] {
        drawn := Failure(ArgumentOutOfRange);
      } else {
        var card := AllCards[0];
        AllCards := AllCards[1..];
        drawn := Success(card);
      }
    }

    /** Rebuilds the pile by repeatedly moving a randomly chosen remaining
        card to the end of a new pile. `picks` stands for the random draws:
        the k-th is below the number of cards left after k moves. */
    method Shuffle(picks: seq<nat>) returns (newCards: seq<Card>)
      requires ValidPicks(picks, |AllCards|)
      modifies this`AllCards
      ensures AllCards == newCards
      ensures newCards == Shuffled(old(AllCards), picks)
      ensures multiset(newCards) == multiset(old(AllCards))
      ensures forall c :: c in newCards <==> c in old(AllCards)
    {
      ShuffledIsPermutation(AllCards, picks);
      newCards := [];
      var i := 0;
      while |AllCards| > 0
        invariant 0 <= i <= |picks| && |AllCards| == |picks| - i
        invariant ValidPicks(picks[i..], |AllCards|)
        invariant newCards + Shuffled(AllCards, picks[i..]) == Shuffled(old(AllCards), picks)
        decreases |AllCards|
      {
        var pick := picks[i];
        assert picks[i..][1..] == picks[i + 1..];
        newCards := newCards + [AllCards[pick]];
        AllCards := AllCards[..pick] + AllCards[pick + 1..];
        i := i + 1;
      }
      AllCards := newCards;
      assert forall c :: c in newCards <==> c in multiset(old(AllCards));
    }
  }
}
