/** Combo pieces and card types, and the two set loops the engine runs over pieces. */
module Pieces {

  /** The symbolic conditions an ability can require or produce. */
  datatype ComboPiece =
    | InfiniteMana
    | InfiniteCreatureUntaps
    | InfiniteLandUntaps
    | CreaturesAreLands
    | InfiniteDamage

  /** A card's type tag; the engine never inspects it. */
  datatype CardType = Artifact | Creature | Enchantment | Instant | Land | Sorcery

  /** Adds every piece of `items` to `target`, one `Add` at a time, as the
      `foreach` loops that fill a piece set do. */
  method AddAll(target: set<ComboPiece>, items: set<ComboPiece>) returns (filled: set<ComboPiece>)
    ensures filled == target + items
  {
    filled := target;
    var remaining := items;
    while remaining != {}
      invariant remaining <= items
      invariant filled == target + (items - remaining)
      decreases remaining
    {
      var piece :| piece in remaining;
      filled := filled + {piece};
      remaining := remaining - {piece};
    }
  }

  /** Counts the requirements that are present in `active`. */
  method CountSatisfied(requirements: set<ComboPiece>, active: set<ComboPiece>) returns (satisfied: nat)
    ensures satisfied == |requirements * active|
  {
    satisfied := 0;
    var remaining := requirements;
    while remaining != {}
      invariant remaining <= requirements
      invariant satisfied == |(requirements - remaining) * active|
      decreases remaining
    {
      var requirement :| requirement in remaining;
      ghost var done := (requirements - remaining) * active;
      if requirement in active {
        assert (requirements - (remaining - {requirement})) * active == done + {requirement};
        satisfied := satisfied + 1;
      } else {
        assert (requirements - (remaining - {requirement})) * active == done;
      }
      remaining := remaining - {requirement};
    }
  }

  /** A subset never has more elements than its superset. */
  lemma {:induction false} SubsetCardinality<T>(small: set<T>, large: set<T>)
    requires small <= large
    ensures |small| <= |large|
    decreases large
  {
    if small != {} {
      var x :| x in small;
      SubsetCardinality(small - {x}, large - {x});
    }
  }

  /** The count of satisfied requirements reaches the number of requirements
      exactly when every requirement is active; with no requirements the test
      always passes. */
  lemma SatisfiedCountIsSubsetTest(requirements: set<ComboPiece>, active: set<ComboPiece>)
    ensures |requirements * active| >= |requirements| <==> requirements <= active
    ensures requirements == {} ==> |requirements * active| >= |requirements|
  {
    if !(requirements <= active) {
      var missing :| missing in requirements && missing !in active;
      SubsetCardinality(requirements * active, requirements - {missing});
    } else {
      assert requirements * active == requirements;
    }
  }
}
