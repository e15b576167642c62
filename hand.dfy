/** The hand: its catalog of known abilities, the set of active combo
    pieces, the payoff flag, and the propagation engine over them. */
module Hands {
  import opened Pieces
  import opened Cards

  /** No element occurs twice. */
  predicate Distinct<T(==)>(s: seq<T>) {
    forall i, j :: 0 <= i < j < |s| ==> s[i] != s[j]
  }

  /** The elements that merging `incoming`, in order, into a catalog `known`
      appends: each one not yet in the catalog, tested against the catalog as
      it grows. For abilities, which are objects, the test is by reference. */
  function Intake<T(==)>(known: seq<T>, incoming: seq<T>): (added: seq<T>)
    ensures forall i :: 0 <= i < |added| ==> added[i] in incoming
    decreases |incoming|
  {
    if incoming == [] then []
    else
      var merged := Intake(known, incoming[..|incoming| - 1]);
      var a := incoming[|incoming| - 1];
      if a in known || a in merged then merged else merged + [a]
  }

  /** Intake appends exactly the incoming elements the catalog does not
      hold, each once, so an element listed twice is appended once. */
  lemma {:induction false} IntakeAppendsUnseenOnce<T>(known: seq<T>, incoming: seq<T>)
    ensures forall i :: 0 <= i < |Intake(known, incoming)| ==>
              Intake(known, incoming)[i] in incoming && Intake(known, incoming)[i] !in known
    ensures forall i :: 0 <= i < |incoming| && incoming[i] !in known ==> incoming[i] in Intake(known, incoming)
    ensures Distinct(Intake(known, incoming))
    decreases |incoming|
  {
    if incoming != [] {
      var init := incoming[..|incoming| - 1];
      IntakeAppendsUnseenOnce(known, init);
      assert incoming == init + [incoming[|incoming| - 1]];
    }
  }

  /** Merging one more element of `incoming` appends it exactly when it is
      neither known nor already merged. */
  lemma IntakeStep<T>(known: seq<T>, incoming: seq<T>, i: nat, merged: seq<T>)
    requires i < |incoming| && merged == Intake(known, incoming[..i])
    ensures incoming[i] in known + merged ==> Intake(known, incoming[..i + 1]) == merged
    ensures incoming[i] !in known + merged ==> Intake(known, incoming[..i + 1]) == merged + [incoming[i]]
  {
    assert incoming[..i + 1][..i] == incoming[..i];
  }

  /** The pieces produced by the abilities of `s`, together. */
  ghost function ResultsOf(s: seq<Ability>): set<ComboPiece>
  {
    if s == [] then {} else ResultsOf(s[..|s| - 1]) + s[|s| - 1].results
  }

  /** Some ability of `s` is a payoff. */
  ghost predicate SomePayoff(s: seq<Ability>)
  {
    s != [] && (SomePayoff(s[..|s| - 1]) || s[|s| - 1].isPayoff)
  }

  /** Every ability of `trace` had all its requirements among `base` and the
      results of the abilities before it: the trace is a derivation from `base`. */
  ghost predicate Derivable(base: set<ComboPiece>, trace: seq<Ability>) {
    forall k :: 0 <= k < |trace| ==> trace[k].requirements <= base + ResultsOf(trace[..k])
  }

  /** The abilities one pass over `catalog` activates, in order, when the
      abilities of `enabled` are already enabled and the pieces of `active`
      are active: each ability reached that is disabled and whose
      requirements are all active is activated, and the abilities after it
      see its results. */
  ghost function Pass(catalog: seq<Ability>, enabled: set<Ability>, active: set<ComboPiece>): (fired: seq<Ability>)
    ensures |fired| <= |catalog|
    decreases |catalog|
  {
    if catalog == [] then []
    else
      var a := catalog[0];
      if a !in enabled && a.requirements <= active then
        [a] + Pass(catalog[1..], enabled + {a}, active + a.results)
      else
        Pass(catalog[1..], enabled, active)
  }

  class Hand {
    /** The card pile every collection has; a hand extends it in the program. */
    const cards: CardCollection
    var AllAbilities: seq<Ability>
    var ActivePieces: set<ComboPiece>
    var hasPayoff: bool

    constructor ()
      ensures fresh(cards) && cards.name == "" && cards.AllCards == []
      ensures AllAbilities == [] && ActivePieces == {} && !hasPayoff
      ensures Distinct(AllAbilities) && Sound() && Converged()
    {
      AllAbilities := [];
      ActivePieces := {};
      hasPayoff := false;
      cards := new CardCollection("");
    }

    /** Every active piece comes from an enabled catalogued ability, every
        enabled catalogued ability's results are active, and the payoff flag
        is set exactly when some enabled catalogued ability is a payoff. */
    ghost predicate Sound()
      reads this, set a | a in AllAbilities
    {
      (forall p :: p in ActivePieces ==> exists a :: a in AllAbilities && a.isEnabled && p in a.results) &&
      (forall a :: a in AllAbilities && a.isEnabled ==> a.results <= ActivePieces) &&
      (hasPayoff <==> exists a :: a in AllAbilities && a.isEnabled && a.isPayoff)
    }

    /** Fixed point: no disabled catalogued ability has all its requirements active. */
    ghost predicate Converged()
      reads this, set a | a in AllAbilities
    {
      forall a :: a in AllAbilities && !a.isEnabled ==> !(a.requirements <= ActivePieces)
    }

    /** Enables `ability`, adds its results to the active pieces and latches
        the payoff flag if it is a payoff; nothing else changes. */
    method ActivateAbility(ability: Ability)
      modifies this`ActivePieces, this`hasPayoff, ability`isEnabled
      ensures ability.isEnabled
      ensures ActivePieces == old(ActivePieces) + ability.results
      ensures hasPayoff == (old(hasPayoff) || ability.isPayoff)
    {
      ability.isEnabled := true;
      ActivePieces := AddAll(ActivePieces, ability.results);
      if ability.isPayoff {
        hasPayoff := true;
      }
    }
    /** One step of the intake: an ability the catalog does not hold (by
        reference) is appended and, if it is already enabled, fired at once;
        a catalogued one is skipped and triggers nothing. */
    method MergeAbility(cardAbility: Ability) returns (isNew: bool)
      modifies this`AllAbilities, this`ActivePieces, this`hasPayoff, cardAbility`isEnabled
      ensures isNew == (cardAbility !in old(AllAbilities))
      ensures AllAbilities == old(AllAbilities) + if isNew then [cardAbility] else []
      ensures cardAbility.isEnabled == old(cardAbility.isEnabled)
      ensures ActivePieces == old(ActivePieces) + if isNew && cardAbility.isEnabled then cardAbility.results else {}
      ensures hasPayoff == (old(hasPayoff) || (isNew && cardAbility.isEnabled && cardAbility.isPayoff))
      ensures old(Sound()) ==> Sound()
    {
      isNew := cardAbility !in AllAbilities;
      if isNew {
        AllAbilities := AllAbilities + [cardAbility];
        if cardAbility.isEnabled {
          ActivateAbility(cardAbility);
        }
      }
    }

    /** The first half of examining a card: catalogues, in order, each of the
        card's abilities not yet catalogued, and fires at once those of them
        that are already enabled (`seeded`). Reports whether any was new. */
    method MergeAbilities(newCard: Card) returns (doCheckAbilities: bool, ghost seeded: seq<Ability>)
      modifies this`AllAbilities, this`ActivePieces, this`hasPayoff, (set a | a in newCard.Abilities)`isEnabled
      ensures AllAbilities == old(AllAbilities) + Intake(old(AllAbilities), newCard.Abilities)
      ensures doCheckAbilities == (Intake(old(AllAbilities), newCard.Abilities) != [])
      ensures old(Distinct(AllAbilities)) ==> Distinct(AllAbilities)
      ensures forall a :: a in newCard.Abilities ==> a.isEnabled == old(a.isEnabled)
      ensures forall a :: a in seeded <==> a in Intake(old(AllAbilities), newCard.Abilities) && old(a.isEnabled)
      ensures ActivePieces == old(ActivePieces) + ResultsOf(seeded)
      ensures hasPayoff == (old(hasPayoff) || SomePayoff(seeded))
      ensures !doCheckAbilities ==> seeded == []
      ensures old(Sound()) ==> Sound()
    {
      var abilities := newCard.Abilities;
      ghost var known := AllAbilities;
      ghost var merged: seq<Ability> := [];
      doCheckAbilities := false;
      seeded := [];
      var i := 0;
      while i < |abilities|
        invariant 0 <= i <= |abilities|
        invariant merged == Intake(known, abilities[..i])
        invariant AllAbilities == known + merged
        invariant doCheckAbilities == (merged != [])
        invariant forall a :: a in abilities ==> a.isEnabled == old(a.isEnabled)
        invariant forall a :: a in seeded <==> a in merged && old(a.isEnabled)
        invariant ActivePieces == old(ActivePieces) + ResultsOf(seeded)
        invariant hasPayoff == (old(hasPayoff) || SomePayoff(seeded))
        invariant !doCheckAbilities ==> seeded == []
        invariant old(Sound()) ==> Sound()
      {
        var cardAbility := abilities[i];
        IntakeStep(known, abilities, i, merged);
        ResultsOfSnoc(seeded, cardAbility);
        SomePayoffSnoc(seeded, cardAbility);
        var isNew := MergeAbility(cardAbility);
        if isNew {
          doCheckAbilities := true;
          merged := merged + [cardAbility];
          if cardAbility.isEnabled {
            seeded := seeded + [cardAbility];
          }
        }
        i := i + 1;
      }
      assert abilities[..i] == abilities;
      IntakeAppendsUnseenOnce(known, abilities);
      if Distinct(known) {
        DistinctAppend(known, merged);
      }
    }

    /** One step of a pass: a disabled ability whose requirements are all
        active (the count of its active requirements reaches the size of its
        requirement set) is activated; otherwise nothing changes. */
    method CheckAbility(ability: Ability) returns (activated: bool)
      modifies this`ActivePieces, this`hasPayoff, ability`isEnabled
      ensures activated == (!old(ability.isEnabled) && ability.requirements <= old(ActivePieces))
      ensures ability.isEnabled == (old(ability.isEnabled) || activated)
      ensures ActivePieces == old(ActivePieces) + if activated then ability.results else {}
      ensures hasPayoff == (old(hasPayoff) || (activated && ability.isPayoff))
      ensures old(Sound()) && ability in AllAbilities ==> Sound()
    {
      activated := false;
      if !ability.isEnabled {
        var satisfiedRequirements := CountSatisfied(ability.requirements, ActivePieces);
        SatisfiedCountIsSubsetTest(ability.requirements, ActivePieces);
        if satisfiedRequirements >= |ability.requirements| {
          ActivateAbility(ability);
          activated := true;
        }
      }
    }

    /** The state of a pass that has reached position `j` of the catalog,
        having activated `log`, when it started with the abilities of
        `wasEnabled` enabled and the pieces `startPieces` active: `enabled` is
        the set of enabled abilities, the rest of the pass will activate what
        `Pass` gives for the rest of the catalog, and pieces and payoff flag
        hold exactly what the start and `log` produce. */
    ghost predicate PassState(j: nat, log: seq<Ability>, enabled: set<Ability>, wasEnabled: set<Ability>,
                              startPieces: set<ComboPiece>, startPayoff: bool, startSound: bool)
      reads this, set a | a in AllAbilities
    {
      j <= |AllAbilities| &&
      log + Pass(AllAbilities[j..], enabled, ActivePieces) == Pass(AllAbilities, wasEnabled, startPieces) &&
      (forall a :: a in enabled ==> a in wasEnabled || a in log) &&
      (forall a :: a in wasEnabled ==> a in enabled) &&
      (forall a :: a in log ==> a in enabled) &&
      (forall a :: a in AllAbilities ==> (a.isEnabled <==> a in enabled)) &&
      ActivePieces == startPieces + ResultsOf(log) &&
      hasPayoff == (startPayoff || SomePayoff(log)) &&
      (startSound ==> Sound())
    }

    /** The pass's step at position `j`: checks the ability there and moves
        the pass state on to position `j + 1`. */
    method PassStep(j: nat, ghost log: seq<Ability>, ghost enabled: set<Ability>, ghost wasEnabled: set<Ability>,
                    ghost startPieces: set<ComboPiece>, ghost startPayoff: bool, ghost startSound: bool)
        returns (activated: bool, ghost log': seq<Ability>, ghost enabled': set<Ability>)
      requires j < |AllAbilities|
      requires PassState(j, log, enabled, wasEnabled, startPieces, startPayoff, startSound)
      modifies this`ActivePieces, this`hasPayoff, {AllAbilities[j]}`isEnabled
      ensures activated == (AllAbilities[j] !in enabled && AllAbilities[j].requirements <= old(ActivePieces))
      ensures log' == if activated then log + [AllAbilities[j]] else log
      ensures enabled' == if activated then enabled + {AllAbilities[j]} else enabled
      ensures PassState(j + 1, log', enabled', wasEnabled, startPieces, startPayoff, startSound)
    {
      var ability := AllAbilities[j];
      ResultsOfSnoc(log, ability);
      SomePayoffSnoc(log, ability);
      assert ability.isEnabled <==> ability in enabled;
      activated := CheckAbility(ability);
      PassAdvance(AllAbilities, j, enabled, old(ActivePieces), activated, log);
      if activated {
        log', enabled' := log + [ability], enabled + {ability};
      } else {
        log', enabled' := log, enabled;
        assert ActivePieces == old(ActivePieces);
      }
    }

    /** One pass over the catalog, in catalog order: each disabled ability
        whose requirements are all active at the moment it is reached is
        activated (`log`, in order, which is what `Pass` gives), so a later
        ability in the same pass sees the results of an earlier one. Every
        ability eligible at the start of the pass is activated by it. Reports
        whether anything was activated; if not, the catalog is at a fixed point. */
    method CheckAbilities() returns (doCheckAbilities: bool, ghost log: seq<Ability>)
      modifies this`ActivePieces, this`hasPayoff, (set a | a in AllAbilities)`isEnabled
      ensures log == Pass(AllAbilities, set a | a in AllAbilities && old(a.isEnabled), old(ActivePieces))
      ensures doCheckAbilities == (log != [])
      ensures Distinct(log)
      ensures forall a :: a in log ==> a in AllAbilities && !old(a.isEnabled)
      ensures forall a :: a in AllAbilities ==> (a.isEnabled <==> old(a.isEnabled) || a in log)
      ensures Derivable(old(ActivePieces), log)
      ensures ActivePieces == old(ActivePieces) + ResultsOf(log)
      ensures hasPayoff == (old(hasPayoff) || SomePayoff(log))
      ensures forall a :: a in AllAbilities && !old(a.isEnabled) && a.requirements <= old(ActivePieces) ==> a.isEnabled
      ensures !doCheckAbilities ==> Converged()
      ensures old(Sound()) ==> Sound()
    {
      doCheckAbilities := false;
      log := [];
      ghost var wasEnabled := set a | a in AllAbilities && a.isEnabled;
      ghost var startPieces, startPayoff, startSound := ActivePieces, hasPayoff, Sound();
      ghost var enabled := wasEnabled;
      var j := 0;
      while j < |AllAbilities|
        invariant 0 <= j <= |AllAbilities|
        invariant doCheckAbilities == (log != [])
        invariant PassState(j, log, enabled, wasEnabled, startPieces, startPayoff, startSound)
      {
        var activated;
        activated, log, enabled := PassStep(j, log, enabled, wasEnabled, startPieces, startPayoff, startSound);
        doCheckAbilities := doCheckAbilities || activated;
        j := j + 1;
      }
      assert AllAbilities[j..] == [];
      assert log == Pass(AllAbilities, wasEnabled, startPieces);
      PassFiredFrom(AllAbilities, wasEnabled, startPieces);
      PassDistinct(AllAbilities, wasEnabled, startPieces);
      PassDerivable(AllAbilities, wasEnabled, startPieces);
      PassComplete(AllAbilities, wasEnabled, startPieces);
    }

    /** The passes of examining a card: while the last step reported a change
        (`doCheckAbilities`), runs one more pass over the catalog; `activated`
        lists, in order, every ability the passes activated. The loop stops
        at a fixed point, since each pass that reports a change activates at
        least one of the finitely many catalogued abilities. */
    method RunPasses(doCheckAbilities: bool) returns (ghost activated: seq<Ability>)
      modifies this`ActivePieces, this`hasPayoff, (set a | a in AllAbilities)`isEnabled
      ensures Distinct(activated)
      ensures forall a :: a in activated ==> a in AllAbilities && !old(a.isEnabled)
      ensures forall a :: a in AllAbilities ==> (a.isEnabled <==> old(a.isEnabled) || a in activated)
      ensures Derivable(old(ActivePieces), activated)
      ensures ActivePieces == old(ActivePieces) + ResultsOf(activated)
      ensures hasPayoff == (old(hasPayoff) || SomePayoff(activated))
      ensures !doCheckAbilities ==> activated == []
      ensures doCheckAbilities ==> Converged()
      ensures old(Sound()) ==> Sound()
    {
      var doCheck := doCheckAbilities;
      activated := [];
      while doCheck
        invariant Distinct(activated)
        invariant forall a :: a in activated ==> a in AllAbilities && !old(a.isEnabled)
        invariant forall a :: a in AllAbilities ==> (a.isEnabled <==> old(a.isEnabled) || a in activated)
        invariant Derivable(old(ActivePieces), activated)
        invariant ActivePieces == old(ActivePieces) + ResultsOf(activated)
        invariant hasPayoff == (old(hasPayoff) || SomePayoff(activated))
        invariant !doCheckAbilities ==> activated == [] && !doCheck
        invariant doCheckAbilities && !doCheck ==> Converged()
        invariant |activated| <= |AllAbilities|
        invariant old(Sound()) ==> Sound()
        decreases |AllAbilities| - |activated|, doCheck
      {
        ghost var log;
        ghost var before := activated;
        doCheck, log := CheckAbilities();
        DistinctAppend(before, log);
        activated := activated + log;
        ResultsOfAppend(before, log);
        SomePayoffAppend(before, log);
        DerivableAppend(old(ActivePieces), before, log);
        DistinctLength(activated, AllAbilities);
      }
    }

    /** Puts `newCard` in the hand, catalogues its unseen abilities (firing
        those already enabled: `seeded`), then, if any was unseen, repeats
        passes over the catalog until one activates nothing (`activated`
        lists, in order, every ability the passes activated). */
    method ExamineCard(newCard: Card) returns (ghost seeded: seq<Ability>, ghost activated: seq<Ability>)
      modifies this`AllAbilities, this`ActivePieces, this`hasPayoff, cards`AllCards
      modifies (set a | a in AllAbilities || a in newCard.Abilities)`isEnabled
      ensures cards.AllCards == old(cards.AllCards) + [newCard]
      // intake: unseen abilities are appended once each, in order
      ensures AllAbilities == old(AllAbilities) + Intake(old(AllAbilities), newCard.Abilities)
      ensures old(Distinct(AllAbilities)) ==> Distinct(AllAbilities)
      // seeding: exactly the appended abilities that were already enabled fire at intake
      ensures forall a :: a in seeded <==> a in Intake(old(AllAbilities), newCard.Abilities) && old(a.isEnabled)
      // convergence: a distinct trace of catalogued abilities that were disabled,
      // each activated once its requirements were active
      ensures Distinct(activated)
      ensures forall a :: a in activated ==> a in AllAbilities && !old(a.isEnabled)
      ensures forall a :: a in AllAbilities ==> (a.isEnabled <==> old(a.isEnabled) || a in activated)
      ensures Derivable(old(ActivePieces) + ResultsOf(seeded), activated)
      ensures ActivePieces == old(ActivePieces) + ResultsOf(seeded) + ResultsOf(activated)
      ensures hasPayoff == (old(hasPayoff) || SomePayoff(seeded) || SomePayoff(activated))
      // the passes run only if an ability was appended, and then end at a fixed point
      ensures Intake(old(AllAbilities), newCard.Abilities) == [] ==> seeded == [] && activated == []
      ensures Intake(old(AllAbilities), newCard.Abilities) != [] || old(Converged()) ==> Converged()
      // monotonicity
      ensures old(ActivePieces) <= ActivePieces
      ensures old(hasPayoff) ==> hasPayoff
      ensures forall a :: a in old(AllAbilities) && old(a.isEnabled) ==> a.isEnabled
      // soundness is preserved
      ensures old(Sound()) ==> Sound()
    {
      cards.AllCards := cards.AllCards + [newCard];
      var doCheckAbilities;
      doCheckAbilities, seeded := MergeAbilities(newCard);
      assert forall a :: a in AllAbilities ==> a.isEnabled == old(a.isEnabled);
      activated := RunPasses(doCheckAbilities);
    }
  }

  /** Two sequences without repetitions and without common elements join into one. */
  lemma DistinctAppend<T>(s: seq<T>, t: seq<T>)
    requires Distinct(s) && Distinct(t)
    requires forall i :: 0 <= i < |t| ==> t[i] !in s
    ensures Distinct(s + t)
  {
  }

  /** The pass from position `j` of `catalog` on first decides the ability
      at `j` (`fired`), then goes on from `j + 1` with its results added;
      `done` is what the pass activated before `j`. */
  lemma PassAdvance(catalog: seq<Ability>, j: nat, enabled: set<Ability>, active: set<ComboPiece>, fired: bool,
                    done: seq<Ability>)
    requires j < |catalog|
    requires fired == (catalog[j] !in enabled && catalog[j].requirements <= active)
    ensures fired ==> done + Pass(catalog[j..], enabled, active) ==
                      (done + [catalog[j]]) + Pass(catalog[j + 1..], enabled + {catalog[j]}, active + catalog[j].results)
    ensures !fired ==> done + Pass(catalog[j..], enabled, active) == done + Pass(catalog[j + 1..], enabled, active)
  {
    assert catalog[j..][1..] == catalog[j + 1..];
  }

  /** A pass activates only catalogued abilities that were disabled. */
  lemma {:induction false} PassFiredFrom(catalog: seq<Ability>, enabled: set<Ability>, active: set<ComboPiece>)
    ensures forall a :: a in Pass(catalog, enabled, active) ==> a in catalog && a !in enabled
    decreases |catalog|
  {
    if catalog != [] {
      var a := catalog[0];
      if a !in enabled && a.requirements <= active {
        PassFiredFrom(catalog[1..], enabled + {a}, active + a.results);
      } else {
        PassFiredFrom(catalog[1..], enabled, active);
      }
    }
  }

  /** A pass activates each ability at most once. */
  lemma {:induction false} PassDistinct(catalog: seq<Ability>, enabled: set<Ability>, active: set<ComboPiece>)
    ensures Distinct(Pass(catalog, enabled, active))
    decreases |catalog|
  {
    if catalog != [] {
      var a := catalog[0];
      if a !in enabled && a.requirements <= active {
        PassDistinct(catalog[1..], enabled + {a}, active + a.results);
        PassFiredFrom(catalog[1..], enabled + {a}, active + a.results);
        DistinctAppend([a], Pass(catalog[1..], enabled + {a}, active + a.results));
      } else {
        PassDistinct(catalog[1..], enabled, active);
      }
    }
  }

  /** What a pass activates is a derivation from the pieces active at its start. */
  lemma {:induction false} PassDerivable(catalog: seq<Ability>, enabled: set<Ability>, active: set<ComboPiece>)
    ensures Derivable(active, Pass(catalog, enabled, active))
    decreases |catalog|
  {
    if catalog != [] {
      var a := catalog[0];
      if a !in enabled && a.requirements <= active {
        PassDerivable(catalog[1..], enabled + {a}, active + a.results);
        assert ResultsOf([a]) == a.results;
        DerivableSnoc(active, [], a);
        DerivableAppend(active, [a], Pass(catalog[1..], enabled + {a}, active + a.results));
      } else {
        PassDerivable(catalog[1..], enabled, active);
      }
    }
  }

  /** A pass activates every catalogued ability that is disabled and whose
      requirements are active when the pass starts. */
  lemma {:induction false} PassComplete(catalog: seq<Ability>, enabled: set<Ability>, active: set<ComboPiece>)
    ensures forall a :: a in catalog && a !in enabled && a.requirements <= active ==> a in Pass(catalog, enabled, active)
    decreases |catalog|
  {
    if catalog != [] {
      var a := catalog[0];
      assert forall b :: b in catalog ==> b == a || b in catalog[1..];
      if a !in enabled && a.requirements <= active {
        PassComplete(catalog[1..], enabled + {a}, active + a.results);
      } else {
        PassComplete(catalog[1..], enabled, active);
      }
    }
  }

  lemma ResultsOfSnoc(s: seq<Ability>, a: Ability)
    ensures ResultsOf(s + [a]) == ResultsOf(s) + a.results
  {
  }

  /** A sequence without repetitions whose elements all occur in `t` is no longer than `t`. */
  lemma DistinctLength<T>(s: seq<T>, t: seq<T>)
    requires Distinct(s)
    requires forall i :: 0 <= i < |s| ==> s[i] in t
    ensures |s| <= |t|
  {
    var elements := set x | x in s;
    var room := set x | x in t;
    DistinctElements(s);
    SeqElements(t);
    SubsetCardinality(elements, room);
  }

  lemma {:induction false} DistinctElements<T>(s: seq<T>)
    requires Distinct(s)
    ensures |set x | x in s| == |s|
    decreases |s|
  {
    if s != [] {
      var init := s[..|s| - 1];
      DistinctElements(init);
      assert (set x | x in s) == (set x | x in init) + {s[|s| - 1]};
    }
  }

  lemma {:induction false} SeqElements<T>(t: seq<T>)
    ensures |set x | x in t| <= |t|
    decreases |t|
  {
    if t != [] {
      var init := t[..|t| - 1];
      SeqElements(init);
      assert (set x | x in t) == (set x | x in init) + {t[|t| - 1]};
    }
  }

  lemma DerivableSnoc(base: set<ComboPiece>, trace: seq<Ability>, a: Ability)
    requires Derivable(base, trace)
    requires a.requirements <= base + ResultsOf(trace)
    ensures Derivable(base, trace + [a])
  {
    var extended := trace + [a];
    forall k | 0 <= k < |extended|
      ensures extended[k].requirements <= base + ResultsOf(extended[..k])
    {
      if k < |trace| {
        assert extended[..k] == trace[..k];
      } else {
        assert extended[..k] == trace;
      }
    }
  }

  /** A derivation from `base` followed by a derivation from what the first
      one produced is a derivation from `base`. */
  lemma DerivableAppend(base: set<ComboPiece>, s: seq<Ability>, t: seq<Ability>)
    requires Derivable(base, s)
    requires Derivable(base + ResultsOf(s), t)
    ensures Derivable(base, s + t)
  {
    var joined := s + t;
    forall k | 0 <= k < |joined|
      ensures joined[k].requirements <= base + ResultsOf(joined[..k])
    {
      if k < |s| {
        assert joined[..k] == s[..k];
      } else {
        assert joined[..k] == s + t[..k - |s|];
        ResultsOfAppend(s, t[..k - |s|]);
      }
    }
  }

  lemma {:induction false} ResultsOfAppend(s: seq<Ability>, t: seq<Ability>)
    ensures ResultsOf(s + t) == ResultsOf(s) + ResultsOf(t)
    decreases |t|
  {
    if t == [] {
      assert s + t == s;
    } else {
      assert s + t == (s + t[..|t| - 1]) + [t[|t| - 1]];
      ResultsOfAppend(s, t[..|t| - 1]);
    }
  }

  lemma SomePayoffSnoc(s: seq<Ability>, a: Ability)
    ensures SomePayoff(s + [a]) <==> SomePayoff(s) || a.isPayoff
  {
  }

  lemma {:induction false} SomePayoffAppend(s: seq<Ability>, t: seq<Ability>)
    ensures SomePayoff(s + t) <==> SomePayoff(s) || SomePayoff(t)
    decreases |t|
  {
    if t == [] {
      assert s + t == s;
    } else {
      assert s + t == (s + t[..|t| - 1]) + [t[|t| - 1]];
      SomePayoffAppend(s, t[..|t| - 1]);
    }
  }

  /** `SomePayoff` holds exactly when some listed ability is a payoff. */
  lemma {:induction false} SomePayoffMeans(s: seq<Ability>)
    ensures SomePayoff(s) <==> exists a :: a in s && a.isPayoff
    decreases |s|
  {
    if s != [] {
      SomePayoffMeans(s[..|s| - 1]);
      assert s == s[..|s| - 1] + [s[|s| - 1]];
    }
  }
}
