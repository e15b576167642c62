# CS Grinder combo engine, modelled in Dafny

CS Grinder asks one question of a Magic: The Gathering deck: does the combo
come together? Each card carries abilities. An ability has a set of
*requirements* and a set of *results*, both made of combo pieces (infinite
mana, infinite land untaps, creatures are lands, ...), and it may be a
*payoff*.

A hand examines cards one at a time:

- It first puts the card on its pile.
- It then catalogues the card's abilities it has not seen before, compared by
  object identity. New abilities that are already enabled fire straight away.
- Next it makes passes over the whole catalogue. Each pass enables every
  disabled ability whose requirements are all active, adding its results to
  the active pieces.
- The passes repeat until one enables nothing. The hand records whether a
  payoff ability has fired.

The model is imperative, like the program:

- Cards, abilities, card piles and the hand are classes whose fields the
  methods update in place.
- The program's set-filling and counting loops are `while` loops with their
  invariants.
- Every operation is proved against a specification stated in terms of the
  old state.

Modules:

- `Pieces` (`pieces.dfy`): the two enumerations and the two loops over piece
  sets. One adds pieces to a set; the other counts satisfied requirements.
- `Cards` (`cards.dfy`): `Ability`, `Card` and `CardCollection` with their
  copies, append, pop-front and shuffle.
- `Hands` (`hand.dfy`): the `Hand` and its propagation engine.
- `Scenario` (`scenario.dfy`): the sample game of the program's entry point.

The proved properties are:

- The catalogue gains exactly the unseen abilities of a card, once each, and
  never holds a duplicate.
- Abilities that are already enabled fire at intake.
- The requirement count test is a subset test.
- Passes run only when something new was catalogued, always terminate, and
  end at a fixed point: no disabled catalogued ability has all its
  requirements active.
- Every ability a pass enables was *derivable*: when it fired, its
  requirements were among the pieces active at the start plus the results
  of the abilities fired before it.
- Active pieces, enabled flags and the payoff flag only grow.
- The hand stays *sound*. Every active piece comes from an enabled
  catalogued ability, every enabled catalogued ability's results are active,
  and the payoff flag is set exactly when an enabled catalogued payoff
  exists.
- For the sample green deck, the payoff is reached whatever order the
  shuffle leaves the deck in.

The ghost out-parameters of `ExamineCard` and its steps record what
happened. `seeded` lists the abilities fired at intake; `activated` lists the
abilities the passes enabled, in order. Only `activated` matches the
program's "... activated!" log: an ability fired at intake is activated
without that message.

One pass over the catalogue is specified by the function `Pass`. It walks the
catalogue in order, activates each disabled ability whose requirements are
active when it is reached, and lets the abilities after it see its results.
The pass method is proved to activate exactly what `Pass` gives. Lemmas about
`Pass` state that it activates each ability at most once, only disabled
catalogued ones, as a derivation, and every ability that was eligible when the
pass began.

The sample game also shows a quirk of the entry point. It calls `AddCard` and
then `ExamineCard`, which adds the card again. Each of the eight cards
therefore ends up twice in the hand's pile: the model proves the pile has 16
cards.

## Model

| member | source | states |
|---|---|---|
| Pieces.AddAll | Program.cs:229-232 | the `foreach ... Add` loop leaves exactly the union of the target set and the added pieces |
| Pieces.CountSatisfied | Program.cs:207-214 | the counting loop returns the number of requirements present among the active pieces |
| Pieces.SatisfiedCountIsSubsetTest | Program.cs:207-215 | the count reaches the number of requirements exactly when every requirement is active; an empty requirement set always passes |
| Cards.Ability.constructor | Program.cs:64-71 | name, payoff and enabled flags as given (not enabled by default); requirements and results given at construction |
| Cards.Ability.Copy | Program.cs:73-85 | a fresh ability with the same name, payoff flag, requirements and results, and not enabled |
| Cards.Card.constructor | Program.cs:19-33 | name, role and type as given (a blank artifact by default) and no abilities |
| Cards.Card.Copy | Program.cs:45-53 | a fresh card with the same name, role and type; its abilities are fresh, pairwise distinct copies of the original's, position by position, so none of them is already in any catalogue |
| Cards.CardCollection.constructor | Program.cs:134-139 | a named, empty pile |
| Cards.CardCollection.AddCard | Program.cs:93-97 | appends the card at the end and reports success |
| Cards.CardCollection.DrawCard | Program.cs:99-104 | on a non-empty pile returns the first card and leaves the rest, in order; on an empty pile fails with the out-of-range error and leaves the pile empty |
| Cards.Shuffled | Program.cs:106-121 | the shuffle's output order for given draws has as many cards as the input |
| Cards.ShuffledIsPermutation | Program.cs:106-121 | the shuffle's output is a permutation of its input |
| Cards.CardCollection.Shuffle | Program.cs:106-121 | the draw-and-move loop produces the order `Shuffled` gives, which is a permutation of the old pile, and returns the new pile |
| Hands.Intake | Program.cs:188-198 | each ability merging a card into a catalogue appends comes from the card |
| Hands.IntakeAppendsUnseenOnce | Program.cs:188-198 | the merge appends only abilities that are not already catalogued; it appends every such ability of the card; it appends none twice |
| Hands.IntakeStep | Program.cs:188-193 | one more ability of the card is appended exactly when it is neither catalogued nor already merged |
| Hands.Hand.constructor | Program.cs:174-181 | an empty catalogue, no active pieces, no payoff and an empty unnamed pile; this state is duplicate-free, sound and at a fixed point |
| Hands.Hand.ActivateAbility | Program.cs:226-238 | the ability becomes enabled, the active pieces gain exactly its results, the payoff flag latches if it is a payoff, and nothing else changes |
| Hands.Hand.MergeAbility | Program.cs:190-197 | an ability not in the catalogue (by reference) is appended and, if already enabled, fired; a catalogued one changes nothing; soundness is kept |
| Hands.Hand.MergeAbilities | Program.cs:187-199 | the catalogue gains exactly `Intake` of the card's abilities; it stays duplicate-free; the flag is set exactly when something was appended; exactly the appended abilities already enabled fire; soundness is kept |
| Hands.Hand.CheckAbility | Program.cs:205-221 | a disabled ability fires exactly when its requirements are all active, adding its results and latching the payoff; otherwise nothing changes; soundness is kept |
| Hands.Pass | Program.cs:203-221 | the abilities one pass activates, in catalogue order, each seeing the results of those before it; a pass activates at most one ability per catalogue position |
| Hands.PassAdvance | Program.cs:203-221 | from position `j` on, the pass first decides the ability at `j` and then continues from `j + 1` with that ability's results added |
| Hands.PassFiredFrom | Program.cs:205-218 | a pass activates only catalogued abilities that were disabled when it began |
| Hands.PassDistinct | Program.cs:205-218 | a pass activates each ability at most once |
| Hands.PassDerivable | Program.cs:207-218 | each ability a pass activates had its requirements among the pieces active at the start of the pass plus the results of the abilities activated before it |
| Hands.PassComplete | Program.cs:203-221 | a pass activates every catalogued ability that was disabled and had all its requirements active when the pass began |
| Hands.Hand.PassStep | Program.cs:205-220 | checking the ability at position `j` advances the pass state: enabled flags, pieces, payoff flag and the rest of the pass stay in line with `Pass` |
| Hands.Hand.CheckAbilities | Program.cs:202-222 | one pass activates exactly what `Pass` gives for the catalogue, the enabled flags and the active pieces at its start. That is a duplicate-free, derivable sequence of previously disabled catalogued abilities, and it includes every ability that was eligible at the start. The pieces and payoff flag grow by exactly what it produces. The pass reports a change exactly when it fired something; if it fired nothing, the catalogue is at a fixed point. Soundness is kept |
| Hands.Hand.RunPasses | Program.cs:200-223 | the passes terminate. Together they fire a duplicate-free, derivable sequence of previously disabled catalogued abilities, and only those. Pieces and payoff grow by exactly their output. When run, they end at a fixed point. Soundness is kept |
| Hands.Hand.ExamineCard | Program.cs:183-224 | the card is appended to the pile and its unseen abilities to the catalogue (duplicate-free). The seeded abilities are exactly the appended ones already enabled, and the pass trace is derivable from what they produce. Active pieces and the payoff flag are exactly the old ones plus what seeding and passes produced. With nothing appended, nothing else happens; otherwise the hand ends at a fixed point. Pieces, enabled flags and the payoff flag are monotone, and soundness is kept |
| Hands.DerivableAppend | Program.cs:200-223 | a derivation followed by a derivation from what it produced is one derivation; this is how successive passes chain |
| Hands.DistinctLength | Program.cs:200-223 | a duplicate-free sequence drawn from the catalogue is no longer than the catalogue, which bounds the number of passes that fire something |
| Hands.ResultsOfAppend | Program.cs:229-232 | the pieces produced by two traces in turn are the union of what each produces |
| Hands.SomePayoffAppend | Program.cs:233-237 | a payoff was fired along two traces in turn exactly when one was fired along either |
| Hands.SomePayoffMeans | Program.cs:233-237 | a trace fires a payoff exactly when one of its abilities is a payoff |
| Scenario.TakeCard | Program.cs:285-286 | adding and examining one card appends it to the pile twice, catalogues all its abilities, and keeps the catalogue, the enabled flags, soundness and the fixed point |
| Scenario.TakeCards | Program.cs:283-287 | taking every card of a pile in order catalogues every ability of every card and keeps soundness and the fixed point |
| Scenario.GreenComboFires | Program.cs:250-265 | once the Ashaya, Ley Weaver, Forest and Nylea abilities are catalogued and Ashaya's is enabled, a sound hand at a fixed point has all four enabled and its payoff met |
| Scenario.GreenCards | Program.cs:245-265 | the four cards, each carrying its one ability with the requirements, results, enabled flag and payoff flag the program gives it |
| Scenario.BuildGreenDeck | Program.cs:267-276 | the deck holds the Forest, four fresh cards whose one ability is a copy of the Forest's, Ley Weaver and Nylea, each with one fresh ability |
| Scenario.ShuffledGreenDeck | Program.cs:267-277 | after the shuffle, the deck still holds seven one-ability cards, among them the Forest, Ley Weaver and Nylea |
| Scenario.GreenDeck | Program.cs:243-289 | for every possible sequence of shuffle draws, the hand that takes the commander and then the whole deck meets its payoff and holds 16 cards |

## Left out

- Console output: the `Print` methods and every `Console.WriteLine` are left out. They affect nothing the engine computes.
- `CardLibrary` is not modelled. Its commander is a plain `Card` in the scenario. `returnCards` is omitted because it removes from the list it is iterating over, which throws after the first removal. Its constructors are represented by `CardCollection`'s.
- Cards.CardCollection.Shuffle: `System.Random` is represented by the parameter `picks`, the sequence of values its `Next` calls would return. Each value is assumed to lie in the range `Next` guarantees.
- Cards.Ability.constructor: in the program `requirements` and `results` start empty and are filled by `Add` calls afterwards. Here they are constructor arguments, and together with `name` and `isPayoff` they are immutable fields. The program never changes them once an ability is in use, and only `isEnabled` changes during propagation.
- Hands.Hand.constructor: the program's `Hand` inherits from the abstract `CardCollection`. The model gives the hand a `cards` field holding its own pile instead.
- Hands.Hand.ExamineCard: the intake loop, one pass and the repeated passes are the methods `MergeAbilities`, `CheckAbilities` and `RunPasses`. Steps of those are `MergeAbility`, `PassStep` and `CheckAbility`; `PassStep` is `CheckAbility` together with the bookkeeping that ties a pass to `Pass`. The statements and their order are those of the program.
- `HashSet<ComboPiecesEnum>` is a Dafny `set`. `List<T>` is a `seq` field that the methods reassign. `List.Contains` on abilities is `in`, which on objects is reference equality, as the default `Equals` is.
- Cards.CardCollection.DrawCard: the `ArgumentOutOfRangeException` on an empty pile is the `Failure` result.
- `role` and `type` are stored and copied but never read by the engine. Only the program's `Print` methods read them, and those are left out.
