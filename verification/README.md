# Markov name generator — a Dafny model

This project models the core of `main.cpp` of a small name generator: an
order-3 Markov chain over `char`. The chain is trained on samples (names) and
then used in three ways. It can enumerate every word it can produce, lazily
and depth first, most frequent branch first. It can pick a next symbol at
random. And a `NumberEncoder` can spell an integer as a word.

The model follows the program's five parts, one Dafny module per part:

- `symbols.dfy` (`Symbols`): `char` as `Symbol`, with the NUL byte as `ZERO`.
- `state.dfy` (`States`): `State` is a class over a 3-cell array whose
  `push_back` and `push_front` shift in place. Pure functions `ShiftIn`,
  `ShiftBack`, `Walk` and `Evicted` specify it on the window's value.
- `transition.dfy` (`Transitions`): `Transition` is a class holding the count
  map and the lazily built ordered view (`m_frequencies`). `IsView` says what
  a built view is: the count map's entries, each once, sorted by
  non-increasing count. The order among equal counts stays open. `KeepTop`
  and `IsRefinement` say what `refine` leaves.
- `chain.dfy` (`Chains`): `MarkovChain` is a class whose `table` maps
  windows to `Transition` objects. A ghost `Counts` table mirrors it. The
  pure `Record`, `TrainInput` and `Train` specify training. `Closed`/`Enumerable`
  state when `transition()` cannot fail during a walk. `Pick` is the
  weighted choice of `iteration`.
- `iterator.dfy` (`Enumeration`): `Iterator` is a class with the lever stack
  (`m_position`, root first), the undo stack (`m_popped`) and the working
  `State`. `Levers` is the invariant tying the three together. `LexLess`
  (depth-first order on lever positions) and `Remaining` give the progress
  measure: every `++` moves strictly forward, so no position repeats and the
  enumeration ends. A ghost map keeps, per state entered, the ordered view
  its transition cached; every lever walks that view, so two positions that
  spell the same word are the same position, and no word is printed twice.
- `encoder.dfy` (`Encoding`): `NumberEncoder` (training without ZERO, then
  `refine`), `encode` as a loop specified by the mixed-radix `Digits`, and
  the 8-round bit diffusion of the `encode` driver on `bv32`.

On these points the code does something other than one might expect from
its interface, and the model follows the code:

- The enumerator's `min` and `max` bound the number of levers, not the
  length of the word. Only the deepest lever can stand on ZERO, so an
  accepted word has `|frames| - 1` symbols: at least `min - 1`, and at most
  `Depth() - 1`, that is `max - 1`, or 0 when `max` is 0, since the
  constructor places the root lever even then (`Iterator.AcceptedWord`,
  `Iterator.Deref`).
- `encode` never pushes the emitted symbol into its state. Every pass uses
  the root transition (`NumberEncoder.Encode`).
- In `encode`, the fallback for a transition with `count() == 0` clears a
  state that is already the root. It then looks up the same transition and
  divides by zero, so the model requires a root of at least two entries
  whenever there is something to spell.
- `encode` with a number `<= 0` is not rejected: it succeeds with the empty
  word.

## Model

| member | source | states |
|---|---|---|
| Symbols.SymbolSetSize | main.cpp:16-19 | no set of `char` values has more than 256 members, so no transition has more than 256 branches |
| States.ShiftIn | main.cpp:103-115 | `push_back` on the window's value: the new symbol is the newest, every other symbol moves one place older |
| States.ShiftBack | main.cpp:117-129 | `push_front` on the window's value: the new symbol is the oldest, every other symbol moves one place newer |
| States.ShiftBackUndoesShiftIn | main.cpp:103-129 | `push_front` of what `push_back(x)` evicted restores all three positions, for every `x` including ZERO |
| States.ShiftInUndoesShiftBack | main.cpp:103-129 | the converse: `push_back` of what `push_front(x)` evicted restores the window |
| States.WalkKeepsLast | main.cpp:494-502 | the state after pushing a sequence from the zero state holds its last three symbols, padded with ZERO in front |
| States.NewestOfWalk | main.cpp:32 | `state(n)` after pushing a sequence from the zero state is its n-th last symbol, or ZERO when fewer than n + 1 symbols were pushed |
| States.EvictedPrefix | main.cpp:375 | the undo records of a walk are prefix-closed: the first k evictions are those of the first k pushes |
| States.State.constructor | main.cpp:74-77 | a new state is all ZERO |
| States.State.Clear | main.cpp:131-137 | after `clear` every position is ZERO |
| States.State.At | main.cpp:32 | `state(n)` is the n-th most recent symbol |
| States.State.Equals | main.cpp:79-90 | the position-by-position loop returns true exactly when the two windows are equal |
| States.State.PushBack | main.cpp:103-115 | the array shifted in place equals `ShiftIn` of the old window; the returned symbol is the old oldest one; afterwards `state(0)` is the pushed symbol |
| States.State.PushFront | main.cpp:117-129 | the array shifted in place equals `ShiftBack` of the old window; the returned symbol is the old newest one |
| Transitions.BumpCounts | main.cpp:383-396 | `add(x)` raises x's count by one or inserts it at 1, leaves every other count alone, and raises `count()` only for a new symbol |
| Transitions.ViewLength | main.cpp:442-457 | an ordered view has exactly one entry per distinct symbol, at most 256 |
| Transitions.ViewSumIsSum | main.cpp:521-527 | summing the counts along an ordered view gives the transition's total count |
| Transitions.SortedView | main.cpp:449-456 | the view built from the count map is a permutation of its entries sorted by non-increasing count |
| Transitions.KeptSymbols | main.cpp:427-430 | refining a view to n entries keeps exactly the symbols of its first n positions |
| Transitions.KeepTopRefines | main.cpp:423-433 | what `refine` leaves keeps min(n, count) entries with their counts, and no dropped entry outnumbers a kept one; a negative n erases nothing |
| Transitions.Transition.constructor | main.cpp:148 | a new transition has no counts and no view |
| Transitions.Transition.Copy | main.cpp:255 | the copy has the same counts and the same cached view |
| Transitions.Transition.Add | main.cpp:383-396 | the counts become `Bump(old counts, item)`, `count()` grows only for a new item, and the cached view is dropped |
| Transitions.Transition.Count | main.cpp:151 | `count()` is zero exactly when nothing was recorded, and equals the number of entries of a built view, at most 256 |
| Transitions.Transition.Equals | main.cpp:398-401 | transitions compare by their counts only; equal ones have the same `count()` |
| Transitions.Transition.BuildFrequencies | main.cpp:442-457 | afterwards the cache is an ordered view of the counts; a cache already built is left as it was |
| Transitions.Transition.Begin | main.cpp:403-421 | `begin()`/`end()` return an ordered view of the counts, of length `count()`, building it only if absent |
| Transitions.Transition.Get | main.cpp:435-440 | for `index < count()`, `get(index)` is the symbol at that position of the ordered view and is one of the recorded symbols |
| Transitions.Transition.Refine | main.cpp:423-433 | the counts become `KeepTop` of the old counts over their ordered view, which is a refinement to `threshold` entries; the cache is dropped |
| Chains.Length | main.cpp:497 | the loop of `add_input` stops at the first NUL or at the end of the sample |
| Chains.RecordTotal | main.cpp:478-492 | every `add_state` adds exactly one occurrence to the table |
| Chains.TrainInputTotal | main.cpp:494-508 | `add_input` adds one occurrence per symbol before the first NUL, plus one ZERO when `add_zero` is set |
| Chains.TrainInputCloses | main.cpp:494-508 | with `add_zero`, training a sample from the walk's state closes the table: every recorded non-ZERO edge leads to a recorded state |
| Chains.TrainedIsEnumerable | main.cpp:459-467 | a chain trained with `add_zero` on at least one sample has the root and is closed and has no empty transition, so `transition()` never fails inside `dive` |
| Chains.ClosureNeedsZero | main.cpp:504-507 | without `add_zero` the table is not closed: after training on "a" the state after "a" has no entry |
| Chains.MarkovChain.constructor | main.cpp:459-467 | the chain's counts are the samples trained in order, each from the zero state, ending each with ZERO when `add_zero` is set, as it is by default |
| Chains.MarkovChain.AddState | main.cpp:478-492 | the table's counts become `Record(old counts, state, item)`; a new state gets a new transition, and every other transition keeps its cached view |
| Chains.MarkovChain.Insert | main.cpp:481-487 | a state not yet recorded gets a new transition holding the item once; every other state keeps its transition object |
| Chains.MarkovChain.Increment | main.cpp:490-491 | a recorded state's transition counts the item once more; no other transition's cached view changes |
| Chains.MarkovChain.Follow | main.cpp:499-502 | one pass of `add_input`'s loop (`add_state` then `push_back`) leaves the same training still to do: what remains from the new state and the rest of the sample equals what remained before the pass |
| Chains.MarkovChain.AddInput | main.cpp:494-508 | the table's counts become `TrainInput(old counts, EMPTY, input, add_zero)` |
| Chains.MarkovChain.View | main.cpp:212 | for a recorded state, `transition(state).begin()` yields an ordered view of its counts with at most 256 entries; it is the view the transition now caches, the one already cached if there was one, and no other transition's cache changes |
| Chains.Pick | main.cpp:529-551 | with `choose` given, an entry is found exactly when `choose` is below the view's total, and it is the first entry whose running total exceeds `choose` |
| Chains.ViewSumPrefix | main.cpp:531-535 | running totals never exceed the total |
| Enumeration.NonZeroKeeps | main.cpp:311-322 | a word without ZERO is printed unchanged |
| Enumeration.NonZeroAccepted | main.cpp:311-322 | for an accepted lever list, `operator*` prints every candidate but the last |
| Enumeration.LexLessIrreflexive | main.cpp:300-309 | no position comes before itself in depth-first order, so a forward-only enumeration never repeats one |
| Enumeration.LexLessTransitive | main.cpp:300-309 | depth-first order is transitive, so later `++` steps stay later |
| Enumeration.AdvanceIsLater | main.cpp:324-357 | moving a lever on and dropping the levers below it is a later position |
| Enumeration.ExtendIsLater | main.cpp:359-381 | adding levers below the current ones is a later position |
| Enumeration.StepIsLater | main.cpp:302-305 | one `roll` then one `dive` from a lever list that does not run out reaches a later position |
| Enumeration.RolledStep | main.cpp:334-348 | a lever that `roll` moved past its view stood on its last entry; dropping it and moving the one above on is again a roll |
| Enumeration.RolledEnd | main.cpp:350-356 | when `roll` stops at a lever inside its view, the start was not exhausted |
| Enumeration.WeightBound | main.cpp:300-309 | the weight of a lever list is below BASE^depth |
| Enumeration.LexLessWeight | main.cpp:300-309 | a later position in depth-first order has a larger weight |
| Enumeration.RemainingDecreases | main.cpp:300-309 | every `roll`+`dive` step lowers what is left of the enumeration, to a later position or to the end |
| Enumeration.LeversWalk | main.cpp:324-381 | `m_state` is the zero state pushed with the candidates of every lever but the deepest, root first, and `m_popped` holds that walk's evictions, one per lever below the root |
| Enumeration.LeversBounds | main.cpp:324-381 | every lever but the deepest points inside its view at a non-ZERO symbol: only the deepest candidate can be ZERO |
| Enumeration.LeversAnchored | main.cpp:377-378 | every lever walks the view of a recorded state |
| Enumeration.LeversKeys | main.cpp:375-378 | the state of every lever is the walk along the candidates above it |
| Enumeration.LeversPop | main.cpp:337-347 | dropping the deepest lever and moving the one above on keeps the invariant, and the undo stack's top restores the state |
| Enumeration.LeversNext | main.cpp:375-377 | in a closed table, pushing the deepest candidate leads to a recorded state, so `transition()` finds it |
| Enumeration.LeversPush | main.cpp:375-379 | `push_back`, pushing the evicted symbol on `m_popped` and a new lever on the new state keep the invariant |
| Enumeration.DistinctWords | main.cpp:300-322 | two lever lists that stand on words and walk the same kept views print the same word only at the same position |
| Enumeration.LaterWordDiffers | main.cpp:300-322 | a later position in depth-first order, reached while the kept views only grew, prints a different word: the enumeration never prints a word twice |
| Enumeration.CachedViews | main.cpp:403-421 | a view a transition has cached is an ordered view of its counts |
| Enumeration.Iterator.Accepting | main.cpp:285-286 | the loop condition of `++` and of the constructor, negated: at least `min` levers, and the last candidate of the path is ZERO |
| Enumeration.Iterator.LeversOrdered | main.cpp:375-378 | every lever walks the whole ordered view of its state, the one that state's transition caches |
| Enumeration.Iterator.AcceptedWord | main.cpp:300-322 | an accepting iterator stands on a word the chain can produce and end, the state is the walk along it, and its lever count is between `min` and the depth bound |
| Enumeration.Iterator.End | main.cpp:292-298 | `end()` has no levers and no undo records |
| Enumeration.Iterator.constructor | main.cpp:275-290 | the new iterator keeps the invariant, its levers walk the views the transitions cache, and it is either at the end or on an accepted word |
| Enumeration.Iterator.Start | main.cpp:280-289 | keeps the invariant and the cached views, ends at the end or on an accepted word, and only adds kept views |
| Enumeration.Iterator.Root | main.cpp:280-281 | the first lever stands on the first entry of the root's ordered view, and the invariant holds |
| Enumeration.Iterator.Plant | main.cpp:281 | `emplace_front` of the root lever on the root's cached view establishes the invariant |
| Enumeration.Iterator.Equals | main.cpp:177 | iterators compare by their levers; equal ones have the same candidates and are at the end together |
| Enumeration.Iterator.Deref | main.cpp:311-322 | `operator*` is the non-ZERO candidates root first; on an accepted position that is every candidate but the last, `|frames| - 1` symbols (distinct across positions by `Enumeration.LaterWordDiffers`) |
| Enumeration.Iterator.Pop | main.cpp:337-348 | one pass of `roll`'s inner loop, then the `++` of the lever above, keeps the invariant |
| Enumeration.Iterator.Roll | main.cpp:324-357 | `roll` keeps the invariant; it empties the stack exactly when every lever stood on its last entry, and otherwise leaves a lever inside its view |
| Enumeration.Iterator.Descend | main.cpp:375-377 | pushing the deepest candidate moves the state to the next recorded state, returns the evicted oldest symbol, and yields the whole non-empty ordered view of the new state, the one kept for it if it was entered before |
| Enumeration.Iterator.Enter | main.cpp:377 | `transition(m_state)` then `begin()` on a recorded state yields its ordered view, the same view each time the state is entered, and the transition keeps it cached |
| Enumeration.Iterator.EnteredReady | main.cpp:375-379 | after the push and `transition(m_state).begin()`, a new lever at position 0 on the entered view keeps the lever invariant, and the kept views only grow |
| Enumeration.Iterator.Attach | main.cpp:375-379 | the evicted symbol goes on the undo stack and a lever on the first entry of the new view goes below the others, keeping the invariant and the cached views |
| Enumeration.Iterator.Deeper | main.cpp:375-379 | one pass of `dive`'s loop adds one lever on the first entry of the new state's view and keeps the invariant |
| Enumeration.Iterator.Dive | main.cpp:359-381 | `dive` keeps the invariant, only adds levers on first entries, and stops on a ZERO candidate or at `max` levers |
| Enumeration.Iterator.Step | main.cpp:302-305 | `roll` then `dive` keeps the invariant and moves strictly forward in depth-first order, lowering the progress measure |
| Enumeration.Iterator.Next | main.cpp:300-309 | `++` terminates, keeps the invariant, moves strictly forward, only adds kept views, and stops at the end or on an accepted word, which by `Enumeration.LaterWordDiffers` differs from every word before it |
| Encoding.Digits | main.cpp:255-259 | the positions spelled for n are all below the branch count, and there are none exactly when n is not positive |
| Encoding.UndigitsDigits | main.cpp:239-260 | the positions `encode` picks determine the number: reading them back gives n for every n >= 0 |
| Encoding.OneBranchNeverEnds | main.cpp:239-258 | with a root of one entry `number /= 1` changes nothing, so a positive number never leaves the loop |
| Encoding.TwoBranchesEnd | main.cpp:239-258 | with at least two entries the loop ends after one pass per spelled position |
| Encoding.ViewRanked | main.cpp:442-457 | every entry of an ordered view can stand at its own position |
| Encoding.NumberEncoder.constructor | main.cpp:221-225 | the encoder's chain has the states of training without ZERO, each transition refined to `threshold` entries (15 by default) |
| Encoding.NumberEncoder.Refine | main.cpp:267-273 | every transition of the chain is refined to `threshold` entries, and the set of states is unchanged |
| Encoding.NumberEncoder.RefineOne | main.cpp:269-272 | refining one transition leaves every other transition's counts unchanged |
| Encoding.NumberEncoder.Emit | main.cpp:255-257 | one pass on a copy of the root transition emits a symbol standing at position `(n + offset) mod count()` of some ordered view of the root, `count()` being the root's number of entries |
| Encoding.NumberEncoder.Encode | main.cpp:233-265 | fails exactly when there is something to spell and no root, leaving the result unchanged; spells nothing for a number <= 0; otherwise pass i emits a symbol standing at position `(n_i + i) mod count()` of an ordered view of the root, with `n_{i+1} = n_i / count()` |
| Encoding.RoundBelow | main.cpp:637 | the top bit of a diffusion round is always clear, so the diffused value passed on as `int` is never negative |
| Encoding.RoundsBelow | main.cpp:634-638 | after at least one round the value is below 2^31 |
| Encoding.UnroundRound | main.cpp:636-637 | on values below 2^31 a round is undone by `Unround` |
| Encoding.RoundMergesTopBit | main.cpp:637 | a round folds bit 31 into bit 1, so 0x80000000 and 1 diffuse alike |
| Encoding.UnroundsRounds | main.cpp:634-638 | any number of rounds on a value below 2^31 is undone by as many inverse rounds |
| Encoding.Diffuse | main.cpp:634-638 | the loop computes eight rounds of the diffusion |
| Encoding.DiffuseInjective | main.cpp:634-638 | two numbers below 2^31 that diffuse alike are equal |

## Left out

- File reading, argument parsing and all console output (`read_file`,
  `main`, the printing in `random`, `enumerate` and the `encode` driver): I/O.
- `std::rand`, `std::srand` and `time`: `Pick` takes the random value
  `choose` as a parameter. The surrounding loop of `iteration`, which
  repeats the pick until the state's newest symbol is ZERO, is not modelled.
- `State::Hash`, `State::dump` and `operator<<`: the table is a Dafny `map`
  keyed by the window's value, and formatting is output.
- The order among entries of equal count, which comes from an unstable sort
  over hash-map order: `SortedView` chooses the next entry arbitrarily, and
  every contract holds for any such order.
- The `used`-set filtering in `enumerate`: it removes training samples from
  the printed words and is not part of the enumerator.
- Thrown `std::logic_error`s and `at()` failures become preconditions. The
  iterator's constructor and `++` require a chain that is `Enumerable`, which
  `Chains.TrainedIsEnumerable` proves for chains trained with `add_zero`.
  `Transition.Get` requires `index < count()`.
- Enumeration.Iterator: a lever holds the ordered view it walks, not a
  reference to its `Transition`. The view is taken once, when the lever is
  placed, and a built view never changes while the chain is only read.
- Enumeration.Levers: the invariant on the lever stack alone keeps, for every
  lever, only that the view's symbols are recorded for the lever's state. That
  the view is the whole ordered view of that state, and the same view each
  time, is carried by the iterator's kept views (`Fixed`, `Cached`) and
  stated by `Enumeration.Iterator.LeversOrdered`.
- Enumeration.Iterator.Next: progress, termination and distinct words are
  proved. That the enumeration reaches every word the chain can produce is
  not.
- Enumeration.Iterator.constructor: proved to stand at the end or on an
  accepted word, not that this is the first accepted position in depth-first
  order; that needs every position skipped to be named, which the model does
  not do.
- Enumeration.Iterator.Start: the same; it reaches the end or an accepted
  word, and it is not proved to be the first one in depth-first order.
- Encoding.NumberEncoder.Encode: requires a root of at least two entries
  whenever the number is positive. With one entry the source loops forever
  (`Encoding.OneBranchNeverEnds`). With none it divides by zero. The
  `count() == 0` fallback branch is unreachable under this precondition and
  is not modelled.
- Encoding.NumberEncoder.Encode: the walk's state is the value EMPTY rather
  than a `State` object, since it is never pushed.
- Enumeration.Iterator.constructor: `min` and `max` are `nat`. The source
  takes them as `int` and stores them into `std::size_t`, so a negative bound
  wraps to a huge one; negative bounds are excluded by the parameter type.
- Integer widths: `int` counts, `number + offset` in `encode` and the
  `int`/`unsigned` conversions of the `encode` driver are unbounded
  integers here. Their overflow is not modelled. `Diffuse` works on `bv32`
  directly.
- The per-number loop of the `encode` driver around `Diffuse` and
  `NumberEncoder.Encode` only prints, and is not modelled.
