# Mastermind deduction engine, modelled in Dafny

This project models the deduction engine of a Mastermind-style code breaker
(polirritmico/mansion-madness-puzzle-solver). A hidden code of symbols, with
repetition, is found by repeated guessing. Each guess is scored by its exact
positional matches ("full matches", "both correct") and its right-symbol,
wrong-place matches ("partial matches", "symbol correct", "color correct").

The engine appears three times in the repository. The model keeps all three:

- `solver.py` is a class, `PuzzleSolver`. It owns a candidate pool and a
  register of `CaseRegister` entries, and updates both in place. It becomes
  the class `Solver.PuzzleSolver` with fields `possibilities` and `register`.
- `main.py` and `original.py` are free functions. They work on a game-state
  dictionary whose `"possible_guesses"` list is popped in place. They become
  the modules `MainEngine` and `OriginalEngine`. The dictionary becomes the
  class `GameState`. Its list is a shared `Selection.List` object. Evidence
  entries and judgments become datatypes.

The engines share these modules:

- `Mastermind` holds the scoring specification.
  - `FullMatches` counts the positions below the compared length that hold
    the same symbol.
  - `PartialMatches` is the size of the multiset intersection of the
    unmatched symbols on each side.
  - Both compare the common prefix, as Python's `zip` does, so they need no
    precondition.
  - `Consistent(candidate, clues)` holds when scoring the candidate against
    every recorded guess reproduces both recorded numbers.
  - The two loops of `judge_guess` are the methods `TallyPositions` (the
    `zip` loop) and `CountShared` (the `in` / `remove` loop). They are the
    same in all three files, and each engine's `JudgeGuess` calls them.
    All three copies are therefore specified by the same two functions, and
    the lemmas about those functions (bounds, symmetry, self-score) hold for
    each copy.
- `Candidates` holds `Nth(items, n, k)`, the k-th code of length n in
  lexicographic order over `items`, with position 0 most significant. It
  also holds the pieces of the source's list comprehension. Each engine's
  generator is written as the source writes it and is proved equal, entry by
  entry, to `Nth`.
- `Selection` holds the pool-draining loop as a reference function
  `Drain(pool, clues, stream, position)`, and the lemmas about it.
  - Python's seeded generator is an arbitrary stream of raw draws,
    `stream: nat -> nat`, held by a `RandomSource` object together with the
    number of draws taken so far.
  - `randint(lo, hi)` maps the next draw into `[lo, hi]`.
  - Each engine's selection loop is a method proved to leave exactly the
    outcome of `Drain`. Properties of the outcome are lemmas about `Drain`:
    - the returned guess was in the pool and is consistent;
    - no guess means the pool is empty and held no consistent candidate;
    - one draw removes one candidate, and the survivors keep their order;
    - only inconsistent candidates are thrown away silently.

Points of the code the model keeps:

- The symbol list is not deduplicated. `size` is `len(symbols)`
  (`solver.py:23-24`). Duplicate symbols give duplicate candidates. For that
  reason "no longer in the pool" is stated with multiset counts, and in plain
  form for a distinct symbol list (`PossibilitiesDistinct`,
  `DrainRemovesGuess`).
- The partial count walks the unmatched answer symbols, not the guess
  symbols. The two orders give the same number (`ScoreSymmetric`).
- The only construction check is `len(symbols) > 1` (`solver.py:25`). No
  separate lower bound on the code length is enforced.

`judge_guess` is modelled on inputs of any length, with `zip`'s truncation.
It has no length precondition, because the code has none.

In `solver.py:53` the names of the unpacked pair are swapped. The comparisons
are still full against full and partial against partial. `ContradictsSomeCase`
models that meaning.

## Model

| member | source | states |
|---|---|---|
| `Mastermind.TallyPositions` | solver.py:82-87 | the zip loop's counter is the number of indices where the two codes agree, which is `FullMatches`. The two collected lists are the unmatched symbols of each side, in order. Counter plus unmatched length equals the compared length. |
| `Mastermind.CountShared` | solver.py:89-92 | removing one occurrence on each hit counts exactly the size of the multiset intersection of the two unmatched lists |
| `Mastermind.CountRemovingIsIntersection` | main.py:42-45 | the remove loop's count, as a function, equals the multiset-intersection size |
| `Mastermind.CountRemovingBound` | original.py:32-35 | the remove loop counts at most one hit per unmatched answer symbol |
| `Mastermind.RemoveFirstMultiset` | solver.py:92 | `list.remove` of a present symbol takes away exactly one occurrence and shortens the list by one |
| `Mastermind.FullMatchesUpToCountsIndices` | solver.py:82-84 | the full-match count is the size of the set of agreeing indices |
| `Mastermind.UnmatchedLength` | main.py:35-40 | every compared position is a full match or adds one symbol to each unmatched list |
| `Mastermind.PartialMatchesByRemoval` | original.py:32-35 | the partial count is what the remove loop computes over the unmatched lists |
| `Mastermind.ScoreBound` | solver.py:77-94 | full plus partial is at most the compared length, and at most `len(a)` for equal lengths |
| `Mastermind.ScoreSymmetric` | original.py:21-37 | judging a against g gives the same pair as judging g against a |
| `Mastermind.SelfScore` | main.py:31-47 | a code judged against itself gives (its length, 0) |
| `Mastermind.AllMismatched` | solver.py:82-87 | when no position agrees, there are no full matches and every symbol is unmatched |
| `Mastermind.ConsistentExtend` | solver.py:51-58 | agreeing with no clues always holds. Agreeing with clues plus one more is agreeing with the old clues and with the new one. |
| `Mastermind.ConsistentCons` | solver.py:52-57 | agreeing with a first clue and the rest is agreeing with the first and with the rest |
| `Mastermind.TruthfulCluesKeepAnswer` | solver.py:51-58 | when every recorded pair is the true score of its guess against the answer, the answer contradicts none of them |
| `Candidates.SingletonsAreLex` | solver.py:36-37 | the length-1 comprehension is the lexicographic list of codes of length 1 |
| `Candidates.ExtendLength` | solver.py:40 | the two-level comprehension has `len(items) * len(suffixes)` entries |
| `Candidates.ExtendAt` | solver.py:40 | in the comprehension, entry `q * len(suffixes) + r` is items[q] followed by suffixes[r] |
| `Candidates.LexStep` | solver.py:39-40 | prefixing every symbol to the lexicographic list of shorter codes gives the lexicographic list of longer codes, of size `len(items)^n` |
| `Candidates.NthUnfold` | solver.py:40 | the k-th code's first symbol is digit `q` and its rest is the r-th shorter code, with `k = q * len(items)^(n-1) + r` |
| `Candidates.NthShape` | solver.py:33-40 | every enumerated code has length n and only symbols from items |
| `Candidates.NthComplete` | main.py:21-28 | every code of length n over items is enumerated at some index |
| `Candidates.NthInjective` | original.py:11-18 | over a symbol list without repeats, different indices give different codes |
| `Selection.RandIntValue` | solver.py:45 | `randint(lo, hi)` gives a value in the closed range [lo, hi] |
| `Selection.RandomSource.constructor` | solver.py:28 | seeding fixes the draw stream and starts at draw 0 |
| `Selection.RandomSource.RandInt` | solver.py:45 | returns the current draw mapped into [lo, hi] and advances the stream by one |
| `Selection.List.constructor` | main.py:89 | a list object holding the given elements |
| `Selection.RemoveAt` | solver.py:44 | `list.pop(i)`: one shorter, elements before i unchanged, elements after i shifted down by one |
| `Selection.RemoveAtMultiset` | main.py:64 | popping removes exactly the popped element from the multiset of elements |
| `Selection.RemoveAtIsSubsequence` | original.py:54 | popping keeps the other elements in their relative order |
| `Selection.DrainStep` | solver.py:43-48 | one iteration: pop the drawn index. Return the popped code if it agrees with the evidence, otherwise continue on the shortened pool at the next draw. |
| `Selection.DrainConsumes` | solver.py:42-46 | the loop keeps the survivors in their original order. It takes one draw per removed candidate and removes at least one candidate from a non-empty pool. |
| `Selection.DrainOutcome` | solver.py:43-49 | a returned guess was in the pool and agrees with every clue. No guess means the pool was emptied and every candidate in it contradicted some clue. |
| `Selection.DrainShrinks` | main.py:68-72 | the pool afterwards is a sub-multiset of the pool before |
| `Selection.DrainKeepsConsistent` | original.py:58-64 | a consistent code loses copies only by being returned, and exactly one copy then |
| `Selection.DrainFindsWhileAnswerRemains` | solver.py:42-49 | while the answer remains in the pool and the evidence is honest, the loop returns a guess |
| `Selection.DrainRemovesGuess` | solver.py:44-48 | over a pool without repeats, the returned guess is no longer in the pool |
| `Solver.ContradictsSomeCase` | solver.py:52-58 | the register loop reports no contradiction exactly when the guess agrees with every case |
| `Solver.ContradictionPersists` | solver.py:51-58 | an empty register contradicts nothing, and appending a case can only turn False into True |
| `Solver.SolverTestRounds` | solver_test.py:15-22 | for any five distinct symbols g, b, r, y and o: answer g,b,b,g,r scores (0, 1) against r,r,y,r,o and (0, 4) against b,g,r,b,b |
| `Solver.SolverTestRoundsAsWritten` | solver_test.py:18-22 | the same two rounds with the test's own one-letter strings |
| `Solver.PuzzleSolver.constructor` | solver.py:22-31 | requires `len(symbols) > 1`. Sets `size = len(symbols)`, the full candidate space and an empty register. Seeds a fresh generator. |
| `Solver.PuzzleSolver.GenerateAllPossibilities` | solver.py:33-40 | requires `size >= 1`. Returns `len(items)^size` codes, and entry k is the k-th code in lexicographic order. |
| `Solver.PuzzleSolver.PossibilitiesShape` | solver.py:33-40 | every generated code has length `size` and symbols from items, and every such code is generated |
| `Solver.PuzzleSolver.PossibilitiesDistinct` | solver.py:33-40 | over a symbol list without repeats, the candidate space has no repeats |
| `Solver.PuzzleSolver.PopRandom` | solver.py:44-46 | pops the element at `randint(0, len - 1)`, returns it, and advances the generator by one draw |
| `Solver.PuzzleSolver.NextGuess` | solver.py:42-49 | the pool, the generator and the result become exactly what `Drain` gives for the old pool and the register. The register is untouched, and the pool stays inside the candidate space. |
| `Solver.PuzzleSolver.GuessContradictsRegister` | solver.py:51-58 | False exactly when, for every case, judging the guess against its symbols gives its recorded (full, partial) pair |
| `Solver.PuzzleSolver.EvaluateGuessResults` | solver.py:68-75 | when `both_good == size`, returns True and keeps the register. Otherwise it appends exactly `CaseRegister(guess, both_good, symbol_good)` and returns False. |
| `Solver.PuzzleSolver.JudgeGuess` | solver.py:77-94 | returns (full matches, partial matches) of the answer against the guess |
| `MainEngine.GameState.constructor` | main.py:91-95 | the game-state dictionary holds the peg count, the symbols and the shared list of possible guesses |
| `MainEngine.GenerateAllPossibleGuesses` | main.py:21-28 | requires `num_pegs >= 1`. Returns `len(symbols)^num_pegs` codes in lexicographic order, most significant position first. |
| `MainEngine.GuessSpaceShape` | main.py:24-28 | each generated code has `num_pegs` symbols from the list, and every such code is generated |
| `MainEngine.JudgeGuess` | main.py:31-47 | `both_correct` is the full-match count and `symbol_correct` is the multiset-intersection count |
| `MainEngine.GuessContradictsSomeEvidence` | main.py:50-58 | False exactly when every entry's judgment equals its stored `both_correct` / `symbol_correct` pair |
| `MainEngine.EvidenceOnlyRulesOut` | main.py:50-58 | empty evidence contradicts nothing, and appending an entry can only turn False into True |
| `MainEngine.QuickRemoveFromArray` | main.py:61-64 | raises IndexError("index out of rrange") and leaves the list unchanged exactly when the index is below 0 or at least the length. Otherwise it returns the old element at the index and the list becomes the old list without it. |
| `MainEngine.GenerateNextGuess` | main.py:67-75 | the IndexError branch is never taken. The list, the generator and the result become exactly what `Drain` gives for the old list and the evidence. |
| `MainEngine.TestCaseRound` | tests.py:15-24 | for any four distinct symbols, answer g,b,g,b,y judged against g,g,y,r,b gives both_correct 1 and symbol_correct 3 |
| `MainEngine.TestCaseRoundAsWritten` | tests.py:16-24 | the same round with the test's own one-letter strings |
| `OriginalEngine.GameState.constructor` | original.py:81-85 | the game-state dictionary holds the peg count, the colours and the shared list of possible guesses |
| `OriginalEngine.GenerateAllPossibleGuesses` | original.py:11-18 | requires `num_pegs >= 1`. Returns `len(colors)^num_pegs` codes in lexicographic order. |
| `OriginalEngine.ColorSpaceShape` | original.py:14-18 | each generated code has `num_pegs` colours from the list, and every such code is generated |
| `OriginalEngine.JudgeGuess` | original.py:21-37 | `both_correct` is the full-match count and `color_correct` is the multiset-intersection count |
| `OriginalEngine.GuessContradictsSomeEvidence` | original.py:40-48 | False exactly when every entry reproduces its stored `both_correct` / `color_correct` pair |
| `OriginalEngine.EvidenceOnlyRulesOut` | original.py:40-48 | empty evidence contradicts nothing, and appending an entry can only turn False into True |
| `OriginalEngine.QuickRemoveFromArray` | original.py:51-54 | out of range, raises IndexError and changes nothing. In range, it removes and returns exactly the indexed element. |
| `OriginalEngine.GenerateNextGuess` | original.py:57-65 | the IndexError branch is never taken. The list, the generator and the result become exactly what `Drain` gives. |

## Left out

- Python's Mersenne Twister is left out. This covers `random.seed`,
  `random.randint` and `random.choice`. The draws are an arbitrary stream
  given to the `RandomSource` constructor. So the exact guess sequences that
  depend on a particular seed (test_solver.py, solver_test.py) are not
  reproduced. The link between `PuzzleSolver.seed` and the stream is not
  modelled either.
- The `seed is None` branch of the `PuzzleSolver` constructor is left out. It
  draws a seed from the unseeded generator. The constructor takes the seed
  it would have used.
- `pick_from_array` (`random.choice`) is left out. No core function calls it.
- Terminal input and output are left out. This covers the `input()` branches
  of `evaluate_guess_results`, `solve`, `main()` in main.py and original.py,
  and the `__main__` blocks. `EvaluateGuessResults` takes both scores as
  arguments.
- The stub `PuzzleSolver` class of main.py (main.py:7-14) is left out. It
  only seeds the global generator.
- The module-level `global_game_state` is left out. `GenerateNextGuess`
  takes the game state as a parameter.
- The default values of `CaseRegister`'s two counters are left out. The
  modelled code always supplies both.
- The failing path of the Python `assert` guards is left out. These are
  `assert self.size > 1` (`solver.py:25`), `assert size >= 1`
  (`solver.py:34`) and `assert num_pegs >= 1` (`main.py:22`,
  `original.py:12`). The model states each guard as a precondition of the
  constructor or generator, so the `AssertionError` raised on a violation
  is not modelled.
- The generator is per instance in the model and process-wide in the
  source. All three files use the shared `random` module, and
  `PuzzleSolver.__init__` (`solver.py:28`) reseeds it for every solver and
  for main.py's functions alike. The model gives each solver its own fresh
  `RandomSource`. So one solver or function disturbing another's draws is
  not captured.
- Score-range validation, symbol deduplication and any smarter guessing
  strategy are not modelled, because the code has none of them.
