/** The class-based engine of solver.py: a puzzle solver that owns the pool of
    remaining candidates and the register of evidence, both updated in place. */
module Solver {
  import opened Mastermind
  import opened Candidates
  import opened Selection

  /** One recorded round: the guess and how it was scored. */
  datatype CaseRegister = CaseRegister(symbols: Code, fullMatch: int, partialMatch: int)

  function Clues(register: seq<CaseRegister>): seq<Clue>
  {
    seq(|register|, i requires 0 <= i < |register| =>
      Clue(register[i].symbols, register[i].fullMatch, register[i].partialMatch))
  }

  /** The loop of guess_contradicts_register over `cases`, first to last,
      returning at the first case whose recorded pair is not reproduced. */
  function ContradictsSomeCase(guess: Code, cases: seq<CaseRegister>): (r: bool)
    ensures !r <==> Consistent(guess, Clues(cases))
  {
    if cases == [] then false
    else
      assert Clues(cases) == [Clue(cases[0].symbols, cases[0].fullMatch, cases[0].partialMatch)] + Clues(cases[1..]);
      ConsistentCons(guess, Clue(cases[0].symbols, cases[0].fullMatch, cases[0].partialMatch), Clues(cases[1..]));
      if FullMatches(guess, cases[0].symbols) != cases[0].fullMatch then true
      else if PartialMatches(guess, cases[0].symbols) != cases[0].partialMatch then true
      else ContradictsSomeCase(guess, cases[1..])
  }

  /** Recording a case can only turn "consistent" into "contradicts", and an
      empty register contradicts nothing. */
  lemma {:induction false} ContradictionPersists(guess: Code, cases: seq<CaseRegister>, case0: CaseRegister)
    ensures !ContradictsSomeCase(guess, [])
    ensures ContradictsSomeCase(guess, cases) ==> ContradictsSomeCase(guess, cases + [case0])
    decreases |cases|
  {
    if cases != [] {
      assert (cases + [case0])[0] == cases[0];
      assert (cases + [case0])[1..] == cases[1..] + [case0];
      ContradictionPersists(guess, cases[1..], case0);
    }
  }

  /** The rounds of solver_test.py, for any five distinct symbols: answer
      g,b,b,g,r scores (0, 1) against r,r,y,r,o and (0, 4) against b,g,r,b,b. */
  lemma SolverTestRounds(g: Symbol, b: Symbol, r: Symbol, y: Symbol, o: Symbol)
    requires g != b && g != r && g != y && g != o && b != r && b != y && b != o && r != y && r != o && y != o
    ensures FullMatches([g, b, b, g, r], [r, r, y, r, o]) == 0
    ensures PartialMatches([g, b, b, g, r], [r, r, y, r, o]) == 1
    ensures FullMatches([g, b, b, g, r], [b, g, r, b, b]) == 0
    ensures PartialMatches([g, b, b, g, r], [b, g, r, b, b]) == 4
  {
    var answer, first, second := [g, b, b, g, r], [r, r, y, r, o], [b, g, r, b, b];
    AllMismatched(answer, first);
    AllMismatched(answer, second);
    PartialMatchesByRemoval(answer, first);
    PartialMatchesByRemoval(answer, second);
    FirstRoundRemoval(g, b, r, y, o);
    SecondRoundRemoval(g, b, r);
  }

  lemma FirstRoundRemoval(g: Symbol, b: Symbol, r: Symbol, y: Symbol, o: Symbol)
    requires g != r && g != y && g != o && b != r && b != y && b != o
    ensures CountRemoving([g, b, b, g, r], [r, r, y, r, o]) == 1
  {
    var first := [r, r, y, r, o];
    assert g !in first && b !in first && r in first;
    CountRemovingStep([g, b, b, g, r], first);
    assert [g, b, b, g, r][1..] == [b, b, g, r];
    CountRemovingStep([b, b, g, r], first);
    assert [b, b, g, r][1..] == [b, g, r];
    CountRemovingStep([b, g, r], first);
    assert [b, g, r][1..] == [g, r];
    CountRemovingStep([g, r], first);
    assert [g, r][1..] == [r];
    CountRemovingStep([r], first);
    assert [r][1..] == [];
  }

  lemma SecondRoundPool(g: Symbol, b: Symbol, r: Symbol)
    requires g != b && g != r && b != r
    ensures RemoveFirst([b, g, r, b, b], g) == [b, r, b, b]
    ensures RemoveFirst([b, r, b, b], b) == [r, b, b]
    ensures RemoveFirst([r, b, b], b) == [r, b]
    ensures RemoveFirst([r, b], r) == [b]
  {
    assert [b, g, r, b, b][1..] == [g, r, b, b];
    assert [g, r, b, b][1..] == [r, b, b];
    assert [b, r, b, b][1..] == [r, b, b];
    assert [r, b, b][1..] == [b, b];
    assert [b, b][1..] == [b];
    assert [r, b][1..] == [b];
  }

  lemma SecondRoundRemoval(g: Symbol, b: Symbol, r: Symbol)
    requires g != b && g != r && b != r
    ensures CountRemoving([g, b, b, g, r], [b, g, r, b, b]) == 4
  {
    SecondRoundPool(g, b, r);
    CountRemovingStep([g, b, b, g, r], [b, g, r, b, b]);
    assert [g, b, b, g, r][1..] == [b, b, g, r];
    CountRemovingStep([b, b, g, r], [b, r, b, b]);
    assert [b, b, g, r][1..] == [b, g, r];
    CountRemovingStep([b, g, r], [r, b, b]);
    assert [b, g, r][1..] == [g, r];
    CountRemovingStep([g, r], [r, b]);
    assert [g, r][1..] == [r];
    CountRemovingStep([r], [r, b]);
    assert [r][1..] == [];
  }

  /** The same rounds with the symbols spelled as in the test. */
  lemma SolverTestRoundsAsWritten()
    ensures FullMatches(["g", "b", "b", "g", "r"], ["r", "r", "y", "r", "o"]) == 0
    ensures PartialMatches(["g", "b", "b", "g", "r"], ["r", "r", "y", "r", "o"]) == 1
    ensures FullMatches(["g", "b", "b", "g", "r"], ["b", "g", "r", "b", "b"]) == 0
    ensures PartialMatches(["g", "b", "b", "g", "r"], ["b", "g", "r", "b", "b"]) == 4
  {
    var g, b, r, y, o: Symbol := "g", "b", "r", "y", "o";
    assert g[0] == 'g' && b[0] == 'b' && r[0] == 'r' && y[0] == 'y' && o[0] == 'o';
    SolverTestRounds(g, b, r, y, o);
  }

  class PuzzleSolver {
    const symbols: seq<Symbol>
    const size: nat
    const seed: int
    const rng: RandomSource
    var possibilities: seq<Code>
    var register: seq<CaseRegister>

    /** The pool only ever holds codes of the full candidate space. */
    ghost predicate Valid()
      reads this
    {
      && size == |symbols| && size > 1
      && multiset(possibilities) <= multiset(GenerateAllPossibilities(size, symbols))
    }

    /** `stream` is the output of the generator seeded with `seed`. */
    constructor (symbols: seq<Symbol>, seed: int, stream: nat -> nat)
      requires |symbols| > 1
      ensures Valid()
      ensures this.symbols == symbols && size == |symbols| && this.seed == seed
      ensures possibilities == GenerateAllPossibilities(|symbols|, symbols)
      ensures register == []
      ensures fresh(rng) && rng.stream == stream && rng.position == 0
    {
      this.symbols := symbols;
      size := |symbols|;
      this.seed := seed;
      rng := new RandomSource(stream);
      possibilities := GenerateAllPossibilities(|symbols|, symbols);
      register := [];
    }

    /** Every code of length `size` over `items`, in lexicographic order. */
    static function GenerateAllPossibilities(size: nat, items: seq<Symbol>): (r: seq<Code>)
      requires size >= 1
      ensures |r| == Pow(|items|, size)
      ensures forall k :: 0 <= k < |r| ==> r[k] == Nth(items, size, k)
    {
      if size == 1 then
        SingletonsAreLex(items);
        Singletons(items)
      else
        var suffixes := GenerateAllPossibilities(size - 1, items);
        LexStep(items, size, suffixes);
        Extend(items, suffixes)
    }

    /** The candidate space has |items|^size codes, each of length size over
        `items`, and every such code is in it. */
    static lemma PossibilitiesShape(size: nat, items: seq<Symbol>)
      requires size >= 1
      ensures var r := GenerateAllPossibilities(size, items);
              && |r| == Pow(|items|, size)
              && (forall k :: 0 <= k < |r| ==> |r[k]| == size)
              && (forall k, j :: 0 <= k < |r| && 0 <= j < size ==> r[k][j] in items)
              && (forall x: Code :: |x| == size && (forall j :: 0 <= j < |x| ==> x[j] in items) ==> x in r)
    {
      var r := GenerateAllPossibilities(size, items);
      forall k | 0 <= k < |r| ensures |r[k]| == size && forall j :: 0 <= j < size ==> r[k][j] in items {
        NthShape(items, size, k);
      }
      forall x: Code | |x| == size && (forall j :: 0 <= j < |x| ==> x[j] in items) ensures x in r {
        var k := NthComplete(items, x);
        assert r[k] == x;
      }
    }

    /** Over distinct symbols the candidate space has no repeats. */
    static lemma PossibilitiesDistinct(size: nat, items: seq<Symbol>)
      requires size >= 1 && Distinct(items)
      ensures Distinct(GenerateAllPossibilities(size, items))
    {
      var r := GenerateAllPossibilities(size, items);
      forall i, j | 0 <= i < j < |r| ensures r[i] != r[j] {
        if r[i] == r[j] {
          NthInjective(items, size, i, j);
        }
      }
    }

    /** `self.possibilities.pop(random.randint(0, len(self.possibilities) - 1))` */
    method PopRandom() returns (candidate: Code, ghost index: nat)
      requires possibilities != []
      modifies this`possibilities, rng
      ensures index == RandIntValue(rng.stream, old(rng.position), 0, |old(possibilities)| - 1)
      ensures candidate == old(possibilities)[index]
      ensures possibilities == RemoveAt(old(possibilities), index)
      ensures rng.position == old(rng.position) + 1
    {
      var i := rng.RandInt(0, |possibilities| - 1);
      candidate := possibilities[i];
      possibilities := RemoveAt(possibilities, i);
      index := i;
    }

    /** Pop random candidates until one agrees with the register. */
    method NextGuess() returns (guess: Option<Code>)
      requires Valid()
      modifies this`possibilities, rng
      ensures Valid()
      ensures var d := Drain(old(possibilities), Clues(register), rng.stream, old(rng.position));
              guess == d.guess && possibilities == d.pool && rng.position == d.position
      ensures register == old(register)
    {
      ghost var clues := Clues(register);
      ghost var outcome := Drain(possibilities, clues, rng.stream, rng.position);
      DrainShrinks(possibilities, clues, rng.stream, rng.position);
      while possibilities != []
        invariant register == old(register)
        invariant Drain(possibilities, clues, rng.stream, rng.position) == outcome
        decreases |possibilities|
      {
        ghost var before, drawn := possibilities, rng.position;
        var candidate, index := PopRandom();
        DrainStep(before, clues, rng.stream, drawn, index);
        if !GuessContradictsRegister(candidate) {
          return Some(candidate);
        }
      }
      return None;
    }

    function GuessContradictsRegister(guess: Code): (r: bool)
      reads this
      ensures !r <==> Consistent(guess, Clues(register))
      ensures !r <==> forall i :: 0 <= i < |register| ==>
                FullMatches(guess, register[i].symbols) == register[i].fullMatch &&
                PartialMatches(guess, register[i].symbols) == register[i].partialMatch
    {
      var r := ContradictsSomeCase(guess, register);
      assert forall i :: 0 <= i < |register| ==> Clues(register)[i].guess == register[i].symbols;
      r
    }

    /** Record the scores of a guess; report whether it was solved. */
    method EvaluateGuessResults(guess: Code, bothGood: int, symbolGood: int) returns (solved: bool)
      requires Valid()
      modifies this`register
      ensures Valid()
      ensures solved <==> bothGood == size
      ensures register == if solved then old(register)
                          else old(register) + [CaseRegister(guess, bothGood, symbolGood)]
    {
      if bothGood == size {
        return true;
      }
      register := register + [CaseRegister(guess, bothGood, symbolGood)];
      return false;
    }

    /** Score `guess` against `answer`: (full matches, partial matches). */
    method JudgeGuess(answer: Code, guess: Code) returns (fullMatch: int, partialMatch: int)
      ensures fullMatch == FullMatches(answer, guess)
      ensures partialMatch == PartialMatches(answer, guess)
    {
      var unaccountedAnswers, unaccountedGuesses;
      fullMatch, unaccountedAnswers, unaccountedGuesses := TallyPositions(answer, guess);
      partialMatch := CountShared(unaccountedAnswers, unaccountedGuesses);
    }
  }
}
