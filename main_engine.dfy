/** The free-function engine of main.py: the game state is a dictionary whose
    "possible_guesses" list is popped in place, and the evidence is a list of
    dictionaries with the keys "guess", "both_correct" and "symbol_correct". */
module MainEngine {
  import opened Mastermind
  import opened Candidates
  import opened Selection

  /** The dictionary judge_guess returns. */
  datatype Judgment = Judgment(bothCorrect: int, symbolCorrect: int)

  /** One recorded round of the evidence list. */
  datatype Evidence = Evidence(guess: Code, bothCorrect: int, symbolCorrect: int)

  function Clues(evidences: seq<Evidence>): seq<Clue>
  {
    seq(|evidences|, i requires 0 <= i < |evidences| =>
      Clue(evidences[i].guess, evidences[i].bothCorrect, evidences[i].symbolCorrect))
  }

  /** The judgment of a guess as a value. */
  function Judge(answer: Code, guess: Code): Judgment
  {
    Judgment(FullMatches(answer, guess), PartialMatches(answer, guess))
  }

  /** The game-state dictionary. Its list object is shared with the caller. */
  class GameState {
    const numPegs: int
    const symbols: seq<Symbol>
    const possibleGuesses: List<Code>

    constructor (numPegs: int, symbols: seq<Symbol>, possibleGuesses: List<Code>)
      ensures this.numPegs == numPegs && this.symbols == symbols
      ensures this.possibleGuesses == possibleGuesses
    {
      this.numPegs := numPegs;
      this.symbols := symbols;
      this.possibleGuesses := possibleGuesses;
    }
  }

  /** Every code of `numPegs` symbols, in lexicographic order. */
  function GenerateAllPossibleGuesses(numPegs: nat, symbols: seq<Symbol>): (r: seq<Code>)
    requires numPegs >= 1
    ensures |r| == Pow(|symbols|, numPegs)
    ensures forall k :: 0 <= k < |r| ==> r[k] == Nth(symbols, numPegs, k)
  {
    if numPegs == 1 then
      SingletonsAreLex(symbols);
      Singletons(symbols)
    else
      var suffixes := GenerateAllPossibleGuesses(numPegs - 1, symbols);
      LexStep(symbols, numPegs, suffixes);
      Extend(symbols, suffixes)
  }

  /** The candidate space has |symbols|^numPegs codes, each of length numPegs
      over `symbols`, and every such code is in it. */
  lemma GuessSpaceShape(numPegs: nat, symbols: seq<Symbol>)
    requires numPegs >= 1
    ensures var r := GenerateAllPossibleGuesses(numPegs, symbols);
            && |r| == Pow(|symbols|, numPegs)
            && (forall k :: 0 <= k < |r| ==> |r[k]| == numPegs)
            && (forall k, j :: 0 <= k < |r| && 0 <= j < numPegs ==> r[k][j] in symbols)
            && (forall x: Code :: |x| == numPegs && (forall j :: 0 <= j < |x| ==> x[j] in symbols) ==> x in r)
  {
    var r := GenerateAllPossibleGuesses(numPegs, symbols);
    forall k | 0 <= k < |r| ensures |r[k]| == numPegs && forall j :: 0 <= j < numPegs ==> r[k][j] in symbols {
      NthShape(symbols, numPegs, k);
    }
    forall x: Code | |x| == numPegs && (forall j :: 0 <= j < |x| ==> x[j] in symbols) ensures x in r {
      var k := NthComplete(symbols, x);
      assert r[k] == x;
    }
  }

  /** Score `guess` against `answer`. */
  method JudgeGuess(answer: Code, guess: Code) returns (retVal: Judgment)
    ensures retVal.bothCorrect == FullMatches(answer, guess)
    ensures retVal.symbolCorrect == PartialMatches(answer, guess)
  {
    retVal := Judgment(0, 0);
    var bothCorrect, unaccountedAnswers, unaccountedGuesses := TallyPositions(answer, guess);
    retVal := retVal.(bothCorrect := bothCorrect);
    var symbolCorrect := CountShared(unaccountedAnswers, unaccountedGuesses);
    retVal := retVal.(symbolCorrect := symbolCorrect);
  }

  /** The loop of guess_contradicts_some_evidence, returning at the first
      entry whose judgment differs from the recorded one. */
  function GuessContradictsSomeEvidence(guess: Code, evidences: seq<Evidence>): (r: bool)
    ensures !r <==> Consistent(guess, Clues(evidences))
    ensures !r <==> forall i :: 0 <= i < |evidences| ==>
              Judge(guess, evidences[i].guess) == Judgment(evidences[i].bothCorrect, evidences[i].symbolCorrect)
  {
    if evidences == [] then false
    else
      var head := Clue(evidences[0].guess, evidences[0].bothCorrect, evidences[0].symbolCorrect);
      assert Clues(evidences) == [head] + Clues(evidences[1..]);
      ConsistentCons(guess, head, Clues(evidences[1..]));
      assert forall i :: 0 < i < |evidences| ==> evidences[i] == evidences[1..][i - 1];
      if Judge(guess, evidences[0].guess) != Judgment(evidences[0].bothCorrect, evidences[0].symbolCorrect) then true
      else GuessContradictsSomeEvidence(guess, evidences[1..])
  }

  /** Empty evidence contradicts nothing, and recording an entry can only turn
      "consistent" into "contradicts". */
  lemma {:induction false} EvidenceOnlyRulesOut(guess: Code, evidences: seq<Evidence>, entry: Evidence)
    ensures !GuessContradictsSomeEvidence(guess, [])
    ensures GuessContradictsSomeEvidence(guess, evidences) ==> GuessContradictsSomeEvidence(guess, evidences + [entry])
    decreases |evidences|
  {
    if evidences != [] {
      assert (evidences + [entry])[0] == evidences[0];
      assert (evidences + [entry])[1..] == evidences[1..] + [entry];
      EvidenceOnlyRulesOut(guess, evidences[1..], entry);
    }
  }

  /** Pop and return `list[index]`, or raise IndexError when out of range. */
  method QuickRemoveFromArray<T>(index: int, list: List<T>) returns (r: Result<T>)
    modifies list
    ensures 0 <= index < |old(list.elements)| ==>
              r == Success(old(list.elements)[index]) && list.elements == RemoveAt(old(list.elements), index)
    ensures !(0 <= index < |old(list.elements)|) ==>
              r == Failure(IndexError("index out of rrange")) && list.elements == old(list.elements)
  {
    if index < 0 || index >= |list.elements| {
      return Failure(IndexError("index out of rrange"));
    }
    r := Success(list.elements[index]);
    list.elements := RemoveAt(list.elements, index);
  }

  /** Pop random candidates until one is consistent with the evidence. The
      index passed to quick_remove_from_array is always in range. */
  method GenerateNextGuess(gameState: GameState, evidence: seq<Evidence>, rng: RandomSource) returns (guess: Option<Code>)
    modifies gameState.possibleGuesses, rng
    ensures var d := Drain(old(gameState.possibleGuesses.elements), Clues(evidence), rng.stream, old(rng.position));
            guess == d.guess && gameState.possibleGuesses.elements == d.pool && rng.position == d.position
  {
    var guesses := gameState.possibleGuesses;
    ghost var clues := Clues(evidence);
    ghost var outcome := Drain(guesses.elements, clues, rng.stream, rng.position);
    while guesses.elements != []
      invariant Drain(guesses.elements, clues, rng.stream, rng.position) == outcome
      decreases |guesses.elements|
    {
      ghost var before, drawn := guesses.elements, rng.position;
      var index := rng.RandInt(0, |guesses.elements| - 1);
      var removed := QuickRemoveFromArray(index, guesses);
      assert removed.Success?;
      DrainStep(before, clues, rng.stream, drawn, index);
      if !GuessContradictsSomeEvidence(removed.value, evidence) {
        return Some(removed.value);
      }
    }
    return None;
  }

  /** The first round of test_case1 in tests.py, for any four distinct
      symbols: answer g,b,g,b,y judged against g,g,y,r,b gives one exact
      match and three symbols in the wrong place. */
  lemma TestCaseRound(g: Symbol, b: Symbol, y: Symbol, r: Symbol)
    requires g != b && g != y && g != r && b != y && b != r && y != r
    ensures Judge([g, b, g, b, y], [g, g, y, r, b]) == Judgment(1, 3)
  {
    var answer, guess := [g, b, g, b, y], [g, g, y, r, b];
    TestCaseUnmatched(g, b, y, r);
    PartialMatchesByRemoval(answer, guess);
    TestCaseRemoval(g, b, y, r);
  }

  lemma TestCaseUnmatched(g: Symbol, b: Symbol, y: Symbol, r: Symbol)
    requires g != b && g != y && b != y && b != r
    ensures FullMatches([g, b, g, b, y], [g, g, y, r, b]) == 1
    ensures Unmatched([g, b, g, b, y], [g, g, y, r, b], 5) == [b, g, b, y]
    ensures Unmatched([g, g, y, r, b], [g, b, g, b, y], 5) == [g, y, r, b]
  {
    var answer, guess := [g, b, g, b, y], [g, g, y, r, b];
    assert FullMatchesUpTo(answer, guess, 1) == 1;
    assert FullMatchesUpTo(answer, guess, 3) == 1;
    assert FullMatchesUpTo(answer, guess, 5) == 1;
    assert Unmatched(answer, guess, 1) == [] && Unmatched(guess, answer, 1) == [];
    assert Unmatched(answer, guess, 2) == [b] && Unmatched(guess, answer, 2) == [g];
    assert Unmatched(answer, guess, 3) == [b, g] && Unmatched(guess, answer, 3) == [g, y];
    assert Unmatched(answer, guess, 4) == [b, g, b] && Unmatched(guess, answer, 4) == [g, y, r];
  }

  lemma TestCaseRemoval(g: Symbol, b: Symbol, y: Symbol, r: Symbol)
    requires g != b && g != y && g != r && b != y && b != r && y != r
    ensures CountRemoving([b, g, b, y], [g, y, r, b]) == 3
  {
    assert RemoveFirst([g, y, r, b], b) == [g, y, r] by {
      assert [g, y, r, b][1..] == [y, r, b];
      assert [y, r, b][1..] == [r, b];
      assert [r, b][1..] == [b];
      assert RemoveFirst([b], b) == [];
      assert RemoveFirst([r, b], b) == [r];
      assert RemoveFirst([y, r, b], b) == [y, r];
    }
    assert RemoveFirst([g, y, r], g) == [y, r];
    assert RemoveFirst([y, r], y) == [r];
    CountRemovingStep([b, g, b, y], [g, y, r, b]);
    assert [b, g, b, y][1..] == [g, b, y];
    CountRemovingStep([g, b, y], [g, y, r]);
    assert [g, b, y][1..] == [b, y];
    CountRemovingStep([b, y], [y, r]);
    assert [b, y][1..] == [y];
    CountRemovingStep([y], [y, r]);
    assert [y][1..] == [];
  }

  /** The same round with the symbols spelled as in the test. */
  lemma TestCaseRoundAsWritten()
    ensures Judge(["g", "b", "g", "b", "y"], ["g", "g", "y", "r", "b"]) == Judgment(1, 3)
  {
    var g, b, y, r: Symbol := "g", "b", "y", "r";
    assert g[0] == 'g' && b[0] == 'b' && y[0] == 'y' && r[0] == 'r';
    TestCaseRound(g, b, y, r);
  }
}
