/** The free-function engine of original.py, the earlier copy of main.py's
    engine that speaks of colours: the game state is a dictionary whose
    "possible_guesses" list is popped in place, and the evidence is a list of
    dictionaries with the keys "guess", "both_correct" and "color_correct". */
module OriginalEngine {
  import opened Mastermind
  import opened Candidates
  import opened Selection

  /** The dictionary judge_guess returns. */
  datatype Judgment = Judgment(bothCorrect: int, colorCorrect: int)

  /** One recorded round of the evidence list. */
  datatype Evidence = Evidence(guess: Code, bothCorrect: int, colorCorrect: int)

  function Clues(evidences: seq<Evidence>): seq<Clue>
  {
    seq(|evidences|, i requires 0 <= i < |evidences| =>
      Clue(evidences[i].guess, evidences[i].bothCorrect, evidences[i].colorCorrect))
  }

  /** The judgment of a guess as a value. */
  function Judge(answer: Code, guess: Code): Judgment
  {
    Judgment(FullMatches(answer, guess), PartialMatches(answer, guess))
  }

  /** The game-state dictionary. Its list object is shared with the caller. */
  class GameState {
    const numPegs: int
    const colors: seq<Symbol>
    const possibleGuesses: List<Code>

    constructor (numPegs: int, colors: seq<Symbol>, possibleGuesses: List<Code>)
      ensures this.numPegs == numPegs && this.colors == colors
      ensures this.possibleGuesses == possibleGuesses
    {
      this.numPegs := numPegs;
      this.colors := colors;
      this.possibleGuesses := possibleGuesses;
    }
  }

  /** Every code of `numPegs` colors, in lexicographic order. */
  function GenerateAllPossibleGuesses(numPegs: nat, colors: seq<Symbol>): (r: seq<Code>)
    requires numPegs >= 1
    ensures |r| == Pow(|colors|, numPegs)
    ensures forall k :: 0 <= k < |r| ==> r[k] == Nth(colors, numPegs, k)
  {
    if numPegs == 1 then
      SingletonsAreLex(colors);
      Singletons(colors)
    else
      var suffixes := GenerateAllPossibleGuesses(numPegs - 1, colors);
      LexStep(colors, numPegs, suffixes);
      Extend(colors, suffixes)
  }

  /** The candidate space has |colors|^numPegs codes, each of length numPegs
      over `colors`, and every such code is in it. */
  lemma ColorSpaceShape(numPegs: nat, colors: seq<Symbol>)
    requires numPegs >= 1
    ensures var r := GenerateAllPossibleGuesses(numPegs, colors);
            && |r| == Pow(|colors|, numPegs)
            && (forall k :: 0 <= k < |r| ==> |r[k]| == numPegs)
            && (forall k, j :: 0 <= k < |r| && 0 <= j < numPegs ==> r[k][j] in colors)
            && (forall x: Code :: |x| == numPegs && (forall j :: 0 <= j < |x| ==> x[j] in colors) ==> x in r)
  {
    var r := GenerateAllPossibleGuesses(numPegs, colors);
    forall k | 0 <= k < |r| ensures |r[k]| == numPegs && forall j :: 0 <= j < numPegs ==> r[k][j] in colors {
      NthShape(colors, numPegs, k);
    }
    forall x: Code | |x| == numPegs && (forall j :: 0 <= j < |x| ==> x[j] in colors) ensures x in r {
      var k := NthComplete(colors, x);
      assert r[k] == x;
    }
  }

  /** Score `guess` against `answer`. */
  method JudgeGuess(answer: Code, guess: Code) returns (retVal: Judgment)
    ensures retVal.bothCorrect == FullMatches(answer, guess)
    ensures retVal.colorCorrect == PartialMatches(answer, guess)
  {
    retVal := Judgment(0, 0);
    var bothCorrect, unaccountedAnswers, unaccountedGuesses := TallyPositions(answer, guess);
    retVal := retVal.(bothCorrect := bothCorrect);
    var colorCorrect := CountShared(unaccountedAnswers, unaccountedGuesses);
    retVal := retVal.(colorCorrect := colorCorrect);
  }

  /** The loop of guess_contradicts_some_evidence, returning at the first
      entry whose judgment differs from the recorded one. */
  function GuessContradictsSomeEvidence(guess: Code, evidences: seq<Evidence>): (r: bool)
    ensures !r <==> Consistent(guess, Clues(evidences))
    ensures !r <==> forall i :: 0 <= i < |evidences| ==>
              Judge(guess, evidences[i].guess) == Judgment(evidences[i].bothCorrect, evidences[i].colorCorrect)
  {
    if evidences == [] then false
    else
      var head := Clue(evidences[0].guess, evidences[0].bothCorrect, evidences[0].colorCorrect);
      assert Clues(evidences) == [head] + Clues(evidences[1..]);
      ConsistentCons(guess, head, Clues(evidences[1..]));
      assert forall i :: 0 < i < |evidences| ==> evidences[i] == evidences[1..][i - 1];
      if Judge(guess, evidences[0].guess) != Judgment(evidences[0].bothCorrect, evidences[0].colorCorrect) then true
      else GuessContradictsSomeEvidence(guess, evidences[1..])
  }

  /** Empty evidence contradicts nothing, and recording an entry can only turn
      "consistent" into "contradicts". */
  lemma {:induction false} EvidenceOnlyRulesOut(guess: Code, evidences: seq<Evidence>, entry: Evidence)
    ensures !GuessContradictsSomeEvidence(guess, [])
    ensures GuessContradictsSomeEvidence(guess, evidences) ==> GuessContradictsSomeEvidence(guess, evidences + [entry])
    decreases |evidences|
  {
    if evidences != [] {
      assert (evidences + [entry])[0] == evidences[0];
      assert (evidences + [entry])[1..] == evidences[1..] + [entry];
      EvidenceOnlyRulesOut(guess, evidences[1..], entry);
    }
  }

  /** Pop and return `list[index]`, or raise IndexError when out of range. */
  method QuickRemoveFromArray<T>(index: int, list: List<T>) returns (r: Result<T>)
    modifies list
    ensures 0 <= index < |old(list.elements)| ==>
              r == Success(old(list.elements)[index]) && list.elements == RemoveAt(old(list.elements), index)
    ensures !(0 <= index < |old(list.elements)|) ==>
              r == Failure(IndexError("index out of rrange")) && list.elements == old(list.elements)
  {
    if index < 0 || index >= |list.elements| {
      return Failure(IndexError("index out of rrange"));
    }
    r := Success(list.elements[index]);
    list.elements := RemoveAt(list.elements, index);
  }

  /** Pop random candidates until one is consistent with the evidence. The
      index passed to quick_remove_from_array is always in range. */
  method GenerateNextGuess(gameState: GameState, evidence: seq<Evidence>, rng: RandomSource) returns (guess: Option<Code>)
    modifies gameState.possibleGuesses, rng
    ensures var d := Drain(old(gameState.possibleGuesses.elements), Clues(evidence), rng.stream, old(rng.position));
            guess == d.guess && gameState.possibleGuesses.elements == d.pool && rng.position == d.position
  {
    var guesses := gameState.possibleGuesses;
    ghost var clues := Clues(evidence);
    ghost var outcome := Drain(guesses.elements, clues, rng.stream, rng.position);
    while guesses.elements != []
      invariant Drain(guesses.elements, clues, rng.stream, rng.position) == outcome
      decreases |guesses.elements|
    {
      ghost var before, drawn := guesses.elements, rng.position;
      var index := rng.RandInt(0, |guesses.elements| - 1);
      var removed := QuickRemoveFromArray(index, guesses);
      assert removed.Success?;
      DrainStep(before, clues, rng.stream, drawn, index);
      if !GuessContradictsSomeEvidence(removed.value, evidence) {
        return Some(removed.value);
      }
    }
    return None;
  }
}
