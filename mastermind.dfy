/** Scoring of a guess against an answer in a Mastermind-style puzzle, and the
    notion of a candidate being consistent with the evidence gathered so far.

    The scoring functions follow Python's `zip`: they compare the common prefix
    of the two sequences, so they need no precondition. Every caller in the
    solver passes sequences of the same length. */
module Mastermind {

  type Symbol = string
  type Code = seq<Symbol>

  function Min(x: nat, y: nat): nat
  {
    if x <= y then x else y
  }

  predicate Distinct<T(==)>(s: seq<T>)
  {
    forall i, j :: 0 <= i < j < |s| ==> s[i] != s[j]
  }

  /** Number of positions below k where a and g hold the same symbol. */
  function FullMatchesUpTo(a: Code, g: Code, k: nat): nat
    requires k <= |a| && k <= |g|
  {
    if k == 0 then 0
    else FullMatchesUpTo(a, g, k - 1) + (if a[k - 1] == g[k - 1] then 1 else 0)
  }

  /** The symbols of a, in order, at the positions below k where a and g differ. */
  function Unmatched(a: Code, g: Code, k: nat): seq<Symbol>
    requires k <= |a| && k <= |g|
  {
    if k == 0 then []
    else Unmatched(a, g, k - 1) + (if a[k - 1] == g[k - 1] then [] else [a[k - 1]])
  }

  /** Exact positional matches ("full matches", "both correct"). */
  function FullMatches(a: Code, g: Code): nat
  {
    FullMatchesUpTo(a, g, Min(|a|, |g|))
  }

  /** Right symbol in the wrong place ("partial matches"): the size of the
      multiset intersection of the unmatched answer symbols and the unmatched
      guess symbols. */
  function PartialMatches(a: Code, g: Code): nat
  {
    var n := Min(|a|, |g|);
    |multiset(Unmatched(a, g, n)) * multiset(Unmatched(g, a, n))|
  }

  /** Python's `list.remove`: drops the first occurrence of x. */
  function RemoveFirst(s: seq<Symbol>, x: Symbol): seq<Symbol>
  {
    if s == [] then []
    else if s[0] == x then s[1..]
    else [s[0]] + RemoveFirst(s[1..], x)
  }

  /** The second loop of judge_guess: walk the unmatched answer symbols and,
      on each one still present in the pool of unmatched guess symbols, count
      a hit and remove one occurrence from the pool. */
  function CountRemoving(us: seq<Symbol>, pool: seq<Symbol>): nat
  {
    if us == [] then 0
    else if us[0] in pool then 1 + CountRemoving(us[1..], RemoveFirst(pool, us[0]))
    else CountRemoving(us[1..], pool)
  }

  lemma CountRemovingStep(us: seq<Symbol>, pool: seq<Symbol>)
    requires us != []
    ensures CountRemoving(us, pool) ==
            if us[0] in pool then 1 + CountRemoving(us[1..], RemoveFirst(pool, us[0]))
            else CountRemoving(us[1..], pool)
  {
  }

  lemma {:induction false} RemoveFirstMultiset(s: seq<Symbol>, x: Symbol)
    requires x in s
    ensures multiset(RemoveFirst(s, x)) == multiset(s) - multiset{x}
    ensures |RemoveFirst(s, x)| == |s| - 1
  {
    assert s == [s[0]] + s[1..];
    if s[0] != x {
      RemoveFirstMultiset(s[1..], x);
    }
  }

  lemma IntersectHit(x: Symbol, u: multiset<Symbol>, p: multiset<Symbol>)
    requires x in p
    ensures (multiset{x} + u) * p == multiset{x} + u * (p - multiset{x})
  {
    var lhs, rhs := (multiset{x} + u) * p, multiset{x} + u * (p - multiset{x});
    forall y ensures lhs[y] == rhs[y] {
      if y == x {
        assert lhs[y] == if u[x] + 1 <= p[x] then u[x] + 1 else p[x];
      }
    }
  }

  lemma IntersectMiss(x: Symbol, u: multiset<Symbol>, p: multiset<Symbol>)
    requires x !in p
    ensures (multiset{x} + u) * p == u * p
  {
    var lhs, rhs := (multiset{x} + u) * p, u * p;
    forall y ensures lhs[y] == rhs[y] {
    }
  }

  /** Removing one occurrence per hit counts the multiset intersection. */
  lemma {:induction false} CountRemovingIsIntersection(us: seq<Symbol>, pool: seq<Symbol>)
    ensures CountRemoving(us, pool) == |multiset(us) * multiset(pool)|
    decreases |us|
  {
    if us == [] {
      assert multiset(us) * multiset(pool) == multiset{};
    } else {
      var x := us[0];
      assert us == [x] + us[1..];
      assert multiset(us) == multiset{x} + multiset(us[1..]);
      if x in pool {
        RemoveFirstMultiset(pool, x);
        CountRemovingIsIntersection(us[1..], RemoveFirst(pool, x));
        IntersectHit(x, multiset(us[1..]), multiset(pool));
      } else {
        CountRemovingIsIntersection(us[1..], pool);
        IntersectMiss(x, multiset(us[1..]), multiset(pool));
      }
    }
  }

  lemma {:induction false} CountRemovingBound(us: seq<Symbol>, pool: seq<Symbol>)
    ensures CountRemoving(us, pool) <= |us|
    decreases |us|
  {
    if us != [] {
      if us[0] in pool {
        CountRemovingBound(us[1..], RemoveFirst(pool, us[0]));
      } else {
        CountRemovingBound(us[1..], pool);
      }
    }
  }

  /** The full-match count is the number of indices where the two agree. */
  lemma {:induction false} FullMatchesUpToCountsIndices(a: Code, g: Code, k: nat)
    requires k <= |a| && k <= |g|
    ensures FullMatchesUpTo(a, g, k) == |set i | 0 <= i < k && a[i] == g[i]|
  {
    if k > 0 {
      FullMatchesUpToCountsIndices(a, g, k - 1);
      var before := set i | 0 <= i < k - 1 && a[i] == g[i];
      if a[k - 1] == g[k - 1] {
        assert (set i | 0 <= i < k && a[i] == g[i]) == before + {k - 1};
      } else {
        assert (set i | 0 <= i < k && a[i] == g[i]) == before;
      }
    }
  }

  /** Every compared position is either a full match or contributes one
      unmatched symbol to each side. */
  lemma {:induction false} UnmatchedLength(a: Code, g: Code, k: nat)
    requires k <= |a| && k <= |g|
    ensures FullMatchesUpTo(a, g, k) + |Unmatched(a, g, k)| == k
    ensures |Unmatched(g, a, k)| == |Unmatched(a, g, k)|
  {
    if k > 0 {
      UnmatchedLength(a, g, k - 1);
    }
  }

  lemma {:induction false} FullMatchesUpToSymmetric(a: Code, g: Code, k: nat)
    requires k <= |a| && k <= |g|
    ensures FullMatchesUpTo(a, g, k) == FullMatchesUpTo(g, a, k)
  {
    if k > 0 {
      FullMatchesUpToSymmetric(a, g, k - 1);
    }
  }

  lemma {:induction false} SelfMatchesUpTo(a: Code, k: nat)
    requires k <= |a|
    ensures FullMatchesUpTo(a, a, k) == k && Unmatched(a, a, k) == []
  {
    if k > 0 {
      SelfMatchesUpTo(a, k - 1);
    }
  }

  /** Where no position matches, every symbol is unmatched. */
  lemma {:induction false} NoMatchUpTo(a: Code, g: Code, k: nat)
    requires k <= |a| && k <= |g|
    requires forall i :: 0 <= i < k ==> a[i] != g[i]
    ensures FullMatchesUpTo(a, g, k) == 0
    ensures Unmatched(a, g, k) == a[..k] && Unmatched(g, a, k) == g[..k]
  {
    if k > 0 {
      NoMatchUpTo(a, g, k - 1);
      assert a[..k] == a[..k - 1] + [a[k - 1]];
      assert g[..k] == g[..k - 1] + [g[k - 1]];
    }
  }

  lemma AllMismatched(a: Code, g: Code)
    requires |a| == |g|
    requires forall i :: 0 <= i < |a| ==> a[i] != g[i]
    ensures FullMatches(a, g) == 0
    ensures Unmatched(a, g, |a|) == a && Unmatched(g, a, |a|) == g
  {
    NoMatchUpTo(a, g, |a|);
    assert a[..|a|] == a && g[..|g|] == g;
  }

  /** The partial count is what the remove loop of judge_guess computes. */
  lemma PartialMatchesByRemoval(a: Code, g: Code)
    ensures var n := Min(|a|, |g|);
            PartialMatches(a, g) == CountRemoving(Unmatched(a, g, n), Unmatched(g, a, n))
  {
    var n := Min(|a|, |g|);
    CountRemovingIsIntersection(Unmatched(a, g, n), Unmatched(g, a, n));
  }

  /** The first loop of judge_guess: walk the two codes in step (as `zip`
      does), counting equal positions and collecting both sides' symbols at
      the others. */
  method TallyPositions(answer: Code, guess: Code) returns (fullMatch: nat, unaccountedAnswers: seq<Symbol>, unaccountedGuesses: seq<Symbol>)
    ensures fullMatch == FullMatches(answer, guess)
    ensures fullMatch == |set i | 0 <= i < Min(|answer|, |guess|) && answer[i] == guess[i]|
    ensures unaccountedAnswers == Unmatched(answer, guess, Min(|answer|, |guess|))
    ensures unaccountedGuesses == Unmatched(guess, answer, Min(|answer|, |guess|))
    ensures fullMatch + |unaccountedAnswers| == Min(|answer|, |guess|)
  {
    var n := Min(|answer|, |guess|);
    fullMatch, unaccountedAnswers, unaccountedGuesses := 0, [], [];
    var i := 0;
    while i < n
      invariant 0 <= i <= n
      invariant fullMatch == FullMatchesUpTo(answer, guess, i)
      invariant unaccountedAnswers == Unmatched(answer, guess, i)
      invariant unaccountedGuesses == Unmatched(guess, answer, i)
    {
      if answer[i] == guess[i] {
        fullMatch := fullMatch + 1;
      } else {
        unaccountedAnswers := unaccountedAnswers + [answer[i]];
        unaccountedGuesses := unaccountedGuesses + [guess[i]];
      }
      i := i + 1;
    }
    FullMatchesUpToCountsIndices(answer, guess, n);
    UnmatchedLength(answer, guess, n);
  }

  /** The second loop of judge_guess: on each unmatched answer symbol still
      among the unmatched guess symbols, count it and remove one occurrence.
      The count is the size of the multiset intersection. */
  method CountShared(unaccountedAnswers: seq<Symbol>, unaccountedGuesses: seq<Symbol>) returns (count: nat)
    ensures count == |multiset(unaccountedAnswers) * multiset(unaccountedGuesses)|
  {
    count := 0;
    var pool := unaccountedGuesses;
    for j := 0 to |unaccountedAnswers|
      invariant count + CountRemoving(unaccountedAnswers[j..], pool)
             == CountRemoving(unaccountedAnswers, unaccountedGuesses)
    {
      var ua := unaccountedAnswers[j];
      CountRemovingStep(unaccountedAnswers[j..], pool);
      assert unaccountedAnswers[j..][1..] == unaccountedAnswers[j + 1..];
      if ua in pool {
        count := count + 1;
        pool := RemoveFirst(pool, ua);
      }
    }
    CountRemovingIsIntersection(unaccountedAnswers, unaccountedGuesses);
  }

  /** A symbol occurrence contributes to at most one match. */
  lemma ScoreBound(a: Code, g: Code)
    ensures FullMatches(a, g) + PartialMatches(a, g) <= Min(|a|, |g|)
    ensures |a| == |g| ==> FullMatches(a, g) + PartialMatches(a, g) <= |a|
  {
    var n := Min(|a|, |g|);
    UnmatchedLength(a, g, n);
    PartialMatchesByRemoval(a, g);
    CountRemovingBound(Unmatched(a, g, n), Unmatched(g, a, n));
  }

  /** Scoring does not depend on which side is the answer. */
  lemma ScoreSymmetric(a: Code, g: Code)
    ensures FullMatches(a, g) == FullMatches(g, a)
    ensures PartialMatches(a, g) == PartialMatches(g, a)
  {
    var n := Min(|a|, |g|);
    assert Min(|g|, |a|) == n;
    FullMatchesUpToSymmetric(a, g, n);
    var ma, mg := multiset(Unmatched(a, g, n)), multiset(Unmatched(g, a, n));
    assert ma * mg == mg * ma;
  }

  /** A code scored against itself is all full matches. */
  lemma SelfScore(a: Code)
    ensures FullMatches(a, a) == |a| && PartialMatches(a, a) == 0
  {
    SelfMatchesUpTo(a, |a|);
  }

  /** One recorded round: the guess and the two scores it was given. */
  datatype Clue = Clue(guess: Code, full: int, partial: int)

  /** Scoring the candidate (as the answer) against the clue's guess reproduces
      both recorded scores exactly. */
  predicate Agrees(candidate: Code, clue: Clue)
  {
    FullMatches(candidate, clue.guess) == clue.full && PartialMatches(candidate, clue.guess) == clue.partial
  }

  predicate Consistent(candidate: Code, clues: seq<Clue>)
  {
    forall i :: 0 <= i < |clues| ==> Agrees(candidate, clues[i])
  }

  /** Consistency is a conjunction over the clues: empty evidence rules out
      nothing, and a new clue can only rule out more. */
  lemma ConsistentExtend(candidate: Code, clues: seq<Clue>, clue: Clue)
    ensures Consistent(candidate, [])
    ensures Consistent(candidate, clues + [clue]) <==> Consistent(candidate, clues) && Agrees(candidate, clue)
  {
    var all := clues + [clue];
    if Consistent(candidate, all) {
      forall i | 0 <= i < |clues| ensures Agrees(candidate, clues[i]) {
        assert all[i] == clues[i];
      }
      assert all[|clues|] == clue;
    }
  }

  lemma ConsistentCons(candidate: Code, clue: Clue, clues: seq<Clue>)
    ensures Consistent(candidate, [clue] + clues) <==> Agrees(candidate, clue) && Consistent(candidate, clues)
  {
    var all := [clue] + clues;
    assert all[0] == clue;
    assert forall i :: 0 <= i < |clues| ==> all[i + 1] == clues[i];
    if Agrees(candidate, clue) && Consistent(candidate, clues) {
      forall i | 0 <= i < |all| ensures Agrees(candidate, all[i]) {
        if i > 0 {
          assert all[i] == clues[i - 1];
        }
      }
    }
  }

  /** Honest evidence about the answer never rules the answer out. */
  lemma TruthfulCluesKeepAnswer(answer: Code, clues: seq<Clue>)
    requires forall i :: 0 <= i < |clues| ==>
               clues[i].full == FullMatches(clues[i].guess, answer) &&
               clues[i].partial == PartialMatches(clues[i].guess, answer)
    ensures Consistent(answer, clues)
  {
    forall i | 0 <= i < |clues| ensures Agrees(answer, clues[i]) {
      ScoreSymmetric(clues[i].guess, answer);
    }
  }
}
