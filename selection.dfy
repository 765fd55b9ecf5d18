/** Guess selection by draining the candidate pool: draw a random index, pop
    that candidate whether or not it survives, and stop at the first one
    consistent with the evidence, or report exhaustion when the pool is empty.

    Python's seeded generator is represented by an arbitrary stream of draws;
    `randint(lo, hi)` maps the next draw into [lo, hi]. Because the stream is
    arbitrary, every sequence of in-range indices is covered. */
module Selection {
  import opened Mastermind

  datatype Option<T> = None | Some(value: T)

  datatype IndexError = IndexError(message: string)

  /** The outcome of a call that may raise IndexError. */
  datatype Result<T> = Success(value: T) | Failure(error: IndexError)

  /** The value `randint(lo, hi)` takes on draw number `position`. */
  function RandIntValue(stream: nat -> nat, position: nat, lo: int, hi: int): (r: int)
    requires lo <= hi
    ensures lo <= r <= hi
  {
    lo + stream(position) % (hi - lo + 1)
  }

  /** The process-wide random generator after seeding: a fixed stream of raw
      draws and the number of draws taken so far. */
  class RandomSource {
    const stream: nat -> nat
    var position: nat

    constructor (stream: nat -> nat)
      ensures this.stream == stream && position == 0
    {
      this.stream := stream;
      position := 0;
    }

    /** `random.randint(lo, hi)`: an integer in [lo, hi], inclusive. */
    method RandInt(lo: int, hi: int) returns (r: int)
      requires lo <= hi
      modifies this
      ensures r == RandIntValue(stream, old(position), lo, hi)
      ensures position == old(position) + 1
    {
      r := RandIntValue(stream, position, lo, hi);
      position := position + 1;
    }
  }

  /** A Python list object, shared by reference and updated in place. */
  class List<T> {
    var elements: seq<T>

    constructor (elements: seq<T>)
      ensures this.elements == elements
    {
      this.elements := elements;
    }
  }

  /** `list.pop(i)` on the elements: the elements before i stay where they
      are and the ones after it move down by one. */
  function RemoveAt<T>(s: seq<T>, i: nat): (r: seq<T>)
    requires i < |s|
    ensures |r| == |s| - 1
    ensures forall j :: 0 <= j < i ==> r[j] == s[j]
    ensures forall j :: i <= j < |r| ==> r[j] == s[j + 1]
  {
    s[..i] + s[i + 1..]
  }

  lemma RemoveAtMultiset<T>(s: seq<T>, i: nat)
    requires i < |s|
    ensures multiset(s) == multiset(RemoveAt(s, i)) + multiset{s[i]}
    ensures |RemoveAt(s, i)| == |s| - 1
  {
    assert s == s[..i] + [s[i]] + s[i + 1..];
  }

  /** s keeps some of the elements of t, in their original relative order. */
  predicate IsSubsequence<T(==)>(s: seq<T>, t: seq<T>)
    decreases |t|
  {
    if s == [] then true
    else if t == [] then false
    else (s[0] == t[0] && IsSubsequence(s[1..], t[1..])) || IsSubsequence(s, t[1..])
  }

  lemma {:induction false} SubsequenceReflexive<T>(s: seq<T>)
    ensures IsSubsequence(s, s)
    decreases |s|
  {
    if s != [] {
      SubsequenceReflexive(s[1..]);
    }
  }

  lemma {:induction false} SubsequenceTransitive<T>(a: seq<T>, b: seq<T>, c: seq<T>)
    requires IsSubsequence(a, b) && IsSubsequence(b, c)
    ensures IsSubsequence(a, c)
    decreases |c|
  {
    if a != [] {
      if IsSubsequence(b, c[1..]) {
        SubsequenceTransitive(a, b, c[1..]);
      } else if a[0] == b[0] && IsSubsequence(a[1..], b[1..]) {
        SubsequenceTransitive(a[1..], b[1..], c[1..]);
      } else {
        SubsequenceTransitive(a, b[1..], c[1..]);
      }
    }
  }

  /** Popping one element keeps the others in order. */
  lemma {:induction false} RemoveAtIsSubsequence<T>(s: seq<T>, i: nat)
    requires i < |s|
    ensures IsSubsequence(RemoveAt(s, i), s)
    decreases i
  {
    if i == 0 {
      assert RemoveAt(s, 0) == s[1..];
      SubsequenceReflexive(s[1..]);
    } else {
      RemoveAtIsSubsequence(s[1..], i - 1);
      assert RemoveAt(s, i) == [s[0]] + RemoveAt(s[1..], i - 1);
    }
  }

  /** What one call of the selection loop leaves behind. */
  datatype Draining = Draining(guess: Option<Code>, pool: seq<Code>, position: nat)

  /** The selection loop, run from draw number `position` of the stream. */
  function Drain(pool: seq<Code>, clues: seq<Clue>, stream: nat -> nat, position: nat): Draining
    decreases |pool|
  {
    if pool == [] then Draining(None, pool, position)
    else
      var i := RandIntValue(stream, position, 0, |pool| - 1);
      var rest := RemoveAt(pool, i);
      if Consistent(pool[i], clues) then Draining(Some(pool[i]), rest, position + 1)
      else Drain(rest, clues, stream, position + 1)
  }

  /** One iteration of the selection loop. */
  lemma DrainStep(pool: seq<Code>, clues: seq<Clue>, stream: nat -> nat, position: nat, i: nat)
    requires pool != [] && i == RandIntValue(stream, position, 0, |pool| - 1)
    ensures Drain(pool, clues, stream, position) ==
            if Consistent(pool[i], clues) then Draining(Some(pool[i]), RemoveAt(pool, i), position + 1)
            else Drain(RemoveAt(pool, i), clues, stream, position + 1)
  {
  }

  /** Each draw pops exactly one candidate: the loop keeps the rest in order,
      takes one draw per removed candidate, and always removes at least one
      when there is one. */
  lemma {:induction false} DrainConsumes(pool: seq<Code>, clues: seq<Clue>, stream: nat -> nat, position: nat)
    ensures var d := Drain(pool, clues, stream, position);
            && IsSubsequence(d.pool, pool)
            && d.position == position + (|pool| - |d.pool|)
            && (pool != [] ==> |d.pool| < |pool|)
    decreases |pool|
  {
    if pool == [] {
      SubsequenceReflexive(pool);
    } else {
      var i := RandIntValue(stream, position, 0, |pool| - 1);
      var rest := RemoveAt(pool, i);
      RemoveAtIsSubsequence(pool, i);
      if Consistent(pool[i], clues) {
      } else {
        DrainConsumes(rest, clues, stream, position + 1);
        SubsequenceTransitive(Drain(rest, clues, stream, position + 1).pool, rest, pool);
      }
    }
  }

  /** A returned guess came from the pool and agrees with every clue; no guess
      means the pool ran dry and every candidate in it contradicted some clue. */
  lemma {:induction false} DrainOutcome(pool: seq<Code>, clues: seq<Clue>, stream: nat -> nat, position: nat)
    ensures var d := Drain(pool, clues, stream, position);
            && (d.guess.Some? ==> d.guess.value in pool && Consistent(d.guess.value, clues))
            && (d.guess.None? ==> d.pool == [] && forall c :: c in pool ==> !Consistent(c, clues))
    decreases |pool|
  {
    if pool != [] {
      var i := RandIntValue(stream, position, 0, |pool| - 1);
      var rest := RemoveAt(pool, i);
      if !Consistent(pool[i], clues) {
        DrainOutcome(rest, clues, stream, position + 1);
        RemoveAtMultiset(pool, i);
        forall c | c in rest ensures c in pool {
          assert c in multiset(rest);
        }
        forall c | c in pool && c != pool[i] ensures c in rest {
          assert c in multiset(pool);
        }
      }
    }
  }

  /** Only candidates that contradict the evidence are thrown away: the pool
      loses copies of a consistent code only by returning one of them. */
  lemma {:induction false} DrainKeepsConsistent(pool: seq<Code>, clues: seq<Clue>, stream: nat -> nat, position: nat)
    ensures var d := Drain(pool, clues, stream, position);
            && multiset(d.pool) <= multiset(pool)
            && forall c :: Consistent(c, clues) ==>
                 multiset(pool)[c] == multiset(d.pool)[c] + (if d.guess == Some(c) then 1 else 0)
    decreases |pool|
  {
    if pool != [] {
      var i := RandIntValue(stream, position, 0, |pool| - 1);
      var rest := RemoveAt(pool, i);
      RemoveAtMultiset(pool, i);
      if !Consistent(pool[i], clues) {
        DrainKeepsConsistent(rest, clues, stream, position + 1);
      }
    }
  }

  /** The loop only ever removes candidates from the pool. */
  lemma {:induction false} DrainShrinks(pool: seq<Code>, clues: seq<Clue>, stream: nat -> nat, position: nat)
    ensures multiset(Drain(pool, clues, stream, position).pool) <= multiset(pool)
    decreases |pool|
  {
    if pool != [] {
      var i := RandIntValue(stream, position, 0, |pool| - 1);
      RemoveAtMultiset(pool, i);
      if !Consistent(pool[i], clues) {
        DrainShrinks(RemoveAt(pool, i), clues, stream, position + 1);
      }
    }
  }

  /** While the answer is still in the pool and the evidence about it is
      honest, the loop does not report exhaustion. */
  lemma DrainFindsWhileAnswerRemains(answer: Code, pool: seq<Code>, clues: seq<Clue>, stream: nat -> nat, position: nat)
    requires answer in pool
    requires forall i :: 0 <= i < |clues| ==>
               clues[i].full == FullMatches(clues[i].guess, answer) &&
               clues[i].partial == PartialMatches(clues[i].guess, answer)
    ensures Drain(pool, clues, stream, position).guess.Some?
  {
    TruthfulCluesKeepAnswer(answer, clues);
    DrainOutcome(pool, clues, stream, position);
  }

  lemma DistinctCount<T>(s: seq<T>, x: T)
    requires Distinct(s)
    ensures multiset(s)[x] <= 1
    decreases |s|
  {
    if s != [] {
      assert s == [s[0]] + s[1..];
      DistinctCount(s[1..], x);
      if s[0] == x {
        assert x !in s[1..];
      }
    }
  }

  /** Over a pool without repeats, the returned guess is no longer in the pool. */
  lemma DrainRemovesGuess(pool: seq<Code>, clues: seq<Clue>, stream: nat -> nat, position: nat)
    requires Distinct(pool)
    ensures var d := Drain(pool, clues, stream, position);
            d.guess.Some? ==> d.guess.value !in d.pool
  {
    var d := Drain(pool, clues, stream, position);
    if d.guess.Some? {
      DrainOutcome(pool, clues, stream, position);
      DrainKeepsConsistent(pool, clues, stream, position);
      DistinctCount(pool, d.guess.value);
    }
  }
}
