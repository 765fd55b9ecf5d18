/** The candidate space: every code of a given length over a symbol list, with
    repetition, in lexicographic order with position 0 most significant.

    The generators of the three engines are each written as the source writes
    them (singletons for length 1, otherwise every symbol prefixed to every
    shorter code); this module holds the pieces they share and the reference
    enumeration `Nth` they are proved against. */
module Candidates {
  import opened Mastermind

  function Pow(b: nat, n: nat): nat
  {
    if n == 0 then 1 else b * Pow(b, n - 1)
  }

  lemma {:induction false} MulMonotone(a: nat, b: nat, p: nat)
    requires a <= b
    ensures a * p <= b * p
  {
    if a < b {
      MulMonotone(a, b - 1, p);
      assert b * p == (b - 1) * p + p;
    }
  }

  lemma DivBelow(k: nat, p: nat, b: nat)
    requires k < b * p
    ensures p > 0 && k / p < b
  {
    if p > 0 && k / p >= b {
      MulMonotone(b, k / p, p);
    }
  }

  lemma DivModUnique(k: nat, p: nat, q: nat, r: nat)
    requires p > 0 && r < p && k == q * p + r
    ensures k / p == q && k % p == r
  {
    var q' := k / p;
    assert k == q' * p + k % p;
    if q' < q {
      MulMonotone(q' + 1, q, p);
    } else if q' > q {
      MulMonotone(q + 1, q', p);
    }
  }

  lemma DivModSplit(k: nat, p: nat)
    requires p > 0
    ensures k == (k / p) * p + k % p
  {
  }

  /** The k-th code of length n in lexicographic order over items: its first
      symbol is digit k / |items|^(n-1) and the rest is the (k mod
      |items|^(n-1))-th shorter code. */
  function Nth(items: seq<Symbol>, n: nat, k: nat): Code
    requires k < Pow(|items|, n)
    decreases n
  {
    if n == 0 then []
    else
      var p := Pow(|items|, n - 1);
      DivBelow(k, p, |items|);
      [items[k / p]] + Nth(items, n - 1, k % p)
  }

  /** `[[symbol] for symbol in items]` */
  function Singletons(items: seq<Symbol>): seq<Code>
  {
    seq(|items|, i requires 0 <= i < |items| => [items[i]])
  }

  /** `[[symbol] + suffix for suffix in suffixes]` */
  function PrefixAll(symbol: Symbol, suffixes: seq<Code>): seq<Code>
  {
    seq(|suffixes|, j requires 0 <= j < |suffixes| => [symbol] + suffixes[j])
  }

  /** `[[symbol] + suffix for symbol in items for suffix in suffixes]` */
  function Extend(items: seq<Symbol>, suffixes: seq<Code>): seq<Code>
  {
    if items == [] then [] else PrefixAll(items[0], suffixes) + Extend(items[1..], suffixes)
  }

  lemma MulSucc(a: nat, p: nat)
    ensures (a + 1) * p == a * p + p
  {
  }

  lemma {:induction false} ExtendLength(items: seq<Symbol>, suffixes: seq<Code>)
    ensures |Extend(items, suffixes)| == |items| * |suffixes|
  {
    if items != [] {
      ExtendLength(items[1..], suffixes);
      MulSucc(|items| - 1, |suffixes|);
    }
  }

  /** In the comprehension, the block of symbol q comes q blocks from the start. */
  lemma {:induction false} ExtendAt(items: seq<Symbol>, suffixes: seq<Code>, q: nat, r: nat)
    requires q < |items| && r < |suffixes|
    ensures q * |suffixes| + r < |Extend(items, suffixes)|
    ensures Extend(items, suffixes)[q * |suffixes| + r] == [items[q]] + suffixes[r]
  {
    var s := |suffixes|;
    ExtendLength(items, suffixes);
    MulMonotone(q + 1, |items|, s);
    MulSucc(q, s);
    var head, tail := PrefixAll(items[0], suffixes), Extend(items[1..], suffixes);
    assert Extend(items, suffixes) == head + tail;
    if q == 0 {
      assert q * s + r == r;
      assert head[r] == [items[0]] + suffixes[r];
    } else {
      ExtendAt(items[1..], suffixes, q - 1, r);
      MulSucc(q - 1, s);
      var j := (q - 1) * s + r;
      assert q * s + r == s + j;
      assert tail[j] == [items[q]] + suffixes[r];
    }
  }

  lemma SingletonsAreLex(items: seq<Symbol>)
    ensures |Singletons(items)| == Pow(|items|, 1)
    ensures forall k :: 0 <= k < |items| ==> Singletons(items)[k] == Nth(items, 1, k)
  {
  }

  /** Prefixing every symbol to the lexicographic list of shorter codes gives
      the lexicographic list of longer codes. */
  lemma LexStep(items: seq<Symbol>, n: nat, suffixes: seq<Code>)
    requires n >= 1
    requires |suffixes| == Pow(|items|, n - 1)
    requires forall k :: 0 <= k < |suffixes| ==> suffixes[k] == Nth(items, n - 1, k)
    ensures |Extend(items, suffixes)| == Pow(|items|, n)
    ensures forall k :: 0 <= k < |Extend(items, suffixes)| ==> Extend(items, suffixes)[k] == Nth(items, n, k)
  {
    ExtendLength(items, suffixes);
    forall k | 0 <= k < |Extend(items, suffixes)|
      ensures Extend(items, suffixes)[k] == Nth(items, n, k)
    {
      var q, r := NthUnfold(items, n, k);
      ExtendAt(items, suffixes, q, r);
    }
  }

  /** Every enumerated code has length n and is drawn from items. */
  lemma {:induction false} NthShape(items: seq<Symbol>, n: nat, k: nat)
    requires k < Pow(|items|, n)
    ensures |Nth(items, n, k)| == n
    ensures forall j :: 0 <= j < n ==> Nth(items, n, k)[j] in items
  {
    if n > 0 {
      var p := Pow(|items|, n - 1);
      DivBelow(k, p, |items|);
      NthShape(items, n - 1, k % p);
    }
  }

  function IndexOf(items: seq<Symbol>, x: Symbol): (i: nat)
    requires x in items
    ensures i < |items| && items[i] == x
  {
    if items[0] == x then 0 else 1 + IndexOf(items[1..], x)
  }

  /** Every code over items has a place in the enumeration. */
  lemma {:induction false} NthComplete(items: seq<Symbol>, x: Code) returns (k: nat)
    requires forall j :: 0 <= j < |x| ==> x[j] in items
    ensures k < Pow(|items|, |x|) && Nth(items, |x|, k) == x
  {
    if x == [] {
      k := 0;
    } else {
      var n := |x|;
      var p := Pow(|items|, n - 1);
      var rest := NthComplete(items, x[1..]);
      var i := IndexOf(items, x[0]);
      k := i * p + rest;
      MulMonotone(i + 1, |items|, p);
      MulSucc(i, p);
      assert Pow(|items|, n) == |items| * p;
      DivModUnique(k, p, i, rest);
      assert Nth(items, n, k) == [items[i]] + Nth(items, n - 1, rest);
      assert x == [x[0]] + x[1..];
    }
  }

  /** One step of the enumeration, with the digit split made explicit. */
  lemma NthUnfold(items: seq<Symbol>, n: nat, k: nat) returns (q: nat, r: nat)
    requires n > 0 && k < Pow(|items|, n)
    ensures q < |items| && r < Pow(|items|, n - 1)
    ensures k == q * Pow(|items|, n - 1) + r
    ensures Nth(items, n, k) == [items[q]] + Nth(items, n - 1, r)
  {
    var p := Pow(|items|, n - 1);
    DivBelow(k, p, |items|);
    q, r := k / p, k % p;
    DivModSplit(k, p);
  }

  /** Over distinct symbols the enumeration has no repeats. */
  lemma {:induction false} NthInjective(items: seq<Symbol>, n: nat, k1: nat, k2: nat)
    requires Distinct(items)
    requires k1 < Pow(|items|, n) && k2 < Pow(|items|, n)
    requires Nth(items, n, k1) == Nth(items, n, k2)
    ensures k1 == k2
  {
    if n > 0 {
      var q1, r1 := NthUnfold(items, n, k1);
      var q2, r2 := NthUnfold(items, n, k2);
      assert items[q1] == Nth(items, n, k1)[0] == items[q2];
      assert Nth(items, n - 1, r1) == Nth(items, n, k1)[1..] == Nth(items, n - 1, r2);
      NthInjective(items, n - 1, r1, r2);
    }
  }
}
