/** `itertools.combinations` and `math.comb`, as the combination matchers use them. */
module Combinations {

  /** `math.comb(k, n)`: the number of n-element subsets of a k-element set (0 when n > k). */
  function Binomial(k: nat, n: nat): nat
  {
    if n == 0 then 1
    else if k < n then 0
    else Binomial(k - 1, n - 1) + Binomial(k - 1, n)
  }

  /** Puts `x` in front of every sequence of `cs`, keeping their order. */
  function Prefixed<T>(x: T, cs: seq<seq<T>>): (r: seq<seq<T>>)
    ensures |r| == |cs|
    ensures forall i :: 0 <= i < |r| ==> r[i] == [x] + cs[i]
  {
    seq(|cs|, i requires 0 <= i < |cs| => [x] + cs[i])
  }

  /** `list(itertools.combinations(s, n))`: every choice of `n` positions of `s`,
      in increasing position order, listed in lexicographic order of positions. */
  function Combos<T>(s: seq<T>, n: nat): seq<seq<T>>
    decreases |s|
  {
    if n == 0 then [[]]
    else if |s| < n then []
    else Prefixed(s[0], Combos(s[1..], n - 1)) + Combos(s[1..], n)
  }

  /** `c` is obtained from `s` by deleting elements, keeping the order of the rest. */
  predicate Subsequence<T(==)>(c: seq<T>, s: seq<T>)
    decreases |s|
  {
    if c == [] then true
    else if s == [] then false
    else (c[0] == s[0] && Subsequence(c[1..], s[1..])) || Subsequence(c, s[1..])
  }

  /** The enumeration has exactly `math.comb(len(s), n)` entries: the estimate the
      combination matcher computes is the true count. */
  lemma {:induction false} CombosCount<T>(s: seq<T>, n: nat)
    ensures |Combos(s, n)| == Binomial(|s|, n)
    decreases |s|
  {
    if n != 0 && |s| >= n {
      CombosCount(s[1..], n - 1);
      CombosCount(s[1..], n);
    }
  }

  /** Every enumerated combination has `n` elements and picks them from `s` in order. */
  lemma {:induction false} CombosShape<T>(s: seq<T>, n: nat, i: nat)
    requires i < |Combos(s, n)|
    ensures |Combos(s, n)[i]| == n
    ensures Subsequence(Combos(s, n)[i], s)
    decreases |s|
  {
    var cs := Combos(s, n);
    if n == 0 {
      assert cs[i] == [];
    } else {
      var head := Prefixed(s[0], Combos(s[1..], n - 1));
      if i < |head| {
        CombosShape(s[1..], n - 1, i);
        assert cs[i] == [s[0]] + Combos(s[1..], n - 1)[i];
        assert cs[i][1..] == Combos(s[1..], n - 1)[i];
      } else {
        CombosShape(s[1..], n, i - |head|);
        assert cs[i] == Combos(s[1..], n)[i - |head|];
        SubsequenceDrop(cs[i], s);
      }
    }
  }

  /** A subsequence of `s[1..]` is a subsequence of `s`. */
  lemma SubsequenceDrop<T>(c: seq<T>, s: seq<T>)
    requires s != [] && Subsequence(c, s[1..])
    ensures Subsequence(c, s)
  {
  }

  /** A subsequence takes no element more often than `s` has it. */
  lemma {:induction false} SubsequenceMultiset<T>(c: seq<T>, s: seq<T>)
    requires Subsequence(c, s)
    ensures multiset(c) <= multiset(s)
    decreases |s|
  {
    if c != [] {
      assert s == [s[0]] + s[1..];
      if c[0] == s[0] && Subsequence(c[1..], s[1..]) {
        SubsequenceMultiset(c[1..], s[1..]);
        assert c == [c[0]] + c[1..];
      } else {
        SubsequenceMultiset(c, s[1..]);
      }
    }
  }

  /** Every element of a combination is an element of `s`. */
  lemma CombosMembers<T>(s: seq<T>, n: nat, i: nat)
    requires i < |Combos(s, n)|
    ensures |Combos(s, n)[i]| == n
    ensures multiset(Combos(s, n)[i]) <= multiset(s)
    ensures forall x :: x in Combos(s, n)[i] ==> x in s
  {
    CombosShape(s, n, i);
    SubsequenceMultiset(Combos(s, n)[i], s);
    forall x | x in Combos(s, n)[i] ensures x in s {
      assert x in multiset(Combos(s, n)[i]);
    }
  }

  /** C(k, 1) = k. */
  lemma {:induction false} BinomialOne(k: nat)
    ensures Binomial(k, 1) == k
  {
    if k != 0 {
      BinomialOne(k - 1);
    }
  }

  /** C(k, 2) = k(k-1)/2. */
  lemma {:induction false} BinomialTwo(k: nat)
    ensures 2 * Binomial(k, 2) == k * (k - 1)
  {
    if k >= 2 {
      var m := k - 1;
      BinomialOne(m);
      BinomialTwo(m);
      var p := m * (m - 1);
      assert p + 2 * m == k * (k - 1);
    }
  }

  /** Pascal's rule for the closed form of C(k, 3): 3(k-1)(k-2) + (k-1)(k-2)(k-3) = k(k-1)(k-2). */
  lemma PascalThree(k: int)
    ensures 3 * ((k - 1) * (k - 2)) + (k - 1) * (k - 2) * (k - 3) == k * (k - 1) * (k - 2)
  {
    var p := (k - 1) * (k - 2);
    assert (k - 1) * (k - 2) * (k - 3) == p * (k - 3);
    assert k * (k - 1) * (k - 2) == p * k;
  }

  /** Pascal's rule for the closed form of C(k, 4). */
  lemma PascalFour(k: int)
    ensures 4 * ((k - 1) * (k - 2) * (k - 3)) + (k - 1) * (k - 2) * (k - 3) * (k - 4) == k * (k - 1) * (k - 2) * (k - 3)
  {
    var p := (k - 1) * (k - 2) * (k - 3);
    assert (k - 1) * (k - 2) * (k - 3) * (k - 4) == p * (k - 4);
    assert k * (k - 1) * (k - 2) * (k - 3) == p * k;
  }

  /** C(k, 3) = k(k-1)(k-2)/6. */
  lemma {:induction false} BinomialThree(k: nat)
    ensures 6 * Binomial(k, 3) == k * (k - 1) * (k - 2)
  {
    if k >= 3 {
      BinomialTwo(k - 1);
      BinomialThree(k - 1);
      PascalThree(k);
    }
  }

  /** C(k, 4) = k(k-1)(k-2)(k-3)/24. */
  lemma {:induction false} BinomialFour(k: nat)
    ensures 24 * Binomial(k, 4) == k * (k - 1) * (k - 2) * (k - 3)
  {
    if k >= 4 {
      BinomialThree(k - 1);
      BinomialFour(k - 1);
      PascalFour(k);
    }
  }

  /** Products of non-negative factors grow with their factors. */
  lemma MulMonotone(a: int, b: int, c: int, d: int)
    requires 0 <= a <= c && 0 <= b <= d
    ensures a * b <= c * d
  {
    assert a * b <= c * b;
  }

  /** C(k, 2) <= C(15, 2) = 105 for k <= 15. */
  lemma PairsAtMost105(k: nat)
    requires k <= 15
    ensures Binomial(k, 2) <= 105
  {
    if k >= 2 {
      BinomialTwo(k);
      MulMonotone(k, k - 1, 15, 14);
    }
  }

  /** C(k, 3) <= C(15, 3) = 455 for k <= 15. */
  lemma TriplesAtMost455(k: nat)
    requires k <= 15
    ensures Binomial(k, 3) <= 455
  {
    if k >= 3 {
      BinomialThree(k);
      var a := k * (k - 1);
      MulMonotone(k, k - 1, 15, 14);
      MulMonotone(a, k - 2, 210, 13);
      assert 6 * Binomial(k, 3) == a * (k - 2) <= 2730;
    }
  }

  /** C(k, 4) <= C(15, 4) = 1365 for k <= 15. */
  lemma QuadruplesAtMost1365(k: nat)
    requires k <= 15
    ensures Binomial(k, 4) <= 1365
  {
    if k >= 4 {
      BinomialFour(k);
      var a := k * (k - 1);
      MulMonotone(k, k - 1, 15, 14);
      var b := a * (k - 2);
      MulMonotone(a, k - 2, 210, 13);
      MulMonotone(b, k - 3, 2730, 12);
      assert 24 * Binomial(k, 4) == b * (k - 3) <= 32760;
    }
  }

  /** `math.comb(k, n)` for at most 15 candidates and sizes 2 to 4 is at most
      C(15, 4) = 1365, so the `> 10000` estimate never skips a size. */
  lemma EstimateAtMost1365(k: nat, n: nat)
    requires k <= 15 && 2 <= n <= 4
    ensures Binomial(k, n) <= 1365
  {
    if n == 2 {
      PairsAtMost105(k);
    } else if n == 3 {
      TriplesAtMost455(k);
    } else {
      QuadruplesAtMost1365(k);
    }
  }
}
