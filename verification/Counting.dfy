/** Weighted counts over the program counters of a fixed but arbitrary number
    of threads.  A protocol invariant such as "exactly one thread holds the
    gate" is a sum of 0/1 weights; a step changes one program counter, so all
    the sums change by the difference of two weights. */
module Counting {

  function Sum<T>(s: seq<T>, f: T -> int): int {
    if s == [] then 0 else Sum(s[..|s| - 1], f) + f(s[|s| - 1])
  }

  function BoolToInt(b: bool): int {
    if b then 1 else 0
  }

  ghost predicate NonNegative<T(!new)>(f: T -> int) {
    forall x :: f(x) >= 0
  }

  /** Replacing one element moves the sum by the difference of its weights. */
  lemma {:induction false} SumUpdate<T>(s: seq<T>, i: nat, x: T, f: T -> int)
    requires i < |s|
    ensures Sum(s[i := x], f) == Sum(s, f) - f(s[i]) + f(x)
  {
    var n := |s| - 1;
    if i == n {
      assert s[i := x][..n] == s[..n];
    } else {
      assert s[i := x][..n] == s[..n][i := x];
      SumUpdate(s[..n], i, x, f);
    }
  }

  /** Every weight is at most the whole sum. */
  lemma {:induction false} SumAtLeast<T(!new)>(s: seq<T>, i: nat, f: T -> int)
    requires i < |s| && NonNegative(f)
    ensures 0 <= f(s[i]) <= Sum(s, f)
  {
    var n := |s| - 1;
    SumNonNegative(s[..n], f);
    if i < n {
      SumAtLeast(s[..n], i, f);
    }
  }

  lemma {:induction false} SumNonNegative<T(!new)>(s: seq<T>, f: T -> int)
    requires NonNegative(f)
    ensures Sum(s, f) >= 0
  {
    if s != [] {
      SumNonNegative(s[..|s| - 1], f);
    }
  }

  /** Two different threads contribute both their weights. */
  lemma {:induction false} SumPair<T(!new)>(s: seq<T>, i: nat, j: nat, f: T -> int)
    requires i < |s| && j < |s| && i != j && NonNegative(f)
    ensures f(s[i]) + f(s[j]) <= Sum(s, f)
  {
    var n := |s| - 1;
    if i == n {
      SumAtLeast(s[..n], j, f);
    } else if j == n {
      SumAtLeast(s[..n], i, f);
    } else {
      SumPair(s[..n], i, j, f);
    }
  }

  /** A positive sum has a positive contributor. */
  lemma {:induction false} SumWitness<T(!new)>(s: seq<T>, f: T -> int) returns (i: nat)
    requires Sum(s, f) > 0
    ensures i < |s| && f(s[i]) > 0
  {
    var n := |s| - 1;
    if f(s[n]) > 0 {
      i := n;
    } else {
      i := SumWitness(s[..n], f);
    }
  }

  /** Weights bounded by one sum to at most the number of threads. */
  lemma {:induction false} SumAtMost<T(!new)>(s: seq<T>, f: T -> int)
    requires forall x :: f(x) <= 1
    ensures Sum(s, f) <= |s|
  {
    if s != [] {
      SumAtMost(s[..|s| - 1], f);
    }
  }

  /** Weights that vanish everywhere sum to zero. */
  lemma {:induction false} SumZero<T>(s: seq<T>, f: T -> int)
    requires forall i :: 0 <= i < |s| ==> f(s[i]) == 0
    ensures Sum(s, f) == 0
  {
    if s != [] {
      SumZero(s[..|s| - 1], f);
    }
  }

  /** Threads that all stand at a weightless point sum to zero. */
  lemma SumAllAt<T>(s: seq<T>, x: T, f: T -> int)
    requires f(x) == 0 && forall i :: 0 <= i < |s| ==> s[i] == x
    ensures Sum(s, f) == 0
  {
    SumZero(s, f);
  }
}
