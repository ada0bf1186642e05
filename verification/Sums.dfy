/** Sums over the goroutines (or chunks) of a concurrent state, one weight per element. */
module Sums {

  /** The sum of `f` over the elements of `s`. */
  function SumOf<T>(f: T -> int, s: seq<T>): int {
    if s == [] then 0 else f(s[0]) + SumOf(f, s[1..])
  }

  /** One goroutine moving changes the sum by exactly its own change of weight. */
  lemma {:induction false} SumOfUpdate<T>(f: T -> int, s: seq<T>, i: nat, v: T)
    requires i < |s|
    ensures SumOf(f, s[i := v]) == SumOf(f, s) - f(s[i]) + f(v)
  {
    if i == 0 {
      assert s[i := v][1..] == s[1..];
    } else {
      assert s[i := v][1..] == s[1..][i - 1 := v];
      SumOfUpdate(f, s[1..], i - 1, v);
    }
  }

  /** Weights that agree element by element have the same sum. */
  lemma {:induction false} SumOfCongruent<T>(f: T -> int, g: T -> int, s: seq<T>)
    requires forall i :: 0 <= i < |s| ==> f(s[i]) == g(s[i])
    ensures SumOf(f, s) == SumOf(g, s)
  {
    if s == [] {
    } else {
      assert f(s[0]) == g(s[0]);
      forall i | 0 <= i < |s[1..]| ensures f(s[1..][i]) == g(s[1..][i]) {
        assert s[1..][i] == s[i + 1];
      }
      SumOfCongruent(f, g, s[1..]);
    }
  }

  /** A sum of non-negative weights is at least any one of them, and zero only when all of them are. */
  lemma {:induction false} SumOfNonNegative<T>(f: T -> int, s: seq<T>)
    requires forall i :: 0 <= i < |s| ==> f(s[i]) >= 0
    ensures SumOf(f, s) >= 0
    ensures forall i :: 0 <= i < |s| ==> f(s[i]) <= SumOf(f, s)
    ensures SumOf(f, s) == 0 <==> forall i :: 0 <= i < |s| ==> f(s[i]) == 0
  {
    if s == [] {
    } else {
      assert f(s[0]) >= 0;
      forall i | 0 <= i < |s[1..]| ensures f(s[1..][i]) >= 0 {
        assert s[1..][i] == s[i + 1];
      }
      SumOfNonNegative(f, s[1..]);
      assert s == [s[0]] + s[1..];
    }
  }

  lemma {:induction false} SumOfMonotone<T>(f: T -> int, g: T -> int, s: seq<T>)
    requires forall i :: 0 <= i < |s| ==> f(s[i]) <= g(s[i])
    ensures SumOf(f, s) <= SumOf(g, s)
  {
    if s == [] {
    } else {
      assert f(s[0]) <= g(s[0]);
      forall i | 0 <= i < |s[1..]| ensures f(s[1..][i]) <= g(s[1..][i]) {
        assert s[1..][i] == s[i + 1];
      }
      SumOfMonotone(f, g, s[1..]);
    }
  }
}
