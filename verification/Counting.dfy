/** Sums over a sequence, for counting goroutines by what they are doing. */
module Counting {

  function Sum<T>(s: seq<T>, f: T -> nat): nat {
    if s == [] then 0 else f(s[0]) + Sum(s[1..], f)
  }

  /** Changing one element changes the sum by what it weighs. */
  lemma {:induction false} SumUpdate<T>(s: seq<T>, f: T -> nat, k: nat, v: T)
    requires k < |s|
    ensures Sum(s[k := v], f) == Sum(s, f) - f(s[k]) + f(v)
  {
    if k == 0 {
      assert s[k := v][1..] == s[1..];
    } else {
      assert s[k := v][1..] == s[1..][k - 1 := v];
      SumUpdate(s[1..], f, k - 1, v);
    }
  }

  lemma {:induction false} SumAtLeast<T>(s: seq<T>, f: T -> nat, k: nat)
    requires k < |s|
    ensures f(s[k]) <= Sum(s, f)
  {
    if k > 0 { SumAtLeast(s[1..], f, k - 1); }
  }

  lemma {:induction false} SumZero<T>(s: seq<T>, f: T -> nat)
    requires forall k | 0 <= k < |s| :: f(s[k]) == 0
    ensures Sum(s, f) == 0
  {
    if s != [] { SumZero(s[1..], f); }
  }

  /** A positive sum has a positive element. */
  lemma {:induction false} SumPositive<T>(s: seq<T>, f: T -> nat) returns (k: nat)
    requires Sum(s, f) > 0
    ensures k < |s| && f(s[k]) > 0
  {
    if f(s[0]) > 0 {
      k := 0;
    } else {
      k := SumPositive(s[1..], f);
      k := k + 1;
    }
  }

  /** Element by element at most `c` times as much, so in all at most `c` times as much. */
  lemma {:induction false} SumBounded<S, T>(s: seq<S>, f: S -> nat, t: seq<T>, g: T -> nat, c: nat)
    requires |s| == |t| && forall k | 0 <= k < |s| :: f(s[k]) <= c * g(t[k])
    ensures Sum(s, f) <= c * Sum(t, g)
  {
    if s != [] {
      forall k | 0 <= k < |s[1..]| ensures f(s[1..][k]) <= c * g(t[1..][k]) {
        assert s[1..][k] == s[k + 1] && t[1..][k] == t[k + 1];
      }
      SumBounded(s[1..], f, t[1..], g, c);
      assert c * (g(t[0]) + Sum(t[1..], g)) == c * g(t[0]) + c * Sum(t[1..], g);
    }
  }

  /** One element alone weighs anything. */
  lemma {:induction false} SumSingle<T>(s: seq<T>, f: T -> nat, k: nat)
    requires k < |s| && forall j | 0 <= j < |s| && j != k :: f(s[j]) == 0
    ensures Sum(s, f) == f(s[k])
  {
    if k == 0 {
      SumZero(s[1..], f);
    } else {
      SumSingle(s[1..], f, k - 1);
    }
  }

  lemma {:induction false} SumSame<S, T>(s: seq<S>, f: S -> nat, t: seq<T>, g: T -> nat)
    requires |s| == |t| && forall k | 0 <= k < |s| :: f(s[k]) == g(t[k])
    ensures Sum(s, f) == Sum(t, g)
  {
    if s != [] {
      forall k | 0 <= k < |s[1..]| ensures f(s[1..][k]) == g(t[1..][k]) {
        assert s[1..][k] == s[k + 1] && t[1..][k] == t[k + 1];
      }
      SumSame(s[1..], f, t[1..], g);
    }
  }

  lemma {:induction false} SumAppend<T>(s: seq<T>, f: T -> nat, v: T)
    ensures Sum(s + [v], f) == Sum(s, f) + f(v)
  {
    if s == [] {
      assert [] + [v] == [v] && [v][1..] == [];
    } else {
      assert (s + [v])[1..] == s[1..] + [v];
      SumAppend(s[1..], f, v);
    }
  }
}
