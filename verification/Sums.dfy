/** Sums over sequences, by an arbitrary measure. */
module Sums {
  function SumBy<T>(s: seq<T>, g: T -> nat): (r: nat) {
    if s == [] then 0 else SumBy(s[..|s| - 1], g) + g(s[|s| - 1])
  }

  lemma {:induction false} SumSplits<T>(s: seq<T>, g: T -> nat, k: nat)
    requires k <= |s|
    ensures SumBy(s, g) == SumBy(s[..k], g) + SumBy(s[k..], g)
    decreases |s|
  {
    if k == |s| {
      assert s[..k] == s;
    } else {
      var n := |s| - 1;
      SumSplits(s[..n], g, k);
      assert s[..n][..k] == s[..k];
      assert s[k..][..n - k] == s[..n][k..];
    }
  }

  lemma SumWithout<T>(s: seq<T>, g: T -> nat, k: nat)
    requires k < |s|
    ensures SumBy(s, g) == SumBy(s[..k] + s[k + 1..], g) + g(s[k])
  {
    SumSplits(s, g, k);
    SumSplits(s[k..], g, 1);
    assert s[k..][..1] == [s[k]] && s[k..][1..] == s[k + 1..];
    assert SumBy([s[k]], g) == g(s[k]) by {
      assert [s[k]][..0] == [];
    }
    SumSplits(s[..k] + s[k + 1..], g, k);
    assert (s[..k] + s[k + 1..])[..k] == s[..k] && (s[..k] + s[k + 1..])[k..] == s[k + 1..];
  }

  /** A sum does not depend on the order. */
  lemma {:induction false} SumIgnoresOrder<T>(s: seq<T>, t: seq<T>, g: T -> nat)
    requires multiset(s) == multiset(t)
    ensures SumBy(s, g) == SumBy(t, g)
    decreases |s|
  {
    if s == [] {
      assert |multiset(t)| == 0;
    } else {
      var n := |s| - 1;
      var x := s[n];
      assert s == s[..n] + [x];
      assert x in multiset(t);
      var k :| 0 <= k < |t| && t[k] == x;
      assert t == t[..k] + [x] + t[k + 1..];
      assert multiset(s[..n]) == multiset(s) - multiset{x};
      assert multiset(t[..k] + t[k + 1..]) == multiset(t) - multiset{x};
      SumIgnoresOrder(s[..n], t[..k] + t[k + 1..], g);
      SumWithout(t, g, k);
    }
  }

  lemma {:induction false} SumMonotone<T>(s: seq<T>, g: T -> nat, h: T -> nat)
    requires forall x :: x in s ==> g(x) <= h(x)
    ensures SumBy(s, g) <= SumBy(s, h)
    decreases |s|
  {
    if s != [] {
      assert s[|s| - 1] in s;
      SumMonotone(s[..|s| - 1], g, h);
    }
  }

  lemma PrefixSum<T>(s: seq<T>, g: T -> nat, k: nat)
    requires k < |s|
    ensures SumBy(s[..k + 1], g) == SumBy(s[..k], g) + g(s[k])
    ensures SumBy(s[..k + 1], g) <= SumBy(s, g)
    ensures s[..k + 1] == s[..k] + [s[k]]
  {
    assert s[..k + 1][..k] == s[..k];
    SumSplits(s, g, k + 1);
  }

  lemma {:induction false} CountBound<T>(s: seq<T>, g: T -> nat)
    requires forall x :: x in s ==> g(x) <= 1
    ensures SumBy(s, g) <= |s|
    decreases |s|
  {
    if s != [] {
      assert s[|s| - 1] in s;
      CountBound(s[..|s| - 1], g);
    }
  }

  lemma {:induction false} SumSame<T>(s: seq<T>, g: T -> nat, h: T -> nat)
    requires forall x :: x in s ==> g(x) == h(x)
    ensures SumBy(s, g) == SumBy(s, h)
  {
    SumMonotone(s, g, h);
    SumMonotone(s, h, g);
  }
}
