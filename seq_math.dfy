/** Sums, counts and dot products over integer sequences, defined from the back so that
    appending one element unfolds one step. */
module SeqMath {

  function Max(a: int, b: int): int { if a < b then b else a }

  function Sum(s: seq<int>): int
  {
    if |s| == 0 then 0 else Sum(s[..|s| - 1]) + s[|s| - 1]
  }

  /** Number of occurrences of `x` in `s`. */
  function Count(s: seq<int>, x: int): nat
  {
    if |s| == 0 then 0 else Count(s[..|s| - 1], x) + (if s[|s| - 1] == x then 1 else 0)
  }

  /** Sum of the pairwise products of two sequences of the same length. */
  function ScalProd(a: seq<int>, b: seq<int>): int
    requires |a| == |b|
  {
    if |a| == 0 then 0 else ScalProd(a[..|a| - 1], b[..|b| - 1]) + a[|a| - 1] * b[|b| - 1]
  }

  predicate Distinct(s: seq<int>)
  {
    forall a, b :: 0 <= a < b < |s| ==> s[a] != s[b]
  }

  /** The integers 0, 1, ..., n - 1. */
  function Below(n: nat): set<int>
  {
    if n == 0 then {} else Below(n - 1) + {n - 1}
  }

  lemma {:induction false} BelowFacts(n: nat)
    ensures |Below(n)| == n
    ensures forall x :: x in Below(n) <==> 0 <= x < n
  {
    if n > 0 {
      BelowFacts(n - 1);
    }
  }

  /** A set of nodes below n has at most n members. */
  lemma SubsetOfRangeCard(s: set<int>, n: nat)
    requires forall x :: x in s ==> 0 <= x < n
    ensures |s| <= n
  {
    BelowFacts(n);
    forall x | x in s ensures x in Below(n) { }
    SubsetCard(s, Below(n));
  }

  lemma SubsetCard(a: set<int>, b: set<int>)
    requires a <= b
    ensures |a| <= |b|
  {
    assert b == a + (b - a);
  }

  /** A subset with as many members as its superset is the superset. */
  lemma SubsetSameCard(a: set<int>, b: set<int>)
    requires a <= b && |a| == |b|
    ensures a == b
  {
    assert b == a + (b - a);
    assert |b - a| == 0;
  }

  lemma {:induction false} CountStep(s: seq<int>, k: nat, x: int)
    requires k < |s|
    ensures Count(s[..k + 1], x) == Count(s[..k], x) + (if s[k] == x then 1 else 0)
  {
    assert s[..k + 1][..k] == s[..k];
  }

  lemma {:induction false} CountPrefix(s: seq<int>, k: nat, x: int)
    requires k <= |s|
    ensures Count(s[..k], x) <= Count(s, x)
    decreases |s| - k
  {
    if k < |s| {
      CountStep(s, k, x);
      CountPrefix(s, k + 1, x);
    } else {
      assert s[..k] == s;
    }
  }

  /** x occurs in s exactly when it is counted at least once. */
  lemma {:induction false} CountZero(s: seq<int>, x: int)
    ensures Count(s, x) == 0 <==> x !in s
  {
    if |s| > 0 {
      var t := s[..|s| - 1];
      CountZero(t, x);
      assert s == t + [s[|s| - 1]];
    }
  }

  lemma {:induction false} SumStep(s: seq<int>, k: nat)
    requires k < |s|
    ensures Sum(s[..k + 1]) == Sum(s[..k]) + s[k]
  {
    assert s[..k + 1][..k] == s[..k];
  }

  lemma {:induction false} SumAppend(s: seq<int>, x: int)
    ensures Sum(s + [x]) == Sum(s) + x
  {
    assert (s + [x])[..|s|] == s;
  }

  /** The sum of a concatenation is the sum of the sums. */
  lemma {:induction false} SumConcat(a: seq<int>, b: seq<int>)
    ensures Sum(a + b) == Sum(a) + Sum(b)
    decreases |b|
  {
    if |b| > 0 {
      var c := a + b;
      assert c[..|c| - 1] == a + b[..|b| - 1];
      assert c[|c| - 1] == b[|b| - 1];
      SumConcat(a, b[..|b| - 1]);
    } else {
      assert a + b == a;
    }
  }

  lemma {:induction false} CountAppend(s: seq<int>, y: int, x: int)
    ensures Count(s + [y], x) == Count(s, x) + (if y == x then 1 else 0)
  {
    assert (s + [y])[..|s|] == s;
  }

  /** The rows of a table one after the other. */
  function Flatten(rows: seq<seq<int>>): seq<int>
  {
    if |rows| == 0 then [] else Flatten(rows[..|rows| - 1]) + rows[|rows| - 1]
  }

  /** In a table whose rows all have `w` cells, cell `q` of row `p` sits at `p*w + q`. */
  lemma {:induction false} FlattenIndex(rows: seq<seq<int>>, w: nat, p: int, q: int)
    requires forall r :: 0 <= r < |rows| ==> |rows[r]| == w
    requires 0 <= p < |rows| && 0 <= q < w
    ensures |Flatten(rows)| == |rows| * w
    ensures p * w + q < |Flatten(rows)| && Flatten(rows)[p * w + q] == rows[p][q]
  {
    var init := rows[..|rows| - 1];
    FlattenLength(init, w);
    if p < |rows| - 1 {
      FlattenIndex(init, w, p, q);
      assert p * w + q < |init| * w;
    } else {
      assert p * w == |Flatten(init)|;
    }
  }

  lemma {:induction false} FlattenLength(rows: seq<seq<int>>, w: nat)
    requires forall r :: 0 <= r < |rows| ==> |rows[r]| == w
    ensures |Flatten(rows)| == |rows| * w
  {
    if |rows| > 0 {
      FlattenLength(rows[..|rows| - 1], w);
    }
  }

  /** A concatenation is duplicate-free exactly when both parts are and they share nothing. */
  lemma DistinctAppend(a: seq<int>, b: seq<int>)
    ensures Distinct(a + b) <==> Distinct(a) && Distinct(b) && forall x :: x in a ==> x !in b
  {
    var c := a + b;
    if Distinct(a) && Distinct(b) && forall x :: x in a ==> x !in b {
      forall s, t | 0 <= s < t < |c|
        ensures c[s] != c[t]
      {
        if s < |a| && t >= |a| {
          assert c[s] in a && c[t] == b[t - |a|];
        } else if s >= |a| {
          assert c[s] == b[s - |a|] && c[t] == b[t - |a|];
        }
      }
    }
    if Distinct(c) {
      forall s, t | 0 <= s < t < |a|
        ensures a[s] != a[t]
      {
        assert a[s] == c[s] && a[t] == c[t];
      }
      forall s, t | 0 <= s < t < |b|
        ensures b[s] != b[t]
      {
        assert b[s] == c[|a| + s] && b[t] == c[|a| + t];
      }
      forall x | x in a
        ensures x !in b
      {
        var s :| 0 <= s < |a| && a[s] == x;
        forall t | 0 <= t < |b|
          ensures b[t] != x
        {
          assert c[s] != c[|a| + t];
        }
      }
    }
  }
}
