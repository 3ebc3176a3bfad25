/**
 Package-merge (Larmore and Hirschberg), the mathematics behind `mkprecode`.

 List 0 holds the m leaf weights in order; list j merges the leaves with the sums of
 consecutive pairs of list j-1, taking a leaf on ties.  The first 2m-2 items of list L-1
 determine an optimal code with lengths at most L.  The lists are given by position, because
 `nextchain` generates them lazily: A(w, j, k) counts the leaves among the first k items
 and W(w, j, k) is the weight of item k.
 */
module PackageMerge {
  import opened Bits

  ghost predicate Sorted(w: seq<nat>)
  {
    && |w| >= 2
    && (forall i :: 0 <= i < |w| ==> w[i] > 0)
    && (forall i, k :: 0 <= i <= k < |w| ==> w[i] <= w[k])
  }

  /** Number of items in list j. */
  function N(m: nat, j: nat): nat
  {
    if j == 0 then m else m + N(m, j - 1) / 2
  }

  function A(w: seq<nat>, j: nat, k: nat): (a: nat)
    ensures a <= k
    decreases j, 1, k
  {
    if k == 0 then 0
    else
      var a := A(w, j, k - 1);
      if Package(w, j, a, k - 1 - a) then a else a + 1
  }

  function W(w: seq<nat>, j: nat, k: nat): nat
    decreases j, 2, k
  {
    var a := A(w, j, k);
    if Package(w, j, a, k - a) then PW(w, j, k - a)
    else if a < |w| then w[a]
    else 0
  }

  /** With a leaves and q packages taken, the next item of list j is a package. */
  predicate Package(w: seq<nat>, j: nat, a: nat, q: nat)
    decreases j, 0, 1
  {
    HasPackage(|w|, j, q) && (a >= |w| || w[a] > PW(w, j, q))
  }

  predicate HasPackage(m: nat, j: nat, q: nat)
  {
    j > 0 && 2 * q + 1 < N(m, j - 1)
  }

  /** Weight of package q of list j. */
  function PW(w: seq<nat>, j: nat, q: nat): nat
    requires j > 0
    decreases j, 0, 0
  {
    W(w, j - 1, 2 * q) + W(w, j - 1, 2 * q + 1)
  }

  /** Packages among the first k items. */
  function Q(w: seq<nat>, j: nat, k: nat): nat
  {
    k - A(w, j, k)
  }

  /** Total weight of the a lightest leaves. */
  function Leaves(w: seq<nat>, a: nat): nat
    requires a <= |w|
  {
    if a == 0 then 0 else Leaves(w, a - 1) + w[a - 1]
  }

  /** Total weight of the first k items of list j. */
  function Prefix(w: seq<nat>, j: nat, k: nat): nat
  {
    if k == 0 then 0 else Prefix(w, j, k - 1) + W(w, j, k - 1)
  }

  // ----- the lists are well formed

  lemma {:induction false} Counts(w: seq<nat>, j: nat, k: nat)
    requires k <= N(|w|, j)
    ensures A(w, j, k) <= |w|
    ensures 2 * Q(w, j, k) <= if j == 0 then 0 else N(|w|, j - 1)
    ensures k < N(|w|, j) && !Package(w, j, A(w, j, k), Q(w, j, k)) ==> A(w, j, k) < |w|
    decreases k
  {
    if k > 0 {
      Counts(w, j, k - 1);
    }
  }

  lemma NBound(m: nat, j: nat)
    requires m >= 1
    ensures m <= N(m, j) <= 2 * m - 1
  {
  }

  lemma {:induction false} Positive(w: seq<nat>, j: nat, k: nat)
    requires Sorted(w) && k < N(|w|, j)
    ensures W(w, j, k) > 0
    decreases j
  {
    Counts(w, j, k);
    if Package(w, j, A(w, j, k), Q(w, j, k)) {
      Positive(w, j - 1, 2 * Q(w, j, k));
    }
  }

  /** Where the merge stands: the next package does not undercut the last leaf taken, nor the reverse. */
  ghost predicate Frontier(w: seq<nat>, j: nat, a: nat, q: nat)
    requires a <= |w|
  {
    && (a > 0 && HasPackage(|w|, j, q) ==> w[a - 1] <= PW(w, j, q))
    && (q > 0 && a < |w| && j > 0 ==> PW(w, j, q - 1) < w[a])
  }

  lemma {:induction false} ListSorted(w: seq<nat>, j: nat, k: nat)
    requires Sorted(w) && k <= N(|w|, j)
    ensures A(w, j, k) <= |w| && Frontier(w, j, A(w, j, k), Q(w, j, k))
    ensures 0 < k < N(|w|, j) ==> W(w, j, k - 1) <= W(w, j, k)
    decreases j, k
  {
    hide PW, N;
    Counts(w, j, k);
    if k > 0 {
      ListSorted(w, j, k - 1);
      Counts(w, j, k - 1);
      var a, q := A(w, j, k - 1), Q(w, j, k - 1);
      if Package(w, j, a, q) {
        if HasPackage(|w|, j, q + 1) {
          PackagesSorted(w, j, q);
        }
      } else {
        assert A(w, j, k) == a + 1 && Q(w, j, k) == q;
      }
    }
  }

  lemma PackagesSorted(w: seq<nat>, j: nat, q: nat)
    requires Sorted(w) && HasPackage(|w|, j, q + 1)
    ensures PW(w, j, q) <= PW(w, j, q + 1)
    decreases j, 0
  {
    hide W, A, N, Frontier;
    ListSorted(w, j - 1, 2 * q + 1);
    ListSorted(w, j - 1, 2 * q + 2);
    ListSorted(w, j - 1, 2 * q + 3);
  }

  // ----- a prefix of a list is the cheapest choice of its size

  /** Total weight of the first q packages of list j, or nothing for list 0. */
  function Below(w: seq<nat>, j: nat, q: nat): nat
  {
    if j == 0 then 0 else Prefix(w, j - 1, 2 * q)
  }

  lemma {:induction false} PrefixSplit(w: seq<nat>, j: nat, k: nat)
    requires Sorted(w) && k <= N(|w|, j)
    ensures A(w, j, k) <= |w| && Prefix(w, j, k) == Leaves(w, A(w, j, k)) + Below(w, j, Q(w, j, k))
    decreases k
  {
    hide N, PW, Below;
    Counts(w, j, k);
    if k == 0 {
      NoneBelow(w, j);
    } else {
      PrefixSplit(w, j, k - 1);
      Counts(w, j, k - 1);
      var a, q := A(w, j, k - 1), Q(w, j, k - 1);
      if Package(w, j, a, q) {
        BelowStep(w, j, q);
      }
    }
  }

  lemma {:induction false} PackagesMono(w: seq<nat>, j: nat, p: nat, q: nat)
    requires Sorted(w) && p <= q && HasPackage(|w|, j, q)
    ensures PW(w, j, p) <= PW(w, j, q)
    decreases q
  {
    hide PW, N;
    if p < q {
      PackagesMono(w, j, p, q - 1);
      PackagesSorted(w, j, q - 1);
    }
  }

  /** Any other split of k items into leaves and packages costs at least as much. */
  lemma {:induction false} SplitMinimal(w: seq<nat>, j: nat, k: nat, x: nat)
    requires Sorted(w) && j > 0 && k <= N(|w|, j) && x <= k && x <= |w| && 2 * (k - x) <= N(|w|, j - 1)
    ensures Prefix(w, j, k) <= Leaves(w, x) + Below(w, j, k - x)
    decreases if x < A(w, j, k) then A(w, j, k) - x else x - A(w, j, k)
  {
    hide PW, W, N;
    var a, q := A(w, j, k), Q(w, j, k);
    ListSorted(w, j, k);
    Counts(w, j, k);
    if x == a {
      PrefixSplit(w, j, k);
    } else if x < a {
      SplitMinimal(w, j, k, x + 1);
      BelowStep(w, j, k - x - 1);
      assert HasPackage(|w|, j, k - x - 1);
      PackagesMono(w, j, q, k - x - 1);
      assert w[x] <= w[a - 1];
    } else {
      SplitMinimal(w, j, k, x - 1);
      BelowStep(w, j, k - x);
      assert HasPackage(|w|, j, q - 1);
      PackagesMono(w, j, k - x, q - 1);
      assert w[a] <= w[x - 1];
    }
  }

  lemma BelowStep(w: seq<nat>, j: nat, q: nat)
    requires j > 0
    ensures Below(w, j, q + 1) == Below(w, j, q) + PW(w, j, q)
  {
    hide W;
    assert Prefix(w, j - 1, 2 * q + 2) == Prefix(w, j - 1, 2 * q + 1) + W(w, j - 1, 2 * q + 1);
  }

  // ----- lower bound: choosing c[j] items of width 2^j at each level j

  function Width(c: seq<nat>): nat
  {
    if c == [] then 0 else Width(c[..|c| - 1]) + Shl(c[|c| - 1], |c| - 1)
  }

  function Price(w: seq<nat>, c: seq<nat>): nat
    requires forall j :: 0 <= j < |c| ==> c[j] <= |w|
  {
    if c == [] then 0 else Price(w, c[..|c| - 1]) + Leaves(w, c[|c| - 1])
  }

  lemma {:induction false} MaxWidth(m: nat, c: seq<nat>, k: nat)
    requires m >= 1 && c != [] && (forall j :: 0 <= j < |c| ==> c[j] <= m) && Width(c) >= Shl(k, |c| - 1)
    ensures k <= N(m, |c| - 1)
  {
    var j := |c| - 1;
    var x := c[j];
    if x < k {
      ShlAdd(x, k - x, j);
      if j > 0 {
        ShlInner(k - x, j - 1);
        MaxWidth(m, c[..j], 2 * (k - x));
      }
    } else {
      NBound(m, j);
    }
  }

  lemma {:induction false} LeavesMono(w: seq<nat>, a: nat, b: nat)
    requires a <= b <= |w|
    ensures Leaves(w, a) <= Leaves(w, b)
  {
    if a < b {
      LeavesMono(w, a, b - 1);
    }
  }

  lemma {:induction false} PriceBound(w: seq<nat>, c: seq<nat>, k: nat)
    requires Sorted(w) && c != [] && (forall j :: 0 <= j < |c| ==> c[j] <= |w|) && Width(c) >= Shl(k, |c| - 1)
    ensures k <= N(|w|, |c| - 1) && Prefix(w, |c| - 1, k) <= Price(w, c)
  {
    hide N, Prefix, Leaves;
    var j := |c| - 1;
    var x := c[j];
    MaxWidth(|w|, c, k);
    if k <= x {
      LeavesMono(w, k, x);
      if j == 0 {
        BottomPrefix(w, k);
      } else {
        SplitMinimal(w, j, k, k);
        NoneBelow(w, j);
      }
    } else {
      ShlAdd(x, k - x, j);
      if j > 0 {
        ShlInner(k - x, j - 1);
        PriceBound(w, c[..j], 2 * (k - x));
        SplitMinimal(w, j, k, x);
      }
    }
  }

  lemma NoneBelow(w: seq<nat>, j: nat)
    ensures Below(w, j, 0) == 0
  {
  }

  lemma BottomPrefix(w: seq<nat>, k: nat)
    requires Sorted(w) && k <= |w|
    ensures Prefix(w, 0, k) == Leaves(w, k)
  {
    PrefixSplit(w, 0, k);
    Counts(w, 0, k);
  }

  // ----- code lengths as such a choice: level L-t holds the symbols of length at least t

  /** Symbols among the first n with length at least t, and their weight. */
  function LongCount(l: seq<nat>, t: nat, n: nat): (c: nat)
    requires n <= |l|
    ensures c <= n
  {
    if n == 0 then 0 else LongCount(l, t, n - 1) + (if l[n - 1] >= t then 1 else 0)
  }

  function LongWeight(w: seq<nat>, l: seq<nat>, t: nat, n: nat): nat
    requires n <= |l| == |w|
  {
    if n == 0 then 0 else LongWeight(w, l, t, n - 1) + (if l[n - 1] >= t then w[n - 1] else 0)
  }

  /** The cost of a code: the sum of weight times length over the first n symbols. */
  function Cost(w: seq<nat>, l: seq<nat>, n: nat): nat
    requires n <= |l| == |w|
  {
    if n == 0 then 0 else Cost(w, l, n - 1) + w[n - 1] * l[n - 1]
  }

  /** The Kraft sum of the first n lengths, in units of 2^-L. */
  function Kraft(l: seq<nat>, top: nat, n: nat): nat
    requires n <= |l| && forall s :: 0 <= s < |l| ==> l[s] <= top
  {
    if n == 0 then 0 else Kraft(l, top, n - 1) + Pow2(top - l[n - 1])
  }

  lemma {:induction false} LongestAreLightest(w: seq<nat>, l: seq<nat>, t: nat, n: nat)
    requires Sorted(w) && n <= |l| == |w|
    ensures LongWeight(w, l, t, n) >= Leaves(w, LongCount(l, t, n))
  {
    if n > 0 {
      LongestAreLightest(w, l, t, n - 1);
      assert LongCount(l, t, n - 1) <= n - 1;
    }
  }

  /** The choice's counts for levels 0 to k-1 out of top. */
  function Levels(l: seq<nat>, top: nat, k: nat): (c: seq<nat>)
    requires k <= top
    ensures |c| == k && forall j :: 0 <= j < k ==> c[j] == LongCount(l, top - j, |l|)
  {
    seq(k, j requires 0 <= j < k => LongCount(l, top - j, |l|))
  }

  /** Weight of the first k levels. */
  function LevelsWeight(w: seq<nat>, l: seq<nat>, top: nat, k: nat): nat
    requires k <= top && |l| == |w|
  {
    if k == 0 then 0 else LevelsWeight(w, l, top, k - 1) + LongWeight(w, l, top - (k - 1), |l|)
  }

  lemma {:induction false} PriceBelowWeight(w: seq<nat>, l: seq<nat>, top: nat, k: nat)
    requires Sorted(w) && |l| == |w| && k <= top
    ensures Price(w, Levels(l, top, k)) <= LevelsWeight(w, l, top, k)
  {
    if k > 0 {
      PriceBelowWeight(w, l, top, k - 1);
      assert Levels(l, top, k)[..k - 1] == Levels(l, top, k - 1);
      LongestAreLightest(w, l, top - (k - 1), |l|);
    }
  }

  // Both totals are sums over symbols and levels; adding up per symbol gives cost and Kraft sum.

  function WeightOf(w: seq<nat>, l: seq<nat>, top: nat, k: nat, n: nat): nat
    requires k <= top && n <= |l| == |w|
  {
    if k == 0 then 0 else WeightOf(w, l, top, k - 1, n) + LongWeight(w, l, top - (k - 1), n)
  }

  lemma {:induction false} WeightSnoc(w: seq<nat>, l: seq<nat>, top: nat, k: nat, n: nat)
    requires k <= top && 0 < n <= |l| == |w| && l[n - 1] <= top
    ensures var x := l[n - 1]; var h := if x + k <= top then 0 else x + k - top;
            WeightOf(w, l, top, k, n) == WeightOf(w, l, top, k, n - 1) + w[n - 1] * h
  {
    if k > 0 {
      WeightSnoc(w, l, top, k - 1, n);
    }
  }

  lemma {:induction false} WeightIsCost(w: seq<nat>, l: seq<nat>, top: nat, n: nat)
    requires n <= |l| == |w| && forall s :: 0 <= s < |l| ==> l[s] <= top
    ensures WeightOf(w, l, top, top, n) == Cost(w, l, n)
  {
    if n == 0 {
      WeightNone(w, l, top, top);
    } else {
      WeightSnoc(w, l, top, top, n);
      WeightIsCost(w, l, top, n - 1);
    }
  }

  lemma {:induction false} WeightNone(w: seq<nat>, l: seq<nat>, top: nat, k: nat)
    requires k <= top && |l| == |w|
    ensures WeightOf(w, l, top, k, 0) == 0
  {
    if k > 0 {
      WeightNone(w, l, top, k - 1);
    }
  }

  lemma {:induction false} WeightAll(w: seq<nat>, l: seq<nat>, top: nat, k: nat)
    requires k <= top && |l| == |w|
    ensures LevelsWeight(w, l, top, k) == WeightOf(w, l, top, k, |l|)
  {
    if k > 0 {
      WeightAll(w, l, top, k - 1);
    }
  }

  function WidthOf(l: seq<nat>, top: nat, k: nat, n: nat): nat
    requires k <= top && n <= |l|
  {
    if k == 0 then 0 else WidthOf(l, top, k - 1, n) + Shl(LongCount(l, top - (k - 1), n), k - 1)
  }

  lemma {:induction false} WidthSnoc(l: seq<nat>, top: nat, k: nat, n: nat)
    requires k <= top && 0 < n <= |l| && l[n - 1] <= top
    ensures var x := l[n - 1];
            WidthOf(l, top, k, n) == WidthOf(l, top, k, n - 1) + (if x + k <= top then 0 else Pow2(k) - Pow2(top - x))
  {
    if k > 0 {
      WidthSnoc(l, top, k - 1, n);
      var c := LongCount(l, top - (k - 1), n - 1);
      ShlAdd(c, 1, k - 1);
      ShlOne(k - 1);
    }
  }

  lemma {:induction false} ShlOne(n: nat)
    ensures Shl(1, n) == Pow2(n)
  {
    if n > 0 {
      ShlOne(n - 1);
    }
  }

  /** Total width is m - 1 units of 2^L exactly when the Kraft sum is one. */
  lemma {:induction false} WidthIsKraft(l: seq<nat>, top: nat, n: nat)
    requires n <= |l| && forall s :: 0 <= s < |l| ==> 0 < l[s] <= top
    ensures WidthOf(l, top, top, n) + Kraft(l, top, n) == Shl(n, top)
  {
    if n == 0 {
      WidthNone(l, top, top);
      ShlZero(top);
    } else {
      WidthSnoc(l, top, top, n);
      WidthIsKraft(l, top, n - 1);
      ShlAdd(n - 1, 1, top);
      ShlOne(top);
      Pow2Mono(top - l[n - 1], top);
    }
  }

  lemma {:induction false} WidthNone(l: seq<nat>, top: nat, k: nat)
    requires k <= top
    ensures WidthOf(l, top, k, 0) == 0
  {
    if k > 0 {
      WidthNone(l, top, k - 1);
      ShlZero(k - 1);
    }
  }

  lemma {:induction false} WidthAll(l: seq<nat>, top: nat, k: nat)
    requires k <= top
    ensures Width(Levels(l, top, k)) == WidthOf(l, top, k, |l|)
  {
    if k > 0 {
      WidthAll(l, top, k - 1);
      assert Levels(l, top, k)[..k - 1] == Levels(l, top, k - 1);
    }
  }

  /** No prefix code with lengths at most top costs less than the list prefix. */
  lemma LowerBound(w: seq<nat>, l: seq<nat>, top: nat)
    requires Sorted(w) && |l| == |w| && top > 0
    requires (forall s :: 0 <= s < |l| ==> 0 < l[s] <= top) && Kraft(l, top, |l|) <= Pow2(top)
    ensures Prefix(w, top - 1, 2 * |w| - 2) <= Cost(w, l, |l|)
  {
    hide Cost, Kraft, Prefix, WeightOf, LevelsWeight, Width, WidthOf, Price, Sorted;
    var c, m := Levels(l, top, top), |w|;
    WidthAll(l, top, top);
    WidthIsKraft(l, top, m);
    SortedSize(w);
    assert Shl(m - 1, top) <= Width(c) by {
      ShlAdd(m - 1, 1, top);
      ShlOne(top);
    }
    ShlInner(m - 1, top - 1);
    PriceBound(w, c, 2 * m - 2);
    PriceBelowWeight(w, l, top, top);
    WeightAll(w, l, top, top);
    WeightIsCost(w, l, top, m);
  }

  lemma SortedSize(w: seq<nat>)
    requires Sorted(w)
    ensures |w| >= 2
  {
  }

  // ----- the code that the lists determine

  /** Leaves taken at each level, from the top, when k items of list j are taken. */
  function Tops(w: seq<nat>, j: nat, k: nat): (t: seq<nat>)
    ensures |t| <= j + 1
    decreases j
  {
    if k == 0 then []
    else if j == 0 then [A(w, j, k)]
    else [A(w, j, k)] + Tops(w, j - 1, 2 * Q(w, j, k))
  }

  /** The last leaf among the first k items is no heavier than the last of them. */
  lemma {:induction false} LastLeaf(w: seq<nat>, j: nat, k: nat)
    requires Sorted(w) && 0 < k <= N(|w|, j)
    ensures 0 < A(w, j, k) <= |w| ==> w[A(w, j, k) - 1] <= W(w, j, k - 1)
    decreases k
  {
    hide PW, N;
    Counts(w, j, k - 1);
    if k > 1 {
      LastLeaf(w, j, k - 1);
      ListSorted(w, j, k - 1);
    }
  }

  /** A level never takes more leaves than the one above it. */
  lemma Nested(w: seq<nat>, j: nat, k: nat)
    requires Sorted(w) && j > 0 && k <= N(|w|, j)
    ensures 2 * Q(w, j, k) <= N(|w|, j - 1) && A(w, j - 1, 2 * Q(w, j, k)) <= A(w, j, k)
  {
    hide N, A, W;
    var a, q := A(w, j, k), Q(w, j, k);
    Counts(w, j, k);
    ListSorted(w, j, k);
    if q > 0 {
      var b := A(w, j - 1, 2 * q);
      Counts(w, j - 1, 2 * q);
      if a < b {
        Positive(w, j - 1, 2 * q - 2);
        LastLeaf(w, j - 1, 2 * q);
      }
    }
  }

  /** Taking 2m-2 items takes every leaf. */
  lemma {:induction false} AllLeaves(w: seq<nat>, j: nat)
    requires Sorted(w) && 2 * |w| - 2 <= N(|w|, j)
    ensures A(w, j, 2 * |w| - 2) == |w|
    decreases j
  {
    hide A, W;
    var m := |w|;
    var k := 2 * m - 2;
    var a, q := A(w, j, k), Q(w, j, k);
    Counts(w, j, k);
    if j > 0 && a < m {
      NBound(m, j - 1);
      Positive(w, j - 1, k - 2);
      ListSorted(w, j, k);
      AllLeaves(w, j - 1);
      LastLeaf(w, j - 1, k);
    }
  }

  /** Enough items exist when the code can hold the symbols. */
  lemma {:induction false} EnoughItems(m: nat, j: nat, k: nat)
    requires m >= 1 && m <= Pow2(j + k)
    ensures 2 * m - N(m, j) <= Pow2(k)
    decreases j
  {
    if j > 0 {
      EnoughItems(m, j - 1, k + 1);
    }
  }

  ghost predicate NonIncreasing(t: seq<nat>)
  {
    forall i, k :: 0 <= i <= k < |t| ==> t[i] >= t[k]
  }

  lemma {:induction false} TopsNonIncreasing(w: seq<nat>, j: nat, k: nat)
    requires Sorted(w) && k <= N(|w|, j)
    ensures var t := Tops(w, j, k);
            NonIncreasing(t) && (t != [] ==> t[0] == A(w, j, k) <= |w|)
    decreases j
  {
    hide A;
    Counts(w, j, k);
    if k > 0 && j > 0 {
      Nested(w, j, k);
      TopsNonIncreasing(w, j - 1, 2 * Q(w, j, k));
    }
  }

  function SumLeaves(w: seq<nat>, t: seq<nat>): nat
    requires forall i :: 0 <= i < |t| ==> t[i] <= |w|
  {
    if t == [] then 0 else Leaves(w, t[0]) + SumLeaves(w, t[1..])
  }

  lemma {:induction false} PrefixIsTops(w: seq<nat>, j: nat, k: nat)
    requires Sorted(w) && k <= N(|w|, j)
    ensures (forall i :: 0 <= i < |Tops(w, j, k)| ==> Tops(w, j, k)[i] <= |w|)
    ensures Prefix(w, j, k) == SumLeaves(w, Tops(w, j, k))
    decreases j
  {
    hide A, N;
    TopsNonIncreasing(w, j, k);
    if k > 0 {
      PrefixSplit(w, j, k);
      Counts(w, j, k);
      var t := Tops(w, j, k);
      if j > 0 {
        assert t[1..] == Tops(w, j - 1, 2 * Q(w, j, k));
        PrefixIsTops(w, j - 1, 2 * Q(w, j, k));
      } else {
        assert t[1..] == [];
      }
    }
  }

  /** How many levels take leaf s: its code length. */
  function Depth(t: seq<nat>, s: nat): (d: nat)
    ensures d <= |t|
  {
    if t == [] then 0 else (if t[0] > s then 1 else 0) + Depth(t[1..], s)
  }

  lemma {:induction false} DepthNested(t: seq<nat>, s: nat, i: nat)
    requires NonIncreasing(t) && i < |t|
    ensures Depth(t, s) > i <==> t[i] > s
    decreases |t|
  {
    assert NonIncreasing(t[1..]);
    if t[0] <= s {
      assert forall x :: 0 <= x < |t[1..]| ==> t[1..][x] <= s;
      DepthZero(t[1..], s);
    } else if i > 0 {
      DepthNested(t[1..], s, i - 1);
    }
  }

  lemma {:induction false} DepthZero(t: seq<nat>, s: nat)
    requires forall x :: 0 <= x < |t| ==> t[x] <= s
    ensures Depth(t, s) == 0
  {
    if t != [] {
      DepthZero(t[1..], s);
    }
  }

  ghost predicate LengthsOf(w: seq<nat>, t: seq<nat>, l: seq<nat>)
  {
    |l| == |w| && forall s :: 0 <= s < |l| ==> l[s] == Depth(t, s)
  }

  lemma {:induction false} LevelLeaves(w: seq<nat>, t: seq<nat>, l: seq<nat>, i: nat, n: nat)
    requires LengthsOf(w, t, l) && NonIncreasing(t) && i < |t| && t[i] <= |w| && n <= |w|
    ensures LongWeight(w, l, i + 1, n) == Leaves(w, if n <= t[i] then n else t[i])
  {
    if n > 0 {
      LevelLeaves(w, t, l, i, n - 1);
      DepthNested(t, n - 1, i);
    }
  }

  lemma {:induction false} LevelsAreTops(w: seq<nat>, t: seq<nat>, l: seq<nat>, k: nat)
    requires LengthsOf(w, t, l) && NonIncreasing(t) && k <= |t| && (forall i :: 0 <= i < |t| ==> t[i] <= |w|)
    ensures LevelsWeight(w, l, |t|, k) == SumLeaves(w, t[|t| - k..])
  {
    if k > 0 {
      LevelsAreTops(w, t, l, k - 1);
      LevelLeaves(w, t, l, |t| - k, |w|);
      assert t[|t| - k..][1..] == t[|t| - (k - 1)..];
    } else {
      assert t[|t|..] == [];
    }
  }

  /** The lengths read off the lists cost exactly the list prefix. */
  lemma CostOfTops(w: seq<nat>, j: nat, k: nat, l: seq<nat>)
    requires Sorted(w) && k <= N(|w|, j) && LengthsOf(w, Tops(w, j, k), l)
    ensures Cost(w, l, |l|) == Prefix(w, j, k)
  {
    hide Sorted, Prefix, Cost, N, Tops, SumLeaves;
    var t := Tops(w, j, k);
    TopsNonIncreasing(w, j, k);
    PrefixIsTops(w, j, k);
    LevelsAreTops(w, t, l, |t|);
    assert t[0..] == t;
    WeightAll(w, l, |t|, |t|);
    WeightIsCost(w, l, |t|, |l|);
  }
}
