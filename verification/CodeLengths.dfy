/** Code lengths symbol by symbol, related to the sorted leaves of package-merge. */
module CodeLengths {
  import opened Bits
  import opened Canonical
  import opened DecodeTable
  import opened PackageMerge

  /** The symbols among the first n that occur, in order. */
  function UsedSyms(count: seq<nat>, n: nat): (s: seq<nat>)
    requires n <= |count|
    ensures forall i :: 0 <= i < |s| ==> s[i] < n && count[s[i]] > 0
  {
    if n == 0 then []
    else UsedSyms(count, n - 1) + (if count[n - 1] > 0 then [n - 1] else [])
  }

  lemma {:induction false} UsedDistinct(count: seq<nat>, n: nat)
    requires n <= |count|
    ensures forall i, k :: 0 <= i < k < |UsedSyms(count, n)| ==> UsedSyms(count, n)[i] < UsedSyms(count, n)[k]
  {
    if n > 0 {
      UsedDistinct(count, n - 1);
    }
  }

  lemma {:induction false} UsedComplete(count: seq<nat>, n: nat, x: nat)
    requires x < n <= |count| && count[x] > 0
    ensures x in UsedSyms(count, n)
  {
    if x < n - 1 {
      UsedComplete(count, n - 1, x);
    }
  }

  /** Sum of f over a list of indices. */
  function SumAt(f: seq<nat>, idx: seq<nat>): nat
    requires forall i :: 0 <= i < |idx| ==> idx[i] < |f|
  {
    if idx == [] then 0 else SumAt(f, idx[..|idx| - 1]) + f[idx[|idx| - 1]]
  }

  lemma {:induction false} SumRemove(f: seq<nat>, idx: seq<nat>, k: nat)
    requires (forall i :: 0 <= i < |idx| ==> idx[i] < |f|) && k < |idx|
    ensures SumAt(f, idx) == SumAt(f, idx[..k] + idx[k + 1..]) + f[idx[k]]
  {
    var n := |idx| - 1;
    var rest := idx[..k] + idx[k + 1..];
    if k < n {
      SumRemove(f, idx[..n], k);
      assert idx[..n][..k] == idx[..k] && idx[..n][k + 1..] == idx[k + 1..n];
      assert rest[..|rest| - 1] == idx[..k] + idx[k + 1..n];
    } else {
      assert rest == idx[..n];
    }
  }

  lemma SameRest(a: multiset<nat>, b: multiset<nat>, x: nat)
    requires a + multiset{x} == b + multiset{x}
    ensures a == b
  {
    assert a == a + multiset{x} - multiset{x};
  }

  /** A sum does not depend on the order of its indices. */
  lemma {:induction false} SumPermuted(f: seq<nat>, a: seq<nat>, b: seq<nat>)
    requires (forall i :: 0 <= i < |a| ==> a[i] < |f|) && (forall i :: 0 <= i < |b| ==> b[i] < |f|)
    requires multiset(a) == multiset(b)
    ensures SumAt(f, a) == SumAt(f, b)
    decreases |a|
  {
    if a == [] {
      assert |multiset(b)| == 0;
    } else {
      var n := |a| - 1;
      var x := a[n];
      assert a == a[..n] + [x];
      assert x in multiset(b);
      var k :| 0 <= k < |b| && b[k] == x;
      SumRemove(f, b, k);
      var c := b[..k] + b[k + 1..];
      assert b == b[..k] + [x] + b[k + 1..];
      SameRest(multiset(a[..n]), multiset(c), x);
      SumPermuted(f, a[..n], c);
    }
  }

  // ----- cost

  /** Sum of count times length over the first n symbols. */
  function SymCost(count: seq<nat>, l: Lens, n: nat): nat
    requires n <= |count| == |l|
  {
    if n == 0 then 0 else SymCost(count, l, n - 1) + count[n - 1] * l[n - 1]
  }

  function Products(count: seq<nat>, l: Lens): (f: seq<nat>)
    requires |count| == |l|
    ensures |f| == |l| && forall i :: 0 <= i < |l| ==> f[i] == count[i] * l[i]
  {
    seq(|l|, i requires 0 <= i < |l| => count[i] * l[i])
  }

  lemma SumUsed(f: seq<nat>, count: seq<nat>, n: nat)
    requires 0 < n <= |count| == |f|
    ensures SumAt(f, UsedSyms(count, n)) == SumAt(f, UsedSyms(count, n - 1)) + if count[n - 1] > 0 then f[n - 1] else 0
  {
    var u, v := UsedSyms(count, n), UsedSyms(count, n - 1);
    if count[n - 1] > 0 {
      assert u[..|u| - 1] == v;
    } else {
      assert u == v;
    }
  }

  lemma SumNone(f: seq<nat>, count: seq<nat>)
    ensures SumAt(f, UsedSyms(count, 0)) == 0
  {
  }

  lemma {:induction false} CostIsSum(count: seq<nat>, l: Lens, n: nat)
    requires n <= |count| == |l|
    ensures SymCost(count, l, n) == SumAt(Products(count, l), UsedSyms(count, n))
  {
    hide SumAt, UsedSyms;
    if n == 0 {
      SumNone(Products(count, l), count);
    } else {
      CostIsSum(count, l, n - 1);
      SumUsed(Products(count, l), count, n);
      if count[n - 1] == 0 {
        assert count[n - 1] * l[n - 1] == 0;
      }
    }
  }

  /** The values of g at a list of indices. */
  function Gather(g: seq<nat>, idx: seq<nat>): (s: seq<nat>)
    requires forall i :: 0 <= i < |idx| ==> idx[i] < |g|
    ensures |s| == |idx| && forall i :: 0 <= i < |idx| ==> s[i] == g[idx[i]]
  {
    seq(|idx|, i requires 0 <= i < |idx| => g[idx[i]])
  }

  lemma {:induction false} GatheredCost(count: seq<nat>, l: Lens, idx: seq<nat>, n: nat)
    requires |count| == |l| && (forall i :: 0 <= i < |idx| ==> idx[i] < |l|) && n <= |idx|
    ensures Cost(Gather(count, idx), Gather(l, idx), n) == SumAt(Products(count, l), idx[..n])
  {
    if n > 0 {
      GatheredCost(count, l, idx, n - 1);
      assert idx[..n][..n - 1] == idx[..n - 1];
    }
  }

  /** Cost by symbol is cost by sorted leaf, for any ordering of the used symbols. */
  lemma CostBySymbol(count: seq<nat>, l: Lens, idx: seq<nat>)
    requires |count| == |l| && multiset(idx) == multiset(UsedSyms(count, |count|))
    requires forall i :: 0 <= i < |idx| ==> idx[i] < |l|
    ensures SymCost(count, l, |l|) == Cost(Gather(count, idx), Gather(l, idx), |idx|)
  {
    CostIsSum(count, l, |l|);
    SumPermuted(Products(count, l), UsedSyms(count, |count|), idx);
    GatheredCost(count, l, idx, |idx|);
    assert idx[..|idx|] == idx;
  }

  // ----- Kraft sums

  /** What a symbol takes of a code space of 2^b. */
  function Share(x: nat, b: nat): nat
  {
    if 0 < x <= b then Pow2(b - x) else 0
  }

  function Shares(l: Lens, b: nat): (f: seq<nat>)
    ensures |f| == |l| && forall i :: 0 <= i < |l| ==> f[i] == Share(l[i], b)
  {
    seq(|l|, i requires 0 <= i < |l| => Share(l[i], b))
  }

  lemma {:induction false} EndSnoc(l: Lens, x: nat, b: nat)
    ensures End(l + [x], b) == End(l, b) + Share(x, b)
    decreases b
  {
    assert (l + [x])[..|l|] == l;
    if b > 0 {
      EndSnoc(l, x, b - 1);
    }
  }

  /** The used symbols' shares are at most the whole. */
  lemma {:induction false} SharesBelowEnd(count: seq<nat>, l: Lens, n: nat, b: nat)
    requires n <= |count| == |l|
    ensures SumAt(Shares(l, b), UsedSyms(count, n)) <= End(l[..n], b)
  {
    if n > 0 {
      SharesBelowEnd(count, l, n - 1, b);
      assert l[..n] == l[..n - 1] + [l[n - 1]];
      EndSnoc(l[..n - 1], l[n - 1], b);
      SumUsed(Shares(l, b), count, n);
    }
  }

  lemma {:induction false} GatheredKraft(l: Lens, idx: seq<nat>, top: nat, n: nat)
    requires (forall i :: 0 <= i < |idx| ==> idx[i] < |l| && 0 < l[idx[i]] <= top) && n <= |idx|
    ensures Kraft(Gather(l, idx), top, n) == SumAt(Shares(l, top), idx[..n])
  {
    if n > 0 {
      GatheredKraft(l, idx, top, n - 1);
      assert idx[..n][..n - 1] == idx[..n - 1];
    }
  }

  /** Every prefix code for the used symbols satisfies the Kraft inequality on the sorted leaves. */
  lemma KraftBySymbol(count: seq<nat>, l: Lens, idx: seq<nat>, top: nat)
    requires |count| == |l| && multiset(idx) == multiset(UsedSyms(count, |count|))
    requires Fits(l, top) && forall i :: 0 <= i < |idx| ==> idx[i] < |l| && 0 < l[idx[i]]
    ensures Kraft(Gather(l, idx), top, |idx|) <= Pow2(top)
  {
    GatheredKraft(l, idx, top, |idx|);
    assert idx[..|idx|] == idx;
    SumPermuted(Shares(l, top), UsedSyms(count, |count|), idx);
    SharesBelowEnd(count, l, |l|, top);
    assert l[..|l|] == l && FitsAt(l, top);
  }

  /** A prefix code for the symbols that occur, with lengths at most top. */
  ghost predicate PrefixCode(count: seq<nat>, l: Lens, top: nat)
  {
    |l| == |count| && Fits(l, top) && forall i :: 0 <= i < |l| && count[i] > 0 ==> l[i] > 0
  }

  lemma UsedLengths(count: seq<nat>, l: Lens, idx: seq<nat>, top: nat)
    requires multiset(idx) == multiset(UsedSyms(count, |count|)) && PrefixCode(count, l, top)
    ensures |l| == |count| && Fits(l, top)
    ensures forall i :: 0 <= i < |idx| ==> idx[i] < |l| && 0 < l[idx[i]] <= top
  {
    forall i | 0 <= i < |idx|
      ensures idx[i] < |l| && 0 < l[idx[i]] <= top
    {
      assert idx[i] in multiset(idx);
      assert idx[i] in UsedSyms(count, |count|);
    }
  }

  /** Lengths read off the package-merge lists cost no more than any prefix code. */
  lemma Optimal(count: seq<nat>, idx: seq<nat>, top: nat, l: Lens, other: Lens)
    requires |l| == |count| && top > 0 && multiset(idx) == multiset(UsedSyms(count, |count|))
    requires forall i :: 0 <= i < |idx| ==> idx[i] < |count|
    requires Sorted(Gather(count, idx)) && 2 * |idx| - 2 <= N(|idx|, top - 1)
    requires LengthsOf(Gather(count, idx), Tops(Gather(count, idx), top - 1, 2 * |idx| - 2), Gather(l, idx))
    requires PrefixCode(count, other, top)
    ensures SymCost(count, l, |l|) <= SymCost(count, other, |other|)
  {
    hide *;
    UsedLengths(count, other, idx, top);
    var w, g := Gather(count, idx), Gather(other, idx);
    SortedSize(w);
    CostOfTops(w, top - 1, 2 * |idx| - 2, Gather(l, idx));
    CostBySymbol(count, l, idx);
    CostBySymbol(count, other, idx);
    KraftBySymbol(count, other, idx, top);
    LowerBound(w, g, top);
  }

  // ----- a full code

  /** With the code space used up exactly at length m, no shorter length is oversubscribed. */
  lemma FullFits(l: Lens, m: nat)
    requires End(l, m) == Pow2(m) && forall i :: 0 <= i < |l| ==> l[i] <= m
    ensures Fits(l, m)
  {
    forall b | 0 <= b <= m
      ensures FitsAt(l, b)
    {
      EndShift(l, b, m);
      if End(l, b) > Pow2(b) {
        ShlPow2(b, m - b);
        ShlMono(Pow2(b), End(l, b), m - b);
      }
    }
  }

  /** Level by level, the nodes left open in the code tree match the items still to be taken. */
  lemma {:induction false} KraftAlong(w: seq<nat>, j: nat, k: nat, t: seq<nat>, l: Lens, i: nat)
    requires Sorted(w) && k <= N(|w|, j) && i <= |t| && t[i..] == Tops(w, j, k)
    requires forall b :: 0 < b <= |t| ==> Count(l, b) + (if b < |t| then t[b] else 0) == t[b - 1]
    requires k + 2 * (Pow2(i) - End(l, i)) == 2 * (if i < |t| then t[i] else 0)
    ensures End(l, |t|) == Pow2(|t|)
    decreases |t| - i
  {
    hide N, A, Sorted;
    if i < |t| {
      assert t[i] == t[i..][0] == A(w, j, k);
      assert t[i + 1..] == t[i..][1..];
      Counts(w, j, k);
      var q := Q(w, j, k);
      assert End(l, i + 1) == 2 * End(l, i) + Count(l, i + 1);
      if j > 0 {
        assert t[i + 1..] == Tops(w, j - 1, 2 * q);
        KraftAlong(w, j - 1, 2 * q, t, l, i + 1);
      } else {
        assert t[i + 1..] == [];
      }
    } else {
      EmptyTops(w, j, k);
    }
  }

  lemma EmptyTops(w: seq<nat>, j: nat, k: nat)
    requires Tops(w, j, k) == []
    ensures k == 0
  {
  }

  // ----- how many symbols get each length

  function Marks(l: Lens, b: nat): (f: seq<nat>)
    ensures |f| == |l| && forall i :: 0 <= i < |l| ==> f[i] == if l[i] == b then 1 else 0
  {
    seq(|l|, i requires 0 <= i < |l| => if l[i] == b then 1 else 0)
  }

  lemma {:induction false} CountIsSum(count: seq<nat>, l: Lens, n: nat, b: nat)
    requires n <= |count| == |l| && b > 0 && forall i :: 0 <= i < |l| && count[i] == 0 ==> l[i] == 0
    ensures Count(l[..n], b) == SumAt(Marks(l, b), UsedSyms(count, n))
  {
    hide SumAt, UsedSyms;
    if n == 0 {
      SumNone(Marks(l, b), count);
    } else {
      CountIsSum(count, l, n - 1, b);
      SumUsed(Marks(l, b), count, n);
      assert l[..n][..n - 1] == l[..n - 1];
    }
  }

  lemma {:induction false} CountGathered(l: Lens, idx: seq<nat>, n: nat, b: nat)
    requires (forall i :: 0 <= i < |idx| ==> idx[i] < |l|) && n <= |idx|
    ensures Count(Gather(l, idx)[..n], b) == SumAt(Marks(l, b), idx[..n])
  {
    if n > 0 {
      CountGathered(l, idx, n - 1, b);
      assert idx[..n][..n - 1] == idx[..n - 1];
      assert Gather(l, idx)[..n][..n - 1] == Gather(l, idx)[..n - 1];
    }
  }

  /** Among the n lightest leaves, length b goes to those between two successive tops. */
  lemma {:induction false} CountDepths(g: seq<nat>, t: seq<nat>, n: nat, b: nat)
    requires NonIncreasing(t) && n <= |g| && (forall s :: 0 <= s < |g| ==> g[s] == Depth(t, s)) && 0 < b <= |t|
    ensures var hi, lo := t[b - 1], if b < |t| then t[b] else 0;
            Count(g[..n], b) + (if n <= lo then n else lo) == (if n <= hi then n else hi)
  {
    if n > 0 {
      CountDepths(g, t, n - 1, b);
      assert g[..n][..n - 1] == g[..n - 1];
      DepthNested(t, n - 1, b - 1);
      if b < |t| {
        DepthNested(t, n - 1, b);
      }
    }
  }

  /** Each length's number of symbols, from the tops. */
  lemma CountFromTops(count: seq<nat>, l: Lens, idx: seq<nat>, t: seq<nat>, b: nat)
    requires |count| == |l| && multiset(idx) == multiset(UsedSyms(count, |count|))
    requires (forall i :: 0 <= i < |l| && count[i] == 0 ==> l[i] == 0)
    requires (forall s :: 0 <= s < |idx| ==> idx[s] < |l| && l[idx[s]] == Depth(t, s))
    requires NonIncreasing(t) && 0 < b <= |t| && t[0] <= |idx|
    ensures Count(l, b) + (if b < |t| then t[b] else 0) == t[b - 1]
  {
    hide SumAt, UsedSyms, Depth;
    CountIsSum(count, l, |l|, b);
    assert l[..|l|] == l;
    SumPermuted(Marks(l, b), UsedSyms(count, |count|), idx);
    var g := Gather(l, idx);
    CountGathered(l, idx, |idx|, b);
    assert idx[..|idx|] == idx && g[..|idx|] == g;
    CountDepths(g, t, |g|, b);
  }
}
