/** The in-place quicksort of symbols by count, on two parallel arrays. */
module LeafSort {

  /** Sort order: by count, and among equal counts the larger symbol first. */
  predicate Le(count: seq<nat>, x: nat, y: nat)
  {
    x < |count| && y < |count| && (count[x] < count[y] || (count[x] == count[y] && x >= y))
  }

  ghost predicate Paired(count: seq<nat>, lc: seq<nat>, lm: seq<nat>)
  {
    |lc| == |lm| && forall i :: 0 <= i < |lm| ==> lm[i] < |count| && lc[i] == count[lm[i]]
  }

  ghost predicate Ordered(count: seq<nat>, s: seq<nat>)
  {
    forall i, k :: 0 <= i <= k < |s| ==> Le(count, s[i], s[k])
  }

  /** lm differs from old only by a permutation within [a, b). */
  ghost predicate Shuffled(old_: seq<nat>, lm: seq<nat>, a: nat, b: nat)
  {
    && a <= b <= |old_| == |lm| && lm[..a] == old_[..a] && lm[b..] == old_[b..]
    && multiset(lm[a..b]) == multiset(old_[a..b])
  }

  lemma ShuffledTrans(s: seq<nat>, t: seq<nat>, u: seq<nat>, a: nat, b: nat)
    requires Shuffled(s, t, a, b) && Shuffled(t, u, a, b)
    ensures Shuffled(s, u, a, b)
  {
  }

  lemma SwapShuffles(s: seq<nat>, i: nat, k: nat, a: nat, b: nat)
    requires a <= i < b && a <= k < b <= |s|
    ensures Shuffled(s, s[i := s[k]][k := s[i]], a, b)
  {
    var t := s[i := s[k]][k := s[i]];
    assert t[a..b] == s[a..b][i - a := s[a..b][k - a]][k - a := s[a..b][i - a]];
  }

  /** A shuffle of part of a range shuffles the range. */
  lemma ShuffledWiden(s: seq<nat>, t: seq<nat>, a: nat, b: nat, c: nat, d: nat)
    requires Shuffled(s, t, a, b) && c <= a && b <= d <= |s|
    ensures Shuffled(s, t, c, d)
  {
    assert s[c..d] == s[c..a] + s[a..b] + s[b..d] && t[c..d] == t[c..a] + t[a..b] + t[b..d];
    assert s[c..a] == s[..a][c..] && t[c..a] == t[..a][c..];
    assert s[b..d] == s[b..][..d - b] && t[b..d] == t[b..][..d - b];
    assert s[..c] == s[..a][..c] && t[..c] == t[..a][..c];
    assert s[d..] == s[b..][d - b..] && t[d..] == t[b..][d - b..];
  }

  method Swap(lc: array<nat>, lm: array<nat>, i: nat, k: nat, ghost count: seq<nat>, ghost s: seq<nat>, ghost a: nat,
              ghost b: nat)
    requires lm[..] == s && lc != lm && lc.Length == lm.Length && Paired(count, lc[..], lm[..]) && a <= i < b
             && a <= k < b <= lm.Length
    modifies lc, lm
    ensures Paired(count, lc[..], lm[..]) && Shuffled(s, lm[..], a, b)
    ensures lm[..] == s[i := s[k]][k := s[i]]
  {
    var t := lc[i];
    lc[i] := lc[k];
    lc[k] := t;
    t := lm[i];
    lm[i] := lm[k];
    lm[k] := t;
    SwapShuffles(s, i, k, a, b);
    assert lm[..] == s[i := s[k]][k := s[i]];
  }

  /** The middle one of three sampled counts. */
  method Pivot(c: array<nat>, a: nat, n: nat) returns (p: nat)
    requires n > 10 && a + n <= c.Length
    ensures a <= p < a + n
  {
    var j := n / 6;
    var pi := a + j;
    j := j + j;
    var pj := pi + j;
    var pk := pj + j;
    if c[pi] < c[pj] {
      if c[pi] < c[pk] {
        if c[pj] < c[pk] {
          return pj;
        }
        return pk;
      }
      return pi;
    }
    if c[pj] < c[pk] {
      if c[pi] < c[pk] {
        return pi;
      }
      return pk;
    }
    return pj;
  }

  /** Scan right past the symbols that go before the pivot at a. */
  method ScanRight(lc: array<nat>, lm: array<nat>, a: nat, pn: nat, pi0: nat, ghost count: seq<nat>) returns (pi: nat)
    requires Paired(count, lc[..], lm[..]) && a <= pi0 < pn <= lm.Length
    ensures pi0 < pi <= pn
    ensures forall k :: pi0 < k < pi ==> Le(count, lm[k], lm[a])
    ensures pi < pn ==> Le(count, lm[a], lm[pi])
  {
    pi := pi0 + 1;
    while pi < pn && (lc[pi] < lc[a] || (lc[pi] == lc[a] && lm[pi] > lm[a]))
      invariant pi0 < pi <= pn
      invariant forall k :: pi0 < k < pi ==> Le(count, lm[k], lm[a])
    {
      assert lc[pi] == lc[..][pi] && lc[a] == lc[..][a] && lm[pi] == lm[..][pi] && lm[a] == lm[..][a];
      pi := pi + 1;
    }
    if pi < pn {
      assert lc[pi] == lc[..][pi] && lc[a] == lc[..][a] && lm[pi] == lm[..][pi] && lm[a] == lm[..][a];
    }
  }

  /** Scan left past the symbols that go after the pivot at a. */
  method ScanLeft(lc: array<nat>, lm: array<nat>, a: nat, pj0: nat, ghost count: seq<nat>) returns (pj: nat)
    requires Paired(count, lc[..], lm[..]) && a < pj0 <= lm.Length
    ensures a <= pj < pj0
    ensures forall k :: pj < k < pj0 ==> Le(count, lm[a], lm[k])
    ensures a < pj ==> Le(count, lm[pj], lm[a])
  {
    pj := pj0 - 1;
    while pj > a && (lc[pj] > lc[a] || (lc[pj] == lc[a] && lm[pj] < lm[a]))
      invariant a <= pj < pj0
      invariant forall k :: pj < k < pj0 ==> Le(count, lm[a], lm[k])
    {
      assert lc[pj] == lc[..][pj] && lc[a] == lc[..][a] && lm[pj] == lm[..][pj] && lm[a] == lm[..][a];
      pj := pj - 1;
    }
    if a < pj {
      assert lc[pj] == lc[..][pj] && lc[a] == lc[..][a] && lm[pj] == lm[..][pj] && lm[a] == lm[..][a];
    }
  }

  ghost predicate LowTo(count: seq<nat>, lm: seq<nat>, a: nat, i: nat)
    requires a < |lm| && i < |lm|
  {
    forall k :: a < k <= i ==> Le(count, lm[k], lm[a])
  }

  ghost predicate HighFrom(count: seq<nat>, lm: seq<nat>, a: nat, i: nat, b: nat)
    requires a < |lm| && b <= |lm|
  {
    forall k :: i <= k < b && 0 <= k ==> Le(count, lm[a], lm[k])
  }

  /** Exchange misplaced symbols until the scans meet; returns where the left scan stopped. */
  method Exchange(lc: array<nat>, lm: array<nat>, a: nat, pn: nat, ghost count: seq<nat>,
                  ghost s0: seq<nat>) returns (pj: nat)
    requires lm[..] == s0 && lc != lm && lc.Length == lm.Length && Paired(count, lc[..], lm[..])
             && a + 1 < pn <= lm.Length
    modifies lc, lm
    ensures Paired(count, lc[..], lm[..]) && Shuffled(s0, lm[..], a, pn)
    ensures a <= pj < pn && LowTo(count, lm[..], a, pj) && HighFrom(count, lm[..], a, pj + 1, pn)
  {
    hide Le, Paired;
    var pi := a;
    pj := pn;
    while true
      invariant a <= pi <= pj <= pn && pi < pn && a < pj
      invariant Paired(count, lc[..], lm[..]) && Shuffled(s0, lm[..], a, pn)
      invariant LowTo(count, lm[..], a, pi) && HighFrom(count, lm[..], a, pj, pn)
      decreases pj - pi
    {
      ghost var lo, hi := pi, pj;
      pi := ScanRight(lc, lm, a, pn, pi, count);
      pj := ScanLeft(lc, lm, a, pj, count);
      assert forall k :: lo < k < pi ==> lm[..][k] == lm[k];
      assert forall k :: pj < k < hi ==> lm[..][k] == lm[k];
      if pj < pi {
        return;
      }
      ghost var s := lm[..];
      Swap(lc, lm, pi, pj, count, s, a, pn);
      ShuffledTrans(s0, s, lm[..], a, pn);
      Exchanged(count, s, lm[..], a, lo, pi, pj, hi, pn);
    }
  }

  lemma Exchanged(count: seq<nat>, s: seq<nat>, t: seq<nat>, a: nat, lo: nat, pi: nat, pj: nat, hi: nat, pn: nat)
    requires a <= lo < pi <= pj < hi <= pn <= |s| && t == s[pi := s[pj]][pj := s[pi]]
    requires LowTo(count, s, a, lo) && HighFrom(count, s, a, hi, pn)
    requires forall k :: lo < k < pi ==> Le(count, s[k], s[a])
    requires forall k :: pj < k < hi ==> Le(count, s[a], s[k])
    requires Le(count, s[a], s[pi]) && Le(count, s[pj], s[a])
    ensures LowTo(count, t, a, pi) && HighFrom(count, t, a, pj, pn)
  {
    hide Le;
  }

  /** Choose a pivot and move it to the front of the range. */
  method PivotFirst(lc: array<nat>, lm: array<nat>, a: nat, n: nat, ghost count: seq<nat>, ghost s0: seq<nat>)
    requires lm[..] == s0 && lc != lm && lc.Length == lm.Length && Paired(count, lc[..], lm[..]) && 1 < n
             && a + n <= lm.Length
    modifies lc, lm
    ensures Paired(count, lc[..], lm[..]) && Shuffled(s0, lm[..], a, a + n)
  {
    hide Le, Paired, Shuffled;
    var p;
    if n > 10 {
      p := Pivot(lc, a, n);
    } else {
      p := a + n / 2;
    }
    Swap(lc, lm, p, a, count, s0, a, a + n);
  }

  /** Move the pivot from the front of the range to where the scans met. */
  method PlacePivot(lc: array<nat>, lm: array<nat>, a: nat, pj: nat, b: nat, ghost count: seq<nat>, ghost s: seq<nat>)
    requires lm[..] == s && lc != lm && lc.Length == lm.Length && Paired(count, lc[..], lm[..])
             && a <= pj < b <= lm.Length
    requires LowTo(count, s, a, pj) && HighFrom(count, s, a, pj + 1, b)
    modifies lc, lm
    ensures Paired(count, lc[..], lm[..]) && Shuffled(s, lm[..], a, b) && Split(count, lm[..], a, pj, b)
  {
    hide Le, Paired, Shuffled, LowTo, HighFrom, Split;
    Swap(lc, lm, a, pj, count, s, a, b);
    ghost var t := lm[..];
    InRange(count, lc[..], t, pj);
    Placed(count, s, t, a, pj, b);
  }

  /** Move a pivot to its final place, smaller symbols before it and larger ones after it. */
  method Partition(lc: array<nat>, lm: array<nat>, a: nat, n: nat, ghost count: seq<nat>,
                   ghost s0: seq<nat>) returns (pj: nat)
    requires lm[..] == s0 && lc != lm && lc.Length == lm.Length && Paired(count, lc[..], lm[..]) && 1 < n
             && a + n <= lm.Length
    modifies lc, lm
    ensures Paired(count, lc[..], lm[..]) && Shuffled(s0, lm[..], a, a + n)
    ensures a <= pj < a + n && Split(count, lm[..], a, pj, a + n)
  {
    hide Le, Paired, Shuffled, LowTo, HighFrom, Split;
    PivotFirst(lc, lm, a, n, count, s0);
    ghost var s1 := lm[..];
    pj := Exchange(lc, lm, a, a + n, count, s1);
    ghost var s2 := lm[..];
    PlacePivot(lc, lm, a, pj, a + n, count, s2);
    ghost var s3 := lm[..];
    ShuffledTrans(s0, s1, s2, a, a + n);
    ShuffledTrans(s0, s2, s3, a, a + n);
  }

  lemma InRange(count: seq<nat>, lc: seq<nat>, lm: seq<nat>, i: nat)
    requires Paired(count, lc, lm) && i < |lm|
    ensures Le(count, lm[i], lm[i])
  {
  }

  lemma Placed(count: seq<nat>, s: seq<nat>, t: seq<nat>, a: nat, pj: nat, pn: nat)
    requires a <= pj < pn <= |s| && t == s[a := s[pj]][pj := s[a]]
    requires LowTo(count, s, a, pj) && HighFrom(count, s, a, pj + 1, pn) && Le(count, t[pj], t[pj])
    ensures Split(count, t, a, pj, pn)
  {
    hide Le;
  }

  // ----- assembling the sorted range

  /** Of two positions in [a0, b0), not both in [a, b), the earlier holds the smaller symbol. */
  ghost predicate OrderedOutside(count: seq<nat>, s: seq<nat>, a0: nat, a: nat, b: nat, b0: nat)
  {
    && a0 <= a <= b <= b0 <= |s|
    && (forall i, k :: a0 <= i <= k < b0 && !(a <= i && k < b) ==> Le(count, s[i], s[k]))
  }

  /** A pivot at pj splits [a, b). */
  ghost predicate Split(count: seq<nat>, s: seq<nat>, a: nat, pj: nat, b: nat)
  {
    && a <= pj < b <= |s| && Le(count, s[pj], s[pj])
    && (forall i :: a <= i < pj ==> Le(count, s[i], s[pj]))
    && (forall i :: pj < i < b ==> Le(count, s[pj], s[i]))
  }

  lemma Origin(s: seq<nat>, t: seq<nat>, a: nat, b: nat, i: nat) returns (k: nat)
    requires Shuffled(s, t, a, b) && a <= i < b
    ensures a <= k < b && t[i] == s[k]
  {
    assert t[a..b][i - a] in multiset(t[a..b]);
    assert t[i] in multiset(s[a..b]);
    var x :| 0 <= x < b - a && s[a..b][x] == t[i];
    k := a + x;
  }

  lemma Unmoved(s: seq<nat>, t: seq<nat>, a: nat, b: nat, i: nat)
    requires Shuffled(s, t, a, b) && i < |s| && !(a <= i < b)
    ensures t[i] == s[i]
  {
    if i < a {
      assert t[i] == t[..a][i];
    } else {
      assert t[i] == t[b..][i - b];
    }
  }

  lemma OutsideShuffled(count: seq<nat>, s: seq<nat>, t: seq<nat>, a0: nat, a: nat, b: nat, b0: nat)
    requires OrderedOutside(count, s, a0, a, b, b0) && Shuffled(s, t, a, b)
    ensures OrderedOutside(count, t, a0, a, b, b0)
  {
    hide Le, Shuffled;
    ShuffledSize(s, t, a, b);
    forall i, k | a0 <= i <= k < b0 && !(a <= i && k < b)
      ensures Le(count, t[i], t[k])
    {
      var x, y := i, k;
      if a <= i < b {
        x := Origin(s, t, a, b, i);
      } else {
        Unmoved(s, t, a, b, i);
      }
      if a <= k < b {
        y := Origin(s, t, a, b, k);
      } else {
        Unmoved(s, t, a, b, k);
      }
    }
  }

  lemma ShuffledSize(s: seq<nat>, t: seq<nat>, a: nat, b: nat)
    requires Shuffled(s, t, a, b)
    ensures |s| == |t| && a <= b <= |s|
  {
  }

  /** Sorting one side of the pivot keeps the split. */
  lemma SplitShuffled(count: seq<nat>, s: seq<nat>, t: seq<nat>, a: nat, pj: nat, b: nat, c: nat, d: nat)
    requires Split(count, s, a, pj, b) && Shuffled(s, t, c, d)
    requires (c == a && d == pj) || (c == pj + 1 && d == b)
    ensures Split(count, t, a, pj, b)
  {
    hide Le, Shuffled;
    ShuffledSize(s, t, c, d);
    Unmoved(s, t, c, d, pj);
    forall i | a <= i < b && i != pj
      ensures i < pj ==> Le(count, t[i], t[pj])
      ensures pj < i ==> Le(count, t[pj], t[i])
    {
      if c <= i < d {
        var x := Origin(s, t, c, d, i);
      } else {
        Unmoved(s, t, c, d, i);
      }
    }
  }

  lemma LeTrans(count: seq<nat>, x: nat, y: nat, z: nat)
    requires Le(count, x, y) && Le(count, y, z)
    ensures Le(count, x, z)
  {
  }

  /** With one side of the pivot sorted, only the other side is left to do. */
  lemma Narrow(count: seq<nat>, s: seq<nat>, a0: nat, a: nat, pj: nat, b: nat, b0: nat, left: bool)
    requires OrderedOutside(count, s, a0, a, b, b0) && Split(count, s, a, pj, b)
    requires if left then Ordered(count, s[a..pj]) else Ordered(count, s[pj + 1..b])
    ensures if left then OrderedOutside(count, s, a0, pj + 1, b, b0) else OrderedOutside(count, s, a0, a, pj, b0)
  {
    hide Le;
    var c, d := if left then pj + 1 else a, if left then b else pj;
    forall i, k | a0 <= i <= k < b0 && !(c <= i && k < d)
      ensures Le(count, s[i], s[k])
    {
      if a <= i && k < b {
        if i <= pj <= k {
          LeTrans(count, s[i], s[pj], s[k]);
        } else if left {
          assert s[i] == s[a..pj][i - a] && s[k] == s[a..pj][k - a];
        } else {
          assert s[i] == s[pj + 1..b][i - pj - 1] && s[k] == s[pj + 1..b][k - pj - 1];
        }
      }
    }
  }

  /** One round: partition, then sort one side; what remains is the other side. */
  lemma Round(count: seq<nat>, s0: seq<nat>, s1: seq<nat>, s2: seq<nat>, a0: nat, a: nat, pj: nat, b: nat, b0: nat,
              left: bool)
    requires OrderedOutside(count, s0, a0, a, b, b0) && Shuffled(s0, s1, a, b) && Split(count, s1, a, pj, b)
    requires if left then Shuffled(s1, s2, a, pj) && Ordered(count, s2[a..pj])
             else Shuffled(s1, s2, pj + 1, b) && Ordered(count, s2[pj + 1..b])
    ensures Shuffled(s0, s2, a0, b0)
    ensures if left then OrderedOutside(count, s2, a0, pj + 1, b, b0) else OrderedOutside(count, s2, a0, a, pj, b0)
  {
    hide Le, Shuffled, Ordered;
    var c, d := if left then a else pj + 1, if left then pj else b;
    ShuffledSize(s0, s1, a, b);
    SplitShuffled(count, s1, s2, a, pj, b, c, d);
    ShuffledWiden(s1, s2, c, d, a, b);
    ShuffledTrans(s0, s1, s2, a, b);
    OutsideShuffled(count, s0, s2, a0, a, b, b0);
    Narrow(count, s2, a0, a, pj, b, b0, left);
    ShuffledWiden(s0, s2, a, b, a0, b0);
  }

  lemma RoundLeft(count: seq<nat>, start: seq<nat>, s0: seq<nat>, s1: seq<nat>, s2: seq<nat>, a0: nat, a: nat, j: nat,
                  b: nat, b0: nat)
    requires OrderedOutside(count, s0, a0, a, b, b0) && Shuffled(s0, s1, a, b) && Split(count, s1, a, a + j, b)
    requires Shuffled(s1, s2, a, a + j) && a + j <= |s2| && Ordered(count, s2[a..a + j]) && Shuffled(start, s0, a0, b0)
    ensures Shuffled(start, s2, a0, b0) && OrderedOutside(count, s2, a0, a + j + 1, b, b0)
  {
    hide Le, Shuffled, Ordered, Split, OrderedOutside;
    Round(count, s0, s1, s2, a0, a, a + j, b, b0, true);
    ShuffledTrans(start, s0, s2, a0, b0);
  }

  lemma RoundRight(count: seq<nat>, start: seq<nat>, s0: seq<nat>, s1: seq<nat>, s2: seq<nat>, a0: nat, a: nat, j: nat,
                   m: nat, b0: nat)
    requires OrderedOutside(count, s0, a0, a, a + j + 1 + m, b0) && Shuffled(s0, s1, a, a + j + 1 + m)
    requires Split(count, s1, a, a + j, a + j + 1 + m) && Shuffled(s1, s2, a + j + 1, a + j + 1 + m)
    requires a + j + 1 + m <= |s2| && Ordered(count, s2[a + j + 1..a + j + 1 + m]) && Shuffled(start, s0, a0, b0)
    ensures Shuffled(start, s2, a0, b0) && OrderedOutside(count, s2, a0, a, a + j, b0)
  {
    hide Le, Shuffled, Ordered, Split, OrderedOutside;
    Round(count, s0, s1, s2, a0, a, a + j, a + j + 1 + m, b0, false);
    ShuffledTrans(start, s0, s2, a0, b0);
  }

  lemma NothingDone(count: seq<nat>, s: seq<nat>, a: nat, b: nat)
    requires a <= b <= |s|
    ensures OrderedOutside(count, s, a, a, b, b) && Shuffled(s, s, a, b)
  {
  }

  lemma AllDone(count: seq<nat>, lc: seq<nat>, s: seq<nat>, a0: nat, a: nat, b: nat, b0: nat)
    requires OrderedOutside(count, s, a0, a, b, b0) && b - a <= 1 && Paired(count, lc, s)
    ensures Ordered(count, s[a0..b0])
  {
  }

  /** start names the contents on entry. */
  method LeafSort(lc: array<nat>, lm: array<nat>, a0: nat, n0: nat, ghost count: seq<nat>, ghost start: seq<nat>)
    requires lm[..] == start && lc != lm && lc.Length == lm.Length && Paired(count, lc[..], lm[..])
             && a0 + n0 <= lm.Length
    modifies lc, lm
    ensures Paired(count, lc[..], lm[..]) && Shuffled(start, lm[..], a0, a0 + n0)
    ensures Ordered(count, lm[..][a0..a0 + n0])
    decreases n0, 1
  {
    hide Le, Paired, Shuffled, Ordered, OrderedOutside;
    var a, n := a0, n0;
    ghost var b0 := a0 + n0;
    NothingDone(count, start, a0, b0);
    while n > 1
      invariant a0 <= a <= a + n <= b0 && n <= n0
      invariant Paired(count, lc[..], lm[..]) && Shuffled(start, lm[..], a0, b0)
      invariant OrderedOutside(count, lm[..], a0, a, a + n, b0)
      decreases n
    {
      a, n := SortRound(lc, lm, a, n, count, lm[..], start, a0, n0);
    }
    AllDone(count, lc[..], lm[..], a0, a, a + n, b0);
  }

  /** One turn of the loop: partition, sort one side by recursion, go on with the other. */
  method SortRound(lc: array<nat>, lm: array<nat>, a: nat, n: nat, ghost count: seq<nat>, ghost s0: seq<nat>,
                   ghost start: seq<nat>, ghost a0: nat, ghost n0: nat) returns (a': nat, n': nat)
    requires lm[..] == s0 && lc != lm && lc.Length == lm.Length && Paired(count, lc[..], s0)
    requires a0 <= a && 1 < n <= n0 && a + n <= a0 + n0 <= lm.Length
    requires Shuffled(start, s0, a0, a0 + n0) && OrderedOutside(count, s0, a0, a, a + n, a0 + n0)
    modifies lc, lm
    ensures a0 <= a' && n' < n && a' + n' <= a0 + n0
    ensures Paired(count, lc[..], lm[..]) && Shuffled(start, lm[..], a0, a0 + n0)
    ensures OrderedOutside(count, lm[..], a0, a', a' + n', a0 + n0)
    decreases n0, 0
  {
    hide Le, Paired, Shuffled, Ordered, OrderedOutside, Split;
    var pj := Partition(lc, lm, a, n, count, s0);
    ghost var s1 := lm[..];
    var j := pj - a;
    var m := n - j - 1;
    assert pj == a + j && a + n == a + j + 1 + m;
    if j >= m {
      LeafSort(lc, lm, a, j, count, s1);
      ghost var s2 := lm[..];
      RoundLeft(count, start, s0, s1, s2, a0, a, j, a + n, a0 + n0);
      a', n' := a + j + 1, m;
    } else {
      LeafSort(lc, lm, a + j + 1, m, count, s1);
      ghost var s2 := lm[..];
      RoundRight(count, start, s0, s1, s2, a0, a, j, m, a0 + n0);
      a', n' := a, j;
    }
  }
}
