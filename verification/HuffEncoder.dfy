/** The encoder's Huffman codes: lengths from counts, then codewords from lengths. */
module HuffEncoder {
  import opened Bits
  import opened RevTab
  import opened Canonical
  import opened DecodeTable
  import opened PackageMerge
  import opened CodeLengths
  import opened Chains
  import LS = LeafSort

  const MAX_HUFF_BITS := 16

  /** Length of a codeword, -1 for none while lengths are being chosen; the codeword as it is put. */
  datatype Entry = Entry(bits: int, encode: nat)

  function LensOf(tab: seq<Entry>): (l: Lens)
    ensures |l| == |tab| && forall i :: 0 <= i < |l| ==> l[i] == if tab[i].bits > 0 then tab[i].bits else 0
  {
    seq(|tab|, i requires 0 <= i < |tab| => if tab[i].bits > 0 then tab[i].bits else 0)
  }

  /** Clear the table and collect the symbols that occur. */
  method CollectLeaves(tab: array<Entry>, count: seq<nat>) returns (syms: seq<nat>)
    requires tab.Length == |count|
    modifies tab
    ensures forall i :: 0 <= i < tab.Length ==> tab[i] == Entry(-1, 0)
    ensures syms == UsedSyms(count, |count|)
  {
    syms := [];
    for i := 0 to |count|
      invariant forall k :: 0 <= k < i ==> tab[k] == Entry(-1, 0)
      invariant syms == UsedSyms(count, i)
    {
      tab[i] := Entry(-1, 0);
      if count[i] != 0 {
        syms := syms + [i];
      }
    }
  }

  /** The used symbols from rarest to most frequent. */
  method SortLeaves(count: seq<nat>, syms: seq<nat>) returns (idx: seq<nat>)
    requires syms == UsedSyms(count, |count|) && |syms| >= 2
    ensures multiset(idx) == multiset(syms) && |idx| == |syms|
    ensures (forall i :: 0 <= i < |idx| ==> idx[i] < |count| && count[idx[i]] > 0)
    ensures (forall i, k :: 0 <= i < k < |idx| ==> idx[i] != idx[k])
    ensures Sorted(Gather(count, idx))
  {
    var n := |syms|;
    var lc := new nat[n](i requires 0 <= i < n => count[syms[i]]);
    var lm := new nat[n](i requires 0 <= i < n => syms[i]);
    assert lm[..] == syms;
    LS.LeafSort(lc, lm, 0, n, count, syms);
    idx := lm[..];
    SortedLeaves(count, syms, idx);
  }

  lemma SortedLeaves(count: seq<nat>, syms: seq<nat>, idx: seq<nat>)
    requires syms == UsedSyms(count, |count|) && |syms| >= 2
    requires LS.Shuffled(syms, idx, 0, |syms|) && LS.Ordered(count, idx[0..|syms|])
    ensures multiset(idx) == multiset(syms) && |idx| == |syms|
    ensures (forall i :: 0 <= i < |idx| ==> idx[i] < |count| && count[idx[i]] > 0)
    ensures (forall i, k :: 0 <= i < k < |idx| ==> idx[i] != idx[k])
    ensures Sorted(Gather(count, idx))
  {
    hide UsedSyms;
    assert idx[0..|syms|] == idx && syms[0..|syms|] == syms;
    forall i | 0 <= i < |idx|
      ensures idx[i] < |count| && count[idx[i]] > 0
    {
      assert idx[i] in multiset(syms);
      assert idx[i] in syms;
    }
    forall i, k | 0 <= i < k < |idx|
      ensures idx[i] != idx[k]
    {
      if idx[i] == idx[k] {
        OnceEach(count, idx[i]);
        Twice(idx, i, k);
      }
    }
    forall i, k | 0 <= i <= k < |idx|
      ensures Gather(count, idx)[i] <= Gather(count, idx)[k]
    {
      assert LS.Le(count, idx[i], idx[k]);
    }
  }

  lemma OnceEach(count: seq<nat>, x: nat)
    ensures multiset(UsedSyms(count, |count|))[x] <= 1
  {
    UsedDistinct(count, |count|);
    DistinctOnce(UsedSyms(count, |count|), x);
  }

  lemma {:induction false} DistinctOnce(s: seq<nat>, x: nat)
    requires forall i, k :: 0 <= i < k < |s| ==> s[i] < s[k]
    ensures multiset(s)[x] <= 1
  {
    if s != [] {
      var n := |s| - 1;
      assert s == s[..n] + [s[n]];
      DistinctOnce(s[..n], x);
      if s[n] == x {
        assert x !in s[..n];
        assert multiset(s[..n])[x] == 0;
      }
    }
  }

  lemma Twice(s: seq<nat>, i: nat, k: nat)
    requires i < k < |s| && s[i] == s[k]
    ensures multiset(s)[s[i]] >= 2
  {
    assert s == s[..k] + [s[k]] + s[k + 1..];
    assert s[i] in multiset(s[..k]);
  }

  // ----- lengths from a chain

  /** bitcount for lengths 1 and up comes from successive tops; nothing is left without a length. */
  ghost predicate BitCounts(t: seq<nat>, bitcount: seq<nat>)
  {
    && |t| < |bitcount|
    && (forall b :: 0 < b < |t| ==> bitcount[b] + t[b] == t[b - 1])
    && (|t| > 0 ==> bitcount[|t|] == t[|t| - 1])
  }

  method CountBits(c: Chain, nleaf: nat, bitcount: array<nat>) returns (bits: nat)
    requires bitcount.Length == MAX_HUFF_BITS && c.Chain? && c.leaf == nleaf
    requires NonIncreasing(ChainTops(c)) && |ChainTops(c)| < MAX_HUFF_BITS
    modifies bitcount
    ensures bits == |ChainTops(c)| && bitcount[0] == 0 && BitCounts(ChainTops(c), bitcount[..])
  {
    ghost var t := ChainTops(c);
    bits := 0;
    bitcount[0] := nleaf;
    var cc := c;
    assert t[0..] == t;
    while cc != Nil
      invariant 0 <= bits <= |t| && ChainTops(cc) == t[bits..]
      invariant bitcount[bits] == if bits == 0 then nleaf else t[bits - 1]
      invariant bits > 0 ==> bitcount[0] == 0
      invariant forall b :: 0 < b < bits ==> bitcount[b] + t[b] == t[b - 1]
      decreases cc
    {
      var m := cc.leaf;
      assert m == t[bits..][0] == t[bits];
      bitcount[bits] := bitcount[bits] - m;
      bits := bits + 1;
      bitcount[bits] := m;
      assert t[bits..] == t[bits - 1..][1..];
      cc := cc.up;
    }
  }

  ghost predicate Assigned(tab: seq<Entry>, idx: seq<nat>, t: seq<nat>, m: nat)
  {
    && m <= |idx| && (forall s :: 0 <= s < |idx| ==> idx[s] < |tab|)
    && (forall s :: 0 <= s < m ==> tab[idx[s]].bits == Depth(t, s))
    && (forall i :: 0 <= i < |tab| && tab[i].bits != -1 ==> i in idx[..m])
  }

  /** Give the m lightest leaves the longest codewords. */
  method AssignBits(tab: array<Entry>, idx: seq<nat>, ghost t: seq<nat>, bits: nat, bitcount: array<nat>)
    requires bits == |t| > 0 && bitcount.Length == MAX_HUFF_BITS && BitCounts(t, bitcount[..]) && bitcount[0] == 0
    requires NonIncreasing(t) && t[0] == |idx| && Assigned(tab[..], idx, t, 0)
    requires forall i, k :: 0 <= i < k < |idx| ==> idx[i] != idx[k]
    modifies tab
    ensures Assigned(tab[..], idx, t, |idx|)
  {
    hide Depth;
    var m, i := 0, bits;
    while i > 0
      invariant 0 <= i <= bits && m == if i == bits then 0 else t[i]
      invariant Assigned(tab[..], idx, t, m)
    {
      var em := m + bitcount[i];
      assert em == t[i - 1] <= |idx|;
      while m < em
        invariant m <= em && (if i == bits then 0 else t[i]) <= m
        invariant Assigned(tab[..], idx, t, m)
      {
        DepthIs(t, m, i);
        tab[idx[m]] := Entry(i, 0);
        assert idx[..m + 1] == idx[..m] + [idx[m]];
        m := m + 1;
      }
      i := i - 1;
    }
  }

  lemma DepthIs(t: seq<nat>, s: nat, i: nat)
    requires NonIncreasing(t) && 0 < i <= |t| && s < t[i - 1] && (i < |t| ==> t[i] <= s)
    ensures Depth(t, s) == i
  {
    DepthNested(t, s, i - 1);
    if i < |t| {
      DepthNested(t, s, i);
    }
  }

  // ----- mkprecode

  /**
   Exactly the used symbols have codewords; they fill the code space; rarer ones are no shorter; no prefix
   code is cheaper.
   */
  ghost predicate BestCode(count: seq<nat>, l: Lens, top: nat, nbits: nat)
  {
    && |l| == |count| && 0 < nbits <= top
    && (forall i :: 0 <= i < |l| ==> if count[i] == 0 then l[i] == 0 else 0 < l[i] <= nbits)
    && End(l, nbits) == Pow2(nbits)
    && (forall i, k :: 0 <= i < |l| && 0 <= k < |l| && 0 < count[i] < count[k] ==> l[i] >= l[k])
    && (forall other :: PrefixCode(count, other, top) ==> SymCost(count, l, |l|) <= SymCost(count, other, |other|))
  }

  /** What mkprecode leaves behind, by the number of used symbols. */
  ghost predicate Precode(count: seq<nat>, tab: seq<Entry>, bitcount: seq<nat>, top: nat, nbits: nat)
  {
    var u := UsedSyms(count, |count|);
    && |tab| == |count| && |bitcount| == MAX_HUFF_BITS
    && (forall i :: 0 <= i < |tab| && count[i] == 0 ==> tab[i].bits == -1)
    && if |u| == 0 then nbits == 0 && bitcount[0] == 0
       else if |u| == 1 then nbits == 0 && bitcount[0] == 1 && tab[u[0]].bits == 0
       else BestCode(count, LensOf(tab), top, nbits) && bitcount[0] == 0 && nbits < MAX_HUFF_BITS
            && forall b :: 0 < b <= nbits ==> bitcount[b] == Count(LensOf(tab), b)
  }

  lemma Covers(count: seq<nat>, idx: seq<nat>, x: nat)
    requires x < |count| && count[x] > 0 && multiset(idx) == multiset(UsedSyms(count, |count|))
    ensures x in idx
  {
    UsedComplete(count, |count|, x);
    assert x in multiset(UsedSyms(count, |count|));
    assert x in multiset(idx);
  }

  /** Lengths of the used and unused symbols once all leaves are assigned. */
  lemma LengthsRead(count: seq<nat>, tab: seq<Entry>, idx: seq<nat>, t: seq<nat>)
    requires |tab| == |count| && multiset(idx) == multiset(UsedSyms(count, |count|))
    requires (forall i :: 0 <= i < |idx| ==> idx[i] < |count| && count[idx[i]] > 0)
    requires NonIncreasing(t) && t != [] && t[0] == |idx| && Assigned(tab, idx, t, |idx|)
    ensures forall i :: 0 <= i < |tab| ==> if count[i] == 0 then tab[i].bits == -1 else 0 < tab[i].bits <= |t|
    ensures forall s :: 0 <= s < |idx| ==> LensOf(tab)[idx[s]] == Depth(t, s)
  {
    hide UsedSyms, Depth;
    assert idx[..|idx|] == idx;
    forall s | 0 <= s < |idx|
      ensures 0 < Depth(t, s)
    {
      DepthNested(t, s, 0);
    }
    forall i | 0 <= i < |tab|
      ensures if count[i] == 0 then tab[i].bits == -1 else 0 < tab[i].bits <= |t|
    {
      if count[i] > 0 {
        Covers(count, idx, i);
        var s :| 0 <= s < |idx| && idx[s] == i;
      }
    }
  }

  lemma {:induction false} DepthMono(t: seq<nat>, r: nat, s: nat)
    requires r <= s
    ensures Depth(t, r) >= Depth(t, s)
  {
    if t != [] {
      DepthMono(t[1..], r, s);
    }
  }

  lemma RarerLonger(count: seq<nat>, l: Lens, idx: seq<nat>, t: seq<nat>, i: nat, k: nat)
    requires |l| == |count| && multiset(idx) == multiset(UsedSyms(count, |count|))
    requires (forall s :: 0 <= s < |idx| ==> idx[s] < |count|) && Sorted(Gather(count, idx))
    requires forall s :: 0 <= s < |idx| ==> l[idx[s]] == Depth(t, s)
    requires i < |l| && k < |l| && 0 < count[i] < count[k]
    ensures l[i] >= l[k]
  {
    hide UsedSyms, Depth;
    Covers(count, idx, i);
    Covers(count, idx, k);
    var r :| 0 <= r < |idx| && idx[r] == i;
    var s :| 0 <= s < |idx| && idx[s] == k;
    var w := Gather(count, idx);
    assert w[r] < w[s];
    DepthMono(t, r, s);
  }

  lemma MakesBestCode(count: seq<nat>, l: Lens, idx: seq<nat>, top: nat, t: seq<nat>)
    requires |l| == |count| && top > 0 && multiset(idx) == multiset(UsedSyms(count, |count|))
    requires (forall s :: 0 <= s < |idx| ==> idx[s] < |count|) && Sorted(Gather(count, idx))
             && 2 * |idx| - 2 <= N(|idx|, top - 1)
    requires t == Tops(Gather(count, idx), top - 1, 2 * |idx| - 2)
    requires forall i :: 0 <= i < |l| ==> if count[i] == 0 then l[i] == 0 else 0 < l[i] <= |t|
    requires forall s :: 0 <= s < |idx| ==> l[idx[s]] == Depth(t, s)
    ensures BestCode(count, l, top, |t|)
    ensures NonIncreasing(t) && |t| > 0 && t[0] == |idx|
    ensures forall b :: 0 < b <= |t| ==> Count(l, b) + (if b < |t| then t[b] else 0) == t[b - 1]
  {
    hide UsedSyms, Depth, N, Sorted, SymCost, Fits, End, Pow2, Tops, Count;
    var w := Gather(count, idx);
    var k := 2 * |idx| - 2;
    SortedSize(w);
    TopsFacts(w, top);
    forall b | 0 < b <= |t|
      ensures Count(l, b) + (if b < |t| then t[b] else 0) == t[b - 1]
    {
      CountFromTops(count, l, idx, t, b);
    }
    assert t[0..] == t;
    StartOpen(l);
    KraftAlong(w, top - 1, k, t, l, 0);
    forall i, j | 0 <= i < |l| && 0 <= j < |l| && 0 < count[i] < count[j]
      ensures l[i] >= l[j]
    {
      RarerLonger(count, l, idx, t, i, j);
    }
    assert LengthsOf(w, t, Gather(l, idx));
    forall other | PrefixCode(count, other, top)
      ensures SymCost(count, l, |l|) <= SymCost(count, other, |other|)
    {
      Optimal(count, idx, top, l, other);
    }
  }

  lemma StartOpen(l: Lens)
    ensures End(l, 0) == 0 && Pow2(0) == 1
  {
  }

  lemma TopsFacts(w: seq<nat>, top: nat)
    requires Sorted(w) && top > 0 && 2 * |w| - 2 <= N(|w|, top - 1)
    ensures var t := Tops(w, top - 1, 2 * |w| - 2);
            NonIncreasing(t) && 0 < |t| <= top && t[0] == |w|
  {
    hide N, A;
    SortedSize(w);
    TopsNonIncreasing(w, top - 1, 2 * |w| - 2);
    AllLeaves(w, top - 1);
  }

  /** Choose the code lengths for the given counts. */
  method MkPrecode(tab: array<Entry>, count: seq<nat>, maxbits: nat, bitcount: array<nat>) returns (nbits: nat)
    requires tab.Length == |count| && bitcount.Length == MAX_HUFF_BITS && 2 <= maxbits <= MAX_HUFF_BITS
    requires |UsedSyms(count, |count|)| <= Pow2(maxbits - 1)
    modifies tab, bitcount
    ensures Precode(count, tab[..], bitcount[..], maxbits - 1, nbits)
  {
    hide UsedSyms, BestCode, Pow2, Sorted;
    var syms := CollectLeaves(tab, count);
    if |syms| < 2 {
      if |syms| != 0 {
        tab[syms[0]] := Entry(0, 0);
        bitcount[0] := 1;
      } else {
        bitcount[0] := 0;
      }
      return 0;
    }
    var idx := SortLeaves(count, syms);
    nbits := MkLengths(tab, count, idx, maxbits - 1, bitcount);
  }

  lemma {:induction false} UsedFew(count: seq<nat>, n: nat)
    requires n <= |count|
    ensures |UsedSyms(count, n)| <= n
  {
    if n > 0 {
      UsedFew(count, n - 1);
    }
  }

  /** The package-merge part of mkprecode, on the sorted leaves. */
  method MkLengths(tab: array<Entry>, count: seq<nat>, idx: seq<nat>, top: nat,
                   bitcount: array<nat>) returns (nbits: nat)
    requires tab.Length == |count| && bitcount.Length == MAX_HUFF_BITS && 0 < top < MAX_HUFF_BITS && |idx| <= Pow2(top)
    requires (forall i :: 0 <= i < tab.Length ==> tab[i] == Entry(-1, 0))
    requires multiset(idx) == multiset(UsedSyms(count, |count|)) && |idx| == |UsedSyms(count, |count|)| >= 2
    requires (forall i :: 0 <= i < |idx| ==> idx[i] < |count| && count[idx[i]] > 0)
    requires (forall i, k :: 0 <= i < k < |idx| ==> idx[i] != idx[k])
    requires Sorted(Gather(count, idx))
    modifies tab, bitcount
    ensures Precode(count, tab[..], bitcount[..], top, nbits)
  {
    hide UsedSyms, BestCode, Sorted, IsChain, N, Tops, Depth, Pow2, NonIncreasing, Count;
    ghost var w := Gather(count, idx);
    var c := TopChain(Gather(count, idx), top);
    ghost var t := Tops(w, top - 1, 2 * |w| - 2);
    ChainIsTops(w, top - 1, 2 * |w| - 2, c);
    TopsFacts(w, top);
    TopLeaf(c);
    nbits := CountBits(c, |idx|, bitcount);
    AssignBits(tab, idx, t, nbits, bitcount);
    LengthsRead(count, tab[..], idx, t);
    MakesBestCode(count, LensOf(tab[..]), idx, top, t);
    CountsAgree(t, bitcount[..], LensOf(tab[..]));
  }

  lemma CountsAgree(t: seq<nat>, bitcount: seq<nat>, l: Lens)
    requires BitCounts(t, bitcount)
    requires forall b :: 0 < b <= |t| ==> Count(l, b) + (if b < |t| then t[b] else 0) == t[b - 1]
    ensures forall b :: 0 < b <= |t| ==> bitcount[b] == Count(l, b)
  {
    hide Count;
    forall b | 0 < b <= |t|
      ensures bitcount[b] == Count(l, b)
    {
      assert Count(l, b) + (if b < |t| then t[b] else 0) == t[b - 1];
    }
  }

  lemma TopLeaf(c: Chain)
    requires ChainTops(c) != []
    ensures c.Chain? && c.leaf == ChainTops(c)[0]
  {
  }

  // ----- codewords

  /** Each entry holds its symbol's canonical codeword, turned around for a low-bit-first writer. */
  ghost predicate EncTable(tab: seq<Entry>, l: Lens)
  {
    && |tab| == |l|
    && forall i :: 0 <= i < |l| ==> tab[i].bits == l[i] && (l[i] > 0 ==> tab[i].encode == FromBits(Codeword(l, i)))
  }

  ghost predicate EncUpTo(tab: seq<Entry>, l: Lens, n: nat)
  {
    && n <= |tab| == |l|
    && (forall i :: 0 <= i < |l| ==> tab[i].bits == l[i])
    && (forall i :: 0 <= i < n ==> l[i] > 0 ==> tab[i].encode == FromBits(Codeword(l, i)))
  }

  ghost predicate NextUp(l: Lens, n: nat, m: nat, nc: seq<nat>)
  {
    n <= |l| && m < |nc| && forall b :: 0 < b <= m ==> nc[b] == First(l, b) + Count(l[..n], b)
  }

  /** If every codeword stays within its length, no length is oversubscribed. */
  lemma {:induction false} FitsFromCodes(l: Lens, m: nat, b: nat)
    requires b <= m && forall s :: 0 <= s < |l| && l[s] > 0 ==> Code(l, s) < Pow2(l[s])
    ensures FitsAt(l, b)
  {
    if b > 0 {
      FitsFromCodes(l, m, b - 1);
      if Count(l, b) > 0 {
        var s := SymbolAtRank(l, b, Count(l, b) - 1);
      }
    }
  }

  method FirstCodes(ghost l: Lens, bitcount: array<nat>, nbits: nat) returns (nc: array<nat>)
    requires bitcount.Length == MAX_HUFF_BITS && nbits < MAX_HUFF_BITS && bitcount[0] == 0
    requires forall b :: 0 < b <= nbits ==> bitcount[b] == Count(l, b)
    ensures fresh(nc) && NextUp(l, 0, nbits, nc[..])
  {
    nc := new nat[MAX_HUFF_BITS];
    var code := 0;
    for b := 1 to nbits + 1
      invariant code == First(l, b - 1)
      invariant forall k :: 0 < k < b ==> nc[k] == First(l, k)
    {
      code := 2 * (code + bitcount[b - 1]);
      nc[b] := code;
    }
    assert l[..0] == [];
  }

  /** The codeword c of length b, moved to bit 15 and reversed; fails if it needs more than b bits. */
  method Encode(revtab: seq<byte>, c: nat, b: nat) returns (ok: bool, e: nat)
    requires IsRevTab(revtab) && 0 < b <= 16
    ensures ok <==> c < Pow2(b)
    ensures ok ==> e == FromBits(Msb(c, b))
  {
    e := 0;
    ok := Shl(c, 16 - b) < 65536;
    assert ok <==> c < Pow2(b) by {
      ShlPow2(b, 16 - b);
      Pow2Small();
      ShlMono(c, Pow2(b), 16 - b);
      ShlMono(Pow2(b), c, 16 - b);
    }
    if ok {
      RevCodeReverses(revtab, c, b);
      e := RevCode(revtab, c, b);
    }
  }

  method HuffTabInit(tab: array<Entry>, revtab: seq<byte>, ghost l: Lens, bitcount: array<nat>,
                     nbits: nat) returns (ok: bool)
    requires IsRevTab(revtab) && bitcount.Length == MAX_HUFF_BITS && nbits < MAX_HUFF_BITS && bitcount[0] == 0
    requires EncUpTo(tab[..], l, 0) && forall i :: 0 <= i < |l| ==> l[i] <= nbits
    requires forall b :: 0 < b <= nbits ==> bitcount[b] == Count(l, b)
    modifies tab
    ensures ok <==> Fits(l, nbits)
    ensures ok ==> EncTable(tab[..], l)
  {
    hide First, Count, Pow2, Msb, FromBits, IsRevTab;
    var nc := FirstCodes(l, bitcount, nbits);
    for i := 0 to tab.Length
      invariant NextUp(l, i, nbits, nc[..]) && EncUpTo(tab[..], l, i)
      invariant forall s :: 0 <= s < i && l[s] > 0 ==> Code(l, s) < Pow2(l[s])
    {
      var b := tab[i].bits;
      assert b == tab[..][i].bits == l[i];
      NextUpStep(l, i, nbits, nc[..]);
      if b != 0 {
        var c := nc[b];
        nc[b] := c + 1;
        var e;
        ok, e := Encode(revtab, c, b);
        if !ok {
          TooLong(l, nbits, i);
          return;
        }
        tab[i] := Entry(b, e);
      }
    }
    forall b | 0 <= b <= nbits
      ensures FitsAt(l, b)
    {
      FitsFromCodes(l, nbits, b);
    }
    ok := true;
  }

  lemma TooLong(l: Lens, m: nat, s: nat)
    requires s < |l| && l[s] > 0 && Code(l, s) >= Pow2(l[s])
    ensures !Fits(l, m)
  {
    if Fits(l, m) {
      CodeFits(l, m, s);
    }
  }

  lemma NextUpStep(l: Lens, i: nat, m: nat, nc: seq<nat>)
    requires NextUp(l, i, m, nc) && i < |l| && l[i] <= m
    ensures l[i] > 0 ==> nc[l[i]] == Code(l, i) && NextUp(l, i + 1, m, nc[l[i] := nc[l[i]] + 1])
    ensures l[i] == 0 ==> NextUp(l, i + 1, m, nc)
  {
    assert l[..i + 1][..i] == l[..i];
  }

  // ----- mkgzprecode

  /**
   A usable code for the counts: every symbol that occurs has a codeword, and the code is best when two or
   more occur.
   */
  ghost predicate GzCode(count: seq<nat>, l: Lens, top: nat)
  {
    && |l| == |count| && Fits(l, top)
    && (forall i :: 0 <= i < |l| && count[i] > 0 ==> l[i] > 0)
    && (|UsedSyms(count, |count|)| >= 2 ==> exists nbits :: BestCode(count, l, top, nbits))
    && (|UsedSyms(count, |count|)| < 2 ==> forall i :: 0 <= i < |l| ==> l[i] <= 1)
  }

  /** The only symbol, or symbol 0 when none occurs. */
  ghost function Lone(count: seq<nat>): nat
  {
    var u := UsedSyms(count, |count|);
    if |u| == 1 then u[0] else 0
  }

  lemma PrecodeCases(count: seq<nat>, tab: seq<Entry>, bitcount: seq<nat>, top: nat, nbits: nat)
    requires Precode(count, tab, bitcount, top, nbits)
    ensures var n := |UsedSyms(count, |count|)|;
            && (forall k :: 0 <= k < |tab| ==> tab[k].bits >= -1 && (tab[k].bits == 0 <==> n == 1 && k == Lone(count)))
            && (n == 1 ==> Lone(count) < |tab| && nbits == 0 && bitcount[0] == 1)
            && (n != 1 ==> bitcount[0] == 0)
            && (n == 0 <==> nbits == 0 && n != 1)
            && (n < 2 ==> forall k :: 0 <= k < |tab| ==> tab[k].bits <= 0)
  {
    var u := UsedSyms(count, |count|);
    forall k | 0 <= k < |tab|
      ensures tab[k].bits >= -1 && (tab[k].bits == 0 <==> |u| == 1 && k == Lone(count))
              && (|u| < 2 ==> tab[k].bits <= 0)
    {
      if count[k] > 0 {
        UsedComplete(count, |count|, k);
        if |u| >= 2 {
          assert 0 < LensOf(tab)[k];
        }
      }
    }
  }

  lemma {:induction false} OneCount(l: Lens, x: nat)
    requires x < |l| && l[x] == 1 && forall i :: 0 <= i < |l| && i != x ==> l[i] == 0
    ensures Count(l, 1) == 1
  {
    var n := |l| - 1;
    if x == n {
      CountNone(l[..n], 1);
    } else {
      OneCount(l[..n], x);
    }
  }

  lemma OneFits(l: Lens, x: nat)
    requires x < |l| && l[x] == 1 && forall i :: 0 <= i < |l| && i != x ==> l[i] == 0
    ensures Count(l, 1) == 1 && Fits(l, 1)
  {
    OneCount(l, x);
    assert FitsAt(l, 0) && FitsAt(l, 1);
  }

  /** The state after the loop of mkgzprecode over the first i symbols. */
  ghost predicate Repairing(count: seq<nat>, tab0: seq<Entry>, bc0: seq<nat>, nbits0: nat,
                            tab: seq<Entry>, bc: seq<nat>, nbits: nat, i: nat)
  {
    var lone := |UsedSyms(count, |count|)| == 1;
    && |tab| == |tab0| && |bc| == |bc0| == MAX_HUFF_BITS
    && (if lone && Lone(count) < i then nbits == 1 && bc[0] == 0 && bc[1] == 1 else nbits == nbits0 && bc == bc0)
    && (forall k :: 0 <= k < |tab| ==>
          tab[k].bits == if k >= i then tab0[k].bits
                         else if tab0[k].bits == -1 then 0 else if tab0[k].bits == 0 then 1 else tab0[k].bits)
  }

  method RepairLoop(tab: array<Entry>, ghost count: seq<nat>, ghost top: nat, bitcount: array<nat>, nbits0: nat,
                    ghost tab0: seq<Entry>, ghost bc0: seq<nat>) returns (ok: bool, nbits: nat)
    requires tab[..] == tab0 && bitcount[..] == bc0 && Precode(count, tab0, bc0, top, nbits0)
    modifies tab, bitcount
    ensures ok && Repairing(count, tab0, bc0, nbits0, tab[..], bitcount[..], nbits, |tab0|)
  {
    hide UsedSyms, Precode, Lone;
    nbits := nbits0;
    PrecodeCases(count, tab0, bc0, top, nbits0);
    PrecodeSize(count, tab0, bc0, top, nbits0);
    for i := 0 to tab.Length
      invariant Repairing(count, tab0, bc0, nbits0, tab[..], bitcount[..], nbits, i)
    {
      assert tab[i] == tab[..][i];
      if tab[i].bits == -1 {
        tab[i] := Entry(0, tab[i].encode);
      } else if tab[i].bits == 0 {
        assert bitcount[..] == bc0;
        if nbits != 0 || bitcount[0] != 1 {
          return false, nbits;
        }
        bitcount[1] := 1;
        bitcount[0] := 0;
        nbits := 1;
        tab[i] := Entry(1, tab[i].encode);
      }
    }
    ok := true;
  }

  lemma PrecodeSize(count: seq<nat>, tab: seq<Entry>, bitcount: seq<nat>, top: nat, nbits: nat)
    requires Precode(count, tab, bitcount, top, nbits)
    ensures |tab| == |count| && |bitcount| == MAX_HUFF_BITS
  {
  }

  /** Lengths and counts after the repairs, whatever the number of used symbols. */
  ghost predicate RepairedCode(count: seq<nat>, tab: seq<Entry>, bitcount: seq<nat>, top: nat, nbits: nat)
  {
    && 0 < nbits < MAX_HUFF_BITS == |bitcount| && nbits <= top && bitcount[0] == 0
    && GzCode(count, LensOf(tab), top) && EncUpTo(tab, LensOf(tab), 0) && Fits(LensOf(tab), nbits)
    && forall b :: 0 < b <= nbits ==> bitcount[b] == Count(LensOf(tab), b)
  }

  lemma RepairedMany(count: seq<nat>, tab0: seq<Entry>, bc0: seq<nat>, top: nat, nbits: nat, tab: seq<Entry>,
                     bc: seq<nat>)
    requires Precode(count, tab0, bc0, top, nbits) && |UsedSyms(count, |count|)| >= 2
    requires Repairing(count, tab0, bc0, nbits, tab, bc, nbits, |tab0|)
    ensures RepairedCode(count, tab, bc, top, nbits)
  {
    hide UsedSyms, Count, End, Pow2;
    PrecodeCases(count, tab0, bc0, top, nbits);
    var l := LensOf(tab);
    assert l == LensOf(tab0);
    FullFits(l, nbits);
    FitsAbove(l, nbits, top);
    assert BestCode(count, l, top, nbits);
  }

  lemma RepairedFew(count: seq<nat>, tab: seq<Entry>, bc: seq<nat>, top: nat)
    requires |tab| == |count| && |UsedSyms(count, |count|)| < 2 && Lone(count) < |tab| && 0 < top
    requires |bc| == MAX_HUFF_BITS && bc[0] == 0 && bc[1] == 1
    requires forall k :: 0 <= k < |tab| ==> tab[k].bits == if k == Lone(count) then 1 else 0
    ensures RepairedCode(count, tab, bc, top, 1)
  {
    var l := LensOf(tab);
    OneFits(l, Lone(count));
    FitsAbove(l, 1, top);
    forall i | 0 <= i < |l| && count[i] > 0
      ensures l[i] > 0
    {
      UsedComplete(count, |count|, i);
    }
  }

  /** Turn the lengths mkprecode left into a usable code even for fewer than two symbols. */
  method Repair(tab: array<Entry>, ghost count: seq<nat>, ghost top: nat, bitcount: array<nat>, nbits0: nat)
    returns (ok: bool, nbits: nat)
    requires tab.Length > 0 && bitcount.Length == MAX_HUFF_BITS && 0 < top
    requires Precode(count, tab[..], bitcount[..], top, nbits0)
    modifies tab, bitcount
    ensures ok && RepairedCode(count, tab[..], bitcount[..], top, nbits)
  {
    hide UsedSyms, Precode, Lone, RepairedCode;
    ghost var tab0, bc0 := tab[..], bitcount[..];
    PrecodeCases(count, tab0, bc0, top, nbits0);
    PrecodeSize(count, tab0, bc0, top, nbits0);
    ok, nbits := RepairLoop(tab, count, top, bitcount, nbits0, tab0, bc0);
    assert bitcount[0] == bitcount[..][0];
    if bitcount[0] != 0 {
      return false, nbits;
    }
    if |UsedSyms(count, |count|)| >= 2 {
      RepairedMany(count, tab0, bc0, top, nbits0, tab[..], bitcount[..]);
    }
    if nbits == 0 {
      LoneZero(count);
      bitcount[1] := 1;
      nbits := 1;
      tab[0] := Entry(1, tab[0].encode);
    }
    if |UsedSyms(count, |count|)| < 2 {
      RepairedFew(count, tab[..], bitcount[..], top);
    }
  }

  lemma LoneZero(count: seq<nat>)
    ensures |UsedSyms(count, |count|)| == 0 ==> Lone(count) == 0
  {
  }

  /** Codes for the given counts: always succeeds, with an optimal code whenever two or more symbols occur. */
  method MkGzPrecode(tab: array<Entry>, revtab: seq<byte>, count: seq<nat>, maxbits: nat) returns (ok: bool)
    requires IsRevTab(revtab) && tab.Length == |count| > 0 && 2 <= maxbits <= MAX_HUFF_BITS
    requires |UsedSyms(count, |count|)| <= Pow2(maxbits - 1)
    modifies tab
    ensures ok && GzCode(count, LensOf(tab[..]), maxbits - 1) && EncTable(tab[..], LensOf(tab[..]))
  {
    hide Precode, GzCode, Fits, Pow2, IsRevTab, EncUpTo;
    var bitcount := new nat[MAX_HUFF_BITS];
    var nbits := MkPrecode(tab, count, maxbits, bitcount);
    ok, nbits := Repair(tab, count, maxbits - 1, bitcount, nbits);
    ghost var l := LensOf(tab[..]);
    FitsSmall(l, nbits);
    ok := HuffTabInit(tab, revtab, l, bitcount, nbits);
    SameLens(tab[..], l);
  }

  lemma FitsSmall(l: Lens, m: nat)
    requires Fits(l, m)
    ensures forall i :: 0 <= i < |l| ==> l[i] <= m
  {
  }

  lemma SameLens(tab: seq<Entry>, l: Lens)
    requires EncTable(tab, l)
    ensures LensOf(tab) == l
  {
  }
}
