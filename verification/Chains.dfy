/** Boundary package-merge: the lazy generation of the lists by `nextchain`. */
module Chains {
  import opened Bits
  import opened PackageMerge

  /** An item of a list together with the items of the lists below that it stands for. */
  datatype Chain = Nil | Chain(count: nat, leaf: nat, up: Chain)

  /** c is the chain of the k-th item (counted from 1) of list j. */
  ghost predicate IsChain(w: seq<nat>, j: nat, k: nat, c: Chain)
    decreases j
  {
    && 0 < k <= N(|w|, j) && c.Chain? && c.leaf == A(w, j, k) && c.count == W(w, j, k - 1)
    && if Q(w, j, k) == 0 then c.up == Nil else j > 0 && IsChain(w, j - 1, 2 * Q(w, j, k), c.up)
  }

  ghost predicate At(w: seq<nat>, j: nat, k: nat, c: Chain)
  {
    if k <= N(|w|, j) then IsChain(w, j, k, c) else c == Nil
  }

  /** Leaves taken at each level along a chain. */
  function ChainTops(c: Chain): seq<nat>
  {
    if c == Nil then [] else [c.leaf] + ChainTops(c.up)
  }

  lemma {:induction false} ChainIsTops(w: seq<nat>, j: nat, k: nat, c: Chain)
    requires IsChain(w, j, k, c)
    ensures ChainTops(c) == Tops(w, j, k)
    decreases j
  {
    hide A, W, N;
    if Q(w, j, k) > 0 {
      ChainIsTops(w, j - 1, 2 * Q(w, j, k), c.up);
    }
  }

  /** What one level's pair of list slots holds once ks[j] items have been generated. */
  ghost predicate Level(w: seq<nat>, lists: seq<Chain>, ks: seq<nat>, j: nat)
    requires j < |ks| && 2 * j + 1 < |lists|
  {
    ks[j] >= 2 && At(w, j, ks[j] - 1, lists[2 * j]) && At(w, j, ks[j], lists[2 * j + 1])
  }

  /** How far the list below has been generated: past the next package, or up to the last one if `gen` is set. */
  ghost predicate Linked(w: seq<nat>, gen: bool, ks: seq<nat>, j: nat)
    requires j < |ks|
  {
    && (j == 0 ==> !gen)
    && (j > 0 && ks[j] <= N(|w|, j) ==> ks[j - 1] == 2 * Q(w, j, ks[j]) + if gen then 0 else 2)
  }

  ghost predicate Inv(w: seq<nat>, lists: seq<Chain>, gen: seq<bool>, ks: seq<nat>, n: nat)
  {
    && n <= |ks| == |gen| && |lists| == 2 * |ks|
    && (forall j :: 0 <= j < n ==> Level(w, lists, ks, j))
    && (forall j :: 0 <= j < n ==> Linked(w, gen[j], ks, j))
  }

  lemma {:induction false} FirstTwo(w: seq<nat>, j: nat)
    requires Sorted(w)
    ensures A(w, j, 1) == 1 && A(w, j, 2) == 2 && W(w, j, 0) == w[0] && W(w, j, 1) == w[1]
    decreases j
  {
    if j > 0 {
      FirstTwo(w, j - 1);
    }
    assert !Package(w, j, 0, 0);
    assert A(w, j, 0) == 0;
    assert A(w, j, 1) == 1;
    assert !Package(w, j, 1, 0);
  }

  // ----- the three ways of extending a list

  lemma NextPackage(w: seq<nat>, j: nat, k: nat, oc: Chain, lo: Chain, hi: Chain)
    requires Sorted(w) && j > 0 && IsChain(w, j, k, oc)
    requires At(w, j - 1, 2 * Q(w, j, k) + 1, lo) && IsChain(w, j - 1, 2 * Q(w, j, k) + 2, hi)
    requires lo.Chain? && (oc.leaf >= |w| || w[oc.leaf] > lo.count + hi.count)
    ensures k + 1 <= N(|w|, j) && Q(w, j, k + 1) == Q(w, j, k) + 1
    ensures IsChain(w, j, k + 1, Chain(lo.count + hi.count, oc.leaf, hi))
  {
    hide N, W;
    Counts(w, j, k);
    assert HasPackage(|w|, j, Q(w, j, k));
    assert PW(w, j, Q(w, j, k)) == lo.count + hi.count;
    assert Package(w, j, A(w, j, k), Q(w, j, k));
    ItemRoom(w, j, k);
    PackageItem(w, j, k);
  }

  lemma ItemRoom(w: seq<nat>, j: nat, k: nat)
    requires k <= N(|w|, j)
    requires A(w, j, k) < |w| || HasPackage(|w|, j, Q(w, j, k))
    ensures k + 1 <= N(|w|, j)
  {
    hide A, W, PW;
    Counts(w, j, k);
  }

  lemma PackageItem(w: seq<nat>, j: nat, k: nat)
    requires Package(w, j, A(w, j, k), Q(w, j, k))
    ensures W(w, j, k) == PW(w, j, Q(w, j, k)) && A(w, j, k + 1) == A(w, j, k)
  {
    hide PW, N;
  }

  lemma LeafItem(w: seq<nat>, j: nat, k: nat)
    requires !Package(w, j, A(w, j, k), Q(w, j, k)) && A(w, j, k) < |w|
    ensures W(w, j, k) == w[A(w, j, k)] && A(w, j, k + 1) == A(w, j, k) + 1
  {
    hide PW, N;
  }

  lemma NextLeaf(w: seq<nat>, j: nat, k: nat, oc: Chain)
    requires Sorted(w) && IsChain(w, j, k, oc) && oc.leaf < |w| && !Package(w, j, A(w, j, k), Q(w, j, k))
    ensures k + 1 <= N(|w|, j) && Q(w, j, k + 1) == Q(w, j, k)
    ensures IsChain(w, j, k + 1, Chain(w[oc.leaf], oc.leaf + 1, oc.up))
  {
    hide N, W, Package;
    ItemRoom(w, j, k);
    LeafItem(w, j, k);
  }

  lemma NoItem(w: seq<nat>, j: nat, k: nat, oc: Chain)
    requires Sorted(w) && IsChain(w, j, k, oc) && oc.leaf >= |w| && !HasPackage(|w|, j, Q(w, j, k))
    ensures k + 1 > N(|w|, j)
  {
    hide A, W, PW;
    Counts(w, j, k);
  }

  /** The levels below j are untouched by changes at or above slot 2j. */
  lemma InvFrame(w: seq<nat>, lists: seq<Chain>, gen: seq<bool>, ks: seq<nat>, j: nat,
                 lists': seq<Chain>, gen': seq<bool>, ks': seq<nat>)
    requires Inv(w, lists, gen, ks, j) && |lists'| == |lists| && |gen'| == |gen| && |ks'| == |ks|
    requires lists'[..2 * j] == lists[..2 * j] && gen'[..j] == gen[..j] && ks'[..j] == ks[..j]
    ensures Inv(w, lists', gen', ks', j)
  {
    hide At, N, Q;
    forall i | 0 <= i < j
      ensures Level(w, lists', ks', i) && Linked(w, gen'[i], ks', i)
    {
      assert Level(w, lists, ks, i) && Linked(w, gen[i], ks, i);
      assert lists'[2 * i] == lists'[..2 * j][2 * i] && lists'[2 * i + 1] == lists'[..2 * j][2 * i + 1];
      assert ks'[i] == ks'[..j][i] && gen'[i] == gen'[..j][i];
      assert i > 0 ==> ks'[i - 1] == ks'[..j][i - 1];
    }
  }

  /** Put the cheaper of the next package and the next leaf, if any, at the end of list j. */
  method AddItem(lists: array<Chain>, gen: array<bool>, w: seq<nat>, j: nat, oc: Chain, ghost ks: seq<nat>)
    requires Sorted(w) && j < gen.Length == |ks| && lists.Length == 2 * gen.Length
    requires Inv(w, lists[..], gen[..], ks, j) && !gen[j] && ks[j] >= 2
    requires lists[2 * j] == oc && IsChain(w, j, ks[j], oc)
    requires j > 0 ==> ks[j - 1] == 2 * Q(w, j, ks[j]) + 2
    modifies lists, gen
    ensures Inv(w, lists[..], gen[..], ks[j := ks[j] + 1], j + 1)
    ensures lists[2 * j + 2..] == old(lists[2 * j + 2..]) && gen[j + 1..] == old(gen[j + 1..])
    ensures forall i :: 0 <= i < lists.Length && i != 2 * j + 1 ==> lists[i] == old(lists[i])
  {
    hide A, W, N, Sorted, PW, Q;
    ghost var k := ks[j];
    var nleaf, sumc := oc.leaf, 0;
    if j > 0 && lists[2 * j - 1].Chain? {
      assert Level(w, lists[..], ks, j - 1);
      sumc := lists[2 * j - 2].count + lists[2 * j - 1].count;
      PackageWeight(w, j, k, lists[2 * j - 2], lists[2 * j - 1]);
    } else {
      if j > 0 {
        assert Level(w, lists[..], ks, j - 1);
      }
      NoPackage(w, j, k);
    }
    if sumc != 0 && (nleaf >= |w| || w[nleaf] > sumc) {
      NextPackage(w, j, k, oc, lists[2 * j - 2], lists[2 * j - 1]);
      lists[2 * j + 1] := Chain(sumc, oc.leaf, lists[2 * j - 1]);
      gen[j] := true;
    } else if nleaf >= |w| {
      NoItem(w, j, k, oc);
      lists[2 * j + 1] := Nil;
    } else {
      NextLeaf(w, j, k, oc);
      lists[2 * j + 1] := Chain(w[nleaf], nleaf + 1, oc.up);
    }
    ghost var ks' := ks[j := k + 1];
    InvFrame(w, old(lists[..]), old(gen[..]), ks, j, lists[..], gen[..], ks');
    assert Level(w, lists[..], ks', j);
    assert Linked(w, gen[..][j], ks', j);
  }

  /** Take a chain from the pool, of which less than the whole is in use, and extend list j. */
  method ExtendList(lists: array<Chain>, gen: array<bool>, w: seq<nat>, j: nat, oc: Chain, ghost ks: seq<nat>)
    requires Sorted(w) && j < gen.Length == |ks| && lists.Length == 2 * gen.Length
    requires Inv(w, lists[..], gen[..], ks, j) && !gen[j] && ks[j] >= 2
    requires lists[2 * j] == oc && IsChain(w, j, ks[j], oc)
    requires j > 0 ==> ks[j - 1] == 2 * Q(w, j, ks[j]) + 2
    requires gen.Length <= MAX_LEVELS && AllSlots(w, lists[..])
    modifies lists, gen
    ensures Inv(w, lists[..], gen[..], ks[j := ks[j] + 1], j + 1) && AllSlots(w, lists[..])
    ensures lists[2 * j + 2..] == old(lists[2 * j + 2..]) && gen[j + 1..] == old(gen[j + 1..])
  {
    hide A, W, N, Sorted, PW, Q, AllSlots, InUse, IsChain, At;
    ghost var k, was := ks[j], lists[..];
    PoolSuffices(w, lists[..], lists.Length);
    assert InUse(lists[..], lists.Length) < CHAIN_MEM;
    AddItem(lists, gen, w, j, oc, ks);
    assert Level(w, lists[..], ks[j := k + 1], j);
    SlotSet(w, was, 2 * j + 1, k + 1, lists[..]);
  }

  lemma PackageWeight(w: seq<nat>, j: nat, k: nat, lo: Chain, hi: Chain)
    requires Sorted(w) && j > 0 && k <= N(|w|, j)
    requires At(w, j - 1, 2 * Q(w, j, k) + 1, lo) && At(w, j - 1, 2 * Q(w, j, k) + 2, hi) && hi.Chain?
    ensures lo.Chain? && HasPackage(|w|, j, Q(w, j, k)) && PW(w, j, Q(w, j, k)) == lo.count + hi.count > 0
    ensures IsChain(w, j - 1, 2 * Q(w, j, k) + 2, hi)
  {
    hide A, N;
    Positive(w, j - 1, 2 * Q(w, j, k));
  }

  lemma NoPackage(w: seq<nat>, j: nat, k: nat)
    requires j > 0 ==> At(w, j - 1, 2 * Q(w, j, k) + 2, Nil)
    ensures !HasPackage(|w|, j, Q(w, j, k))
  {
    hide A, N, W;
  }

  /** Generate the next item of list j, first generating what it needs from the lists below. */
  method NextChain(lists: array<Chain>, gen: array<bool>, w: seq<nat>, j: nat,
                   ghost ks: seq<nat>) returns (ghost ks': seq<nat>)
    requires Sorted(w) && j < gen.Length == |ks| && lists.Length == 2 * gen.Length
    requires Inv(w, lists[..], gen[..], ks, j + 1) && gen.Length <= MAX_LEVELS && AllSlots(w, lists[..])
    modifies lists, gen
    ensures |ks'| == |ks| && Inv(w, lists[..], gen[..], ks', j + 1) && AllSlots(w, lists[..])
    ensures ks'[j] == ks[j] + 1 && ks'[j + 1..] == ks[j + 1..]
    ensures lists[2 * j + 2..] == old(lists[2 * j + 2..]) && gen[j + 1..] == old(gen[j + 1..])
    decreases j
  {
    hide A, W, N, Sorted, PW, Q, IsChain, AllSlots;
    var oc := lists[2 * j + 1];
    ghost var k, was := ks[j], lists[..];
    assert Level(w, lists[..], ks, j) && Linked(w, gen[..][j], ks, j);
    lists[2 * j] := oc;
    SlotSet(w, was, 2 * j, k, lists[..]);
    InvPrefix(w, old(lists[..]), gen[..], ks, j);
    InvFrame(w, old(lists[..]), gen[..], ks, j, lists[..], gen[..], ks);
    if oc == Nil {
      ks' := ks[j := k + 1];
      Exhausted(w, j, k, oc);
      InvFrame(w, lists[..], gen[..], ks, j, lists[..], gen[..], ks');
      assert Level(w, lists[..], ks', j) && Linked(w, gen[..][j], ks', j);
      return;
    }
    Found(w, j, k, oc);
    ks' := ks;
    ghost var l0, g0 := lists[..], gen[..];
    if gen[j] {
      ks' := NextChain(lists, gen, w, j - 1, ks');
      ks' := NextChain(lists, gen, w, j - 1, ks');
      assert lists[2 * j] == lists[2 * j..][0] == l0[2 * j..][0] && ks'[j] == ks'[j..][0] == ks[j..][0];
      assert lists[2 * j + 2..] == lists[2 * j..][2..] == l0[2 * j..][2..];
      assert gen[j + 1..] == gen[j..][1..] == g0[j..][1..];
      ghost var g := gen[..];
      gen[j] := false;
      InvFrame(w, lists[..], g, ks', j, lists[..], gen[..], ks');
      assert gen[j + 1..] == g[j + 1..];
    }
    assert lists[2 * j + 2..] == l0[2 * j + 2..] == old(lists[2 * j + 2..]) && gen[j + 1..] == g0[j + 1..];
    assert ks'[j + 1..] == ks'[j..][1..] == ks[j..][1..] == ks[j + 1..];
    ExtendList(lists, gen, w, j, oc, ks');
    ks' := ks'[j := k + 1];
  }

  lemma InvPrefix(w: seq<nat>, lists: seq<Chain>, gen: seq<bool>, ks: seq<nat>, j: nat)
    requires Inv(w, lists, gen, ks, j + 1)
    ensures Inv(w, lists, gen, ks, j)
  {
  }

  lemma Exhausted(w: seq<nat>, j: nat, k: nat, c: Chain)
    requires At(w, j, k, c) && c == Nil
    ensures k > N(|w|, j) && At(w, j, k + 1, c)
  {
  }

  lemma Found(w: seq<nat>, j: nat, k: nat, c: Chain)
    requires At(w, j, k, c) && c != Nil
    ensures k <= N(|w|, j) && IsChain(w, j, k, c)
  {
  }

  /** Generate 2m-2 items of the top list; the last one's chain is the whole choice. */
  method TopChain(w: seq<nat>, top: nat) returns (c: Chain)
    requires Sorted(w) && 0 < top <= MAX_LEVELS && |w| <= Pow2(top)
    ensures 2 * |w| - 2 <= N(|w|, top - 1)
    ensures IsChain(w, top - 1, 2 * |w| - 2, c)
  {
    hide Inv, N, Sorted, IsChain, Pow2, AllSlots;
    var lists, gen;
    ghost var ks;
    lists, gen, ks := InitLists(w, top);
    SortedSize(w);
    var m := 2 * |w| - 2;
    for i := 2 to m
      invariant |ks| == top && ks[top - 1] == i
      invariant Inv(w, lists[..], gen[..], ks, top) && AllSlots(w, lists[..])
    {
      ks := NextChain(lists, gen, w, top - 1, ks);
    }
    c := lists[2 * top - 1];
    LastSlot(w, lists[..], gen[..], ks, top);
    EnoughTop(|w|, top);
    Present(w, top - 1, m, c);
  }

  lemma LastSlot(w: seq<nat>, lists: seq<Chain>, gen: seq<bool>, ks: seq<nat>, top: nat)
    requires top > 0 && |lists| == 2 * top && |ks| == top && Inv(w, lists, gen, ks, top)
    ensures At(w, top - 1, ks[top - 1], lists[2 * top - 1])
  {
    hide At;
    assert Level(w, lists, ks, top - 1);
  }

  /** Every list starts with the two lightest leaves. */
  method InitLists(w: seq<nat>, top: nat) returns (lists: array<Chain>, gen: array<bool>, ghost ks: seq<nat>)
    requires Sorted(w)
    ensures fresh(lists) && fresh(gen) && lists.Length == 2 * top && gen.Length == |ks| == top
    ensures (forall j :: 0 <= j < top ==> ks[j] == 2) && Inv(w, lists[..], gen[..], ks, top) && AllSlots(w, lists[..])
  {
    hide Inv, N;
    var c0, c1 := Chain(w[0], 1, Nil), Chain(w[1], 2, Nil);
    lists := new Chain[2 * top](i => if i % 2 == 0 then c0 else c1);
    gen := new bool[top](_ => false);
    ks := seq(top, _ => 2);
    Initial(w, top, lists[..], gen[..], ks, c0, c1);
    InitialSlots(w, lists[..], gen[..], ks, top);
  }

  lemma EnoughTop(m: nat, top: nat)
    requires top > 0 && 1 <= m <= Pow2(top)
    ensures 2 * m - 2 <= N(m, top - 1)
  {
    EnoughItems(m, top - 1, 1);
    assert Pow2(1) == 2;
  }

  lemma Present(w: seq<nat>, j: nat, k: nat, c: Chain)
    requires At(w, j, k, c) && k <= N(|w|, j)
    ensures IsChain(w, j, k, c)
  {
  }

  lemma Initial(w: seq<nat>, top: nat, lists: seq<Chain>, gen: seq<bool>, ks: seq<nat>, c0: Chain, c1: Chain)
    requires Sorted(w) && |lists| == 2 * top && |gen| == |ks| == top
    requires c0 == Chain(w[0], 1, Nil) && c1 == Chain(w[1], 2, Nil)
    requires forall j :: 0 <= j < top ==> ks[j] == 2 && !gen[j]
    requires forall i :: 0 <= i < 2 * top ==> lists[i] == if i % 2 == 0 then c0 else c1
    ensures Inv(w, lists, gen, ks, top)
  {
    hide A, W, PW, N;
    forall j | 0 <= j < top
      ensures Level(w, lists, ks, j) && Linked(w, gen[j], ks, j)
    {
      FirstTwo(w, j);
      NBound(|w|, j);
    }
  }

  // ----- the pool of chains

  /** MaxHuffBits - 1 levels, two slots each, and the pool's size. */
  const MAX_LEVELS := 15
  const CHAIN_MEM := 2 * 15 * 16

  /** Every slot, whether its level is being worked on or not, holds some item of its list or nothing. */
  ghost predicate AllSlots(w: seq<nat>, lists: seq<Chain>)
  {
    forall i :: 0 <= i < |lists| ==> SlotHolds(w, lists[i], i / 2)
  }

  ghost predicate SlotHolds(w: seq<nat>, c: Chain, j: nat)
  {
    exists k: nat :: At(w, j, k, c)
  }

  lemma SlotSet(w: seq<nat>, was: seq<Chain>, i: nat, k: nat, now: seq<Chain>)
    requires AllSlots(w, was) && i < |was| == |now| && At(w, i / 2, k, now[i])
    requires forall n :: 0 <= n < |was| && n != i ==> now[n] == was[n]
    ensures AllSlots(w, now)
  {
    hide At;
    forall n | 0 <= n < |now|
      ensures SlotHolds(w, now[n], n / 2)
    {
      if n != i {
        assert SlotHolds(w, was[n], n / 2);
      }
    }
  }

  lemma InitialSlots(w: seq<nat>, lists: seq<Chain>, gen: seq<bool>, ks: seq<nat>, top: nat)
    requires Inv(w, lists, gen, ks, top) && |lists| == 2 * top
    ensures AllSlots(w, lists)
  {
    hide At;
    forall i | 0 <= i < |lists|
      ensures SlotHolds(w, lists[i], i / 2)
    {
      assert Level(w, lists, ks, i / 2);
      assert i == 2 * (i / 2) || i == 2 * (i / 2) + 1;
    }
  }

  lemma {:induction false} ChainLength(w: seq<nat>, j: nat, k: nat, c: Chain)
    requires IsChain(w, j, k, c)
    ensures |ChainTops(c)| <= j + 1
    decreases j
  {
    hide A, W, N;
    if Q(w, j, k) > 0 {
      ChainLength(w, j - 1, 2 * Q(w, j, k), c.up);
    }
  }

  /** How many chains are reached from the first n slots, counting shared ones once for each slot. */
  function InUse(lists: seq<Chain>, n: nat): nat
    requires n <= |lists|
  {
    if n == 0 then 0 else InUse(lists, n - 1) + |ChainTops(lists[n - 1])|
  }

  /** 1 + 1 + 2 + 2 + ..., n terms. */
  function Depths(n: nat): nat
  {
    if n == 0 then 0 else Depths(n - 1) + (n - 1) / 2 + 1
  }

  lemma {:induction false} DepthsIs(n: nat)
    ensures Depths(2 * n) == n * (n + 1)
  {
    if n > 0 {
      DepthsIs(n - 1);
      assert Depths(2 * n) == Depths(2 * n - 1) + n && Depths(2 * n - 1) == Depths(2 * n - 2) + n;
    }
  }

  lemma {:induction false} DepthsMono(a: nat, b: nat)
    requires a <= b
    ensures Depths(a) <= Depths(b)
  {
    if a < b {
      DepthsMono(a, b - 1);
    }
  }

  /** At any time at most half of the pool is in use, so a collection finds a free chain. */
  lemma {:induction false} PoolSuffices(w: seq<nat>, lists: seq<Chain>, n: nat)
    requires AllSlots(w, lists) && n <= |lists|
    ensures InUse(lists, n) <= Depths(n) && (n <= 2 * MAX_LEVELS ==> 2 * InUse(lists, n) <= CHAIN_MEM)
  {
    hide At, ChainTops;
    if n > 0 {
      PoolSuffices(w, lists, n - 1);
      assert SlotHolds(w, lists[n - 1], (n - 1) / 2);
      var k: nat :| At(w, (n - 1) / 2, k, lists[n - 1]);
      SlotLength(w, (n - 1) / 2, k, lists[n - 1]);
    }
    if n <= 2 * MAX_LEVELS {
      DepthsMono(n, 2 * MAX_LEVELS);
      DepthsIs(MAX_LEVELS);
    }
  }

  lemma SlotLength(w: seq<nat>, j: nat, k: nat, c: Chain)
    requires At(w, j, k, c)
    ensures |ChainTops(c)| <= j + 1
  {
    hide IsChain;
    if k <= N(|w|, j) {
      ChainLength(w, j, k, c);
    }
  }
}
