/** The header of a dynamic block: writing it and why reading it gives the codes back. */
module DynHeader {
  import opened Bits
  import opened Canonical
  import opened Tokens
  import opened Format
  import RL = RunLength

  /** One code length symbol with its repeat count. */
  ghost function OpBits(cl: Lens, s: nat, x: nat): seq<bool>
    requires s < |cl|
  {
    Codeword(cl, s) + ToBits(x, RepeatBits(s))
  }

  ghost predicate Coded(cl: Lens, syms: seq<nat>)
  {
    |cl| == N_CLEN && forall i :: 0 <= i < |syms| ==> syms[i] < N_CLEN && cl[syms[i]] > 0
  }

  ghost function OpsBits(cl: Lens, syms: seq<nat>, aux: seq<nat>): seq<bool>
    requires |syms| == |aux| && Coded(cl, syms)
  {
    if syms == [] then [] else OpBits(cl, syms[0], aux[0]) + OpsBits(cl, syms[1..], aux[1..])
  }

  lemma {:induction false} ExpandGrows(syms: seq<nat>, aux: seq<nat>, k: nat)
    requires RL.Legal(syms, aux) && k <= |syms|
    ensures RL.Legal(syms[..k], aux[..k]) && |RL.Expand(syms[..k], aux[..k])| <= |RL.Expand(syms, aux)|
    ensures k < |syms| ==> |RL.Expand(syms[..k], aux[..k])| < |RL.Expand(syms, aux)|
  {
    var n := |syms|;
    if k < n {
      ExpandGrows(syms[..n - 1], aux[..n - 1], k);
      assert syms[..n - 1][..k] == syms[..k] && aux[..n - 1][..k] == aux[..k];
    } else {
      assert syms[..k] == syms && aux[..k] == aux;
    }
  }

  /** Reading one coded symbol extends the lengths read so far as expansion does. */
  lemma ReadOp(cl: Lens, m: nat, s: nat, x: nat, rest: seq<bool>, n: nat, acc: Lens)
    requires Fits(cl, m) && |cl| == N_CLEN && s <= 18 && cl[s] > 0 && (s >= 16 ==> x < Pow2(RepeatBits(s)))
             && (s == 16 ==> acc != [])
    requires |acc| + RL.Reps(s, x) <= n
    ensures ReadLens(cl, OpBits(cl, s, x) + rest, n, acc)
            == ReadLens(cl, rest, n, acc + Const(RL.Reps(s, x), RepeatValue(s, acc)))
  {
    hide Fits, Codeword, DecodeSym, Pow2, Const;
    var e := RepeatBits(s);
    var r0 := ToBits(x, e) + rest;
    assert OpBits(cl, s, x) + rest == Codeword(cl, s) + r0;
    DecodeCodeword(cl, m, CLEN_BITS, s, r0);
    assert r0[..e] == ToBits(x, e) && r0[e..] == rest;
    if s >= 16 {
      FromTo(x, e);
    } else {
      assert ToBits(x, e) == [];
    }
  }

  lemma ReadDone(cl: Lens, bits: seq<bool>, acc: Lens)
    ensures ReadLens(cl, bits, |acc|, acc) == Yields((acc, bits))
  {
  }

  lemma {:induction false} ReadOps(cl: Lens, m: nat, syms: seq<nat>, aux: seq<nat>, rest: seq<bool>, k: nat)
    requires Fits(cl, m) && RL.Legal(syms, aux) && Coded(cl, syms) && k <= |syms|
    ensures RL.Legal(syms[..k], aux[..k]) && |RL.Expand(syms[..k], aux[..k])| <= |RL.Expand(syms, aux)|
    ensures ReadLens(cl, OpsBits(cl, syms[k..], aux[k..]) + rest, |RL.Expand(syms, aux)|,
            RL.Expand(syms[..k], aux[..k]))
            == Yields((RL.Expand(syms, aux), rest))
    decreases |syms| - k
  {
    hide Fits, RL.Expand, OpBits, ReadLens, Const, Pow2, Codeword;
    var n, acc := |RL.Expand(syms, aux)|, RL.Expand(syms[..k], aux[..k]);
    ExpandGrows(syms, aux, k);
    if k == |syms| {
      assert syms[..k] == syms && aux[..k] == aux && OpsBits(cl, syms[k..], aux[k..]) + rest == rest;
      ReadDone(cl, rest, acc);
    } else {
      var s, x := syms[k], aux[k];
      var more := OpsBits(cl, syms[k + 1..], aux[k + 1..]) + rest;
      assert syms[k..][1..] == syms[k + 1..] && aux[k..][1..] == aux[k + 1..];
      assert OpsBits(cl, syms[k..], aux[k..]) + rest == OpBits(cl, s, x) + more;
      assert syms[..k + 1] == syms[..k] + [s] && aux[..k + 1] == aux[..k] + [x];
      if k == 0 {
        RL.ExpandEmpty(syms[..0], aux[..0]);
      } else {
        assert |acc| >= k;
      }
      ExpandGrows(syms, aux, k + 1);
      RL.ExpandSnoc(syms[..k], aux[..k], s, x);
      ReadOp(cl, m, s, x, more, n, acc);
      ReadOps(cl, m, syms, aux, rest, k + 1);
    }
  }

  // ----- lengths of the code length code

  ghost function ClensBits(cl: Lens, i: nat, n: nat): seq<bool>
    requires i <= n <= N_CLEN == |cl|
    decreases n - i
  {
    if i == n then [] else ToBits(cl[ClenOrder(i)], 3) + ClensBits(cl, i + 1, n)
  }

  /** Group k of the bits written. */
  lemma {:induction false} ClensBitsAt(cl: Lens, i: nat, n: nat, k: nat)
    requires i <= k < n <= N_CLEN == |cl|
    ensures |ClensBits(cl, i, n)| == 3 * (n - i)
    ensures ClensBits(cl, i, n)[3 * (k - i)..3 * (k - i) + 3] == ToBits(cl[ClenOrder(k)], 3)
    decreases n - i
  {
    hide ToBits, ClenOrder;
    var more := ClensBits(cl, i + 1, n);
    if k > i {
      ClensBitsAt(cl, i + 1, n, k);
      assert ClensBits(cl, i, n)[3 * (k - i)..3 * (k - i) + 3] == more[3 * (k - i - 1)..3 * (k - i - 1) + 3];
    } else if i + 1 < n {
      ClensBitsAt(cl, i + 1, n, i + 1);
    }
  }

  /** From bit at on come the lengths of the code length code, three bits each, in their order. */
  ghost predicate GroupsAt(w: seq<bool>, at: nat, n: nat, cl: Lens)
  {
    |cl| == N_CLEN && n <= N_CLEN && at + 3 * n <= |w| && forall k: nat :: k < n ==>
      IsGroup(w, at, k, cl, CLEN_ORDER[k])
  }

  ghost predicate IsGroup(w: seq<bool>, at: nat, k: nat, cl: Lens, s: nat)
  {
    at + 3 * k + 3 <= |w| && s < |cl| && w[at + 3 * k..at + 3 * k + 3] == ToBits(cl[s], 3)
  }

  /** Where the groups are in what has been written once a header has been. */
  lemma HeaderGroups(w: seq<bool>, nlit: nat, noff: nat, nclen: nat, cl: Lens, syms: seq<nat>, aux: seq<nat>)
    requires 257 <= nlit && 1 <= noff && 4 <= nclen <= N_CLEN && |syms| == |aux| && Coded(cl, syms)
    ensures GroupsAt(w + HeaderBits(nlit, noff, nclen, cl, syms, aux), |w| + 14, nclen, cl)
  {
    hide ToBits, ClensBits, OpsBits, ClenOrder, IsGroup;
    var b := ClensBits(cl, 0, nclen);
    var a, c := w + (ToBits(nlit - 257, 5) + ToBits(noff - 1, 5) + ToBits(nclen - 4, 4)), OpsBits(cl, syms, aux);
    assert w + HeaderBits(nlit, noff, nclen, cl, syms, aux) == a + b + c;
    ClensBitsAt(cl, 0, nclen, 0);
    forall k: nat | k < nclen
      ensures IsGroup(a + b + c, |a|, k, cl, CLEN_ORDER[k])
    {
      OrderIs(k);
      GroupInside(a, b, c, cl, nclen, k);
    }
  }

  lemma GroupInside(a: seq<bool>, b: seq<bool>, c: seq<bool>, cl: Lens, n: nat, k: nat)
    requires k < n <= N_CLEN == |cl| && b == ClensBits(cl, 0, n)
    ensures IsGroup(a + b + c, |a|, k, cl, ClenOrder(k))
  {
    hide ToBits, ClensBits, ClenOrder;
    ClensBitsAt(cl, 0, n, k);
    assert (a + b + c)[|a| + 3 * k..|a| + 3 * k + 3] == b[3 * k..3 * k + 3];
  }

  /** The inverse of the order. */
  function ClenPos(k: nat): (i: nat)
    requires k < N_CLEN
    ensures i < N_CLEN && ClenOrder(i) == k
  {
    if k >= 16 then k - 16
    else if k == 0 then 3
    else if k >= 8 then 2 * (k - 8) + 4
    else 2 * (8 - k) + 3
  }

  lemma OrderInjective(i: nat, k: nat)
    requires i < N_CLEN && k < N_CLEN && ClenOrder(i) == ClenOrder(k)
    ensures i == k
  {
  }

  ghost predicate SentUpTo(cl: Lens, i: nat, v: Lens)
  {
    |v| == |cl| == N_CLEN && i <= N_CLEN && forall k: nat :: k < N_CLEN ==>
      v[ClenOrder(k)] == if k < i then cl[ClenOrder(k)] else 0
  }

  lemma {:induction false} ReadClensInverse(cl: Lens, i: nat, n: nat, v: Lens, rest: seq<bool>)
    requires i <= n <= N_CLEN && SentUpTo(cl, i, v) && (forall k :: 0 <= k < N_CLEN ==> cl[k] < 8)
    requires forall k: nat :: n <= k < N_CLEN ==> cl[ClenOrder(k)] == 0
    ensures ReadClens(ClensBits(cl, i, n) + rest, i, n, v) == Yields((cl, rest))
    decreases n - i
  {
    hide ClenOrder, ToBits, FromBits;
    if i == n {
      assert ClensBits(cl, i, n) + rest == rest;
      forall k | 0 <= k < N_CLEN
        ensures v[k] == cl[k]
      {
        assert ClenOrder(ClenPos(k)) == k;
      }
      assert v == cl;
    } else {
      var x := cl[ClenOrder(i)];
      var more := ClensBits(cl, i + 1, n) + rest;
      var b := ToBits(x, 3) + more;
      assert ClensBits(cl, i, n) + rest == b;
      assert b[..3] == ToBits(x, 3) && b[3..] == more;
      Pow2Small();
      FromTo(x, 3);
      var v' := v[ClenOrder(i) := x];
      forall k: nat | k < N_CLEN
        ensures v'[ClenOrder(k)] == if k < i + 1 then cl[ClenOrder(k)] else 0
      {
        if k != i && ClenOrder(k) == ClenOrder(i) {
          OrderInjective(i, k);
        }
      }
      ReadClensInverse(cl, i + 1, n, v', rest);
    }
  }

  // ----- the whole header

  ghost predicate HeaderFor(nlit: nat, noff: nat, nclen: nat, cl: Lens, syms: seq<nat>, aux: seq<nat>, lens: Lens)
  {
    && 257 <= nlit <= N_LITLEN && 1 <= noff <= 32 && 4 <= nclen <= N_CLEN
    && Coded(cl, syms) && (forall k :: 0 <= k < N_CLEN ==> cl[k] < 8) && Fits(cl, MAX_BITS)
    && (forall k: nat :: nclen <= k < N_CLEN ==> cl[ClenOrder(k)] == 0)
    && RL.Legal(syms, aux) && RL.Expand(syms, aux) == lens && |lens| == nlit + noff
    && Fits(lens[..nlit], MAX_BITS) && Fits(lens[nlit..], MAX_BITS)
  }

  ghost function HeaderBits(nlit: nat, noff: nat, nclen: nat, cl: Lens, syms: seq<nat>, aux: seq<nat>): seq<bool>
    requires 257 <= nlit && 1 <= noff && 4 <= nclen <= N_CLEN && |syms| == |aux| && Coded(cl, syms)
  {
    ToBits(nlit - 257, 5) + ToBits(noff - 1, 5) + ToBits(nclen - 4, 4) + ClensBits(cl, 0, nclen)
      + OpsBits(cl, syms, aux)
  }

  lemma FirstFields(a: nat, b: nat, c: nat, r: seq<bool>)
    requires a < 32 && b < 32 && c < 16
    ensures var bits := ToBits(a, 5) + ToBits(b, 5) + ToBits(c, 4) + r;
            FromBits(bits[..5]) == a && FromBits(bits[5..10]) == b && FromBits(bits[10..14]) == c && bits[14..] == r
  {
    hide ToBits, FromBits, Pow2;
    var x, y, z := ToBits(a, 5), ToBits(b, 5), ToBits(c, 4);
    var bits := x + y + z + r;
    assert bits[..5] == x && bits[5..10] == y && bits[10..14] == z && bits[14..] == r;
    Pow2Small();
    FromTo(a, 5);
    FromTo(b, 5);
    FromTo(c, 4);
  }

  /** Reading a written header gives the two codes back. */
  lemma HeaderInverse(nlit: nat, noff: nat, nclen: nat, cl: Lens, syms: seq<nat>, aux: seq<nat>, lens: Lens,
                      rest: seq<bool>)
    requires HeaderFor(nlit, noff, nclen, cl, syms, aux, lens)
    ensures ReadHeader(HeaderBits(nlit, noff, nclen, cl, syms, aux) + rest)
            == Yields((lens[..nlit], lens[nlit..], rest))
  {
    hide ToBits, FromBits, Fits, ReadClens, ReadLens, RL.Expand, ClensBits, OpsBits, ClenOrder, Pow2;
    var ops := OpsBits(cl, syms, aux) + rest;
    var body := ClensBits(cl, 0, nclen) + ops;
    var bits := ToBits(nlit - 257, 5) + ToBits(noff - 1, 5) + ToBits(nclen - 4, 4) + body;
    assert HeaderBits(nlit, noff, nclen, cl, syms, aux) + rest == bits;
    FirstFields(nlit - 257, noff - 1, nclen - 4, body);
    assert SentUpTo(cl, 0, Const(N_CLEN, 0));
    ReadClensInverse(cl, 0, nclen, Const(N_CLEN, 0), ops);
    assert syms[0..] == syms && aux[0..] == aux && syms[..0] == [] && aux[..0] == [];
    ReadOps(cl, MAX_BITS, syms, aux, rest, 0);
    RL.ExpandEmpty(syms[..0], aux[..0]);
  }
}
