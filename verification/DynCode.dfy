/** Making and writing the description of a pair of dynamic codes. */
module DynCode {
  import opened Bits
  import opened RevTab
  import opened Canonical
  import opened Tokens
  import opened Format
  import opened CodeLengths
  import opened HuffEncoder
  import opened DynHeader
  import opened BitWriter
  import opened BlockCost
  import RL = RunLength

  /** The total number of bits that the counted symbols take. */
  method BitCost(tab: seq<Entry>, count: seq<nat>) returns (tot: nat)
    requires |tab| == |count|
    ensures tot == SymCost(count, LensOf(tab), |count|)
  {
    tot := 0;
    for i := 0 to |count|
      invariant tot == SymCost(count, LensOf(tab), i)
    {
      tot := tot + count[i] * LensOf(tab)[i];
    }
  }

  /** How much of a table is left when unused symbols at its end are dropped, but no fewer than least. */
  method Trim(tab: seq<Entry>, least: nat) returns (n: nat)
    requires least <= |tab| && forall i :: 0 <= i < |tab| ==> tab[i].bits >= 0
    ensures least <= n <= |tab| && forall i :: n <= i < |tab| ==> LensOf(tab)[i] == 0
  {
    n := |tab|;
    while n > least && tab[n - 1].bits == 0
      invariant least <= n <= |tab| && forall i :: n <= i < |tab| ==> LensOf(tab)[i] == 0
    {
      n := n - 1;
    }
  }

  class Dyncode {
    var nlit: nat
    var noff: nat
    var nclen: nat
    var ncode: nat
    const codetab: array<Entry>
    const codes: array<nat>
    const codeaux: array<nat>

    ghost predicate Shape()
    {
      codetab.Length == N_CLEN && codes.Length == codeaux.Length == N_LITLEN + N_OFF && codes != codeaux
    }

    constructor ()
      ensures Shape() && fresh(codetab) && fresh(codes) && fresh(codeaux)
    {
      nlit, noff, nclen, ncode := 0, 0, 0, 0;
      codetab := new Entry[N_CLEN](_ => Entry(0, 0));
      codes := new nat[N_LITLEN + N_OFF](_ => 0);
      codeaux := new nat[N_LITLEN + N_OFF](_ => 0);
    }

    /** The description stands for these two codes. */
    ghost predicate Describes(lit: Lens, off: Lens)
      reads this, codetab, codes, codeaux
    {
      && Shape() && ncode <= codes.Length && nlit <= |lit| && noff <= |off|
      && (forall i :: nlit <= i < |lit| ==> lit[i] == 0) && (forall i :: noff <= i < |off| ==> off[i] == 0)
      && EncTable(codetab[..], LensOf(codetab[..]))
      && HeaderFor(nlit, noff, nclen, LensOf(codetab[..]), codes[..ncode], codeaux[..ncode], lit[..nlit] + off[..noff])
    }

    ghost function Bits(lit: Lens, off: Lens): seq<bool>
      reads this, codetab, codes, codeaux
      requires Describes(lit, off)
    {
      HeaderBits(nlit, noff, nclen, LensOf(codetab[..]), codes[..ncode], codeaux[..ncode])
    }

    /** How often symbol 16 repeats a length. */
    ghost function Repeats(): nat
      reads this, codes
    {
      if ncode <= codes.Length then multiset(codes[..ncode])[16] else 0
    }
  }

  /** Lay the two tables' lengths end to end. */
  method FillCodes(codes: array<nat>, littab: seq<Entry>, offtab: seq<Entry>, nlit: nat, noff: nat)
    requires nlit <= |littab| && noff <= |offtab| && nlit + noff <= codes.Length
    modifies codes
    ensures codes[..nlit + noff] == LensOf(littab)[..nlit] + LensOf(offtab)[..noff]
  {
    for i := 0 to nlit
      invariant forall k :: 0 <= k < i ==> codes[k] == LensOf(littab)[k]
    {
      codes[i] := LensOf(littab)[i];
    }
    for i := 0 to noff
      invariant forall k :: 0 <= k < nlit ==> codes[k] == LensOf(littab)[k]
      invariant forall k :: 0 <= k < i ==> codes[nlit + k] == LensOf(offtab)[k]
    {
      codes[nlit + i] := LensOf(offtab)[i];
    }
    ghost var l := LensOf(littab)[..nlit] + LensOf(offtab)[..noff];
    forall k | 0 <= k < nlit + noff
      ensures codes[k] == l[k]
    {
      if k >= nlit {
        assert codes[nlit + (k - nlit)] == LensOf(offtab)[k - nlit];
      }
    }
  }

  method CountCodes(codes: seq<nat>) returns (count: seq<nat>)
    requires forall i :: 0 <= i < |codes| ==> codes[i] < N_CLEN
    ensures count == Occurrences(codes)
  {
    count := Const(N_CLEN, 0);
    for i := 0 to |codes|
      invariant count == Occurrences(codes[..i])
    {
      assert codes[..i + 1] == codes[..i] + [codes[i]];
      count := count[codes[i] := count[codes[i]] + 1];
    }
    assert codes[..|codes|] == codes;
  }

  method TrimClens(codetab: seq<Entry>) returns (n: nat)
    requires |codetab| == N_CLEN && forall i :: 0 <= i < N_CLEN ==> codetab[i].bits >= 0
    ensures 4 <= n <= N_CLEN && forall k: nat :: n <= k < N_CLEN ==> LensOf(codetab)[ClenOrder(k)] == 0
  {
    n := N_CLEN;
    while n > 4 && codetab[ClenOrder(n - 1)].bits == 0
      invariant 4 <= n <= N_CLEN && forall k: nat :: n <= k < N_CLEN ==> LensOf(codetab)[ClenOrder(k)] == 0
    {
      n := n - 1;
    }
  }

  lemma LegalSmall(syms: seq<nat>, aux: seq<nat>)
    requires RL.Legal(syms, aux)
    ensures |syms| == |aux| && forall i :: 0 <= i < |syms| ==> syms[i] < N_CLEN
  {
  }

  /** The code length code covers what is sent, with lengths that three bits hold. */
  lemma ClenCode(count: seq<nat>, cl: Lens, syms: seq<nat>)
    requires GzCode(count, cl, 7) && |count| == N_CLEN
    requires forall i :: 0 <= i < |syms| ==> syms[i] < N_CLEN && count[syms[i]] > 0
    ensures Coded(cl, syms) && Fits(cl, MAX_BITS) && forall k :: 0 <= k < N_CLEN ==> cl[k] < 8
  {
    FitsAbove(cl, 7, MAX_BITS);
  }

  lemma TableLens(tab: seq<Entry>)
    requires EncTable(tab, LensOf(tab))
    ensures forall i :: 0 <= i < |tab| ==> tab[i].bits >= 0
  {
  }

  ghost predicate Table(tab: seq<Entry>, n: nat)
  {
    |tab| == n && EncTable(tab, LensOf(tab)) && Fits(LensOf(tab), 15)
  }

  /** The trimmed codes still fit, and together make the lengths to be sent. */
  lemma TrimmedLens(lit: Lens, off: Lens, nlit: nat, noff: nat)
    requires Fits(lit, 15) && Fits(off, 15) && nlit <= |lit| && noff <= |off|
    requires (forall i :: nlit <= i < |lit| ==> lit[i] == 0) && (forall i :: noff <= i < |off| ==> off[i] == 0)
    ensures var lens := lit[..nlit] + off[..noff];
            && |lens| == nlit + noff && (forall k :: 0 <= k < |lens| ==> lens[k] < 16)
            && Fits(lens[..nlit], MAX_BITS) && Fits(lens[nlit..], MAX_BITS)
  {
    var lens := lit[..nlit] + off[..noff];
    TrimmedFits(lit, nlit, 15);
    TrimmedFits(off, noff, 15);
    FitsAbove(lit[..nlit], 15, MAX_BITS);
    FitsAbove(off[..noff], 15, MAX_BITS);
    assert lens[..nlit] == lit[..nlit] && lens[nlit..] == off[..noff];
  }

  /** Describe a pair of codes; returns the description's size in bits, one too many for each repeat by symbol 16. */
  method HuffCodes(dc: Dyncode, revtab: seq<byte>, littab: seq<Entry>, offtab: seq<Entry>) returns (cost: nat)
    requires dc.Shape() && IsRevTab(revtab) && Table(littab, N_LITLEN) && Table(offtab, N_OFF)
    modifies dc, dc.codetab, dc.codes, dc.codeaux
    ensures dc.Describes(LensOf(littab), LensOf(offtab)) && cost >= 26
    ensures cost == |dc.Bits(LensOf(littab), LensOf(offtab))| + dc.Repeats()
    ensures var lens := LensOf(littab)[..dc.nlit] + LensOf(offtab)[..dc.noff];
            dc.Repeats() > 0 <==> RL.FourInRow(lens, |lens|)
  {
    hide Fits, EncTable, RL.Expand, RL.Legal, RL.FourInRow, GzCode, Coded, IsRevTab, UsedSyms, Pow2,
         SymCost, Charged, HeaderBits, ClenOrder, Occurrences;
    ghost var lit, off := LensOf(littab), LensOf(offtab);
    TableLens(littab);
    TableLens(offtab);
    var nlit := Trim(littab, 257);
    var noff := Trim(offtab, 1);
    TrimmedLens(lit, off, nlit, noff);
    ghost var lens := lit[..nlit] + off[..noff];
    FillCodes(dc.codes, littab, offtab, nlit, noff);
    var c := RL.Compress(dc.codes, dc.codeaux, nlit + noff, lens);
    ghost var syms, aux := dc.codes[..c], dc.codeaux[..c];
    LegalSmall(syms, aux);
    var count := CountCodes(dc.codes[..c]);
    AllOccur(syms);
    FewSymbols(count);
    var ok := MkGzPrecode(dc.codetab, revtab, count, 8);
    ghost var cl := LensOf(dc.codetab[..]);
    ClenCode(count, cl, syms);
    TableLens(dc.codetab[..]);
    var nclen := TrimClens(dc.codetab[..]);
    dc.nlit, dc.noff, dc.nclen, dc.ncode := nlit, noff, nclen, c;
    assert HeaderFor(nlit, noff, nclen, cl, syms, aux, lens);
    cost := DescriptionCost(dc, count);
    HeaderSize(nlit, noff, nclen, cl, syms, aux);
  }

  /** The fixed literal code, for one, is described in fewer bits than the estimate says. */
  lemma FixedOvercharged(off: Lens)
    ensures RL.FourInRow(FixedLit() + off, |FixedLit() + off|)
  {
    var l := FixedLit() + off;
    assert l[0] == 8 && l[1] == 8 && l[2] == 8 && l[3] == 8;
    assert RL.FourAt(l, 3);
  }

  /** The estimate that huffcodes returns. */
  method DescriptionCost(dc: Dyncode, count: seq<nat>) returns (cost: nat)
    requires dc.Shape() && |count| == N_CLEN && dc.nclen >= 4 && dc.ncode <= dc.codes.Length
    ensures cost == 14 + dc.nclen * 3 + SymCost(count, LensOf(dc.codetab[..]), N_CLEN)
                    + Charged(dc.codes[..dc.ncode])
  {
    hide SymCost;
    var tot := BitCost(dc.codetab[..], count);
    var excost := 0;
    ghost var all := dc.codes[..dc.ncode];
    assert all[0..] == all;
    for i := 0 to dc.ncode
      invariant excost + Charged(all[i..]) == Charged(all)
    {
      assert all[i..][1..] == all[i + 1..];
      if dc.codes[i] == 18 {
        excost := excost + 7;
      } else if dc.codes[i] >= 16 {
        excost := excost + 3;
      }
    }
    cost := 5 + 5 + 4 + dc.nclen * 3 + tot + excost;
  }

  lemma AllOccur(syms: seq<nat>)
    ensures forall i :: 0 <= i < |syms| && syms[i] < N_CLEN ==> Occurrences(syms)[syms[i]] > 0
  {
    assert forall i :: 0 <= i < |syms| ==> syms[i] in multiset(syms);
  }

  lemma FewSymbols(count: seq<nat>)
    requires |count| == N_CLEN
    ensures |UsedSyms(count, |count|)| <= Pow2(7)
  {
    UsedFew(count, |count|);
    Pow2Small();
  }

  // ----- writing

  /** A table entry is the codeword as the low-bit-first writer wants it. */
  lemma CodewordPut(tab: seq<Entry>, l: Lens, s: nat)
    requires EncTable(tab, l) && s < |l| && l[s] > 0
    ensures tab[s].bits == l[s] && tab[s].encode < Pow2(l[s]) && ToBits(tab[s].encode, l[s]) == Codeword(l, s)
  {
    FromBound(Codeword(l, s));
    ToFrom(Codeword(l, s));
  }

  method PutCode(out: Out, tab: seq<Entry>, s: nat, ghost l: Lens)
    requires out.Valid() && EncTable(tab, l) && s < |l| && 0 < l[s] <= 16
    modifies out, out.obuf
    ensures out.Valid() && out.Written() == old(out.Written()) + Codeword(l, s)
  {
    hide EncTable, ToBits, ByteBits, Pow2, Codeword;
    CodewordPut(tab, l, s);
    TableSize(tab, l);
    out.LzPut(tab[s].encode, tab[s].bits);
  }

  lemma TableSize(tab: seq<Entry>, l: Lens)
    requires EncTable(tab, l)
    ensures |tab| == |l|
  {
  }

  /** The lengths of the code length code, three bits each. */
  method PutClens(out: Out, codetab: seq<Entry>, n: nat)
    requires out.Valid() && |codetab| == N_CLEN && n <= N_CLEN && forall k :: 0 <= k < N_CLEN ==>
             0 <= codetab[k].bits < 8
    modifies out, out.obuf
    ensures out.Valid() && out.Written() == old(out.Written()) + ClensBits(LensOf(codetab), 0, n)
  {
    hide ToBits, ByteBits, Pow2, ClenOrder;
    ghost var w0, all := out.Written(), ClensBits(LensOf(codetab), 0, n);
    for i := 0 to n
      invariant out.Valid() && out.Written() + ClensBits(LensOf(codetab), i, n) == w0 + all
    {
      ghost var w, x, more := out.Written(), ToBits(LensOf(codetab)[ClenOrder(i)], 3),
        ClensBits(LensOf(codetab), i + 1, n);
      assert w + (x + more) == w + x + more;
      Pow2Small();
      out.LzPut(codetab[ClenOrder(i)].bits, 3);
    }
  }

  /** The run-length coded lengths of the two codes. */
  method PutOps(out: Out, codetab: seq<Entry>, syms: seq<nat>, aux: seq<nat>, ghost cl: Lens)
    requires out.Valid() && EncTable(codetab, cl) && Coded(cl, syms) && RL.Legal(syms, aux) && Fits(cl, MAX_BITS)
    modifies out, out.obuf
    ensures out.Valid() && out.Written() == old(out.Written()) + OpsBits(cl, syms, aux)
  {
    hide ToBits, ByteBits, Pow2, EncTable, Fits, Codeword;
    ghost var w0, all := out.Written(), OpsBits(cl, syms, aux);
    FitsSmall(cl, MAX_BITS);
    assert syms[0..] == syms && aux[0..] == aux;
    for i := 0 to |syms|
      invariant out.Valid() && out.Written() + OpsBits(cl, syms[i..], aux[i..]) == w0 + all
    {
      ghost var w, more := out.Written(), OpsBits(cl, syms[i + 1..], aux[i + 1..]);
      assert syms[i..][1..] == syms[i + 1..] && aux[i..][1..] == aux[i + 1..];
      assert w + (OpBits(cl, syms[i], aux[i]) + more) == w + OpBits(cl, syms[i], aux[i]) + more;
      PutOp(out, codetab, syms[i], aux[i], cl);
    }
  }

  method PutOp(out: Out, codetab: seq<Entry>, v: nat, x: nat, ghost cl: Lens)
    requires out.Valid() && EncTable(codetab, cl) && v < |cl| && 0 < cl[v] <= 16 && v <= 18
             && (v >= 16 ==> x < Pow2(RepeatBits(v)))
    modifies out, out.obuf
    ensures out.Valid() && out.Written() == old(out.Written()) + OpBits(cl, v, x)
  {
    hide ByteBits, Pow2, EncTable, Codeword;
    PutCode(out, codetab, v, cl);
    if v >= 16 {
      if v == 16 {
        out.LzPut(x, 2);
      } else if v == 17 {
        out.LzPut(x, 3);
      } else {
        out.LzPut(x, 7);
      }
    }
  }

  method PutHeader(out: Out, nlit: nat, noff: nat, nclen: nat, codetab: seq<Entry>, syms: seq<nat>, aux: seq<nat>,
                   ghost lens: Lens)
    requires out.Valid() && EncTable(codetab, LensOf(codetab))
             && HeaderFor(nlit, noff, nclen, LensOf(codetab), syms, aux, lens)
    modifies out, out.obuf
    ensures out.Valid() && out.Written()
            == old(out.Written()) + HeaderBits(nlit, noff, nclen, LensOf(codetab), syms, aux)
  {
    hide ToBits, ByteBits, Pow2, EncTable, Fits, RL.Expand, ClensBits, OpsBits, ClenOrder;
    ghost var w0, cl := out.Written(), LensOf(codetab);
    TableLens(codetab);
    PutSizes(out, nlit, noff, nclen);
    PutClens(out, codetab, nclen);
    PutOps(out, codetab, syms, aux, cl);
    ghost var a, d, e := ToBits(nlit - 257, 5) + ToBits(noff - 1, 5) + ToBits(nclen - 4, 4), ClensBits(cl, 0, nclen),
      OpsBits(cl, syms, aux);
    assert w0 + a + d + e == w0 + (a + d + e);
  }

  method PutSizes(out: Out, nlit: nat, noff: nat, nclen: nat)
    requires out.Valid() && 257 <= nlit <= N_LITLEN && 1 <= noff <= 32 && 4 <= nclen <= N_CLEN
    modifies out, out.obuf
    ensures out.Valid()
    ensures out.Written() == old(out.Written()) + (ToBits(nlit - 257, 5) + ToBits(noff - 1, 5) + ToBits(nclen - 4, 4))
  {
    hide ToBits, ByteBits, Pow2;
    ghost var w0 := out.Written();
    HeaderSmall(nlit, noff, nclen);
    out.LzPut(nlit - 257, 5);
    out.LzPut(noff - 1, 5);
    out.LzPut(nclen - 4, 4);
    ghost var a, b, c := ToBits(nlit - 257, 5), ToBits(noff - 1, 5), ToBits(nclen - 4, 4);
    assert w0 + a + b + c == w0 + (a + b + c);
  }

  method WrDynCode(out: Out, dc: Dyncode, ghost lit: Lens, ghost off: Lens)
    requires out.Valid() && dc.Describes(lit, off)
    modifies out, out.obuf
    ensures out.Valid() && dc.Describes(lit, off) && out.Written() == old(out.Written()) + dc.Bits(lit, off)
    ensures GroupsAt(out.Written(), |old(out.Written())| + 14, dc.nclen, LensOf(dc.codetab[..]))
  {
    hide EncTable, HeaderFor, HeaderBits, GroupsAt;
    ghost var w := out.Written();
    DescribedGroups(dc, lit, off, w);
    PutHeader(out, dc.nlit, dc.noff, dc.nclen, dc.codetab[..], dc.codes[..dc.ncode], dc.codeaux[..dc.ncode],
              lit[..dc.nlit] + off[..dc.noff]);
  }

  lemma DescribedGroups(dc: Dyncode, lit: Lens, off: Lens, w: seq<bool>)
    requires dc.Describes(lit, off)
    ensures GroupsAt(w + dc.Bits(lit, off), |w| + 14, dc.nclen, LensOf(dc.codetab[..]))
  {
    hide HeaderBits, EncTable, GroupsAt;
    HeaderGroups(w, dc.nlit, dc.noff, dc.nclen, LensOf(dc.codetab[..]), dc.codes[..dc.ncode], dc.codeaux[..dc.ncode]);
  }

  lemma HeaderSmall(nlit: nat, noff: nat, nclen: nat)
    requires nlit <= N_LITLEN && noff <= 32 && nclen <= N_CLEN
    ensures nlit < 257 + Pow2(5) && noff < 1 + Pow2(5) && nclen < 4 + Pow2(4)
  {
    Pow2Small();
  }
}
