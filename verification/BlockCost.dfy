/** What the cost estimates that choose an encoding have to do with the bits written. */
module BlockCost {
  import opened Bits
  import opened Canonical
  import opened Tokens
  import opened Format
  import opened CodeLengths
  import opened HuffEncoder
  import opened DynHeader
  import opened BlockFormat
  import opened LzBlock

  // ----- sums over symbols

  /** One more symbol costs its length. */
  lemma {:induction false} OneMore(count: seq<nat>, l: Lens, k: nat, n: nat)
    requires n <= |count| == |l| && k < |l|
    ensures SymCost(count[k := count[k] + 1], l, n) == SymCost(count, l, n) + if k < n then l[k] else 0
  {
    if n > 0 {
      OneMore(count, l, k, n - 1);
    }
  }

  lemma {:induction false} NoSymbols(count: seq<nat>, l: Lens, n: nat)
    requires n <= |count| == |l| && forall k :: 0 <= k < n ==> count[k] == 0
    ensures SymCost(count, l, n) == 0
  {
    if n > 0 {
      NoSymbols(count, l, n - 1);
    }
  }

  // ----- the tokens of a block

  function LitCounts(toks: seq<Token>): (lc: seq<nat>)
    ensures |lc| == N_LITLEN
  {
    seq(N_LITLEN, k requires 0 <= k => LitCount(toks, k) + if k == EOB then 1 else 0)
  }

  function OffCounts(toks: seq<Token>): (oc: seq<nat>)
    ensures |oc| == N_OFF
  {
    seq(N_OFF, k requires 0 <= k => OffCount(toks, k))
  }

  lemma CountsAre(toks: seq<Token>, lc: seq<nat>, oc: seq<nat>)
    requires Counts(toks, lc, oc)
    ensures lc == LitCounts(toks) && oc == OffCounts(toks)
  {
    hide LitCount, OffCount;
  }

  lemma CountsSnoc(toks: seq<Token>, t: Token)
    ensures var c := LitOf(t);
            LitCounts(toks + [t]) == LitCounts(toks)[c := LitCounts(toks)[c] + 1]
    ensures var d := OffOf(t);
            OffCounts(toks + [t]) == if d < N_OFF then OffCounts(toks)[d := OffCounts(toks)[d] + 1] else OffCounts(toks)
  {
    hide LitCount, OffCount, LitOf, OffOf;
    forall k: nat
      ensures LitCount(toks + [t], k) == LitCount(toks, k) + if LitOf(t) == k then 1 else 0
      ensures OffCount(toks + [t], k) == OffCount(toks, k) + if OffOf(t) == k then 1 else 0
    {
      CountSnoc(toks, t, k);
    }
  }

  lemma TokenSize(lit: Lens, off: Lens, t: Token)
    requires Encodable(lit, off, t) && |off| == N_OFF
    ensures LitOf(t) < |lit|
    ensures |TokenBits(lit, off, t)| == lit[LitOf(t)] + (if OffOf(t) < N_OFF then off[OffOf(t)] else 0) + ExtraOf(t)
  {
    hide LenCode, OffCode, LenBase, OffBase, ToBits, Codeword, Extra;
  }

  /** The sum of count times length, and the extra bits, are what the tokens and the end mark take. */
  lemma {:induction false} TokensSize(lit: Lens, off: Lens, toks: seq<Token>)
    requires AllEncodable(lit, off, toks) && |lit| == N_LITLEN && |off| == N_OFF
    ensures |TokensBits(lit, off, toks)| + lit[EOB]
         == SymCost(LitCounts(toks), lit, N_LITLEN) + SymCost(OffCounts(toks), off, N_OFF) + ExtraCost(toks)
  {
    hide Encodable, TokenBits, LitCounts, OffCounts, ExtraOf, LitOf, OffOf, SymCost;
    if toks == [] {
      NoTokens(lit, off);
    } else {
      var n := |toks| - 1;
      var ts, t := toks[..n], toks[n];
      assert toks == ts + [t];
      TokensSize(lit, off, ts);
      TokensBitsAppend(lit, off, ts, [t]);
      assert TokensBits(lit, off, [t]) == TokenBits(lit, off, t) + [];
      TokenSize(lit, off, t);
      CountsSnoc(ts, t);
      OneMore(LitCounts(ts), lit, LitOf(t), N_LITLEN);
      if OffOf(t) < N_OFF {
        OneMore(OffCounts(ts), off, OffOf(t), N_OFF);
      }
    }
  }

  lemma NoTokens(lit: Lens, off: Lens)
    requires |lit| == N_LITLEN && |off| == N_OFF
    ensures SymCost(LitCounts([]), lit, N_LITLEN) == lit[EOB] && SymCost(OffCounts([]), off, N_OFF) == 0
  {
    var zero := Const(N_LITLEN, 0);
    NoSymbols(zero, lit, N_LITLEN);
    OneMore(zero, lit, EOB, N_LITLEN);
    assert LitCounts([]) == zero[EOB := zero[EOB] + 1];
    NoSymbols(OffCounts([]), off, N_OFF);
  }

  /** The estimate for the body of a block is exact, in any code. */
  lemma BodySize(lit: Lens, off: Lens, toks: seq<Token>, lc: seq<nat>, oc: seq<nat>)
    requires AllEncodable(lit, off, toks) && |lit| == N_LITLEN && |off| == N_OFF && Counts(toks, lc, oc)
    ensures |lc| == |lit| && |oc| == |off|
    ensures BodyLen(lit, off, toks) == SymCost(lc, lit, N_LITLEN) + SymCost(oc, off, N_OFF) + ExtraCost(toks)
  {
    hide AllEncodable, Codeword, TokensBits, LitCounts, OffCounts, SymCost;
    CountsAre(toks, lc, oc);
    TokensSize(lit, off, toks);
  }

  /** The bits of a body, if the codes can write it. */
  ghost function BodyLen(lit: Lens, off: Lens, toks: seq<Token>): nat
  {
    if AllEncodable(lit, off, toks) && EOB < |lit| then |BodyBits(lit, off, toks)| else 0
  }

  // ----- the codes of the block are the best there are

  lemma {:induction false} NoShorter(count: seq<nat>, l: Lens, other: Lens, n: nat)
    requires n <= |count| == |l| == |other|
    requires forall i :: 0 <= i < n && count[i] > 0 ==> l[i] <= 1 <= other[i]
    ensures SymCost(count, l, n) <= SymCost(count, other, n)
  {
    if n > 0 {
      NoShorter(count, l, other, n - 1);
      if count[n - 1] > 0 {
        Scaled(count[n - 1], l[n - 1], other[n - 1]);
      }
    }
  }

  lemma Scaled(c: nat, a: nat, b: nat)
    requires a <= b
    ensures c * a <= c * b
  {
  }

  /** The repaired code is optimal too, however few symbols occur. */
  lemma GzBest(count: seq<nat>, l: Lens, other: Lens, top: nat)
    requires GzCode(count, l, top) && PrefixCode(count, other, top)
    ensures |l| == |count| == |other| && SymCost(count, l, |count|) <= SymCost(count, other, |count|)
  {
    hide Fits, UsedSyms, SymCost;
    if |UsedSyms(count, |count|)| < 2 {
      NoShorter(count, l, other, |count|);
    }
  }

  lemma {:induction false} Occurs(toks: seq<Token>, k: nat) returns (i: nat)
    requires LitCount(toks, k) > 0
    ensures i < |toks| && LitOf(toks[i]) == k
  {
    hide LitOf;
    var n := |toks| - 1;
    if LitOf(toks[n]) == k {
      i := n;
    } else {
      i := Occurs(toks[..n], k);
    }
  }

  lemma {:induction false} OffOccurs(toks: seq<Token>, k: nat) returns (i: nat)
    requires OffCount(toks, k) > 0
    ensures i < |toks| && OffOf(toks[i]) == k
  {
    hide OffOf;
    var n := |toks| - 1;
    if OffOf(toks[n]) == k {
      i := n;
    } else {
      i := OffOccurs(toks[..n], k);
    }
  }

  /** Codes that can write the tokens have a codeword for everything counted. */
  lemma CodesAll(lit: Lens, off: Lens, toks: seq<Token>, lc: seq<nat>, oc: seq<nat>, top: nat)
    requires AllEncodable(lit, off, toks) && HasEob(lit) && Counts(toks, lc, oc)
    requires |lit| == N_LITLEN && |off| == N_OFF && Fits(lit, top) && Fits(off, top)
    ensures PrefixCode(lc, lit, top) && PrefixCode(oc, off, top)
  {
    hide Fits, LitCount, OffCount, LenCode, OffCode;
    forall k | 0 <= k < N_LITLEN && lc[k] > 0
      ensures lit[k] > 0
    {
      if k != EOB {
        var i := Occurs(toks, k);
        assert Encodable(lit, off, toks[i]);
      }
    }
    forall k | 0 <= k < N_OFF && oc[k] > 0
      ensures off[k] > 0
    {
      var i := OffOccurs(toks, k);
      assert Encodable(lit, off, toks[i]);
    }
  }

  /** No pair of prefix codes with codewords of at most top bits writes the tokens of the block in fewer bits. */
  lemma BestBody(lit: Lens, off: Lens, toks: seq<Token>, lc: seq<nat>, oc: seq<nat>, top: nat, lit': Lens, off': Lens)
    requires Counts(toks, lc, oc) && GzCode(lc, lit, top) && GzCode(oc, off, top)
    requires AllEncodable(lit, off, toks) && HasEob(lit) && AllEncodable(lit', off', toks) && HasEob(lit')
    requires |lit'| == N_LITLEN && |off'| == N_OFF && Fits(lit', top) && Fits(off', top)
    ensures BodyLen(lit, off, toks) <= BodyLen(lit', off', toks)
  {
    hide Fits, AllEncodable, BodyLen, SymCost, GzCode, PrefixCode, UsedSyms, LitCount, OffCount;
    CodesAll(lit', off', toks, lc, oc, top);
    GzBest(lc, lit, lit', top);
    GzBest(oc, off, off', top);
    BodySize(lit, off, toks, lc, oc);
    BodySize(lit', off', toks, lc, oc);
  }

  /** The same where no offsets occur, whatever their codes. */
  lemma BestPlain(lit: Lens, off: Lens, toks: seq<Token>, lc: seq<nat>, oc: seq<nat>, top: nat, lit': Lens, off': Lens)
    requires Counts(toks, lc, oc) && GzCode(lc, lit, top) && forall k :: 0 <= k < N_OFF ==> oc[k] == 0
    requires AllEncodable(lit, off, toks) && HasEob(lit) && AllEncodable(lit', off', toks) && HasEob(lit')
    requires |off| == |off'| == N_OFF && |lit'| == N_LITLEN && Fits(lit', top) && Fits(off', top)
    ensures BodyLen(lit, off, toks) <= BodyLen(lit', off', toks)
  {
    hide Fits, AllEncodable, BodyLen, SymCost, GzCode, PrefixCode, UsedSyms, LitCount, OffCount;
    CodesAll(lit', off', toks, lc, oc, top);
    GzBest(lc, lit, lit', top);
    NoSymbols(oc, off, N_OFF);
    NoSymbols(oc, off', N_OFF);
    BodySize(lit, off, toks, lc, oc);
    BodySize(lit', off', toks, lc, oc);
  }

  /** Literals alone need no offsets and no extra bits. */
  lemma {:induction false} PlainCost(toks: seq<Token>)
    requires forall i :: 0 <= i < |toks| ==> toks[i].Lit?
    ensures ExtraCost(toks) == 0
  {
    if toks != [] {
      PlainCost(toks[..|toks| - 1]);
    }
  }

  // ----- the description of a pair of codes

  /** What huffcodes charges for the repeat counts. */
  function Charged(syms: seq<nat>): nat
  {
    if syms == [] then 0 else (if syms[0] == 18 then 7 else if syms[0] >= 16 then 3 else 0) + Charged(syms[1..])
  }

  function Occurrences(syms: seq<nat>): (count: seq<nat>)
    ensures |count| == N_CLEN
  {
    seq(N_CLEN, k requires 0 <= k => multiset(syms)[k])
  }

  /** The coded lengths take one bit less than charged for each repeat of a length. */
  lemma {:induction false} OpsSize(cl: Lens, syms: seq<nat>, aux: seq<nat>)
    requires |syms| == |aux| && Coded(cl, syms)
    ensures |OpsBits(cl, syms, aux)| + multiset(syms)[16]
         == SymCost(Occurrences(syms), cl, N_CLEN) + Charged(syms)
  {
    hide SymCost, Codeword, ToBits;
    if syms == [] {
      NoSymbols(Occurrences(syms), cl, N_CLEN);
    } else {
      var k, more := syms[0], Occurrences(syms[1..]);
      assert syms == [k] + syms[1..];
      assert Occurrences(syms) == more[k := more[k] + 1];
      OneMore(more, cl, k, N_CLEN);
      OpsSize(cl, syms[1..], aux[1..]);
    }
  }

  lemma {:induction false} OpsAtMost(cl: Lens, syms: seq<nat>, aux: seq<nat>)
    requires |syms| == |aux| && Coded(cl, syms) && forall k :: 0 <= k < N_CLEN ==> cl[k] < 8
    ensures |OpsBits(cl, syms, aux)| <= 14 * |syms| && multiset(syms)[16] <= |syms|
  {
    hide Codeword, ToBits;
    if syms != [] {
      assert syms == [syms[0]] + syms[1..];
      OpsAtMost(cl, syms[1..], aux[1..]);
    }
  }

  /** No description is charged more than this. */
  const MAX_HEADER := 14 + 3 * 19 + 15 * 318

  lemma HeaderAtMost(nlit: nat, noff: nat, nclen: nat, cl: Lens, syms: seq<nat>, aux: seq<nat>, lens: Lens)
    requires HeaderFor(nlit, noff, nclen, cl, syms, aux, lens) && |syms| <= 318
    ensures |HeaderBits(nlit, noff, nclen, cl, syms, aux)| + multiset(syms)[16] <= MAX_HEADER
  {
    hide ToBits, ClensBits, OpsBits, Fits;
    ClensSize(cl, 0, nclen);
    OpsAtMost(cl, syms, aux);
  }

  /** Codes of at most fifteen bits that have all codewords for the tokens. */
  ghost predicate CanWrite(lit: Lens, off: Lens, toks: seq<Token>)
  {
    && |lit| == N_LITLEN && |off| == N_OFF && Fits(lit, 15) && Fits(off, 15)
    && AllEncodable(lit, off, toks) && HasEob(lit)
  }

  lemma {:induction false} ClensSize(cl: Lens, i: nat, n: nat)
    requires i <= n <= N_CLEN == |cl|
    ensures |ClensBits(cl, i, n)| == 3 * (n - i)
    decreases n - i
  {
    hide ToBits, ClenOrder;
    if i < n {
      ClensSize(cl, i + 1, n);
    }
  }

  lemma HeaderSize(nlit: nat, noff: nat, nclen: nat, cl: Lens, syms: seq<nat>, aux: seq<nat>)
    requires 257 <= nlit && 1 <= noff && 4 <= nclen <= N_CLEN && |syms| == |aux| && Coded(cl, syms)
    ensures |HeaderBits(nlit, noff, nclen, cl, syms, aux)| + multiset(syms)[16]
         == 5 + 5 + 4 + nclen * 3 + SymCost(Occurrences(syms), cl, N_CLEN) + Charged(syms)
  {
    hide ToBits, ClensBits, OpsBits, SymCost, Occurrences, Charged;
    ClensSize(cl, 0, nclen);
    OpsSize(cl, syms, aux);
  }
}
