/**
 Why the decoder's two-level table agrees with the code it was built for.

 `flat` answers for the next `fb` bits, guessing zeros for bits not fetched yet; codewords
 longer than `fb` are found by length, starting from the lower bound that `flat` gives.
 */
module DecodeTable {
  import opened Bits
  import opened Canonical

  /** Symbols with a codeword shorter than b. */
  function Shorter(lens: Lens, b: nat): nat
  {
    if b == 0 then 0 else Shorter(lens, b - 1) + Used(lens, b - 1)
  }

  /** Where `decode` keeps a symbol: lengths in order, codewords backwards within a length. */
  function Slot(lens: Lens, s: nat): int
    requires s < |lens|
  {
    Shorter(lens, lens[s]) + End(lens, lens[s]) - 1 - Code(lens, s)
  }

  /** First and last fb-bit prefix of the codewords of length b > fb. */
  function Lo(lens: Lens, fb: nat, b: nat): nat
    requires fb <= b
  {
    Shr(First(lens, b), b - fb)
  }

  function Hi(lens: Lens, fb: nat, b: nat): int
    requires fb <= b
  {
    if End(lens, b) == 0 then -1 else Shr(End(lens, b) - 1, b - fb)
  }

  ghost predicate ShortAt(lens: Lens, fb: nat, w: seq<bool>, s: nat)
  {
    StartsWith(lens, s, w) && lens[s] <= fb
  }

  /** Every symbol longer than fb and shorter than b has its prefix below v. */
  ghost predicate NoneBelow(lens: Lens, fb: nat, v: nat, b: nat)
  {
    forall s :: 0 <= s < |lens| && fb < lens[s] < b ==> Shr(Code(lens, s), lens[s] - fb) < v
  }

  /** What an entry of `flat` may be for the fb bits w; -1 stands for ~0. */
  ghost predicate FlatEntry(lens: Lens, fb: nat, m: nat, w: seq<bool>, e: int)
  {
    if exists s: nat :: ShortAt(lens, fb, w, s) then
      exists s: nat :: ShortAt(lens, fb, w, s) && e == s * 256 + lens[s]
    else
      LongEntry(lens, fb, m, MsbVal(w), e) && (e == -1 <==> Unclaimed(lens, w))
  }

  ghost predicate LongEntry(lens: Lens, fb: nat, m: nat, v: nat, e: int)
  {
    || (e == -1 && NoneBelow(lens, fb, v, m + 1))
    || (e % 256 == 255 && fb < e / 256 <= m && End(lens, e / 256) > 0 && NoneBelow(lens, fb, v, e / 256))
  }

  // ----- slots

  lemma {:induction false} ShorterTotal(lens: Lens, b: nat)
    ensures Shorter(lens, b) + Used(lens, b) <= |lens|
    decreases |lens|
  {
    if lens == [] {
      ShorterEmpty(b);
    } else {
      ShorterTotal(lens[..|lens| - 1], b);
      ShorterSnoc(lens, b);
    }
  }

  lemma {:induction false} ShorterEmpty(b: nat)
    ensures Shorter([], b) == 0
  {
    if b > 0 {
      ShorterEmpty(b - 1);
    }
  }

  lemma {:induction false} ShorterSnoc(lens: Lens, b: nat)
    requires lens != []
    ensures var k := lens[|lens| - 1];
            Shorter(lens, b) == Shorter(lens[..|lens| - 1], b) + (if 0 < k < b then 1 else 0)
  {
    if b > 0 {
      ShorterSnoc(lens, b - 1);
    }
  }

  lemma {:induction false} ShorterMono(lens: Lens, a: nat, b: nat)
    requires a < b
    ensures Shorter(lens, a) + Used(lens, a) <= Shorter(lens, b)
  {
    if a + 1 < b {
      ShorterMono(lens, a, b - 1);
    }
  }

  lemma SlotRange(lens: Lens, s: nat)
    requires s < |lens| && lens[s] > 0
    ensures 0 <= Shorter(lens, lens[s]) <= Slot(lens, s) < Shorter(lens, lens[s]) + Used(lens, lens[s]) <= |lens|
  {
    CodeRange(lens, s);
    ShorterTotal(lens, lens[s]);
  }

  lemma SlotInjective(lens: Lens, s: nat, t: nat)
    requires s < |lens| && t < |lens| && lens[s] > 0 && lens[t] > 0 && Slot(lens, s) == Slot(lens, t)
    ensures s == t
  {
    SlotRange(lens, s);
    SlotRange(lens, t);
    if lens[s] < lens[t] {
      ShorterMono(lens, lens[s], lens[t]);
    } else if lens[t] < lens[s] {
      ShorterMono(lens, lens[t], lens[s]);
    } else {
      CodeDistinct(lens, s, t);
    }
  }

  // ----- the prefix ranges of successive lengths leave no gap

  lemma LoNext(lens: Lens, fb: nat, b: nat)
    requires fb <= b
    ensures Lo(lens, fb, b + 1) <= Hi(lens, fb, b) + 1
  {
    if End(lens, b) > 0 {
      ShrPred(End(lens, b), b - fb);
    } else {
      ShlZero(b - fb);
      ShrShl(0, b - fb);
    }
  }

  lemma {:induction false} Between(lens: Lens, fb: nat, n: nat, v: nat) returns (b: nat)
    requires fb < n && End(lens, fb) <= v <= Hi(lens, fb, n)
    ensures fb < b <= n && InRange(lens, fb, b, v)
  {
    if Lo(lens, fb, n) <= v {
      b := n;
    } else {
      LoNext(lens, fb, n - 1);
      b := Between(lens, fb, n - 1, v);
    }
  }

  /** A prefix that no codeword of at most fb bits starts lies beyond all of those. */
  lemma BeyondShort(lens: Lens, m: nat, fb: nat, w: seq<bool>)
    requires Fits(lens, m) && |w| == fb && 0 < fb
    requires forall s: nat :: !ShortAt(lens, fb, w, s)
    ensures End(lens, fb) <= MsbVal(w)
  {
    if MsbVal(w) < End(lens, fb) {
      var s := BelowEnd(lens, m, w);
      assert ShortAt(lens, fb, w, s);
    }
  }

  lemma {:induction false} HiMono(lens: Lens, fb: nat, a: nat, b: nat)
    requires fb <= a <= b
    ensures Hi(lens, fb, a) <= Hi(lens, fb, b)
  {
    if a < b {
      HiMono(lens, fb, a, b - 1);
      if End(lens, b - 1) > 0 {
        assert End(lens, b) == First(lens, b) + Used(lens, b) && First(lens, b) == 2 * End(lens, b - 1);
        ShrMono(2 * End(lens, b - 1) - 1, End(lens, b) - 1, b - fb);
        assert (2 * End(lens, b - 1) - 1) / 2 == End(lens, b - 1) - 1;
      }
    }
  }

  /**
   An index that no short codeword starts is unclaimed exactly when its value lies beyond that of
   every codeword: the entries that the construction leaves at ~0.
   */
  lemma UnclaimedBeyond(lens: Lens, m: nat, fb: nat, w: seq<bool>)
    requires Fits(lens, m) && |w| == fb && 0 < fb <= m
    requires forall s: nat :: !ShortAt(lens, fb, w, s)
    ensures Unclaimed(lens, w) <==> MsbVal(w) > Hi(lens, fb, m)
  {
    hide MsbVal, Shr, Shl, Hi, Codeword, Pow2;
    var v := MsbVal(w);
    if v <= Hi(lens, fb, m) {
      var z := w + Zeros(m - fb);
      ExtendedBelow(lens, m, fb, w);
      var s := BelowEnd(lens, m, z);
      assert z[..fb] == w;
      if lens[s] > fb {
        assert w == Codeword(lens, s)[..fb];
      }
    } else {
      forall s | 0 <= s < |lens| && lens[s] > 0
        ensures !(Codeword(lens, s) <= w) && !(w <= Codeword(lens, s))
      {
        assert !ShortAt(lens, fb, w, s);
        if w <= Codeword(lens, s) {
          PrefixBelowHi(lens, m, fb, w, s);
        }
      }
    }
  }

  lemma ExtendedBelow(lens: Lens, m: nat, fb: nat, w: seq<bool>)
    requires |w| == fb <= m && MsbVal(w) <= Hi(lens, fb, m)
    ensures MsbVal(w + Zeros(m - fb)) < End(lens, m)
  {
    MsbValConcat(w, Zeros(m - fb));
    MsbValZeros(m - fb);
    ShrSpec(End(lens, m) - 1, m - fb, MsbVal(w));
  }

  lemma PrefixBelowHi(lens: Lens, m: nat, fb: nat, w: seq<bool>, s: nat)
    requires Fits(lens, m) && s < |lens| && lens[s] > 0 && |w| == fb && w <= Codeword(lens, s)
    ensures fb <= lens[s] <= m && MsbVal(w) <= Hi(lens, fb, m)
  {
    var c, n := Codeword(lens, s), lens[s];
    CodeFits(lens, m, s);
    CodeRange(lens, s);
    MsbValMsb(Code(lens, s), n);
    assert w == c[..fb];
    MsbValPrefix(c, fb);
    ShrMono(Code(lens, s), End(lens, n) - 1, n - fb);
    HiMono(lens, fb, n, m);
  }

  /** What the descending loop over lengths leaves in `flat` is a sound lower bound. */
  lemma LongSound(lens: Lens, m: nat, fb: nat, w: seq<bool>, e: int)
    requires Fits(lens, m) && |w| == fb && 0 < fb <= m
    requires forall s: nat :: !ShortAt(lens, fb, w, s)
    requires Minimal(lens, fb, m, fb, MsbVal(w), e)
    ensures LongEntry(lens, fb, m, MsbVal(w), e) && (e == -1 <==> Unclaimed(lens, w))
  {
    hide Unclaimed, Codeword, MsbVal, Pow2, ShortAt;
    var v := MsbVal(w);
    BeyondShort(lens, m, fb, w);
    UnclaimedBeyond(lens, m, fb, w);
    if e == -1 {
      if fb < m && v <= Hi(lens, fb, m) {
        var b := Between(lens, fb, m, v);
      }
    } else {
      HiMono(lens, fb, e / 256, m);
    }
    var b := if e == -1 then m + 1 else e / 256;
    forall s | 0 <= s < |lens| && fb < lens[s] < b
      ensures Shr(Code(lens, s), lens[s] - fb) < v
    {
      CodeRange(lens, s);
      ShrMono(Code(lens, s), End(lens, lens[s]) - 1, lens[s] - fb);
      if v <= Hi(lens, fb, lens[s]) {
        var c := Between(lens, fb, lens[s], v);
      }
    }
  }

  ghost predicate InRange(lens: Lens, fb: nat, b: nat, v: nat)
  {
    fb <= b && Lo(lens, fb, b) <= v <= Hi(lens, fb, b)
  }

  /** e names the least length above lo whose prefix range holds v, or is -1. */
  ghost predicate Minimal(lens: Lens, fb: nat, m: nat, lo: nat, v: nat, e: int)
  {
    || (e == -1 && forall b: nat :: lo < b <= m ==> !InRange(lens, fb, b, v))
    || (&& e % 256 == 255 && lo < e / 256 <= m && InRange(lens, fb, e / 256, v)
        && forall b: nat :: lo < b < e / 256 ==> !InRange(lens, fb, b, v))
  }

  // ----- looking up the register

  /** w is what `flat` is indexed with: fb bits, zeros standing for bits not fetched. */
  ghost predicate Indexed(reg: seq<bool>, fb: nat, w: seq<bool>)
  {
    if |reg| >= fb then w == reg[..fb] else w == reg + Zeros(fb - |reg|)
  }

  lemma IndexLeast(reg: seq<bool>, fb: nat, w: seq<bool>, c: seq<bool>, rest: seq<bool>, k: nat)
    requires Indexed(reg, fb, w) && reg <= rest && c <= rest && k <= |c| && k <= fb
    ensures MsbVal(w[..k]) <= MsbVal(c[..k])
  {
    if k <= |reg| {
      assert w[..k] == reg[..k] == c[..k];
    } else {
      assert w[..k] == reg + Zeros(k - |reg|);
      assert reg <= c[..k];
      ZeroExtendLeast(reg, c[..k]);
    }
  }

  /** A short entry whose bits have all been fetched names the symbol. */
  lemma ShortHit(lens: Lens, fb: nat, reg: seq<bool>, w: seq<bool>, rest: seq<bool>, s: nat)
    requires Indexed(reg, fb, w) && reg <= rest && ShortAt(lens, fb, w, s) && lens[s] <= |reg|
    ensures StartsWith(lens, s, rest)
  {
    assert Codeword(lens, s) == w[..lens[s]] == reg[..lens[s]];
  }

  /** A short entry needing more bits than were fetched is a lower bound. */
  lemma ShortMiss(lens: Lens, m: nat, fb: nat, reg: seq<bool>, w: seq<bool>, rest: seq<bool>, s: nat, t: nat)
    requires Fits(lens, m) && Indexed(reg, fb, w) && reg <= rest
    requires ShortAt(lens, fb, w, s) && StartsWith(lens, t, rest)
    ensures lens[t] >= lens[s] || lens[t] <= |reg|
    ensures lens[t] <= |reg| && lens[t] <= fb ==> t == s
  {
    var l, b := lens[t], lens[s];
    if l <= |reg| && l <= fb {
      assert Codeword(lens, t) == rest[..l] == w[..l];
      OneStarts(lens, m, s, t, w);
    } else if l < b {
      IndexLeast(reg, fb, w, Codeword(lens, t), rest, l);
      assert Codeword(lens, t)[..l] == Codeword(lens, t) && Codeword(lens, s) == w[..b];
      CodeFits(lens, m, t);
      MsbValMsb(Code(lens, t), l);
      CodeFits(lens, m, s);
      MsbValMsb(Code(lens, s), b);
      MsbValPrefix(w[..b], l);
      assert w[..b][..l] == w[..l];
      FirstAfterEnd(lens, l, b);
      CodeRange(lens, s);
      CodeRange(lens, t);
      ShrSpec(Code(lens, s), b - l, End(lens, l));
    }
  }

  /** When no short codeword matches, the symbol is at least as long as the entry says. */
  lemma LongMiss(lens: Lens, m: nat, fb: nat, reg: seq<bool>, w: seq<bool>, rest: seq<bool>, e: int, t: nat)
    requires Fits(lens, m) && Indexed(reg, fb, w) && reg <= rest && 0 < fb <= m
    requires (forall s: nat :: !ShortAt(lens, fb, w, s)) && LongEntry(lens, fb, m, MsbVal(w), e)
    requires StartsWith(lens, t, rest)
    ensures e != -1 && lens[t] >= e / 256
  {
    var l, c := lens[t], Codeword(lens, t);
    CodeFits(lens, m, t);
    MsbValMsb(Code(lens, t), l);
    CodeRange(lens, t);
    if l <= fb {
      IndexLeast(reg, fb, w, c, rest, l);
      assert c[..l] == c;
      BeyondShort(lens, m, fb, w);
      MsbValPrefix(w, l);
      EndShift(lens, l, fb);
      ShrSpec(MsbVal(w), fb - l, End(lens, l));
    } else {
      IndexLeast(reg, fb, w, c, rest, fb);
      assert w[..fb] == w;
      MsbValPrefix(c, fb);
    }
  }

  lemma EndShift(lens: Lens, a: nat, b: nat)
    requires a <= b
    ensures End(lens, b) >= Shl(End(lens, a), b - a)
  {
    if a < b {
      FirstAfterEnd(lens, a, b);
    }
  }

  // ----- searching by length

  /** With all shorter codewords excluded, n bits below End(n) are a codeword. */
  lemma LengthHit(lens: Lens, m: nat, n: nat, rest: seq<bool>) returns (s: nat)
    requires Fits(lens, m) && 0 < n <= |rest|
    requires forall t: nat :: StartsWith(lens, t, rest) ==> lens[t] >= n
    requires MsbVal(rest[..n]) < End(lens, n)
    ensures StartsWith(lens, s, rest) && lens[s] == n && Code(lens, s) == MsbVal(rest[..n])
  {
    s := BelowEnd(lens, m, rest[..n]);
    assert StartsWith(lens, s, rest);
    CodewordPrefix(lens, m, s, rest[..n]);
  }

  /** ... and n bits at or past End(n) are not. */
  lemma LengthMiss(lens: Lens, m: nat, n: nat, rest: seq<bool>, t: nat)
    requires Fits(lens, m) && 0 < n <= |rest| && MsbVal(rest[..n]) >= End(lens, n)
    requires StartsWith(lens, t, rest)
    ensures lens[t] != n
  {
    if lens[t] == n {
      CodewordPrefix(lens, m, t, rest[..n]);
      CodeRange(lens, t);
    }
  }

  // ----- which codes can be led astray

  /** A search that strays has come upon an index beyond all codewords. */
  lemma {:induction false} StrayBeyond(lens: Lens, m: nat, fb: nat, bits: seq<bool>, k: nat)
    requires Fits(lens, m) && 0 < fb <= m && Strays(lens, fb, bits, k)
    ensures Hi(lens, fb, m) + 1 < Pow2(fb)
    decreases if k < fb then fb - k else 0
  {
    hide Fits, Hi, Fetch, Codeword, MsbVal, Pow2;
    var w := Index(bits, k, fb);
    if Unclaimed(lens, w) {
      forall s: nat
        ensures !ShortAt(lens, fb, w, s)
      {
      }
      UnclaimedBeyond(lens, m, fb, w);
      MsbMsbVal(w);
    } else {
      var s: nat :| StartsWith(lens, s, w) && k < lens[s] <= fb && Strays(lens, fb, bits, Fetch(k, lens[s]));
      StrayBeyond(lens, m, fb, bits, Fetch(k, lens[s]));
    }
  }

  function Ones(n: nat): (b: seq<bool>)
    ensures |b| == n
  {
    seq(n, _ => true)
  }

  lemma {:induction false} OnesValue(n: nat)
    ensures MsbVal(Ones(n)) == Pow2(n) - 1
  {
    if n > 0 {
      OnesValue(n - 1);
      assert Ones(n) == Ones(n - 1) + [true];
      MsbValConcat(Ones(n - 1), [true]);
      assert Rev([true]) == [true] && FromBits([true]) == 1;
    }
  }

  /** If the last index is beyond all codewords, nothing claims it. */
  lemma OnesUnclaimed(lens: Lens, m: nat, fb: nat)
    requires Fits(lens, m) && 0 < fb <= m && Hi(lens, fb, m) + 1 < Pow2(fb)
    ensures Unclaimed(lens, Ones(fb))
  {
    hide Fits, Codeword, MsbVal, Shr, Shl;
    var w := Ones(fb);
    OnesValue(fb);
    forall s: nat
      ensures !ShortAt(lens, fb, w, s)
    {
      if ShortAt(lens, fb, w, s) {
        LastShort(lens, m, fb, s);
      }
    }
    UnclaimedBeyond(lens, m, fb, w);
  }

  /** A short codeword of ones is the last of a complete code. */
  lemma LastShort(lens: Lens, m: nat, fb: nat, s: nat)
    requires Fits(lens, m) && fb <= m && ShortAt(lens, fb, Ones(fb), s)
    ensures Hi(lens, fb, m) + 1 >= Pow2(fb)
  {
    var b := lens[s];
    assert Codeword(lens, s) == Ones(fb)[..b] == Ones(b);
    OnesValue(b);
    CodeFits(lens, m, s);
    MsbValMsb(Code(lens, s), b);
    CodeRange(lens, s);
    EndShift(lens, b, m);
    ShlMono(Pow2(b), End(lens, b), m - b);
    ShlPow2(b, m - b);
    ShlPow2(fb, m - fb);
    ShlMono(Pow2(fb) - 1, Pow2(fb), m - fb);
    ShrSpec(End(lens, m) - 1, m - fb, Pow2(fb) - 1);
  }

  /**
   Exactly which codes can be led astray in a table of their own: those without any codeword, and those whose
   codewords leave the last index of the first table unused.  A caller can tell from the lengths alone.
   */
  lemma AstrayIff(lens: Lens, limit: nat)
    requires Fits(lens, Longest(lens)) && 0 < limit <= 8
    ensures var m := Longest(lens);
            var fb := Min(limit, m);
            (exists bits :: DecodeSym(lens, limit, bits).Undefined?) <==> m == 0 || Hi(lens, fb, m) + 1 < Pow2(fb)
  {
    hide DecodeSym, Hi, Fits, Strays, Unclaimed, Pow2, StartsWith;
    var m := Longest(lens);
    var fb := Min(limit, m);
    if m == 0 {
      NothingCoded(lens, limit, []);
    } else if Hi(lens, fb, m) + 1 < Pow2(fb) {
      OnesUnclaimed(lens, m, fb);
      OnesStray(lens, limit, fb);
    }
    forall bits | DecodeSym(lens, limit, bits).Undefined? && m > 0
      ensures Hi(lens, fb, m) + 1 < Pow2(fb)
    {
      UndefinedStrays(lens, limit, bits);
      StrayBeyond(lens, m, fb, bits, Fetch(|bits| % 8, Min(Shortest(lens), fb)));
    }
  }

  lemma UndefinedStrays(lens: Lens, limit: nat, bits: seq<bool>)
    requires DecodeSym(lens, limit, bits).Undefined? && 0 < limit && Longest(lens) > 0
    ensures var fb := Min(limit, Longest(lens));
            Strays(lens, fb, bits, Fetch(|bits| % 8, Min(Shortest(lens), fb)))
  {
  }

  lemma OnesStray(lens: Lens, limit: nat, fb: nat)
    requires 0 < fb <= 8 && fb == Min(limit, Longest(lens)) && Unclaimed(lens, Ones(fb))
    ensures DecodeSym(lens, limit, Ones(8)).Undefined?
  {
    hide Codeword;
    var bits := Ones(8);
    ShortestIs(lens);
    assert Fetch(0, Min(Shortest(lens), fb)) == 8;
    assert Index(bits, 8, fb) == Ones(fb);
    forall s: nat
      ensures !StartsWith(lens, s, bits)
    {
    }
    DecodeNone(lens, limit, bits);
  }
}
