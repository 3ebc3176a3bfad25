/** Building and using the decoder's Huffman tables. */
module HuffDecoder {
  import opened Bits
  import opened RevTab
  import opened Canonical
  import opened DecodeTable
  import opened BitReader

  const MAX_HUFF_BITS := 17
  const MAX_FLAT_BITS := 7
  const MAX_LEAF := 288

  /** Symbols before n whose codeword starts w have their entry; others the length bound. */
  ghost predicate FlatUpTo(lens: Lens, fb: nat, m: nat, n: nat, w: seq<bool>, e: int)
  {
    if exists s: nat :: s < n && ShortAt(lens, fb, w, s) then
      exists s: nat :: s < n && ShortAt(lens, fb, w, s) && e == s * 256 + lens[s]
    else
      Minimal(lens, fb, m, fb, MsbVal(w), e)
  }

  ghost predicate FlatFor(lens: Lens, m: nat, fb: nat, flat: seq<int>)
  {
    && fb <= MAX_FLAT_BITS && Pow2(fb) <= |flat| == 128
    && forall x :: 0 <= x < Pow2(fb) ==> FlatEntry(lens, fb, m, ToBits(x, fb), flat[x])
  }

  ghost predicate SlotsFor(lens: Lens, n: nat, minbits: nat, decode: seq<nat>)
  {
    && n <= |lens| <= |decode|
    && forall s :: 0 <= s < n && lens[s] > minbits > 0 ==> 0 <= Slot(lens, s) < |decode| && decode[Slot(lens, s)] == s
  }

  method CountLens(hb: Lens) returns (bitcount: array<nat>, minbits: nat, maxbits: int)
    requires forall i :: 0 <= i < |hb| ==> hb[i] < MAX_HUFF_BITS
    ensures fresh(bitcount) && bitcount.Length == MAX_HUFF_BITS
    ensures forall b :: 0 <= b < MAX_HUFF_BITS ==> bitcount[b] == Used(hb, b)
    ensures -1 <= maxbits < MAX_HUFF_BITS && maxbits != 0 && minbits > 0
    ensures forall i :: 0 <= i < |hb| ==> hb[i] <= maxbits || hb[i] == 0
    ensures forall i :: 0 <= i < |hb| && hb[i] > 0 ==> minbits <= hb[i]
    ensures maxbits > 0 ==> minbits <= maxbits && maxbits in hb && minbits in hb
  {
    bitcount := new nat[MAX_HUFF_BITS](_ => 0);
    maxbits := -1;
    minbits := MAX_HUFF_BITS + 1;
    for i := 0 to |hb|
      invariant forall b :: 0 <= b < MAX_HUFF_BITS ==> bitcount[b] == Used(hb[..i], b)
      invariant -1 <= maxbits < MAX_HUFF_BITS && maxbits != 0 && minbits > 0
      invariant forall j :: 0 <= j < i ==> hb[j] <= maxbits || hb[j] == 0
      invariant forall j :: 0 <= j < i && hb[j] > 0 ==> minbits <= hb[j]
      invariant if maxbits > 0 then minbits <= maxbits && maxbits in hb && minbits in hb else minbits > MAX_HUFF_BITS
    {
      var b := hb[i];
      assert hb[..i + 1][..i] == hb[..i];
      if b != 0 {
        bitcount[b] := bitcount[b] + 1;
        if b < minbits {
          minbits := b;
        }
        if b > maxbits {
          maxbits := b;
        }
      }
    }
    assert hb[..|hb|] == hb;
  }

  /** The tables hold the right values for lengths below n, none of them oversubscribed. */
  ghost predicate CodesUpTo(hb: Lens, n: nat, maxcode: seq<int>, last: seq<int>, nc: seq<nat>)
  {
    && n <= MAX_HUFF_BITS == |maxcode| == |last| == |nc|
    && (forall k :: 0 <= k < n ==> maxcode[k] == End(hb, k) - 1)
    && (forall k :: 0 <= k < n ==> last[k] == Shorter(hb, k) + End(hb, k) - 1)
    && (forall k :: 0 <= k < n ==> nc[k] == First(hb, k))
    && (forall k :: 0 <= k < n ==> FitsAt(hb, k))
  }

  /** First codeword, last codeword and slot base of each length; fails if one is oversubscribed. */
  method AssignCodes(ghost hb: Lens, bitcount: array<nat>, maxbits: nat,
                     maxcode: array<int>, last: array<int>, nc: array<nat>) returns (ok: bool)
    requires maxbits < MAX_HUFF_BITS == bitcount.Length == maxcode.Length == last.Length == nc.Length
    requires maxcode != last && nc != bitcount
    requires forall b :: 0 <= b < MAX_HUFF_BITS ==> bitcount[b] == Used(hb, b)
    requires forall i :: 0 <= i < |hb| ==> hb[i] <= maxbits
    modifies maxcode, last, nc
    ensures ok <==> Fits(hb, maxbits)
    ensures ok ==> CodesUpTo(hb, maxbits + 1, maxcode[..], last[..], nc[..])
  {
    var code, c := 0, 0;
    var b := 0;
    while b <= maxbits
      invariant 0 <= b <= maxbits + 1
      invariant 2 * code == First(hb, b) && c == Shorter(hb, b)
      invariant CodesUpTo(hb, b, maxcode[..], last[..], nc[..])
    {
      last[b] := c;
      c := c + bitcount[b];
      var mincode := 2 * code;
      nc[b] := mincode;
      code := mincode + bitcount[b];
      assert code == End(hb, b);
      assert FitsAt(hb, b) <==> code <= Pow2(b);
      if code > Pow2(b) {
        return false;
      }
      maxcode[b] := code - 1;
      last[b] := last[b] + code - 1;
      b := b + 1;
    }
    ok := true;
  }

  /** Give entry e to every prefix whose value is at least lo and below hi. */
  method FillRange(flat: array<int>, revtab: seq<byte>, fb: nat, lo: nat, hi: nat, e: int)
    requires IsRevTab(revtab) && fb <= MAX_FLAT_BITS && flat.Length == 128
    requires hi <= Pow2(fb)
    modifies flat
    ensures Pow2(fb) <= 128
    ensures forall x :: 0 <= x < Pow2(fb) ==>
              flat[x] == if lo <= MsbVal(ToBits(x, fb)) < hi then e else old(flat[x])
  {
    Pow2Mono(fb, 7);
    Pow2Small();
    var fc := lo;
    while fc < hi
      invariant fc == lo || lo <= fc <= hi
      invariant forall x :: 0 <= x < Pow2(fb) ==>
                  flat[x] == if lo <= MsbVal(ToBits(x, fb)) < fc then e else old(flat[x])
    {
      RevCodeReverses(revtab, fc, fb);
      RevIndex(fc, fb);
      ghost var y := RevCode(revtab, fc, fb);
      forall x | 0 <= x < Pow2(fb) && MsbVal(ToBits(x, fb)) == fc
        ensures x == y
      {
        RevIndex(x, fb);
      }
      flat[RevCode(revtab, fc, fb)] := e;
      fc := fc + 1;
    }
  }

  /** One more length: prefixes in its range now have it as their least length. */
  lemma MinimalStep(lens: Lens, fb: nat, m: nat, b: nat, v: nat, e: int, e': int)
    requires fb < b <= m <= 16 && Minimal(lens, fb, m, b, v, e)
    requires e' == if InRange(lens, fb, b, v) then b * 256 + 255 else e
    ensures Minimal(lens, fb, m, b - 1, v, e')
  {
    assert e == -1 || e / 256 > b;
  }

  /** The bounds that the loop over long codewords computes are the prefix range of the length. */
  lemma RangeBounds(lens: Lens, m: nat, fb: nat, b: nat)
    requires Fits(lens, m) && fb < b <= m && End(lens, b) > 0
    ensures 0 <= Hi(lens, fb, b) < Pow2(fb)
  {
    assert FitsAt(lens, b);
    ShrMono(End(lens, b) - 1, Pow2(b) - 1, b - fb);
    ShrBound(Pow2(b) - 1, b, b - fb);
  }

  lemma EmptyBelow(lens: Lens, fb: nat, b: nat, c: nat, v: nat)
    requires fb < c <= b && End(lens, b) == 0
    ensures !InRange(lens, fb, c, v)
  {
    if End(lens, c) > 0 {
      EndShift(lens, c, b);
      ShlMono(End(lens, c), 0, b - c);
    }
  }

  ghost predicate AllMinimal(lens: Lens, fb: nat, m: nat, lo: nat, flat: seq<int>)
  {
    Pow2(fb) <= |flat| && forall x :: 0 <= x < Pow2(fb) ==> Minimal(lens, fb, m, lo, MsbVal(ToBits(x, fb)), flat[x])
  }

  /** Mark the prefixes of the codewords of one length above fb. */
  method FillLength(flat: array<int>, revtab: seq<byte>, ghost lens: Lens, fb: nat, ghost m: nat,
                    b: nat, code: nat, count: nat)
    requires IsRevTab(revtab) && 0 < fb <= MAX_FLAT_BITS && fb < b <= m < MAX_HUFF_BITS && Fits(lens, m)
    requires flat.Length == 128 && count == Used(lens, b) && code == End(lens, b) - 1
    requires AllMinimal(lens, fb, m, b, flat[..])
    modifies flat
    ensures AllMinimal(lens, fb, m, b - 1, flat[..])
  {
    var mincode := code + 1 - count;
    RangeBounds(lens, m, fb, b);
    FillRange(flat, revtab, fb, Shr(mincode, b - fb), Shr(code, b - fb) + 1, b * 256 + 255);
    forall x | 0 <= x < Pow2(fb)
      ensures Minimal(lens, fb, m, b - 1, MsbVal(ToBits(x, fb)), flat[x])
    {
      var v := MsbVal(ToBits(x, fb));
      assert Minimal(lens, fb, m, b, v, old(flat[..])[x]);
      assert InRange(lens, fb, b, v) <==> Shr(mincode, b - fb) <= v < Shr(code, b - fb) + 1;
      MinimalStep(lens, fb, m, b, v, old(flat[x]), flat[x]);
    }
  }

  lemma MinimalRest(lens: Lens, fb: nat, m: nat, b: nat, flat: seq<int>)
    requires fb < b <= m <= 16 && End(lens, b) == 0 && AllMinimal(lens, fb, m, b, flat)
    ensures AllMinimal(lens, fb, m, fb, flat)
  {
    forall x | 0 <= x < Pow2(fb)
      ensures Minimal(lens, fb, m, fb, MsbVal(ToBits(x, fb)), flat[x])
    {
      var v := MsbVal(ToBits(x, fb));
      forall c: nat | fb < c <= b
        ensures !InRange(lens, fb, c, v)
      {
        EmptyBelow(lens, fb, b, c, v);
      }
    }
  }

  method FillLong(flat: array<int>, revtab: seq<byte>, ghost lens: Lens, fb: nat, maxbits: nat,
                  bitcount: array<nat>, maxcode: array<int>)
    requires IsRevTab(revtab) && 0 < fb <= MAX_FLAT_BITS && fb <= maxbits < MAX_HUFF_BITS && Fits(lens, maxbits)
    requires flat.Length == 128 && flat != maxcode && maxcode.Length == MAX_HUFF_BITS == bitcount.Length
    requires forall b :: 0 <= b <= maxbits ==> bitcount[b] == Used(lens, b) && maxcode[b] == End(lens, b) - 1
    modifies flat
    ensures AllMinimal(lens, fb, maxbits, fb, flat[..])
  {
    Pow2Mono(fb, 7);
    Pow2Small();
    forall i | 0 <= i < flat.Length {
      flat[i] := -1;
    }
    var b := maxbits;
    while b > fb
      invariant fb <= b <= maxbits
      invariant AllMinimal(lens, fb, maxbits, b, flat[..])
    {
      var code := maxcode[b];
      if code == -1 {
        MinimalRest(lens, fb, maxbits, b, flat[..]);
        return;
      }
      FillLength(flat, revtab, lens, fb, maxbits, b, code, bitcount[b]);
      b := b - 1;
    }
  }

  ghost predicate AllFlatUpTo(lens: Lens, fb: nat, m: nat, n: nat, flat: seq<int>)
  {
    Pow2(fb) <= |flat| && forall x :: 0 <= x < Pow2(fb) ==> FlatUpTo(lens, fb, m, n, ToBits(x, fb), flat[x])
  }

  /** The prefixes that a short codeword starts form one range of values. */
  lemma ShortRange(lens: Lens, m: nat, fb: nat, w: seq<bool>, s: nat)
    requires Fits(lens, m) && |w| == fb && s < |lens| && 0 < lens[s] <= fb
    ensures ShortAt(lens, fb, w, s) <==>
            Shl(Code(lens, s), fb - lens[s]) <= MsbVal(w) < Shl(Code(lens, s) + 1, fb - lens[s])
    ensures Shl(Code(lens, s) + 1, fb - lens[s]) <= Pow2(fb)
  {
    var c, k := Code(lens, s), fb - lens[s];
    CodewordPrefix(lens, m, s, w);
    ShrSpec(MsbVal(w), k, c);
    ShrSpec(MsbVal(w), k, c + 1);
    CodeFits(lens, m, s);
    ShlPow2(lens[s], k);
    ShlMono(c + 1, Pow2(lens[s]), k);
  }

  lemma FlatUpToStep(lens: Lens, m: nat, fb: nat, n: nat, w: seq<bool>, e: int, e': int)
    requires Fits(lens, m) && n < |lens| && FlatUpTo(lens, fb, m, n, w, e)
    requires e' == if ShortAt(lens, fb, w, n) then n * 256 + lens[n] else e
    ensures FlatUpTo(lens, fb, m, n + 1, w, e')
  {
    if ShortAt(lens, fb, w, n) {
      forall s: nat | s < n
        ensures !ShortAt(lens, fb, w, s)
      {
        if ShortAt(lens, fb, w, s) {
          OneStarts(lens, m, s, n, w);
        }
      }
    }
  }

  /** Enter one symbol in the flat table when its codeword is short enough. */
  method PlaceFlat(flat: array<int>, revtab: seq<byte>, ghost lens: Lens, fb: nat, ghost m: nat, i: nat, b: nat, c: nat)
    returns (ok: bool)
    requires IsRevTab(revtab) && 0 < fb <= MAX_FLAT_BITS && fb <= m && Fits(lens, m) && flat.Length == 128
    requires i < |lens| && b == lens[i] > 0 && c == Code(lens, i)
    requires AllFlatUpTo(lens, fb, m, i, flat[..])
    modifies flat
    ensures ok && AllFlatUpTo(lens, fb, m, i + 1, flat[..])
  {
    if b <= fb {
      var ec := Shl(c + 1, fb - b);
      ShortRange(lens, m, fb, Zeros(fb), i);
      if ec > Pow2(fb) {
        return false;
      }
      FillRange(flat, revtab, fb, Shl(c, fb - b), ec, i * 256 + b);
    }
    forall x | 0 <= x < Pow2(fb)
      ensures FlatUpTo(lens, fb, m, i + 1, ToBits(x, fb), flat[x])
    {
      var w := ToBits(x, fb);
      if b <= fb {
        ShortRange(lens, m, fb, w, i);
      }
      assert FlatUpTo(lens, fb, m, i, w, old(flat[..])[x]);
      FlatUpToStep(lens, m, fb, i, w, old(flat[x]), flat[x]);
    }
    ok := true;
  }

  lemma FlatDone(lens: Lens, m: nat, fb: nat, flat: seq<int>)
    requires Fits(lens, m) && 0 < fb <= MAX_FLAT_BITS && fb <= m && |flat| == 128
    requires AllFlatUpTo(lens, fb, m, |lens|, flat)
    ensures FlatFor(lens, m, fb, flat)
  {
    forall x | 0 <= x < Pow2(fb)
      ensures FlatEntry(lens, fb, m, ToBits(x, fb), flat[x])
    {
      var w := ToBits(x, fb);
      if !exists s: nat :: ShortAt(lens, fb, w, s) {
        LongSound(lens, m, fb, w, flat[x]);
      }
    }
  }

  ghost predicate NextCodes(lens: Lens, n: nat, m: nat, nc: seq<nat>)
  {
    n <= |lens| && m < |nc| && forall b :: 0 < b <= m ==> nc[b] == First(lens, b) + Count(lens[..n], b)
  }

  /** Enter one symbol in the slot that the search by length will compute. */
  method PlaceSlot(decode: array<nat>, hb: Lens, minbits: nat, i: nat, d: int) returns (ok: bool)
    requires decode.Length == MAX_LEAF && i < |hb| <= MAX_LEAF && hb[i] > minbits > 0
    requires d == Slot(hb, i) && SlotsFor(hb, i, minbits, decode[..])
    modifies decode
    ensures ok && SlotsFor(hb, i + 1, minbits, decode[..])
  {
    SlotRange(hb, i);
    if d >= |hb| {
      return false;
    }
    forall s | 0 <= s < i && hb[s] > minbits
      ensures Slot(hb, s) != d
    {
      if Slot(hb, s) == d {
        SlotInjective(hb, s, i);
      }
    }
    decode[d] := i;
    ok := true;
  }

  /** Walk the symbols in order, giving each the next codeword of its length. */
  method PlaceSymbols(flat: array<int>, decode: array<nat>, revtab: seq<byte>, hb: Lens, fb: nat, minbits: nat,
                      ghost m: nat, last: array<int>, nc: array<nat>) returns (ok: bool)
    requires IsRevTab(revtab) && 0 < minbits <= fb <= MAX_FLAT_BITS && fb <= m < MAX_HUFF_BITS && Fits(hb, m)
    requires flat.Length == 128 && decode.Length == MAX_LEAF && |hb| <= MAX_LEAF
    requires last.Length == nc.Length == MAX_HUFF_BITS && last != flat && nc != decode
    requires forall b :: 0 <= b <= m ==> last[b] == Shorter(hb, b) + End(hb, b) - 1
    requires NextCodes(hb, 0, m, nc[..])
    requires AllFlatUpTo(hb, fb, m, 0, flat[..])
    modifies flat, decode, nc
    ensures ok && FlatFor(hb, m, fb, flat[..]) && SlotsFor(hb, |hb|, minbits, decode[..])
  {
    for i := 0 to |hb|
      invariant NextCodes(hb, i, m, nc[..])
      invariant AllFlatUpTo(hb, fb, m, i, flat[..])
      invariant SlotsFor(hb, i, minbits, decode[..])
    {
      var b := hb[i];
      NextCodesStep(hb, i, m, nc[..]);
      if b > 0 {
        var c := nc[b];
        nc[b] := c + 1;
        ok := PlaceFlat(flat, revtab, hb, fb, m, i, b, c);
        if b > minbits {
          ok := PlaceSlot(decode, hb, minbits, i, last[b] - c);
          if !ok {
            return;
          }
        }
      } else {
        SkipUnused(hb, fb, m, i, flat[..]);
      }
    }
    FlatDone(hb, m, fb, flat[..]);
    ok := true;
  }

  lemma NextCodesStep(lens: Lens, i: nat, m: nat, nc: seq<nat>)
    requires NextCodes(lens, i, m, nc) && i < |lens| && lens[i] <= m
    ensures lens[i] > 0 ==> nc[lens[i]] == Code(lens, i) && NextCodes(lens, i + 1, m, nc[lens[i] := nc[lens[i]] + 1])
    ensures lens[i] == 0 ==> NextCodes(lens, i + 1, m, nc)
  {
    assert lens[..i + 1][..i] == lens[..i];
  }

  lemma SkipUnused(lens: Lens, fb: nat, m: nat, i: nat, flat: seq<int>)
    requires i < |lens| && lens[i] == 0 && Fits(lens, m) && AllFlatUpTo(lens, fb, m, i, flat)
    ensures AllFlatUpTo(lens, fb, m, i + 1, flat)
  {
    forall x | 0 <= x < Pow2(fb)
      ensures FlatUpTo(lens, fb, m, i + 1, ToBits(x, fb), flat[x])
    {
      FlatUpToStep(lens, m, fb, i, ToBits(x, fb), flat[x], flat[x]);
    }
  }

  /** The tables decode exactly the canonical code of the given lengths; without any codeword they stay as they were. */
  ghost predicate TableFor(lens: Lens, limit: nat, m: nat, minbits: nat, fb: nat, flat: seq<int>, maxcode: seq<int>,
                           last: seq<int>,
                           decode: seq<nat>, maxleaf: nat)
  {
    && m < MAX_HUFF_BITS == |maxcode| == |last| && Fits(lens, m) && minbits <= fb <= m && fb <= MAX_FLAT_BITS
    && m == Longest(lens) && fb == Min(limit, m) && minbits == Min(Shortest(lens), fb)
    && (forall s :: 0 <= s < |lens| && lens[s] > 0 ==> minbits <= lens[s])
    && (m > 0 ==>
          && 0 < minbits && maxleaf == |lens| && FlatFor(lens, m, fb, flat)
          && (forall b :: 0 <= b <= m ==> maxcode[b] == End(lens, b) - 1)
          && (forall b :: 0 <= b <= m ==> last[b] == Shorter(lens, b) + End(lens, b) - 1)
          && SlotsFor(lens, |lens|, minbits, decode))
  }

  /** An entry for the index 0 of a code with n symbols. */
  predicate ZeroEntry(e: int, n: nat)
  {
    e >= 0 && if e % 256 == 255 then e / 256 > 0 else 0 < e % 256 <= MAX_FLAT_BITS && e / 256 < n
  }

  /**
   The entry for the index 0 is always set, since the first codeword consists of zeros; it stands for that codeword
   unless that is too long.
   */
  lemma FirstEntry(lens: Lens, m: nat, fb: nat, flat: seq<int>)
    requires Fits(lens, m) && 0 < fb <= m == Longest(lens) && fb <= MAX_FLAT_BITS && FlatFor(lens, m, fb, flat)
    ensures ZeroEntry(flat[0], |lens|) && (flat[0] % 256 == 255 <==> Shortest(lens) > fb)
  {
    hide Fits, Codeword, Unclaimed, MsbVal, ToBits, Pow2, First, Hi;
    Pow2Small();
    var w := ToBits(0, fb);
    ShortestIs(lens);
    if Shortest(lens) <= fb {
      var s := ZeroCodeword(lens, m, fb);
    }
    assert FlatEntry(lens, fb, m, w, flat[0]);
    if exists s: nat :: ShortAt(lens, fb, w, s) {
      var s: nat :| ShortAt(lens, fb, w, s) && flat[0] == s * 256 + lens[s];
    } else {
      FirstClaimed(lens, m, fb, w);
    }
  }

  /** The first symbol with the shortest length has a codeword of zeros. */
  lemma ZeroCodeword(lens: Lens, m: nat, fb: nat) returns (s: nat)
    requires Fits(lens, m) && 0 < Shortest(lens) <= fb
    ensures ShortAt(lens, fb, ToBits(0, fb), s)
  {
    ShortestIs(lens);
    var n := Shortest(lens);
    s := FirstOf(lens, n);
    NoneBefore(lens[..s], n);
    NothingShorter(lens, n - 1);
    assert Code(lens, s) == 0;
    ZeroBits(n);
    ZeroBits(fb);
    assert Zeros(fb)[..n] == Zeros(n);
  }

  lemma {:induction false} FirstOf(lens: Lens, n: nat) returns (s: nat)
    requires n in lens
    ensures s < |lens| && lens[s] == n && forall i :: 0 <= i < s ==> lens[i] != n
  {
    if lens[0] == n {
      s := 0;
    } else {
      s := FirstOf(lens[1..], n);
      s := s + 1;
    }
  }

  lemma NoneBefore(lens: Lens, n: nat)
    requires forall i :: 0 <= i < |lens| ==> lens[i] != n
    ensures Count(lens, n) == 0
  {
    CountNone(lens, n);
  }

  lemma {:induction false} NothingShorter(lens: Lens, b: nat)
    requires forall i :: 0 <= i < |lens| && lens[i] > 0 ==> lens[i] > b
    ensures End(lens, b) == 0
  {
    if b > 0 {
      NothingShorter(lens, b - 1);
      CountNone(lens, b);
    }
  }

  lemma ZeroBits(n: nat)
    ensures ToBits(0, n) == Zeros(n) && Msb(0, n) == Zeros(n)
  {
    FromZeros(n);
    ToFrom(Zeros(n));
    MsbValZeros(n);
    MsbMsbVal(Zeros(n));
  }

  lemma FirstClaimed(lens: Lens, m: nat, fb: nat, w: seq<bool>)
    requires Fits(lens, m) && 0 < fb <= m == Longest(lens) && w == ToBits(0, fb)
    requires forall s: nat :: !ShortAt(lens, fb, w, s)
    ensures !Unclaimed(lens, w)
  {
    hide Fits, Codeword, Unclaimed, ToBits, Pow2;
    LongestIs(lens);
    var s :| 0 <= s < |lens| && lens[s] == m;
    CodeRange(lens, s);
    FromZeros(fb);
    ToFrom(Zeros(fb));
    MsbValZeros(fb);
    UnclaimedBeyond(lens, m, fb, w);
  }

  class Huff {
    var written: bool // whether flat[0] has been written; before that it is whatever the memory held
    var maxbits: nat
    var minbits: nat
    var flatbits: nat // flatmask is (1 << flatbits) - 1
    const flat: array<int>
    const maxcode: array<int>
    const last: array<int>
    const decode: array<nat>
    var maxleaf: nat

    ghost predicate Shape()
    {
      && flat.Length == 128 && maxcode.Length == last.Length == MAX_HUFF_BITS && decode.Length == MAX_LEAF
      && flat != maxcode && flat != last && maxcode != last
    }

    /** The tables share no storage with another's. */
    ghost predicate Apart(h: Huff)
    {
      && this != h && {flat, maxcode, last} !! {h.flat, h.maxcode, h.last} && decode != h.decode
    }

    /** No codeword, but an entry left from an earlier code in the same table. */
    predicate Old()
      reads this
    {
      maxbits == 0 && written
    }

    ghost predicate For(lens: Lens, limit: nat)
      reads this, flat, maxcode, last, decode
    {
      && Shape() && (maxbits > 0 ==> written)
      && TableFor(lens, limit, maxbits, minbits, flatbits, flat[..], maxcode[..], last[..], decode[..], maxleaf)
    }

    constructor ()
      ensures Shape() && fresh(flat) && fresh(maxcode) && fresh(last) && fresh(decode) && !written
    {
      written := false;
      maxbits, minbits, flatbits, maxleaf := 0, 0, 0, 0;
      flat := new int[128];
      maxcode := new int[MAX_HUFF_BITS];
      last := new int[MAX_HUFF_BITS];
      decode := new nat[MAX_LEAF];
    }

    /** Build the tables for the given lengths; fails exactly when a length is oversubscribed. */
    method HuffTab(revtab: seq<byte>, hb: Lens, flatlimit: nat) returns (ok: bool)
      requires Shape() && IsRevTab(revtab) && 0 < flatlimit <= MAX_FLAT_BITS && |hb| <= MAX_LEAF
      requires forall i :: 0 <= i < |hb| ==> hb[i] < MAX_HUFF_BITS
      modifies this, flat, maxcode, last, decode
      ensures ok <==> Fits(hb, MAX_HUFF_BITS - 1)
      ensures ok ==> For(hb, flatlimit)
      ensures ok && Longest(hb) == 0 ==> written == old(written) && flat[..] == old(flat[..])
      ensures ok && Longest(hb) > 0 ==>
                && written && ZeroEntry(flat[0], |hb|)
                && (flat[0] % 256 == 255 <==> Shortest(hb) > Min(flatlimit, Longest(hb)))
    {
      var bitcount, minb, maxb := CountLens(hb);
      if maxb <= 0 {
        maxbits, minbits, flatbits, maxleaf := 0, 0, 0, 0;
        EmptyTable(hb);
        return true;
      }
      maxbits := maxb;
      Extremes(hb, minb, maxb);
      FitsAbove(hb, maxb, MAX_HUFF_BITS - 1);
      var nc := new nat[MAX_HUFF_BITS];
      ok := AssignCodes(hb, bitcount, maxb, maxcode, last, nc);
      if !ok {
        return;
      }
      ok := FillTables(revtab, hb, flatlimit, minb, bitcount, nc);
      FirstEntry(hb, maxbits, flatbits, flat[..]);
    }

    /** The part of hufftab after codewords have been assigned to lengths. */
    method FillTables(revtab: seq<byte>, hb: Lens, flatlimit: nat, minb: nat, bitcount: array<nat>, nc: array<nat>)
      returns (ok: bool)
      requires Shape() && IsRevTab(revtab) && 0 < flatlimit <= MAX_FLAT_BITS && |hb| <= MAX_LEAF
      requires 0 < minb <= maxbits < MAX_HUFF_BITS && Fits(hb, maxbits)
      requires forall i :: 0 <= i < |hb| && hb[i] > 0 ==> minb <= hb[i]
      requires maxbits == Longest(hb) && minb == Shortest(hb)
      requires bitcount.Length == nc.Length == MAX_HUFF_BITS && nc != bitcount && nc != decode && bitcount != decode
      requires forall b :: 0 <= b < MAX_HUFF_BITS ==> bitcount[b] == Used(hb, b)
      requires CodesUpTo(hb, maxbits + 1, maxcode[..], last[..], nc[..])
      modifies `written, `flatbits, `minbits, `maxleaf, flat, decode, nc
      ensures ok && For(hb, flatlimit)
    {
      hide Fits, FlatFor, SlotsFor, AllFlatUpTo, AllMinimal, Used, First, End, Pow2, Shorter, Longest, Shortest;
      var fb := if flatlimit > maxbits then maxbits else flatlimit;
      flatbits := fb;
      minbits := if minb > fb then fb else minb;
      maxleaf := |hb|;
      written := true;
      FillLong(flat, revtab, hb, fb, maxbits, bitcount, maxcode);
      Starting(hb, fb, maxbits, flat[..], nc[..]);
      ok := PlaceSymbols(flat, decode, revtab, hb, fb, minbits, maxbits, last, nc);
    }
  }

  lemma EmptyTable(lens: Lens)
    requires forall i :: 0 <= i < |lens| ==> lens[i] == 0
    ensures Fits(lens, 0) && Fits(lens, 16) && Longest(lens) == Shortest(lens) == 0
  {
    FitsAbove(lens, 0, 16);
    LongestIs(lens);
    ShortestIs(lens);
  }

  lemma Extremes(lens: Lens, a: nat, b: nat)
    requires a in lens && b in lens && 0 < a <= b
    requires forall i :: 0 <= i < |lens| && lens[i] > 0 ==> a <= lens[i] <= b
    ensures Shortest(lens) == a && Longest(lens) == b
  {
    LongestIs(lens);
    ShortestIs(lens);
  }

  lemma Starting(lens: Lens, fb: nat, m: nat, flat: seq<int>, nc: seq<nat>)
    requires AllMinimal(lens, fb, m, fb, flat) && m < |nc| && forall k :: 0 <= k <= m ==> nc[k] == First(lens, k)
    ensures AllFlatUpTo(lens, fb, m, 0, flat) && NextCodes(lens, 0, m, nc)
  {
    assert lens[..0] == [];
  }
}
