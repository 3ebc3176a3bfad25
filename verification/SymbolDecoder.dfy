/** Decoding one Huffman symbol from the shift register. */
module SymbolDecoder {
  import opened Bits
  import opened RevTab
  import opened Canonical
  import opened DecodeTable
  import opened BitReader
  import opened HuffDecoder

  /** Every codeword that could still start the stream has at least n bits. */
  ghost predicate AtLeast(lens: Lens, rest: seq<bool>, n: nat)
  {
    forall t: nat :: StartsWith(lens, t, rest) ==> lens[t] >= n
  }

  lemma NothingFits(lens: Lens, limit: nat, rest: seq<bool>, n: nat)
    requires AtLeast(lens, rest, n) && |rest| < n <= Longest(lens) && !Lost(lens, limit, rest)
    ensures DecodeSym(lens, limit, rest) == Fails(NoInput)
  {
    hide Lost;
  }

  /** What an entry of the flat table says about the stream when nbits of it have been fetched. */
  ghost predicate Advice(lens: Lens, m: nat, fb: nat, nbits: nat, rest: seq<bool>, e: int)
  {
    if e == -1 then Strays(lens, fb, rest, nbits) && forall t: nat :: !StartsWith(lens, t, rest)
    else if e % 256 == 255 then
      fb < e / 256 <= m && End(lens, e / 256) > 0 && AtLeast(lens, rest, e / 256) && !Strays(lens, fb, rest, nbits)
    else if e % 256 <= nbits then 0 <= e / 256 && StartsWith(lens, e / 256, rest) && lens[e / 256] == e % 256
    else
      && 0 < e % 256 <= fb && AtLeast(lens, rest, e % 256)
      && (Strays(lens, fb, rest, nbits) <==> Strays(lens, fb, rest, Fetch(nbits, e % 256)))
  }

  lemma Lookup(lens: Lens, m: nat, fb: nat, flat: seq<int>, sreg: nat, nbits: nat, rest: seq<bool>)
    requires Fits(lens, m) && 0 < fb <= m && FlatFor(lens, m, fb, flat)
    requires sreg < Pow2(nbits) && ToBits(sreg, nbits) <= rest
    ensures Low(sreg, fb) < Pow2(fb) <= 128 && Advice(lens, m, fb, nbits, rest, flat[Low(sreg, fb)])
  {
    hide Fits, Codeword, LongEntry, Advice, ToBits, Pow2, Low, Unclaimed, Strays;
    LowZeroExtend(sreg, nbits, fb);
    var x, reg := Low(sreg, fb), ToBits(sreg, nbits);
    var w := ToBits(x, fb);
    assert FlatEntry(lens, fb, m, w, flat[x]);
    if exists s: nat :: ShortAt(lens, fb, w, s) {
      var s: nat :| ShortAt(lens, fb, w, s) && flat[x] == s * 256 + lens[s];
      LookupShort(lens, m, fb, reg, w, rest, s);
    } else {
      LookupLong(lens, m, fb, reg, w, rest, flat[x]);
    }
  }

  lemma IndexIs(reg: seq<bool>, fb: nat, w: seq<bool>, rest: seq<bool>)
    requires Indexed(reg, fb, w) && reg <= rest
    ensures Index(rest, |reg|, fb) == w
  {
    assert reg == rest[..|reg|];
  }

  /** A short codeword that is not there in full makes the search fetch it and go on. */
  lemma ShortGoesOn(lens: Lens, m: nat, fb: nat, reg: seq<bool>, w: seq<bool>, rest: seq<bool>, s: nat)
    requires Fits(lens, m) && Indexed(reg, fb, w) && reg <= rest && ShortAt(lens, fb, w, s) && |reg| < lens[s]
    ensures Strays(lens, fb, rest, |reg|) <==> Strays(lens, fb, rest, Fetch(|reg|, lens[s]))
  {
    hide Codeword, Fits, Fetch;
    IndexIs(reg, fb, w, rest);
    assert !Unclaimed(lens, w);
    forall t: nat | t < |lens| && StartsWith(lens, t, w)
      ensures t == s
    {
      OneStarts(lens, m, t, s, w);
    }
  }

  lemma LookupShort(lens: Lens, m: nat, fb: nat, reg: seq<bool>, w: seq<bool>, rest: seq<bool>, s: nat)
    requires Fits(lens, m) && fb <= MAX_FLAT_BITS && Indexed(reg, fb, w) && reg <= rest && ShortAt(lens, fb, w, s)
    ensures Advice(lens, m, fb, |reg|, rest, s * 256 + lens[s])
  {
    hide Strays, Fetch;
    var e := s * 256 + lens[s];
    assert e / 256 == s && e % 256 == lens[s];
    if lens[s] <= |reg| {
      ShortHit(lens, fb, reg, w, rest, s);
    } else {
      ShortGoesOn(lens, m, fb, reg, w, rest, s);
      forall t: nat | StartsWith(lens, t, rest)
        ensures lens[t] >= lens[s]
      {
        ShortMiss(lens, m, fb, reg, w, rest, s, t);
      }
    }
  }

  lemma LookupLong(lens: Lens, m: nat, fb: nat, reg: seq<bool>, w: seq<bool>, rest: seq<bool>, e: int)
    requires Fits(lens, m) && 0 < fb <= m && Indexed(reg, fb, w) && reg <= rest
    requires forall s: nat :: !ShortAt(lens, fb, w, s)
    requires LongEntry(lens, fb, m, MsbVal(w), e) && (e == -1 <==> Unclaimed(lens, w))
    ensures Advice(lens, m, fb, |reg|, rest, e)
  {
    hide Unclaimed, Fetch;
    IndexIs(reg, fb, w, rest);
    forall s: nat
      ensures !(StartsWith(lens, s, w) && lens[s] <= fb)
    {
      assert !ShortAt(lens, fb, w, s);
    }
    assert Strays(lens, fb, rest, |reg|) <==> e == -1;
    forall t: nat | StartsWith(lens, t, rest)
      ensures e != -1 && lens[t] >= e / 256
    {
      LongMiss(lens, m, fb, reg, w, rest, e, t);
    }
  }

  method RegTop(input: Input, revtab: seq<byte>, n: nat) returns (v: nat)
    requires input.Valid() && IsRevTab(revtab) && n <= 16 && n <= input.nbits
    ensures v == MsbVal(input.Rest()[..n])
  {
    v := Shr(RevWord(revtab, input.sreg), 16 - n);
    ReversedTop(revtab, input.sreg, input.nbits, n);
    assert input.Rest()[..n] == ToBits(input.sreg, input.nbits)[..n];
  }

  /** The slot computed from a codeword's value holds its symbol. */
  lemma SlotHit(lens: Lens, m: nat, limit: nat, n: nat, rest: seq<bool>, minbits: nat, decode: seq<nat>)
    requires Fits(lens, m) && 0 < minbits < n <= |rest| && AtLeast(lens, rest, n)
    requires MsbVal(rest[..n]) < End(lens, n) && SlotsFor(lens, |lens|, minbits, decode)
    ensures var d := Shorter(lens, n) + End(lens, n) - 1 - MsbVal(rest[..n]);
            0 <= d < |lens| <= |decode| && DecodeSym(lens, limit, rest) == Yields((decode[d], rest[n..]))
  {
    var s := LengthHit(lens, m, n, rest);
    SlotRange(lens, s);
    DecodeUnique(lens, m, limit, s, rest);
  }

  /** Search by length from the entry's on; the codeword, if there is one, has at least as many bits. */
  method HdecSym(input: Input, h: Huff, revtab: seq<byte>, ghost lens: Lens, ghost limit: nat, e: int) returns (c: int)
    requires input.Valid() && h.For(lens, limit) && IsRevTab(revtab) && h.maxbits > 0
    requires e == -1 || (e % 256 == 255 && h.flatbits < e / 256 <= h.maxbits && End(lens, e / 256) > 0)
    requires e != -1 ==> input.nbits < e / 256 + 8 && AtLeast(lens, input.Rest(), e / 256)
    requires e == -1 <==> Lost(lens, limit, input.Rest())
    requires e == -1 ==> forall t: nat :: !StartsWith(lens, t, input.Rest())
    modifies input
    ensures input.Valid()
    ensures c >= 0 ==> DecodeSym(lens, limit, old(input.Rest())) == Yields((c, input.Rest()))
    ensures c >= 0 ==> input.nbits < 8 && input.error == old(input.error)
    ensures c < 0 ==> Failed(DecodeSym(lens, limit, old(input.Rest())), input.error)
  {
    hide FlatFor, Fits, SlotsFor, StartsWith, DecodeSym, AtLeast, ToBits, ByteBits, Pow2, Shr, MsbVal, Low, Shorter,
         Lost, Longest, Shortest, NoneWhy, End;
    if e == -1 { // the source goes on with a length of -1, indexing its tables before their start
      DecodeNone(lens, limit, input.Rest());
      input.error := Unpredictable;
      return -1;
    }
    var nb := e / 256;
    while nb <= h.maxbits
      invariant h.flatbits < nb && End(lens, nb) > 0
      invariant input.Valid() && input.Rest() == old(input.Rest()) && input.error == old(input.error)
      invariant input.nbits < nb + 8 && (nb > h.maxbits ==> h.maxbits <= |input.Rest()|)
      invariant AtLeast(lens, input.Rest(), nb)
    {
      var ok := input.SregFill(nb);
      if !ok {
        NothingFits(lens, limit, input.Rest(), nb);
        return -1;
      }
      ghost var rest := input.Rest();
      var v := RegTop(input, revtab, nb);
      if v <= h.maxcode[nb] {
        SlotHit(lens, h.maxbits, limit, nb, rest, h.minbits, h.decode[..]);
        var d := h.last[nb] - v;
        if d >= h.maxleaf {
          break;
        }
        c := h.decode[d];
        input.Drop(nb);
        return;
      }
      StepLength(lens, h.maxbits, nb, rest);
      nb := nb + 1;
    }
    NothingLonger(lens, h.maxbits, limit, input.Rest(), nb);
    input.error := FlateCorrupted;
    c := -1;
  }

  lemma NothingLonger(lens: Lens, m: nat, limit: nat, rest: seq<bool>, n: nat)
    requires AtLeast(lens, rest, n) && Fits(lens, m) && Longest(lens) == m < n && m <= |rest|
             && !Lost(lens, limit, rest)
    ensures DecodeSym(lens, limit, rest) == Fails(Corrupt)
  {
    hide Lost;
  }

  lemma StepLength(lens: Lens, m: nat, n: nat, rest: seq<bool>)
    requires Fits(lens, m) && 0 < n <= |rest| && MsbVal(rest[..n]) >= End(lens, n) > 0 && AtLeast(lens, rest, n)
    ensures AtLeast(lens, rest, n + 1) && End(lens, n + 1) > 0
  {
    forall t: nat | StartsWith(lens, t, rest)
      ensures lens[t] >= n + 1
    {
      LengthMiss(lens, m, n, rest, t);
    }
  }

  lemma AtLeastMin(lens: Lens, rest: seq<bool>, n: nat)
    requires forall s :: 0 <= s < |lens| && lens[s] > 0 ==> n <= lens[s]
    ensures AtLeast(lens, rest, n)
  {
  }

  lemma Hit(lens: Lens, m: nat, limit: nat, rest: seq<bool>, n: nat, s: nat)
    requires Fits(lens, m) && AtLeast(lens, rest, n) && StartsWith(lens, s, rest)
    ensures lens[s] >= n && DecodeSym(lens, limit, rest) == Yields((s, rest[lens[s]..]))
  {
    DecodeUnique(lens, m, limit, s, rest);
  }

  /** Where the search starts. */
  lemma LostIs(lens: Lens, limit: nat, fb: nat, minbits: nat, rest: seq<bool>, nbits: nat)
    requires 0 < fb == Min(limit, Longest(lens)) && minbits == Min(Shortest(lens), fb) && nbits == |rest| % 8
    ensures Lost(lens, limit, rest) <==> Strays(lens, fb, rest, Fetch(nbits, minbits))
  {
  }

  /** A search that needs more bits than there are fails without straying. */
  lemma NoMoreBits(lens: Lens, fb: nat, rest: seq<bool>, k: nat)
    requires k > |rest|
    ensures !Strays(lens, fb, rest, k)
  {
  }

  /** The lookup when there is no codeword, but an entry of an earlier code, which every index leads to. */
  method OldSym(input: Input, h: Huff) returns (c: int)
    requires input.Valid() && input.nbits < 8 && h.Shape() && h.Old() && ZeroEntry(h.flat[0], MAX_LEAF)
    modifies input
    ensures input.Valid() && OldRead(h.flat[0], old(input.Rest()), c, input.Rest(), input.error)
    ensures c >= 0 ==> input.nbits < 8 && input.error == old(input.error)
  {
    hide ToBits, ByteBits, Pow2;
    var nb := 0;
    while true
      invariant nb == 0 || nb == h.flat[0] % 256 <= MAX_FLAT_BITS
      invariant input.Valid() && input.Rest() == old(input.Rest()) && input.error == old(input.error)
      invariant input.nbits < nb + 8
      decreases 8 - nb
    {
      var ok := input.SregFill(nb);
      if !ok {
        return -1;
      }
      var e := h.flat[0];
      var n := e % 256;
      if n > input.nbits {
        if n != 255 {
          nb := n;
          continue;
        }
        input.error := FlateCorrupted; // hdecsym finds the entry's length beyond maxbits
        return -1;
      }
      c := e / 256;
      input.Drop(n);
      return;
    }
  }

  /** What reading with an old entry e gives. */
  ghost predicate OldRead(e: int, bits: seq<bool>, c: int, rest: seq<bool>, error: Status)
  {
    if e % 256 == 255 then c < 0 && error == FlateCorrupted
    else if |bits| < e % 256 then c < 0 && error == FlateInputFail
    else c == e / 256 && rest == bits[e % 256..]
  }

  /** The lookup loop that precedes every symbol. */
  method NextSym(input: Input, h: Huff, revtab: seq<byte>, ghost lens: Lens, ghost limit: nat) returns (c: int)
    requires input.Valid() && input.nbits < 8 && h.For(lens, limit) && IsRevTab(revtab)
    requires h.Old() ==> ZeroEntry(h.flat[0], MAX_LEAF)
    modifies input
    ensures input.Valid()
    ensures c >= 0 ==> input.nbits < 8 && input.error == old(input.error)
    ensures h.Old() ==> OldRead(h.flat[0], old(input.Rest()), c, input.Rest(), input.error)
    ensures !h.Old() && c >= 0 ==> DecodeSym(lens, limit, old(input.Rest())) == Yields((c, input.Rest()))
    ensures !h.Old() && c < 0 ==> Failed(DecodeSym(lens, limit, old(input.Rest())), input.error)
  {
    hide FlatFor, Fits, SlotsFor, StartsWith, DecodeSym, AtLeast, ToBits, ByteBits, Pow2, Shr, MsbVal, Low, Shorter,
         Strays, Lost, Fetch, OldRead, ZeroEntry, Longest, Shortest, NoneWhy;
    if h.Old() {
      c := OldSym(input, h);
      return;
    }
    if h.maxbits == 0 { // flat[0] is read unset
      NothingCoded(lens, limit, input.Rest());
      input.error := Unpredictable;
      return -1;
    }
    var nb := h.minbits;
    AtLeastMin(lens, input.Rest(), nb);
    assert input.nbits == |input.Rest()| % 8;
    LostIs(lens, limit, h.flatbits, h.minbits, input.Rest(), input.nbits);
    while true
      invariant 0 < nb <= h.flatbits && h.For(lens, limit)
      invariant input.Valid() && input.Rest() == old(input.Rest()) && input.error == old(input.error)
      invariant input.nbits < nb + 8 && AtLeast(lens, input.Rest(), nb)
      invariant Lost(lens, limit, input.Rest()) <==> Strays(lens, h.flatbits, input.Rest(), Fetch(input.nbits, nb))
      decreases 8 - nb
    {
      ghost var was := input.nbits;
      var ok := input.SregFill(nb);
      if !ok {
        NoMoreBits(lens, h.flatbits, input.Rest(), Fetch(was, nb));
        NothingFits(lens, limit, input.Rest(), nb);
        return -1;
      }
      ghost var rest := input.Rest();
      Lookup(lens, h.maxbits, h.flatbits, h.flat[..], input.sreg, input.nbits, rest);
      var e := h.flat[Low(input.sreg, h.flatbits)];
      var n := e % 256;
      if n > input.nbits {
        if n != 255 {
          nb := n;
          continue;
        }
        c := HdecSym(input, h, revtab, lens, limit, e);
      } else {
        c := e / 256;
        Hit(lens, h.maxbits, limit, rest, nb, c);
        input.Drop(n);
      }
      return;
    }
  }
}
