/** The tables of RFC 1951 as it prints them, and the codes that it gives as examples. */
module Standard {
  import opened Bits
  import opened Canonical
  import opened Tokens
  import opened Format
  import opened DecodeTable

  // ----- lengths and distances (section 3.2.5)

  const LEN_EXTRA: seq<nat> :=
    [0, 0, 0, 0, 0, 0, 0, 0, 1, 1, 1, 1, 2, 2, 2, 2, 3, 3, 3, 3, 4, 4, 4, 4, 5, 5, 5, 5, 0]

  const LEN_BASE: seq<nat> :=
    [3, 4, 5, 6, 7, 8, 9, 10, 11, 13, 15, 17, 19, 23, 27, 31, 35, 43, 51, 59, 67, 83, 99, 115, 131, 163, 195, 227, 258]

  const OFF_EXTRA: seq<nat> :=
    [0, 0, 0, 0, 1, 1, 2, 2, 3, 3, 4, 4, 5, 5, 6, 6, 7, 7, 8, 8, 9, 9, 10, 10, 11, 11, 12, 12, 13, 13]

  const OFF_BASE: seq<nat> :=
    [1, 2, 3, 4, 5, 7, 9, 13, 17, 25, 33, 49, 65, 97, 129, 193, 257, 385, 513, 769, 1025, 1537, 2049, 3073, 4097, 6145,
     8193, 12289, 16385, 24577]

  lemma LenExtraIs(c: nat)
    requires c <= 28
    ensures LEN_EXTRA[c] == Extra(Lengths, c)
  {
  }

  lemma OffExtraIs(c: nat)
    requires c < 30
    ensures OFF_EXTRA[c] == Extra(Distances, c)
  {
  }

  lemma {:induction false} LenSpanIs(c: nat)
    requires c < 28
    ensures Span(Lengths, c) + 3 == LEN_BASE[c]
  {
    hide Span, Pow2;
    Pow2Medium();
    if c == 0 {
      SpanZero(Lengths);
    } else {
      LenSpanIs(c - 1);
      SpanNext(Lengths, c - 1);
    }
  }

  lemma {:induction false} OffSpanIs(c: nat)
    requires c < 30
    ensures Span(Distances, c) + 1 == OFF_BASE[c]
  {
    hide Span, Pow2;
    Pow2Medium();
    if c == 0 {
      SpanZero(Distances);
    } else {
      OffSpanIs(c - 1);
      SpanNext(Distances, c - 1);
    }
  }

  /** Length code 257 + c stands for the lengths from LEN_BASE[c] on, told apart by LEN_EXTRA[c] bits. */
  lemma LengthTable(c: nat)
    requires c <= 28
    ensures LenBase(c) == LEN_BASE[c] && Extra(Lengths, c) == LEN_EXTRA[c]
  {
    hide Span, Pow2;
    LenExtraIs(c);
    if c < 28 {
      LenSpanIs(c);
    } else {
      LenSpans();
    }
  }

  lemma DistanceTable(c: nat)
    requires c < 30
    ensures OffBase(c) == OFF_BASE[c] && Extra(Distances, c) == OFF_EXTRA[c]
  {
    hide Span, Pow2;
    OffExtraIs(c);
    OffSpanIs(c);
  }

  /** What a match with length code 257 + c and distance code d means, by the tables alone. */
  lemma MatchByTables(c: nat, d: nat, x: nat, y: nat, len: nat, off: nat)
    requires c <= 28 && d < 30 && x < Pow2(LEN_EXTRA[c]) && y < Pow2(OFF_EXTRA[d])
    requires len == LEN_BASE[c] + x && off == OFF_BASE[d] + y && (c == 27 ==> x < 31)
    ensures Legal(Match(len, off)) && LenCode(len) == c && OffCode(off) == d
    ensures len - LenBase(c) == x && off - OffBase(d) == y
  {
    hide Span, Pow2, FindCode;
    LengthTable(c);
    DistanceTable(d);
    OffSpans();
    LenSpans();
    Pow2Medium();
    SpanNext(Distances, d);
    SpanMono(Distances, d + 1, 30);
    FindUnique(Distances, 30, off - 1, d);
    if c < 28 {
      SpanNext(Lengths, c);
      SpanMono(Lengths, c + 1, 28);
      FindUnique(Lengths, 28, len - 3, c);
      LongestPair(c, x);
    }
  }

  /** Length 258 has a code of its own. */
  lemma LongestPair(c: nat, x: nat)
    requires c < 28 && x < Pow2(LEN_EXTRA[c]) && (c == 27 ==> x < 31)
    ensures LEN_BASE[c] + x < 258
  {
    Pow2Medium();
  }

  // ----- the code length code (section 3.2.7)

  /** Symbol 16 repeats the last length 3 to 6 times, 17 a zero 3 to 10 times, 18 a zero 11 to 138 times. */
  lemma RepeatTable(acc: Lens)
    ensures RepeatBits(16) == 2 && RepeatBits(17) == 3 && RepeatBits(18) == 7
    ensures RepeatBase(16) == 3 && RepeatBase(17) == 3 && RepeatBase(18) == 11
    ensures acc != [] ==> RepeatValue(16, acc) == acc[|acc| - 1]
    ensures RepeatValue(17, acc) == 0 && RepeatValue(18, acc) == 0
    ensures forall c :: 0 <= c < 16 ==> RepeatBits(c) == 0 && RepeatBase(c) == 1 && RepeatValue(c, acc) == c
  {
  }

  // ----- the fixed codes (section 3.2.6)

  lemma ConstPrefix(n: nat, v: nat, k: nat)
    requires k <= n
    ensures Const(n, v)[..k] == Const(k, v)
  {
  }

  /** How many of the first s fixed lengths are b. */
  lemma FixedRank(s: nat, b: nat)
    requires s <= N_LITLEN
    ensures Count(FixedLit()[..s], b)
         == if b == 8 then (if s <= 144 then s else if s <= 280 then 144 else s - 136)
            else if b == 9 then (if s <= 144 then 0 else if s <= 256 then s - 144 else 112)
            else if b == 7 then (if s <= 256 then 0 else if s <= 280 then s - 256 else 24)
            else 0
  {
    hide Const, Count;
    var p, q, r, t := Const(144, 8), Const(112, 9), Const(24, 7), Const(8, 8);
    var i, j, k, l := Part(s, 0, 144), Part(s, 144, 112), Part(s, 256, 24), Part(s, 280, 8);
    FourPrefix(p, q, r, t, s);
    ConstPrefix(144, 8, i);
    ConstPrefix(112, 9, j);
    ConstPrefix(24, 7, k);
    ConstPrefix(8, 8, l);
    ConstCount(i, 8, b);
    ConstCount(j, 9, b);
    ConstCount(k, 7, b);
    ConstCount(l, 8, b);
    CountConcat(p[..i], q[..j], b);
    CountConcat(p[..i] + q[..j], r[..k], b);
    CountConcat(p[..i] + q[..j] + r[..k], t[..l], b);
  }

  /** How much of the n elements from at on is before s. */
  function Part(s: nat, at: nat, n: nat): (k: nat)
    ensures k <= n
  {
    if s <= at then 0 else if s <= at + n then s - at else n
  }

  lemma FourPrefix(p: Lens, q: Lens, r: Lens, t: Lens, s: nat)
    requires |p| == 144 && |q| == 112 && |r| == 24 && |t| == 8 && s <= 288
    ensures (p + q + r + t)[..s]
         == p[..Part(s, 0, 144)] + q[..Part(s, 144, 112)] + r[..Part(s, 256, 24)] + t[..Part(s, 280, 8)]
  {
  }

  lemma FixedLength(s: nat)
    requires s < N_LITLEN
    ensures FixedLit()[s] == if s < 144 then 8 else if s < 256 then 9 else if s < 280 then 7 else 8
  {
  }

  /** 00110000 to 10111111, 110010000 to 111111111, 0000000 to 0010111, 11000000 to 11000111. */
  lemma FixedLitCode(s: nat)
    requires s < N_LITLEN
    ensures s < 144 ==> Codeword(FixedLit(), s) == Msb(0x30 + s, 8)
    ensures 144 <= s < 256 ==> Codeword(FixedLit(), s) == Msb(0x190 + (s - 144), 9)
    ensures 256 <= s < 280 ==> Codeword(FixedLit(), s) == Msb(s - 256, 7)
    ensures 280 <= s ==> Codeword(FixedLit(), s) == Msb(0xC0 + (s - 280), 8)
  {
    hide Msb, FixedLit, Count;
    FixedLength(s);
    FixedLitEnds();
    FixedRank(s, FixedLit()[s]);
    assert First(FixedLit(), 7) == 2 * End(FixedLit(), 6);
    assert First(FixedLit(), 8) == 2 * End(FixedLit(), 7);
    assert First(FixedLit(), 9) == 2 * End(FixedLit(), 8);
  }

  /** Distance codes are numbers of five bits. */
  lemma FixedOffCode(n: nat, s: nat)
    requires s < n
    ensures Codeword(Const(n, 5), s) == Msb(s, 5)
  {
    hide Msb, Const, Count;
    var f := Const(n, 5);
    forall c: nat | c <= 4
      ensures Count(f, c) == 0
    {
      ConstCount(n, 5, c);
    }
    NoneShorter(f, 4);
    assert First(f, 5) == 2 * End(f, 4);
    ConstPrefix(n, 5, s);
    ConstCount(s, 5, 5);
    FiveAt(n, s);
  }

  lemma FiveAt(n: nat, s: nat)
    requires s < n
    ensures Const(n, 5)[s] == 5
  {
  }

  // ----- canonical codes (section 3.2.2)

  /** Shorter codewords come before longer ones, and symbols with codewords of one length are in order, without gaps. */
  lemma InOrder(lens: Lens, m: nat, s: nat, t: nat)
    requires Fits(lens, m) && s < |lens| && t < |lens| && 0 < lens[s] <= lens[t]
    ensures lens[s] == lens[t] && s < t ==>
              MsbVal(Codeword(lens, t)) == MsbVal(Codeword(lens, s)) + Count(lens[s..t], lens[s])
    ensures lens[s] < lens[t] ==> MsbVal(Codeword(lens, s)) < Shr(MsbVal(Codeword(lens, t)), lens[t] - lens[s])
  {
    hide Fits, Msb, MsbVal, Pow2, Shr;
    CodeFits(lens, m, s);
    CodeFits(lens, m, t);
    MsbValMsb(Code(lens, s), lens[s]);
    MsbValMsb(Code(lens, t), lens[t]);
    if lens[s] == lens[t] && s < t {
      assert lens[..t] == lens[..s] + lens[s..t];
      CountConcat(lens[..s], lens[s..t], lens[s]);
    } else if lens[s] < lens[t] {
      CodeRange(lens, s);
      CodeRange(lens, t);
      FirstAbove(lens, lens[s], lens[t]);
      ShrMono(First(lens, lens[t]), Code(lens, t), lens[t] - lens[s]);
    }
  }

  lemma {:induction false} FirstAbove(lens: Lens, a: nat, b: nat)
    requires a < b
    ensures Shr(First(lens, b), b - a) >= End(lens, a)
    decreases b
  {
    var e := End(lens, b - 1);
    if a == b - 1 {
      assert Shr(2 * e, 1) == Shr(e, 0);
    } else {
      FirstAbove(lens, a, b - 1);
      assert Shr(2 * e, b - a) == Shr(e, b - a - 1);
      ShrMono(First(lens, b - 1), e, b - 1 - a);
    }
  }

  lemma CountNext(l: Lens, k: nat, b: nat)
    requires k < |l|
    ensures Count(l[..k + 1], b) == Count(l[..k], b) + if l[k] == b then 1 else 0
  {
    assert l[..k + 1][..k] == l[..k];
  }

  /** How often b occurs among eight lengths, and before each of them. */
  lemma EightCounts(l: Lens, b: nat)
    requires |l| == 8
    ensures Count(l[..0], b) == 0 && Count(l, b) == Count(l[..8], b)
    ensures forall k :: 0 <= k < 8 ==> Count(l[..k + 1], b) == Count(l[..k], b) + if l[k] == b then 1 else 0
  {
    assert l[..8] == l && l[..0] == [];
    forall k | 0 <= k < 8
      ensures Count(l[..k + 1], b) == Count(l[..k], b) + if l[k] == b then 1 else 0
    {
      CountNext(l, k, b);
    }
  }

  /** The example of the standard: lengths 3, 3, 3, 3, 3, 2, 4, 4. */
  lemma ExampleCode(l: Lens)
    requires l == [3, 3, 3, 3, 3, 2, 4, 4]
    ensures Codeword(l, 0) == [false, true, false] && Codeword(l, 1) == [false, true, true]
    ensures Codeword(l, 4) == [true, true, false] && Codeword(l, 5) == [false, false]
    ensures Codeword(l, 6) == [true, true, true, false] && Codeword(l, 7) == [true, true, true, true]
  {
    hide Msb, Count, First, End;
    ExampleFirsts(l);
    EightCounts(l, 2);
    EightCounts(l, 3);
    EightCounts(l, 4);
    assert Count(l[..1], 3) == 1 && Count(l[..2], 3) == 2 && Count(l[..3], 3) == 3 && Count(l[..4], 3) == 4;
    assert Count(l[..1], 2) == 0 && Count(l[..2], 2) == 0 && Count(l[..3], 2) == 0 && Count(l[..4], 2) == 0;
    assert Count(l[..5], 2) == 0;
    assert Count(l[..1], 4) == 0 && Count(l[..2], 4) == 0 && Count(l[..3], 4) == 0 && Count(l[..4], 4) == 0;
    assert Count(l[..5], 4) == 0 && Count(l[..6], 4) == 0 && Count(l[..7], 4) == 1;
    ShortCodes();
  }

  lemma ExampleFirsts(l: Lens)
    requires l == [3, 3, 3, 3, 3, 2, 4, 4]
    ensures First(l, 2) == 0 && First(l, 3) == 2 && First(l, 4) == 14
  {
    hide Count;
    ExampleTotals(l);
    assert End(l, 0) == 0;
    assert End(l, 1) == 2 * End(l, 0) + Count(l, 1);
    assert End(l, 2) == 2 * End(l, 1) + Count(l, 2);
    assert End(l, 3) == 2 * End(l, 2) + Count(l, 3);
  }

  lemma ExampleTotals(l: Lens)
    requires l == [3, 3, 3, 3, 3, 2, 4, 4]
    ensures Count(l, 1) == 0 && Count(l, 2) == 1 && Count(l, 3) == 5
  {
    hide Count;
    CountNone(l, 1);
    EightCounts(l, 2);
    EightCounts(l, 3);
    assert Count(l[..1], 2) == 0 && Count(l[..2], 2) == 0 && Count(l[..3], 2) == 0 && Count(l[..4], 2) == 0;
    assert Count(l[..5], 2) == 0 && Count(l[..6], 2) == 1 && Count(l[..7], 2) == 1;
    assert Count(l[..1], 3) == 1 && Count(l[..2], 3) == 2 && Count(l[..3], 3) == 3 && Count(l[..4], 3) == 4;
    assert Count(l[..5], 3) == 5 && Count(l[..6], 3) == 5 && Count(l[..7], 3) == 5;
  }

  lemma ShortCodes()
    ensures Msb(2, 3) == [false, true, false] && Msb(3, 3) == [false, true, true] && Msb(6, 3) == [true, true, false]
    ensures Msb(0, 2) == [false, false]
    ensures Msb(14, 4) == [true, true, true, false] && Msb(15, 4) == [true, true, true, true]
  {
    assert ToBits(2, 3) == [false, true, false] && ToBits(3, 3) == [true, true, false];
    assert ToBits(6, 3) == [false, true, true] && ToBits(0, 2) == [false, false];
    assert ToBits(14, 4) == [false, true, true, true] && ToBits(15, 4) == [true, true, true, true];
    RevThree(false, true, false);
    RevThree(true, true, false);
    RevThree(false, true, true);
    RevTwo(false, false);
    RevFour(false, true, true, true);
    RevFour(true, true, true, true);
  }

  lemma RevTwo(a: bool, b: bool)
    ensures Rev([a, b]) == [b, a]
  {
    assert [a, b][1..] == [b] && [b][1..] == [];
  }

  lemma RevThree(a: bool, b: bool, c: bool)
    ensures Rev([a, b, c]) == [c, b, a]
  {
    assert [a, b, c][1..] == [b, c];
    RevTwo(b, c);
  }

  lemma RevFour(a: bool, b: bool, c: bool, d: bool)
    ensures Rev([a, b, c, d]) == [d, c, b, a]
  {
    assert [a, b, c, d][1..] == [b, c, d];
    RevThree(b, c, d);
  }

  // ----- the decoder's first tables

  /** Which codes can be led astray, with the sizes of the three tables: seven, six and six bits. */
  lemma AstrayTables(lens: Lens)
    requires Fits(lens, Longest(lens)) && Longest(lens) > 0
    ensures var m := Longest(lens);
            && ((exists bits :: DecodeSym(lens, LITLEN_BITS, bits).Undefined?) <==>
                var fb := if m < 7 then m else 7; Hi(lens, fb, m) + 1 < Pow2(fb))
            && ((exists bits :: DecodeSym(lens, OFF_BITS, bits).Undefined?) <==>
                var fb := if m < 6 then m else 6; Hi(lens, fb, m) + 1 < Pow2(fb))
            && ((exists bits :: DecodeSym(lens, CLEN_BITS, bits).Undefined?) <==>
                var fb := if m < 6 then m else 6; Hi(lens, fb, m) + 1 < Pow2(fb))
  {
    hide DecodeSym, Hi, Fits, Pow2;
    AstrayIff(lens, LITLEN_BITS);
    AstrayIff(lens, OFF_BITS);
    AstrayIff(lens, CLEN_BITS);
  }
}
