/** Whole streams, as other programs write them, and what they stand for. */
module Streams {
  import opened Bits
  import opened Canonical
  import opened Tokens
  import opened Format
  import opened BlockFormat
  import opened DynHeader
  import opened Standard
  import opened Adler
  import opened Deflate
  import opened Zlib
  import RL = RunLength

  // ----- from blocks to streams

  /** A single last block and the padding after it. */
  lemma OneLast(data: seq<byte>, x: seq<bool>, pad: seq<bool>, out: seq<byte>)
    requires IsBlock(0, x, [], true, out) && ByteBits(data) == x + pad
    ensures Meaning(data) == Yields((out, pad))
  {
    hide ReadBlock, ByteBits;
    assert Reads(0, x, [], true, out, pad);
  }

  // ----- bit strings as numbers

  lemma ShlIs(v: nat, n: nat)
    ensures Shl(v, n) == v * Pow2(n)
  {
    if n > 0 {
      ShlIs(v, n - 1);
      assert v * Pow2(n) == 2 * (v * Pow2(n - 1));
    }
  }

  lemma Join(a: nat, m: nat, p: nat, b: nat, n: nat)
    requires a < p == Pow2(m) && b < Pow2(n)
    ensures ToBits(a, m) + ToBits(b, n) == ToBits(a + b * p, m + n)
  {
    hide ToBits, Pow2, Shl;
    AppendBits(a, m, b, n);
    ShlIs(b, m);
  }

  /** v with its n low bits in the opposite order. */
  function RevNum(v: nat, n: nat): nat
  {
    if n == 0 then 0 else RevNum(v / 2, n - 1) + if v % 2 == 1 then Pow2(n - 1) else 0
  }

  lemma {:induction false} MsbNum(v: nat, n: nat)
    ensures RevNum(v, n) < Pow2(n) && Msb(v, n) == ToBits(RevNum(v, n), n)
  {
    if n > 0 {
      MsbNum(v / 2, n - 1);
      var w, b := RevNum(v / 2, n - 1), if v % 2 == 1 then 1 else 0;
      assert ToBits(v, n) == [v % 2 == 1] + ToBits(v / 2, n - 1);
      assert ([v % 2 == 1] + ToBits(v / 2, n - 1))[1..] == ToBits(v / 2, n - 1);
      assert Msb(v, n) == Msb(v / 2, n - 1) + [v % 2 == 1];
      OneBit(v % 2 == 1);
      Join(w, n - 1, Pow2(n - 1), b, 1);
    }
  }

  lemma {:induction false} BytesNum(data: seq<byte>)
    ensures LeNum(data) < Pow2(8 * |data|) && ByteBits(data) == ToBits(LeNum(data), 8 * |data|)
  {
    hide ToBits, Pow2;
    if data == [] {
      NoBytes();
    } else {
      BytesNum(data[1..]);
      Pow2Small();
      Join(data[0], 8, 256, LeNum(data[1..]), 8 * |data| - 8);
      Pow2Next(8 * |data| - 8);
    }
  }

  lemma NoBytes()
    ensures LeNum([]) < Pow2(0) && ByteBits([]) == ToBits(0, 0)
  {
  }

  lemma Pow2Next(n: nat)
    ensures Pow2(n + 8) == 256 * Pow2(n)
  {
    assert Pow2(n + 1) == 2 * Pow2(n) && Pow2(n + 2) == 2 * Pow2(n + 1) && Pow2(n + 3) == 2 * Pow2(n + 2);
    assert Pow2(n + 4) == 2 * Pow2(n + 3) && Pow2(n + 5) == 2 * Pow2(n + 4) && Pow2(n + 6) == 2 * Pow2(n + 5);
    assert Pow2(n + 7) == 2 * Pow2(n + 6);
  }

  function LeNum(data: seq<byte>): nat
  {
    if data == [] then 0 else data[0] + 256 * LeNum(data[1..])
  }

  // ----- a literal and a match in the fixed codes

  /** n copies of a byte. */
  function Run(b: byte, n: nat): (s: seq<byte>)
    ensures |s| == n
  {
    seq(n, _ => b)
  }

  lemma {:induction false} CopyRun(b: byte, k: nat, n: nat)
    requires k > 0
    ensures Copy(Run(b, k), n, 1) == Run(b, k + n)
    decreases n
  {
    if n > 0 {
      assert Run(b, k) + [Run(b, k)[k - 1]] == Run(b, k + 1);
      CopyRun(b, k + 1, n - 1);
    }
  }

  lemma RunTokens(toks: seq<Token>)
    requires toks == [Lit(97), Match(20, 1)]
    ensures AllEncodable(FixedLit(), Const(30, 5), toks) && Playable([], toks) && Replay([], toks) == Run(97, 21)
    ensures TokensBits(FixedLit(), Const(30, 5), toks)
         == Msb(145, 8) + (Msb(13, 7) + [true, false] + Msb(0, 5))
  {
    hide FixedLit, Msb, Codeword, FindCode, LenCode, OffCode, LenBase, OffBase, Copy, Const;
    Pow2Medium();
    MatchByTables(12, 0, 1, 0, 20, 1);
    FixedLength(97);
    FixedLength(269);
    FiveAt(30, 0);
    FixedLitCode(97);
    FixedLitCode(269);
    FixedOffCode(30, 0);
    LengthTable(12);
    DistanceTable(0);
    assert ToBits(1, 2) == [true, false] && ToBits(0, 0) == [];
    var t := toks[1..];
    assert t == [Match(20, 1)] && t[1..] == [];
    assert TokensBits(FixedLit(), Const(30, 5), t) == TokenBits(FixedLit(), Const(30, 5), Match(20, 1)) + [];
    assert TokenBits(FixedLit(), Const(30, 5), Match(20, 1)) == Msb(13, 7) + [true, false] + Msb(0, 5) + [];
    assert [] + [97] == Run(97, 1);
    CopyRun(97, 1, 20);
    assert Play([], toks[0]) == Run(97, 1);
    assert Playable(Run(97, 21), []);
    assert Playable(Run(97, 1), t);
    assert Replay(Run(97, 1), t) == Replay(Run(97, 21), []);
  }

  /** 75, 196, 6, 0 is twenty-one times the letter a. */
  lemma RunStream()
    ensures Meaning([75, 196, 6, 0]) == Yields((Run(97, 21), []))
  {
    hide FixedLit, Msb, TokensBits, IsBlock, Codeword, Const, Replay, Playable, AllEncodable, ByteBits, Meaning;
    var toks := [Lit(97), Match(20, 1)];
    var data: seq<byte> := [75, 196, 6, 0];
    RunTokens(toks);
    FixedBlock(0, true, toks, []);
    FixedLitCode(256);
    var x := [true] + ToBits(1, 2) + BodyBits(FixedLit(), Const(30, 5), toks);
    RunNum(data);
    RunBits();
    assert x + [] == x;
    OneLast(data, x, [], Run(97, 21));
  }

  lemma RunNum(data: seq<byte>)
    requires data == [75, 196, 6, 0]
    ensures ByteBits(data) == ToBits(443467, 32)
  {
    hide ToBits, ByteBits;
    BytesNum(data);
    assert data[1..] == [196, 6, 0] && data[1..][1..] == [6, 0] && data[1..][1..][1..] == [0];
    assert LeNum([0]) == 0 && LeNum([6, 0]) == 6 && LeNum([196, 6, 0]) == 196 + 256 * 6;
  }

  lemma RunBits()
    ensures [true] + ToBits(1, 2) + (Msb(145, 8) + (Msb(13, 7) + [true, false] + Msb(0, 5)) + Msb(0, 7))
         == ToBits(443467, 32)
  {
    hide Msb, ToBits, Pow2;
    Pow2Medium();
    Pow2Small();
    MsbNum(145, 8);
    MsbNum(13, 7);
    MsbNum(0, 5);
    MsbNum(0, 7);
    Reversed();
    OneBit(true);
    SmallBits();
    var a, b, c, d, e, f, g := ToBits(1, 1), ToBits(1, 2), ToBits(137, 8), ToBits(88, 7), ToBits(1, 2), ToBits(0, 5),
      ToBits(0, 7);
    assert a + b + (c + (d + e + f) + g) == a + b + c + d + e + f + g;
    Join(1, 1, 2, 1, 2);
    Join(3, 3, 8, 137, 8);
    Join(1099, 11, 2048, 88, 7);
    Pow2Big();
    Join(181323, 18, 262144, 1, 2);
    Join(443467, 20, 1048576, 0, 5);
    Join(443467, 25, 33554432, 0, 7);
  }

  lemma SmallBits()
    ensures ToBits(1, 2) == [true, false]
  {
  }

  lemma Pow2Big()
    ensures Pow2(18) == 262144 && Pow2(20) == 1048576 && Pow2(25) == 33554432
  {
    Pow2Small();
    assert Pow2(17) == 2 * Pow2(16) && Pow2(18) == 2 * Pow2(17) && Pow2(19) == 2 * Pow2(18) && Pow2(20) == 2 * Pow2(19);
    assert Pow2(22) == 4 * Pow2(20) && Pow2(24) == 4 * Pow2(22) && Pow2(25) == 2 * Pow2(24);
  }

  lemma Reversed()
    ensures RevNum(145, 8) == 137 && RevNum(146, 8) == 73 && RevNum(13, 7) == 88 && RevNum(0, 5) == 0
            && RevNum(0, 7) == 0
  {
    hide RevNum, Pow2;
    Pow2Medium();
    RevStep(0, 0);
    RevStep(0, 1);
    RevStep(0, 2);
    RevStep(0, 3);
    RevStep(0, 4);
    RevStep(0, 5);
    RevStep(0, 6);
    RevStep(1, 0);
    RevStep(2, 1);
    RevStep(4, 2);
    RevStep(9, 3);
    RevStep(18, 4);
    RevStep(36, 5);
    RevStep(72, 6);
    RevStep(145, 7);
    RevStep(73, 6);
    RevStep(146, 7);
    RevStep(1, 3);
    RevStep(3, 4);
    RevStep(6, 5);
    RevStep(13, 6);
    RevNone(0);
  }

  lemma RevNone(v: nat)
    ensures RevNum(v, 0) == 0
  {
  }

  lemma RevStep(v: nat, n: nat)
    ensures RevNum(v, n + 1) == RevNum(v / 2, n) + if v % 2 == 1 then Pow2(n) else 0
  {
  }

  // ----- a zlib stream

  lemma AbTokens(toks: seq<Token>)
    requires toks == [Lit(97), Lit(98)]
    ensures AllEncodable(FixedLit(), Const(30, 5), toks) && Playable([], toks) && Replay([], toks) == [97, 98]
    ensures TokensBits(FixedLit(), Const(30, 5), toks) == Msb(145, 8) + Msb(146, 8)
  {
    hide FixedLit, Msb, Codeword, FindCode, LenCode, OffCode, LenBase, OffBase, Copy, Const;
    FixedLength(97);
    FixedLength(98);
    FixedLitCode(97);
    FixedLitCode(98);
    var t := toks[1..];
    assert t == [Lit(98)] && t[1..] == [];
    assert TokensBits(FixedLit(), Const(30, 5), t) == TokenBits(FixedLit(), Const(30, 5), Lit(98)) + [];
    assert Play([], toks[0]) == [97] && Play([97], t[0]) == [97, 98];
    assert Playable([97, 98], []);
    assert Playable([97], t);
    assert Replay([97], t) == Replay([97, 98], []);
  }

  lemma AbBits()
    ensures [true] + ToBits(1, 2) + (Msb(145, 8) + Msb(146, 8) + Msb(0, 7)) == ToBits(150603, 26)
    ensures ToBits(150603, 26) + Zeros(6) == ToBits(150603, 32)
  {
    hide Msb, ToBits, Pow2, Zeros;
    Pow2Medium();
    Pow2Small();
    MsbNum(145, 8);
    MsbNum(146, 8);
    MsbNum(0, 7);
    Reversed();
    OneBit(true);
    var a, b, c, d, e := ToBits(1, 1), ToBits(1, 2), ToBits(137, 8), ToBits(73, 8), ToBits(0, 7);
    assert a + b + (c + d + e) == a + b + c + d + e;
    Join(1, 1, 2, 1, 2);
    Join(3, 3, 8, 137, 8);
    Join(1099, 11, 2048, 73, 8);
    Pow2More();
    Join(150603, 19, 524288, 0, 7);
    Join(150603, 26, 67108864, 0, 6);
    ZeroBits(6);
  }

  lemma Pow2More()
    ensures Pow2(19) == 524288 && Pow2(26) == 67108864
  {
    Pow2Big();
    assert Pow2(19) == 2 * Pow2(18) && Pow2(26) == 2 * Pow2(25);
  }

  lemma ZeroBits(n: nat)
    ensures ToBits(0, n) == Zeros(n)
  {
    FromZeros(n);
    ToFrom(Zeros(n));
  }

  lemma AbNum(data: seq<byte>)
    requires data == [75, 76, 2, 0]
    ensures ByteBits(data) == ToBits(150603, 32)
  {
    hide ToBits, ByteBits;
    BytesNum(data);
    assert data[1..] == [76, 2, 0] && data[1..][1..] == [2, 0] && data[1..][1..][1..] == [0];
    assert LeNum([0]) == 0 && LeNum([2, 0]) == 2 && LeNum([76, 2, 0]) == 76 + 256 * 2;
  }

  lemma AbCompressed(data: seq<byte>, body: seq<byte>)
    requires data == [97, 98] && body == [75, 76, 2, 0]
    ensures Compressed(data, body)
  {
    hide FixedLit, Msb, TokensBits, IsBlock, Codeword, Const, Replay, Playable, AllEncodable, ByteBits, Final, Encodes,
         ToBits, Zeros;
    var toks := [Lit(97), Lit(98)];
    AbTokens(toks);
    FixedBlock(0, true, toks, []);
    FixedLitCode(256);
    var x := [true] + ToBits(1, 2) + BodyBits(FixedLit(), Const(30, 5), toks);
    AbNum(body);
    AbBits();
    EncodesNothing();
    assert data[..0] == [] && data[..2] == data && x[0..] == x;
    LastAdded([], x, data, 0);
    assert Padding(26) == 6;
  }

  /** 78 9c 4b 4c 02 00 01 26 00 c4 is "ab". */
  lemma ZlibAb()
    ensures ZlibMeaning([0x78, 0x9c, 0x4b, 0x4c, 0x02, 0x00, 0x01, 0x26, 0x00, 0xc4]) == Yields([97, 98])
  {
    hide ZlibMeaning, Compressed, AdlerOf;
    var data: seq<byte>, body: seq<byte> := [97, 98], [75, 76, 2, 0];
    AbCompressed(data, body);
    AdlerAb();
    Wrapped(data, body, 0x9c, 0x0126_00C4);
    assert Trailer(0x0126_00C4) == [1, 0x26, 0, 0xc4];
    assert [0x78, 0x9c] + body + [1, 0x26, 0, 0xc4] == [0x78, 0x9c, 0x4b, 0x4c, 0x02, 0x00, 0x01, 0x26, 0x00, 0xc4];
  }

  // ----- a stored block

  /** 1, 1, 0, 254, 255, 97 is "a". */
  lemma StoredStream(data: seq<byte>)
    requires data == [1, 1, 0, 254, 255, 97]
    ensures Meaning(data) == Yields(([97], []))
  {
    hide IsBlock, ByteBits, ToBits, Zeros, Meaning;
    StoredBlock(0, true, [97], []);
    assert StoredSizes(1) == [1, 0, 254, 255] && Padding(3) == 5;
    var x := [true] + ToBits(0, 2) + (Zeros(5) + ByteBits(StoredSizes(1)) + ByteBits([97]));
    FirstStored();
    assert data == [1] + [1, 0, 254, 255] + [97];
    ByteBitsConcat([1] + [1, 0, 254, 255], [97]);
    ByteBitsConcat([1], [1, 0, 254, 255]);
    ByteBitsSingle(1);
    assert x == [true] + ToBits(0, 2) + Zeros(5) + ByteBits([1, 0, 254, 255]) + ByteBits([97]);
    assert x + [] == x && [] + [97] == [97];
    OneLast(data, x, [], [97]);
  }

  lemma FirstStored()
    ensures ToBits(1, 8) == [true] + ToBits(0, 2) + Zeros(5)
  {
    hide ToBits, Zeros, Pow2;
    Pow2Medium();
    OneBit(true);
    ZeroBits(5);
    Join(1, 1, 2, 0, 2);
    Join(1, 3, 8, 0, 5);
  }

  // ----- a dynamic block

  /** All lengths are 0, except for two of 1. */
  function TwoOnes(a: nat, b: nat): (l: Lens)
    ensures |l| == a + b + 2
  {
    Const(a, 0) + [1] + Const(b, 0) + [1]
  }

  lemma TwoOnesAt(a: nat, b: nat, i: nat)
    requires i < a + b + 2
    ensures TwoOnes(a, b)[i] == if i == a || i == a + b + 1 then 1 else 0
  {
  }

  lemma OneCount(b: nat)
    ensures Count([1], b) == if b == 1 then 1 else 0
  {
    assert [1][..0] == [];
  }

  lemma TwoOnesCount(a: nat, b: nat)
    ensures Count(TwoOnes(a, b), 1) == 2
    ensures Count(TwoOnes(a, b)[..a], 1) == 0 && Count(TwoOnes(a, b)[..a + b + 1], 1) == 1
  {
    hide Const, Count;
    var x, y := Const(a, 0), Const(b, 0);
    assert TwoOnes(a, b)[..a] == x && TwoOnes(a, b)[..a + b + 1] == x + [1] + y;
    ConstCount(a, 0, 1);
    ConstCount(b, 0, 1);
    OneCount(1);
    CountConcat(x, [1], 1);
    CountConcat(x + [1], y, 1);
    CountConcat(x + [1] + y, [1], 1);
  }

  lemma OneBitCodes()
    ensures Msb(0, 1) == [false] && Msb(1, 1) == [true]
  {
    assert ToBits(0, 1) == [false] && ToBits(1, 1) == [true];
    assert [false][1..] == [] && [true][1..] == [];
  }

  /** A code of two codewords, one bit each. */
  lemma TwoOnesCode(a: nat, b: nat)
    ensures Fits(TwoOnes(a, b), MAX_BITS)
    ensures Codeword(TwoOnes(a, b), a) == [false] && Codeword(TwoOnes(a, b), a + b + 1) == [true]
  {
    hide TwoOnes, Count, Msb;
    var l := TwoOnes(a, b);
    TwoOnesAt(a, b, a);
    TwoOnesAt(a, b, a + b + 1);
    TwoOnesCount(a, b);
    OneBitCodes();
    forall i | 0 <= i < |l|
      ensures l[i] <= 1
    {
      TwoOnesAt(a, b, i);
    }
    OneBitFits(l);
  }

  /** At most two codewords of one bit. */
  lemma OneBitFits(l: Lens)
    requires Count(l, 1) <= 2 && forall i :: 0 <= i < |l| ==> l[i] <= 1
    ensures Fits(l, MAX_BITS) && First(l, 1) == 0
  {
    hide Count;
    Pow2Medium();
    assert End(l, 0) == 0;
    assert FitsAt(l, 0) && FitsAt(l, 1);
    FitsAbove(l, 1, MAX_BITS);
  }

  lemma LoneFits(l: Lens)
    requires l == [1]
    ensures Fits(l, MAX_BITS)
  {
    hide Fits, First, Count;
    OneCount(1);
    OneBitFits(l);
  }

  /** Ninety-seven zeros, a one, one hundred and fifty-eight zeros, a one; and a one for the distances. */
  lemma LensSent(syms: seq<nat>, aux: seq<nat>)
    requires syms == [18, 1, 18, 18, 1, 1] && aux == [86, 0, 127, 9, 0, 0]
    ensures RL.Legal(syms, aux) && RL.Expand(syms, aux) == TwoOnes(97, 158) + [1]
  {
    hide RL.Expand, RL.Legal, Pow2, Const;
    Pow2Medium();
    NothingSent();
    Ones();
    var c0 := Const(97, 0);
    var c1 := c0 + [1];
    var c2 := c1 + Const(138, 0);
    var c3 := c2 + Const(20, 0);
    assert [] + [18] == [18] && [] + [86] == [86] && [] + c0 == c0;
    Sent([], [], 18, 86, [], 97, 0);
    assert [18] + [1] == [18, 1] && [86] + [0] == [86, 0];
    Sent([18], [86], 1, 0, c0, 1, 1);
    assert [18, 1] + [18] == [18, 1, 18] && [86, 0] + [127] == [86, 0, 127];
    Sent([18, 1], [86, 0], 18, 127, c1, 138, 0);
    assert [18, 1, 18] + [18] == [18, 1, 18, 18] && [86, 0, 127] + [9] == [86, 0, 127, 9];
    Sent([18, 1, 18], [86, 0, 127], 18, 9, c2, 20, 0);
    assert [18, 1, 18, 18] + [1] == [18, 1, 18, 18, 1] && [86, 0, 127, 9] + [0] == [86, 0, 127, 9, 0];
    Sent([18, 1, 18, 18], [86, 0, 127, 9], 1, 0, c3, 1, 1);
    assert [18, 1, 18, 18, 1] + [1] == syms && [86, 0, 127, 9, 0] + [0] == aux;
    Sent([18, 1, 18, 18, 1], [86, 0, 127, 9, 0], 1, 0, c3 + [1], 1, 1);
    assert c3 == c1 + (Const(138, 0) + Const(20, 0));
  }

  lemma NothingSent()
    ensures RL.Legal([], []) && RL.Expand([], []) == []
  {
  }

  lemma Ones()
    ensures Const(1, 1) == [1] && Const(138, 0) + Const(20, 0) == Const(158, 0)
  {
  }

  /** One more symbol sent. */
  lemma Sent(syms: seq<nat>, aux: seq<nat>, s: nat, x: nat, acc: Lens, n: nat, v: nat)
    requires RL.Legal(syms, aux) && RL.Expand(syms, aux) == acc && (s == 1 || s == 18) && (s == 18 ==> x < 128)
    requires n == (if s == 18 then 11 + x else 1) && v == if s == 18 then 0 else 1
    ensures RL.Legal(syms + [s], aux + [x]) && RL.Expand(syms + [s], aux + [x]) == acc + Const(n, v)
  {
    hide RL.Expand, RL.Legal, Const, Pow2;
    Pow2Medium();
    RL.ExpandSnoc(syms, aux, s, x);
  }

  // ----- its bits

  lemma {:induction false} ZeroGroups(cl: Lens, i: nat)
    requires cl == TwoOnes(1, 16) && 3 <= i <= 17
    ensures ClensBits(cl, i, 18) == Zeros(3 * (17 - i)) + ToBits(1, 3)
    decreases 17 - i
  {
    hide ToBits;
    if i == 17 {
      assert cl[ClenOrder(17)] == 1;
      assert ClensBits(cl, 18, 18) == [];
    } else {
      ZeroGroups(cl, i + 1);
      assert cl[ClenOrder(i)] == 0;
      ZeroBits(3);
      assert Zeros(3) + Zeros(3 * (17 - (i + 1))) == Zeros(3 * (17 - i));
    }
  }

  lemma ClensSent(cl: Lens)
    requires cl == TwoOnes(1, 16)
    ensures ClensBits(cl, 0, 18) == Zeros(6) + ToBits(1, 3) + Zeros(42) + ToBits(1, 3)
  {
    hide ToBits;
    ZeroGroups(cl, 3);
    assert cl[ClenOrder(0)] == 0 && cl[ClenOrder(1)] == 0 && cl[ClenOrder(2)] == 1;
    ZeroBits(3);
    assert ClensBits(cl, 2, 18) == ToBits(1, 3) + ClensBits(cl, 3, 18);
    assert ClensBits(cl, 1, 18) == Zeros(3) + ClensBits(cl, 2, 18);
    assert Zeros(3) + Zeros(3) == Zeros(6);
  }

  lemma OpsCons(cl: Lens, s: nat, x: nat, syms: seq<nat>, aux: seq<nat>, w: seq<bool>)
    requires cl == TwoOnes(1, 16) && (s == 1 || s == 18) && |syms| == |aux| && Coded(cl, syms)
    requires OpsBits(cl, syms, aux) == w
    ensures Coded(cl, [s] + syms)
    ensures OpsBits(cl, [s] + syms, [x] + aux) == (if s == 18 then [true] + ToBits(x, 7) else [false]) + w
  {
    hide OpBits, ToBits, TwoOnes;
    TwoOnesAt(1, 16, s);
    OpIs(cl, s, x);
    assert ([s] + syms)[1..] == syms && ([x] + aux)[1..] == aux;
  }

  lemma OpsSent(cl: Lens, syms: seq<nat>, aux: seq<nat>)
    requires cl == TwoOnes(1, 16) && syms == [18, 1, 18, 18, 1, 1] && aux == [86, 0, 127, 9, 0, 0]
    ensures Coded(cl, syms)
    ensures OpsBits(cl, syms, aux)
            == [true] + ToBits(86, 7) + [false] + ([true] + ToBits(127, 7)) + ([true] + ToBits(9, 7))
                                      + [false] + [false]
  {
    hide ToBits, TwoOnes, OpsBits, Coded;
    var u, v, w := [true] + ToBits(86, 7), [true] + ToBits(127, 7), [true] + ToBits(9, 7);
    NoOps(cl);
    OpsCons(cl, 1, 0, [], [], []);
    OpsCons(cl, 1, 0, [1] + [], [0] + [], [false] + []);
    OpsCons(cl, 18, 9, [1] + ([1] + []), [0] + ([0] + []), [false] + ([false] + []));
    OpsCons(cl, 18, 127, [18] + ([1] + ([1] + [])), [9] + ([0] + ([0] + [])), w + ([false] + ([false] + [])));
    var s3, a3 := [18] + ([18] + ([1] + ([1] + []))), [127] + ([9] + ([0] + ([0] + [])));
    OpsCons(cl, 1, 0, s3, a3, v + (w + ([false] + ([false] + []))));
    OpsCons(cl, 18, 86, [1] + s3, [0] + a3, [false] + (v + (w + ([false] + ([false] + [])))));
    assert [18] + ([1] + s3) == syms && [86] + ([0] + a3) == aux;
    assert u + ([false] + (v + (w + ([false] + ([false] + []))))) == u + [false] + v + w + [false] + [false];
  }

  lemma NoOps(cl: Lens)
    requires |cl| == N_CLEN
    ensures Coded(cl, []) && OpsBits(cl, [], []) == []
  {
  }

  lemma OpIs(cl: Lens, s: nat, x: nat)
    requires cl == TwoOnes(1, 16) && (s == 1 || s == 18)
    ensures OpBits(cl, s, x) == if s == 18 then [true] + ToBits(x, 7) else [false]
  {
    hide ToBits, TwoOnes, Codeword;
    TwoOnesCode(1, 16);
    NoBits(x);
  }

  lemma NoBits(x: nat)
    ensures ToBits(x, 0) == []
  {
  }

  lemma FirstBytes()
    ensures [true] + ToBits(2, 2) + (ToBits(0, 5) + ToBits(0, 5) + ToBits(14, 4)) + (Zeros(6) + ToBits(1, 3)) + Zeros(6)
         == ToBits(8503301, 32)
  {
    hide ToBits, Pow2, Zeros;
    Pow2Medium();
    Pow2Small();
    Pow2Big();
    Pow2More();
    Pow2Wide();
    OneBit(true);
    ZeroBits(6);
    var a, b, c, d, e, f, g := ToBits(1, 1), ToBits(2, 2), ToBits(0, 5), ToBits(14, 4), ToBits(0, 6), ToBits(1, 3),
      ToBits(0, 6);
    assert a + b + (c + c + d) + (e + f) + g == a + b + c + c + d + e + f + g;
    Join(1, 1, 2, 2, 2);
    Join(5, 3, 8, 0, 5);
    Join(5, 8, 256, 0, 5);
    Join(5, 13, 8192, 14, 4);
    Join(114693, 17, 131072, 0, 6);
    Join(114693, 23, 8388608, 1, 3);
    Join(8503301, 26, 67108864, 0, 6);
  }

  lemma Pow2Wide()
    ensures Pow2(17) == 131072 && Pow2(23) == 8388608
  {
    Pow2Big();
    assert Pow2(18) == 2 * Pow2(17) && Pow2(21) == 2 * Pow2(20) && Pow2(22) == 2 * Pow2(21) && Pow2(23) == 2 * Pow2(22);
  }

  lemma LaterBytes()
    ensures Zeros(4) + ToBits(1, 3) + [true] == ToBits(144, 8) && ToBits(86, 7) + [false] == ToBits(86, 8)
    ensures [true] + ToBits(127, 7) == ToBits(255, 8) && [true] + ToBits(9, 7) == ToBits(19, 8)
    ensures [false] + [false] + ([false] + [true]) + Zeros(4) == ToBits(8, 8)
  {
    hide ToBits, Pow2, Zeros;
    Pow2Medium();
    OneBit(true);
    OneBit(false);
    ZeroBits(4);
    Join(0, 4, 16, 1, 3);
    Join(16, 7, 128, 1, 1);
    Join(86, 7, 128, 0, 1);
    Join(1, 1, 2, 127, 7);
    Join(1, 1, 2, 9, 7);
    Join(0, 1, 2, 0, 1);
    Join(0, 1, 2, 1, 1);
    Join(0, 2, 4, 2, 2);
    Join(8, 4, 16, 0, 4);
  }

  lemma DynamicBytes(data: seq<byte>)
    requires data == [5, 192, 129, 0, 0, 0, 0, 0, 144, 86, 255, 19, 8]
    ensures ByteBits(data) == ToBits(8503301, 32) + Zeros(32) + ToBits(144, 8) + ToBits(86, 8) + ToBits(255, 8)
                              + ToBits(19, 8) + ToBits(8, 8)
  {
    hide ToBits, ByteBits, Zeros;
    var a: seq<byte>, z: seq<byte> := [5, 192, 129, 0], [0, 0, 0, 0];
    FirstNum(a);
    ZeroNum(z);
    assert data == a + z + [144] + [86] + [255] + [19] + [8];
    ByteBitsConcat(a + z + [144] + [86] + [255] + [19], [8]);
    ByteBitsConcat(a + z + [144] + [86] + [255], [19]);
    ByteBitsConcat(a + z + [144] + [86], [255]);
    ByteBitsConcat(a + z + [144], [86]);
    ByteBitsConcat(a + z, [144]);
    ByteBitsConcat(a, z);
    ByteBitsSingle(144);
    ByteBitsSingle(86);
    ByteBitsSingle(255);
    ByteBitsSingle(19);
    ByteBitsSingle(8);
  }

  lemma FirstNum(a: seq<byte>)
    requires a == [5, 192, 129, 0]
    ensures ByteBits(a) == ToBits(8503301, 32)
  {
    hide ToBits, ByteBits;
    BytesNum(a);
    assert a[1..] == [192, 129, 0] && a[1..][1..] == [129, 0] && a[1..][1..][1..] == [0];
    assert LeNum([0]) == 0 && LeNum([129, 0]) == 129 && LeNum([192, 129, 0]) == 192 + 256 * 129;
  }

  lemma ZeroNum(z: seq<byte>)
    requires z == [0, 0, 0, 0]
    ensures ByteBits(z) == Zeros(32)
  {
    hide ToBits, ByteBits, Zeros;
    BytesNum(z);
    assert z[1..] == [0, 0, 0] && z[1..][1..] == [0, 0] && z[1..][1..][1..] == [0];
    assert LeNum([0]) == 0 && LeNum([0, 0]) == 0 && LeNum([0, 0, 0]) == 0;
    ZeroBits(32);
  }

  /** The parts of the block, put together in another way. */
  lemma Regrouped(a: seq<bool>, h: seq<bool>, g: seq<bool>, t: seq<bool>, u: seq<bool>, v: seq<bool>, w: seq<bool>)
    requires |t| == 3
    ensures a + (h + (g + Zeros(42) + t) + ([true] + u + [false] + v + w + [false] + [false]) + ([false] + [true]))
            + Zeros(4)
         == a + h + g + Zeros(6) + Zeros(32) + (Zeros(4) + t + [true]) + (u + [false]) + v + w
            + ([false] + [false] + ([false] + [true]) + Zeros(4))
  {
    assert Zeros(42) == Zeros(6) + Zeros(32) + Zeros(4);
    hide Zeros;
  }

  lemma DynamicBits(h: seq<bool>, cl: Lens, syms: seq<nat>, aux: seq<nat>, data: seq<byte>)
    requires cl == TwoOnes(1, 16) && syms == [18, 1, 18, 18, 1, 1] && aux == [86, 0, 127, 9, 0, 0] && Coded(cl, syms)
    requires h == HeaderBits(257, 1, 18, cl, syms, aux)
    requires data == [5, 192, 129, 0, 0, 0, 0, 0, 144, 86, 255, 19, 8]
    ensures [true] + ToBits(2, 2) + (h + ([false] + [true])) + Zeros(4) == ByteBits(data)
  {
    hide ToBits, ByteBits, Zeros, ClensBits, OpsBits;
    ClensSent(cl);
    OpsSent(cl, syms, aux);
    FirstBytes();
    LaterBytes();
    DynamicBytes(data);
    Regrouped([true] + ToBits(2, 2), ToBits(0, 5) + ToBits(0, 5) + ToBits(14, 4), Zeros(6) + ToBits(1, 3), ToBits(1, 3),
      ToBits(86, 7), [true] + ToBits(127, 7), [true] + ToBits(9, 7));
  }

  lemma LetterA(toks: seq<Token>, lit: Lens)
    requires toks == [Lit(97)] && lit == TwoOnes(97, 158)
    ensures AllEncodable(lit, [1], toks) && HasEob(lit) && Playable([], toks) && Replay([], toks) == [97]
    ensures BodyBits(lit, [1], toks) == [false] + [true]
  {
    hide TwoOnes, Codeword;
    TwoOnesAt(97, 158, 97);
    TwoOnesAt(97, 158, 256);
    TwoOnesCode(97, 158);
    assert toks[1..] == [] && Play([], Lit(97)) == [97] && Playable([97], []);
    assert TokensBits(lit, [1], toks) == [false] + TokensBits(lit, [1], []);
  }

  lemma HeaderSent(cl: Lens, syms: seq<nat>, aux: seq<nat>, lens: Lens)
    requires cl == TwoOnes(1, 16) && syms == [18, 1, 18, 18, 1, 1] && aux == [86, 0, 127, 9, 0, 0]
    requires lens == TwoOnes(97, 158) + [1]
    ensures HeaderFor(257, 1, 18, cl, syms, aux, lens)
  {
    hide Fits, RL.Expand, RL.Legal, OpsBits;
    OpsSent(cl, syms, aux);
    LensSent(syms, aux);
    TwoOnesCode(1, 16);
    TwoOnesCode(97, 158);
    LoneFits([1]);
    assert lens[..257] == TwoOnes(97, 158) && lens[257..] == [1];
    assert cl[ClenOrder(18)] == 0;
  }

  /** A dynamic block with its own codes: the letter a. */
  lemma DynamicStream(data: seq<byte>)
    requires data == [5, 192, 129, 0, 0, 0, 0, 0, 144, 86, 255, 19, 8]
    ensures Meaning(data) == Yields(([97], Zeros(4)))
  {
    hide IsBlock, ByteBits, ToBits, Zeros, Meaning, HeaderBits, HeaderFor, TwoOnes, AllEncodable, Playable, Replay,
         BodyBits;
    var cl, lit, toks := TwoOnes(1, 16), TwoOnes(97, 158), [Lit(97)];
    var syms, aux := [18, 1, 18, 18, 1, 1], [86, 0, 127, 9, 0, 0];
    assert lit[..257] == lit && [1][..1] == [1];
    HeaderSent(cl, syms, aux, lit + [1]);
    LetterA(toks, lit);
    DynamicBlock(0, true, 257, 1, 18, cl, syms, aux, lit, [1], toks, []);
    OpsSent(cl, syms, aux);
    var h := HeaderBits(257, 1, 18, cl, syms, aux);
    DynamicBits(h, cl, syms, aux, data);
    OneLast(data, [true] + ToBits(2, 2) + (h + ([false] + [true])), Zeros(4), [97]);
  }

  // ----- errors

  /** Nothing at all: the input ends. */
  lemma EmptyStream()
    ensures Meaning([]) == Fails(NoInput)
  {
  }

  /** A block of the type that does not exist. */
  lemma BadType(data: seq<byte>)
    requires data == [7]
    ensures Meaning(data) == Fails(Corrupt)
  {
    hide ByteBits, FromBits, ToBits, ReadStored, ReadHeader, DecodeTokens;
    ByteBitsSingle(7);
    Pow2Medium();
    OneBit(true);
    Join(1, 1, 2, 3, 2);
    Join(7, 3, 8, 0, 5);
    var rest := ToBits(0, 5);
    assert ByteBits(data) == [true] + ToBits(3, 2) + rest;
    HeadBits(true, 3, rest);
  }

  /** A stored block of one byte that is not there. */
  lemma MissingByte(data: seq<byte>)
    requires data == [1, 1, 0, 254, 255]
    ensures Meaning(data) == Fails(Internal)
  {
    hide ByteBits, FromBits, ToBits, ReadStored, ReadHeader, DecodeTokens, Zeros;
    var sizes: seq<byte> := [1, 0, 254, 255];
    assert data == [1] + sizes;
    ByteBitsConcat([1], sizes);
    ByteBitsSingle(1);
    FirstStored();
    var bits := Zeros(5) + ByteBits(sizes);
    assert ByteBits(data) == [true] + ToBits(0, 2) + bits;
    HeadBits(true, 0, bits);
    StoredAlone(bits, sizes);
  }

  lemma StoredAlone(bits: seq<bool>, sizes: seq<byte>)
    requires sizes == [1, 0, 254, 255] && bits == Zeros(5) + ByteBits(sizes)
    ensures ReadStored(bits) == Fails(Internal)
  {
    hide ByteBits, FromBits, Zeros, ByteAt, TakeBytes;
    var b := ByteBits(sizes);
    assert |bits| % 8 == 5 && bits[5..] == b && b + [] == b;
    ByteAtBits(sizes, 0, []);
    ByteAtBits(sizes, 1, []);
    ByteAtBits(sizes, 2, []);
    ByteAtBits(sizes, 3, []);
  }
}
