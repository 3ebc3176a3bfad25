/**
 The compressed format as a function from bits to bytes (section 3.2 of RFC 1951).

 This is the reference that `inflate` is proved to compute and that `deflate`'s output
 is proved to satisfy.  It reads one bit string from the front; alignment of stored
 blocks follows from how many bits are left, since the whole input is a byte string.
 */
module Format {
  import opened Bits
  import opened Canonical
  import opened Tokens

  const MAX_BITS := 16
  const N_CLEN := 19
  const CLEN_BITS := 6

  // ----- fixed codes

  function Const(n: nat, v: nat): (s: Lens)
    ensures |s| == n
  {
    seq(n, _ => v)
  }

  function FixedLit(): (s: Lens)
    ensures |s| == N_LITLEN
  {
    Const(144, 8) + Const(112, 9) + Const(24, 7) + Const(8, 8)
  }

  function FixedOff(): (s: Lens)
    ensures |s| == 32
  {
    Const(32, 5)
  }

  lemma ConstCount(n: nat, v: nat, b: nat)
    ensures Count(Const(n, v), b) == if v == b then n else 0
  {
    CountConst(n, v, b);
    assert Const(n, v) == seq(n, _ => v);
  }

  lemma FixedLitCount(b: nat)
    ensures Count(FixedLit(), b) == if b == 7 then 24 else if b == 8 then 152 else if b == 9 then 112 else 0
  {
    var s, t, u, v := Const(144, 8), Const(112, 9), Const(24, 7), Const(8, 8);
    ConstCount(144, 8, b);
    ConstCount(112, 9, b);
    ConstCount(24, 7, b);
    ConstCount(8, 8, b);
    CountConcat(s, t, b);
    CountConcat(s + t, u, b);
    CountConcat(s + t + u, v, b);
  }

  lemma {:induction false} NoneShorter(lens: Lens, m: nat)
    requires forall b :: 0 < b <= m ==> Used(lens, b) == 0
    ensures End(lens, m) == 0
  {
    if m > 0 {
      NoneShorter(lens, m - 1);
    }
  }

  lemma FixedLitEnds()
    ensures forall b :: 0 <= b <= 9 ==>
            End(FixedLit(), b) == if b < 7 then 0 else if b == 7 then 24 else if b == 8 then 200 else 512
  {
    hide FixedLit;
    var f := FixedLit();
    forall b: nat
      ensures Count(f, b) == if b == 7 then 24 else if b == 8 then 152 else if b == 9 then 112 else 0
    {
      FixedLitCount(b);
    }
    forall b: nat | b < 7
      ensures End(f, b) == 0
    {
      NoneShorter(f, b);
    }
    assert End(f, 7) == 2 * End(f, 6) + 24;
    assert End(f, 8) == 2 * End(f, 7) + 152;
    assert End(f, 9) == 2 * End(f, 8) + 112;
  }

  lemma FixedLitFits()
    ensures Fits(FixedLit(), MAX_BITS)
  {
    var f := FixedLit();
    forall b | 0 <= b <= 9
      ensures FitsAt(f, b)
    {
      FixedLitEnds();
      Pow2Medium();
    }
    FitsAbove(f, 9, MAX_BITS);
  }

  lemma FixedOffFits()
    ensures Fits(FixedOff(), MAX_BITS)
  {
    var f := FixedOff();
    forall b | 0 <= b <= 5
      ensures FitsAt(f, b)
    {
      forall c: nat | c <= 5
        ensures Count(f, c) == if c == 5 then 32 else 0
      {
        ConstCount(32, 5, c);
      }
      if b < 5 {
        NoneShorter(f, b);
      } else {
        NoneShorter(f, 4);
        assert End(f, 5) == 2 * End(f, 4) + 32;
        Pow2Medium();
      }
    }
    FitsAbove(f, 5, MAX_BITS);
  }

  // ----- code lengths of a dynamic block

  /** The order in which the lengths of the code length code are sent. */
  const CLEN_ORDER: seq<nat> := [16, 17, 18, 0, 8, 7, 9, 6, 10, 5, 11, 4, 12, 3, 13, 2, 14, 1, 15]

  /** The same as a formula. */
  function ClenOrder(i: nat): (k: nat)
    requires i < N_CLEN
    ensures k < N_CLEN
  {
    if i < 3 then 16 + i
    else if i == 3 then 0
    else if i % 2 == 0 then 8 + (i - 4) / 2
    else 8 - (i - 3) / 2
  }

  ghost function ReadClens(bits: seq<bool>, i: nat, n: nat, v: Lens): (r: Outcome<(Lens, seq<bool>)>)
    requires i <= n <= N_CLEN == |v|
    ensures r.Yields? ==> |r.value.0| == N_CLEN && |r.value.1| <= |bits|
    decreases n - i
  {
    if i == n then Yields((v, bits))
    else if |bits| < 3 then Fails(NoInput)
    else ReadClens(bits[3..], i + 1, n, v[ClenOrder(i) := FromBits(bits[..3])])
  }

  lemma OrderIs(i: nat)
    requires i < N_CLEN
    ensures CLEN_ORDER[i] == ClenOrder(i)
  {
  }

  /** Group i of three bits is the length of the symbol that comes i-th in the order; the others have length 0. */
  ghost predicate SentInOrder(bits: seq<bool>, n: nat, v: Lens)
  {
    && n <= N_CLEN == |v| && 3 * n <= |bits|
    && forall i: nat :: i < N_CLEN ==> GroupAt(bits, n, v, CLEN_ORDER[i], i)
  }

  ghost predicate GroupAt(bits: seq<bool>, n: nat, v: Lens, k: nat, i: nat)
  {
    k < |v| && v[k] == if i < n && 3 * i + 3 <= |bits| then FromBits(bits[3 * i..3 * i + 3]) else 0
  }

  lemma OrderOnce(i: nat, k: nat)
    requires i < k < N_CLEN
    ensures ClenOrder(i) != ClenOrder(k)
  {
  }

  lemma {:induction false} ClensGroups(bits: seq<bool>, i: nat, n: nat, v: Lens, k: nat)
    requires i <= n <= N_CLEN == |v| && ReadClens(bits, i, n, v).Yields? && k < N_CLEN
    ensures var u := ReadClens(bits, i, n, v).value.0;
            && 3 * (n - i) <= |bits| && |u| == N_CLEN
            && u[ClenOrder(k)] == if i <= k < n then FromBits(bits[3 * (k - i)..3 * (k - i) + 3]) else v[ClenOrder(k)]
    decreases n - i
  {
    hide FromBits, ClenOrder;
    if i < n {
      var v', more := v[ClenOrder(i) := FromBits(bits[..3])], bits[3..];
      ClensGroups(more, i + 1, n, v', k);
      if k > i {
        OrderOnce(i, k);
        if k < n {
          assert more[3 * (k - i - 1)..3 * (k - i - 1) + 3] == bits[3 * (k - i)..3 * (k - i) + 3];
        }
      } else if k < i {
        OrderOnce(k, i);
      }
    }
  }

  lemma ClensInOrder(bits: seq<bool>, n: nat)
    requires n <= N_CLEN && ReadClens(bits, 0, n, Const(N_CLEN, 0)).Yields?
    ensures SentInOrder(bits, n, ReadClens(bits, 0, n, Const(N_CLEN, 0)).value.0)
  {
    hide FromBits, ReadClens, ClenOrder, GroupAt;
    var v := ReadClens(bits, 0, n, Const(N_CLEN, 0)).value.0;
    forall i: nat | i < N_CLEN
      ensures GroupAt(bits, n, v, CLEN_ORDER[i], i)
    {
      OrderIs(i);
      OneGroup(bits, n, i);
    }
    ClensGroups(bits, 0, n, Const(N_CLEN, 0), 0);
  }

  lemma OneGroup(bits: seq<bool>, n: nat, i: nat)
    requires n <= N_CLEN && ReadClens(bits, 0, n, Const(N_CLEN, 0)).Yields? && i < N_CLEN
    ensures GroupAt(bits, n, ReadClens(bits, 0, n, Const(N_CLEN, 0)).value.0, ClenOrder(i), i)
  {
    hide FromBits, ReadClens, ClenOrder;
    ClensGroups(bits, 0, n, Const(N_CLEN, 0), i);
  }

  /** Extra bits, smallest repeat count, of the code length symbols. */
  function RepeatBits(c: nat): (e: nat)
    ensures e <= 7
  {
    if c == 16 then 2 else if c == 17 then 3 else if c == 18 then 7 else 0
  }

  function RepeatBase(c: nat): (j: nat)
    ensures j > 0
  {
    if c == 16 || c == 17 then 3 else if c == 18 then 11 else 1
  }

  /** The length a code length symbol stands for, after the lengths acc. */
  function RepeatValue(c: nat, acc: Lens): nat
    requires c == 16 ==> acc != []
  {
    if c < 16 then c else if c == 16 then acc[|acc| - 1] else 0
  }

  ghost function ReadLens(cl: Lens, bits: seq<bool>, n: nat, acc: Lens): (r: Outcome<(Lens, seq<bool>)>)
    requires |acc| <= n
    ensures r.Yields? ==> |r.value.0| == n && |r.value.1| <= |bits|
    decreases |bits|
  {
    if |acc| == n then Yields((acc, bits)) else
    match DecodeSym(cl, CLEN_BITS, bits)
    case Fails(w) => Fails(w)
    case Undefined => Undefined
    case Yields((c, r0)) =>
      var e := RepeatBits(c);
      if |r0| < e then Fails(NoInput) else
      if c > 18 || (c == 16 && acc == []) then Fails(Corrupt) else
      var j := RepeatBase(c) + FromBits(r0[..e]);
      if |acc| + j > n then Fails(Corrupt)
      else ReadLens(cl, r0[e..], n, acc + Const(j, RepeatValue(c, acc)))
  }

  /** Header of a dynamic block: the two codes, and the bits after it. */
  ghost function ReadHeader(bits: seq<bool>): (r: Outcome<(Lens, Lens, seq<bool>)>)
    ensures r.Yields? ==> |r.value.2| <= |bits|
  {
    if |bits| < 14 then Fails(NoInput) else
    var nlit := FromBits(bits[..5]) + 257;
    var ndist := FromBits(bits[5..10]) + 1;
    var nclen := FromBits(bits[10..14]) + 4;
    FromBound(bits[10..14]);
    Pow2Small();
    if nlit > N_LITLEN || ndist > 32 then Fails(Corrupt) else
    match ReadClens(bits[14..], 0, nclen, Const(N_CLEN, 0))
    case Fails(w) => Fails(w)
    case Undefined => Undefined
    case Yields((cl, r0)) =>
      if !Fits(cl, MAX_BITS) then Fails(Corrupt) else
      match ReadLens(cl, r0, nlit + ndist, [])
      case Fails(w) => Fails(w)
      case Undefined => Undefined
      case Yields((lens, r1)) =>
        if !Fits(lens[..nlit], MAX_BITS) || !Fits(lens[nlit..], MAX_BITS) then Fails(Corrupt)
        else Yields((lens[..nlit], lens[nlit..], r1))
  }

  /**
   How a block without literal codewords fails.  The table for the literals has held the code length code, whose entry
   for the index 0 is still there: if that stands for a codeword, the decoder reads by it until the input ends.
   */
  ghost function OldWhy(bits: seq<bool>): Why
  {
    if |bits| < 14 then NoInput else
    var nclen := FromBits(bits[10..14]) + 4;
    if nclen > N_CLEN then NoInput else
    match ReadClens(bits[14..], 0, nclen, Const(N_CLEN, 0))
    case Yields((cl, _)) => if Shortest(cl) > CLEN_BITS then Corrupt else NoInput
    case _ => NoInput
  }

  // ----- stored blocks

  /** Byte k of a bit string, or -1 past its end. */
  ghost function ByteAt(b: seq<bool>, k: nat): int
  {
    if 8 * k + 8 <= |b| then FromBits(b[8 * k..8 * k + 8]) else -1
  }

  /** lo | hi << 8 on C ints, where a missing byte is -1. */
  function Join(lo: int, hi: int): int
  {
    if lo == -1 then -1 else if hi == -1 then lo - 256 else lo + 256 * hi
  }

  ghost function TakeBytes(b: seq<bool>, n: nat): (s: seq<byte>)
    requires 8 * n <= |b|
    ensures |s| == n
    decreases n
  {
    if n == 0 then []
    else
      FromBound(b[..8]);
      Pow2Small();
      [FromBits(b[..8])] + TakeBytes(b[8..], n - 1)
  }

  /**
   A stored block after its three header bits.  The complement check is the code's: a
   complement cut off by the end of the input reads as all ones.
   */
  ghost function ReadStored(bits: seq<bool>): (r: Outcome<(seq<byte>, seq<bool>)>)
    ensures r.Yields? ==> |r.value.1| <= |bits|
  {
    var b := bits[|bits| % 8..];
    var len, nlen := Join(ByteAt(b, 0), ByteAt(b, 1)), Join(ByteAt(b, 2), ByteAt(b, 3));
    if len != (-nlen - 1) % 65536 then Fails(Corrupt) else
    var body := if |b| < 32 then [] else b[32..];
    if |body| < 8 * len then Fails(Internal)
    else Yields((TakeBytes(body, len), body[8 * len..]))
  }

  // ----- blocks

  ghost function ReadBlock(bits: seq<bool>, out: seq<byte>): (r: Outcome<(bool, seq<byte>, seq<bool>)>)
    ensures r.Yields? ==> |r.value.2| < |bits|
  {
    if |bits| < 3 then Fails(NoInput) else
    var body := bits[3..];
    var kind := FromBits(bits[1..3]);
    if kind == 0 then
      match ReadStored(body)
      case Fails(w) => Fails(w)
      case Undefined => Undefined
      case Yields((s, rest)) => Yields((bits[0], out + s, rest))
    else if kind == 1 then
      match DecodeTokens(FixedLit(), FixedOff(), body, out)
      case Fails(w) => Fails(w)
      case Undefined => Undefined
      case Yields((out', rest)) => Yields((bits[0], out', rest))
    else if kind == 2 then
      match ReadHeader(body)
      case Fails(w) => Fails(w)
      case Undefined => Undefined
      case Yields((lit, off, r0)) =>
        if Longest(lit) == 0 then Fails(OldWhy(body)) else
        match DecodeTokens(lit, off, r0, out)
        case Fails(w) => Fails(w)
        case Undefined => Undefined
        case Yields((out', rest)) => Yields((bits[0], out', rest))
    else Fails(Corrupt)
  }

  /** All blocks up to the final one: the output, and the bits after the last block. */
  ghost function Inflated(bits: seq<bool>, out: seq<byte>): Outcome<(seq<byte>, seq<bool>)>
    decreases |bits|
  {
    match ReadBlock(bits, out)
    case Fails(w) => Fails(w)
    case Undefined => Undefined
    case Yields((final, out', rest)) =>
      if final then Yields((out', rest)) else Inflated(rest, out')
  }

  /** What a compressed byte string stands for. */
  ghost function Meaning(data: seq<byte>): Outcome<(seq<byte>, seq<bool>)>
  {
    Inflated(ByteBits(data), [])
  }

  /** Bits before the next byte boundary when n bits are left of a byte string. */
  function Partial(n: nat): (k: nat)
    ensures k <= n && k < 8
  {
    n % 8
  }

  /** What is left from the next byte boundary on. */
  function WholeBytes(rest: seq<bool>): seq<bool>
  {
    rest[Partial(|rest|)..]
  }

  // ----- when reading is defined

  /** With two complete codes the body of a block always has an answer. */
  lemma {:induction false} CompleteTokens(lit: Lens, off: Lens, m: nat, bits: seq<bool>, out: seq<byte>)
    requires Complete(lit, m) && Complete(off, m)
    ensures !DecodeTokens(lit, off, bits, out).Undefined?
    decreases |bits|
  {
    hide Complete, DecodeSym, Copy, LenBase, OffBase, FromBits;
    CompleteAnswers(lit, m, LITLEN_BITS, bits);
    var r := DecodeSym(lit, LITLEN_BITS, bits);
    if r.Yields? {
      SymShrinks(lit, LITLEN_BITS, bits);
      var (c, r0) := r.value;
      if c < 256 {
        CompleteTokens(lit, off, m, r0, out + [c]);
      } else if 256 < c <= 285 {
        var e := Extra(Lengths, c - LEN_START);
        if e <= |r0| {
          CompleteAnswers(off, m, OFF_BITS, r0[e..]);
        }
        var x := DecodeMatch(off, c - LEN_START, r0);
        if x.Yields? && x.value.1 <= |out| {
          CompleteTokens(lit, off, m, x.value.2, Copy(out, x.value.0, x.value.1));
        }
      }
    }
  }

  lemma SymShrinks(lens: Lens, limit: nat, bits: seq<bool>)
    ensures var r := DecodeSym(lens, limit, bits);
            r.Yields? ==> r.value.0 < |lens| && |r.value.1| < |bits|
  {
  }

  lemma FixedComplete()
    ensures Complete(FixedLit(), 9) && Complete(FixedOff(), 5)
  {
    hide FixedLit, FixedOff;
    FixedLitFits();
    FixedOffFits();
    FixedBounds();
    FitsAbove(FixedLit(), 9, MAX_BITS);
    FitsAbove(FixedOff(), 5, MAX_BITS);
    FixedLitEnds();
    FixedOffEnd();
    Pow2Medium();
  }

  lemma FixedBounds()
    ensures (forall i :: 0 <= i < N_LITLEN ==> FixedLit()[i] <= 9) && forall i :: 0 <= i < 32 ==> FixedOff()[i] <= 5
  {
  }

  lemma FixedOffEnd()
    ensures End(FixedOff(), 5) == 32
  {
    var f := FixedOff();
    forall c: nat | c <= 5
      ensures Count(f, c) == if c == 5 then 32 else 0
    {
      ConstCount(32, 5, c);
    }
    NoneShorter(f, 4);
    assert End(f, 5) == 2 * End(f, 4) + 32;
  }

  /** Completeness does not depend on the bound. */
  lemma {:induction false} CompleteAbove(lens: Lens, m: nat, n: nat)
    requires Complete(lens, m) && m <= n
    ensures Complete(lens, n)
  {
    if m < n {
      CompleteAbove(lens, m, n - 1);
      CountNone(lens, n);
      FitsAbove(lens, m, n);
    }
  }

  /** A block in the fixed codes always has an answer. */
  lemma FixedAnswers(bits: seq<bool>, out: seq<byte>)
    ensures !DecodeTokens(FixedLit(), FixedOff(), bits, out).Undefined?
  {
    hide FixedLit, FixedOff, DecodeTokens, Complete;
    FixedComplete();
    CompleteAbove(FixedOff(), 5, 9);
    CompleteTokens(FixedLit(), FixedOff(), 9, bits, out);
  }

  /** A match in a block without any distance codeword has no answer either. */
  lemma NoDistance(lit: Lens, off: Lens, m: nat, c: nat, x: seq<bool>, rest: seq<bool>, out: seq<byte>)
    requires Fits(lit, m) && c <= 28 && LEN_START + c < |lit| && lit[LEN_START + c] > 0 && |x| == Extra(Lengths, c)
    requires Longest(off) == 0
    ensures DecodeTokens(lit, off, Codeword(lit, LEN_START + c) + (x + rest), out).Undefined?
  {
    hide Fits, Codeword, DecodeSym;
    var r0 := x + rest;
    DecodeCodeword(lit, m, LITLEN_BITS, LEN_START + c, r0);
    assert r0[|x|..] == rest;
    NothingCoded(off, OFF_BITS, rest);
  }

  /** A match in a block with a single distance codeword, followed by the other bit, has none. */
  lemma LoneDistance(lit: Lens, m: nat, c: nat, x: seq<bool>, rest: seq<bool>, out: seq<byte>)
    requires Fits(lit, m) && c <= 28 && LEN_START + c < |lit| && lit[LEN_START + c] > 0 && |x| == Extra(Lengths, c)
    ensures DecodeTokens(lit, [1], Codeword(lit, LEN_START + c) + (x + ([true] + rest)), out).Undefined?
  {
    hide Fits, Codeword, DecodeSym;
    var r0 := x + ([true] + rest);
    DecodeCodeword(lit, m, LITLEN_BITS, LEN_START + c, r0);
    assert r0[|x|..] == [true] + rest;
    LoneStrays(OFF_BITS, rest);
  }
}
