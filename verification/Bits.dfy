/**
 Bit strings and their numeric values.

 Both halves of libflate pack bits least-significant first (section 3.1.1 of
 RFC 1951), while Huffman codewords are packed starting from their most
 significant bit.  `ToBits`/`FromBits` give the first order, `Msb`/`MsbVal` the second.
 Shifts and masks are defined one bit at a time, which keeps proofs linear.
 */
module Bits {

  type byte = x: int | 0 <= x < 256
  type word16 = x: int | 0 <= x < 65536

  datatype Option<+T> = None | Some(value: T)

  function Pow2(n: nat): (r: nat)
    ensures r > 0
  {
    if n == 0 then 1 else 2 * Pow2(n - 1)
  }

  /** v << n */
  function Shl(v: nat, n: nat): nat
  {
    if n == 0 then v else 2 * Shl(v, n - 1)
  }

  /** v >> n */
  function Shr(v: nat, n: nat): nat
  {
    if n == 0 then v else Shr(v / 2, n - 1)
  }

  /** v & ((1 << n) - 1) */
  function Low(v: nat, n: nat): nat
  {
    if n == 0 then 0 else v % 2 + 2 * Low(v / 2, n - 1)
  }

  /** The n low bits of v, least significant first. */
  function ToBits(v: nat, n: nat): (b: seq<bool>)
    ensures |b| == n
  {
    if n == 0 then [] else [v % 2 == 1] + ToBits(v / 2, n - 1)
  }

  function FromBits(b: seq<bool>): nat
  {
    if b == [] then 0 else (if b[0] then 1 else 0) + 2 * FromBits(b[1..])
  }

  function Rev(b: seq<bool>): (r: seq<bool>)
    ensures |r| == |b|
  {
    if b == [] then [] else Rev(b[1..]) + [b[0]]
  }

  /** The n low bits of v, most significant first. */
  function Msb(v: nat, n: nat): (b: seq<bool>)
    ensures |b| == n
  {
    Rev(ToBits(v, n))
  }

  function MsbVal(b: seq<bool>): nat
  {
    FromBits(Rev(b))
  }

  function Zeros(n: nat): (b: seq<bool>)
    ensures |b| == n
  {
    seq(n, _ => false)
  }

  /** The bits of a byte string, in stream order. */
  function ByteBits(s: seq<byte>): (b: seq<bool>)
    ensures |b| == 8 * |s|
  {
    if s == [] then [] else ToBits(s[0], 8) + ByteBits(s[1..])
  }

  // ----- powers of two and shifts

  lemma {:induction false} Pow2Mono(a: nat, b: nat)
    requires a <= b
    ensures Pow2(a) <= Pow2(b)
  {
    if a < b {
      Pow2Mono(a, b - 1);
    }
  }

  lemma Pow2Small()
    ensures Pow2(1) == 2 && Pow2(2) == 4 && Pow2(3) == 8 && Pow2(4) == 16 && Pow2(5) == 32 && Pow2(6) == 64
    ensures Pow2(7) == 128 && Pow2(8) == 256 && Pow2(13) == 8192 && Pow2(14) == 16384 && Pow2(15) == 32768
    ensures Pow2(16) == 65536
  {
    assert Pow2(8) == 256 && Pow2(12) == 4096;
  }

  lemma Pow2Medium()
    ensures Pow2(0) == 1 && Pow2(1) == 2 && Pow2(2) == 4 && Pow2(3) == 8 && Pow2(4) == 16 && Pow2(5) == 32
    ensures Pow2(6) == 64 && Pow2(7) == 128 && Pow2(8) == 256 && Pow2(9) == 512 && Pow2(10) == 1024
    ensures Pow2(11) == 2048 && Pow2(12) == 4096 && Pow2(13) == 8192
  {
  }

  lemma {:induction false} ShlPow2(a: nat, b: nat)
    ensures Shl(Pow2(a), b) == Pow2(a + b)
  {
    if b > 0 {
      ShlPow2(a, b - 1);
    }
  }

  lemma EightUp(v: nat)
    ensures Shl(v, 8) == 256 * v
  {
    assert Shl(v, 1) == 2 * v && Shl(v, 2) == 2 * Shl(v, 1) && Shl(v, 3) == 2 * Shl(v, 2) && Shl(v, 4) == 2 * Shl(v, 3);
    assert Shl(v, 5) == 2 * Shl(v, 4) && Shl(v, 6) == 2 * Shl(v, 5) && Shl(v, 7) == 2 * Shl(v, 6);
  }

  lemma {:induction false} ShlMono(v: nat, w: nat, n: nat)
    ensures v < w ==> Shl(v, n) < Shl(w, n)
    ensures v <= w ==> Shl(v, n) <= Shl(w, n)
    ensures v <= Shl(v, n)
  {
    if n > 0 {
      ShlMono(v, w, n - 1);
    }
  }

  lemma {:induction false} ShlAdd(v: nat, w: nat, n: nat)
    ensures Shl(v + w, n) == Shl(v, n) + Shl(w, n)
  {
    if n > 0 {
      ShlAdd(v, w, n - 1);
    }
  }

  /** The shift commutes with doubling from the inside. */
  lemma {:induction false} ShlInner(v: nat, n: nat)
    ensures Shl(2 * v, n) == 2 * Shl(v, n)
  {
    if n > 0 {
      ShlInner(v, n - 1);
    }
  }

  /** Shifting right answers how many whole units of 1 << n there are. */
  lemma {:induction false} ShrSpec(v: nat, n: nat, q: nat)
    ensures Shr(v, n) >= q <==> v >= Shl(q, n)
  {
    if n > 0 {
      ShrSpec(v / 2, n - 1, q);
    }
  }

  lemma ShrShl(v: nat, n: nat)
    ensures Shr(Shl(v, n), n) == v
  {
    ShrSpec(Shl(v, n), n, v);
    ShrSpec(Shl(v, n), n, v + 1);
    ShlMono(v, v + 1, n);
  }

  lemma ShrMono(v: nat, w: nat, n: nat)
    requires v <= w
    ensures Shr(v, n) <= Shr(w, n)
  {
    ShrSpec(v, n, Shr(v, n));
    ShrSpec(w, n, Shr(v, n));
  }

  lemma {:induction false} ShrPred(v: nat, n: nat)
    requires v > 0
    ensures Shr(v, n) <= Shr(v - 1, n) + 1
  {
    if n > 0 && v % 2 == 0 {
      ShrPred(v / 2, n - 1);
    }
  }

  lemma {:induction false} ShrStep(v: nat, n: nat)
    requires n > 0
    ensures Shr(v, n) == Shr(v, n - 1) / 2
  {
    if n > 1 {
      ShrStep(v / 2, n - 1);
    }
  }

  lemma {:induction false} ShrShr(v: nat, a: nat, b: nat)
    ensures Shr(Shr(v, a), b) == Shr(v, a + b)
  {
    if a > 0 {
      ShrShr(v / 2, a - 1, b);
    }
  }

  lemma {:induction false} ShrLow(v: nat, n: nat)
    ensures v == Low(v, n) + Shl(Shr(v, n), n) && Low(v, n) < Pow2(n)
  {
    if n > 0 {
      ShrLow(v / 2, n - 1);
    }
  }

  lemma ShrBound(v: nat, n: nat, k: nat)
    requires k <= n && v < Pow2(n)
    ensures Shr(v, k) < Pow2(n - k)
  {
    ShlPow2(n - k, k);
    ShrSpec(v, k, Pow2(n - k));
  }

  // ----- values

  lemma {:induction false} FromBound(b: seq<bool>)
    ensures FromBits(b) < Pow2(|b|)
  {
    if b != [] {
      FromBound(b[1..]);
    }
  }

  lemma {:induction false} ToFrom(b: seq<bool>)
    ensures ToBits(FromBits(b), |b|) == b
  {
    if b != [] {
      ToFrom(b[1..]);
      assert FromBits(b) / 2 == FromBits(b[1..]);
      assert b == [b[0]] + b[1..];
    }
  }

  lemma {:induction false} FromTo(v: nat, n: nat)
    ensures FromBits(ToBits(v, n)) == Low(v, n)
    ensures v < Pow2(n) ==> FromBits(ToBits(v, n)) == v
  {
    if n > 0 {
      FromTo(v / 2, n - 1);
      assert ToBits(v, n)[1..] == ToBits(v / 2, n - 1);
    }
  }

  lemma {:induction false} FromConcat(a: seq<bool>, b: seq<bool>)
    ensures FromBits(a + b) == FromBits(a) + Shl(FromBits(b), |a|)
  {
    if a == [] {
      assert a + b == b;
    } else {
      FromConcat(a[1..], b);
      assert (a + b)[1..] == a[1..] + b;
    }
  }

  /** Shifting a value right drops its first bits; masking keeps them. */
  lemma {:induction false} FromSplit(b: seq<bool>, n: nat)
    requires n <= |b|
    ensures Shr(FromBits(b), n) == FromBits(b[n..])
    ensures Low(FromBits(b), n) == FromBits(b[..n])
  {
    if n > 0 {
      FromSplit(b[1..], n - 1);
      assert b[1..][n - 1..] == b[n..];
      assert b[..n][1..] == b[1..][..n - 1];
    }
  }

  lemma {:induction false} FromZeros(n: nat)
    ensures FromBits(Zeros(n)) == 0
  {
    if n > 0 {
      assert Zeros(n)[1..] == Zeros(n - 1);
      FromZeros(n - 1);
    }
  }

  lemma {:induction false} ShlZero(n: nat)
    ensures Shl(0, n) == 0
  {
    if n > 0 {
      ShlZero(n - 1);
    }
  }

  /** Zero bits above a value do not change it. */
  lemma FromPadded(b: seq<bool>, n: nat)
    ensures FromBits(b + Zeros(n)) == FromBits(b)
  {
    FromConcat(b, Zeros(n));
    FromZeros(n);
    ShlZero(|b|);
  }

  lemma {:induction false} ToSplit(v: nat, n: nat, k: nat)
    requires k <= n
    ensures ToBits(v, n)[..k] == ToBits(v, k)
    ensures ToBits(v, n)[k..] == ToBits(Shr(v, k), n - k)
  {
    if k > 0 {
      ToSplit(v / 2, n - 1, k - 1);
      assert ToBits(v, n)[..k] == [v % 2 == 1] + ToBits(v / 2, n - 1)[..k - 1];
      assert ToBits(v, n)[k..] == ToBits(v / 2, n - 1)[k - 1..];
    }
  }

  /** Or-ing a k-bit value in above an n-bit one appends its bits. */
  lemma AppendBits(v: nat, n: nat, c: nat, k: nat)
    requires v < Pow2(n) && c < Pow2(k)
    ensures v + Shl(c, n) < Pow2(n + k)
    ensures ToBits(v + Shl(c, n), n + k) == ToBits(v, n) + ToBits(c, k)
  {
    var a, b := ToBits(v, n), ToBits(c, k);
    FromTo(v, n);
    FromTo(c, k);
    FromConcat(a, b);
    FromBound(a + b);
    ToFrom(a + b);
  }

  // ----- reversal

  lemma {:induction false} RevConcat(a: seq<bool>, b: seq<bool>)
    ensures Rev(a + b) == Rev(b) + Rev(a)
  {
    if a == [] {
      assert a + b == b;
    } else {
      assert (a + b)[1..] == a[1..] + b;
      RevConcat(a[1..], b);
    }
  }

  lemma {:induction false} RevRev(b: seq<bool>)
    ensures Rev(Rev(b)) == b
  {
    if b != [] {
      RevConcat(Rev(b[1..]), [b[0]]);
      RevRev(b[1..]);
    }
  }

  lemma {:induction false} RevZeros(n: nat)
    ensures Rev(Zeros(n)) == Zeros(n)
  {
    if n > 0 {
      assert Zeros(n)[1..] == Zeros(n - 1);
      RevZeros(n - 1);
    }
  }

  lemma MsbValMsb(v: nat, n: nat)
    requires v < Pow2(n)
    ensures MsbVal(Msb(v, n)) == v
  {
    RevRev(ToBits(v, n));
    FromTo(v, n);
  }

  lemma MsbMsbVal(b: seq<bool>)
    ensures Msb(MsbVal(b), |b|) == b
    ensures MsbVal(b) < Pow2(|b|)
  {
    ToFrom(Rev(b));
    RevRev(b);
    FromBound(Rev(b));
  }

  /** Dropping the last bits of a most-significant-first string shifts its value. */
  lemma MsbValPrefix(b: seq<bool>, k: nat)
    requires k <= |b|
    ensures MsbVal(b[..k]) == Shr(MsbVal(b), |b| - k)
  {
    assert b == b[..k] + b[k..];
    RevConcat(b[..k], b[k..]);
    FromSplit(Rev(b), |b| - k);
    assert Rev(b)[|b| - k..] == Rev(b[..k]);
  }

  lemma MsbValConcat(a: seq<bool>, b: seq<bool>)
    ensures MsbVal(a + b) == Shl(MsbVal(a), |b|) + MsbVal(b)
  {
    RevConcat(a, b);
    FromConcat(Rev(b), Rev(a));
  }

  lemma MsbValZeros(n: nat)
    ensures MsbVal(Zeros(n)) == 0
  {
    RevZeros(n);
    FromZeros(n);
  }

  /** Guessing zeros for the missing bits gives the least possible value. */
  lemma ZeroExtendLeast(a: seq<bool>, c: seq<bool>)
    requires a <= c
    ensures MsbVal(a + Zeros(|c| - |a|)) <= MsbVal(c)
  {
    assert c == a + c[|a|..];
    MsbValConcat(a, c[|a|..]);
    MsbValConcat(a, Zeros(|c| - |a|));
    MsbValZeros(|c| - |a|);
  }

  lemma {:induction false} ToBitsSmall(v: nat, k: nat, n: nat)
    requires v < Pow2(k) && k <= n
    ensures ToBits(v, n) == ToBits(v, k) + Zeros(n - k)
  {
    if n == 0 {
    } else if k == 0 {
      ToBitsSmall(0, 0, n - 1);
    } else {
      ToBitsSmall(v / 2, k - 1, n - 1);
    }
  }

  /** The low n bits of a k-bit register, zero-extended when k < n. */
  lemma LowZeroExtend(v: nat, k: nat, n: nat)
    requires v < Pow2(k)
    ensures k >= n ==> ToBits(Low(v, n), n) == ToBits(v, k)[..n]
    ensures k < n ==> ToBits(Low(v, n), n) == ToBits(v, k) + Zeros(n - k)
    ensures Low(v, n) < Pow2(n)
  {
    assert ToBits(Low(v, n), n) == ToBits(v, n) by {
      FromTo(v, n);
      ToFrom(ToBits(v, n));
    }
    ShrLow(v, n);
    if k >= n {
      ToSplit(v, k, n);
    } else {
      ToBitsSmall(v, k, n);
    }
  }

  lemma MsbPrefixVal(c: nat, k: nat, b: seq<bool>)
    requires c < Pow2(k) && k <= |b|
    ensures Msb(c, k) <= b <==> c == Shr(MsbVal(b), |b| - k)
  {
    MsbValPrefix(b, k);
    MsbMsbVal(b[..k]);
    MsbValMsb(c, k);
    assert Msb(c, k) <= b <==> Msb(c, k) == b[..k];
  }

  // ----- bytes

  lemma {:induction false} ByteBitsConcat(a: seq<byte>, b: seq<byte>)
    ensures ByteBits(a + b) == ByteBits(a) + ByteBits(b)
  {
    if a == [] {
      assert a + b == b;
    } else {
      assert (a + b)[1..] == a[1..] + b;
      ByteBitsConcat(a[1..], b);
    }
  }

  lemma ByteBitsSingle(c: byte)
    ensures ByteBits([c]) == ToBits(c, 8)
  {
    assert [c][1..] == [];
  }
}
