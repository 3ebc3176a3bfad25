/** The byte-reversal table that both sides use to turn codewords around. */
module RevTab {
  import opened Bits

  /** A 256-entry table that reverses the bits of a byte. */
  ghost predicate IsRevTab(t: seq<byte>)
  {
    |t| == 256 && forall i :: 0 <= i < 256 ==> t[i] == MsbVal(ToBits(i, 8))
  }

  lemma {:induction false} BitAt(v: nat, n: nat, j: nat)
    requires j < n
    ensures ToBits(v, n)[j] == (Shr(v, j) % 2 == 1)
  {
    if j > 0 {
      BitAt(v / 2, n - 1, j - 1);
    }
  }

  /** Setting bit 7-j of the reversal extends it by the value's bit j. */
  lemma ReverseStep(i: nat, j: nat)
    requires i < 256 && j < 8
    ensures var b := ToBits(i, 8);
            Shl(MsbVal(b[..j + 1]), 7 - j)
              == Shl(MsbVal(b[..j]), 8 - j) + (if Shr(i, j) % 2 == 1 then Shl(1, 7 - j) else 0)
  {
    var b := ToBits(i, 8);
    var x := if b[j] then 1 else 0;
    assert b[..j + 1] == b[..j] + [b[j]];
    MsbValConcat(b[..j], [b[j]]);
    assert MsbVal([b[j]]) == x by {
      var c := [b[j]];
      assert c[1..] == [] && Rev(c) == c;
      assert FromBits(c) == x + 2 * FromBits(c[1..]);
    }
    BitAt(i, 8, j);
    assert Shl(MsbVal(b[..j]), 1) == 2 * MsbVal(b[..j]);
    ShlAdd(2 * MsbVal(b[..j]), x, 7 - j);
    ShlInner(MsbVal(b[..j]), 7 - j);
    ShlZero(7 - j);
  }

  method ReverseByte(i: nat) returns (r: byte)
    requires i < 256
    ensures r == MsbVal(ToBits(i, 8))
  {
    var v := 0;
    ghost var b := ToBits(i, 8);
    assert b[..0] == [];
    ShlZero(8);
    for j := 0 to 8
      invariant v == Shl(MsbVal(b[..j]), 8 - j)
    {
      ReverseStep(i, j);
      if Shr(i, j) % 2 == 1 {
        v := v + Shl(1, 7 - j);
      }
    }
    assert b[..8] == b;
    MsbMsbVal(b);
    Pow2Small();
    r := v;
  }

  method InitRevTab() returns (t: seq<byte>)
    ensures IsRevTab(t)
  {
    t := [];
    for i := 0 to 256
      invariant |t| == i && forall k :: 0 <= k < i ==> t[k] == MsbVal(ToBits(k, 8))
    {
      var r := ReverseByte(i);
      t := t + [r];
    }
  }

  /** revcode: move the codeword up to bit 15, then reverse sixteen bits. */
  function RevCode(t: seq<byte>, c: nat, b: nat): nat
    requires IsRevTab(t) && b <= 16 && c < Pow2(b)
  {
    var w := Shl(c, 16 - b);
    TopByte(c, b);
    t[Shr(w, 8)] + Shl(t[Low(w, 8)], 8)
  }

  lemma TopByte(c: nat, b: nat)
    requires b <= 16 && c < Pow2(b)
    ensures var w := Shl(c, 16 - b);
            w < Pow2(16) && Shr(w, 8) < 256 && Low(w, 8) < 256
  {
    var w := Shl(c, 16 - b);
    ShlPow2(b, 16 - b);
    ShlMono(c, Pow2(b), 16 - b);
    Pow2Small();
    ShrBound(w, 16, 8);
    ShrLow(w, 8);
  }

  lemma MsbShifted(c: nat, b: nat)
    requires b <= 16 && c < Pow2(b)
    ensures Shl(c, 16 - b) < Pow2(16)
    ensures Msb(Shl(c, 16 - b), 16) == Msb(c, b) + Zeros(16 - b)
  {
    var z := Zeros(16 - b);
    TopByte(c, b);
    MsbValMsb(c, b);
    MsbValConcat(Msb(c, b), z);
    MsbValZeros(16 - b);
    MsbMsbVal(Msb(c, b) + z);
  }

  lemma RevCodeReverses(t: seq<byte>, c: nat, b: nat)
    requires IsRevTab(t) && b <= 16 && c < Pow2(b)
    ensures RevCode(t, c, b) == FromBits(Msb(c, b)) < Pow2(b)
  {
    var w := Shl(c, 16 - b);
    var v := ToBits(w, 16);
    TopByte(c, b);
    ToSplit(w, 16, 8);
    ReversedByte(t, w);
    assert t[Shr(w, 8)] == MsbVal(v[8..]);
    assert v == v[..8] + v[8..];
    RevConcat(v[..8], v[8..]);
    FromConcat(Rev(v[8..]), Rev(v[..8]));
    MsbShifted(c, b);
    FromPadded(Msb(c, b), 16 - b);
    FromBound(Msb(c, b));
  }

  /** Reversal is its own inverse on n-bit indices. */
  lemma RevIndex(v: nat, n: nat)
    requires v < Pow2(n)
    ensures FromBits(Msb(v, n)) < Pow2(n)
    ensures ToBits(FromBits(Msb(v, n)), n) == Msb(v, n)
    ensures MsbVal(ToBits(FromBits(Msb(v, n)), n)) == v
    ensures FromBits(Msb(MsbVal(ToBits(v, n)), n)) == v
  {
    FromBound(Msb(v, n));
    ToFrom(Msb(v, n));
    MsbValMsb(v, n);
    MsbMsbVal(ToBits(v, n));
    FromTo(v, n);
  }

  lemma ReversedByte(t: seq<byte>, v: nat)
    requires IsRevTab(t)
    ensures Low(v, 8) < 256 && t[Low(v, 8)] == MsbVal(ToBits(v, 8))
  {
    ShrLow(v, 8);
    Pow2Small();
    FromTo(v, 8);
    ToFrom(ToBits(v, 8));
  }

  /** The sixteen low bits of a word, reversed a byte at a time. */
  function RevWord(t: seq<byte>, v: nat): nat
    requires IsRevTab(t)
  {
    ReversedByte(t, v);
    ReversedByte(t, Shr(v, 8));
    Shl(t[Low(v, 8)], 8) + t[Low(Shr(v, 8), 8)]
  }

  lemma ReversedWord(t: seq<byte>, v: nat)
    requires IsRevTab(t)
    ensures RevWord(t, v) == MsbVal(ToBits(v, 16))
  {
    var q := ToBits(v, 16);
    ToSplit(v, 16, 8);
    assert q == q[..8] + q[8..];
    MsbValConcat(q[..8], q[8..]);
    ReversedByte(t, v);
    ReversedByte(t, Shr(v, 8));
  }

  /** hdecsym's view of the register: its first n bits, most significant first. */
  lemma ReversedTop(t: seq<byte>, sreg: nat, nbits: nat, n: nat)
    requires IsRevTab(t) && n <= 16 && n <= nbits
    ensures Shr(RevWord(t, sreg), 16 - n) == MsbVal(ToBits(sreg, nbits)[..n])
  {
    ReversedWord(t, sreg);
    MsbValPrefix(ToBits(sreg, 16), n);
    assert ToBits(sreg, 16)[..n] == ToBits(sreg, nbits)[..n] by {
      ToSplit(sreg, 16, n);
      ToSplit(sreg, nbits, n);
    }
  }
}
