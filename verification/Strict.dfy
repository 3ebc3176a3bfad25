/** Where the decoder is more lenient than the format: stored blocks cut off by the end of the input. */
module Strict {
  import opened Bits
  import opened Canonical
  import opened Tokens
  import opened Format

  function ValueOf<T>(r: Outcome<T>): Option<T>
  {
    if r.Yields? then Some(r.value) else None
  }

  /** A stored block as section 3.2.4 of RFC 1951 has it: both sizes in full, each the complement of the other. */
  ghost function StrictStored(bits: seq<bool>): (r: Option<(seq<byte>, seq<bool>)>)
    ensures r.Some? ==> |r.value.1| <= |bits|
  {
    var b := bits[|bits| % 8..];
    if |b| < 32 then None else
    var len, nlen := FromBits(b[..16]), FromBits(b[16..32]);
    if len + nlen != 65535 || |b| - 32 < 8 * len then None
    else Some((TakeBytes(b[32..], len), b[32 + 8 * len..]))
  }

  /** The input ends after a size of 0, or within its complement, of which only the byte 255 is there. */
  ghost predicate Cut(b: seq<bool>)
  {
    && 16 <= |b| < 32 && FromBits(b[..8]) == 0 && FromBits(b[8..16]) == 0
    && (|b| >= 24 ==> FromBits(b[16..24]) == 255)
  }

  lemma TwoBytes(b: seq<bool>, i: nat)
    requires i + 16 <= |b|
    ensures FromBits(b[i..i + 16]) == FromBits(b[i..i + 8]) + 256 * FromBits(b[i + 8..i + 16])
    ensures FromBits(b[i..i + 8]) < 256 && FromBits(b[i + 8..i + 16]) < 256
  {
    hide FromBits;
    var x, y := b[i..i + 8], b[i + 8..i + 16];
    assert b[i..i + 16] == x + y;
    FromConcat(x, y);
    Pow2Small();
    EightUp(FromBits(y));
    FromBound(x);
    FromBound(y);
  }

  lemma OneByte(b: seq<bool>, i: nat)
    requires |b| >= i + 8
    ensures FromBits(b[i..i + 8]) < 256
  {
    FromBound(b[i..i + 8]);
    Pow2Small();
  }

  lemma FullSizes(bits: seq<bool>)
    requires |bits[|bits| % 8..]| >= 32
    ensures ValueOf(ReadStored(bits)) == StrictStored(bits)
  {
    hide FromBits, TakeBytes;
    var b := bits[|bits| % 8..];
    TwoBytes(b, 0);
    TwoBytes(b, 16);
  }

  lemma ShortSizes(bits: seq<bool>)
    requires |bits[|bits| % 8..]| < 32
    ensures ValueOf(ReadStored(bits)) == if Cut(bits[|bits| % 8..]) then Some(([], [])) else None
  {
    hide FromBits;
    var b := bits[|bits| % 8..];
    assert |b| == 8 * (|bits| / 8);
    if |b| >= 8 {
      OneByte(b, 0);
      assert b[0..8] == b[..8];
    }
    if |b| >= 16 {
      OneByte(b, 8);
    }
    if |b| >= 24 {
      OneByte(b, 16);
    }
  }

  /** The decoder reads a stored block as the format has it exactly if it is not cut off. */
  lemma StoredIff(bits: seq<bool>)
    ensures ValueOf(ReadStored(bits)) == StrictStored(bits) <==> !Cut(bits[|bits| % 8..])
  {
    hide FromBits, TakeBytes;
    if |bits[|bits| % 8..]| >= 32 {
      FullSizes(bits);
    } else {
      ShortSizes(bits);
    }
  }

  // ----- whole streams

  ghost function StrictBlock(bits: seq<bool>, out: seq<byte>): (r: Option<(bool, seq<byte>, seq<bool>)>)
    ensures r.Some? ==> |r.value.2| < |bits|
  {
    if |bits| < 3 || FromBits(bits[1..3]) != 0 then ValueOf(ReadBlock(bits, out)) else
    match StrictStored(bits[3..])
    case None => None
    case Some((s, rest)) => Some((bits[0], out + s, rest))
  }

  ghost function StrictInflated(bits: seq<bool>, out: seq<byte>): Option<(seq<byte>, seq<bool>)>
    decreases |bits|
  {
    match StrictBlock(bits, out)
    case None => None
    case Some((final, out', rest)) =>
      if final then Some((out', rest)) else StrictInflated(rest, out')
  }

  /** The block at the beginning of the bits is stored and cut off. */
  ghost predicate CutBlock(bits: seq<bool>)
  {
    |bits| >= 3 && FromBits(bits[1..3]) == 0 && Cut(bits[3..][|bits[3..]| % 8..])
  }

  /** After some blocks that the format allows comes a last one that is cut off. */
  ghost predicate EndsCut(bits: seq<bool>, out: seq<byte>)
    decreases |bits|
  {
    if CutBlock(bits) then bits[0]
    else
      match StrictBlock(bits, out)
      case Some((final, out', rest)) => !final && EndsCut(rest, out')
      case None => false
  }

  lemma BlockCases(bits: seq<bool>, out: seq<byte>)
    ensures if CutBlock(bits) then StrictBlock(bits, out).None? && ReadBlock(bits, out) == Yields((bits[0], out, []))
            else StrictBlock(bits, out) == ValueOf(ReadBlock(bits, out))
  {
    hide FromBits, StrictStored, Cut, ReadStored, ReadHeader, DecodeTokens, FixedLit, FixedOff;
    if |bits| >= 3 {
      StoredIff(bits[3..]);
      if CutBlock(bits) {
        CutYields(bits[3..]);
        assert out + [] == out;
      }
    }
  }

  lemma CutYields(bits: seq<bool>)
    requires Cut(bits[|bits| % 8..])
    ensures ReadStored(bits) == Yields(([], [])) && StrictStored(bits).None?
  {
    hide FromBits, TakeBytes;
    ShortSizes(bits);
  }

  /** Nothing is read from an empty string. */
  lemma NothingLeft(out: seq<byte>)
    ensures Inflated([], out).Fails?
  {
  }

  /**
   The decoder gives what the format gives, except exactly for a stream whose last block is cut off; the format has no
   value for that, the decoder does.
   */
  lemma {:induction false} InflatedIff(bits: seq<bool>, out: seq<byte>)
    ensures ValueOf(Inflated(bits, out)) == StrictInflated(bits, out) <==> !EndsCut(bits, out)
    ensures EndsCut(bits, out) ==> Inflated(bits, out).Yields? && StrictInflated(bits, out).None?
    decreases |bits|
  {
    hide CutBlock, StrictBlock, ReadBlock;
    BlockCases(bits, out);
    if CutBlock(bits) {
      NothingLeft(out);
    } else {
      var r := ReadBlock(bits, out);
      if r.Yields? && !r.value.0 {
        InflatedIff(r.value.2, r.value.1);
      }
    }
  }

  lemma Bits100()
    ensures ByteBits([1, 0, 0]) == [true] + Zeros(23)
  {
    ByteBitsConcat([1], [0, 0]);
    ByteBitsConcat([0], [0]);
    ByteBitsSingle(1);
    ByteBitsSingle(0);
    FromZeros(8);
    ToFrom(Zeros(8));
    FromZeros(7);
    ToFrom(Zeros(7));
    assert ToBits(1, 8) == [true] + ToBits(0, 7);
    assert [1] + [0, 0] == [1, 0, 0] && [0] + [0] == [0, 0];
    assert [true] + Zeros(7) + (Zeros(8) + Zeros(8)) == [true] + Zeros(23);
  }

  /** Three bytes, a final stored block that ends after its size: the decoder takes it for an empty stream. */
  lemma CutStream()
    ensures Meaning([1, 0, 0]) == Yields(([], [])) && StrictInflated(ByteBits([1, 0, 0]), []).None?
  {
    hide StrictBlock, ReadBlock, ByteBits, ToBits, FromBits;
    var bits := ByteBits([1, 0, 0]);
    Bits100();
    assert bits[1..3] == Zeros(2) && bits[3..] == Zeros(21) && Zeros(21)[5..] == Zeros(16);
    assert Zeros(16)[..8] == Zeros(8) && Zeros(16)[8..16] == Zeros(8);
    FromZeros(2);
    FromZeros(8);
    BlockCases(bits, []);
  }
}
