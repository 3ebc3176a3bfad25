/** The encoder's output: a bit register, a 4096-byte buffer and the writer behind it. */
module BitWriter {
  import opened Bits

  const DEFLATE_OUT := 4096

  /** Moving the low byte of the register to the buffer keeps the bits in order. */
  lemma EmitByte(done: seq<byte>, v: nat, n: nat)
    requires n >= 8 && v < Pow2(n)
    ensures Low(v, 8) < 256 && Shr(v, 8) < Pow2(n - 8)
    ensures ByteBits(done + [Low(v, 8)]) + ToBits(Shr(v, 8), n - 8) == ByteBits(done) + ToBits(v, n)
  {
    hide ByteBits, ToBits, FromBits, Low, Shr, Pow2, Shl;
    LowByte(v);
    ShrBound(v, n, 8);
    ToSplit(v, n, 8);
    ByteBitsConcat(done, [Low(v, 8)]);
    var w := ToBits(v, n);
    assert w == w[..8] + w[8..];
    assert ByteBits(done) + w[..8] + w[8..] == ByteBits(done) + (w[..8] + w[8..]);
  }

  lemma LowByte(v: nat)
    ensures Low(v, 8) < 256 && ByteBits([Low(v, 8)]) == ToBits(v, 8)
  {
    hide ByteBits, ToBits, FromBits, Low, Pow2, Shr, Shl;
    ShrLow(v, 8);
    Pow2Small();
    FromTo(v, 8);
    ToFrom(ToBits(v, 8));
    ByteBitsSingle(Low(v, 8));
  }

  class Out {
    const obuf: array<byte>
    var out: nat
    var bits: nat
    var nbits: nat
    var sink: seq<byte> // what the writer callback has been given

    ghost predicate Valid()
      reads this
    {
      obuf.Length == DEFLATE_OUT && out < DEFLATE_OUT && nbits < 8 && bits < Pow2(nbits)
    }

    ghost function Bytes(): seq<byte>
      reads this, obuf
      requires out <= obuf.Length
    {
      sink + obuf[..out]
    }

    /** Every bit put so far, in stream order. */
    ghost function Written(): (b: seq<bool>)
      reads this, obuf
      requires Valid()
      ensures |b| % 8 == nbits
    {
      ByteBits(Bytes()) + ToBits(bits, nbits)
    }

    constructor ()
      ensures Valid() && fresh(obuf) && Written() == []
    {
      obuf := new byte[DEFLATE_OUT](_ => 0);
      out, bits, nbits, sink := 0, 0, 0, [];
    }

    method LzFlush()
      requires obuf.Length == DEFLATE_OUT && out <= DEFLATE_OUT
      modifies `sink, `out
      ensures out == 0 && Bytes() == old(Bytes()) && sink == Bytes()
    {
      sink := sink + obuf[..out];
      out := 0;
    }

    method PutByte(c: byte)
      requires obuf.Length == DEFLATE_OUT && out < DEFLATE_OUT
      modifies `sink, `out, obuf
      ensures out < DEFLATE_OUT && Bytes() == old(Bytes()) + [c]
    {
      ghost var n := out;
      obuf[out] := c;
      out := out + 1;
      assert obuf[..out] == old(obuf[..n]) + [c];
      if out == DEFLATE_OUT {
        LzFlush();
      }
    }

    /** Append the n low bits of v, least significant first. */
    method LzPut(v: nat, n: nat)
      requires Valid() && n <= 16 && v < Pow2(n)
      modifies this, obuf
      ensures Valid() && Written() == old(Written()) + ToBits(v, n)
    {
      hide ByteBits, ToBits, Pow2, Shl, Shr, Low;
      ghost var before := Written();
      var w, k := bits + Shl(v, nbits), nbits + n;
      AppendBits(bits, nbits, v, n);
      while k >= 8
        invariant obuf.Length == DEFLATE_OUT && out < DEFLATE_OUT && 0 <= k && 0 <= w < Pow2(k)
        invariant ByteBits(Bytes()) + ToBits(w, k) == before + ToBits(v, n)
      {
        EmitByte(Bytes(), w, k);
        PutByte(Low(w, 8));
        w := Shr(w, 8);
        k := k - 8;
      }
      bits := w;
      nbits := k;
    }

    /** Pad with zero bits to a byte boundary. */
    method LzFlushBits()
      requires Valid()
      modifies this, obuf
      ensures Valid() && nbits == 0
      ensures Written() == old(Written()) + Zeros((8 - old(nbits)) % 8)
    {
      if nbits != 0 {
        ZeroPad(8 - nbits);
        LzPut(0, 8 - nbits);
      }
    }

    /** Hand a buffer to the writer; the register and buffer must be empty. */
    method LzWrite(buf: seq<byte>)
      requires Valid() && nbits == 0 && out == 0
      modifies `sink
      ensures Valid() && nbits == 0 && out == 0
      ensures Written() == old(Written()) + ByteBits(buf)
    {
      ghost var done := sink;
      ByteBitsConcat(done, buf);
      sink := sink + buf;
      assert obuf[..0] == [] && done + [] == done && sink + [] == sink;
      assert ToBits(bits, 0) == [];
    }
  }

  lemma {:induction false} ZeroPad(n: nat)
    ensures ToBits(0, n) == Zeros(n)
  {
    if n > 0 {
      ZeroPad(n - 1);
    }
  }
}
