/** The decoder's input: bytes fetched one at a time into a shift register. */
module BitReader {
  import opened Bits
  import opened Canonical

  /** The error codes; Unpredictable marks the point from which the source's behaviour is undefined. */
  datatype Status =
    | FlateOk | FlateNoMem | FlateInputFail | FlateOutputFail | FlateCorrupted | FlateInternal
    | Unpredictable

  function StatusOf(w: Why): Status
  {
    match w
    case NoInput => FlateInputFail
    case Corrupt => FlateCorrupted
    case Internal => FlateInternal
  }

  /** How a reading without a value ends. */
  ghost predicate Failed<T>(r: Outcome<T>, error: Status)
  {
    match r
    case Yields(_) => false
    case Fails(w) => error == StatusOf(w)
    case Undefined => error == Unpredictable
  }

  /** One step of sregfill's loop leaves the unread bits alone. */
  lemma FillStep(sreg: nat, nbits: nat, data: seq<byte>, at: nat)
    requires sreg < Pow2(nbits) && at < |data|
    ensures sreg + Shl(data[at], nbits) < Pow2(nbits + 8)
    ensures ToBits(sreg + Shl(data[at], nbits), nbits + 8) + ByteBits(data[at + 1..])
         == ToBits(sreg, nbits) + ByteBits(data[at..])
  {
    var c, tail := data[at], ByteBits(data[at + 1..]);
    assert c < Pow2(8) by {
      Pow2Small();
    }
    assert ByteBits(data[at..]) == ToBits(c, 8) + tail by {
      assert data[at..][1..] == data[at + 1..];
    }
    AppendBits(sreg, nbits, c, 8);
    assert ToBits(sreg, nbits) + ToBits(c, 8) + tail == ToBits(sreg, nbits) + (ToBits(c, 8) + tail);
  }

  class Input {
    const data: seq<byte>
    var at: nat
    var sreg: nat
    var nbits: nat
    var error: Status

    /** The shift register never needs more than the 32 bits of a ulong. */
    ghost predicate Valid()
      reads this
    {
      at <= |data| && nbits < 24 && sreg < Pow2(nbits)
    }

    /** The bits not consumed yet. */
    ghost function Rest(): (b: seq<bool>)
      reads this
      requires Valid()
      ensures |b| == nbits + 8 * (|data| - at)
    {
      ToBits(sreg, nbits) + ByteBits(data[at..])
    }

    constructor (bytes: seq<byte>)
      ensures data == bytes && at == 0 && nbits == 0 && error == FlateOk
      ensures Valid() && Rest() == ByteBits(bytes)
    {
      data := bytes;
      at, sreg, nbits, error := 0, 0, 0, FlateOk;
    }

    /** The reader callback: the next byte, or -1 at the end of the input. */
    method Get() returns (c: int)
      requires at <= |data|
      modifies `at
      ensures at <= |data|
      ensures old(at) < |data| ==> c == data[old(at)] && at == old(at) + 1
      ensures old(at) == |data| ==> c == -1 && at == old(at)
    {
      if at < |data| {
        c := data[at];
        at := at + 1;
      } else {
        c := -1;
      }
    }

    method SregFill(n: nat) returns (ok: bool)
      requires Valid() && n <= 16
      modifies `at, `sreg, `nbits, `error
      ensures Valid() && Rest() == old(Rest())
      ensures ok <==> n <= |Rest()|
      ensures ok ==> n <= nbits && error == old(error) && nbits == Fetch(old(nbits), n)
      ensures !ok ==> error == FlateInputFail
      ensures nbits <= old(nbits) || nbits < n + 8
    {
      hide ToBits, ByteBits, Pow2, Shl;
      while n > nbits
        invariant Valid() && Rest() == old(Rest())
        invariant error == old(error)
        invariant (nbits <= old(nbits) || nbits < n + 8) && Fetch(nbits, n) == Fetch(old(nbits), n)
        decreases n - nbits
      {
        var c := Get();
        if c < 0 {
          error := FlateInputFail;
          return false;
        }
        FillStep(sreg, nbits, data, at - 1);
        sreg := sreg + Shl(c, nbits);
        nbits := nbits + 8;
      }
      ok := true;
    }

    /** The low n bits of the register are the next n unread bits. */
    lemma LowBits(n: nat)
      requires Valid() && n <= nbits
      ensures Low(sreg, n) == FromBits(Rest()[..n])
      ensures Low(sreg, n) < Pow2(n)
    {
      var b := ToBits(sreg, nbits);
      FromTo(sreg, nbits);
      FromSplit(b, n);
      FromBound(b[..n]);
      assert Rest()[..n] == b[..n];
    }

    method Drop(n: nat)
      requires Valid() && n <= nbits
      modifies `sreg, `nbits
      ensures Valid() && Rest() == old(Rest())[n..] && nbits == old(nbits) - n
    {
      ghost var b := ToBits(sreg, nbits);
      ShrBound(sreg, nbits, n);
      ToSplit(sreg, nbits, n);
      sreg := Shr(sreg, n);
      nbits := nbits - n;
      assert Rest() == b[n..] + ByteBits(data[at..]);
    }

    /** Fetch and consume n bits, as the many `sregfill; & mask; >>=` sequences do. */
    method Take(n: nat) returns (ok: bool, v: nat)
      requires Valid() && n <= 16
      modifies `at, `sreg, `nbits, `error
      ensures Valid()
      ensures ok <==> n <= |old(Rest())|
      ensures ok ==> v == FromBits(old(Rest())[..n]) && Rest() == old(Rest())[n..]
      ensures ok ==> error == old(error)
      ensures ok && old(nbits) < 8 ==> nbits < 8
      ensures !ok ==> error == FlateInputFail
    {
      hide ToBits, ByteBits, Pow2, Low, FromBits;
      v := 0;
      ok := SregFill(n);
      if ok {
        LowBits(n);
        v := Low(sreg, n);
        Drop(n);
      }
    }

    /** Throw away the bits left in the register; whole bytes there are an error. */
    method SregUnget() returns (ok: bool)
      requires Valid()
      modifies `sreg, `nbits, `error
      ensures Valid()
      ensures ok <==> old(nbits) < 8
      ensures ok ==> nbits == 0 && error == old(error) && Rest() == ByteBits(data[at..])
      ensures ok ==> Rest() == old(Rest())[|old(Rest())| % 8..]
      ensures !ok ==> error == FlateInternal
    {
      if nbits >= 8 {
        error := FlateInternal;
        return false;
      }
      assert |Rest()| % 8 == nbits;
      nbits := 0;
      sreg := 0;
      ok := true;
    }
  }
}
