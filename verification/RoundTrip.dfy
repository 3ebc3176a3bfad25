/** What libflate is for: inflating what was deflated gives the data back. */
module RoundTrip {
  import opened Bits
  import opened Format
  import opened BitReader
  import opened LzComp
  import opened Fill
  import opened DeflateInit
  import opened Deflate
  import opened Inflate

  /** Inflating a compressed string delivers the data and stops where the string ends, whatever follows. */
  lemma CompressedDelivers(data: seq<byte>, output: seq<byte>, tail: seq<byte>, status: Status, copy: seq<byte>,
                           used: nat)
    requires Compressed(data, output) && Delivered(output + tail, status, copy, used)
    ensures status == FlateOk && copy == data && used == |output|
  {
    hide Inflated, ByteBits;
    ByteBitsConcat(output, tail);
    assert EndsBefore(ByteBits(output), data, ByteBits(tail));
  }

  /** For every input, every way of chopping it into reads and every level. */
  method DeflateInflate(src: Source, level: nat) returns (status: Status, copy: seq<byte>)
    requires src.Valid() && level <= MAX_LEVEL
    modifies src
    ensures status == FlateOk && copy == old(src.rest)
  {
    hide Compressed, Delivered, Tables.Valid;
    var t := DeflateInit.DeflateInit();
    var ok, packed := Deflate.Deflate(t, src, level);
    var inflater := new Inflater();
    var used, adler;
    assert packed + [] == packed;
    status, copy, used, adler := inflater.Inflate(packed);
    CompressedDelivers(old(src.rest), packed, [], status, copy, used);
  }
}
