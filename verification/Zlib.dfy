/** The zlib wrapping of a compressed stream (section 2.2 of RFC 1950). */
module Zlib {
  import opened Bits
  import opened Canonical
  import opened Format
  import opened BitReader
  import opened Adler
  import opened LzComp
  import opened Fill
  import opened DeflateInit
  import opened Deflate
  import opened Inflate
  import opened RoundTrip

  // ----- the trailer

  /** Bytes as a number, most significant first. */
  function BigEndian(s: seq<byte>): nat
  {
    if s == [] then 0 else 256 * BigEndian(s[..|s| - 1]) + s[|s| - 1]
  }

  function Trailer(v: word32): (s: seq<byte>)
    ensures |s| == 4
  {
    [v / 0x100_0000, v / 0x1_0000 % 256, v / 0x100 % 256, v % 256]
  }

  lemma TrailerValue(v: word32)
    ensures BigEndian(Trailer(v)) == v
  {
    var s := Trailer(v);
    var a: int, b: int, c: int, d: int := s[0], s[1], s[2], s[3];
    assert s[..3] == [a, b, c] && [a, b, c][..2] == [a, b] && [a, b][..1] == [a] && [a][..0] == [];
    assert BigEndian([a]) == a;
    assert BigEndian([a, b]) == 256 * a + b;
    assert BigEndian([a, b, c]) == 256 * (256 * a + b) + c;
  }

  // ----- the meaning of a zlib stream

  /** Method 8 with a window of at most 32K, and a multiple of 31. */
  predicate GoodHeader(c: byte, i: byte)
  {
    (256 * c + i) % 31 == 0 && c % 16 == 8 && c / 16 <= 7
  }

  /** The data of a stream whose header and checksum are right. */
  ghost function ZlibMeaning(data: seq<byte>): Outcome<seq<byte>>
  {
    if |data| < 2 then Fails(NoInput) else
    if !GoodHeader(data[0], data[1]) then Fails(Corrupt) else
    match Meaning(data[2..])
    case Fails(w) => Fails(w)
    case Undefined => Undefined
    case Yields((s, rest)) =>
      var tail := WholeBytes(rest);
      if |tail| < 32 then Fails(NoInput)
      else if BigEndian(TakeBytes(tail, 4)) != AdlerOf(1, s) then Fails(Corrupt) else Yields(s)
  }

  lemma {:induction false} TakeWhole(s: seq<byte>, n: nat)
    requires n <= |s|
    ensures TakeBytes(ByteBits(s), n) == s[..n]
    decreases n
  {
    if n > 0 {
      var b := ByteBits(s);
      assert b[..8] == ToBits(s[0], 8) && b[8..] == ByteBits(s[1..]);
      Pow2Small();
      FromTo(s[0], 8);
      TakeWhole(s[1..], n - 1);
    }
  }

  /** Read the trailer; it is missing when fewer than four bytes are left. */
  method GetTrailer(data: seq<byte>, at: nat) returns (ok: bool, v: nat)
    requires at <= |data|
    ensures ok <==> at + 4 <= |data|
    ensures ok ==> v == BigEndian(data[at..at + 4])
  {
    v := 0;
    for i := 0 to 4
      invariant at + i <= |data| && v == BigEndian(data[at..at + i])
    {
      if at + i >= |data| {
        return false, v;
      }
      assert data[at..at + i + 1][..i] == data[at..at + i];
      v := 256 * v + data[at + i];
    }
    ok := true;
  }

  /**
   If the outcome is defined: FlateOk exactly for a stream that means something, and then the output is its
   meaning.
   */
  method InflateZlib(inflater: Inflater, data: seq<byte>) returns (status: Status, out: seq<byte>)
    requires inflater.Ready()
    ensures match ZlibMeaning(data)
            case Yields(s) => status == FlateOk && out == s
            case _ => Failed(ZlibMeaning(data), status)
    ensures |data| < 2 ==> status == FlateInputFail
    ensures |data| >= 2 && !GoodHeader(data[0], data[1]) ==> status == FlateCorrupted
  {
    hide Inflater.Ready, Meaning, TakeBytes, ByteBits, AdlerOf, WholeBytes;
    out := [];
    if |data| < 2 {
      return FlateInputFail, out;
    }
    var c: int, i: int := data[0], data[1];
    if (256 * c + i) % 31 != 0 {
      return FlateCorrupted, out;
    }
    if c % 16 != 8 || c / 16 > 7 {
      return FlateCorrupted, out;
    }
    var used, adler;
    status, out, used, adler := inflater.Inflate(data[2..]);
    if status != FlateOk {
      return;
    }
    assert data[2..][used..] == data[2 + used..];
    var ok, v := GetTrailer(data, 2 + used);
    if !ok {
      return FlateInputFail, out;
    }
    TakeWhole(data[2 + used..], 4);
    assert data[2 + used..][..4] == data[2 + used..2 + used + 4];
    if adler != v {
      return FlateCorrupted, out;
    }
  }

  // ----- writing

  /** The second header byte, with its check bits. */
  function SecondByte(level: nat): (b: byte)
    ensures GoodHeader(0x78, b)
  {
    var b := (if level > 8 then 3 else if level > 5 then 2 else if level > 2 then 1 else 0) * 64;
    b + (31 - (256 * 0x78 + b) % 31)
  }

  lemma SecondIs(level: nat)
    ensures SecondByte(level)
         == if level > 8 then 0xda else if level > 5 then 0x9c else if level > 2 then 0x5e else 0x01
  {
  }

  /** A zlib stream with the data of the source in it. */
  method DeflateZlib(t: Tables, src: Source, level: nat) returns (status: Status, output: seq<byte>)
    requires t.Valid() && src.Valid() && src.rest == src.all && level <= MAX_LEVEL
    modifies src
    ensures status == FlateOk && ZlibMeaning(output) == Yields(src.all)
    ensures |output| <= MostBytes(|src.all|) + 6
    ensures |output| >= 2 && output[0] == 0x78
            && output[1] == if level > 8 then 0xda else if level > 5 then 0x9c else if level > 2 then 0x5e else 0x01
  {
    hide Tables.Valid, Compressed, ZlibMeaning, AdlerOf, MostBytes, SecondByte, Trailer;
    SecondIs(level);
    var body;
    status, body := Deflate.Deflate(t, src, level);
    assert src.all[..|src.all|] == src.all;
    output := [0x78, SecondByte(level)] + body + Trailer(src.adler);
    Wrapped(src.all, body, SecondByte(level), src.adler);
  }

  lemma Wrapped(data: seq<byte>, body: seq<byte>, b: byte, adler: word32)
    requires Compressed(data, body) && GoodHeader(0x78, b) && adler == AdlerOf(1, data)
    ensures ZlibMeaning([0x78, b] + body + Trailer(adler)) == Yields(data)
  {
    hide Inflated, ByteBits, AdlerOf, TakeBytes, WholeBytes, BigEndian, Trailer;
    var tail := Trailer(adler);
    var z := [0x78, b] + body + tail;
    assert z[2..] == body + tail;
    ByteBitsConcat(body, tail);
    assert EndsBefore(ByteBits(body), data, ByteBits(tail));
    TakeWhole(tail, 4);
    assert tail[..4] == tail;
    TrailerValue(adler);
  }

  /** inflatezlib accepts what deflatezlib writes and gives the data back. */
  method ZlibRoundTrip(src: Source, level: nat) returns (status: Status, copy: seq<byte>)
    requires src.Valid() && src.rest == src.all && level <= MAX_LEVEL
    modifies src
    ensures status == FlateOk && copy == src.all
  {
    hide Tables.Valid, ZlibMeaning;
    var t := DeflateInit.DeflateInit();
    var ok, packed := DeflateZlib(t, src, level);
    var inflater := new Inflater();
    status, copy := InflateZlib(inflater, packed);
  }
}
