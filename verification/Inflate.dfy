/** The decoder: blocks, block bodies and dynamic headers, each refining the format. */
module Inflate {
  import opened Bits
  import opened RevTab
  import opened Canonical
  import opened Tokens
  import opened Format
  import opened BitReader
  import opened HuffDecoder
  import opened SymbolDecoder
  import opened Window
  import Adler

  ghost predicate IsLenBase(t: seq<nat>)
  {
    |t| == 31 && forall c :: 0 <= c < 31 ==> t[c] == LenBase(c)
  }

  ghost predicate IsOffBase(t: seq<nat>)
  {
    |t| == 32 && forall c :: 0 <= c < 32 ==> t[c] == OffBase(c)
  }

  method InitLenBase() returns (t: seq<nat>)
    ensures IsLenBase(t)
  {
    hide Pow2;
    t := [];
    var base := 3;
    for c := 0 to 31
      invariant |t| == c && base == Span(Lengths, c) + 3
      invariant forall k :: 0 <= k < c ==> t[k] == Span(Lengths, k) + 3
    {
      t := t + [base];
      base := base + Pow2(Extra(Lengths, c));
    }
    t := t[28 := t[28] - 1]; // the last length has a code of its own
  }

  method InitOffBase() returns (t: seq<nat>)
    ensures IsOffBase(t)
  {
    t := [];
    var base := 1;
    for c := 0 to 32
      invariant |t| == c && base == Span(Distances, c) + 1
      invariant forall k :: 0 <= k < c ==> t[k] == OffBase(k)
    {
      t := t + [base];
      base := base + Pow2(Extra(Distances, c));
    }
  }

  /** The rest of a match once its length symbol is known. */
  method GetMatch(input: Input, offtab: Huff, revtab: seq<byte>, lenbase: seq<nat>, offbase: seq<nat>, ghost ol: Lens,
                  c: nat)
    returns (ok: bool, len: nat, off: nat)
    requires input.Valid() && input.nbits < 8 && offtab.For(ol, OFF_BITS) && IsRevTab(revtab)
    requires IsLenBase(lenbase) && IsOffBase(offbase) && c <= 28 && !offtab.Old()
    modifies input
    ensures input.Valid()
    ensures ok ==> DecodeMatch(ol, c, old(input.Rest())) == Yields((len, off, input.Rest())) && 1 <= off <= MAX_OFF
    ensures ok ==> input.nbits < 8 && input.error == old(input.error)
    ensures !ok ==> Failed(DecodeMatch(ol, c, old(input.Rest())), input.error)
  {
    hide DecodeSym, FlatFor, Fits, SlotsFor, LenBase, Span, Pow2, FromBits, ByteBits, ToBits, Low, Shl;
    len, off := 0, 0;
    var v;
    ok, v := input.Take(Extra(Lengths, c));
    if !ok {
      return;
    }
    len := lenbase[c] + v;
    var d := NextSym(input, offtab, revtab, ol, OFF_BITS);
    if d < 0 {
      return false, len, off;
    }
    if d > 29 {
      input.error := FlateCorrupted;
      return false, len, off;
    }
    ghost var r1 := input.Rest();
    ok, v := input.Take(Extra(Distances, d));
    if ok {
      off := offbase[d] + v;
      OffRange(r1, d);
    }
  }

  lemma OffRange(r: seq<bool>, d: nat)
    requires d < 30 && Extra(Distances, d) <= |r|
    ensures 1 <= OffBase(d) + FromBits(r[..Extra(Distances, d)]) <= MAX_OFF
  {
    hide Pow2, FromBits;
    FromBound(r[..Extra(Distances, d)]);
    assert Span(Distances, d + 1) == Span(Distances, d) + Pow2(Extra(Distances, d));
    hide Span;
    SpanMono(Distances, d + 1, 30);
    OffSpans();
  }

  /** How reading by an old entry ends. */
  function OldStatus(e: int): Status
  {
    if e % 256 == 255 then FlateCorrupted else FlateInputFail
  }

  /** The next literal or length; without codewords, the literal of the old entry as long as there are bits. */
  method NextLit(input: Input, littab: Huff, revtab: seq<byte>, ghost ll: Lens) returns (c: int)
    requires input.Valid() && input.nbits < 8 && littab.For(ll, LITLEN_BITS) && IsRevTab(revtab) && LitReady(littab)
    modifies input
    ensures input.Valid()
    ensures c >= 0 ==> input.nbits < 8 && input.error == old(input.error) && |input.Rest()| < |old(input.Rest())|
    ensures Longest(ll) == 0 ==> c < 256 && (c < 0 ==> input.error == OldStatus(littab.flat[0]))
    ensures Longest(ll) > 0 && c >= 0 ==> DecodeSym(ll, LITLEN_BITS, old(input.Rest())) == Yields((c, input.Rest()))
    ensures Longest(ll) > 0 && c < 0 ==> Failed(DecodeSym(ll, LITLEN_BITS, old(input.Rest())), input.error)
  {
    hide DecodeSym, TableFor, ByteBits, ToBits, Pow2;
    TableLongest(littab, ll, LITLEN_BITS);
    c := NextSym(input, littab, revtab, ll, LITLEN_BITS);
  }

  /** The body of a compressed block. */
  method Decode(input: Input, his: History, littab: Huff, offtab: Huff, revtab: seq<byte>,
                lenbase: seq<nat>, offbase: seq<nat>, ghost ll: Lens, ghost ol: Lens) returns (ok: bool)
    requires input.Valid() && input.nbits < 8 && his.Valid() && littab.For(ll, LITLEN_BITS) && offtab.For(ol, OFF_BITS)
    requires IsRevTab(revtab) && IsLenBase(lenbase) && IsOffBase(offbase)
    requires LitReady(littab) && !offtab.Old()
    modifies input, his, his.his
    ensures input.Valid() && his.Valid()
    ensures ok ==> DecodeTokens(ll, ol, old(input.Rest()), old(his.Output())) == Yields((his.Output(), input.Rest()))
    ensures ok ==> input.nbits < 8 && input.error == old(input.error)
    ensures !ok && Longest(ll) > 0 ==>
              Failed(DecodeTokens(ll, ol, old(input.Rest()), old(his.Output())), input.error)
    ensures Longest(ll) == 0 ==> !ok && input.error == OldStatus(littab.flat[0])
  {
    hide DecodeSym, DecodeMatch, TableFor, LenBase, Span, Pow2, FromBits, ByteBits, ToBits, Low, Shl, Copy, LitReady,
         Longest;
    ghost var bits0, out0 := input.Rest(), his.Output();
    while true
      invariant input.Valid() && input.nbits < 8 && his.Valid() && littab.For(ll, LITLEN_BITS)
                && offtab.For(ol, OFF_BITS)
      invariant input.error == old(input.error)
      invariant Longest(ll) > 0 ==>
                  DecodeTokens(ll, ol, bits0, out0) == DecodeTokens(ll, ol, input.Rest(), his.Output())
      decreases |input.Rest()|
    {
      ghost var bits, out := input.Rest(), his.Output();
      var c := NextLit(input, littab, revtab, ll);
      if c < 0 {
        return false;
      }
      if c < 256 {
        his.Put(c);
        continue;
      }
      if c == 256 {
        return true;
      }
      if c > 285 {
        input.error := FlateCorrupted;
        return false;
      }
      var len, off;
      ok, len, off := GetMatch(input, offtab, revtab, lenbase, offbase, ol, c - 257);
      if !ok {
        return;
      }
      ok := his.CopyMatch(len, off);
      if !ok {
        input.error := FlateCorrupted;
        return;
      }
    }
  }

  lemma TableLongest(h: Huff, lens: Lens, limit: nat)
    requires h.For(lens, limit)
    ensures h.maxbits == Longest(lens)
  {
  }

  /** Lengths of the code length code, three bits each, in their peculiar order. */
  method GetClens(input: Input, n: nat) returns (ok: bool, v: Lens)
    requires input.Valid() && input.nbits < 8 && n <= N_CLEN
    modifies input
    ensures input.Valid() && |v| == N_CLEN && forall k :: 0 <= k < N_CLEN ==> v[k] < 8
    ensures ok ==> ReadClens(old(input.Rest()), 0, n, Const(N_CLEN, 0)) == Yields((v, input.Rest()))
    ensures ok ==> SentInOrder(old(input.Rest()), n, v)
    ensures ok ==> input.nbits < 8 && input.error == old(input.error)
    ensures !ok ==> Failed(ReadClens(old(input.Rest()), 0, n, Const(N_CLEN, 0)), input.error)
  {
    hide FromBits, ByteBits, ToBits, Pow2, Low, Shl, ClenOrder;
    v := Const(N_CLEN, 0);
    ghost var bits0, v0 := input.Rest(), v;
    for i := 0 to n
      invariant input.Valid() && input.nbits < 8 && input.error == old(input.error)
      invariant |v| == N_CLEN && forall k :: 0 <= k < N_CLEN ==> v[k] < 8
      invariant ReadClens(bits0, 0, n, v0) == ReadClens(input.Rest(), i, n, v)
    {
      var c;
      ghost var r := input.Rest();
      ok, c := input.Take(3);
      if !ok {
        return;
      }
      SmallValue(r, 3);
      v := v[ClenOrder(i) := c];
    }
    ok := true;
    ClensInOrder(bits0, n);
  }

  lemma SmallValue(r: seq<bool>, n: nat)
    requires n <= |r|
    ensures FromBits(r[..n]) < Pow2(n)
    ensures n == 3 ==> FromBits(r[..n]) < 8
  {
    FromBound(r[..n]);
    Pow2Small();
  }

  /** One code length symbol with its repeat count. */
  method GetRepeat(input: Input, lentab: Huff, revtab: seq<byte>, ghost cl: Lens) returns (c: int, j: nat)
    requires input.Valid() && input.nbits < 8 && lentab.For(cl, CLEN_BITS) && IsRevTab(revtab) && |cl| == N_CLEN
    requires !lentab.Old()
    modifies input
    ensures input.Valid()
    ensures c >= 0 ==> c <= 18 && input.nbits < 8 && input.error == old(input.error)
    ensures c >= 0 ==> match DecodeSym(cl, CLEN_BITS, old(input.Rest()))
                       case Fails(_) => false
                       case Undefined => false
                       case Yields((s, r)) =>
                         && s == c && RepeatBits(c) <= |r| && j == RepeatBase(c) + FromBits(r[..RepeatBits(c)])
                         && input.Rest() == r[RepeatBits(c)..]
    ensures c < 0 ==> match DecodeSym(cl, CLEN_BITS, old(input.Rest()))
                      case Yields((s, r)) => |r| < RepeatBits(s) && input.error == FlateInputFail
                      case r => Failed(r, input.error)
  {
    hide TableFor, DecodeSym, FromBits, ByteBits, ToBits, Pow2, Low, Shl;
    j := 0;
    DecodeBelow(cl, CLEN_BITS, input.Rest());
    c := NextSym(input, lentab, revtab, cl, CLEN_BITS);
    if c >= 0 {
      if c < 16 {
        j := 1;
        ZeroBits(input.Rest());
      } else {
        var ok, v := input.Take(RepeatBits(c));
        if !ok {
          return -1, 0;
        }
        j := RepeatBase(c) + v;
      }
    }
  }

  lemma DecodeBelow(lens: Lens, limit: nat, bits: seq<bool>)
    ensures var r := DecodeSym(lens, limit, bits);
            r.Yields? ==> r.value.0 < |lens| && |r.value.1| < |bits|
  {
  }

  lemma ZeroBits(r: seq<bool>)
    ensures FromBits(r[..0]) == 0 && r[0..] == r
  {
  }

  method FillLens(len: array<nat>, i: nat, j: nat, c: nat)
    requires i + j <= len.Length
    modifies len
    ensures len[..i + j] == old(len[..i]) + Const(j, c)
  {
    var k := 0;
    while k < j
      invariant k <= j && len[..i + k] == old(len[..i]) + Const(k, c)
    {
      len[i + k] := c;
      k := k + 1;
      assert len[..i + k] == len[..i + k - 1] + [c];
      assert Const(k, c) == Const(k - 1, c) + [c];
    }
  }

  /** The literal/length and distance code lengths, run-length coded as one sequence. */
  method GetLens(input: Input, lentab: Huff, revtab: seq<byte>, len: array<nat>, n: nat,
                 ghost cl: Lens) returns (ok: bool)
    requires input.Valid() && input.nbits < 8 && lentab.For(cl, CLEN_BITS) && IsRevTab(revtab) && |cl| == N_CLEN
    requires n <= len.Length && len != lentab.decode && !lentab.Old()
    modifies input, len
    ensures input.Valid()
    ensures ok ==> ReadLens(cl, old(input.Rest()), n, []) == Yields((len[..n], input.Rest()))
    ensures ok ==> forall k :: 0 <= k < n ==> len[k] < 16
    ensures ok ==> input.nbits < 8 && input.error == old(input.error)
    ensures !ok ==> Failed(ReadLens(cl, old(input.Rest()), n, []), input.error)
  {
    hide TableFor, DecodeSym, FromBits, ByteBits, ToBits, Pow2, Low, Shl;
    ghost var bits0 := input.Rest();
    var i := 0;
    assert len[..0] == [];
    while i < n
      invariant i <= n && input.Valid() && input.nbits < 8 && input.error == old(input.error)
                && lentab.For(cl, CLEN_BITS)
      invariant forall k :: 0 <= k < i ==> len[k] < 16
      invariant ReadLens(cl, bits0, n, []) == ReadLens(cl, input.Rest(), n, len[..i])
      decreases n - i
    {
      var c, j := GetRepeat(input, lentab, revtab, cl);
      if c < 0 {
        return false;
      }
      if c == 16 && i == 0 {
        input.error := FlateCorrupted;
        return false;
      }
      if i + j > n {
        input.error := FlateCorrupted;
        return false;
      }
      var v := if c < 16 then c else if c == 16 then len[i - 1] else 0;
      assert v == RepeatValue(c, len[..i]);
      ghost var acc := len[..i];
      FillLens(len, i, j, v);
      assert forall k :: 0 <= k < i + j ==> len[k] == (acc + Const(j, v))[k];
      i := i + j;
    }
    ok := true;
  }

  /** What Get returns is the next byte of the remaining bits, or -1. */
  lemma NextByte(data: seq<byte>, at: nat)
    requires at < |data|
    ensures var b := ByteBits(data[at..]);
            |b| >= 8 && FromBits(b[..8]) == data[at] && b[8..] == ByteBits(data[at + 1..])
  {
    assert data[at..][1..] == data[at + 1..];
    Pow2Small();
    FromTo(data[at], 8);
    assert ByteBits(data[at..])[..8] == ToBits(data[at], 8);
  }

  lemma {:induction false} BytesAt(data: seq<byte>, at: nat, k: nat)
    requires at <= |data|
    ensures ByteAt(ByteBits(data[at..]), k) == if at + k < |data| then data[at + k] else -1
    decreases k
  {
    var b := ByteBits(data[at..]);
    if k > 0 && at < |data| {
      NextByte(data, at);
      BytesAt(data, at + 1, k - 1);
      if at + k < |data| {
        assert b[8..][8 * (k - 1)..8 * (k - 1) + 8] == b[8 * k..8 * k + 8];
      }
    } else if at + k < |data| {
      NextByte(data, at);
      assert b[8 * k..8 * k + 8] == b[..8];
    }
  }

  /** Read a 16-bit number as the source does: a missing byte makes it negative. */
  method Get16(input: Input) returns (v: int)
    requires input.Valid() && input.nbits == 0
    modifies input`at
    ensures input.Valid()
    ensures var b := ByteBits(input.data[old(input.at)..]);
            v == Join(ByteAt(b, 0), ByteAt(b, 1))
    ensures input.at == if old(input.at) + 2 <= |input.data| then old(input.at) + 2 else |input.data|
  {
    BytesAt(input.data, input.at, 0);
    BytesAt(input.data, input.at, 1);
    var lo := input.Get();
    var hi := input.Get();
    v := Join(lo, hi);
  }

  lemma RestAt(data: seq<byte>, at: nat, k: nat)
    requires at + k <= |data|
    ensures ByteBits(data[at..])[8 * k..] == ByteBits(data[at + k..])
  {
    assert data[at..] == data[at..at + k] + data[at + k..];
    ByteBitsConcat(data[at..at + k], data[at + k..]);
  }

  /** Copy the bytes of a stored block to the history. */
  method CopyStored(input: Input, his: History, len: nat) returns (ok: bool)
    requires input.Valid() && input.nbits == 0 && his.Valid()
    modifies input`at, his, his.his
    ensures input.Valid() && his.Valid()
    ensures ok <==> 8 * len <= |old(input.Rest())|
    ensures ok ==> input.Rest() == old(input.Rest())[8 * len..]
                   && his.Output() == old(his.Output()) + TakeBytes(old(input.Rest()), len)
  {
    hide ByteBits, ToBits, FromBits, Pow2, Copying;
    ghost var bits0, out0 := input.Rest(), his.Output();
    CopyingStart(bits0, len, out0);
    var n := len;
    while n > 0
      invariant 0 <= n <= len && input.Valid() && input.nbits == 0 && his.Valid()
      invariant Copying(bits0, len, out0, input.Rest(), n, his.Output())
    {
      ghost var b, at := input.Rest(), input.at;
      EmptyRegister(input.sreg);
      assert b == ByteBits(input.data[at..]);
      var c := input.Get();
      if c < 0 {
        CopyingShort(bits0, len, out0, b, n, his.Output());
        return false;
      }
      NextByte(input.data, at);
      assert input.Rest() == b[8..];
      CopyingStep(bits0, len, out0, b, n, his.Output());
      his.Put(c);
      n := n - 1;
    }
    CopyingEnd(bits0, len, out0, input.Rest(), his.Output());
    ok := true;
  }

  /** n bytes of a stored block are left to copy from bits to the output. */
  ghost predicate Copying(bits0: seq<bool>, len: nat, out0: seq<byte>, bits: seq<bool>, n: nat, out: seq<byte>)
  {
    && (8 * len <= |bits0| <==> 8 * n <= |bits|)
    && (8 * n <= |bits| ==>
          bits0[8 * len..] == bits[8 * n..] && out0 + TakeBytes(bits0, len) == out + TakeBytes(bits, n))
  }

  lemma CopyingStart(bits: seq<bool>, len: nat, out: seq<byte>)
    ensures Copying(bits, len, out, bits, len, out)
  {
  }

  lemma CopyingStep(bits0: seq<bool>, len: nat, out0: seq<byte>, bits: seq<bool>, n: nat, out: seq<byte>)
    requires Copying(bits0, len, out0, bits, n, out) && n > 0 && |bits| >= 8
    ensures FromBits(bits[..8]) < 256 && Copying(bits0, len, out0, bits[8..], n - 1, out + [FromBits(bits[..8])])
  {
    FromBound(bits[..8]);
    Pow2Small();
    if 8 * n <= |bits| {
      TakeStep(bits, n);
    }
  }

  lemma CopyingShort(bits0: seq<bool>, len: nat, out0: seq<byte>, bits: seq<bool>, n: nat, out: seq<byte>)
    requires Copying(bits0, len, out0, bits, n, out) && |bits| < 8 * n
    ensures |bits0| < 8 * len
  {
  }

  lemma CopyingEnd(bits0: seq<bool>, len: nat, out0: seq<byte>, bits: seq<bool>, out: seq<byte>)
    requires Copying(bits0, len, out0, bits, 0, out)
    ensures 8 * len <= |bits0| && bits == bits0[8 * len..] && out == out0 + TakeBytes(bits0, len)
  {
  }

  lemma EmptyRegister(sreg: nat)
    ensures ToBits(sreg, 0) == []
  {
  }

  lemma TakeStep(b: seq<bool>, n: nat)
    requires n > 0
    ensures 8 * n <= |b| ==> FromBits(b[..8]) < 256 && TakeBytes(b, n) == [FromBits(b[..8])] + TakeBytes(b[8..], n - 1)
                             && b[8..][8 * (n - 1)..] == b[8 * n..]
  {
    if 8 * n <= |b| {
      FromBound(b[..8]);
      Pow2Small();
    }
  }

  method UncBlock(input: Input, his: History) returns (ok: bool)
    requires input.Valid() && input.nbits < 8 && his.Valid()
    modifies input, his, his.his
    ensures input.Valid() && his.Valid()
    ensures ok ==> match ReadStored(old(input.Rest()))
                   case Fails(_) => false
                   case Undefined => false
                   case Yields((s, rest)) => his.Output() == old(his.Output()) + s && input.Rest() == rest
    ensures ok ==> input.nbits < 8 && input.error == old(input.error)
    ensures !ok ==>
              old(input.error) == FlateOk ==> Ended(ReadStored(old(input.Rest())), input.error)
  {
    hide ByteBits, ToBits, FromBits, Pow2, TakeBytes, ByteAt, ReadStored, Join;
    ghost var bits := input.Rest();
    ok := input.SregUnget();
    ghost var b, at := input.Rest(), input.at;
    var len := Get16(input);
    ghost var mid := input.at;
    var nlen := Get16(input);
    HeaderBytes(input.data, at, mid);
    StoredSteps(bits, b, len, nlen);
    if len != (-nlen - 1) % 65536 {
      input.error := FlateCorrupted;
      return false;
    }
    AfterHeader(input.data, at, input.at);
    EmptyRegister(input.sreg);
    assert input.Rest() == ByteBits(input.data[input.at..]);
    ok := CopyStored(input, his, len);
  }

  lemma StoredSteps(bits: seq<bool>, b: seq<bool>, len: int, nlen: int)
    requires b == bits[|bits| % 8..]
    requires len == Join(ByteAt(b, 0), ByteAt(b, 1)) && nlen == Join(ByteAt(b, 2), ByteAt(b, 3))
    ensures len != (-nlen - 1) % 65536 ==> ReadStored(bits) == Fails(Corrupt)
    ensures len == (-nlen - 1) % 65536 ==>
              var body := if |b| < 32 then [] else b[32..];
              ReadStored(bits)
              == if |body| < 8 * len then Fails(Internal) else Yields((TakeBytes(body, len), body[8 * len..]))
  {
  }

  lemma HeaderBytes(data: seq<byte>, at: nat, mid: nat)
    requires at <= |data| && mid == if at + 2 <= |data| then at + 2 else |data|
    ensures ByteAt(ByteBits(data[mid..]), 0) == ByteAt(ByteBits(data[at..]), 2)
    ensures ByteAt(ByteBits(data[mid..]), 1) == ByteAt(ByteBits(data[at..]), 3)
  {
    hide ByteBits, ByteAt;
    BytesAt(data, mid, 0);
    BytesAt(data, mid, 1);
    BytesAt(data, at, 2);
    BytesAt(data, at, 3);
  }

  lemma AfterHeader(data: seq<byte>, at: nat, end: nat)
    requires at <= |data| && end == if at + 4 <= |data| then at + 4 else |data|
    ensures var b := ByteBits(data[at..]);
            ByteBits(data[end..]) == if |b| < 32 then [] else b[32..]
  {
    if at + 4 <= |data| {
      RestAt(data, at, 4);
    }
  }

  /** A 14-bit group read at once and split. */
  lemma Fields14(b: seq<bool>, v: nat)
    requires |b| >= 14 && v == FromBits(b[..14])
    ensures Low(v, 5) == FromBits(b[..5]) && Low(Shr(v, 5), 5) == FromBits(b[5..10])
    ensures Low(Shr(v, 10), 4) == FromBits(b[10..14])
    ensures FromBits(b[..5]) < 32 && FromBits(b[5..10]) < 32 && FromBits(b[10..14]) < 16
  {
    hide FromBits, Shr, Low, Pow2;
    var w := b[..14];
    FromSplit(w, 5);
    FromSplit(w, 10);
    FromSplit(w[5..], 5);
    FromSplit(w[10..], 4);
    assert w[..5] == b[..5] && w[5..][..5] == b[5..10] && w[10..][..4] == b[10..14];
    FromBound(b[..5]);
    FromBound(b[5..10]);
    FromBound(b[10..14]);
    Pow2Small();
  }

  /** The lengths read for a dynamic block, from the end of the header's first 14 bits. */
  method GetCodes(input: Input, lentab: Huff, revtab: seq<byte>, len: array<nat>, n: nat, nclen: nat) returns (ok: bool)
    requires input.Valid() && input.nbits < 8 && lentab.Shape() && IsRevTab(revtab)
    requires nclen <= N_CLEN && 0 < n <= len.Length && len != lentab.decode && !lentab.written
    modifies input, len, lentab, lentab.flat, lentab.maxcode, lentab.last, lentab.decode
    ensures input.Valid()
    ensures ok ==> input.nbits < 8 && input.error == old(input.error) && forall k :: 0 <= k < n ==> len[k] < 16
    ensures ok ==> ReadCodes(old(input.Rest()), n, nclen) == Yields((len[..n], input.Rest()))
    ensures ok ==> lentab.written && ZeroEntry(lentab.flat[0], N_CLEN)
    ensures ok ==> LeftBy(old(input.Rest()), nclen, lentab.flat[0])
    ensures !ok ==> Failed(ReadCodes(old(input.Rest()), n, nclen), input.error)
  {
    hide Fits, ReadClens, ReadLens, ByteBits, ToBits, FromBits, Pow2;
    var cl;
    ok, cl := GetClens(input, nclen);
    if !ok {
      return;
    }
    ok := lentab.HuffTab(revtab, cl, CLEN_BITS);
    if !ok {
      input.error := FlateCorrupted;
      return;
    }
    ghost var r := input.Rest();
    ok := GetLens(input, lentab, revtab, len, n, cl);
    if ok {
      SomethingSent(cl, r, n);
      ShortestLongest(cl);
    }
  }

  /** The entry e is what the code length code read from these bits has left. */
  ghost predicate LeftBy(bits: seq<bool>, nclen: nat, e: int)
    requires nclen <= N_CLEN
  {
    match ReadClens(bits, 0, nclen, Const(N_CLEN, 0))
    case Yields((cl, _)) => e % 256 == 255 <==> Shortest(cl) > CLEN_BITS
    case _ => false
  }

  /** Without any codeword in the code length code no lengths can be read. */
  lemma SomethingSent(cl: Lens, bits: seq<bool>, n: nat)
    requires n > 0 && ReadLens(cl, bits, n, []).Yields?
    ensures Longest(cl) > 0
  {
    if Longest(cl) == 0 {
      NothingCoded(cl, CLEN_BITS, bits);
    }
  }

  ghost function ReadCodes(bits: seq<bool>, n: nat, nclen: nat): Outcome<(Lens, seq<bool>)>
    requires nclen <= N_CLEN
  {
    match ReadClens(bits, 0, nclen, Const(N_CLEN, 0))
    case Fails(w) => Fails(w)
    case Undefined => Undefined
    case Yields((cl, r0)) => if !Fits(cl, MAX_BITS) then Fails(Corrupt) else ReadLens(cl, r0, n, [])
  }

  /** The reference header, with its two middle steps named. */
  lemma HeaderSteps(bits: seq<bool>, nlit: nat, ndist: nat, nclen: nat)
    requires |bits| >= 14 && nlit == FromBits(bits[..5]) + 257 && ndist == FromBits(bits[5..10]) + 1
    requires nclen == FromBits(bits[10..14]) + 4 && nclen <= N_CLEN && nlit <= N_LITLEN && ndist <= 32
    ensures var r := ReadCodes(bits[14..], nlit + ndist, nclen);
            ReadHeader(bits) == if r.Fails? then Fails(r.why) else if r.Undefined? then Undefined else
            var lens := r.value.0;
            if |lens| != nlit + ndist || !Fits(lens[..nlit], MAX_BITS)
              || !Fits(lens[nlit..], MAX_BITS) then Fails(Corrupt)
            else Yields((lens[..nlit], lens[nlit..], r.value.1))
  {
    hide Fits, ReadClens, ReadLens, FromBits;
  }

  lemma OldSteps(bits: seq<bool>, nclen: nat)
    requires |bits| >= 14 && nclen == FromBits(bits[10..14]) + 4 && nclen <= N_CLEN
    ensures forall e :: LeftBy(bits[14..], nclen, e) ==> OldStatus(e) == StatusOf(OldWhy(bits))
  {
    hide ReadClens, FromBits;
  }

  lemma ShortestLongest(lens: Lens)
    ensures Shortest(lens) <= Longest(lens)
  {
    ShortestIs(lens);
    LongestIs(lens);
  }

  /** Read the header of a dynamic block into two decoding tables. */
  method GetHeader(input: Input, lentab: Huff, offtab: Huff, revtab: seq<byte>)
    returns (ok: bool, ghost ll: Lens, ghost ol: Lens)
    requires input.Valid() && input.nbits < 8 && lentab.Shape() && offtab.Shape() && IsRevTab(revtab)
    requires lentab.Apart(offtab) && !lentab.written && !offtab.written
    modifies input, lentab, lentab.flat, lentab.maxcode, lentab.last, lentab.decode
    modifies offtab, offtab.flat, offtab.maxcode, offtab.last, offtab.decode
    ensures input.Valid()
    ensures ok ==>
              && ReadHeader(old(input.Rest())) == Yields((ll, ol, input.Rest())) && lentab.For(ll, LITLEN_BITS)
              && offtab.For(ol, OFF_BITS)
    ensures ok ==> LitReady(lentab) && !offtab.Old()
    ensures ok && lentab.maxbits == 0 ==> OldStatus(lentab.flat[0]) == StatusOf(OldWhy(old(input.Rest())))
    ensures ok ==> input.nbits < 8 && input.error == old(input.error)
    ensures !ok ==> Failed(ReadHeader(old(input.Rest())), input.error)
  {
    hide Fits, ReadCodes, ReadHeader, TableFor, ByteBits, ToBits, FromBits, Pow2, Low, Shr, LitReady, ZeroEntry;
    ghost var bits := input.Rest();
    ll, ol := [], [];
    var v;
    ok, v := input.Take(14);
    if !ok {
      HeaderShort(bits);
      return;
    }
    Fields14(bits, v);
    var nlit, ndist, nclen := Low(v, 5) + 257, Low(Shr(v, 5), 5) + 1, Low(Shr(v, 10), 4) + 4;
    HeaderSteps(bits, nlit, ndist, nclen);
    OldSteps(bits, nclen);
    var len := new nat[N_LITLEN + 32];
    ok := GetCodes(input, lentab, revtab, len, nlit + ndist, nclen);
    if !ok {
      return;
    }
    ghost var lens := len[..nlit + ndist];
    ll, ol := len[..nlit], len[nlit..nlit + ndist];
    assert ll == lens[..nlit] && ol == lens[nlit..];
    ok := MakeTables(lentab, offtab, revtab, len[..nlit], len[nlit..nlit + ndist]);
    if !ok {
      input.error := FlateCorrupted;
    }
  }

  /** The two tables of a dynamic block; the first has held the code length code. */
  method MakeTables(lentab: Huff, offtab: Huff, revtab: seq<byte>, ll: Lens, ol: Lens) returns (ok: bool)
    requires lentab.Shape() && offtab.Shape() && lentab.Apart(offtab) && IsRevTab(revtab)
    requires |ll| <= MAX_LEAF && |ol| <= MAX_LEAF && forall i :: 0 <= i < |ll| ==> ll[i] < 16
    requires forall i :: 0 <= i < |ol| ==> ol[i] < 16
    requires lentab.written && ZeroEntry(lentab.flat[0], N_CLEN) && !offtab.written
    modifies lentab, lentab.flat, lentab.maxcode, lentab.last, lentab.decode
    modifies offtab, offtab.flat, offtab.maxcode, offtab.last, offtab.decode
    ensures ok <==> Fits(ll, MAX_BITS) && Fits(ol, MAX_BITS)
    ensures ok ==> lentab.For(ll, LITLEN_BITS) && offtab.For(ol, OFF_BITS) && LitReady(lentab) && !offtab.Old()
    ensures ok && lentab.maxbits == 0 ==> lentab.flat[0] == old(lentab.flat[0])
  {
    hide Fits, TableFor, ZeroEntry;
    ghost var was := lentab.flat[..];
    assert was[0] == lentab.flat[0];
    ok := lentab.HuffTab(revtab, ll, LITLEN_BITS);
    if ok {
      TableLongest(lentab, ll, LITLEN_BITS);
      assert lentab.maxbits == 0 ==> lentab.flat[0] == lentab.flat[..][0];
      ok := offtab.HuffTab(revtab, ol, OFF_BITS);
      if ok {
        TableLongest(offtab, ol, OFF_BITS);
      }
    }
  }

  /** A literal table without codewords still has the entry of the code length code. */
  ghost predicate LitReady(h: Huff)
    reads h, h.flat
  {
    h.maxbits == 0 ==> h.written && h.flat.Length > 0 && ZeroEntry(h.flat[0], N_CLEN)
  }

  lemma HeaderShort(bits: seq<bool>)
    requires |bits| < 14
    ensures ReadHeader(bits) == Fails(NoInput)
  {
  }

  /**
   If the outcome is defined: FlateOk exactly when the data has a meaning, and then out is it and used is
   just after its last block.
   */
  ghost predicate Delivered(data: seq<byte>, status: Status, out: seq<byte>, used: nat)
  {
    match Meaning(data)
    case Undefined => status == Unpredictable
    case Fails(w) => status == StatusOf(w)
    case Yields((s, rest)) =>
      status == FlateOk && out == s && used <= |data| && ByteBits(data[used..]) == WholeBytes(rest)
  }

  /** How a block without a value ends; a stored block that is cut short sets no error code. */
  ghost predicate Ended<T>(r: Outcome<T>, error: Status)
  {
    match r
    case Yields(_) => false
    case Fails(w) => StatusOf(w) == if error == FlateOk then FlateInternal else error
    case Undefined => error == Unpredictable
  }

  /** The tables set up once by inflateinit. */
  class Inflater {
    const revtab: seq<byte>
    const lenbase: seq<nat>
    const offbase: seq<nat>
    const littab: Huff
    const offtab: Huff

    ghost predicate Ready()
      reads littab, littab.flat, littab.maxcode, littab.last, littab.decode
      reads offtab, offtab.flat, offtab.maxcode, offtab.last, offtab.decode
    {
      && IsRevTab(revtab) && IsLenBase(lenbase) && IsOffBase(offbase)
      && littab.For(FixedLit(), LITLEN_BITS) && offtab.For(FixedOff(), OFF_BITS)
    }

    constructor ()
      ensures Ready()
    {
      hide Fits, TableFor, FixedLit, FixedOff;
      FixedSmall();
      FixedLitFits();
      FixedOffFits();
      var t := InitRevTab();
      var lb := InitLenBase();
      var ob := InitOffBase();
      var lt := new Huff();
      var ok := lt.HuffTab(t, FixedLit(), 7);
      var ot := new Huff();
      ok := ot.HuffTab(t, FixedOff(), 7);
      FixedOffFive();
      SameTable(ot, FixedOff(), 7, OFF_BITS);
      revtab, lenbase, offbase, littab, offtab := t, lb, ob, lt, ot;
    }

    method DynamicBlock(input: Input, his: History) returns (ok: bool)
      requires Ready() && input.Valid() && input.nbits < 8 && his.Valid()
      modifies input, his, his.his
      ensures input.Valid() && his.Valid()
      ensures ok ==> input.nbits < 8 && input.error == old(input.error)
      ensures ok ==> match ReadHeader(old(input.Rest()))
                     case Fails(_) => false
                     case Undefined => false
                     case Yields((ll, ol, r)) =>
                       && Longest(ll) > 0
                       && DecodeTokens(ll, ol, r, old(his.Output())) == Yields((his.Output(), input.Rest()))
      ensures !ok ==> match ReadHeader(old(input.Rest()))
                      case Yields((ll, ol, r)) =>
                        if Longest(ll) == 0 then input.error == StatusOf(OldWhy(old(input.Rest())))
                        else Failed(DecodeTokens(ll, ol, r, old(his.Output())), input.error)
                      case _ => Failed(ReadHeader(old(input.Rest())), input.error)
    {
      hide Fits, TableFor, ReadHeader, DecodeTokens, IsRevTab, IsLenBase, IsOffBase, OldWhy, OldStatus, Longest;
      var lt := new Huff();
      var ot := new Huff();
      ghost var ll, ol;
      ok, ll, ol := GetHeader(input, lt, ot, revtab);
      if ok {
        TableLongest(lt, ll, LITLEN_BITS);
        ok := Decode(input, his, lt, ot, revtab, lenbase, offbase, ll, ol);
      }
    }

    /** One block, from its three header bits on. */
    method Block(input: Input, his: History) returns (ok: bool, final: bool)
      requires Ready() && input.Valid() && input.nbits < 8 && his.Valid() && input.error == FlateOk
      modifies input, his, his.his
      ensures input.Valid() && his.Valid()
      ensures ok ==> ReadBlock(old(input.Rest()), old(his.Output())) == Yields((final, his.Output(), input.Rest()))
      ensures ok ==> input.nbits < 8 && input.error == old(input.error)
      ensures !ok ==> Ended(ReadBlock(old(input.Rest()), old(his.Output())), input.error)
    {
      hide TableFor, ReadHeader, DecodeTokens, ReadStored, IsRevTab, IsLenBase, IsOffBase, FixedLit, FixedOff;
      hide ByteBits, ToBits, FromBits, Pow2, Low, Shr, OldWhy, LitReady, Longest;
      ghost var bits, out := input.Rest(), his.Output();
      final := false;
      var v;
      ok, v := input.Take(3);
      if !ok {
        return;
      }
      Fields3(bits, v);
      final := Low(v, 1) == 1;
      var kind := Low(Shr(v, 1), 2);
      if kind == 0 {
        ok := UncBlock(input, his);
      } else if kind == 1 {
        FixedReady(littab, offtab);
        ok := Decode(input, his, littab, offtab, revtab, lenbase, offbase, FixedLit(), FixedOff());
      } else if kind == 2 {
        ok := DynamicBlock(input, his);
      } else {
        input.error := FlateCorrupted;
        ok := false;
      }
    }

    /**
     Inflate a byte string whose outcome is defined: FlateOk exactly when the format gives it a meaning,
     and then the written bytes are that meaning and the input position is just after the last block.
     */
    method Inflate(data: seq<byte>) returns (status: Status, out: seq<byte>, used: nat, adler: Adler.word32)
      requires Ready()
      ensures Delivered(data, status, out, used) && (status == FlateOk ==> adler == Adler.AdlerOf(1, out))
    {
      hide TableFor, ReadBlock, Inflated, Meaning, IsRevTab, IsLenBase, IsOffBase, FixedLit, FixedOff;
      hide ByteBits, ToBits, FromBits, Pow2, Low, Shr;
      var input := new Input(data);
      var his := new History();
      var final := false;
      MeaningIs(data);
      out, used, adler := [], 0, 1;
      while !final
        invariant input.Valid() && input.nbits < 8 && his.Valid() && input.error == FlateOk && input.data == data
        invariant !final ==> Meaning(data) == Inflated(input.Rest(), his.Output())
        invariant final ==> Meaning(data) == Yields((his.Output(), input.Rest()))
        decreases !final, |input.Rest()|
      {
        var ok;
        OneBlock(input.Rest(), his.Output());
        ok, final := Block(input, his);
        if !ok {
          status := if input.error == FlateOk then FlateInternal else input.error;
          return;
        }
      }
      his.Flush();
      var ok := input.SregUnget();
      return FlateOk, his.sink, input.at, his.adler;
    }
  }

  lemma MeaningIs(data: seq<byte>)
    ensures Meaning(data) == Inflated(ByteBits(data), [])
  {
  }

  lemma OneBlock(bits: seq<bool>, out: seq<byte>)
    ensures Inflated(bits, out) == match ReadBlock(bits, out)
                                   case Fails(w) => Fails(w)
                                   case Undefined => Undefined
                                   case Yields((final, out', rest)) => if final then Yields((out',
                                     rest)) else Inflated(rest, out')
    ensures ReadBlock(bits, out).Yields? ==> |ReadBlock(bits, out).value.2| < |bits|
  {
  }

  lemma SameTable(h: Huff, lens: Lens, a: nat, b: nat)
    requires h.For(lens, a) && Longest(lens) <= a && Longest(lens) <= b
    ensures h.For(lens, b)
  {
    hide FlatFor, Fits, SlotsFor;
  }

  /** With codewords of five bits both sizes of the first table come to the same. */
  lemma FixedOffFive()
    ensures Longest(FixedOff()) <= 5
  {
    LongestIs(FixedOff());
  }

  lemma FixedReady(littab: Huff, offtab: Huff)
    requires littab.For(FixedLit(), LITLEN_BITS) && offtab.For(FixedOff(), OFF_BITS)
    ensures LitReady(littab) && !offtab.Old() && Longest(FixedLit()) > 0
  {
    hide TableFor;
    TableLongest(littab, FixedLit(), LITLEN_BITS);
    TableLongest(offtab, FixedOff(), OFF_BITS);
    LongestIs(FixedLit());
    LongestIs(FixedOff());
    assert FixedLit()[0] == 8 && FixedOff()[0] == 5;
  }

  lemma FixedSmall()
    ensures forall i :: 0 <= i < N_LITLEN ==> FixedLit()[i] < 17
    ensures forall i :: 0 <= i < 32 ==> FixedOff()[i] < 17
  {
  }

  lemma Fields3(b: seq<bool>, v: nat)
    requires |b| >= 3 && v == FromBits(b[..3])
    ensures (Low(v, 1) == 1) == b[0] && Low(Shr(v, 1), 2) == FromBits(b[1..3])
  {
    var w := b[..3];
    FromSplit(w, 1);
    FromSplit(w[1..], 2);
    assert w[..1] == [b[0]] && w[1..][..2] == b[1..3];
    assert w[..1][1..] == [];
  }
}
