/** What the four kinds of written blocks mean, and how blocks follow each other. */
module BlockFormat {
  import opened Bits
  import opened Canonical
  import opened Tokens
  import opened Format
  import opened DynHeader

  predicate Whole(n: nat)
  {
    n % 8 == 0
  }

  /** Bits x, written after `before` bits, are read as one block, whatever follows up to a byte boundary. */
  ghost predicate Reads(before: nat, x: seq<bool>, out: seq<byte>, final: bool, out': seq<byte>, rest: seq<bool>)
  {
    Whole(before + |x| + |rest|) ==> ReadBlock(x + rest, out) == Yields((final, out', rest))
  }

  ghost predicate IsBlock(before: nat, x: seq<bool>, out: seq<byte>, final: bool, out': seq<byte>)
  {
    forall rest :: Reads(before, x, out, final, out', rest)
  }

  lemma HeadBits(final: bool, kind: nat, body: seq<bool>)
    requires kind < 4
    ensures var bits := [final] + ToBits(kind, 2) + body;
            |bits| >= 3 && bits[0] == final && FromBits(bits[1..3]) == kind && bits[3..] == body
  {
    var bits := [final] + ToBits(kind, 2) + body;
    assert bits[1..3] == ToBits(kind, 2);
    Pow2Small();
    FromTo(kind, 2);
  }

  // ----- the same code given by other lengths

  /** Every codeword of a is one of b. */
  ghost predicate SameCode(a: Lens, b: Lens)
  {
    forall s :: 0 <= s < |a| && a[s] > 0 ==> s < |b| && b[s] == a[s] && Codeword(b, s) == Codeword(a, s)
  }

  lemma SameToken(lit: Lens, off: Lens, lit': Lens, off': Lens, t: Token)
    requires SameCode(lit, lit') && SameCode(off, off') && Encodable(lit, off, t)
    ensures Encodable(lit', off', t) && TokenBits(lit', off', t) == TokenBits(lit, off, t)
  {
    hide Codeword, LenCode, OffCode, LenBase, OffBase, ToBits, Pow2, Span;
  }

  lemma {:induction false} SameBits(lit: Lens, off: Lens, lit': Lens, off': Lens, ts: seq<Token>)
    requires SameCode(lit, lit') && SameCode(off, off') && AllEncodable(lit, off, ts)
    ensures AllEncodable(lit', off', ts) && TokensBits(lit', off', ts) == TokensBits(lit, off, ts)
  {
    hide SameCode, Encodable, TokenBits;
    forall i | 0 <= i < |ts|
      ensures Encodable(lit', off', ts[i])
    {
      SameToken(lit, off, lit', off', ts[i]);
    }
    if ts != [] {
      SameToken(lit, off, lit', off', ts[0]);
      SameBits(lit, off, lit', off', ts[1..]);
    }
  }

  lemma TrimmedSame(l: Lens, n: nat)
    requires n <= |l| && forall i :: n <= i < |l| ==> l[i] == 0
    ensures SameCode(l, l[..n])
  {
    hide Codeword;
    forall s | 0 <= s < |l| && l[s] > 0
      ensures s < n && Codeword(l[..n], s) == Codeword(l, s)
    {
      TrimmedCodeword(l, n, s);
    }
  }

  /** The encoder's thirty fixed offset codewords are the first of the decoder's thirty-two. */
  lemma FixedOffSame()
    ensures SameCode(Const(30, 5), FixedOff())
  {
    hide Codeword, Const;
    var a, b := Const(30, 5), FixedOff();
    forall s | 0 <= s < |a| && a[s] > 0
      ensures s < |b| && b[s] == a[s] && Codeword(b, s) == Codeword(a, s)
    {
      FiveBits(30, s);
      FiveBits(32, s);
      SameStart(30, 32, 5, s);
    }
  }

  lemma SameStart(m: nat, n: nat, v: nat, s: nat)
    requires s <= m && s <= n
    ensures Const(m, v)[..s] == Const(n, v)[..s]
  {
  }

  lemma FiveBits(n: nat, s: nat)
    requires s < n
    ensures Const(n, 5)[s] == 5 && Codeword(Const(n, 5), s) == Msb(Count(Const(n, 5)[..s], 5), 5)
  {
    hide Msb, Count, Const;
    var a := Const(n, 5);
    forall c: nat | c <= 4
      ensures Count(a, c) == 0
    {
      ConstCount(n, 5, c);
    }
    NoneShorter(a, 4);
    assert First(a, 5) == 2 * End(a, 4);
    ConstAt(n, 5, s);
  }

  lemma ConstAt(n: nat, v: nat, s: nat)
    requires s < n
    ensures Const(n, v)[s] == v
  {
  }

  lemma SelfSame(l: Lens)
    ensures SameCode(l, l)
  {
  }

  // ----- fixed codes

  ghost predicate HasEob(lit: Lens)
  {
    EOB < |lit| && lit[EOB] > 0
  }

  ghost function BodyBits(lit: Lens, off: Lens, toks: seq<Token>): seq<bool>
    requires AllEncodable(lit, off, toks) && EOB < |lit|
  {
    TokensBits(lit, off, toks) + Codeword(lit, EOB)
  }

  lemma BodyInverse(lit: Lens, off: Lens, toks: seq<Token>, out: seq<byte>, rest: seq<bool>)
    requires Fits(lit, MAX_BITS) && Fits(off, MAX_BITS) && AllEncodable(lit, off, toks) && Playable(out, toks)
             && HasEob(lit)
    ensures DecodeTokens(lit, off, BodyBits(lit, off, toks) + rest, out) == Yields((Replay(out, toks), rest))
  {
    hide Fits, AllEncodable, TokensBits, Codeword, DecodeTokens, Playable, Replay;
    TokensInverse(lit, off, MAX_BITS, toks, rest, out);
    assert TokensBits(lit, off, toks) + Codeword(lit, EOB) + rest
      == TokensBits(lit, off, toks) + (Codeword(lit, EOB) + rest);
  }

  /** A block in the fixed codes. */
  lemma FixedBlock(before: nat, final: bool, toks: seq<Token>, out: seq<byte>)
    requires AllEncodable(FixedLit(), Const(30, 5), toks) && Playable(out, toks)
    ensures HasEob(FixedLit())
            && IsBlock(before, [final] + ToBits(1, 2) + BodyBits(FixedLit(), Const(30, 5), toks), out, final,
              Replay(out, toks))
  {
    hide AllEncodable, BodyBits, DecodeTokens, Playable, Replay, Fits, SameCode, ToBits, FixedOff, FromBits, ReadHeader,
         ReadStored;
    var lit, off := FixedLit(), FixedOff();
    assert HasEob(lit);
    SelfSame(lit);
    FixedOffSame();
    SameBody(lit, Const(30, 5), lit, off, toks);
    FixedLitFits();
    FixedOffFits();
    var x := [final] + ToBits(1, 2) + BodyBits(lit, off, toks);
    forall rest
      ensures Reads(before, x, out, final, Replay(out, toks), rest)
    {
      BodyInverse(lit, off, toks, out, rest);
      assert x + rest == [final] + ToBits(1, 2) + (BodyBits(lit, off, toks) + rest);
      HeadBits(final, 1, BodyBits(lit, off, toks) + rest);
    }
  }

  lemma SameBody(lit: Lens, off: Lens, lit': Lens, off': Lens, ts: seq<Token>)
    requires SameCode(lit, lit') && SameCode(off, off') && AllEncodable(lit, off, ts) && HasEob(lit)
    ensures AllEncodable(lit', off', ts) && HasEob(lit') && BodyBits(lit', off', ts) == BodyBits(lit, off, ts)
  {
    hide AllEncodable, TokensBits, Codeword;
    SameBits(lit, off, lit', off', ts);
  }

  // ----- dynamic codes

  /** A block that starts with the description of its codes. */
  lemma DynamicBlock(before: nat, final: bool, nlit: nat, noff: nat, nclen: nat, cl: Lens, syms: seq<nat>,
                     aux: seq<nat>,
                     lit: Lens, off: Lens, toks: seq<Token>, out: seq<byte>)
    requires nlit <= |lit| && noff <= |off| && HeaderFor(nlit, noff, nclen, cl, syms, aux, lit[..nlit] + off[..noff])
    requires (forall i :: nlit <= i < |lit| ==> lit[i] == 0) && (forall i :: noff <= i < |off| ==> off[i] == 0)
    requires AllEncodable(lit, off, toks) && Playable(out, toks) && HasEob(lit)
    ensures IsBlock(before,
            [final] + ToBits(2, 2) + (HeaderBits(nlit, noff, nclen, cl, syms, aux) + BodyBits(lit, off, toks)),
                    out, final, Replay(out, toks))
  {
    hide AllEncodable, BodyBits, DecodeTokens, Playable, Replay, Fits, SameCode, ToBits, FromBits, ReadHeader,
         ReadStored, HeaderBits, HasEob;
    var lens := lit[..nlit] + off[..noff];
    assert lens[..nlit] == lit[..nlit] && lens[nlit..] == off[..noff];
    TrimmedSame(lit, nlit);
    TrimmedSame(off, noff);
    SameBody(lit, off, lit[..nlit], off[..noff], toks);
    EobUsed(lit[..nlit]);
    var h, b := HeaderBits(nlit, noff, nclen, cl, syms, aux), BodyBits(lit, off, toks);
    var x := [final] + ToBits(2, 2) + (h + b);
    forall rest
      ensures Reads(before, x, out, final, Replay(out, toks), rest)
    {
      assert x + rest == [final] + ToBits(2, 2) + (h + (b + rest));
      HeadBits(final, 2, h + (b + rest));
      HeaderInverse(nlit, noff, nclen, cl, syms, aux, lens, b + rest);
      BodyInverse(lit[..nlit], off[..noff], toks, out, rest);
    }
  }

  lemma EobUsed(lit: Lens)
    requires HasEob(lit)
    ensures Longest(lit) > 0
  {
    LongestIs(lit);
  }

  /**
   A dynamic block with all literal lengths 0 fails whatever follows: at the end of the input, or at once if the code
   length code has only codewords of seven bits.
   */
  lemma NoLiterals(final: bool, nlit: nat, noff: nat, nclen: nat, cl: Lens, syms: seq<nat>, aux: seq<nat>, lens: Lens,
                   rest: seq<bool>, out: seq<byte>)
    requires HeaderFor(nlit, noff, nclen, cl, syms, aux, lens) && forall i :: 0 <= i < nlit ==> lens[i] == 0
    ensures ReadBlock([final] + ToBits(2, 2) + (HeaderBits(nlit, noff, nclen, cl, syms, aux) + rest), out)
         == Fails(if Shortest(cl) > 6 then Corrupt else NoInput)
  {
    hide ToBits, FromBits, ReadHeader, ReadStored, HeaderBits, DecodeTokens, Fits, ReadClens, Shortest;
    var body := HeaderBits(nlit, noff, nclen, cl, syms, aux) + rest;
    HeadBits(final, 2, body);
    HeaderInverse(nlit, noff, nclen, cl, syms, aux, lens, rest);
    LongestIs(lens[..nlit]);
    HeaderClens(nlit, noff, nclen, cl, syms, aux, lens, rest);
  }

  lemma HeaderClens(nlit: nat, noff: nat, nclen: nat, cl: Lens, syms: seq<nat>, aux: seq<nat>, lens: Lens,
                    rest: seq<bool>)
    requires HeaderFor(nlit, noff, nclen, cl, syms, aux, lens)
    ensures var body := HeaderBits(nlit, noff, nclen, cl, syms, aux) + rest;
            && |body| >= 14 && FromBits(body[10..14]) + 4 == nclen
            && ReadClens(body[14..], 0, nclen, Const(N_CLEN, 0)).Yields?
            && ReadClens(body[14..], 0, nclen, Const(N_CLEN, 0)).value.0 == cl
  {
    hide ToBits, FromBits, Fits, ReadClens, ClensBits, OpsBits, ClenOrder, Pow2;
    var ops := OpsBits(cl, syms, aux) + rest;
    var r := ClensBits(cl, 0, nclen) + ops;
    assert HeaderBits(nlit, noff, nclen, cl, syms, aux) + rest
      == ToBits(nlit - 257, 5) + ToBits(noff - 1, 5) + ToBits(nclen - 4, 4) + r;
    FirstFields(nlit - 257, noff - 1, nclen - 4, r);
    assert SentUpTo(cl, 0, Const(N_CLEN, 0));
    ReadClensInverse(cl, 0, nclen, Const(N_CLEN, 0), ops);
  }

  /** A dynamic block with a single distance codeword, in which a match is followed by the other bit. */
  lemma StrayBlock(final: bool, nlit: nat, nclen: nat, cl: Lens, syms: seq<nat>, aux: seq<nat>, lit: Lens,
                   c: nat, x: seq<bool>, rest: seq<bool>, out: seq<byte>)
    requires nlit == |lit| && HeaderFor(nlit, 1, nclen, cl, syms, aux, lit + [1])
    requires c <= 28 && LEN_START + c < |lit| && lit[LEN_START + c] > 0 && |x| == Extra(Lengths, c)
    ensures var body := Codeword(lit, LEN_START + c) + (x + ([true] + rest));
            ReadBlock([final] + ToBits(2, 2) + (HeaderBits(nlit, 1, nclen, cl, syms, aux) + body), out).Undefined?
  {
    hide ToBits, FromBits, ReadHeader, ReadStored, HeaderBits, DecodeTokens, Codeword, Fits;
    var lens := lit + [1];
    assert lens[..nlit] == lit && lens[nlit..] == [1];
    var body := Codeword(lit, LEN_START + c) + (x + ([true] + rest));
    HeaderInverse(nlit, 1, nclen, cl, syms, aux, lens, body);
    HeadBits(final, 2, HeaderBits(nlit, 1, nclen, cl, syms, aux) + body);
    LongestIs(lit);
    LoneDistance(lit, MAX_BITS, c, x, rest, out);
  }

  // ----- stored

  lemma {:induction false} TakeByteBits(s: seq<byte>, rest: seq<bool>)
    ensures TakeBytes(ByteBits(s) + rest, |s|) == s
  {
    if s != [] {
      var b := ByteBits(s) + rest;
      assert b[..8] == ToBits(s[0], 8) && b[8..] == ByteBits(s[1..]) + rest;
      Pow2Small();
      FromTo(s[0], 8);
      TakeByteBits(s[1..], rest);
    }
  }

  lemma {:induction false} ByteAtBits(s: seq<byte>, k: nat, rest: seq<bool>)
    requires k < |s|
    ensures ByteAt(ByteBits(s) + rest, k) == s[k]
  {
    hide ToBits, FromBits;
    var b := ByteBits(s) + rest;
    if k == 0 {
      assert b[0..8] == ToBits(s[0], 8);
      Pow2Small();
      FromTo(s[0], 8);
    } else {
      ByteAtBits(s[1..], k - 1, rest);
      var c := ByteBits(s[1..]) + rest;
      assert b == ToBits(s[0], 8) + c;
      assert c[8 * (k - 1)..8 * (k - 1) + 8] == b[8 * k..8 * k + 8];
    }
  }

  /** Length and complement of a stored block. */
  function StoredSizes(n: nat): (h: seq<byte>)
    requires n <= 65535
    ensures |h| == 4
  {
    [n % 256, n / 256, (65535 - n) % 256, (65535 - n) / 256]
  }

  /** Zero bits up to the next byte boundary. */
  function Padding(n: nat): (k: nat)
    ensures k < 8 && (n + k) % 8 == 0
  {
    (8 - n % 8) % 8
  }

  lemma SizesJoin(n: nat)
    requires n <= 65535
    ensures var h := StoredSizes(n);
            Join(h[0], h[1]) == n && Join(h[2], h[3]) == 65535 - n
  {
  }

  lemma Aligned(pad: nat, b: seq<bool>)
    requires pad < 8 && |b| % 8 == 0
    ensures var bits := Zeros(pad) + b;
            bits[|bits| % 8..] == b
  {
    assert |Zeros(pad) + b| % 8 == pad;
  }

  lemma ReadsSizes(bits: seq<bool>, b: seq<bool>, n: nat, body: seq<bool>)
    requires bits[|bits| % 8..] == b && |b| >= 32 && b[32..] == body && n <= 65535 && 8 * n <= |body|
    requires Join(ByteAt(b, 0), ByteAt(b, 1)) == n && Join(ByteAt(b, 2), ByteAt(b, 3)) == 65535 - n
    ensures ReadStored(bits) == Yields((TakeBytes(body, n), body[8 * n..]))
  {
    hide Join, ByteAt, TakeBytes;
    assert n == (-(65535 - n) - 1) % 65536;
  }

  lemma StoredInverse(pad: nat, s: seq<byte>, rest: seq<bool>)
    requires |s| <= 65535 && pad < 8 && |rest| % 8 == 0
    ensures ReadStored(Zeros(pad) + (ByteBits(StoredSizes(|s|)) + (ByteBits(s) + rest))) == Yields((s, rest))
  {
    hide ByteBits, ToBits, FromBits, TakeBytes, ByteAt, Zeros, StoredSizes, Join, ReadStored;
    var h, body := StoredSizes(|s|), ByteBits(s) + rest;
    var b := ByteBits(h) + body;
    Aligned(pad, b);
    ByteAtBits(h, 0, body);
    ByteAtBits(h, 1, body);
    ByteAtBits(h, 2, body);
    ByteAtBits(h, 3, body);
    SizesJoin(|s|);
    assert b[32..] == body;
    ReadsSizes(Zeros(pad) + b, b, |s|, body);
    TakeByteBits(s, rest);
    assert body[8 * |s|..] == rest;
  }

  lemma WholeRest(before: nat, n: nat, rest: nat)
    requires Whole(before + (3 + (Padding(before + 3) + 32 + 8 * n)) + rest)
    ensures rest % 8 == 0
  {
  }

  lemma StoredBlock(before: nat, final: bool, s: seq<byte>, out: seq<byte>)
    requires |s| <= 65535
    ensures IsBlock(before,
            [final] + ToBits(0, 2) + (Zeros(Padding(before + 3)) + ByteBits(StoredSizes(|s|)) + ByteBits(s)), out,
              final, out + s)
  {
    hide ByteBits, ToBits, FromBits, ReadStored, ReadHeader, DecodeTokens, Zeros, StoredSizes, Whole, Padding;
    var body := Zeros(Padding(before + 3)) + ByteBits(StoredSizes(|s|)) + ByteBits(s);
    var x := [final] + ToBits(0, 2) + body;
    forall rest
      ensures Reads(before, x, out, final, out + s, rest)
    {
      if Whole(before + |x| + |rest|) {
        WholeRest(before, |s|, |rest|);
        var y := Zeros(Padding(before + 3)) + (ByteBits(StoredSizes(|s|)) + (ByteBits(s) + rest));
        assert x + rest == [final] + ToBits(0, 2) + y;
        HeadBits(final, 0, y);
        StoredInverse(Padding(before + 3), s, rest);
      }
    }
  }

  // ----- blocks in sequence

  ghost predicate Continues(w: seq<bool>, out: seq<byte>, rest: seq<bool>)
  {
    Whole(|w| + |rest|) ==> Inflated(w + rest, []) == Inflated(rest, out)
  }

  /** After the blocks w, whatever follows is read with out already produced. */
  ghost predicate Encodes(w: seq<bool>, out: seq<byte>)
  {
    forall rest :: Continues(w, out, rest)
  }

  lemma EncodesNothing()
    ensures Encodes([], [])
  {
    forall rest: seq<bool>
      ensures Continues([], [], rest)
    {
      assert [] + rest == rest;
    }
  }

  lemma InflatedBlock(x: seq<bool>, out: seq<byte>, final: bool, out': seq<byte>, rest: seq<bool>)
    requires ReadBlock(x + rest, out) == Yields((final, out', rest))
    ensures Inflated(x + rest, out) == if final then Yields((out', rest)) else Inflated(rest, out')
  {
    hide ReadBlock;
  }

  lemma EncodesMore(w: seq<bool>, x: seq<bool>, out: seq<byte>, out': seq<byte>)
    requires Encodes(w, out) && IsBlock(|w|, x, out, false, out')
    ensures Encodes(w + x, out')
  {
    hide ReadBlock, Inflated, Whole;
    forall rest
      ensures Continues(w + x, out', rest)
    {
      if Whole(|w| + |x| + |rest|) {
        assert w + x + rest == w + (x + rest);
        assert Continues(w, out, x + rest);
        assert Reads(|w|, x, out, false, out', rest);
        InflatedBlock(x, out, false, out', rest);
      }
    }
  }

  /** The final block ends the stream: what is left is what followed it. */
  lemma EncodesLast(w: seq<bool>, x: seq<bool>, out: seq<byte>, out': seq<byte>, rest: seq<bool>)
    requires Encodes(w, out) && IsBlock(|w|, x, out, true, out') && Whole(|w| + |x| + |rest|)
    ensures Inflated(w + x + rest, []) == Yields((out', rest))
  {
    hide ReadBlock, Inflated, Whole;
    var y := x + rest;
    assert w + x + rest == w + y;
    assert Continues(w, out, y);
    assert Reads(|w|, x, out, true, out', rest);
    InflatedBlock(x, out, true, out', rest);
  }
}
