/**
 Literals and matches, what replaying them produces, and how a compressed block
 represents them (sections 3.2.3 and 3.2.5 of RFC 1951).
 */
module Tokens {
  import opened Bits
  import opened Canonical

  const EOB := 256
  const LEN_START := 257
  const N_LITLEN := 288
  const N_OFF := 30

  /** Sizes of the decoder's first tables. */
  const LITLEN_BITS := 7
  const OFF_BITS := 6

  const MIN_MATCH := 3
  const MAX_MATCH := 258
  const MAX_OFF := 32768

  /** Length codes, counted from 257, and distance codes. */
  datatype Book = Lengths | Distances

  /** Extra bits that follow a code: the tables litlenextra and offextra. */
  function Extra(book: Book, c: nat): (e: nat)
    ensures c < 32 ==> e <= 13
  {
    match book
    case Lengths => if c < 8 || c >= 28 then 0 else c / 4 - 1
    case Distances => if c < 4 || c >= 30 then 0 else c / 2 - 1
  }

  /** How many values the first i codes of a book cover. */
  function Span(book: Book, i: nat): nat
  {
    if i == 0 then 0 else Span(book, i - 1) + Pow2(Extra(book, i - 1))
  }

  /** The code, at or after i, whose range holds v. */
  function FindCode(book: Book, i: nat, n: nat, v: nat): (c: nat)
    requires i < n && Span(book, i) <= v < Span(book, n)
    ensures i <= c < n && Span(book, c) <= v < Span(book, c) + Pow2(Extra(book, c))
    decreases n - i
  {
    if v < Span(book, i + 1) then i
    else FindCode(book, i + 1, n, v)
  }

  lemma {:induction false} SpanMono(book: Book, i: nat, j: nat)
    requires i <= j
    ensures Span(book, i) <= Span(book, j)
  {
    if i < j {
      SpanMono(book, i, j - 1);
    }
  }

  /** A value lies in the range of one code only. */
  lemma FindUnique(book: Book, n: nat, v: nat, c: nat)
    requires 0 < n && c < n && Span(book, c) <= v < Span(book, c + 1)
    ensures Span(book, 0) <= v < Span(book, n) && FindCode(book, 0, n, v) == c
  {
    SpanMono(book, c + 1, n);
    var d := FindCode(book, 0, n, v);
    if d < c {
      SpanMono(book, d + 1, c);
    } else if c < d {
      SpanMono(book, c + 1, d);
    }
  }

  lemma SpanNext(book: Book, i: nat)
    ensures Span(book, i + 1) == Span(book, i) + Pow2(Extra(book, i))
  {
  }

  lemma SpanPair(book: Book, i: nat)
    ensures Span(book, i + 2) == Span(book, i) + Pow2(Extra(book, i)) + Pow2(Extra(book, i + 1))
  {
    assert Span(book, i + 2) == Span(book, i + 1) + Pow2(Extra(book, i + 1));
  }

  lemma SpanZero(book: Book)
    ensures Span(book, 0) == 0
  {
  }

  lemma LenSpans()
    ensures Span(Lengths, 28) == 256
  {
    hide Span, Pow2;
    Pow2Medium();
    SpanZero(Lengths);
    SpanPair(Lengths, 0);
    SpanPair(Lengths, 2);
    SpanPair(Lengths, 4);
    SpanPair(Lengths, 6);
    SpanPair(Lengths, 8);
    SpanPair(Lengths, 10);
    SpanPair(Lengths, 12);
    SpanPair(Lengths, 14);
    SpanPair(Lengths, 16);
    SpanPair(Lengths, 18);
    SpanPair(Lengths, 20);
    SpanPair(Lengths, 22);
    SpanPair(Lengths, 24);
    SpanPair(Lengths, 26);
  }

  lemma OffSpans()
    ensures Span(Distances, 16) == 256 && Span(Distances, 30) == 32768
  {
    hide Span, Pow2;
    Pow2Medium();
    SpanZero(Distances);
    SpanPair(Distances, 0);
    SpanPair(Distances, 2);
    SpanPair(Distances, 4);
    SpanPair(Distances, 6);
    SpanPair(Distances, 8);
    SpanPair(Distances, 10);
    SpanPair(Distances, 12);
    SpanPair(Distances, 14);
    SpanPair(Distances, 16);
    SpanPair(Distances, 18);
    SpanPair(Distances, 20);
    SpanPair(Distances, 22);
    SpanPair(Distances, 24);
    SpanPair(Distances, 26);
    SpanPair(Distances, 28);
  }

  /** Length code (counted from 257) of a match length; 258 has a code of its own. */
  function LenCode(len: nat): (c: nat)
    requires MIN_MATCH <= len <= MAX_MATCH
    ensures c <= 28 && LenBase(c) <= len < LenBase(c) + Pow2(Extra(Lengths, c))
  {
    LenSpans();
    if len == MAX_MATCH then LastLen(); 28 else FindCode(Lengths, 0, 28, len - MIN_MATCH)
  }

  /** The decoder's base of a length code: code 285 starts one early. */
  function LenBase(c: nat): nat
    requires c < 31
  {
    if c == 28 then Span(Lengths, 28) + MIN_MATCH - 1 else Span(Lengths, c) + MIN_MATCH
  }

  lemma LastLen()
    ensures LenBase(28) == MAX_MATCH && Pow2(Extra(Lengths, 28)) == 1
  {
    LenSpans();
  }

  function OffCode(off: nat): (c: nat)
    requires 1 <= off <= MAX_OFF
    ensures c < 30 && OffBase(c) <= off < OffBase(c) + Pow2(Extra(Distances, c))
  {
    OffSpans();
    FindCode(Distances, 0, 30, off - 1)
  }

  function OffBase(c: nat): nat
    requires c < 32
  {
    Span(Distances, c) + 1
  }

  // ----- tokens

  datatype Token = Lit(b: byte) | Match(len: nat, off: nat)

  predicate Legal(t: Token)
  {
    t.Match? ==> MIN_MATCH <= t.len <= MAX_MATCH && 1 <= t.off <= MAX_OFF
  }

  function Copy(out: seq<byte>, len: nat, off: nat): (r: seq<byte>)
    requires 1 <= off <= |out|
    ensures |r| == |out| + len
    decreases len
  {
    if len == 0 then out else Copy(out + [out[|out| - off]], len - 1, off)
  }

  lemma CopyStep(out: seq<byte>, len: nat, off: nat, out': seq<byte>)
    requires 1 <= off <= |out| && len > 0 && out' == out + [out[|out| - off]]
    ensures Copy(out, len, off) == Copy(out', len - 1, off)
  {
  }

  lemma CopyZero(out: seq<byte>, off: nat)
    requires 1 <= off <= |out|
    ensures Copy(out, 0, off) == out
  {
  }

  /** Every match reaches back no further than what has been produced. */
  predicate Playable(out: seq<byte>, ts: seq<Token>)
    decreases |ts|
  {
    ts == [] || (Legal(ts[0]) && (ts[0].Match? ==> ts[0].off <= |out|) && Playable(Play(out, ts[0]), ts[1..]))
  }

  function Play(out: seq<byte>, t: Token): seq<byte>
    requires t.Match? ==> 1 <= t.off <= |out|
  {
    match t
    case Lit(b) => out + [b]
    case Match(len, off) => Copy(out, len, off)
  }

  function Replay(out: seq<byte>, ts: seq<Token>): seq<byte>
    requires Playable(out, ts)
    decreases |ts|
  {
    if ts == [] then out else Replay(Play(out, ts[0]), ts[1..])
  }

  // ----- their bits

  /** The literal/length symbol of a token. */
  function LitSym(t: Token): (s: nat)
    requires Legal(t)
    ensures s < 286 && s != EOB
  {
    match t
    case Lit(b) => b
    case Match(len, _) => LEN_START + LenCode(len)
  }

  ghost predicate Encodable(lit: Lens, off: Lens, t: Token)
  {
    && Legal(t)
    && LitSym(t) < |lit| && lit[LitSym(t)] > 0
    && (t.Match? ==> OffCode(t.off) < |off| && off[OffCode(t.off)] > 0)
  }

  ghost function TokenBits(lit: Lens, off: Lens, t: Token): seq<bool>
    requires Encodable(lit, off, t)
  {
    match t
    case Lit(b) => Codeword(lit, b)
    case Match(len, o) =>
      var c, d := LenCode(len), OffCode(o);
      Codeword(lit, LEN_START + c) + ToBits(len - LenBase(c), Extra(Lengths, c))
      + Codeword(off, d) + ToBits(o - OffBase(d), Extra(Distances, d))
  }

  ghost predicate AllEncodable(lit: Lens, off: Lens, ts: seq<Token>)
  {
    forall i :: 0 <= i < |ts| ==> Encodable(lit, off, ts[i])
  }

  ghost function TokensBits(lit: Lens, off: Lens, ts: seq<Token>): seq<bool>
    requires AllEncodable(lit, off, ts)
  {
    if ts == [] then [] else TokenBits(lit, off, ts[0]) + TokensBits(lit, off, ts[1..])
  }

  /** The body of a compressed block, bit by bit: output so far, then what follows the block. */
  ghost function DecodeTokens(lit: Lens, off: Lens, bits: seq<bool>,
                              out: seq<byte>): (r: Outcome<(seq<byte>, seq<bool>)>)
    ensures r.Yields? ==> |r.value.1| < |bits|
    decreases |bits|
  {
    match DecodeSym(lit, LITLEN_BITS, bits)
    case Fails(w) => Fails(w)
    case Undefined => Undefined
    case Yields((c, r0)) =>
      if c < 256 then DecodeTokens(lit, off, r0, out + [c])
      else if c == EOB then Yields((out, r0))
      else if c > 285 then Fails(Corrupt)
      else
        match DecodeMatch(off, c - LEN_START, r0)
        case Fails(w) => Fails(w)
        case Undefined => Undefined
        case Yields((len, dist, r1)) =>
          if dist > |out| then Fails(Corrupt)
          else DecodeTokens(lit, off, r1, Copy(out, len, dist))
  }

  /** A match after its length symbol: length, distance, remaining bits. */
  ghost function DecodeMatch(off: Lens, c: nat, r0: seq<bool>): (r: Outcome<(nat, nat, seq<bool>)>)
    requires c <= 28
    ensures r.Yields? ==> r.value.1 >= 1 && |r.value.2| <= |r0|
  {
    var e := Extra(Lengths, c);
    if |r0| < e then Fails(NoInput) else
    match DecodeSym(off, OFF_BITS, r0[e..])
    case Fails(w) => Fails(w)
    case Undefined => Undefined
    case Yields((d, r1)) =>
      if d > 29 then Fails(Corrupt)
      else if |r1| < Extra(Distances, d) then Fails(NoInput)
      else Yields((LenBase(c) + FromBits(r0[..e]), OffBase(d) + FromBits(r1[..Extra(Distances, d)]),
        r1[Extra(Distances, d)..]))
  }

  // ----- decoding inverts encoding

  lemma ExtraBits(v: nat, base: nat, e: nat, rest: seq<bool>)
    requires base <= v < base + Pow2(e)
    ensures var b := ToBits(v - base, e) + rest;
            base + FromBits(b[..e]) == v && b[e..] == rest
  {
    FromTo(v - base, e);
    assert (ToBits(v - base, e) + rest)[..e] == ToBits(v - base, e);
  }

  lemma MatchInverse(off: Lens, m: nat, len: nat, o: nat, rest: seq<bool>)
    requires Fits(off, m) && Legal(Match(len, o)) && OffCode(o) < |off| && off[OffCode(o)] > 0
    ensures DecodeMatch(off, LenCode(len), MatchTail(off, len, o, rest)) == Yields((len, o, rest))
  {
    hide Fits, Codeword, DecodeSym, LenCode, OffCode, LenBase, OffBase, ToBits, FromBits, Span, Pow2;
    var c, d := LenCode(len), OffCode(o);
    var r2 := ToBits(o - OffBase(d), Extra(Distances, d)) + rest;
    var r1 := Codeword(off, d) + r2;
    ExtraBits(len, LenBase(c), Extra(Lengths, c), r1);
    DecodeCodeword(off, m, OFF_BITS, d, r2);
    ExtraBits(o, OffBase(d), Extra(Distances, d), rest);
  }

  lemma LitStep(lit: Lens, off: Lens, bits: seq<bool>, out: seq<byte>, b: byte, rest: seq<bool>)
    requires DecodeSym(lit, LITLEN_BITS, bits) == Yields((b, rest))
    ensures DecodeTokens(lit, off, bits, out) == DecodeTokens(lit, off, rest, out + [b])
  {
    hide DecodeSym, DecodeMatch;
  }

  lemma MatchStep(lit: Lens, off: Lens, bits: seq<bool>, out: seq<byte>, c: nat, r0: seq<bool>, len: nat, o: nat,
                  rest: seq<bool>)
    requires DecodeSym(lit, LITLEN_BITS, bits) == Yields((LEN_START + c, r0)) && c <= 28
    requires DecodeMatch(off, c, r0) == Yields((len, o, rest)) && 1 <= o <= |out|
    ensures DecodeTokens(lit, off, bits, out) == DecodeTokens(lit, off, rest, Copy(out, len, o))
  {
    hide DecodeSym, DecodeMatch, Copy;
  }

  /** What follows the length codeword of a match. */
  ghost function MatchTail(off: Lens, len: nat, o: nat, rest: seq<bool>): seq<bool>
    requires Legal(Match(len, o)) && OffCode(o) < |off|
  {
    var c, d := LenCode(len), OffCode(o);
    ToBits(len - LenBase(c), Extra(Lengths, c))
      + (Codeword(off, d) + (ToBits(o - OffBase(d), Extra(Distances, d)) + rest))
  }

  lemma MatchBits(lit: Lens, off: Lens, len: nat, o: nat, rest: seq<bool>)
    requires Encodable(lit, off, Match(len, o))
    ensures TokenBits(lit, off, Match(len, o)) + rest
         == Codeword(lit, LEN_START + LenCode(len)) + MatchTail(off, len, o, rest)
  {
    hide Codeword, LenCode, OffCode, LenBase, OffBase, ToBits, Span, Pow2;
    var c, d := LenCode(len), OffCode(o);
    var w, x, y, z := Codeword(lit, LEN_START + c), ToBits(len - LenBase(c), Extra(Lengths, c)),
                      Codeword(off, d), ToBits(o - OffBase(d), Extra(Distances, d));
    assert w + x + y + z + rest == w + (x + (y + (z + rest)));
  }

  lemma LitInverse(lit: Lens, off: Lens, m: nat, b: byte, rest: seq<bool>, out: seq<byte>)
    requires Fits(lit, m) && Encodable(lit, off, Lit(b))
    ensures DecodeTokens(lit, off, TokenBits(lit, off, Lit(b)) + rest, out) == DecodeTokens(lit, off, rest, out + [b])
  {
    hide Fits, Codeword, DecodeSym, DecodeTokens;
    DecodeCodeword(lit, m, LITLEN_BITS, b, rest);
    LitStep(lit, off, Codeword(lit, b) + rest, out, b, rest);
  }

  lemma PairInverse(lit: Lens, off: Lens, m: nat, len: nat, o: nat, rest: seq<bool>, out: seq<byte>)
    requires Fits(lit, m) && Fits(off, m) && Encodable(lit, off, Match(len, o)) && o <= |out|
    ensures DecodeTokens(lit, off, TokenBits(lit, off, Match(len, o)) + rest, out)
         == DecodeTokens(lit, off, rest, Copy(out, len, o))
  {
    hide Fits, Codeword, DecodeSym, DecodeTokens, DecodeMatch, TokenBits, LenCode, OffCode, Copy, MatchTail;
    var c, r0 := LenCode(len), MatchTail(off, len, o, rest);
    MatchBits(lit, off, len, o, rest);
    DecodeCodeword(lit, m, LITLEN_BITS, LEN_START + c, r0);
    MatchInverse(off, m, len, o, rest);
    MatchStep(lit, off, Codeword(lit, LEN_START + c) + r0, out, c, r0, len, o, rest);
  }

  /** Decoding the encoding of one playable token replays it. */
  lemma TokenInverse(lit: Lens, off: Lens, m: nat, t: Token, rest: seq<bool>, out: seq<byte>)
    requires Fits(lit, m) && Fits(off, m) && Encodable(lit, off, t) && (t.Match? ==> t.off <= |out|)
    ensures DecodeTokens(lit, off, TokenBits(lit, off, t) + rest, out) == DecodeTokens(lit, off, rest, Play(out, t))
  {
    hide Fits, DecodeTokens, TokenBits, Copy;
    match t
    case Lit(b) => LitInverse(lit, off, m, b, rest, out);
    case Match(len, o) => PairInverse(lit, off, m, len, o, rest, out);
  }

  /** Decoding a whole encoded block body replays its tokens and stops after it. */
  lemma {:induction false} TokensInverse(lit: Lens, off: Lens, m: nat, ts: seq<Token>, rest: seq<bool>, out: seq<byte>)
    requires Fits(lit, m) && Fits(off, m) && AllEncodable(lit, off, ts) && Playable(out, ts)
    requires EOB < |lit| && lit[EOB] > 0
    ensures DecodeTokens(lit, off, TokensBits(lit, off, ts) + (Codeword(lit, EOB) + rest), out)
            == Yields((Replay(out, ts), rest))
    decreases |ts|
  {
    hide Fits, Codeword, DecodeSym, TokenBits, Encodable, Play;
    var tail := Codeword(lit, EOB) + rest;
    if ts == [] {
      assert TokensBits(lit, off, ts) + tail == tail;
      DecodeCodeword(lit, m, LITLEN_BITS, EOB, rest);
    } else {
      var more := TokensBits(lit, off, ts[1..]) + tail;
      assert TokensBits(lit, off, ts) + tail == TokenBits(lit, off, ts[0]) + more;
      TokenInverse(lit, off, m, ts[0], more, out);
      TokensInverse(lit, off, m, ts[1..], rest, Play(out, ts[0]));
    }
  }

  // ----- appending

  lemma {:induction false} TokensBitsAppend(lit: Lens, off: Lens, ts: seq<Token>, us: seq<Token>)
    requires AllEncodable(lit, off, ts) && AllEncodable(lit, off, us)
    ensures AllEncodable(lit, off, ts + us)
    ensures TokensBits(lit, off, ts + us) == TokensBits(lit, off, ts) + TokensBits(lit, off, us)
  {
    hide Encodable, TokenBits;
    if ts == [] {
      assert ts + us == us;
    } else {
      assert (ts + us)[1..] == ts[1..] + us;
      TokensBitsAppend(lit, off, ts[1..], us);
    }
  }

  lemma {:induction false} ReplayAppend(out: seq<byte>, ts: seq<Token>, us: seq<Token>)
    requires Playable(out, ts) && Playable(Replay(out, ts), us)
    ensures Playable(out, ts + us) && Replay(out, ts + us) == Replay(Replay(out, ts), us)
    decreases |ts|
  {
    if ts == [] {
      assert ts + us == us;
    } else {
      assert (ts + us)[1..] == ts[1..] + us;
      ReplayAppend(Play(out, ts[0]), ts[1..], us);
    }
  }
}
