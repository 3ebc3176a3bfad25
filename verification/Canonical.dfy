/**
 Canonical Huffman codes (section 3.2.2 of RFC 1951), as mathematics.

 A code is given by the length of each symbol's codeword, 0 meaning that the
 symbol has none.  `Codeword` is what both the encoder's and the decoder's tables
 are proved against.
 */
module Canonical {
  import opened Bits

  type Lens = seq<nat>

  /** How many symbols have length b. */
  function Count(lens: Lens, b: nat): nat
  {
    if lens == [] then 0
    else (if lens[|lens| - 1] == b then 1 else 0) + Count(lens[..|lens| - 1], b)
  }

  /** How many symbols have a codeword of length b. */
  function Used(lens: Lens, b: nat): nat
  {
    if b == 0 then 0 else Count(lens, b)
  }

  /** The numerically first codeword of length b. */
  function First(lens: Lens, b: nat): nat
    decreases b, 0
  {
    if b == 0 then 0 else 2 * End(lens, b - 1)
  }

  /** One past the numerically last codeword of length b. */
  function End(lens: Lens, b: nat): nat
    decreases b, 1
  {
    First(lens, b) + Used(lens, b)
  }

  function Code(lens: Lens, s: nat): nat
    requires s < |lens|
  {
    First(lens, lens[s]) + Count(lens[..s], lens[s])
  }

  function Codeword(lens: Lens, s: nat): (w: seq<bool>)
    requires s < |lens|
    ensures |w| == lens[s]
  {
    Msb(Code(lens, s), lens[s])
  }

  /** Lengths are at most m and no length is oversubscribed. */
  ghost predicate Fits(lens: Lens, m: nat)
  {
    && (forall i :: 0 <= i < |lens| ==> lens[i] <= m)
    && (forall b :: 0 <= b <= m ==> FitsAt(lens, b))
  }

  predicate FitsAt(lens: Lens, b: nat)
  {
    End(lens, b) <= Pow2(b)
  }

  // ----- counting

  lemma {:induction false} CountConcat(a: Lens, c: Lens, b: nat)
    ensures Count(a + c, b) == Count(a, b) + Count(c, b)
  {
    if c == [] {
      assert a + c == a;
    } else {
      assert (a + c)[..|a + c| - 1] == a + c[..|c| - 1];
      CountConcat(a, c[..|c| - 1], b);
    }
  }

  lemma {:induction false} CountNone(lens: Lens, b: nat)
    requires forall i :: 0 <= i < |lens| ==> lens[i] != b
    ensures Count(lens, b) == 0
  {
    if lens != [] {
      CountNone(lens[..|lens| - 1], b);
    }
  }

  lemma {:induction false} CountSome(lens: Lens, b: nat)
    requires Count(lens, b) > 0
    ensures exists i :: 0 <= i < |lens| && lens[i] == b
  {
    if lens[|lens| - 1] != b {
      CountSome(lens[..|lens| - 1], b);
      var i :| 0 <= i < |lens| - 1 && lens[..|lens| - 1][i] == b;
      assert lens[i] == b;
    }
  }

  /** A symbol's rank among the symbols of its length is below their number. */
  lemma RankBound(lens: Lens, s: nat)
    requires s < |lens|
    ensures Count(lens[..s], lens[s]) < Count(lens, lens[s])
  {
    assert lens == lens[..s] + lens[s..];
    assert lens[s..] == [lens[s]] + lens[s + 1..];
    CountConcat(lens[..s], lens[s..], lens[s]);
    CountConcat([lens[s]], lens[s + 1..], lens[s]);
    assert Count([lens[s]], lens[s]) == 1;
  }

  /** Symbols of one length have strictly increasing ranks. */
  lemma RankMono(lens: Lens, s: nat, t: nat)
    requires s < t < |lens| && lens[s] == lens[t]
    ensures Count(lens[..s], lens[s]) < Count(lens[..t], lens[t])
  {
    RankBound(lens[..t], s);
    assert lens[..t][..s] == lens[..s];
  }

  /** Every rank below the count is taken by some symbol. */
  lemma {:induction false} SymbolAtRank(lens: Lens, b: nat, r: nat) returns (s: nat)
    requires r < Count(lens, b)
    ensures s < |lens| && lens[s] == b && Count(lens[..s], b) == r
  {
    var n := |lens| - 1;
    if lens[n] == b && Count(lens[..n], b) == r {
      s := n;
    } else {
      s := SymbolAtRank(lens[..n], b, r);
      assert lens[..n][..s] == lens[..s];
    }
  }

  // ----- the layout of the code space

  lemma CodeRange(lens: Lens, s: nat)
    requires s < |lens| && lens[s] > 0
    ensures First(lens, lens[s]) <= Code(lens, s) < End(lens, lens[s])
  {
    RankBound(lens, s);
  }

  /** Longer codewords start after the shifted end of every shorter length. */
  lemma {:induction false} FirstAfterEnd(lens: Lens, a: nat, b: nat)
    requires a < b
    ensures First(lens, b) >= Shl(End(lens, a), b - a)
  {
    if a + 1 < b {
      FirstAfterEnd(lens, a, b - 1);
    }
  }

  /** A value of n bits below First(n) extends some codeword shorter than n. */
  lemma {:induction false} Covered(lens: Lens, n: nat, v: nat) returns (s: nat)
    requires v < First(lens, n)
    ensures s < |lens| && 0 < lens[s] < n && Code(lens, s) == Shr(v, n - lens[s])
  {
    var h := v / 2;
    if h < First(lens, n - 1) {
      s := Covered(lens, n - 1, h);
    } else {
      s := SymbolAtRank(lens, n - 1, h - First(lens, n - 1));
    }
  }

  lemma CodeFits(lens: Lens, m: nat, s: nat)
    requires Fits(lens, m) && s < |lens| && lens[s] > 0
    ensures Code(lens, s) < Pow2(lens[s])
  {
    CodeRange(lens, s);
    assert FitsAt(lens, lens[s]);
  }

  lemma CodeDistinct(lens: Lens, s: nat, t: nat)
    requires s < |lens| && t < |lens| && lens[s] == lens[t] && Code(lens, s) == Code(lens, t)
    ensures s == t
  {
    if s < t {
      RankMono(lens, s, t);
    } else if t < s {
      RankMono(lens, t, s);
    }
  }

  /** A codeword is a prefix of n bits exactly when it is their value shifted down. */
  lemma CodewordPrefix(lens: Lens, m: nat, s: nat, b: seq<bool>)
    requires Fits(lens, m) && s < |lens| && lens[s] > 0 && lens[s] <= |b|
    ensures Codeword(lens, s) <= b <==> Code(lens, s) == Shr(MsbVal(b), |b| - lens[s])
  {
    hide Fits, Pow2, Msb, MsbVal, Shr, Code;
    CodeFits(lens, m, s);
    MsbPrefixVal(Code(lens, s), lens[s], b);
  }

  /** No codeword is a prefix of another symbol's codeword. */
  lemma PrefixFree(lens: Lens, m: nat, s: nat, t: nat)
    requires Fits(lens, m)
    requires s < |lens| && t < |lens| && lens[s] > 0
    requires Codeword(lens, s) <= Codeword(lens, t)
    ensures s == t
  {
    var a, b := lens[s], lens[t];
    CodewordPrefix(lens, m, s, Codeword(lens, t));
    CodeFits(lens, m, t);
    MsbValMsb(Code(lens, t), b);
    CodeRange(lens, s);
    if a == b {
      CodeDistinct(lens, s, t);
    } else {
      FirstAfterEnd(lens, a, b);
      CodeRange(lens, t);
      ShrSpec(Code(lens, t), b - a, End(lens, a));
    }
  }

  // ----- decoding one symbol

  ghost predicate StartsWith(lens: Lens, s: nat, bits: seq<bool>)
  {
    s < |lens| && lens[s] > 0 && Codeword(lens, s) <= bits
  }

  /** In a code that fits, at most one symbol's codeword starts the bits. */
  lemma OneStarts(lens: Lens, m: nat, s: nat, t: nat, bits: seq<bool>)
    requires Fits(lens, m) && StartsWith(lens, s, bits) && StartsWith(lens, t, bits)
    ensures s == t
  {
    var v, w := Codeword(lens, s), Codeword(lens, t);
    assert v == bits[..|v|] && w == bits[..|w|];
    if |v| <= |w| {
      PrefixFree(lens, m, s, t);
    } else {
      PrefixFree(lens, m, t, s);
    }
  }

  /** Bits whose value is below the end of the code space start with a codeword. */
  lemma BelowEnd(lens: Lens, m: nat, z: seq<bool>) returns (s: nat)
    requires Fits(lens, m) && 0 < |z| && MsbVal(z) < End(lens, |z|)
    ensures StartsWith(lens, s, z)
  {
    var v, n := MsbVal(z), |z|;
    if v < First(lens, n) {
      s := Covered(lens, n, v);
    } else {
      s := SymbolAtRank(lens, n, v - First(lens, n));
    }
    CodewordPrefix(lens, m, s, z);
  }

  // ----- bits that are no codeword

  /** The longest and the shortest codeword; 0 if there is none. */
  function Longest(lens: Lens): nat
  {
    if lens == [] then 0 else Max(Longest(lens[..|lens| - 1]), lens[|lens| - 1])
  }

  function Shortest(lens: Lens): nat
  {
    if lens == [] then 0
    else
      var n, k := Shortest(lens[..|lens| - 1]), lens[|lens| - 1];
      if n == 0 || (0 < k < n) then k else n
  }

  function Max(a: nat, b: nat): nat
  {
    if a < b then b else a
  }

  function Min(a: nat, b: nat): nat
  {
    if a < b then a else b
  }

  lemma {:induction false} LongestIs(lens: Lens)
    ensures forall i :: 0 <= i < |lens| ==> lens[i] <= Longest(lens)
    ensures Longest(lens) > 0 ==> Longest(lens) in lens
  {
    if lens != [] {
      LongestIs(lens[..|lens| - 1]);
      assert lens == lens[..|lens| - 1] + [lens[|lens| - 1]];
    }
  }

  lemma {:induction false} ShortestIs(lens: Lens)
    ensures forall i :: 0 <= i < |lens| && lens[i] > 0 ==> Shortest(lens) <= lens[i]
    ensures Shortest(lens) > 0 ==> Shortest(lens) in lens
    ensures Shortest(lens) == 0 <==> Longest(lens) == 0
  {
    if lens != [] {
      ShortestIs(lens[..|lens| - 1]);
      LongestIs(lens[..|lens| - 1]);
      assert lens == lens[..|lens| - 1] + [lens[|lens| - 1]];
    }
  }

  /** Neither does a codeword start w nor w a codeword. */
  ghost predicate Unclaimed(lens: Lens, w: seq<bool>)
  {
    forall s :: 0 <= s < |lens| && lens[s] > 0 ==> !(Codeword(lens, s) <= w) && !(w <= Codeword(lens, s))
  }

  /** What a table of fb bits is indexed with when k bits have been fetched: zeros stand for the missing ones. */
  function Index(bits: seq<bool>, k: nat, fb: nat): (w: seq<bool>)
    requires k <= |bits|
    ensures |w| == fb
  {
    if fb <= k then bits[..fb] else bits[..k] + Zeros(fb - k)
  }

  /** How many bits have been fetched, a byte at a time, once n are needed and k are there. */
  function Fetch(k: nat, n: nat): (r: nat)
    ensures r >= n && r >= k && (r == k || r < n + 8) && r % 8 == k % 8
    decreases if n > k then n - k else 0
  {
    if n <= k then k else Fetch(k + 8, n)
  }

  /**
   With k bits fetched, the search through a table of fb bits comes upon an unclaimed index.  Short
   codewords that are not there in full make it fetch more.
   */
  ghost predicate Strays(lens: Lens, fb: nat, bits: seq<bool>, k: nat)
    decreases if k < fb then fb - k else 0
  {
    k <= |bits| &&
    var w := Index(bits, k, fb);
    || Unclaimed(lens, w)
    || exists s: nat :: StartsWith(lens, s, w) && k < lens[s] <= fb && Strays(lens, fb, bits, Fetch(k, lens[s]))
  }

  /** The decoder's tables have no answer: there is no code at all, or the search strays. */
  ghost predicate Lost(lens: Lens, limit: nat, bits: seq<bool>)
  {
    var fb := Min(limit, Longest(lens));
    fb == 0 || Strays(lens, fb, bits, Fetch(|bits| % 8, Min(Shortest(lens), fb)))
  }

  // ----- decoding one symbol

  /**
   What reading gives: a value; a failure; or nothing that can be relied on, because the decoder uses
   table entries that were never set.
   */
  datatype Outcome<+T> = Yields(value: T) | Fails(why: Why) | Undefined

  /** The input ends; it cannot be what it claims to be; or the decoder fails without saying why. */
  datatype Why = NoInput | Corrupt | Internal

  /** The symbol whose codeword the bits start with, and the bits after it; limit is the size of the first table. */
  ghost function DecodeSym(lens: Lens, limit: nat, bits: seq<bool>): (r: Outcome<(nat, seq<bool>)>)
    ensures r.Yields? ==> r.value.0 < |lens| && |r.value.1| < |bits|
  {
    if exists s: nat :: StartsWith(lens, s, bits) then
      var s: nat :| StartsWith(lens, s, bits);
      Yields((s, bits[lens[s]..]))
    else if Lost(lens, limit, bits) then Undefined
    else Fails(NoneWhy(lens, bits))
  }

  /** Why there is no codeword: the search asks for as many bits as the longest has. */
  function NoneWhy(lens: Lens, bits: seq<bool>): Why
  {
    if |bits| < Longest(lens) then NoInput else Corrupt
  }

  lemma DecodeSound(lens: Lens, limit: nat, bits: seq<bool>)
    ensures var r := DecodeSym(lens, limit, bits);
            r.Yields? ==> StartsWith(lens, r.value.0, bits) && r.value.1 == bits[lens[r.value.0]..]
  {
    hide Lost;
  }

  lemma DecodeNone(lens: Lens, limit: nat, bits: seq<bool>)
    requires forall s: nat :: !StartsWith(lens, s, bits)
    ensures DecodeSym(lens, limit, bits) == if Lost(lens, limit, bits) then Undefined else Fails(NoneWhy(lens, bits))
  {
    hide Lost;
  }

  lemma DecodeUnique(lens: Lens, m: nat, limit: nat, s: nat, bits: seq<bool>)
    requires Fits(lens, m) && StartsWith(lens, s, bits)
    ensures DecodeSym(lens, limit, bits) == Yields((s, bits[lens[s]..]))
  {
    hide Lost, StartsWith;
    DecodeSound(lens, limit, bits);
    OneStarts(lens, m, s, DecodeSym(lens, limit, bits).value.0, bits);
  }

  lemma DecodeCodeword(lens: Lens, m: nat, limit: nat, s: nat, rest: seq<bool>)
    requires Fits(lens, m) && s < |lens| && lens[s] > 0
    ensures DecodeSym(lens, limit, Codeword(lens, s) + rest) == Yields((s, rest))
  {
    DecodeUnique(lens, m, limit, s, Codeword(lens, s) + rest);
    assert (Codeword(lens, s) + rest)[lens[s]..] == rest;
  }

  /** Without any codeword a table of its own has no answer. */
  lemma NothingCoded(lens: Lens, limit: nat, bits: seq<bool>)
    requires Longest(lens) == 0
    ensures DecodeSym(lens, limit, bits).Undefined?
  {
    LongestIs(lens);
  }

  // ----- complete codes

  /** Every string of m bits starts with a codeword. */
  ghost predicate Complete(lens: Lens, m: nat)
  {
    Fits(lens, m) && End(lens, m) == Pow2(m) && m > 0
  }

  /** In a complete code nothing is unclaimed. */
  lemma CompleteClaims(lens: Lens, m: nat, w: seq<bool>)
    requires Complete(lens, m) && |w| <= m
    ensures !Unclaimed(lens, w)
  {
    var z := w + Zeros(m - |w|);
    MsbMsbVal(z);
    var s := BelowEnd(lens, m, z);
    if lens[s] <= |w| {
      assert Codeword(lens, s) == z[..lens[s]] == w[..lens[s]];
    } else {
      assert w == z[..|w|] == Codeword(lens, s)[..|w|];
    }
  }

  lemma {:induction false} CompleteStays(lens: Lens, m: nat, fb: nat, bits: seq<bool>, k: nat)
    requires Complete(lens, m) && fb <= m
    ensures !Strays(lens, fb, bits, k)
    decreases if k < fb then fb - k else 0
  {
    hide Complete, Unclaimed, Fetch, Codeword;
    if k <= |bits| {
      var w := Index(bits, k, fb);
      CompleteClaims(lens, m, w);
      forall s: nat | s < |lens| && StartsWith(lens, s, w) && k < lens[s] <= fb
        ensures !Strays(lens, fb, bits, Fetch(k, lens[s]))
      {
        CompleteStays(lens, m, fb, bits, Fetch(k, lens[s]));
      }
    }
  }

  /** Decoding with a complete code always has an answer. */
  lemma CompleteAnswers(lens: Lens, m: nat, limit: nat, bits: seq<bool>)
    requires Complete(lens, m) && 0 < limit
    ensures !DecodeSym(lens, limit, bits).Undefined?
  {
    hide Strays, StartsWith, Fits;
    LongestIs(lens);
    var n := Longest(lens);
    assert n <= m by {
      assert Fits(lens, m);
      FitsLens(lens, m);
    }
    if n == 0 {
      NoCodewords(lens, m);
    }
    CompleteStays(lens, m, Min(limit, n), bits, Fetch(|bits| % 8, Min(Shortest(lens), Min(limit, n))));
  }

  lemma FitsLens(lens: Lens, m: nat)
    requires Fits(lens, m)
    ensures forall i :: 0 <= i < |lens| ==> lens[i] <= m
  {
  }

  lemma {:induction false} NoCodewords(lens: Lens, b: nat)
    requires forall i :: 0 <= i < |lens| ==> lens[i] == 0
    ensures End(lens, b) == 0
  {
    if b > 0 {
      CountNone(lens, b);
      NoCodewords(lens, b - 1);
    }
  }

  /** A lone codeword of one bit, as the encoder makes for a single symbol, leaves the other bit unclaimed. */
  lemma LoneStrays(limit: nat, rest: seq<bool>)
    requires limit > 0
    ensures DecodeSym([1], limit, [true] + rest).Undefined?
  {
    var lens, bits: seq<bool> := [1], [true] + rest;
    assert Codeword(lens, 0) == [false] by {
      assert lens[..0] == [];
    }
    assert Longest(lens) == 1 && Shortest(lens) == 1 by {
      assert lens[..0] == [];
    }
    forall s: nat
      ensures !StartsWith(lens, s, bits)
    {
    }
    var k := Fetch(|bits| % 8, 1);
    FetchFits(|bits|, 1);
    assert Index(bits, k, 1) == [true];
    assert Unclaimed(lens, [true]);
    assert Strays(lens, 1, bits, k);
  }

  /** Whole bytes are fetched, so what is needed and there is fetched in full. */
  lemma FetchFits(n: nat, need: nat)
    requires need <= n && need <= 8
    ensures Fetch(n % 8, need) <= n
  {
  }

  lemma {:induction false} CountConst(n: nat, v: nat, b: nat)
    ensures Count(seq(n, _ => v), b) == if v == b then n else 0
  {
    if n > 0 {
      assert seq(n, _ => v)[..n - 1] == seq(n - 1, _ => v);
      CountConst(n - 1, v, b);
    }
  }

  // ----- the bound on lengths

  /** Beyond the longest codeword nothing more can be oversubscribed. */
  lemma FitsAbove(lens: Lens, m: nat, n: nat)
    requires m <= n && forall i :: 0 <= i < |lens| ==> lens[i] <= m
    ensures Fits(lens, m) <==> Fits(lens, n)
  {
    if Fits(lens, m) {
      for b := m to n
        invariant forall c :: 0 <= c <= b ==> FitsAt(lens, c)
      {
        CountNone(lens, b + 1);
        assert FitsAt(lens, b) ==> FitsAt(lens, b + 1);
      }
    }
  }

  // ----- unused symbols

  /** Counts, hence codewords, ignore trailing symbols without a codeword. */
  lemma {:induction false} TrailingZeros(lens: Lens, n: nat, b: nat)
    requires n <= |lens| && forall i :: n <= i < |lens| ==> lens[i] == 0
    ensures First(lens[..n], b) == First(lens, b)
    ensures End(lens[..n], b) == End(lens, b)
  {
    assert lens == lens[..n] + lens[n..];
    CountConcat(lens[..n], lens[n..], b);
    if b > 0 {
      CountNone(lens[n..], b);
      TrailingZeros(lens, n, b - 1);
    }
  }

  lemma TrimmedCodeword(lens: Lens, n: nat, s: nat)
    requires s < n <= |lens| && forall i :: n <= i < |lens| ==> lens[i] == 0
    ensures Codeword(lens[..n], s) == Codeword(lens, s)
  {
    TrailingZeros(lens, n, lens[s]);
    assert lens[..n][..s] == lens[..s];
  }

  lemma TrimmedFits(lens: Lens, n: nat, m: nat)
    requires Fits(lens, m)
    requires n <= |lens| && forall i :: n <= i < |lens| ==> lens[i] == 0
    ensures Fits(lens[..n], m)
  {
    forall b | 0 <= b <= m
      ensures FitsAt(lens[..n], b)
    {
      TrailingZeros(lens, n, b);
      assert FitsAt(lens, b);
    }
  }
}
