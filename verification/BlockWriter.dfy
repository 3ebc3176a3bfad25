/** Writing the packed parse of a block through a pair of Huffman tables. */
module BlockWriter {
  import opened Bits
  import opened Canonical
  import opened Tokens
  import opened Parse
  import opened Ring
  import opened HuffEncoder
  import opened LzBlock
  import opened BitWriter
  import opened DynCode

  /** Tables for a pair of codes whose lengths a 16-bit write can take. */
  ghost predicate Coding(littab: seq<Entry>, offtab: seq<Entry>, lit: Lens, off: Lens)
  {
    && EncTable(littab, lit) && EncTable(offtab, off)
    && (forall i :: 0 <= i < |lit| ==> lit[i] <= 16) && (forall i :: 0 <= i < |off| ==> off[i] <= 16)
  }

  lemma SlotMoves(a: nat, b: nat, k: nat)
    requires Slot(a) == Slot(b)
    ensures Slot(a + k) == Slot(b + k)
  {
    var r := Slot(a);
    var q := (r + k) / HIST_BLOCK;
    SlotIs(a + k, r + k - q * HIST_BLOCK, a / HIST_BLOCK + q);
    SlotIs(b + k, r + k - q * HIST_BLOCK, b / HIST_BLOCK + q);
  }

  lemma LitsHead(s: seq<byte>, p: nat, r: nat)
    requires 0 < r && p + r <= |s|
    ensures Lits(s, p, r)[0] == Lit(s[p]) && Lits(s, p, r)[1..] == Lits(s, p + 1, r - 1)
  {
  }

  lemma BitsHead(lit: Lens, off: Lens, ts: seq<Token>)
    requires AllEncodable(lit, off, ts) && ts != []
    ensures AllEncodable(lit, off, ts[1..]) && Encodable(lit, off, ts[0])
    ensures TokensBits(lit, off, ts) == TokenBits(lit, off, ts[0]) + TokensBits(lit, off, ts[1..])
  {
  }

  lemma LitFacts(lit: Lens, off: Lens, b: byte)
    requires Encodable(lit, off, Lit(b))
    ensures b < |lit| && lit[b] > 0 && TokenBits(lit, off, Lit(b)) == Codeword(lit, b)
  {
  }

  lemma RingByte(hist: seq<byte>, s: seq<byte>, lo: nat, litoff: nat, p: nat)
    requires Holds(hist, s, lo) && lo <= p < |s| && Slot(litoff) == Slot(p)
    ensures litoff % HIST_BLOCK < |hist| && hist[litoff % HIST_BLOCK] == s[p]
  {
  }

  method PutRun(out: Out, hist: array<byte>, litoff0: nat, run: nat, littab: seq<Entry>, ghost offtab: seq<Entry>,
                ghost s: seq<byte>, ghost lo: nat, ghost p: nat, ghost lit: Lens, ghost off: Lens) returns (litoff: nat)
    requires out.Valid() && Holds(hist[..], s, lo) && lo <= p && p + run <= |s| && Slot(litoff0) == Slot(p)
    requires Coding(littab, offtab, lit, off) && AllEncodable(lit, off, Lits(s, p, run)) && out.obuf != hist
    modifies out, out.obuf
    ensures out.Valid() && out.Written() == old(out.Written()) + TokensBits(lit, off, Lits(s, p, run))
            && litoff == litoff0 + run
  {
    hide Holds, Slot, EncTable, AllEncodable, Encodable, TokensBits, TokenBits, Lits, ByteBits, ToBits, Codeword,
         HIST_BLOCK;
    litoff := litoff0;
    ghost var w0, all := out.Written(), TokensBits(lit, off, Lits(s, p, run));
    for i := 0 to run
      invariant out.Valid() && litoff == litoff0 + i && Slot(litoff) == Slot(p + i)
      invariant AllEncodable(lit, off, Lits(s, p + i, run - i))
      invariant out.Written() + TokensBits(lit, off, Lits(s, p + i, run - i)) == w0 + all
    {
      ghost var ts := Lits(s, p + i, run - i);
      LitsHead(s, p + i, run - i);
      BitsHead(lit, off, ts);
      RingByte(hist[..], s, lo, litoff, p + i);
      var b := hist[litoff % HIST_BLOCK];
      LitFacts(lit, off, b);
      ghost var w := out.Written();
      assert w + (TokenBits(lit, off, ts[0]) + TokensBits(lit, off, ts[1..]))
        == w + TokenBits(lit, off, ts[0]) + TokensBits(lit, off, ts[1..]);
      PutCode(out, littab, b, lit);
      SlotMoves(litoff, p + i, 1);
      litoff := litoff + 1;
    }
    NoBits(lit, off, Lits(s, p + run, 0));
  }

  lemma NoBits(lit: Lens, off: Lens, ts: seq<Token>)
    requires ts == [] && AllEncodable(lit, off, ts)
    ensures TokensBits(lit, off, ts) == []
  {
  }

  method PutPair(out: Out, n: nat, o: nat, tables: MatchTables, littab: seq<Entry>, offtab: seq<Entry>, ghost lit: Lens,
                 ghost off: Lens)
    requires out.Valid() && tables.Valid() && n <= MAX_MATCH - MIN_MATCH && o < MAX_OFF
    requires Coding(littab, offtab, lit, off) && Encodable(lit, off, Match(n + MIN_MATCH, o + 1))
    modifies out, out.obuf
    ensures out.Valid() && out.Written() == old(out.Written()) + TokenBits(lit, off, Match(n + MIN_MATCH, o + 1))
  {
    hide ByteBits, ToBits, Codeword, Pow2, Span, LenBase, LenCode, OffCode, OffBase, EncTable;
    ghost var w0 := out.Written();
    var c := tables.lencode[n];
    PutCode(out, littab, c, lit);
    c := c - LEN_START;
    PutExtra(out, n - tables.lenbase[c], Extra(Lengths, c));
    var d := tables.OffCodeOf(o);
    PutCode(out, offtab, d, off);
    PutExtra(out, o - tables.offbase[d], Extra(Distances, d));
    ghost var w, x, y, z := Codeword(lit, LEN_START + c), ToBits(n + MIN_MATCH - LenBase(c), Extra(Lengths, c)),
                            Codeword(off, d), ToBits(o + 1 - OffBase(d), Extra(Distances, d));
    assert w0 + w + x + y + z == w0 + (w + x + y + z);
  }

  method PutExtra(out: Out, v: nat, e: nat)
    requires out.Valid() && e <= 13 && v < Pow2(e)
    modifies out, out.obuf
    ensures out.Valid() && out.Written() == old(out.Written()) + ToBits(v, e)
  {
    if e != 0 {
      out.LzPut(v, e);
    }
  }

  // ----- unpacking

  lemma Unpack(it: Item)
    requires ValidItem(it)
    ensures var w := PackItem(it);
            && w[0] % 8 == it.run && (|w| == 2 <==> w[0] / 8 % 2 == 1)
            && (|w| == 2 ==> it == Hit(it.run, w[0] / 16, w[1]))
            && (|w| == 1 && it.run == 0 ==> it == Hit(0, 0, w[0] / 16))
            && (|w| == 1 && it.run != 0 ==> it == Run(it.run))
  {
  }

  /** The first item and the rest of what is still to be written. */
  ghost predicate ToWrite(s: seq<byte>, p: nat, rest: seq<Item>, words: seq<nat>, lit: Lens, off: Lens)
  {
    && Sound(s, p, rest) && AllValid(rest) && words == Pack(rest)
    && AllEncodable(lit, off, AllTokens(s, p, rest))
  }

  ghost function BitsLeft(s: seq<byte>, p: nat, rest: seq<Item>, lit: Lens, off: Lens): seq<bool>
    requires Sound(s, p, rest) && AllEncodable(lit, off, AllTokens(s, p, rest))
  {
    TokensBits(lit, off, AllTokens(s, p, rest))
  }

  lemma SplitEncodable(lit: Lens, off: Lens, ts: seq<Token>, us: seq<Token>)
    requires AllEncodable(lit, off, ts + us)
    ensures AllEncodable(lit, off, ts) && AllEncodable(lit, off, us)
    ensures TokensBits(lit, off, ts + us) == TokensBits(lit, off, ts) + TokensBits(lit, off, us)
  {
    hide Encodable;
    forall i | 0 <= i < |ts|
      ensures Encodable(lit, off, ts[i])
    {
      assert (ts + us)[i] == ts[i];
    }
    forall i | 0 <= i < |us|
      ensures Encodable(lit, off, us[i])
    {
      assert (ts + us)[|ts| + i] == us[i];
    }
    TokensBitsAppend(lit, off, ts, us);
  }

  lemma NextItem(s: seq<byte>, p: nat, rest: seq<Item>, words: seq<nat>, lit: Lens, off: Lens)
    requires ToWrite(s, p, rest, words, lit, off) && words != []
    ensures rest != [] && SoundItem(s, p, rest[0])
    ensures var w := PackItem(rest[0]);
            w <= words && ToWrite(s, p + Size(rest[0]), rest[1..], words[|w|..], lit, off)
    ensures AllEncodable(lit, off, ItemTokens(s, p, rest[0]))
    ensures BitsLeft(s, p, rest, lit, off)
            == TokensBits(lit, off, ItemTokens(s, p, rest[0])) + BitsLeft(s, p + Size(rest[0]), rest[1..], lit, off)
  {
    hide ItemTokens, SoundItem, PackItem, AllEncodable, Encodable, TokensBits;
    SplitEncodable(lit, off, ItemTokens(s, p, rest[0]), AllTokens(s, p + Size(rest[0]), rest[1..]));
  }

  /** One item: its literals, then its match. */
  method PutItem(out: Out, hist: array<byte>, litoff0: nat, w0: nat, w1: nat, tables: MatchTables, littab: seq<Entry>,
                 offtab: seq<Entry>,
                 ghost s: seq<byte>, ghost lo: nat, ghost p: nat, ghost it: Item, ghost lit: Lens, ghost off: Lens)
    returns (litoff: nat, words: nat)
    requires out.Valid() && tables.Valid() && Holds(hist[..], s, lo) && lo <= p && Slot(litoff0) == Slot(p)
             && out.obuf != hist
    requires Coding(littab, offtab, lit, off) && SoundItem(s, p, it) && AllEncodable(lit, off, ItemTokens(s, p, it))
    requires w0 == PackItem(it)[0] && (|PackItem(it)| == 2 ==> w1 == PackItem(it)[1])
    modifies out, out.obuf
    ensures out.Valid() && out.Written() == old(out.Written()) + TokensBits(lit, off, ItemTokens(s, p, it))
    ensures words == |PackItem(it)| && litoff == litoff0 + Size(it)
  {
    hide Holds, Slot, EncTable, AllEncodable, Encodable, TokensBits, TokenBits, Lits, ByteBits, ToBits, PackItem,
         MatchTables.Valid, MatchAt;
    Unpack(it);
    ghost var before := out.Written();
    var run := w0 % 8;
    litoff := litoff0;
    words := 1;
    ItemBits(s, p, it, lit, off);
    litoff := PutRun(out, hist, litoff, run, littab, offtab, s, lo, p, lit, off);
    var n, o;
    if w0 / 8 % 2 == 1 {
      words, n, o := 2, w0 / 16, w1;
    } else if run != 0 {
      return;
    } else {
      n, o := 0, w0 / 16;
    }
    litoff := litoff + n + MIN_MATCH;
    PutPair(out, n, o, tables, littab, offtab, lit, off);
    ghost var x, y := TokensBits(lit, off, Lits(s, p, run)), TokenBits(lit, off, Match(n + MIN_MATCH, o + 1));
    assert before + x + y == before + (x + y);
  }

  /** The bits of an item. */
  lemma ItemBits(s: seq<byte>, p: nat, it: Item, lit: Lens, off: Lens)
    requires SoundItem(s, p, it) && AllEncodable(lit, off, ItemTokens(s, p, it))
    ensures AllEncodable(lit, off, Lits(s, p, it.run))
    ensures it.Run? ==> TokensBits(lit, off, ItemTokens(s, p, it)) == TokensBits(lit, off, Lits(s, p, it.run))
    ensures it.Hit? ==>
              && Encodable(lit, off, Match(it.n + MIN_MATCH, it.o + 1))
              && TokensBits(lit, off, ItemTokens(s, p, it))
                 == TokensBits(lit, off, Lits(s, p, it.run)) + TokenBits(lit, off, Match(it.n + MIN_MATCH, it.o + 1))
  {
    hide Encodable, TokenBits, Lits, AllEncodable, TokensBits;
    if it.Hit? {
      var t := Match(it.n + MIN_MATCH, it.o + 1);
      SplitEncodable(lit, off, Lits(s, p, it.run), [t]);
      BitsHead(lit, off, [t]);
      NoBits(lit, off, [t][1..]);
    }
  }

  /** Write the tokens that a packed parse stands for. */
  method WrBlock(out: Out, hist: array<byte>, litoff0: nat, parse: seq<nat>, tables: MatchTables, littab: seq<Entry>,
                 offtab: seq<Entry>,
                 ghost s: seq<byte>, ghost lo: nat, ghost start: nat, ghost items: seq<Item>, ghost lit: Lens,
                   ghost off: Lens)
    requires out.Valid() && tables.Valid() && Holds(hist[..], s, lo) && lo <= start && Slot(litoff0) == Slot(start)
             && out.obuf != hist
    requires Coding(littab, offtab, lit, off) && ToWrite(s, start, items, parse, lit, off)
    modifies out, out.obuf
    ensures out.Valid() && out.Written() == old(out.Written()) + TokensBits(lit, off, AllTokens(s, start, items))
  {
    hide Holds, Slot, Coding, Pack, TokensBits, AllTokens, Sound, AllValid, PackItem, MatchTables.Valid, BitsLeft,
         ByteBits, ToBits, AllEncodable, ItemTokens, SoundItem, Size;
    ghost var before, all, rest, p := out.Written(), BitsLeft(s, start, items, lit, off), items, start;
    var i, litoff := 0, litoff0;
    assert parse[0..] == parse;
    while i < |parse|
      invariant i <= |parse| && out.Valid() && lo <= p && Slot(litoff) == Slot(p)
                && ToWrite(s, p, rest, parse[i..], lit, off)
      invariant out.Written() + BitsLeft(s, p, rest, lit, off) == before + all
    {
      NextItem(s, p, rest, parse[i..], lit, off);
      ghost var it, w := rest[0], out.Written();
      ghost var x, y := TokensBits(lit, off, ItemTokens(s, p, it)), BitsLeft(s, p + Size(it), rest[1..], lit, off);
      assert w + (x + y) == w + x + y;
      var words;
      SlotMoves(litoff, p, Size(it));
      litoff, words := PutItem(out, hist, litoff, parse[i], if i + 1 < |parse| then parse[i + 1] else 0, tables, littab,
        offtab,
                               s, lo, p, it, lit, off);
      assert parse[i..][words..] == parse[i + words..];
      i, p, rest := i + words, p + Size(it), rest[1..];
    }
    NothingLeft(s, p, rest, parse[i..], lit, off);
    AllBits(s, start, items, lit, off);
  }

  lemma AllBits(s: seq<byte>, start: nat, items: seq<Item>, lit: Lens, off: Lens)
    requires Sound(s, start, items) && AllEncodable(lit, off, AllTokens(s, start, items))
    ensures BitsLeft(s, start, items, lit, off) == TokensBits(lit, off, AllTokens(s, start, items))
  {
  }

  lemma NothingLeft(s: seq<byte>, p: nat, rest: seq<Item>, words: seq<nat>, lit: Lens, off: Lens)
    requires ToWrite(s, p, rest, words, lit, off) && words == []
    ensures BitsLeft(s, p, rest, lit, off) == []
  {
  }
}
