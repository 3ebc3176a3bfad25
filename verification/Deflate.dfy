/** Choosing and writing the encoding of each block; the compressor. */
module Deflate {
  import opened Bits
  import opened RevTab
  import opened Canonical
  import opened Tokens
  import opened Format
  import opened BitReader
  import opened CodeLengths
  import opened HuffEncoder
  import opened DynHeader
  import opened DynCode
  import opened BitWriter
  import opened BlockFormat
  import opened Parse
  import opened Ring
  import opened LzBlock
  import opened Matcher
  import opened LzComp
  import opened Fill
  import opened BlockWriter
  import opened BlockCost
  import opened DeflateInit

  // ----- the parse is complete

  /** The items describe exactly the n bytes of s from start on; the ring still holds them. */
  ghost predicate Complete(lz: State, start: nat, n: nat, items: seq<Item>, words: seq<nat>)
    reads lz, lz.hist
  {
    && lz.hist.Length == HIST_SIZE && Holds(lz.hist[..], lz.s, Oldest(|lz.s|)) && Oldest(|lz.s|) <= start
      && start + n <= |lz.s|
    && Sound(lz.s, start, items) && AllValid(items) && words == Pack(items) && Total(items) == n
  }

  /** Flush the pending literals to the parse. */
  method FinishParse(b: Block, ghost s: seq<byte>, ghost start: nat) returns (ghost items: seq<Item>)
    requires b.Valid(s, start)
    modifies b`np, b.parse
    ensures b.np <= b.parse.Length && Sound(s, start, items) && AllValid(items) && b.parse[..b.np] == Pack(items)
    ensures Total(items) == old(b.Used()) && AllTokens(s, start, items) == ParseTokens(s, start, b.items, b.lastv)
  {
    hide Sound, AllValid, Pack, Counts, AllTokens, Lits, Total;
    items := b.items;
    ghost var was := b.parse[..b.np];
    if b.lastv != 0 {
      ghost var it := Run(b.lastv);
      SoundSnoc(s, start, items, it);
      PackSnoc(items, it);
      TokensSnoc(s, start, items, it);
      b.parse[b.np] := b.lastv;
      b.np := b.np + 1;
      items := items + [it];
      assert b.parse[..b.np] == was + [b.lastv];
    } else {
      NoLits(s, start + Total(items), AllTokens(s, start, items));
    }
  }

  // ----- every counted symbol can be written

  lemma {:induction false} PlayableLegal(out: seq<byte>, ts: seq<Token>, i: nat)
    requires Playable(out, ts) && i < |ts|
    ensures Legal(ts[i])
    decreases |ts|
  {
    hide Copy;
    if i > 0 {
      PlayableLegal(Play(out, ts[0]), ts[1..], i - 1);
    }
  }

  lemma CountedEncodable(out: seq<byte>, toks: seq<Token>, lc: seq<nat>, oc: seq<nat>, lit: Lens, off: Lens)
    requires Playable(out, toks) && Counts(toks, lc, oc) && |lit| == N_LITLEN && |off| == N_OFF
    requires forall i :: 0 <= i < N_LITLEN && lc[i] > 0 ==> lit[i] > 0
    requires forall i :: 0 <= i < N_OFF && oc[i] > 0 ==> off[i] > 0
    ensures AllEncodable(lit, off, toks) && HasEob(lit)
  {
    hide LitCount, OffCount, LenCode, OffCode, Playable;
    forall i | 0 <= i < |toks|
      ensures Encodable(lit, off, toks[i])
    {
      PlayableLegal(out, toks, i);
      Counted(toks, i);
      assert lc[LitOf(toks[i])] > 0;
      if toks[i].Match? {
        assert oc[OffOf(toks[i])] > 0;
      }
    }
  }

  // ----- headers

  lemma OneBit(b: bool)
    ensures ToBits(if b then 1 else 0, 1) == [b]
  {
    assert ToBits(if b then 1 else 0, 1) == [b] + ToBits(0, 0);
  }

  method PutKind(out: Out, final: bool, kind: nat)
    requires out.Valid() && kind < 4
    modifies out, out.obuf
    ensures out.Valid() && out.Written() == old(out.Written()) + ([final] + ToBits(kind, 2))
  {
    hide ByteBits, ToBits;
    ghost var w := out.Written();
    Pow2Small();
    OneBit(final);
    out.LzPut(if final then 1 else 0, 1);
    out.LzPut(kind, 2);
    assert w + [final] + ToBits(kind, 2) == w + ([final] + ToBits(kind, 2));
  }

  /** What has been added to the output is one block. */
  ghost predicate Appended(w: seq<bool>, w': seq<bool>, out: seq<byte>, final: bool, out': seq<byte>)
  {
    w <= w' && IsBlock(|w|, w'[|w|..], out, final, out')
  }

  lemma AppendedBy(w: seq<bool>, x: seq<bool>, w': seq<bool>, out: seq<byte>, final: bool, out': seq<byte>)
    requires w' == w + x && IsBlock(|w|, x, out, final, out')
    ensures Appended(w, w', out, final, out')
  {
    hide IsBlock;
    assert w'[|w|..] == x;
  }

  // ----- compressed blocks

  /** The tokens of a parse and the end-of-block mark. */
  method PutBody(out: Out, lz: State, slop: nat, words: seq<nat>, m: MatchTables, littab: seq<Entry>,
                 offtab: seq<Entry>,
                 ghost start: nat, ghost n: nat, ghost items: seq<Item>, ghost lit: Lens, ghost off: Lens)
    requires out.Valid() && m.Valid() && out.obuf != lz.hist && Complete(lz, start, n, items, words)
             && slop == Slot(start)
    requires Coding(littab, offtab, lit, off) && AllEncodable(lit, off, AllTokens(lz.s, start, items)) && HasEob(lit)
    modifies out, out.obuf
    ensures out.Valid() && out.Written() == old(out.Written()) + BodyBits(lit, off, AllTokens(lz.s, start, items))
  {
    hide Holds, Slot, Sound, AllValid, Pack, AllEncodable, AllTokens, TokensBits, Codeword, EncTable, MatchTables.Valid,
         ByteBits, ToBits, Total;
    ghost var w := out.Written();
    SlotSlot(start);
    WrBlock(out, lz.hist, slop, words, m, littab, offtab, lz.s, Oldest(|lz.s|), start, items, lit, off);
    PutCode(out, littab, EOB, lit);
    ghost var x, y := TokensBits(lit, off, AllTokens(lz.s, start, items)), Codeword(lit, EOB);
    assert w + x + y == w + (x + y);
  }

  lemma SlotSlot(a: nat)
    ensures Slot(Slot(a)) == Slot(a)
  {
  }

  /** The tokens of a complete parse replay to the block's bytes. */
  lemma CompleteReplay(lz: State, start: nat, n: nat, items: seq<Item>, words: seq<nat>)
    requires Complete(lz, start, n, items, words)
    ensures Playable(lz.s[..start], AllTokens(lz.s, start, items))
    ensures Replay(lz.s[..start], AllTokens(lz.s, start, items)) == lz.s[..start + n]
  {
    hide Holds, Sound, Playable, Replay, AllTokens, Pack, AllValid;
    ParseReplay(lz.s, start, items);
  }

  method WriteFixed(out: Out, lz: State, final: bool, slop: nat, words: seq<nat>, t: Tables,
                    ghost start: nat, ghost n: nat, ghost items: seq<Item>)
    requires out.Valid() && t.Valid() && out.obuf != lz.hist && Complete(lz, start, n, items, words)
             && slop == Slot(start)
    modifies out, out.obuf
    ensures out.Valid() && Appended(old(out.Written()), out.Written(), lz.s[..start], final, lz.s[..start + n])
    ensures |out.Written()| == |old(out.Written())| + 3
                               + BodyLen(FixedLit(), Const(30, 5), AllTokens(lz.s, start, items))
  {
    hide Complete, MatchTables.Valid, EncTable, ByteBits, ToBits, FixedLit, Const, Appended, IsBlock, BodyBits,
         AllTokens, Table, Sound, AllEncodable, Slot, IsRevTab, Playable, Replay;
    ghost var w, lit, off := out.Written(), FixedLit(), Const(30, 5);
    CompleteSound(lz, start, n, items, words);
    CompleteReplay(lz, start, n, items, words);
    ghost var toks := AllTokens(lz.s, start, items);
    FixedEncodable(lz.s[..start], toks);
    FixedCoding(t.litlentab, t.offtab);
    FixedBlock(|w|, final, toks, lz.s[..start]);
    PutKind(out, final, 1);
    PutBody(out, lz, slop, words, t.m, t.litlentab, t.offtab, start, n, items, lit, off);
    ghost var x, y := [final] + ToBits(1, 2), BodyBits(lit, off, toks);
    assert w + x + y == w + (x + y);
    AppendedBy(w, x + y, out.Written(), lz.s[..start], final, lz.s[..start + n]);
  }

  lemma CompleteSound(lz: State, start: nat, n: nat, items: seq<Item>, words: seq<nat>)
    requires Complete(lz, start, n, items, words)
    ensures Sound(lz.s, start, items) && start + n <= |lz.s| && lz.hist.Length == HIST_SIZE
  {
  }

  lemma FixedCoding(littab: seq<Entry>, offtab: seq<Entry>)
    requires EncTable(littab, FixedLit()) && EncTable(offtab, Const(30, 5))
    ensures Coding(littab, offtab, FixedLit(), Const(30, 5))
  {
    hide EncTable;
  }

  lemma FixedEncodable(out: seq<byte>, toks: seq<Token>)
    requires Playable(out, toks)
    ensures AllEncodable(FixedLit(), Const(30, 5), toks) && HasEob(FixedLit())
  {
    hide LenCode, OffCode, Playable;
    forall i | 0 <= i < |toks|
      ensures Encodable(FixedLit(), Const(30, 5), toks[i])
    {
      PlayableLegal(out, toks, i);
    }
  }

  /** A described pair of codes that can write the tokens, at a cost of one too many for each repeat of a length. */
  ghost predicate Planned(dc: Dyncode, littab: seq<Entry>, offtab: seq<Entry>, toks: seq<Token>, cost: nat)
    reads dc, dc.codes, dc.codeaux, dc.codetab
  {
    var lit, off := LensOf(littab), LensOf(offtab);
    && Table(littab, N_LITLEN) && Table(offtab, N_OFF) && dc.Describes(lit, off)
    && AllEncodable(lit, off, toks) && HasEob(lit)
    && cost == |dc.Bits(lit, off)| + dc.Repeats() + BodyLen(lit, off, toks)
  }

  method WriteDynamic(out: Out, lz: State, final: bool, slop: nat, words: seq<nat>, m: MatchTables, dc: Dyncode,
                      littab: seq<Entry>, offtab: seq<Entry>,
                      ghost start: nat, ghost n: nat, ghost items: seq<Item>, ghost cost: nat)
    requires out.Valid() && m.Valid() && out.obuf != lz.hist && Complete(lz, start, n, items, words)
             && slop == Slot(start)
    requires Planned(dc, littab, offtab, AllTokens(lz.s, start, items), cost)
    modifies out, out.obuf
    ensures out.Valid() && Appended(old(out.Written()), out.Written(), lz.s[..start], final, lz.s[..start + n])
    ensures |out.Written()| + old(dc.Repeats()) == |old(out.Written())| + 3 + cost
  {
    hide Complete, MatchTables.Valid, EncTable, ByteBits, ToBits, Appended, IsBlock, BodyBits, AllTokens, Sound,
         AllEncodable, Slot, Playable, Replay, HasEob, HeaderFor, HeaderBits, Fits, LensOf;
    ghost var w, lit, off := out.Written(), LensOf(littab), LensOf(offtab);
    CompleteSound(lz, start, n, items, words);
    CompleteReplay(lz, start, n, items, words);
    ghost var toks := AllTokens(lz.s, start, items);
    TableCoding(littab, offtab);
    ghost var h := dc.Bits(lit, off);
    DynamicBlock(|w|, final, dc.nlit, dc.noff, dc.nclen, LensOf(dc.codetab[..]), dc.codes[..dc.ncode],
      dc.codeaux[..dc.ncode],
                 lit, off, toks, lz.s[..start]);
    PutKind(out, final, 2);
    WrDynCode(out, dc, lit, off);
    PutBody(out, lz, slop, words, m, littab, offtab, start, n, items, lit, off);
    ghost var x, y := [final] + ToBits(2, 2), BodyBits(lit, off, toks);
    assert w + x + h + y == w + (x + (h + y));
    AppendedBy(w, x + (h + y), out.Written(), lz.s[..start], final, lz.s[..start + n]);
  }

  lemma TableCoding(littab: seq<Entry>, offtab: seq<Entry>)
    requires Table(littab, N_LITLEN) && Table(offtab, N_OFF)
    ensures Coding(littab, offtab, LensOf(littab), LensOf(offtab))
  {
    hide EncTable, FitsAt;
  }

  // ----- the block's bytes in the ring

  /** Index of byte i of a block at slop, of which the first nslop do not wrap. */
  function SlopIndex(slop: nat, nslop: nat, i: nat): int
  {
    if i < nslop then slop + i else HIST_SLOP - nslop + i
  }

  /** How many of n bytes can be read without wrapping. */
  function Unwrapped(slop: nat, n: nat): (nslop: nat)
    requires slop < HIST_BLOCK
    ensures nslop <= n
  {
    if n > HIST_SIZE - slop then HIST_SIZE - slop else n
  }

  lemma SlopByte(lz: State, start: nat, n: nat, items: seq<Item>, words: seq<nat>, i: nat)
    requires Complete(lz, start, n, items, words) && i < n <= 65535
    ensures var k := SlopIndex(Slot(start), Unwrapped(Slot(start), n), i);
            0 <= k < HIST_SIZE && lz.hist[k] == lz.s[start + i]
  {
    hide Holds, Sound, AllValid, Pack, Total;
    var slop := Slot(start);
    if i < Unwrapped(slop, n) {
      MoveOn(slop, start, i);
      ReadsStream(lz.hist[..], lz.s, Oldest(|lz.s|), slop + i, start + i);
    } else {
      SlotIs(start + i, slop + i - HIST_BLOCK, start / HIST_BLOCK + 1);
      ReadsStream(lz.hist[..], lz.s, Oldest(|lz.s|), slop + i - HIST_BLOCK, start + i);
    }
  }

  /** Count the block's bytes as literals. */
  method CountBytes(lz: State, slop: nat, nunc: nat, ghost start: nat, ghost items: seq<Item>,
                    ghost words: seq<nat>) returns (litcount: seq<nat>)
    requires Complete(lz, start, nunc, items, words) && slop == Slot(start) && nunc <= 65535
    ensures Counts(Lits(lz.s, start, nunc), litcount, Const(N_OFF, 0))
  {
    hide Complete, Counts, Slot, SlopIndex, Unwrapped, Lits;
    CompleteSound(lz, start, nunc, items, words);
    var nslop := Unwrapped(slop, nunc);
    litcount := Const(N_LITLEN, 0)[EOB := 1];
    NoneCounted(lz.s, start, litcount);
    for i := 0 to nunc
      invariant Counts(Lits(lz.s, start, i), litcount, Const(N_OFF, 0))
    {
      SlopByte(lz, start, nunc, items, words, i);
      var c := lz.hist[SlopIndex(slop, nslop, i)];
      LitsSnoc(lz.s, start, i);
      CountsSize(Lits(lz.s, start, i), litcount, Const(N_OFF, 0));
      CountLit(Lits(lz.s, start, i), c, litcount, Const(N_OFF, 0));
      litcount := litcount[c := litcount[c] + 1];
    }
  }

  lemma CountsSize(toks: seq<Token>, lc: seq<nat>, oc: seq<nat>)
    requires Counts(toks, lc, oc)
    ensures |lc| == N_LITLEN && |oc| == N_OFF && lc[EOB] > 0
  {
  }

  lemma NoneCounted(s: seq<byte>, start: nat, lc: seq<nat>)
    requires start <= |s| && lc == Const(N_LITLEN, 0)[EOB := 1]
    ensures Counts(Lits(s, start, 0), lc, Const(N_OFF, 0))
  {
    assert Lits(s, start, 0) == [];
  }

  // ----- stored blocks

  method WriteStored(out: Out, lz: State, final: bool, slop: nat, nunc: nat, ghost start: nat, ghost items: seq<Item>,
                     ghost words: seq<nat>)
    requires out.Valid() && out.obuf != lz.hist && Complete(lz, start, nunc, items, words) && slop == Slot(start)
             && nunc <= 65535
    modifies out, out.obuf
    ensures out.Valid() && Appended(old(out.Written()), out.Written(), lz.s[..start], final, lz.s[..start + nunc])
    ensures |out.Written()| <= |old(out.Written())| + 10 + 8 * (nunc + 4)
  {
    hide Complete, ByteBits, ToBits, Zeros, IsBlock, Appended, StoredSizes, Slot, Padding;
    CompleteSound(lz, start, nunc, items, words);
    ghost var w := out.Written();
    StoredAppend(w, final, lz.s, start, nunc);
    PutKind(out, final, 0);
    PadAs(|w|, out.nbits, |out.Written()|);
    out.LzFlushBits();
    PutSizes4(out, nunc);
    WriteBytes(out, lz, slop, nunc, start, items, words);
  }

  lemma StoredAppend(w: seq<bool>, final: bool, s: seq<byte>, start: nat, n: nat)
    requires start + n <= |s| && n <= 65535
    ensures Appended(w, w + ([final] + ToBits(0, 2)) + Zeros(Padding(|w| + 3)) + ByteBits(StoredSizes(n))
            + ByteBits(s[start..start + n]),
                     s[..start], final, s[..start + n])
  {
    hide ByteBits, ToBits, Zeros, IsBlock, Appended, StoredSizes, Padding;
    var body := s[start..start + n];
    StoredBlock(|w|, final, body, s[..start]);
    assert s[..start] + body == s[..start + n];
    var h, z, k, b := [final] + ToBits(0, 2), Zeros(Padding(|w| + 3)), ByteBits(StoredSizes(n)), ByteBits(body);
    assert w + h + z + k + b == w + (h + (z + k + b));
    AppendedBy(w, h + (z + k + b), w + h + z + k + b, s[..start], final, s[..start + n]);
  }

  lemma PadAs(n: nat, nbits: nat, m: nat)
    requires m == n + 3 && nbits == m % 8
    ensures (8 - nbits) % 8 == Padding(n + 3)
  {
  }

  method PutSizes4(out: Out, n: nat)
    requires out.Valid() && out.nbits == 0 && n <= 65535
    modifies out, out.obuf
    ensures out.Valid() && out.nbits == 0 && out.out == 0
    ensures out.Written() == old(out.Written()) + ByteBits(StoredSizes(n))
  {
    hide ByteBits, ToBits, Pow2, StoredSizes;
    ghost var w, h := out.Written(), StoredSizes(n);
    SizesAre(n);
    Pow2Small();
    out.LzPut(n % 256, 8);
    out.LzPut(n / 256 % 256, 8);
    out.LzPut((65535 - n) % 256, 8);
    out.LzPut((65535 - n) / 256 % 256, 8);
    FourBytes(h);
    ghost var a, b, c, d := ToBits(h[0], 8), ToBits(h[1], 8), ToBits(h[2], 8), ToBits(h[3], 8);
    assert w + a + b + c + d == w + (a + b + c + d);
    out.LzFlush();
  }

  lemma SizesAre(n: nat)
    requires n <= 65535
    ensures StoredSizes(n) == [n % 256, n / 256 % 256, (65535 - n) % 256, (65535 - n) / 256 % 256]
  {
  }

  lemma FourBytes(h: seq<byte>)
    requires |h| == 4
    ensures ByteBits(h) == ToBits(h[0], 8) + ToBits(h[1], 8) + ToBits(h[2], 8) + ToBits(h[3], 8)
  {
    hide ByteBits, ToBits;
    assert h == [h[0]] + [h[1]] + [h[2]] + [h[3]];
    ByteBitsConcat([h[0]] + [h[1]] + [h[2]], [h[3]]);
    ByteBitsConcat([h[0]] + [h[1]], [h[2]]);
    ByteBitsConcat([h[0]], [h[1]]);
    ByteBitsSingle(h[0]);
    ByteBitsSingle(h[1]);
    ByteBitsSingle(h[2]);
    ByteBitsSingle(h[3]);
  }

  /** The block's bytes as they are, in up to two pieces. */
  method WriteBytes(out: Out, lz: State, slop: nat, nunc: nat, ghost start: nat, ghost items: seq<Item>,
                    ghost words: seq<nat>)
    requires out.Valid() && out.nbits == 0 && out.out == 0 && out.obuf != lz.hist
    requires Complete(lz, start, nunc, items, words) && slop == Slot(start) && nunc <= 65535
    modifies out
    ensures out.Valid() && out.Written() == old(out.Written()) + ByteBits(lz.s[start..start + nunc])
  {
    hide ByteBits, ToBits, Sound, AllValid, Pack, Holds, Slot;
    ghost var w := out.Written();
    var nslop := Unwrapped(slop, nunc);
    var a := lz.hist[slop..slop + nslop];
    var b := lz.hist[HIST_SLOP..HIST_SLOP + (nunc - nslop)];
    forall i | 0 <= i < nunc
      ensures (a + b)[i] == lz.s[start + i]
    {
      SlopByte(lz, start, nunc, items, words, i);
    }
    assert a + b == lz.s[start..start + nunc];
    ByteBitsConcat(a, b);
    out.LzWrite(a);
    out.LzWrite(b);
    assert w + ByteBits(a) + ByteBits(b) == w + (ByteBits(a) + ByteBits(b));
  }

  // ----- literal-only blocks

  /** Runs of seven literals and what is left. */
  function Runs(n: nat): (items: seq<Item>)
    requires n > 0
    ensures forall i :: 0 <= i < |items| ==> ValidItem(items[i])
  {
    if n <= MAX_LIT_RUN then [Run(n)] else [Run(MAX_LIT_RUN)] + Runs(n - MAX_LIT_RUN)
  }

  lemma LitsSplit(s: seq<byte>, p: nat, a: nat, b: nat)
    requires p + a + b <= |s|
    ensures Lits(s, p, a) + Lits(s, p + a, b) == Lits(s, p, a + b)
  {
  }

  lemma {:induction false} RunsSound(s: seq<byte>, start: nat, n: nat)
    requires n > 0 && start + n <= |s|
    ensures Sound(s, start, Runs(n)) && Total(Runs(n)) == n && AllTokens(s, start, Runs(n)) == Lits(s, start, n)
    decreases n
  {
    hide Lits, MatchAt, Total;
    var items := Runs(n);
    TotalCons(items);
    if n <= MAX_LIT_RUN {
      assert items[1..] == [];
      NoItems();
      assert Lits(s, start, n) + [] == Lits(s, start, n);
    } else {
      assert items[1..] == Runs(n - MAX_LIT_RUN);
      RunsSound(s, start + MAX_LIT_RUN, n - MAX_LIT_RUN);
      LitsSplit(s, start, MAX_LIT_RUN, n - MAX_LIT_RUN);
    }
  }

  lemma NoItems()
    ensures Total([]) == 0
  {
  }

  lemma RunsPack(n: nat)
    requires n > 0
    ensures Pack(Runs(n)) == if n <= MAX_LIT_RUN then [n] else [MAX_LIT_RUN] + Pack(Runs(n - MAX_LIT_RUN))
  {
    if n <= MAX_LIT_RUN {
      assert Runs(n)[1..] == [];
    } else {
      assert Runs(n)[1..] == Runs(n - MAX_LIT_RUN);
    }
  }

  method AddWord(parse: array<nat>, m: nat, v: nat, ghost more: seq<nat>)
    requires m < parse.Length
    modifies parse
    ensures parse[..m + 1] + more == old(parse[..m]) + ([v] + more)
  {
    ghost var p := parse[..m];
    parse[m] := v;
    assert parse[..m + 1] == p + [v];
  }

  /** Replace the parse by runs of literals. */
  method LitParse(parse: array<nat>, nunc: nat) returns (m: nat)
    requires 0 < nunc <= 65535 && parse.Length == MAX_PARSE
    modifies parse
    ensures m <= parse.Length && parse[..m] == Pack(Runs(nunc))
  {
    hide Pack, Runs, ValidItem;
    m := 0;
    var i := nunc;
    ghost var all := Pack(Runs(nunc));
    while i > MAX_LIT_RUN
      invariant 0 < i && 7 * m + i == nunc && m < parse.Length && parse[..m] + Pack(Runs(i)) == all
    {
      RunsPack(i);
      AddWord(parse, m, MAX_LIT_RUN, Pack(Runs(i - MAX_LIT_RUN)));
      m := m + 1;
      i := i - MAX_LIT_RUN;
    }
    RunsPack(i);
    AddWord(parse, m, i, []);
    m := m + 1;
    assert parse[..m] + [] == parse[..m] && [i] + [] == [i];
  }

  // ----- choosing an encoding

  /** A code for the counts that mkgzprecode makes; it never fails. */
  method MkTable(revtab: seq<byte>, count: seq<nat>) returns (tab: seq<Entry>)
    requires IsRevTab(revtab) && 0 < |count| <= N_LITLEN
    ensures Table(tab, |count|) && GzCode(count, LensOf(tab), MAX_HUFF_BITS - 1)
  {
    hide IsRevTab, EncTable, Fits, Codeword, BestCode;
    var a := new Entry[|count|](_ => Entry(0, 0));
    Pow2Small();
    UsedFew(count, |count|);
    var ok := MkGzPrecode(a, revtab, count, MAX_HUFF_BITS);
    tab := a[..];
  }

  lemma {:induction false} EmptyItems(s: seq<byte>, start: nat, items: seq<Item>)
    requires Sound(s, start, items) && Total(items) == 0
    ensures items == []
  {
    if items != [] {
      TotalCons(items);
    }
  }

  lemma EncLens(tab: seq<Entry>, l: Lens)
    requires EncTable(tab, l)
    ensures LensOf(tab) == l && |tab| == |l|
  {
    SameLens(tab, l);
  }

  /** What the block takes in the fixed codes. */
  method FixedCost(t: Tables, lc: seq<nat>, oc: seq<nat>, excost: nat, ghost toks: seq<Token>,
                   ghost out: seq<byte>) returns (nfix: nat)
    requires t.Valid() && Counts(toks, lc, oc) && excost == ExtraCost(toks) && Playable(out, toks)
    ensures nfix == BodyLen(FixedLit(), Const(30, 5), toks)
  {
    hide EncTable, IsRevTab, Table, MatchTables.Valid, Const, FixedLit, Counts, ExtraCost, AllEncodable, SymCost,
         BodyLen, Playable;
    EncLens(t.litlentab, FixedLit());
    EncLens(t.offtab, Const(30, 5));
    CountsSize(toks, lc, oc);
    FixedEncodable(out, toks);
    BodySize(FixedLit(), Const(30, 5), toks, lc, oc);
    var a := BitCost(t.litlentab, lc);
    var b := BitCost(t.offtab, oc);
    nfix := a + b + excost;
  }

  /** Codes of the block's own, the best for its tokens, and what the block takes in them. */
  method PlanDynamic(t: Tables, lc: seq<nat>, oc: seq<nat>, excost: nat, ghost toks: seq<Token>, ghost out: seq<byte>)
    returns (dc: Dyncode, littab: seq<Entry>, offtab: seq<Entry>, n: nat)
    requires t.Valid() && Counts(toks, lc, oc) && excost == ExtraCost(toks) && Playable(out, toks)
    ensures fresh(dc) && fresh(dc.codes) && fresh(dc.codeaux) && fresh(dc.codetab)
    ensures Planned(dc, littab, offtab, toks, n)
    ensures GzCode(lc, LensOf(littab), MAX_HUFF_BITS - 1) && GzCode(oc, LensOf(offtab), MAX_HUFF_BITS - 1)
    ensures forall lit, off :: CanWrite(lit, off, toks) ==> n <= MAX_HEADER + BodyLen(lit, off, toks)
  {
    hide EncTable, IsRevTab, Table, MatchTables.Valid, Const, FixedLit, Dyncode.Describes, Counts, ExtraCost,
         AllEncodable, SymCost, BodyLen, Playable, HasEob, GzCode;
    CountsSize(toks, lc, oc);
    littab := MkTable(t.revtab, lc);
    offtab := MkTable(t.revtab, oc);
    dc := new Dyncode();
    n := HuffCodes(dc, t.revtab, littab, offtab);
    TableIs(littab, N_LITLEN);
    TableIs(offtab, N_OFF);
    GzCovers(lc, LensOf(littab));
    GzCovers(oc, LensOf(offtab));
    CountedEncodable(out, toks, lc, oc, LensOf(littab), LensOf(offtab));
    BodySize(LensOf(littab), LensOf(offtab), toks, lc, oc);
    var a := BitCost(littab, lc);
    var b := BitCost(offtab, oc);
    n := n + a + b + excost;
    PlanBest(dc, littab, offtab, toks, n, lc, oc);
  }

  /** Apart from the description no other codes can do better. */
  lemma PlanBest(dc: Dyncode, littab: seq<Entry>, offtab: seq<Entry>, toks: seq<Token>, n: nat, lc: seq<nat>,
                 oc: seq<nat>)
    requires Planned(dc, littab, offtab, toks, n) && Counts(toks, lc, oc)
    requires GzCode(lc, LensOf(littab), MAX_HUFF_BITS - 1) && GzCode(oc, LensOf(offtab), MAX_HUFF_BITS - 1)
    ensures forall lit, off :: CanWrite(lit, off, toks) ==> n <= MAX_HEADER + BodyLen(lit, off, toks)
  {
    hide GzCode, Counts, AllEncodable, BodyLen, Fits, Table, EncTable;
    var l, o := LensOf(littab), LensOf(offtab);
    DescriptionAtMost(dc, l, o);
    forall lit, off | CanWrite(lit, off, toks)
      ensures BodyLen(l, o, toks) <= BodyLen(lit, off, toks)
    {
      BestBody(l, o, toks, lc, oc, MAX_HUFF_BITS - 1, lit, off);
    }
  }

  lemma DescriptionAtMost(dc: Dyncode, lit: Lens, off: Lens)
    requires dc.Describes(lit, off)
    ensures |dc.Bits(lit, off)| + dc.Repeats() <= MAX_HEADER
  {
    hide EncTable, HeaderFor, HeaderBits;
    HeaderAtMost(dc.nlit, dc.noff, dc.nclen, LensOf(dc.codetab[..]), dc.codes[..dc.ncode], dc.codeaux[..dc.ncode],
      lit[..dc.nlit] + off[..dc.noff]);
  }

  lemma GzCovers(count: seq<nat>, l: Lens)
    requires GzCode(count, l, MAX_HUFF_BITS - 1)
    ensures |l| == |count| && forall i :: 0 <= i < |l| && count[i] > 0 ==> l[i] > 0
  {
  }

  lemma TableIs(tab: seq<Entry>, n: nat)
    requires Table(tab, n)
    ensures |tab| == n
  {
  }

  /** The same for literals only, with the fixed table hofftab for the offsets. */
  method PlanLiteral(t: Tables, litcount: seq<nat>, ghost s: seq<byte>, ghost start: nat, ghost nunc: nat)
    returns (dc: Dyncode, littab: seq<Entry>, n: nat)
    requires t.Valid() && start + nunc <= |s| && Counts(Lits(s, start, nunc), litcount, Const(N_OFF, 0))
    ensures fresh(dc) && fresh(dc.codes) && fresh(dc.codeaux) && fresh(dc.codetab) && n >= 26
    ensures Planned(dc, littab, t.hofftab, Lits(s, start, nunc), n)
    ensures forall lit, off :: CanWrite(lit, off, Lits(s, start, nunc)) ==>
              n <= MAX_HEADER + BodyLen(lit, off, Lits(s, start, nunc))
  {
    hide EncTable, IsRevTab, Table, MatchTables.Valid, Const, FixedLit, Dyncode.Describes, Counts, ExtraCost,
         AllEncodable, SymCost, BodyLen, Playable, HasEob, GzCode, Lits;
    ghost var toks, zeros := Lits(s, start, nunc), Const(N_OFF, 0);
    CountsSize(toks, litcount, zeros);
    littab := MkTable(t.revtab, litcount);
    dc := new Dyncode();
    n := HuffCodes(dc, t.revtab, littab, t.hofftab);
    TableIs(littab, N_LITLEN);
    TableIs(t.hofftab, N_OFF);
    GzCovers(litcount, LensOf(littab));
    ZeroCounts();
    PlainLits(s, start, nunc);
    CountedEncodable(s[..start], toks, litcount, zeros, LensOf(littab), LensOf(t.hofftab));
    BodySize(LensOf(littab), LensOf(t.hofftab), toks, litcount, zeros);
    NoSymbols(zeros, LensOf(t.hofftab), N_OFF);
    var a := BitCost(littab, litcount);
    n := n + a;
    PlanBestLits(dc, littab, t.hofftab, toks, n, litcount, zeros);
  }

  lemma PlanBestLits(dc: Dyncode, littab: seq<Entry>, offtab: seq<Entry>, toks: seq<Token>, n: nat, lc: seq<nat>,
                     oc: seq<nat>)
    requires Planned(dc, littab, offtab, toks, n) && Counts(toks, lc, oc) && forall k :: 0 <= k < N_OFF ==> oc[k] == 0
    requires GzCode(lc, LensOf(littab), MAX_HUFF_BITS - 1)
    ensures forall lit, off :: CanWrite(lit, off, toks) ==> n <= MAX_HEADER + BodyLen(lit, off, toks)
  {
    hide GzCode, Counts, AllEncodable, BodyLen, Fits, EncTable;
    var l, o := LensOf(littab), LensOf(offtab);
    DescriptionAtMost(dc, l, o);
    forall lit, off | CanWrite(lit, off, toks)
      ensures BodyLen(l, o, toks) <= BodyLen(lit, off, toks)
    {
      BestPlain(l, o, toks, lc, oc, MAX_HUFF_BITS - 1, lit, off);
    }
  }

  lemma PlainLits(s: seq<byte>, start: nat, n: nat)
    requires start + n <= |s|
    ensures ExtraCost(Lits(s, start, n)) == 0 && Playable(s[..start], Lits(s, start, n))
  {
    PlainCost(Lits(s, start, n));
    if n > 0 {
      RunsSound(s, start, n);
      ParseReplay(s, start, Runs(n));
    }
  }

  /** A block of literals only, in a code of its own. */
  method WriteLiteral(out: Out, lz: State, final: bool, slop: nat, parse: array<nat>, t: Tables, dc: Dyncode,
                      littab: seq<Entry>, nunc: nat,
                      ghost start: nat, ghost items: seq<Item>, ghost words: seq<nat>, ghost cost: nat)
    requires out.Valid() && t.Valid() && out.obuf != lz.hist && Complete(lz, start, nunc, items, words)
             && slop == Slot(start)
    requires 0 < nunc <= 65535 && parse.Length == MAX_PARSE && parse != dc.codes && parse != dc.codeaux
    requires Planned(dc, littab, t.hofftab, Lits(lz.s, start, nunc), cost)
    modifies out, out.obuf, parse
    ensures out.Valid() && Appended(old(out.Written()), out.Written(), lz.s[..start], final, lz.s[..start + nunc])
    ensures |out.Written()| + old(dc.Repeats()) == |old(out.Written())| + 3 + cost
  {
    hide Planned, Dyncode.Repeats, Appended, MatchTables.Valid, Slot, IsRevTab, Const, FixedLit, EncTable, Table,
         Playable, Replay;
    var m := LitParse(parse, nunc);
    assert Complete(lz, start, nunc, Runs(nunc), parse[..m]) by {
      RunsSound(lz.s, start, nunc);
    }
    RunsSound(lz.s, start, nunc);
    WriteDynamic(out, lz, final, slop, parse[..m], t.m, dc, littab, t.hofftab, start, nunc, Runs(nunc), cost);
  }

  lemma ZeroCounts()
    ensures forall i :: 0 <= i < N_OFF ==> Const(N_OFF, 0)[i] == 0
  {
  }

  /** Write the block in whichever encoding is estimated to be shortest. */
  method EncodeBlock(out: Out, lz: State, b: Block, t: Tables, final: bool, slop: nat, nunc: nat, ghost start: nat,
                     ghost items: seq<Item>)
    requires out.Valid() && t.Valid() && out.obuf != lz.hist && b.Shape() && b.np <= b.parse.Length
    requires Complete(lz, start, nunc, items, b.parse[..b.np]) && slop == Slot(start) && nunc <= 65535
    requires Counts(AllTokens(lz.s, start, items), b.litlencount[..], b.offcount[..])
             && b.excost == ExtraCost(AllTokens(lz.s, start, items))
    modifies out, out.obuf, b.parse
    ensures out.Valid() && Appended(old(out.Written()), out.Written(), lz.s[..start], final, lz.s[..start + nunc])
    ensures |out.Written()| <= |old(out.Written())| + 10 + 8 * (nunc + 4)
    ensures |out.Written()| <= |old(out.Written())| + 10
                               + BodyLen(FixedLit(), Const(30, 5), AllTokens(lz.s, start, items))
    ensures forall lit, off :: CanWrite(lit, off, AllTokens(lz.s, start, items)) ==>
              |out.Written()| <= |old(out.Written())| + 10 + MAX_HEADER
                                 + BodyLen(lit, off, AllTokens(lz.s, start, items))
    ensures forall lit, off :: CanWrite(lit, off, Lits(lz.s, start, nunc)) ==>
              |out.Written()| <= |old(out.Written())| + 10 + MAX_HEADER + BodyLen(lit, off, Lits(lz.s, start, nunc))
  {
    hide CanWrite, Planned, Dyncode.Repeats, Appended, MatchTables.Valid, Counts, Slot, IsRevTab, Const, FixedLit,
         Playable, Replay, Complete, AllTokens, Lits, Tables.Valid, Sound, BodyLen, ExtraCost, GzCode;
    ghost var words := b.parse[..b.np];
    CompleteSound(lz, start, nunc, items, words);
    CompleteReplay(lz, start, nunc, items, words);
    ghost var toks, before := AllTokens(lz.s, start, items), lz.s[..start];
    var lc, oc := b.litlencount[..], b.offcount[..];
    var dc, dlit, doff, ndyn := PlanDynamic(t, lc, oc, b.excost, toks, before);
    var litcount := CountBytes(lz, slop, nunc, start, items, words);
    var hdc, hlit, nhuff := PlanLiteral(t, litcount, lz.s, start, nunc);
    var nfix := FixedCost(t, lc, oc, b.excost, toks, before);
    if nunc == 0 {
      EmptyFixed(lz, start, items, words);
    }
    TablesParts(t);
    if (nunc + 4) * 8 < ndyn && (nunc + 4) * 8 < nfix && (nunc + 4) * 8 < nhuff {
      WriteStored(out, lz, final, slop, nunc, start, items, words);
    } else if ndyn < nfix && ndyn < nhuff {
      WriteDynamic(out, lz, final, slop, b.parse[..b.np], t.m, dc, dlit, doff, start, nunc, items, ndyn);
    } else if nhuff < nfix {
      WriteLiteral(out, lz, final, slop, b.parse, t, hdc, hlit, nunc, start, items, words, nhuff);
    } else {
      WriteFixed(out, lz, final, slop, b.parse[..b.np], t, start, nunc, items);
    }
  }

  lemma TablesParts(t: Tables)
    requires t.Valid()
    ensures t.m.Valid()
  {
  }

  /** An empty block takes seven bits in the fixed codes, so it never becomes a literal-only block. */
  lemma EmptyFixed(lz: State, start: nat, items: seq<Item>, words: seq<nat>)
    requires Complete(lz, start, 0, items, words)
    ensures Sound(lz.s, start, items) && BodyLen(FixedLit(), Const(30, 5), AllTokens(lz.s, start, items)) == 7
  {
    hide Const, FixedLit, Codeword;
    EmptyItems(lz.s, start, items);
    FixedLitAt(EOB);
  }

  // ----- a block from reading to writing

  /** Read and parse one block. */
  method ParseBlock(lz: State, b: Block, m: MatchTables, src: Source, ghost start: nat)
    returns (bytes: nat, ghost items: seq<Item>)
    requires src.Valid() && lz.Valid(start) && b.Shape() && m.Valid() && (lz.eof ==> src.rest == [])
    requires (!lz.eof || lz.avail > 0) && (lz.eof || Slack(lz.pos, lz.avail))
    modifies lz, lz.hist, lz.hash, lz.nexts, b, b.parse, b.litlencount, b.offcount, src
    ensures src.Valid() && lz.Valid(start + bytes) && (lz.eof ==> src.rest == []) && (lz.eof || Slack(lz.pos, lz.avail))
    ensures lz.s + src.rest == old(lz.s) + old(src.rest) && bytes <= 65535
    ensures bytes >= MIN_BLOCK || (lz.eof && lz.avail == 0)
    ensures b.np <= b.parse.Length && Complete(lz, start, bytes, items, b.parse[..b.np])
    ensures Counts(AllTokens(lz.s, start, items), b.litlencount[..], b.offcount[..])
            && b.excost == ExtraCost(AllTokens(lz.s, start, items))
  {
    hide MatchTables.Valid, Counts, Slot, Sound, AllTokens, Holds, Links, Lazy, Pack, AllValid, Lits, Total;
    bytes := FillBlock(lz, b, m, src, start);
    items := FinishParse(b, lz.s, start);
  }

  /** Read, parse and write one block. */
  method DeflateB(lz: State, b: Block, t: Tables, src: Source, out: Out, ghost start: nat)
    returns (bytes: nat, final: bool, ghost w: seq<bool>)
    requires src.Valid() && lz.Valid(start) && b.Shape() && t.Valid() && out.Valid() && out.obuf != lz.hist
             && (lz.eof ==> src.rest == [])
    requires (!lz.eof || lz.avail > 0) && (lz.eof || Slack(lz.pos, lz.avail))
    modifies lz, lz.hist, lz.hash, lz.nexts, b, b.parse, b.litlencount, b.offcount, src, out, out.obuf
    ensures src.Valid() && lz.Valid(start + bytes) && out.Valid() && (lz.eof ==> src.rest == [])
            && (lz.eof || Slack(lz.pos, lz.avail))
    ensures lz.s + src.rest == old(lz.s) + old(src.rest) && (bytes >= MIN_BLOCK || final)
            && start + bytes <= |lz.s|
    ensures final == (lz.eof && lz.avail == 0)
    ensures Appended(old(out.Written()), w, lz.s[..start], final, lz.s[..start + bytes])
    ensures |w| <= |old(out.Written())| + 42 + 8 * bytes
    ensures if final then out.Written() == w + Zeros(Padding(|w|)) && out.nbits == 0
            && out.out == 0 else out.Written() == w
  {
    hide Appended, MatchTables.Valid, Counts, Slot, AllTokens, State.Valid, Complete, Tables.Valid, Zeros, ByteBits,
         ToBits, Padding, Sound, Slack;
    ValidPlace(lz, start);
    TablesParts(t);
    var slop := lz.pos;
    ghost var items;
    bytes, items := ParseBlock(lz, b, t.m, src, start);
    final := lz.eof && lz.avail == 0;
    CompleteSound(lz, start, bytes, items, b.parse[..b.np]);
    EncodeBlock(out, lz, b, t, final, slop, bytes, start, items);
    w := out.Written();
    if final {
      FlushAll(out);
    }
  }

  /** Pad to a byte boundary and hand everything to the writer. */
  method FlushAll(out: Out)
    requires out.Valid()
    modifies out, out.obuf
    ensures out.Valid() && out.nbits == 0 && out.out == 0
    ensures out.Written() == old(out.Written()) + Zeros(Padding(|old(out.Written())|))
  {
    hide ByteBits, ToBits, Zeros, Padding;
    FlushPads(|out.Written()|, out.nbits);
    out.LzFlushBits();
    out.LzFlush();
  }

  lemma ValidPlace(lz: State, c: nat)
    requires lz.Valid(c)
    ensures lz.pos == Slot(c)
  {
  }

  lemma FlushPads(n: nat, nbits: nat)
    requires nbits == n % 8
    ensures (8 - nbits) % 8 == Padding(n)
  {
  }

  // ----- the whole input

  /** Followed by tail, the bits w are read as the data, and reading stops at the byte boundary before tail. */
  ghost predicate EndsBefore(w: seq<bool>, data: seq<byte>, tail: seq<bool>)
  {
    BlockFormat.Whole(|tail|) ==>
      match Inflated(w + tail, [])
      case Fails(_) => false
      case Undefined => false
      case Yields((s, rest)) => s == data && WholeBytes(rest) == tail
  }

  ghost predicate Final(w: seq<bool>, data: seq<byte>)
  {
    forall tail :: EndsBefore(w, data, tail)
  }

  /** The output stands for exactly the data, whatever follows it. */
  ghost predicate Compressed(data: seq<byte>, output: seq<byte>)
  {
    Final(ByteBits(output), data)
  }

  /** Deflate's invariant: everything encoded so far is in the output, and nothing of the input is lost. */
  ghost predicate Encoding(lz: State, src: Source, out: Out, c: nat, data: seq<byte>, done: bool)
    reads lz, src, out, out.obuf
  {
    && src.Valid() && out.Valid() && c + lz.avail == |lz.s| && lz.s + src.rest == data
      && done == (lz.eof && lz.avail == 0) && (lz.eof ==> src.rest == [])
    && if done then Final(out.Written(), data) && out.nbits == 0 && out.out == 0
       else Encodes(out.Written(), data[..c])
  }

  lemma BlockAdded(w: seq<bool>, w': seq<bool>, s: seq<byte>, data: seq<byte>, c: nat, c': nat)
    requires s <= data && c <= |s| && c' <= |s| && Encodes(w, data[..c]) && Appended(w, w', s[..c], false, s[..c'])
    ensures Encodes(w', data[..c'])
  {
    hide Encodes, IsBlock;
    assert s[..c] == data[..c] && s[..c'] == data[..c'];
    assert w' == w + w'[|w|..];
    EncodesMore(w, w'[|w|..], data[..c], data[..c']);
  }

  lemma LastAdded(w: seq<bool>, w': seq<bool>, data: seq<byte>, c: nat)
    requires c <= |data| && Encodes(w, data[..c]) && Appended(w, w', data[..c], true, data[..|data|])
    ensures Final(w' + Zeros(Padding(|w'|)), data)
  {
    hide Encodes, IsBlock, Inflated, BlockFormat.Whole, WholeBytes;
    assert data[..|data|] == data && w' == w + w'[|w|..];
    var z := Zeros(Padding(|w'|));
    forall tail: seq<bool>
      ensures EndsBefore(w' + z, data, tail)
    {
      if BlockFormat.Whole(|tail|) {
        LastTail(w, w'[|w|..], data[..c], data, z, tail);
        assert w' + z + tail == w' + (z + tail);
      }
    }
  }

  lemma PadsOut(n: nat, z: nat, tail: nat)
    requires z == Padding(n) && BlockFormat.Whole(tail)
    ensures z < 8 && BlockFormat.Whole(n + (z + tail))
  {
    var q := n / 8 + tail / 8 + if z == 0 then 0 else 1;
    assert n + (z + tail) == 8 * q;
  }

  lemma WholeTail(z: seq<bool>, tail: seq<bool>)
    requires |z| < 8 && BlockFormat.Whole(|tail|)
    ensures WholeBytes(z + tail) == tail
  {
    assert Partial(|z + tail|) == |z|;
  }

  lemma LastTail(w: seq<bool>, x: seq<bool>, out: seq<byte>, out': seq<byte>, z: seq<bool>, tail: seq<bool>)
    requires Encodes(w, out) && IsBlock(|w|, x, out, true, out')
    requires |z| == Padding(|w| + |x|) && BlockFormat.Whole(|tail|)
    ensures Inflated(w + x + (z + tail), []) == Yields((out', z + tail)) && WholeBytes(z + tail) == tail
  {
    hide Encodes, IsBlock, Inflated, BlockFormat.Whole, WholeBytes, Padding;
    PadsOut(|w| + |x|, |z|, |tail|);
    WholeTail(z, tail);
    EncodesLast(w, x, out, out', z + tail);
  }

  method DeflateStep(lz: State, b: Block, t: Tables, src: Source, out: Out, ghost c: nat,
                     ghost data: seq<byte>) returns (bytes: nat)
    requires lz.Valid(c) && b.Shape() && t.Valid() && out.obuf != lz.hist && Encoding(lz, src, out, c, data, false)
    requires lz.eof || Slack(lz.pos, lz.avail)
    modifies lz, lz.hist, lz.hash, lz.nexts, b, b.parse, b.litlencount, b.offcount, src, out, out.obuf
    ensures lz.Valid(c + bytes) && (lz.eof || Slack(lz.pos, lz.avail))
    ensures Encoding(lz, src, out, c + bytes, data, lz.eof && lz.avail == 0)
    ensures bytes >= MIN_BLOCK || (lz.eof && lz.avail == 0)
    ensures |out.Written()| <= |old(out.Written())| + 42 + 8 * bytes + if lz.eof && lz.avail == 0 then 7 else 0
  {
    hide Encodes, Tables.Valid, State.Valid, Final, Source.Valid, Appended, ByteBits, ToBits, Zeros,
         Padding, Slack;
    ghost var w, w1 := out.Written(), [];
    var final;
    bytes, final, w1 := DeflateB(lz, b, t, src, out, c);
    ValidLength(lz, c + bytes);
    assert lz.s <= data;
    if final {
      assert lz.s + [] == lz.s;
      LastAdded(w, w1, data, c);
    } else {
      BlockAdded(w, w1, lz.s, data, c, c + bytes);
    }
  }

  /** What k blocks, and the last one when it is done, can take for together c bytes. */
  ghost predicate Within(written: nat, c: nat, k: nat, done: bool)
  {
    k * MIN_BLOCK <= c && written <= 8 * c + 42 * k + if done then 49 else 0
  }

  lemma NothingYet()
    ensures Within(0, 0, 0, false)
  {
  }

  lemma BlockWithin(written: nat, c: nat, k: nat, written': nat, bytes: nat, done: bool)
    requires Within(written, c, k, false)
    requires written' <= written + 42 + 8 * bytes + (if done then 7 else 0) && (bytes >= MIN_BLOCK || done)
    ensures Within(written', c + bytes, if done then k else k + 1, done)
  {
  }

  lemma AllWithin(size: nat, n: nat, k: nat)
    requires Within(8 * size, n, k, true)
    ensures size <= MostBytes(n)
  {
    assert k <= n / MIN_BLOCK;
  }

  /** The most that n bytes are compressed to. */
  function MostBytes(n: nat): nat
  {
    n + 6 * (n / MIN_BLOCK + 1)
  }

  /** Compress everything that the source gives. */
  method Deflate(t: Tables, src: Source, level: nat) returns (status: Status, output: seq<byte>)
    requires t.Valid() && src.Valid() && level <= MAX_LEVEL
    modifies src
    ensures status == FlateOk && src.Valid() && src.rest == [] && Compressed(old(src.rest), output)
    ensures |output| <= MostBytes(|old(src.rest)|)
  {
    hide Within, MostBytes, Encodes, Tables.Valid, State.Valid, Final, Source.Valid, Appended, ByteBits, ToBits, Zeros,
         Padding, Slack;
    ghost var data := src.rest;
    var lz := new State(level);
    var b := new Block();
    var out := new Out();
    ghost var c: nat, k: nat := 0, 0;
    EncodesNothing();
    assert data[..0] == [] && lz.s + src.rest == data;
    StartSlack(lz.pos);
    NothingYet();
    while !lz.eof || lz.avail > 0
      invariant fresh(lz) && fresh(lz.hist) && fresh(lz.hash) && fresh(lz.nexts) && fresh(out) && fresh(out.obuf)
                && out.obuf != lz.hist
      invariant fresh(b) && fresh(b.parse) && fresh(b.litlencount) && fresh(b.offcount) && b.Shape()
      invariant lz.Valid(c) && (lz.eof || Slack(lz.pos, lz.avail))
      invariant Encoding(lz, src, out, c, data, lz.eof && lz.avail == 0)
      invariant Within(|out.Written()|, c, k, lz.eof && lz.avail == 0)
      decreases |data| - c, !lz.eof
    {
      ghost var w := |out.Written()|;
      var bytes := DeflateStep(lz, b, t, src, out, c, data);
      BlockWithin(w, c, k, |out.Written()|, bytes, lz.eof && lz.avail == 0);
      c := c + bytes;
      k := if lz.eof && lz.avail == 0 then k else k + 1;
    }
    status := FlateOk;
    output := out.sink;
    SinkIsAll(out);
    AllWithin(|output|, |data|, k);
  }

  lemma ValidLength(lz: State, c: nat)
    requires lz.Valid(c)
    ensures c + lz.avail == |lz.s|
  {
  }

  lemma StartSlack(pos: nat)
    ensures Slack(pos, 0)
  {
  }

  lemma SinkIsAll(out: Out)
    requires out.Valid() && out.nbits == 0 && out.out == 0
    ensures out.Written() == ByteBits(out.sink)
  {
    assert out.obuf[..0] == [] && out.sink + [] == out.sink;
    assert ToBits(out.bits, 0) == [];
  }
}
