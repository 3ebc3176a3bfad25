/** Filling the ring from the reader and parsing it into a block. */
module Fill {
  import opened Bits
  import opened Tokens
  import opened Parse
  import opened Ring
  import opened Matcher
  import opened LzBlock
  import opened LzComp
  import Adler

  const BLOCK_SIZE := 8192
  const DEFLATE_MAX_BLOCK := 65535
  const DEFLATE_BLOCK := 57344

  /** The reader callback: it may give less than it is asked for, and nothing only at the end. */
  class Source {
    ghost const all: seq<byte>
    var rest: seq<byte>
    var adler: Adler.word32 // the checksum that zlread keeps of what was given

    ghost predicate Valid()
      reads this
    {
      |rest| <= |all| && rest == all[|all| - |rest|..] && adler == Adler.AdlerOf(1, all[..|all| - |rest|])
    }

    constructor (data: seq<byte>)
      ensures Valid() && rest == all == data
    {
      all, rest, adler := data, data, 1;
    }

    method Read(m: nat) returns (chunk: seq<byte>)
      requires m > 0
      modifies `rest
      ensures |chunk| <= m && old(rest) == chunk + rest && (chunk == [] <==> old(rest) == [])
    {
      var n: nat :| n <= m && n <= |rest| && (n == 0 <==> rest == []) by {
        assert (if |rest| < m then |rest| else m) <= m;
      }
      chunk := rest[..n];
      rest := rest[n..];
    }

    /** The reader callback of deflatezlib. */
    method ZlRead(m: nat) returns (chunk: seq<byte>)
      requires Valid() && m > 0
      modifies this
      ensures Valid() && |chunk| <= m && old(rest) == chunk + rest && (chunk == [] <==> old(rest) == [])
    {
      hide Adler.AdlerOf;
      ghost var given := all[..|all| - |rest|];
      chunk := Read(m);
      if |chunk| > 0 {
        Adler.AdlerAppend(1, given, chunk);
        assert all[..|all| - |rest|] == given + chunk;
        adler := Adler.Adler32(adler, chunk);
      }
    }
  }

  // ----- reading into the ring

  /** The ring after chunk has been read to index ep and the wrapped part or the mirror copied. */
  ghost predicate Filled(h: seq<byte>, g: seq<byte>, ep: nat, chunk: seq<byte>)
  {
    && |h| == |g| == HIST_SIZE && ep < HIST_BLOCK && ep + |chunk| <= HIST_SIZE
    && forall i :: 0 <= i < HIST_SIZE ==> g[i] == Refilled(h, ep, chunk, i)
  }

  ghost function Refilled(h: seq<byte>, ep: nat, chunk: seq<byte>, i: nat): byte
    requires |h| == HIST_SIZE && i < HIST_SIZE && ep < HIST_BLOCK && ep + |chunk| <= HIST_SIZE
  {
    var n := |chunk|;
    if ep <= i < ep + n then chunk[i - ep]
    else if ep < HIST_SLOP && ep + HIST_BLOCK <= i then
      if i - HIST_BLOCK < ep + n then chunk[i - HIST_BLOCK - ep] else h[i - HIST_BLOCK]
    else if ep >= HIST_SLOP && i + HIST_BLOCK < ep + n then chunk[i + HIST_BLOCK - ep]
    else h[i]
  }

  lemma FilledSize(h: seq<byte>, g: seq<byte>, ep: nat, chunk: seq<byte>)
    requires Filled(h, g, ep, chunk)
    ensures |g| == HIST_SIZE
  {
  }

  lemma FilledNew(h: seq<byte>, g: seq<byte>, s: seq<byte>, chunk: seq<byte>, j: nat)
    requires Filled(h, g, Slot(|s|), chunk) && |chunk| <= MAX_OFF && |s| <= j < |s| + |chunk|
    ensures g[Slot(j)] == (s + chunk)[j]
  {
    var ep, k, q := Slot(|s|), j - |s|, |s| / HIST_BLOCK;
    if ep + k < HIST_BLOCK {
      SlotIs(j, ep + k, q);
    } else {
      SlotIs(j, ep + k - HIST_BLOCK, q + 1);
    }
    assert g[Slot(j)] == Refilled(h, ep, chunk, Slot(j));
  }

  lemma FilledOld(h: seq<byte>, g: seq<byte>, s: seq<byte>, chunk: seq<byte>, j: nat)
    requires Filled(h, g, Slot(|s|), chunk) && |chunk| <= MAX_OFF && j < |s| && |s| + |chunk| <= j + HIST_BLOCK
    ensures g[Slot(j)] == h[Slot(j)]
  {
    var ep, d, q := Slot(|s|), |s| - j, |s| / HIST_BLOCK;
    if d <= ep {
      SlotIs(j, ep - d, q);
    } else {
      SlotIs(j, ep - d + HIST_BLOCK, q - 1);
    }
    assert g[Slot(j)] == Refilled(h, ep, chunk, Slot(j));
  }

  lemma FilledMirror(h: seq<byte>, g: seq<byte>, s: seq<byte>, chunk: seq<byte>, k: nat)
    requires Filled(h, g, Slot(|s|), chunk) && |chunk| <= MAX_OFF && k < HIST_SLOP
    requires s != [] ==> h[k] == h[k + HIST_BLOCK]
    ensures g[k] == g[k + HIST_BLOCK]
  {
    var ep := Slot(|s|);
    assert g[k] == Refilled(h, ep, chunk, k) && g[k + HIST_BLOCK] == Refilled(h, ep, chunk, k + HIST_BLOCK);
  }

  /** Reading keeps the ring in step with the stream. */
  lemma ReadHolds(h: seq<byte>, g: seq<byte>, s: seq<byte>, chunk: seq<byte>)
    requires Holds(h, s, Oldest(|s|)) && Filled(h, g, Slot(|s|), chunk) && 0 < |chunk| <= MAX_OFF
    ensures Holds(g, s + chunk, Oldest(|s| + |chunk|))
  {
    hide Slot, Filled;
    var t, lo := s + chunk, Oldest(|s| + |chunk|);
    FilledSize(h, g, Slot(|s|), chunk);
    forall j | lo <= j < |t|
      ensures g[Slot(j)] == t[j]
    {
      if j < |s| {
        FilledOld(h, g, s, chunk, j);
        assert h[Slot(j)] == s[j];
      } else {
        FilledNew(h, g, s, chunk, j);
      }
    }
    forall k | 0 <= k < HIST_SLOP
      ensures g[k] == g[k + HIST_BLOCK]
    {
      FilledMirror(h, g, s, chunk, k);
    }
  }

  ghost predicate Stored(h: seq<byte>, g: seq<byte>, ep: nat, chunk: seq<byte>)
  {
    |h| == |g| && forall i :: 0 <= i < |g| ==> g[i] == if ep <= i < ep + |chunk| then chunk[i - ep] else h[i]
  }

  /** Copy bytes within or into the ring. */
  method Store(hist: array<byte>, ep: nat, chunk: seq<byte>)
    requires ep + |chunk| <= hist.Length
    modifies hist
    ensures Stored(old(hist[..]), hist[..], ep, chunk)
  {
    for k := 0 to |chunk|
      invariant forall i :: 0 <= i < hist.Length ==> hist[i] == if ep <= i < ep + k then chunk[i - ep] else old(hist[i])
    {
      hist[ep + k] := chunk[k];
    }
  }

  method StoreRead(hist: array<byte>, ep: nat, chunk: seq<byte>)
    requires hist.Length == HIST_SIZE && ep < HIST_BLOCK && ep + |chunk| <= HIST_SIZE && |chunk| <= MAX_OFF
    modifies hist
    ensures Filled(old(hist[..]), hist[..], ep, chunk)
  {
    hide Stored;
    ghost var h := hist[..];
    Store(hist, ep, chunk);
    ghost var g := hist[..];
    if ep < HIST_SLOP {
      Store(hist, ep + HIST_BLOCK, hist[ep..HIST_SLOP]);
      FilledAtStart(h, g, hist[..], ep, chunk);
    } else if ep + |chunk| > HIST_BLOCK {
      Store(hist, 0, hist[HIST_BLOCK..ep + |chunk|]);
      FilledPastEnd(h, g, hist[..], ep, chunk);
    } else {
      FilledInside(h, g, ep, chunk);
    }
  }

  lemma FilledAtStart(h: seq<byte>, g: seq<byte>, f: seq<byte>, ep: nat, chunk: seq<byte>)
    requires |h| == |g| == HIST_SIZE && ep < HIST_SLOP && |chunk| <= MAX_OFF
    requires Stored(h, g, ep, chunk) && Stored(g, f, ep + HIST_BLOCK, g[ep..HIST_SLOP])
    ensures Filled(h, f, ep, chunk)
  {
  }

  lemma FilledPastEnd(h: seq<byte>, g: seq<byte>, f: seq<byte>, ep: nat, chunk: seq<byte>)
    requires |h| == |g| == HIST_SIZE && HIST_SLOP <= ep < HIST_BLOCK < ep + |chunk| <= HIST_SIZE
    requires Stored(h, g, ep, chunk) && Stored(g, f, 0, g[HIST_BLOCK..ep + |chunk|])
    ensures Filled(h, f, ep, chunk)
  {
  }

  lemma FilledInside(h: seq<byte>, g: seq<byte>, ep: nat, chunk: seq<byte>)
    requires |h| == |g| == HIST_SIZE && HIST_SLOP <= ep < HIST_BLOCK && ep + |chunk| <= HIST_BLOCK
             && Stored(h, g, ep, chunk)
    ensures Filled(h, g, ep, chunk)
  {
  }

  // ----- how much to read

  /** What is left unparsed between reads: little, unless the parser stopped at the end of the ring and has wrapped. */
  predicate Slack(pos: nat, avail: nat)
  {
    avail <= 259 || (pos <= HIST_SLOP && avail <= 24600)
  }

  /**
   Where to read to and how much.  There is always room for HIST_SLOP bytes, so a read
   that would be too small never happens.
   */
  method Room(pos: nat, avail: nat, n: nat) returns (ep: nat, m: nat)
    requires pos < HIST_BLOCK && avail <= MAX_OFF && n < DEFLATE_BLOCK && Slack(pos, avail)
    ensures ep < HIST_BLOCK && (ep == pos + avail || ep == pos + avail - HIST_BLOCK)
    ensures HIST_SLOP <= m && avail + m <= MAX_OFF && n + m <= HIST_BLOCK && ep + m <= HIST_SIZE
    ensures pos + avail + m <= HIST_SIZE || avail + m <= 24835
    ensures m + BLOCK_SIZE > 32768 - avail || m + BLOCK_SIZE > 65536 - n || m + BLOCK_SIZE > 66048 - ep
    ensures m < BLOCK_SIZE || m % BLOCK_SIZE == 0
  {
    ep := pos + avail;
    if ep >= HIST_BLOCK {
      ep := ep - HIST_BLOCK;
    }
    m := HIST_BLOCK - MAX_OFF - avail;
    if m > HIST_BLOCK - n {
      m := HIST_BLOCK - n;
    }
    if m > HIST_BLOCK + HIST_SLOP - ep {
      m := HIST_BLOCK + HIST_SLOP - ep;
    }
    if m >= BLOCK_SIZE {
      m := m - m % BLOCK_SIZE;
    }
  }

  lemma LazyGrows(s: seq<byte>, t: seq<byte>, c: nat, now: nat, prevlen: nat, prevoff: nat)
    requires Lazy(s, c, now, prevlen, prevoff) && s <= t
    ensures Lazy(t, c, now, prevlen, prevoff)
  {
  }

  lemma SlotEnd(c: nat, avail: nat, ep: nat)
    requires ep < HIST_BLOCK && (ep == Slot(c) + avail || ep == Slot(c) + avail - HIST_BLOCK)
    ensures ep == Slot(c + avail)
  {
    var q := c / HIST_BLOCK;
    SlotIs(c + avail, ep, if ep == Slot(c) + avail then q else q + 1);
  }

  /** Read more, or notice the end of the input. */
  method ReadMore(lz: State, src: Source, n: nat, ghost c: nat) returns (mm: nat)
    requires src.Valid() && lz.Valid(c) && !lz.eof && n < DEFLATE_BLOCK && Slack(lz.pos, lz.avail)
    modifies lz`avail, lz`eof, lz`s, lz.hist, src
    ensures src.Valid() && lz.Valid(c) && old(lz.s) <= lz.s && |lz.s| == |old(lz.s)| + mm
            && lz.s + src.rest == old(lz.s) + old(src.rest)
    ensures lz.avail == old(lz.avail) + mm && n + mm <= HIST_BLOCK
    ensures if lz.eof then mm == 0 && src.rest == [] else mm > 0
    ensures lz.eof || lz.pos + lz.avail <= HIST_SIZE || lz.avail <= 24835
  {
    hide Holds, Slot, MatchAt, Filled, Source.Valid, Links;
    var ep, m := Room(lz.pos, lz.avail, n);
    SlotEnd(c, lz.avail, ep);
    ghost var s := lz.s;
    var chunk := src.ZlRead(m);
    mm := |chunk|;
    if mm > 0 {
      ghost var h := lz.hist[..];
      StoreRead(lz.hist, ep, chunk);
      ReadHolds(h, lz.hist[..], s, chunk);
      LazyGrows(s, s + chunk, c, lz.now, lz.prevlen, lz.prevoff);
      lz.avail := lz.avail + mm;
      lz.s := s + chunk;
      assert s + (chunk + src.rest) == s + chunk + src.rest;
    } else {
      lz.eof := true;
    }
  }

  // ----- a block

  /** The block covers the bytes from start on, and the rest of what has been read is available. */
  ghost predicate Filling(lz: State, b: Block, src: Source, start: nat, bytes: nat)
    reads lz, lz.hist, lz.hash, lz.nexts, b, b.parse, b.litlencount, b.offcount, src
  {
    && src.Valid() && lz.Valid(start + bytes) && b.Valid(lz.s, start) && b.Used() == bytes
      && (lz.eof ==> src.rest == [])
    && bytes + lz.avail <= HIST_BLOCK
  }

  /** Read, then parse what there is. */
  method FillStep(lz: State, b: Block, tables: MatchTables, src: Source, n0: nat, bytes0: nat, ghost start: nat)
    returns (n: nat, bytes: nat)
    requires Filling(lz, b, src, start, bytes0) && tables.Valid() && n0 == bytes0 + lz.avail < DEFLATE_BLOCK
    requires (!lz.eof || lz.avail > 0) && (lz.eof || Slack(lz.pos, lz.avail))
    modifies lz, lz.hist, lz.hash, lz.nexts, b, b.parse, b.litlencount, b.offcount, src
    ensures Filling(lz, b, src, start, bytes) && n == bytes + lz.avail && (lz.eof || Slack(lz.pos, lz.avail))
    ensures lz.s + src.rest == old(lz.s) + old(src.rest) && bytes >= bytes0
    ensures if old(lz.eof) then lz.eof && bytes > bytes0 && n == n0 else lz.eof || n > n0
    ensures lz.eof ==> n == n0
    ensures lz.eof ==> lz.prevlen == MIN_MATCH - 1
  {
    hide Holds, Slot, MatchAt, Links, Parsed, MatchTables.Valid, Lazy, Source.Valid;
    n, bytes := n0, bytes0;
    PendingSmall(lz, start + bytes);
    if !lz.eof {
      ghost var s := lz.s;
      var mm := ReadMore(lz, src, n, start + bytes);
      ParsedGrows(s, lz.s, start, b.items, b.lastv, b.parse[..b.np], b.litlencount[..], b.offcount[..],
        b.excost);
      n := n + mm;
    }
    bytes := ParseMore(lz, b, tables, bytes, start);
  }

  lemma PendingSmall(lz: State, c: nat)
    requires lz.Valid(c)
    ensures Pending(lz.prevlen) <= lz.avail
  {
  }

  method ParseMore(lz: State, b: Block, tables: MatchTables, bytes0: nat, ghost start: nat) returns (bytes: nat)
    requires lz.Valid(start + bytes0) && b.Valid(lz.s, start) && b.Used() == bytes0 && tables.Valid()
    requires bytes0 + lz.avail <= HIST_BLOCK && bytes0 + Pending(lz.prevlen) < DEFLATE_BLOCK
    modifies lz`pos, lz`avail, lz`now, lz`prevlen, lz`prevoff, lz.hash, lz.nexts, b, b.parse, b.litlencount, b.offcount
    ensures lz.Valid(start + bytes) && b.Valid(lz.s, start) && b.Used() == bytes >= bytes0
    ensures bytes + lz.avail == bytes0 + old(lz.avail)
    ensures !lz.eof && (old(lz.pos + lz.avail) <= HIST_SIZE || old(lz.avail) <= 24835) ==> Slack(lz.pos, lz.avail)
    ensures lz.eof ==> lz.prevlen == MIN_MATCH - 1 && (old(lz.avail) > 0 ==> bytes > bytes0)
  {
    hide Holds, Slot, MatchAt, Links, Block.Valid, MatchTables.Valid, EnterUpTo, Hanging, Chained.Shape;
    var ep := lz.pos + lz.avail;
    if ep > HIST_SIZE {
      ep := HIST_SIZE;
    }
    if bytes0 + ep - lz.pos > DEFLATE_MAX_BLOCK {
      ep := lz.pos + DEFLATE_MAX_BLOCK - bytes0;
    }
    ghost var c := start + bytes0;
    var m := lz.LzComp(b, tables, ep, lz.eof, start, c);
    bytes := bytes0 + m;
    var p := (lz.pos + m) % HIST_BLOCK;
    SlotEnd(c, m, p);
    lz.pos := p;
    lz.avail := lz.avail - m;
  }

  /** Every block but the last covers this much: the parser leaves at most 24600 of DEFLATE_BLOCK bytes. */
  const MIN_BLOCK := 32744

  lemma FewLeft(lz: State, c: nat)
    requires lz.Valid(c)
    ensures lz.avail < DEFLATE_BLOCK
  {
  }

  /** The reading and parsing loop of deflateb. */
  method FillBlock(lz: State, b: Block, tables: MatchTables, src: Source, ghost start: nat) returns (bytes: nat)
    requires src.Valid() && lz.Valid(start) && b.Shape() && tables.Valid() && (lz.eof ==> src.rest == [])
    requires (!lz.eof || lz.avail > 0) && (lz.eof || Slack(lz.pos, lz.avail))
    modifies lz, lz.hist, lz.hash, lz.nexts, b, b.parse, b.litlencount, b.offcount, src
    ensures Filling(lz, b, src, start, bytes) && (lz.eof || Slack(lz.pos, lz.avail))
    ensures lz.s + src.rest == old(lz.s) + old(src.rest)
    ensures lz.eof && lz.avail == 0 ==> src.rest == [] && lz.prevlen == MIN_MATCH - 1
    ensures bytes >= MIN_BLOCK || (lz.eof && lz.avail == 0)
  {
    FewLeft(lz, start);
    b.Clear(lz.s, start);
    bytes := 0;
    var n := lz.avail;
    ghost var all := lz.s + src.rest;
    while n < DEFLATE_BLOCK && (!lz.eof || lz.avail > 0)
      invariant Filling(lz, b, src, start, bytes) && n == bytes + lz.avail && (lz.eof || Slack(lz.pos, lz.avail))
      invariant lz.s + src.rest == all
      invariant lz.eof && lz.avail == 0 ==> lz.prevlen == MIN_MATCH - 1
      invariant lz.eof ==> n < DEFLATE_BLOCK
      decreases !lz.eof, DEFLATE_BLOCK - n, lz.avail
    {
      n, bytes := FillStep(lz, b, tables, src, n, bytes, start);
    }
  }
}
