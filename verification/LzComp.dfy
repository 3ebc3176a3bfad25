/** The lazy Lempel-Ziv parser. */
module LzComp {
  import opened Bits
  import opened Tokens
  import opened Parse
  import opened Ring
  import opened Matcher
  import opened LzBlock

  /** Knuth's multiplicative hash of the last three bytes. */
  function HashIt(cont: nat): (h: nat)
    ensures h < HASH_SIZE
  {
    (cont % 0x100_0000 * 0x6b43a9b5) % 0x1_0000_0000 / 0x8_0000
  }

  /** The same where ulong is wide enough not to cut the product to 32 bits. */
  function WideHash(cont: nat): nat
  {
    cont % 0x100_0000 * 0x6b43a9b5 / 0x8_0000
  }

  /** Then the hash indexes the table only for three bytes whose number is at most 2; for all others it lies beyond. */
  lemma WideHashIff(cont: nat)
    ensures WideHash(cont) < HASH_SIZE <==> cont % 0x100_0000 <= 2
    ensures WideHash(cont) < HASH_SIZE ==> WideHash(cont) == HashIt(cont)
  {
  }

  function Shift(cont: nat, b: byte): nat
  {
    (cont * 256 + b) % 0x1_0000_0000
  }

  /**
   The lazy matching state with c bytes encoded: either nothing is pending (prevlen 2) and the
   matcher is at c, or a match at c is pending and the matcher is one further.
   */
  ghost predicate Lazy(s: seq<byte>, c: nat, now: nat, prevlen: nat, prevoff: nat)
  {
    if prevlen == MIN_MATCH - 1 then now == DOT + c
    else
      && now == DOT + c + 1 && GoodLength(prevlen, prevoff)
      && MatchAt(s, c, prevlen, prevoff + 1)
  }

  /** The shortest matches are used at small offsets only. */
  predicate GoodLength(len: nat, off: nat)
  {
    MIN_MATCH <= len <= MAX_MATCH && off < MAX_OFF && (len == MIN_MATCH ==> off < MIN_MATCH_MAX_OFF)
  }

  function Pending(prevlen: nat): nat
  {
    if prevlen == MIN_MATCH - 1 then 0 else prevlen
  }

  // ----- the hash chains

  datatype Chained = Chained(hash: seq<word16>, nexts: seq<word16>)
  {
    ghost predicate Shape()
    {
      |hash| == HASH_SIZE && |nexts| == MAX_OFF
    }

    /** With a position at the head of the chain of h. */
    ghost function Enter(h: nat, now: nat): (t: Chained)
      requires Shape() && h < HASH_SIZE
      ensures t.Shape()
    {
      Chained(hash[h := now % 65536], nexts[now % MAX_OFF := hash[h]])
    }
  }

  /** The three bytes at a. */
  function Three(s: seq<byte>, a: nat): nat
    requires a + 3 <= |s|
  {
    var b: nat, c: nat, d: nat := s[a], s[a + 1], s[a + 2];
    (b * 256 + c) * 256 + d
  }

  /** What is hashed ends with the three bytes at a, if these come before end. */
  ghost predicate ContAt(s: seq<byte>, a: nat, end: nat, cont: nat)
  {
    a + 3 <= end ==> a + 3 <= |s| && cont % 0x100_0000 == Three(s, a)
  }

  lemma ThreeIs(s: seq<byte>, a: nat)
    requires a + 3 <= |s|
    ensures Three(s, a) == (s[a] as nat * 256 + s[a + 1]) * 256 + s[a + 2]
  {
  }

  lemma HashThree(s: seq<byte>, a: nat, end: nat, cont: nat)
    requires ContAt(s, a, end, cont) && a + 3 <= end
    ensures HashIt(cont) == HashIt(Three(s, a))
  {
  }

  lemma ShiftThree(s: seq<byte>, a: nat, end: nat, cont: nat)
    requires ContAt(s, a, end, cont) && a + 3 < end <= |s|
    ensures ContAt(s, a + 1, end, Shift(cont, s[a + 3]))
  {
    var b: nat, c: nat, d: nat, e: nat := s[a], s[a + 1], s[a + 2], s[a + 3];
    ShiftExact(cont, e, Three(s, a));
    DropTop(b, c * 256 + d, e);
  }

  lemma ShiftExact(cont: nat, e: byte, t: nat)
    requires cont % 0x100_0000 == t
    ensures Shift(cont, e) == t * 256 + e
  {
    var q := cont / 0x100_0000;
    assert cont * 256 + e == 0x1_0000_0000 * q + (t * 256 + e);
  }

  lemma DropTop(b: nat, r: nat, e: byte)
    requires r < 0x1_0000
    ensures ((b * 0x1_0000 + r) * 256 + e) % 0x100_0000 == r * 256 + e
  {
    assert (b * 0x1_0000 + r) * 256 + e == 0x100_0000 * b + (r * 256 + e);
  }

  /** The positions from a to b, as far as their three bytes come before end, each at the head of its chain in turn. */
  ghost function EnterUpTo(t: Chained, s: seq<byte>, a: nat, b: nat, end: nat): (u: Chained)
    requires t.Shape() && end <= |s|
    ensures u.Shape()
    decreases b
  {
    if b <= a then t
    else
      var u := EnterUpTo(t, s, a, b - 1, end);
      if b + 2 <= end then u.Enter(HashIt(Three(s, b - 1)), DOT + b - 1) else u
  }

  /** Enter a position in the chain of a hash value. */
  method Enter(hash: array<word16>, nexts: array<word16>, h: nat, now: nat, ghost pos: nat)
    requires hash != nexts && h < HASH_SIZE && DOT <= now < DOT + pos && Links(hash[..], nexts[..], pos)
    modifies hash, nexts
    ensures Links(hash[..], nexts[..], pos)
    ensures Chained(hash[..], nexts[..]) == old(Chained(hash[..], nexts[..])).Enter(h, now)
  {
    hide Entry;
    ghost var hs: seq<word16>, ns: seq<word16> := hash[..], nexts[..];
    EntryNew(now - DOT, pos);
    assert Entry(hs[h], pos);
    nexts[now % MAX_OFF] := hash[h];
    hash[h] := now % 65536;
    assert hash[..] == hs[h := now % 65536] && nexts[..] == ns[now % MAX_OFF := hs[h]];
  }

  /** The chain that starts with link, followed while its entries get older, has one of this age. */
  ghost predicate HasAge(nexts: seq<word16>, link: word16, pos: nat, last: nat, age: nat)
    requires |nexts| == MAX_OFF
    decreases 65536 - last
  {
    var v: nat := Offset(pos, link);
    if v <= last || v >= age then v == age else HasAge(nexts, nexts[link % MAX_OFF], pos, v, age)
  }

  /** Whether the chain of a hash value already holds one of the last few positions. */
  method Present(hash: array<word16>, nexts: array<word16>, h: nat, now: nat, m: nat) returns (found: bool)
    requires hash.Length == HASH_SIZE && nexts.Length == MAX_OFF && h < HASH_SIZE && DOT <= m < now < m + 65536
    ensures found <==> HasAge(nexts[..], hash[h], now - DOT, 0, now - m)
  {
    var prevoff: nat := 0;
    var link: word16 := hash[h];
    while true
      invariant 0 <= prevoff < 65536
      invariant HasAge(nexts[..], hash[h], now - DOT, 0, now - m)
                == HasAge(nexts[..], link, now - DOT, prevoff, now - m)
      decreases 65536 - prevoff
    {
      var v: nat := (now - link) % 65536;
      assert v == Offset(now - DOT, link);
      if v <= prevoff || v >= now - m {
        break;
      }
      prevoff := v;
      link := nexts[link % MAX_OFF];
    }
    found := link == m % 65536;
    SameAge(now, link, m);
  }

  lemma SameAge(now: nat, link: word16, m: nat)
    requires m < now < m + 65536
    ensures link == m % 65536 <==> (now - link) % 65536 == now - m
  {
    var q := m / 65536;
    assert m == 65536 * q + m % 65536;
    if link == m % 65536 {
      assert now - link == 65536 * q + (now - m);
    }
    if (now - link) % 65536 == now - m {
      var r := (now - link) / 65536;
      assert now - link == 65536 * r + (now - m);
      assert m == 65536 * r + link;
    }
  }

  /**
   The positions whose three bytes were not all there when they were passed: entered unless they are there
   already.
   */
  ghost function Hanging(t: Chained, s: seq<byte>, a: nat, i: nat): (u: Chained)
    requires t.Shape() && i <= 2 && a + i <= |s|
    ensures u.Shape()
    decreases i
  {
    if i == 0 then t
    else
      var u := Hanging(t, s, a, i - 1);
      var age := 3 - i;
      if a < age then u
      else
        var h := HashIt(Three(s, a - age));
        if HasAge(u.nexts, u.hash[h], a, 0, age) then u else u.Enter(h, DOT + a - age)
  }

  class State {
    const hist: array<byte>
    var pos: nat // index of the next byte to encode
    var avail: nat
    var eof: bool
    const hash: array<word16>
    const nexts: array<word16>
    var now: nat
    var prevlen: nat
    var prevoff: nat
    var maxcheck: nat
    ghost var s: seq<byte> // everything read so far

    ghost predicate Shape()
    {
      hist.Length == HIST_SIZE && hash.Length == HASH_SIZE && nexts.Length == MAX_OFF && hash != nexts
    }

    /** With c bytes encoded, the ring reaches back far enough and is read at the right place. */
    ghost predicate RingAt(c: nat)
      reads this, hist
    {
      Shape() && avail <= MAX_OFF && c + avail == |s| && pos == Slot(c) && Holds(hist[..], s, Oldest(|s|))
    }

    ghost predicate Valid(c: nat)
      reads this, hist, hash, nexts
    {
      RingAt(c) && Lazy(s, c, now, prevlen, prevoff) && Links(hash[..], nexts[..], now - DOT)
        && Pending(prevlen) <= avail
    }

    constructor (level: nat)
      requires level <= MAX_LEVEL
      ensures Valid(0) && s == [] && avail == 0 && !eof && prevlen == MIN_MATCH - 1
      ensures fresh(hist) && fresh(hash) && fresh(nexts)
    {
      hist := new byte[HIST_SIZE](_ => 0);
      hash := new word16[HASH_SIZE](_ => 0);
      nexts := new word16[MAX_OFF](_ => 0);
      pos, avail, eof := 0, 0, false;
      prevlen, prevoff := MIN_MATCH - 1, 0;
      now := DOT;
      maxcheck := Tuning(level);
      s := [];
    }

    /** The byte of the stream at an index not behind pos. */
    lemma ByteAt(c: nat, k: nat)
      requires RingAt(c) && pos + k < HIST_SIZE && k < avail
      ensures hist[pos + k] == s[c + k] && IsAt(pos + k, c + k)
    {
      hide Holds;
      MoveOn(pos, c, k);
      ReadsStream(hist[..], s, Oldest(|s|), pos + k, c + k);
    }

    ghost function Tables(): Chained
      reads hash, nexts
    {
      Chained(hash[..], nexts[..])
    }

    /** The three bytes of one of the last two positions. */
    lemma HangingBytes(c0: nat, k: nat, age: nat)
      requires RingAt(c0) && 1 <= age <= 2 && age <= c0 + k && pos + k < HIST_SIZE && c0 + k + (3 - age) <= |s|
      ensures var t, q := Back(pos + k, age), c0 + k - age;
              hist[t] == s[q] && hist[t + 1] == s[q + 1] && hist[t + 2] == s[q + 2]
    {
      hide Holds, Slot, Back;
      MoveOn(pos, c0, k);
      BackIsAt(pos + k, c0 + k, age);
      var t, q := Back(pos + k, age), c0 + k - age;
      MoveOn(t, q, 1);
      MoveOn(t, q, 2);
      ReadsStream(hist[..], s, Oldest(|s|), t, q);
      ReadsStream(hist[..], s, Oldest(|s|), t + 1, q + 1);
      ReadsStream(hist[..], s, Oldest(|s|), t + 2, q + 2);
    }

    /** Enter the last positions, whose hashes were not known when they were passed. */
    method Rehash(p: nat, n: nat, ghost c0: nat, ghost k: nat) returns (cont: nat)
      requires RingAt(c0) && now == DOT + c0 + k && p == pos + k && Links(hash[..], nexts[..], now - DOT)
      requires p < HIST_SIZE && n <= MIN_MATCH && k + n <= avail
      modifies hash, nexts
      ensures Links(hash[..], nexts[..], now - DOT)
      ensures Tables() == Hanging(old(Tables()), s, c0 + k, if n == 0 then 0 else n - 1)
    {
      hide Links, Entry, HasAge, Chained.Enter, Slot, Holds, HashIt, Shift, Back, Three;
      cont := 0;
      for i := 0 to if n == 0 then 0 else n - 1
        invariant Links(hash[..], nexts[..], now - DOT) && Tables() == Hanging(old(Tables()), s, c0 + k, i)
      {
        var m := now - (MIN_MATCH - 1 - i);
        LinksShape(hash[..], nexts[..], now - DOT);
        if m < DOT {
          continue;
        }
        var t := Back(p, now - m);
        HangingBytes(c0, k, now - m);
        ShiftTwice(hist[t], hist[t + 1], hist[t + 2]);
        ThreeIs(s, c0 + k - (now - m));
        cont := Shift(Shift(hist[t], hist[t + 1]), hist[t + 2]);
        var h := HashIt(cont);
        var found := Present(hash, nexts, h, now, m);
        if found {
          continue;
        }
        Enter(hash, nexts, h, m, now - DOT);
      }
    }

    /** What is hashed at the first position. */
    method FirstHash(p: nat, n: nat, cont0: nat, ghost c0: nat, ghost k: nat) returns (cont: nat)
      requires RingAt(c0) && p == pos + k && p + n <= HIST_SIZE && n <= MIN_MATCH && k + n <= avail
      ensures n == MIN_MATCH ==> c0 + k + 3 <= |s| && cont % 0x100_0000 == Three(s, c0 + k)
    {
      hide Slot, Holds, Shift;
      cont := cont0;
      for i := 0 to n
        invariant i == 0 ==> cont == cont0
        invariant i >= 1 ==> c0 + k + i <= |s|
        invariant i == 1 ==> cont == Shift(cont0, s[c0 + k])
        invariant i == 2 ==> cont == Shift(Shift(cont0, s[c0 + k]), s[c0 + k + 1])
        invariant i == 3 ==> cont == Shift(Shift(Shift(cont0, s[c0 + k]), s[c0 + k + 1]), s[c0 + k + 2])
      {
        ByteAt(c0, k + i);
        cont := Shift(cont, hist[p + i]);
      }
      if n == MIN_MATCH {
        ShiftThrice(cont0, s[c0 + k], s[c0 + k + 1], s[c0 + k + 2]);
      }
    }

    /** Enter the positions just passed and move on. */
    method Advance(p: nat, n: nat, ep: nat, cont0: nat, now0: nat, ghost c0: nat, ghost k: nat) returns (cont: nat)
      requires RingAt(c0) && p == pos + k && now0 == DOT + c0 + k && Links(hash[..], nexts[..], now0 - DOT)
      requires p + n <= ep <= HIST_SIZE && ep - pos <= avail && ContAt(s, c0 + k, c0 + (ep - pos), cont0)
      modifies hash, nexts
      ensures Links(hash[..], nexts[..], now0 + n - DOT)
      ensures Tables() == EnterUpTo(old(Tables()), s, c0 + k, c0 + k + n, c0 + (ep - pos))
      ensures ContAt(s, c0 + k + n, c0 + (ep - pos), cont)
    {
      hide Links, Entry, Chained.Enter, Slot, Holds, HashIt, Shift, ContAt, Three;
      cont := cont0;
      ghost var a, end := c0 + k, c0 + (ep - pos);
      LinksShape(hash[..], nexts[..], now0 - DOT);
      for i := 0 to n
        invariant Links(hash[..], nexts[..], now0 + i - DOT) && ContAt(s, a + i, end, cont)
        invariant Tables() == EnterUpTo(old(Tables()), s, a, a + i, end)
      {
        LinksLater(hash[..], nexts[..], now0 + i - DOT, now0 + i + 1 - DOT);
        if p + i + MIN_MATCH <= ep {
          HashThree(s, a + i, end, cont);
          Enter(hash, nexts, HashIt(cont), now0 + i, now0 + i + 1 - DOT);
          if p + i + MIN_MATCH < ep {
            ByteAt(c0, k + i + MIN_MATCH);
            ShiftThree(s, a + i, end, cont);
            cont := Shift(cont, hist[p + i + MIN_MATCH]);
          } else {
            NothingAfter(s, a + i + 1, end, cont);
          }
        } else {
          NothingAfter(s, a + i + 1, end, cont);
        }
      }
    }

    /** A match for position a that is longer than runlen0, or 2 if there is none worth having. */
    method Find(ghost c0: nat, k: nat, es: nat, cont: nat, runlen0: nat, now1: nat) returns (runlen: nat, m: nat)
      requires RingAt(c0) && Links(hash[..], nexts[..], c0 + k) && now1 == DOT + c0 + k && runlen0 >= MIN_MATCH - 1
      requires pos + k <= es <= HIST_SIZE && es <= pos + k + MAX_MATCH && es - pos <= avail
      ensures runlen <= runlen0
              || (pos + k + runlen <= es && MatchAt(s, c0 + k, runlen, m + 1) && GoodLength(runlen, m))
      ensures runlen == runlen0 || runlen == MIN_MATCH - 1 || runlen > runlen0
      ensures es > pos + k ==> (runlen, m) == Backed(Found(s, c0 + k, es - (pos + k), nexts[..], hash[HashIt(cont)],
                                                           runlen0, maxcheck))
    {
      hide Holds, MatchAt, Slot, Found, HashIt;
      if es == pos + k {
        return runlen0, 0;
      }
      var h := HashIt(cont);
      ByteAt(c0, k);
      assert Entry(hash[..][h], c0 + k);
      runlen, m := LzMatch(now1 - DOT, hash[h], pos + k, es, nexts, hist, runlen0, maxcheck, hash[..], s, Oldest(|s|));
      if runlen == MIN_MATCH && m >= MIN_MATCH_MAX_OFF {
        runlen := MIN_MATCH - 1;
        m := 0;
      } else if runlen != runlen0 {
        MatchFacts(s, c0 + k, runlen, m + 1);
      }
    }

    /** What a call of the parser may rely on: position c0 + k is next, the block ends at c0 + used. */
    ghost predicate Turning(b: Block, start: nat, c0: nat, k: nat, limit: nat, plen: nat, poff: nat)
      reads this, hist, b, b.parse, b.litlencount, b.offcount
    {
      && RingAt(c0) && b.Valid(s, start) && limit <= avail && pos + limit <= HIST_SIZE && c0 + limit <= start + 65535
      && c0 <= start + b.Used() && start + b.Used() + Pending(plen) <= c0 + limit && k <= limit
      && Lazy(s, start + b.Used(), DOT + c0 + k, plen, poff)
    }

    /** The pending match was at least as good: use it. */
    method TakeOld(b: Block, tables: MatchTables, ghost start: nat, ghost c0: nat, ghost k: nat, ghost limit: nat,
                   plen: nat, poff: nat)
      returns (step: nat)
      requires Turning(b, start, c0, k, limit, plen, poff) && tables.Valid() && plen != MIN_MATCH - 1
      modifies b, b.parse, b.litlencount, b.offcount
      ensures step == plen - 1 && Turning(b, start, c0, k + step, limit, MIN_MATCH - 1, poff)
      ensures b.Toks(s, start) == old(b.Toks(s, start)) + [Match(plen, poff + 1)]
    {
      hide Holds, Parsed, MatchAt, Slot, Total, MatchTables.Valid;
      b.PutMatch(plen - MIN_MATCH, poff, tables, s, start);
      step := plen - 1;
    }

    /** Nothing pending and no match: a literal. */
    method TakeLit(b: Block, ghost start: nat, ghost c0: nat, k: nat, ghost limit: nat, ghost poff: nat)
      requires Turning(b, start, c0, k, limit, MIN_MATCH - 1, poff) && k < limit
      modifies b, b.parse, b.litlencount
      ensures Turning(b, start, c0, k + 1, limit, MIN_MATCH - 1, poff)
      ensures b.Toks(s, start) == old(b.Toks(s, start)) + [Lit(s[c0 + k])]
    {
      hide Holds, Parsed, MatchAt, Slot, Total;
      ByteAt(c0, k);
      b.PutLit(hist[pos + k], s, start);
    }

    /** A longer match one further on: the pending one becomes a literal. */
    method DropOld(b: Block, ghost start: nat, ghost c0: nat, k: nat, ghost limit: nat, ghost plen: nat,
                   ghost poff: nat)
      requires Turning(b, start, c0, k, limit, plen, poff) && plen != MIN_MATCH - 1
      modifies b, b.parse, b.litlencount
      ensures Turning(b, start, c0, k, limit, MIN_MATCH - 1, poff)
      ensures c0 + k > 0 && b.Toks(s, start) == old(b.Toks(s, start)) + [Lit(s[c0 + k - 1])]
    {
      hide Holds, Parsed, MatchAt, Slot, Total;
      ByteAt(c0, k - 1);
      b.PutLit(hist[pos + k - 1], s, start);
    }

    /** Wait for a better match at the next position, unless this one is long enough. */
    method TakeNew(b: Block, tables: MatchTables, ghost start: nat, ghost c0: nat, ghost k: nat, ghost limit: nat,
                   runlen: nat, m: nat)
      returns (step: nat, plen: nat)
      requires Turning(b, start, c0, k, limit, MIN_MATCH - 1, m) && tables.Valid() && k + runlen <= limit
      requires MatchAt(s, c0 + k, runlen, m + 1) && GoodLength(runlen, m)
      modifies b, b.parse, b.litlencount, b.offcount
      ensures step > 0 && k + step <= limit && Turning(b, start, c0, k + step, limit, plen, m)
      ensures if runlen < maxcheck / 4 then step == 1 && plen == runlen && b.Toks(s, start) == old(b.Toks(s, start))
              else step == runlen && plen == MIN_MATCH - 1
                   && b.Toks(s, start) == old(b.Toks(s, start)) + [Match(runlen, m + 1)]
    {
      hide Holds, Parsed, MatchAt, Slot, Total, MatchTables.Valid;
      if runlen < maxcheck / 4 {
        step, plen := 1, runlen;
      } else {
        b.PutMatch(runlen - MIN_MATCH, m, tables, s, start);
        step, plen := runlen, MIN_MATCH - 1;
      }
    }

    /** One turn of the parser at position c0 + k: how far it moves, and the new lazy state. */
    method Turn(b: Block, tables: MatchTables, ghost start: nat, ghost c0: nat, k: nat, es: nat, ghost limit: nat,
                cont: nat, plen0: nat, poff0: nat, now1: nat) returns (step: nat, plen: nat, poff: nat)
      requires Turning(b, start, c0, k, limit, plen0, poff0) && tables.Valid() && Links(hash[..], nexts[..], c0 + k)
      requires now1 == DOT + c0 + k && pos + k < es <= pos + limit && es <= pos + k + MAX_MATCH
      modifies b, b.parse, b.litlencount, b.offcount
      ensures step > 0 && k + step <= limit && Turning(b, start, c0, k + step, limit, plen, poff)
      ensures var (r, m) := Backed(Found(s, c0 + k, es - (pos + k), nexts[..], hash[HashIt(cont)], plen0, maxcheck));
              Decides(s, c0 + k, r, m, plen0, poff0, maxcheck / 4, step, plen, poff, old(b.Toks(s, start)),
                      b.Toks(s, start))
    {
      hide Turning, MatchTables.Valid, Links, MatchAt, GoodLength, Found, HashIt, Decides, Backed, Block.Toks,
           Block.Valid;
      TurningFacts(b, start, c0, k, limit, plen0, poff0);
      var runlen, m := Find(c0, k, es, cont, plen0, now1);
      step, plen, poff := MakeMove(b, tables, start, c0, k, limit, plen0, poff0, runlen, m);
    }

    /** Use the old match, a literal, or the new match. */
    method MakeMove(b: Block, tables: MatchTables, ghost start: nat, ghost c0: nat, k: nat, ghost limit: nat,
                    plen0: nat, poff0: nat, runlen: nat, m: nat) returns (step: nat, plen: nat, poff: nat)
      requires Turning(b, start, c0, k, limit, plen0, poff0) && tables.Valid() && k < limit
      requires runlen >= MIN_MATCH - 1 && plen0 >= MIN_MATCH - 1
      requires runlen <= plen0 || (k + runlen <= limit && MatchAt(s, c0 + k, runlen, m + 1) && GoodLength(runlen, m))
      modifies b, b.parse, b.litlencount, b.offcount
      ensures step > 0 && k + step <= limit && Turning(b, start, c0, k + step, limit, plen, poff)
      ensures Decides(s, c0 + k, runlen, m, plen0, poff0, maxcheck / 4, step, plen, poff, old(b.Toks(s, start)),
                      b.Toks(s, start))
    {
      hide Turning, MatchTables.Valid, MatchAt, GoodLength, Block.Toks, Block.Valid, Slot, Holds;
      TurningFacts(b, start, c0, k, limit, plen0, poff0);
      plen, poff := plen0, poff0;
      if plen >= runlen && plen != MIN_MATCH - 1 {
        step := TakeOld(b, tables, start, c0, k, limit, plen, poff);
        plen := MIN_MATCH - 1;
        TurningFacts(b, start, c0, k + step, limit, plen, poff);
      } else if runlen == MIN_MATCH - 1 {
        TakeLit(b, start, c0, k, limit, poff);
        step := 1;
      } else {
        TokensLeft(b, start, c0, k, limit, plen, poff);
        ghost var was, lits := b.Toks(s, start), [];
        if plen != MIN_MATCH - 1 {
          DropOld(b, start, c0, k, limit, plen, poff);
          lits := [Lit(s[c0 + k - 1])];
          TokensLeft(b, start, c0, k, limit, MIN_MATCH - 1, poff);
        }
        assert b.Toks(s, start) == was + lits;
        SameTurn(b, start, c0, k, limit, poff, m);
        poff := m;
        step, plen := TakeNew(b, tables, start, c0, k, limit, runlen, m);
      }
    }

    lemma TokensLeft(b: Block, start: nat, c0: nat, k: nat, limit: nat, plen: nat, poff: nat)
      requires Turning(b, start, c0, k, limit, plen, poff)
      ensures b.Valid(s, start)
    {
    }

    lemma TurningFacts(b: Block, start: nat, c0: nat, k: nat, limit: nat, plen: nat, poff: nat)
      requires Turning(b, start, c0, k, limit, plen, poff)
      ensures RingAt(c0) && limit <= avail && pos + limit <= HIST_SIZE && plen >= MIN_MATCH - 1 && k <= limit
    {
    }

    lemma SameTurn(b: Block, start: nat, c0: nat, k: nat, limit: nat, poff: nat, m: nat)
      requires Turning(b, start, c0, k, limit, MIN_MATCH - 1, poff)
      ensures Turning(b, start, c0, k, limit, MIN_MATCH - 1, m)
    {
    }

    /** The parser's loop. */
    method Turns(b: Block, tables: MatchTables, ghost start: nat, ghost c0: nat, k0: nat, ep: nat, finish: bool,
                 cont0: nat,
                 plen0: nat, poff0: nat, now0: nat) returns (k: nat, plen: nat, poff: nat, now1: nat)
      requires pos <= ep && Turning(b, start, c0, k0, ep - pos, plen0, poff0) && tables.Valid()
      requires now0 == DOT + c0 + k0 && Links(hash[..], nexts[..], c0 + k0)
               && ContAt(s, c0 + k0, c0 + (ep - pos), cont0)
      modifies hash, nexts, b, b.parse, b.litlencount, b.offcount
      ensures k >= k0 && Turning(b, start, c0, k, ep - pos, plen, poff)
      ensures now1 == DOT + c0 + k && Links(hash[..], nexts[..], c0 + k)
      ensures Tables() == EnterUpTo(old(Tables()), s, c0 + k0, c0 + k, c0 + (ep - pos))
      ensures if finish then pos + k == ep else pos + k + MAX_MATCH > ep
    {
      hide Turning, MatchTables.Valid, Links, ContAt, EnterUpTo, Decides, Found, HashIt, Backed, Block.Toks,
           Block.Valid,
           Chained.Shape, Slot, Holds;
      k, plen, poff, now1 := k0, plen0, poff0, now0;
      var cont := cont0;
      TurningFacts(b, start, c0, k, ep - pos, plen, poff);
      ghost var t0, end := Tables(), c0 + (ep - pos);
      LinksShape(hash[..], nexts[..], c0 + k);
      EnterNone(t0, s, c0 + k, end);
      while true
        invariant k0 <= k <= ep - pos && Turning(b, start, c0, k, ep - pos, plen, poff)
        invariant now1 == DOT + c0 + k && Links(hash[..], nexts[..], c0 + k) && ContAt(s, c0 + k, end, cont)
        invariant Tables() == EnterUpTo(t0, s, c0 + k0, c0 + k, end)
        decreases ep - pos - k
      {
        var es := pos + k + MAX_MATCH;
        if es > ep {
          if !finish || pos + k >= ep {
            break;
          }
          es := ep;
        }
        var step;
        step, plen, poff := Turn(b, tables, start, c0, k, es, ep - pos, cont, plen, poff, now1);
        cont := Advance(pos + k, step, ep, cont, now1, c0, k);
        EnterMore(t0, s, c0 + k0, c0 + k, c0 + k + step, end);
        k, now1 := k + step, now1 + step;
      }
    }

    /**
     Parse up to the index ep, or as far as the longest match could reach unless this is
     the end of the input; returns how many bytes have been encoded.
     */
    method LzComp(b: Block, tables: MatchTables, ep: nat, finish: bool, ghost start: nat,
                  ghost c0: nat) returns (n: nat)
      requires Valid(c0) && tables.Valid() && b.Valid(s, start) && c0 == start + b.Used()
      requires pos <= ep <= HIST_SIZE && ep - pos <= avail && pos + Pending(prevlen) <= ep
               && b.Used() + (ep - pos) <= 65535
      modifies `now, `prevlen, `prevoff, hash, nexts, b, b.parse, b.litlencount, b.offcount
      ensures n <= ep - pos && RingAt(c0) && b.Valid(s, start) && c0 + n == start + b.Used()
      ensures Lazy(s, c0 + n, now, prevlen, prevoff) && Links(hash[..], nexts[..], now - DOT)
              && n + Pending(prevlen) <= ep - pos
      ensures if finish then n == ep - pos && prevlen == MIN_MATCH - 1 else n + MAX_MATCH >= ep - pos
      ensures var a := c0 + if old(prevlen) != MIN_MATCH - 1 then 1 else 0;
              var left := c0 + (ep - pos) - a;
              && old(Tables()).Shape() && 0 <= left && a <= now - DOT
              && Tables() == EnterUpTo(Hanging(old(Tables()), s, a,
                if left < 1 then 0 else if left > 2 then 2 else left - 1),
                                       s, a, now - DOT, c0 + (ep - pos))
    {
      hide Block.Valid, MatchTables.Valid, Links, MatchAt, Holds, Slot, ContAt, EnterUpTo, Hanging, Three;
      ghost var limit := ep - pos;
      var k := if prevlen != MIN_MATCH - 1 then 1 else 0;
      LinksShape(hash[..], nexts[..], now - DOT);
      var m := if ep - (pos + k) < MIN_MATCH then ep - (pos + k) else MIN_MATCH;
      var cont := Rehash(pos + k, m, c0, k);
      cont := FirstHash(pos + k, m, cont, c0, k);
      FirstCont(s, c0 + k, c0 + limit, cont, m);
      var plen, poff := prevlen, prevoff;
      assert Turning(b, start, c0, k, limit, plen, poff);
      k, plen, poff, now := Turns(b, tables, start, c0, k, ep, finish, cont, plen, poff, now);
      prevlen, prevoff := plen, poff;
      n := if prevlen != MIN_MATCH - 1 then k - 1 else k;
    }
  }

  /** Small matches too far in the past are given up. */
  function Backed(found: (nat, nat)): (nat, nat)
  {
    if found.0 == MIN_MATCH && found.1 >= MIN_MATCH_MAX_OFF then (MIN_MATCH - 1, 0) else found
  }

  /**
   Lazy matching at position a,
     where a match of runlen bytes at m + 1 has been found (2 if none) and one of plen bytes at
   poff + 1 is pending for the position before (2 if none): how far to move, what is pending then, and the tokens.
   */
  ghost predicate Decides(s: seq<byte>, a: nat, runlen: nat, m: nat, plen0: nat, poff0: nat, defer: nat,
                          step: nat, plen: nat, poff: nat, was: seq<Token>, now: seq<Token>)
  {
    if plen0 != 2 && plen0 >= runlen then // the old one is as good
      step == plen0 - 1 && plen == 2 && now == was + [Match(plen0, poff0 + 1)]
    else if runlen == 2 then
      a < |s| && step == 1 && plen == 2 && now == was + [Lit(s[a])]
    else
      && (plen0 != 2 ==> 0 < a <= |s|)
      && var lits := if plen0 != 2 then [Lit(s[a - 1])] else [];
      if runlen < defer then step == 1 && plen == runlen && poff == m && now == was + lits // wait for a longer one
      else step == runlen && plen == 2 && now == was + lits + [Match(runlen, m + 1)]
  }

  lemma EnterNone(t: Chained, s: seq<byte>, a: nat, end: nat)
    requires t.Shape() && end <= |s|
    ensures EnterUpTo(t, s, a, a, end) == t
  {
  }

  lemma {:induction false} EnterMore(t: Chained, s: seq<byte>, a: nat, b: nat, c: nat, end: nat)
    requires t.Shape() && end <= |s| && a <= b <= c
    ensures EnterUpTo(EnterUpTo(t, s, a, b, end), s, b, c, end) == EnterUpTo(t, s, a, c, end)
    decreases c
  {
    hide Chained.Enter, HashIt, Three;
    if b < c {
      EnterMore(t, s, a, b, c - 1, end);
    }
  }

  lemma FirstCont(s: seq<byte>, a: nat, end: nat, cont: nat, n: nat)
    requires a <= end && n == (if end - a < MIN_MATCH then end - a else MIN_MATCH)
    requires n == MIN_MATCH ==> a + 3 <= |s| && cont % 0x100_0000 == Three(s, a)
    ensures ContAt(s, a, end, cont)
  {
  }

  lemma LinksShape(hash: seq<word16>, nexts: seq<word16>, pos: nat)
    requires Links(hash, nexts, pos)
    ensures Chained(hash, nexts).Shape()
  {
  }

  lemma NothingAfter(s: seq<byte>, a: nat, end: nat, cont: nat)
    requires end < a + 3
    ensures ContAt(s, a, end, cont)
  {
  }

  lemma ShiftTwice(b: byte, c: byte, d: byte)
    ensures Shift(Shift(b, c), d) == (b * 256 + c) * 256 + d
  {
  }

  lemma ShiftThrice(cont: nat, b: byte, c: byte, d: byte)
    ensures Shift(Shift(Shift(cont, b), c), d) % 0x100_0000 == (b * 256 + c) * 256 + d
  {
    hide Shift;
    var x := Shift(cont, b);
    ShiftOne(cont, b);
    ShiftTwo(x, c, b);
    ShiftLast(Shift(x, c), d, b * 256 + c);
  }

  /** A shift puts a byte below what was there. */
  lemma ShiftBelow(cont: nat, b: byte) returns (q: nat)
    ensures Shift(cont, b) == 256 * (cont - 0x100_0000 * q) + b
  {
    q := (cont * 256 + b) / 0x1_0000_0000;
  }

  lemma ShiftOne(cont: nat, b: byte)
    ensures Shift(cont, b) % 256 == b
  {
    hide Shift;
    var q := ShiftBelow(cont, b);
  }

  lemma ShiftTwo(cont: nat, b: byte, low: nat)
    requires cont % 256 == low
    ensures Shift(cont, b) % 0x1_0000 == low * 256 + b
  {
    hide Shift;
    var q := ShiftBelow(cont, b);
    var u := cont / 256;
    assert Shift(cont, b) == 0x1_0000 * (u - 0x1_0000 * q) + (low * 256 + b);
  }

  lemma ShiftLast(cont: nat, b: byte, low: nat)
    requires cont % 0x1_0000 == low
    ensures Shift(cont, b) % 0x100_0000 == low * 256 + b
  {
    hide Shift;
    var q := ShiftBelow(cont, b);
    var u := cont / 0x1_0000;
    assert Shift(cont, b) == 0x100_0000 * (u - 256 * q) + (low * 256 + b);
  }

  /** The largest level for which 1 << level is an int. */
  const MAX_LEVEL := 30

  /** How many chain entries a search looks at. */
  function Tuning(level: nat): (m: nat)
    requires level <= MAX_LEVEL
    ensures 2 <= m <= 1024
  {
    var m := Pow2(level) - Pow2(level) / 4;
    if m < 2 then 2 else if m > 1024 then 1024 else m
  }
}
