/**
 Bit fields in a buffer or in mapped memory, accessed in units of one to eight bytes.

 Memory is looked at as the string of its bits, lowest bit of the lowest byte first.
 */
module AmlField {
  import opened Bits

  // ----- little-endian numbers

  lemma {:induction false} BitOfByte(v: nat, n: nat, k: nat)
    requires k < n
    ensures ToBits(v, n)[k] == (Shr(v, k) % 2 == 1)
    decreases k
  {
    if k > 0 {
      BitOfByte(v / 2, n - 1, k - 1);
    }
  }

  lemma {:induction false} ByteOfBits(s: seq<byte>, i: nat)
    requires i < |s|
    ensures ByteBits(s)[8 * i..8 * i + 8] == ToBits(s[i], 8)
  {
    hide ToBits;
    if i == 0 {
      assert ByteBits(s)[0..8] == ToBits(s[0], 8);
    } else {
      ByteOfBits(s[1..], i - 1);
      assert ByteBits(s)[8..] == ByteBits(s[1..]);
      assert ByteBits(s)[8 * i..8 * i + 8] == ByteBits(s[1..])[8 * (i - 1)..8 * (i - 1) + 8];
    }
  }

  lemma SliceBits(s: seq<byte>, i: nat, j: nat)
    requires i <= j <= |s|
    ensures ByteBits(s)[8 * i..8 * j] == ByteBits(s[i..j])
  {
    hide ByteBits;
    var a, b, c := s[..i], s[i..j], s[j..];
    ThreeParts(s, i, j);
    ByteBitsConcat(a + b, c);
    ByteBitsConcat(a, b);
    Middle(ByteBits(a), ByteBits(b), ByteBits(c));
  }

  lemma ThreeParts(s: seq<byte>, i: nat, j: nat)
    requires i <= j <= |s|
    ensures s[..i] + s[i..j] + s[j..] == s
  {
    assert s[..i] + s[i..j] == s[..j];
  }

  lemma Middle(a: seq<bool>, b: seq<bool>, c: seq<bool>)
    ensures (a + b + c)[|a|..|a| + |b|] == b
  {
  }

  /** Bytes as a number, least significant first. */
  function LeValue(p: seq<byte>): nat
  {
    if p == [] then 0 else p[0] + 256 * LeValue(p[1..])
  }

  lemma {:induction false} BitsOfBytes(p: seq<byte>)
    ensures FromBits(ByteBits(p)) == LeValue(p)
  {
    hide FromBits, ToBits, Shl;
    if p == [] {
      NoBits();
    } else {
      BitsOfBytes(p[1..]);
      FromConcat(ToBits(p[0], 8), ByteBits(p[1..]));
      Pow2Small();
      FromTo(p[0], 8);
      EightUp(LeValue(p[1..]));
    }
  }

  method GetLe(p: seq<byte>) returns (v: nat)
    ensures v == FromBits(ByteBits(p)) && v == LeValue(p)
  {
    hide ByteBits, FromBits, Shl;
    v := 0;
    assert p[..0] == [];
    NoBits();
    for i := 0 to |p|
      invariant v == FromBits(ByteBits(p[..i]))
    {
      assert p[..i + 1] == p[..i] + [p[i]];
      ByteBitsConcat(p[..i], [p[i]]);
      ByteBitsSingle(p[i]);
      Pow2Small();
      FromTo(p[i], 8);
      FromConcat(ByteBits(p[..i]), ByteBits([p[i]]));
      v := v + Shl(p[i], 8 * i);
    }
    assert p[..|p|] == p;
    BitsOfBytes(p);
  }

  lemma NoBits()
    ensures FromBits(ByteBits([])) == 0
  {
  }

  /** Store the low bytes of v at off. */
  method PutLe(mem: array<byte>, off: nat, len: nat, v0: nat)
    requires off + len <= mem.Length
    modifies mem
    ensures mem[..off] == old(mem[..off]) && mem[off + len..] == old(mem[off + len..])
    ensures ByteBits(mem[off..off + len]) == ToBits(v0, 8 * len)
    ensures v0 < Pow2(8 * len) ==> LeValue(mem[off..off + len]) == v0
  {
    hide ByteBits, ToBits, Shr, Low;
    ghost var a, c := mem[..off], mem[off + len..];
    var v := v0;
    assert mem[off..off] == [];
    PutStart(v0);
    for i := 0 to len
      invariant mem[..off] == a && mem[off + len..] == c
      invariant v == Shr(v0, 8 * i) && ByteBits(mem[off..off + i]) == ToBits(v0, 8 * i)
    {
      PutNext(v0, i, mem[off..off + i]);
      ghost var s := mem[off..off + i];
      LowIsByte(v);
      mem[off + i] := Low(v, 8);
      assert mem[off..off + i + 1] == s + [Low(v, 8)];
      assert mem[..off] == a && mem[off + len..] == c;
      v := Shr(v, 8);
    }
    FromTo(v0, 8 * len);
    BitsOfBytes(mem[off..off + len]);
  }

  lemma LowIsByte(v: nat)
    ensures Low(v, 8) < 256
  {
    ShrLow(v, 8);
    Pow2Small();
  }

  lemma PutStart(v: nat)
    ensures ByteBits([]) == ToBits(v, 0) && Shr(v, 0) == v
  {
  }

  lemma PutNext(v: nat, i: nat, s: seq<byte>)
    requires ByteBits(s) == ToBits(v, 8 * i)
    ensures Low(Shr(v, 8 * i), 8) < 256 && Shr(Shr(v, 8 * i), 8) == Shr(v, 8 * (i + 1))
    ensures ByteBits(s + [Low(Shr(v, 8 * i), 8)]) == ToBits(v, 8 * (i + 1))
  {
    hide ByteBits, ToBits, Shr, Low, FromBits;
    var u := Shr(v, 8 * i);
    LowIsByte(u);
    ShrShr(v, 8 * i, 8);
    ByteBitsConcat(s, [Low(u, 8)]);
    ByteBitsSingle(Low(u, 8));
    FromTo(u, 8);
    ToFrom(ToBits(u, 8));
    ToSplit(v, 8 * (i + 1), 8 * i);
    var b := ToBits(v, 8 * (i + 1));
    assert b == b[..8 * i] + b[8 * i..];
  }

  // ----- one access to the register or buffer

  const ALL_ONES := 0xFFFF_FFFF_FFFF_FFFF

  /** Read len bytes; all ones when they do not lie in the memory. */
  method ReadReg(mem: array<byte>, off: nat, len: nat) returns (v: nat)
    ensures off + len <= mem.Length ==>
              && 8 * (off + len) <= |ByteBits(mem[..])|
              && v == FromBits(ByteBits(mem[..])[8 * off..8 * (off + len)])
    ensures off + len > mem.Length ==> v == ALL_ONES
  {
    hide ByteBits, FromBits;
    if off + len > mem.Length {
      return ALL_ONES;
    }
    v := GetLe(mem[off..off + len]);
    SliceBits(mem[..], off, off + len);
    assert mem[..][off..off + len] == mem[off..off + len];
  }

  /** Replace the bits of b from o on by x. */
  ghost function Splice(b: seq<bool>, o: nat, x: seq<bool>): (r: seq<bool>)
    requires o + |x| <= |b|
    ensures |r| == |b|
  {
    b[..o] + x + b[o + |x|..]
  }

  /** Write len bytes; nothing happens when they do not lie in the memory. */
  method WriteReg(mem: array<byte>, off: nat, len: nat, v: nat)
    modifies mem
    ensures off + len <= mem.Length ==> ByteBits(mem[..]) == Splice(old(ByteBits(mem[..])), 8 * off, ToBits(v, 8 * len))
    ensures off + len > mem.Length ==> mem[..] == old(mem[..])
  {
    hide ByteBits, ToBits;
    if off + len <= mem.Length {
      ghost var m := mem[..];
      PutLe(mem, off, len, v);
      assert mem[..off] == m[..off] && mem[off + len..] == m[off + len..];
      SpliceBytes(m, off, len, mem[..], v);
    }
  }

  lemma SpliceBytes(m: seq<byte>, off: nat, len: nat, n: seq<byte>, v: nat)
    requires |n| == |m| && off + len <= |m| && n[..off] == m[..off] && n[off + len..] == m[off + len..]
    requires ByteBits(n[off..off + len]) == ToBits(v, 8 * len)
    ensures ByteBits(n) == Splice(ByteBits(m), 8 * off, ToBits(v, 8 * len))
  {
    hide ByteBits, ToBits;
    var a, b, c, d := m[..off], n[off..off + len], m[off + len..], m[off..off + len];
    assert n == a + b + c && m == a + d + c;
    ByteBitsConcat(a + b, c);
    ByteBitsConcat(a, b);
    ByteBitsConcat(a + d, c);
    ByteBitsConcat(a, d);
    SpliceMiddle(ByteBits(a), ByteBits(d), ByteBits(c), ByteBits(b));
  }

  lemma SpliceMiddle(a: seq<bool>, d: seq<bool>, c: seq<bool>, x: seq<bool>)
    requires |x| == |d|
    ensures Splice(a + d + c, |a|, x) == a + x + c
  {
  }

  // ----- access units

  predicate Width(wa: nat)
  {
    wa == 1 || wa == 2 || wa == 4 || wa == 8
  }

  /** wo * wa, for the four widths. */
  function Times(wo: nat, wa: nat): nat
    requires Width(wa)
  {
    if wa == 1 then wo else if wa == 2 then 2 * wo else if wa == 4 then 4 * wo else 8 * wo
  }

  /** The bits that lie in whole access units of the memory. */
  function Limit(size: nat, wa: nat): (lim: nat)
    requires Width(wa)
    ensures lim <= 8 * size
  {
    if wa == 1 then 8 * size
    else if wa == 2 then 16 * (size / 2)
    else if wa == 4 then 32 * (size / 4)
    else 64 * (size / 8)
  }

  lemma UnitInside(size: nat, wa: nat, wo: nat)
    requires Width(wa)
    ensures Times(wo, wa) + wa <= size ==> 8 * Times(wo, wa) + 8 * wa <= Limit(size, wa)
    ensures Times(wo, wa) + wa > size ==> Limit(size, wa) <= 8 * Times(wo, wa)
  {
    Inside2(size, wo);
    Inside4(size, wo);
    Inside8(size, wo);
  }

  lemma Inside2(size: nat, wo: nat)
    ensures 2 * wo + 2 <= size <==> wo < size / 2
  {
  }

  lemma Inside4(size: nat, wo: nat)
    ensures 4 * wo + 4 <= size <==> wo < size / 4
  {
  }

  lemma Inside8(size: nat, wo: nat)
    ensures 8 * wo + 8 <= size <==> wo < size / 8
  {
  }

  /** Bits off to off + len of a memory whose bits from lim on read as ones. */
  ghost function ReadBits(b: seq<bool>, lim: nat, off: nat, len: nat): (x: seq<bool>)
    requires lim <= |b|
    ensures |x| == len
  {
    seq(len, i requires 0 <= i < len => if off + i < lim then b[off + i] else true)
  }

  /** The memory with x stored at off, as far as lim allows. */
  ghost function WriteBits(b: seq<bool>, lim: nat, off: nat, x: seq<bool>): (r: seq<bool>)
    requires lim <= |b|
    ensures |r| == |b|
  {
    seq(|b|, i requires 0 <= i < |b| => if off <= i < off + |x| && i < lim then x[i - off] else b[i])
  }

  /** u & ~(((1 << wl) - 1) << ws) */
  function ClearBits(u: nat, ws: nat, wl: nat): nat
  {
    Low(u, ws) + Shl(Shr(u, ws + wl), ws + wl)
  }

  /** Read, modify, write: the unit's other bits stay. */
  lemma UnitValue(u: seq<bool>, ws: nat, x: seq<bool>)
    requires ws + |x| <= |u|
    ensures ToBits(Shl(FromBits(x), ws) + ClearBits(FromBits(u), ws, |x|), |u|) == Splice(u, ws, x)
  {
    hide ToBits, FromBits, Shl, Shr, Low, ClearBits, Splice;
    var a, c := u[..ws], u[ws + |x|..];
    SpliceIs(u, ws, x, a, c);
    ClearIs(FromBits(u), ws, |x|);
    assert Low(FromBits(u), ws) == FromBits(a) by {
      FromSplit(u, ws);
    }
    assert Shr(FromBits(u), ws + |x|) == FromBits(c) by {
      FromSplit(u, ws + |x|);
    }
    PartsBack(a, x, c, Shl(FromBits(x), ws) + ClearBits(FromBits(u), ws, |x|));
  }

  lemma SpliceIs(u: seq<bool>, ws: nat, x: seq<bool>, a: seq<bool>, c: seq<bool>)
    requires ws + |x| <= |u| && a == u[..ws] && c == u[ws + |x|..]
    ensures Splice(u, ws, x) == a + x + c && |a| == ws && |a| + |x| + |c| == |u|
  {
  }

  lemma ClearIs(u: nat, ws: nat, wl: nat)
    ensures ClearBits(u, ws, wl) == Low(u, ws) + Shl(Shr(u, ws + wl), ws + wl)
  {
  }

  lemma PartsBack(a: seq<bool>, x: seq<bool>, c: seq<bool>, v: nat)
    requires v == Shl(FromBits(x), |a|) + (FromBits(a) + Shl(FromBits(c), |a| + |x|))
    ensures ToBits(v, |a| + |x| + |c|) == a + x + c
  {
    hide ToBits, FromBits, Shl;
    PartsValue(a, x, c);
    SpliceBack(a + x + c, |a| + |x| + |c|, v);
  }

  lemma SpliceBack(s: seq<bool>, n: nat, v: nat)
    requires FromBits(s) == v && |s| == n
    ensures ToBits(v, n) == s
  {
    ToFrom(s);
  }

  lemma PartsValue(a: seq<bool>, x: seq<bool>, c: seq<bool>)
    ensures FromBits(a + x + c) == FromBits(a) + Shl(FromBits(x), |a|) + Shl(FromBits(c), |a| + |x|)
  {
    hide FromBits, Shl;
    FromConcat(a + x, c);
    FromConcat(a, x);
  }

  lemma WholeUnit(x: seq<bool>)
    ensures ToBits(Shl(FromBits(x), 0), |x|) == x
  {
    ToFrom(x);
  }

  lemma SpliceIsWrite(b: seq<bool>, lim: nat, o: nat, n: nat, ws: nat, x: seq<bool>)
    requires o + n <= lim <= |b| && ws + |x| <= n
    ensures Splice(b, o, Splice(b[o..o + n], ws, x)) == WriteBits(b, lim, o + ws, x)
  {
  }

  lemma BeyondLimit(b: seq<bool>, lim: nat, off: nat, x: seq<bool>)
    requires lim <= |b| && lim <= off
    ensures WriteBits(b, lim, off, x) == b
  {
  }

  /** Store the wl low bits of w at bit ws of unit wo. */
  method WriteUnit(mem: array<byte>, wa: nat, wo: nat, ws: nat, wl: nat, w: nat, ghost x: seq<bool>)
    requires Width(wa) && 0 < wl && ws + wl <= 8 * wa && |x| == wl && w == FromBits(x)
    modifies mem
    ensures ByteBits(mem[..]) == WriteBits(old(ByteBits(mem[..])), Limit(mem.Length, wa), 8 * Times(wo, wa) + ws, x)
  {
    hide ToBits, FromBits, Shl, Shr, Low, ByteBits, ClearBits, Splice, WriteBits, Limit, Width, Times;
    ghost var b, lim := ByteBits(mem[..]), Limit(mem.Length, wa);
    var at := Times(wo, wa);
    ghost var o := 8 * at;
    var v := Shl(w, ws);
    if wl != 8 * wa {
      var u := ReadReg(mem, at, wa);
      v := v + ClearBits(u, ws, wl);
    }
    WriteReg(mem, at, wa, v);
    UnitInside(mem.Length, wa, wo);
    if at + wa <= mem.Length {
      SpliceIsWrite(b, lim, o, 8 * wa, ws, x);
      if wl != 8 * wa {
        UnitValue(b[o..o + 8 * wa], ws, x);
      } else {
        WholeUnit(x);
        SpliceAll(b[o..o + 8 * wa], x);
      }
    } else {
      BeyondLimit(b, lim, o + ws, x);
    }
  }

  lemma SpliceAll(u: seq<bool>, x: seq<bool>)
    requires |u| == |x|
    ensures Splice(u, 0, x) == x
  {
  }

  /** The unit that holds bit i, and the bit's place in it. */
  function UnitOf(i: nat, wa: nat): (u: (nat, nat))
    requires Width(wa)
    ensures i == 8 * Times(u.0, wa) + u.1 && u.1 < 8 * wa
  {
    if wa == 1 then (i / 8, i % 8)
    else if wa == 2 then (i / 16, i % 16)
    else if wa == 4 then (i / 32, i % 32)
    else (i / 64, i % 64)
  }

  // ----- bits of a buffer

  lemma BitAt(s: seq<byte>, i: nat)
    requires i < 8 * |s|
    ensures ByteBits(s)[i] == (Shr(s[i / 8], i % 8) % 2 == 1)
  {
    hide ByteBits, ToBits, Shr;
    ByteOfBits(s, i / 8);
    BitOfByte(s[i / 8], 8, i % 8);
    assert ByteBits(s)[i] == ByteBits(s)[8 * (i / 8)..8 * (i / 8) + 8][i % 8];
  }

  /** Bits boff to boff + wl of a buffer as a number. */
  method Gather(b: seq<byte>, boff: nat, wl: nat) returns (w: nat)
    requires boff + wl <= 8 * |b|
    ensures w == FromBits(ByteBits(b)[boff..boff + wl])
  {
    hide ByteBits, Shr, Shl, FromBits;
    ghost var bb := ByteBits(b);
    w := 0;
    assert bb[boff..boff] == [];
    NoneSet();
    for i := 0 to wl
      invariant w == FromBits(bb[boff..boff + i])
    {
      BitAt(b, boff + i);
      assert bb[boff..boff + i + 1] == bb[boff..boff + i] + [bb[boff + i]];
      FromConcat(bb[boff..boff + i], [bb[boff + i]]);
      OneBit(bb[boff + i], i);
      if Shr(b[(boff + i) / 8], (boff + i) % 8) % 2 == 1 {
        w := w + Shl(1, i);
      }
    }
  }

  lemma NoneSet()
    ensures FromBits([]) == 0
  {
  }

  lemma OneBit(b: bool, i: nat)
    ensures Shl(FromBits([b]), i) == if b then Shl(1, i) else 0
  {
    assert [b][1..] == [];
    ShlZero(i);
  }

  /** Writing the first part and then the next is writing both. */
  lemma WriteOn(b: seq<bool>, lim: nat, off: nat, x: seq<bool>, y: seq<bool>)
    requires lim <= |b|
    ensures WriteBits(WriteBits(b, lim, off, x), lim, off + |x|, y) == WriteBits(b, lim, off, x + y)
  {
  }

  lemma WriteNone(b: seq<bool>, lim: nat, off: nat)
    requires lim <= |b|
    ensures WriteBits(b, lim, off, []) == b
  {
  }

  /** The writing loop of rwfield: exactly the field's bits change, as far as whole units of the memory reach. */
  method WriteField(mem: array<byte>, wa: nat, bitoff: nat, blen: nat, b: seq<byte>)
    requires Width(wa) && blen <= 8 * |b|
    modifies mem
    ensures ByteBits(mem[..]) == WriteBits(old(ByteBits(mem[..])), Limit(mem.Length, wa), bitoff, ByteBits(b)[..blen])
  {
    hide ByteBits, WriteBits, FromBits, Limit, Width, Times;
    ghost var m0, bb, lim := ByteBits(mem[..]), ByteBits(b), Limit(mem.Length, wa);
    var boff := 0;
    assert bb[..0] == [];
    WriteNone(m0, lim, bitoff);
    while boff < blen
      invariant 0 <= boff <= blen && ByteBits(mem[..]) == WriteBits(m0, lim, bitoff, bb[..boff])
    {
      var (wo, ws) := UnitOf(bitoff + boff, wa);
      var wl := if blen - boff > 8 * wa - ws then 8 * wa - ws else blen - boff;
      var w := Gather(b, boff, wl);
      ghost var x := bb[boff..boff + wl];
      WriteUnit(mem, wa, wo, ws, wl, w, x);
      WriteOn(m0, lim, bitoff, bb[..boff], x);
      assert bb[..boff] + x == bb[..boff + wl];
      boff := boff + wl;
    }
  }

  // ----- storing a buffer into a field of itself

  /** The part that is stored together with bit j begins with this bit. */
  function Start(off: nat, wa: nat, j: nat): (s: nat)
    requires Width(wa)
    ensures s <= j
  {
    var base := 8 * Times(UnitOf(off + j, wa).0, wa);
    if base <= off then 0 else base - off
  }

  /**
   The bit that becomes bit j of the field: bit j of the buffer, unless an earlier part has overwritten it; then the
   one that it was overwritten with.
   */
  function Origin(off: nat, wa: nat, j: nat): (i: nat)
    requires Width(wa)
    ensures i <= j
    decreases j
  {
    if off <= j < off + Start(off, wa, j) then Origin(off, wa, j - off) else j
  }

  /** What the field holds after its own buffer b has been stored in it. */
  ghost function OwnBits(b: seq<bool>, off: nat, wa: nat, n: nat): (x: seq<bool>)
    requires Width(wa) && n <= |b|
    ensures |x| == n
  {
    seq(n, j requires 0 <= j < n => b[Origin(off, wa, j)])
  }

  /** All bits of one part begin where the part does; the next part begins after it. */
  lemma PartStart(off: nat, wa: nat, boff: nat, wl: nat, j: nat)
    requires Width(wa) && Start(off, wa, boff) == boff && boff <= j <= boff + wl
    requires 0 < wl <= 8 * wa - UnitOf(off + boff, wa).1
    ensures j < boff + wl ==> Start(off, wa, j) == boff
    ensures wl == 8 * wa - UnitOf(off + boff, wa).1 ==> Start(off, wa, boff + wl) == boff + wl
  {
    hide UnitOf, Times;
    var (wo, ws) := UnitOf(off + boff, wa);
    NextUnit(wo, wa);
    if j < boff + wl {
      UnitIs(off + j, wa, wo, ws + (j - boff));
    }
    if wl == 8 * wa - ws {
      UnitIs(off + boff + wl, wa, wo + 1, 0);
    }
  }

  lemma NextUnit(wo: nat, wa: nat)
    requires Width(wa)
    ensures Times(wo + 1, wa) == Times(wo, wa) + wa
  {
  }

  lemma UnitIs(i: nat, wa: nat, wo: nat, ws: nat)
    requires Width(wa) && i == 8 * Times(wo, wa) + ws && ws < 8 * wa
    ensures UnitOf(i, wa) == (wo, ws)
  {
    hide Times;
    var (a, r) := UnitOf(i, wa);
    if a != wo {
      Separate(a, wo, wa);
    }
  }

  lemma Separate(a: nat, b: nat, wa: nat)
    requires Width(wa) && a != b
    ensures Times(a, wa) + wa <= Times(b, wa) || Times(b, wa) + wa <= Times(a, wa)
  {
  }

  /** Storing the part at boff, read from the memory as it is now. */
  lemma OwnPart(m: seq<bool>, lim: nat, off: nat, wa: nat, n: nat, boff: nat, wl: nat, x: seq<bool>)
    requires Width(wa) && lim <= |m| && boff + wl <= n <= |m|
    requires forall j :: boff <= j < boff + wl ==> Start(off, wa, j) == boff
    requires x == WriteBits(m, lim, off, OwnBits(m, off, wa, n)[..boff])[boff..boff + wl]
    ensures WriteBits(WriteBits(m, lim, off, OwnBits(m, off, wa, n)[..boff]), lim, off + boff, x)
         == WriteBits(m, lim, off, OwnBits(m, off, wa, n)[..boff + wl])
  {
    hide Start, Width;
    var all := OwnBits(m, off, wa, n);
    var now := WriteBits(m, lim, off, all[..boff]);
    forall i | 0 <= i < wl && off + boff + i < lim
      ensures x[i] == all[boff + i]
    {
      var j := boff + i;
      assert x[i] == now[j];
      if off <= j < off + boff {
        assert now[j] == all[j - off];
      }
    }
  }

  /** The writing loop of rwfield when the buffer stored is the memory that the field lies in. */
  method WriteOwn(mem: array<byte>, wa: nat, bitoff: nat, blen: nat)
    requires Width(wa) && blen <= 8 * mem.Length
    modifies mem
    ensures ByteBits(mem[..]) == WriteBits(old(ByteBits(mem[..])), Limit(mem.Length, wa), bitoff,
                                           OwnBits(old(ByteBits(mem[..])), bitoff, wa, blen))
  {
    hide ByteBits, WriteBits, FromBits, Limit, Width, Times, OwnBits, Start, UnitOf;
    ghost var m0, lim := ByteBits(mem[..]), Limit(mem.Length, wa);
    ghost var all := OwnBits(m0, bitoff, wa, blen);
    var boff := 0;
    assert all[..0] == [];
    WriteNone(m0, lim, bitoff);
    while boff < blen
      invariant 0 <= boff <= blen && ByteBits(mem[..]) == WriteBits(m0, lim, bitoff, all[..boff])
      invariant boff < blen ==> Start(bitoff, wa, boff) == boff
    {
      var (wo, ws) := UnitOf(bitoff + boff, wa);
      var wl := if blen - boff > 8 * wa - ws then 8 * wa - ws else blen - boff;
      var w := Gather(mem[..], boff, wl);
      ghost var x := ByteBits(mem[..])[boff..boff + wl];
      WriteUnit(mem, wa, wo, ws, wl, w, x);
      forall j | boff <= j < boff + wl
        ensures Start(bitoff, wa, j) == boff
      {
        PartStart(bitoff, wa, boff, wl, j);
      }
      PartStart(bitoff, wa, boff, wl, boff);
      OwnPart(m0, lim, bitoff, wa, blen, boff, wl, x);
      boff := boff + wl;
    }
    assert all[..blen] == all;
  }

  // ----- reading

  lemma {:induction false} OnesBits(n: nat, k: nat)
    requires k < n
    ensures Shr(Pow2(n) - 1, k) % 2 == 1
    decreases k
  {
    if k > 0 {
      assert (Pow2(n) - 1) / 2 == Pow2(n - 1) - 1;
      OnesBits(n - 1, k - 1);
    }
  }

  lemma AllOnes(k: nat)
    requires k < 64
    ensures Shr(ALL_ONES, k) % 2 == 1
  {
    Pow2Small();
    assert Pow2(32) == 0x1_0000_0000 by {
      ShlPow2(16, 16);
      assert Pow2(20) == 16 * Pow2(16) && Pow2(24) == 16 * Pow2(20) && Pow2(28) == 16 * Pow2(24)
        && Pow2(32) == 16 * Pow2(28);
    }
    assert Pow2(36) == 16 * Pow2(32) && Pow2(40) == 16 * Pow2(36) && Pow2(44) == 16 * Pow2(40)
      && Pow2(48) == 16 * Pow2(44);
    assert Pow2(52) == 16 * Pow2(48) && Pow2(56) == 16 * Pow2(52) && Pow2(60) == 16 * Pow2(56)
      && Pow2(64) == 16 * Pow2(60);
    OnesBits(64, k);
  }

  /** Bit i of what an access of unit wo gives. */
  lemma ReadUnitBit(b: seq<bool>, size: nat, wa: nat, wo: nat, i: nat, u: nat)
    requires Width(wa) && |b| == 8 * size && i < 8 * wa
    requires Times(wo, wa) + wa <= size ==> u == FromBits(b[8 * Times(wo, wa)..8 * (Times(wo, wa) + wa)])
    requires Times(wo, wa) + wa > size ==> u == ALL_ONES
    ensures (Shr(u, i) % 2 == 1) == ReadBits(b, Limit(size, wa), 8 * Times(wo, wa) + i, 1)[0]
  {
    hide FromBits, Shr, Limit, Times;
    UnitInside(size, wa, wo);
    var o := 8 * Times(wo, wa);
    if Times(wo, wa) + wa <= size {
      var x := b[o..o + 8 * wa];
      BitOfNumber(x, i);
      assert x[i] == b[o + i];
    } else {
      AllOnes(i);
    }
  }

  lemma BitOfNumber(x: seq<bool>, i: nat)
    requires i < |x|
    ensures (Shr(FromBits(x), i) % 2 == 1) == x[i]
  {
    ToFrom(x);
    BitOfByte(FromBits(x), |x|, i);
  }

  /** Or a bit into a byte where it was clear. */
  lemma SetInByte(c: byte, k: nat, v: bool)
    requires k < 8 && !ToBits(c, 8)[k]
    ensures var d := c + (if v then Shl(1, k) else 0);
            0 <= d < 256 && ToBits(d, 8) == ToBits(c, 8)[k := v]
  {
    hide ToBits, FromBits, Shl;
    var x := ToBits(c, 8);
    var a, e := x[..k], x[k + 1..];
    Pow2Small();
    FromTo(c, 8);
    assert x == a + [false] + e && x[k := v] == a + [v] + e;
    PartsValue(a, [false], e);
    PartsValue(a, [v], e);
    OneBit(false, k);
    OneBit(v, k);
    FromBound(x[k := v]);
    ToFrom(x[k := v]);
  }

  lemma SetInBytes(s: seq<byte>, i: nat, v: bool)
    requires i < 8 * |s| && !ByteBits(s)[i]
    ensures var d := s[i / 8] + (if v then Shl(1, i % 8) else 0);
            0 <= d < 256 && ByteBits(s[i / 8 := d]) == ByteBits(s)[i := v]
  {
    hide ByteBits, ToBits, Shl;
    var k := i / 8;
    ByteOfBits(s, k);
    assert ByteBits(s)[i] == ByteBits(s)[8 * k..8 * k + 8][i % 8];
    SetInByte(s[k], i % 8, v);
    var d := s[k] + (if v then Shl(1, i % 8) else 0);
    ByteParts(s, k, s[k]);
    ByteParts(s, k, d);
    assert s[k := s[k]] == s;
    UpdateMiddle(ByteBits(s[..k]), ToBits(s[k], 8), ByteBits(s[k + 1..]), i % 8, v);
  }

  lemma ByteParts(s: seq<byte>, k: nat, d: byte)
    requires k < |s|
    ensures ByteBits(s[k := d]) == ByteBits(s[..k]) + ToBits(d, 8) + ByteBits(s[k + 1..])
  {
    hide ByteBits, ToBits;
    assert s[k := d] == s[..k] + [d] + s[k + 1..];
    ByteBitsConcat(s[..k] + [d], s[k + 1..]);
    ByteBitsConcat(s[..k], [d]);
    ByteBitsSingle(d);
  }

  lemma UpdateMiddle(a: seq<bool>, x: seq<bool>, c: seq<bool>, i: nat, v: bool)
    requires i < |x|
    ensures (a + x + c)[|a| + i := v] == a + x[i := v] + c
  {
  }

  /** Store wl bits of w in a buffer whose bits from boff on are clear. */
  method Scatter(b: array<byte>, boff: nat, wl: nat, w0: nat, ghost x: seq<bool>)
    requires boff + wl <= 8 * b.Length && |x| == wl && forall i :: 0 <= i < wl ==> x[i] == (Shr(w0, i) % 2 == 1)
    requires ByteBits(b[..])[boff..] == Zeros(8 * b.Length - boff)
    modifies b
    ensures ByteBits(b[..]) == old(ByteBits(b[..]))[..boff] + x + Zeros(8 * b.Length - boff - wl)
  {
    hide ByteBits, Shr, Shl;
    ghost var bb, n := ByteBits(b[..]), 8 * b.Length;
    var w := w0;
    ShrNone(w0);
    assert bb == bb[..boff] + x[..0] + Zeros(n - boff - 0);
    for i := 0 to wl
      invariant ByteBits(b[..]) == bb[..boff] + x[..i] + Zeros(n - boff - i)
      invariant w == Shr(w0, i)
    {
      ghost var s, j := b[..], boff + i;
      SetInBytes(s, j, x[i]);
      NextBit(bb[..boff], x, i, n - boff);
      b[(boff + i) / 8] := b[(boff + i) / 8] + (if w % 2 == 1 then Shl(1, (boff + i) % 8) else 0);
      assert b[..] == s[j / 8 := s[j / 8] + (if x[i] then Shl(1, j % 8) else 0)];
      ShrOne(w0, i);
      w := w / 2;
    }
    assert x[..wl] == x;
  }

  lemma NextBit(a: seq<bool>, x: seq<bool>, i: nat, n: nat)
    requires i < |x| <= n
    ensures (a + x[..i] + Zeros(n - i))[|a| + i] == false
    ensures (a + x[..i] + Zeros(n - i))[|a| + i := x[i]] == a + x[..i + 1] + Zeros(n - (i + 1))
  {
  }

  lemma ShrNone(w: nat)
    ensures Shr(w, 0) == w
  {
  }

  lemma ShrOne(w: nat, i: nat)
    ensures Shr(w, i) / 2 == Shr(w, i + 1)
  {
    ShrStep(w, i + 1);
  }

  lemma ReadOn(b: seq<bool>, lim: nat, off: nat, m: nat, n: nat)
    requires lim <= |b|
    ensures ReadBits(b, lim, off, m) + ReadBits(b, lim, off + m, n) == ReadBits(b, lim, off, m + n)
  {
  }

  lemma BytesFor(n: nat)
    ensures n <= 8 * ((n + 7) / 8)
  {
  }

  /** The reading loop of rwfield. */
  method ReadField(mem: array<byte>, wa: nat, bitoff: nat, blen: nat) returns (b: array<byte>)
    requires Width(wa)
    ensures fresh(b) && b.Length == (blen + 7) / 8
    ensures ByteBits(b[..])
            == ReadBits(ByteBits(mem[..]), Limit(mem.Length, wa), bitoff, blen) + Zeros(8 * b.Length - blen)
  {
    hide ByteBits, ReadBits, FromBits, Limit, Width, Times, Shr, Zeros;
    ghost var ms := mem[..];
    ghost var m, lim := ByteBits(ms), Limit(mem.Length, wa);
    BytesFor(blen);
    var size := (blen + 7) / 8;
    b := new byte[size](_ => 0);
    ghost var n := 8 * size;
    ClearBuffer(b[..]);
    ReadNone(m, lim, bitoff);
    var boff := 0;
    assert [] + Zeros(n) == Zeros(n);
    while boff < blen
      invariant 0 <= boff <= blen <= n && b != mem && mem[..] == ms
      invariant ByteBits(b[..]) == ReadBits(m, lim, bitoff, boff) + Zeros(n - boff)
    {
      assert 8 * b.Length == n;
      var wl := ReadUnit(mem, wa, bitoff, boff, blen, b, m, lim);
      boff := boff + wl;
    }
  }

  /** Read as much of the field as one unit holds. */
  method ReadUnit(mem: array<byte>, wa: nat, bitoff: nat, boff: nat, blen: nat, b: array<byte>, ghost m: seq<bool>,
                  ghost lim: nat) returns (wl: nat)
    requires Width(wa) && boff < blen <= 8 * b.Length && b != mem && m == ByteBits(mem[..])
             && lim == Limit(mem.Length, wa)
    requires ByteBits(b[..]) == ReadBits(m, lim, bitoff, boff) + Zeros(8 * b.Length - boff)
    modifies b
    ensures 0 < wl <= blen - boff
    ensures ByteBits(b[..]) == ReadBits(m, lim, bitoff, boff + wl) + Zeros(8 * b.Length - boff - wl)
  {
    hide ByteBits, ReadBits, FromBits, Limit, Width, Times, Shr, Zeros;
    var (wo, ws) := UnitOf(bitoff + boff, wa);
    wl := if blen - boff > 8 * wa - ws then 8 * wa - ws else blen - boff;
    var u := ReadReg(mem, Times(wo, wa), wa);
    ghost var x, done := ReadBits(m, lim, bitoff + boff, wl), ReadBits(m, lim, bitoff, boff);
    UnitBits(m, mem.Length, wa, wo, ws, wl, bitoff + boff, u);
    DoneAndClear(done, Zeros(8 * b.Length - boff));
    Scatter(b, boff, wl, Shr(u, ws), x);
    ReadOn(m, lim, bitoff, boff, wl);
  }

  lemma DoneAndClear(done: seq<bool>, z: seq<bool>)
    ensures (done + z)[|done|..] == z && (done + z)[..|done|] == done
  {
  }

  lemma {:induction false} ClearBuffer(s: seq<byte>)
    requires forall i :: 0 <= i < |s| ==> s[i] == 0
    ensures ByteBits(s) == Zeros(8 * |s|)
  {
    if s != [] {
      ClearBuffer(s[1..]);
      ZeroByte();
      assert Zeros(8) + Zeros(8 * (|s| - 1)) == Zeros(8 * |s|);
    }
  }

  lemma ZeroByte()
    ensures ToBits(0, 8) == Zeros(8)
  {
    FromZeros(8);
    ToFrom(Zeros(8));
  }

  lemma ReadNone(b: seq<bool>, lim: nat, off: nat)
    requires lim <= |b|
    ensures ReadBits(b, lim, off, 0) == []
  {
  }

  lemma UnitBits(m: seq<bool>, size: nat, wa: nat, wo: nat, ws: nat, wl: nat, off: nat, u: nat)
    requires Width(wa) && |m| == 8 * size && ws + wl <= 8 * wa && off == 8 * Times(wo, wa) + ws
    requires Times(wo, wa) + wa <= size ==> u == FromBits(m[8 * Times(wo, wa)..8 * (Times(wo, wa) + wa)])
    requires Times(wo, wa) + wa > size ==> u == ALL_ONES
    ensures var x := ReadBits(m, Limit(size, wa), off, wl);
            forall i :: 0 <= i < wl ==> x[i] == (Shr(Shr(u, ws), i) % 2 == 1)
  {
    hide FromBits, Shr, Limit, Times;
    var x := ReadBits(m, Limit(size, wa), off, wl);
    forall i | 0 <= i < wl
      ensures x[i] == (Shr(Shr(u, ws), i) % 2 == 1)
    {
      ShrShr(u, ws, i);
      ReadUnitBit(m, size, wa, wo, ws + i, u);
    }
  }

  // ----- fields

  /** What is stored: Own is the very buffer that the field lies in, Buffer any other. */
  datatype Value = Nil | Int(v: nat) | Buffer(b: seq<byte>) | Own

  datatype Field = Field(flags: nat, bitoff: nat, bitlen: nat)

  /** The access width in bytes. */
  function FieldAlign(flags: nat): (wa: nat)
    ensures Width(wa)
  {
    match flags % 8
    case 2 => 2
    case 3 => 4
    case 4 => 8
    case _ => 1
  }

  function Min(a: nat, b: nat): nat
  {
    if a <= b then a else b
  }

  /** The bits that a store puts into a field of memory b, in units of wa bytes. */
  ghost function PayloadBy(b: seq<bool>, f: Field, v: Value, wa: nat): (x: seq<bool>)
    requires Width(wa)
    ensures |x| <= f.bitlen
  {
    match v
    case Nil => ToBits(0, f.bitlen)
    case Int(w) => ToBits(w, f.bitlen)
    case Buffer(s) => if 8 * |s| < f.bitlen then ByteBits(s) else ByteBits(s)[..f.bitlen]
    case Own => OwnBits(b, f.bitoff, wa, Min(f.bitlen, |b|))
  }

  ghost function Payload(b: seq<bool>, f: Field, v: Value): (x: seq<bool>)
    ensures |x| <= f.bitlen
  {
    PayloadBy(b, f, v, FieldAlign(f.flags))
  }

  /** Words, double words and quad words have units of 2, 4 and 8 bytes; everything else is accessed by bytes. */
  lemma Units(flags: nat, size: nat)
    ensures flags % 8 == 2 ==> FieldAlign(flags) == 2 && Limit(size, FieldAlign(flags)) == 16 * (size / 2)
    ensures flags % 8 == 3 ==> FieldAlign(flags) == 4 && Limit(size, FieldAlign(flags)) == 32 * (size / 4)
    ensures flags % 8 == 4 ==> FieldAlign(flags) == 8 && Limit(size, FieldAlign(flags)) == 64 * (size / 8)
    ensures flags % 8 !in {2, 3, 4} ==> FieldAlign(flags) == 1 && Limit(size, FieldAlign(flags)) == 8 * size
  {
  }

  /** The memory b of size bytes after a store. */
  ghost function Stored(b: seq<bool>, size: nat, f: Field, v: Value): (r: seq<bool>)
    requires |b| == 8 * size
    ensures |r| == |b|
  {
    WriteBits(b, Limit(size, FieldAlign(f.flags)), f.bitoff, Payload(b, f, v))
  }

  /** rwfield with write set: the field's bits are stored, all others stay. */
  method StoreField(mem: array<byte>, f: Field, v: Value)
    modifies mem
    ensures ByteBits(mem[..]) == Stored(old(ByteBits(mem[..])), mem.Length, f, v)
    ensures var b, n := old(ByteBits(mem[..])), mem.Length;
            && (f.flags % 8 == 2 ==> ByteBits(mem[..]) == WriteBits(b, 16 * (n / 2), f.bitoff, PayloadBy(b, f, v, 2)))
            && (f.flags % 8 == 3 ==> ByteBits(mem[..]) == WriteBits(b, 32 * (n / 4), f.bitoff, PayloadBy(b, f, v, 4)))
            && (f.flags % 8 == 4 ==> ByteBits(mem[..]) == WriteBits(b, 64 * (n / 8), f.bitoff, PayloadBy(b, f, v, 8)))
            && (f.flags % 8 !in {2, 3, 4} ==>
                  ByteBits(mem[..]) == WriteBits(b, 8 * n, f.bitoff, PayloadBy(b, f, v, 1)))
    ensures forall i :: 0 <= i < 8 * mem.Length && (i < f.bitoff || f.bitoff + f.bitlen <= i) ==>
              ByteBits(mem[..])[i] == old(ByteBits(mem[..]))[i]
  {
    hide ByteBits, WriteBits, ToBits, FieldAlign, OwnBits, PayloadBy, Limit;
    ghost var was := ByteBits(mem[..]);
    ghost var x := Payload(was, f, v);
    Units(f.flags, mem.Length);
    assert v.Own? ==> x == OwnBits(was, f.bitoff, FieldAlign(f.flags), Min(f.bitlen, |was|)) by {
      OwnPayload(was, f, FieldAlign(f.flags));
    }
    if v.Own? {
      WriteOwn(mem, FieldAlign(f.flags), f.bitoff, Min(f.bitlen, 8 * mem.Length));
    } else {
      StoreOther(mem, f, v, was);
    }
    forall i | 0 <= i < 8 * mem.Length && (i < f.bitoff || f.bitoff + f.bitlen <= i)
      ensures ByteBits(mem[..])[i] == was[i]
    {
      OutsideUnchanged(was, Limit(mem.Length, FieldAlign(f.flags)), f.bitoff, x, i);
    }
  }

  lemma OwnPayload(b: seq<bool>, f: Field, wa: nat)
    requires Width(wa)
    ensures PayloadBy(b, f, Own, wa) == OwnBits(b, f.bitoff, wa, Min(f.bitlen, |b|))
  {
  }

  /** The same for a value that does not change meanwhile. */
  method StoreOther(mem: array<byte>, f: Field, v: Value, ghost was: seq<bool>)
    requires !v.Own? && was == ByteBits(mem[..])
    modifies mem
    ensures ByteBits(mem[..]) == Stored(was, mem.Length, f, v)
  {
    hide ByteBits, WriteBits, ToBits, FieldAlign, OwnBits;
    var blen := f.bitlen;
    var b: seq<byte>;
    if v.Buffer? {
      b := v.b;
      if 8 * |b| < blen {
        blen := 8 * |b|;
        assert ByteBits(b)[..blen] == ByteBits(b);
      }
    } else {
      var w := if v.Int? then v.v else 0;
      var a := new byte[(blen + 7) / 8](_ => 0);
      PutLe(a, 0, a.Length, w);
      b := a[..];
      assert a[0..0 + a.Length] == b;
      ToSplit(w, 8 * |b|, blen);
    }
    WriteField(mem, FieldAlign(f.flags), f.bitoff, blen, b);
  }

  /** The value is the field's bits, of a memory whose bits from lim on read as ones. */
  ghost predicate Loads(b: seq<bool>, lim: nat, f: Field, intbits: nat, v: Value)
    requires lim <= |b|
  {
    var x := ReadBits(b, lim, f.bitoff, f.bitlen);
    if f.bitlen <= 64 then v == Int(Low(FromBits(x), intbits))
    else v.Buffer? && |v.b| == (f.bitlen + 7) / 8 && ByteBits(v.b) == x + Zeros(8 * |v.b| - f.bitlen)
  }

  /** The two bytes 0x34 and 0x12 as a word. */
  lemma LoadsWord()
    ensures Loads(ByteBits([0x34, 0x12]), 16, Field(2, 0, 16), 64, Int(0x1234))
  {
    hide FromBits, Low, ByteBits;
    var b := ByteBits([0x34, 0x12]);
    assert ReadBits(b, 16, 0, 16) == b;
    BitsOfBytes([0x34, 0x12]);
    assert [0x34, 0x12][1..] == [0x12] && [0x12][1..] == [];
    assert LeValue([0x12]) == 0x12;
    LowSmall(b);
  }

  lemma LowSmall(b: seq<bool>)
    requires |b| <= 64
    ensures Low(FromBits(b), 64) == FromBits(b)
  {
    hide FromBits, ToBits, Low;
    var z := b + Zeros(64 - |b|);
    FromConcat(b, Zeros(64 - |b|));
    FromZeros(64 - |b|);
    ShlZero(|b|);
    ToFrom(z);
    FromTo(FromBits(z), 64);
  }

  /** rwfield without: a buffer if the field is longer than 64 bits, else an integer of the interpreter's width. */
  method LoadField(mem: array<byte>, f: Field, intbits: nat) returns (v: Value)
    ensures Loads(ByteBits(mem[..]), Limit(mem.Length, FieldAlign(f.flags)), f, intbits, v)
    ensures var b, n := ByteBits(mem[..]), mem.Length;
            && (f.flags % 8 == 2 ==> Loads(b, 16 * (n / 2), f, intbits, v))
            && (f.flags % 8 == 3 ==> Loads(b, 32 * (n / 4), f, intbits, v))
            && (f.flags % 8 == 4 ==> Loads(b, 64 * (n / 8), f, intbits, v))
            && (f.flags % 8 !in {2, 3, 4} ==> Loads(b, 8 * n, f, intbits, v))
  {
    hide ByteBits, ReadBits, FieldAlign, FromBits, Low, Limit;
    Units(f.flags, mem.Length);
    var b := ReadField(mem, FieldAlign(f.flags), f.bitoff, f.bitlen);
    if f.bitlen > 64 {
      return Buffer(b[..]);
    }
    var w := GetLe(b[..]);
    FromPadded(ReadBits(ByteBits(mem[..]), Limit(mem.Length, FieldAlign(f.flags)), f.bitoff, f.bitlen),
      8 * b.Length - f.bitlen);
    v := Int(Low(w, intbits));
  }

  // ----- what fields are for

  /** A field that lies in whole units reads back what was written. */
  lemma WriteThenRead(b: seq<bool>, lim: nat, off: nat, x: seq<bool>)
    requires lim <= |b| && off + |x| <= lim
    ensures ReadBits(WriteBits(b, lim, off, x), lim, off, |x|) == x
  {
    var r := WriteBits(b, lim, off, x);
    assert forall i :: 0 <= i < |x| ==> r[off + i] == x[i];
  }

  /** No bit outside the field changes. */
  lemma OutsideUnchanged(b: seq<bool>, lim: nat, off: nat, x: seq<bool>, i: nat)
    requires lim <= |b| && i < |b| && (i < off || off + |x| <= i)
    ensures WriteBits(b, lim, off, x)[i] == b[i]
  {
  }

  /** Writes to disjoint fields commute, whatever access widths they use and even within one unit. */
  lemma DisjointCommute(b: seq<bool>, lim: nat, off: nat, x: seq<bool>, lim': nat, off': nat, x': seq<bool>)
    requires lim <= |b| && lim' <= |b| && (off + |x| <= off' || off' + |x'| <= off)
    ensures WriteBits(WriteBits(b, lim, off, x), lim', off', x') == WriteBits(WriteBits(b, lim', off', x'), lim, off, x)
  {
  }

  /** Store an integer and load it again. */
  method StoreLoad(mem: array<byte>, f: Field, w: nat, intbits: nat) returns (v: Value)
    requires f.bitoff + f.bitlen <= Limit(mem.Length, FieldAlign(f.flags)) && f.bitlen <= 64
    modifies mem
    ensures v == Int(Low(Low(w, f.bitlen), intbits))
  {
    hide ByteBits, ReadBits, WriteBits, FieldAlign, FromBits, Low, Limit, ToBits;
    ghost var b := ByteBits(mem[..]);
    StoreField(mem, f, Int(w));
    WriteThenRead(b, Limit(mem.Length, FieldAlign(f.flags)), f.bitoff, ToBits(w, f.bitlen));
    FromTo(w, f.bitlen);
    v := LoadField(mem, f, intbits);
  }
}
