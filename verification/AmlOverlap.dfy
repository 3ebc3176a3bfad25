/** Stores whose value is the buffer that the field lies in, and the order of stores. */
module AmlOverlap {
  import opened Bits
  import opened AmlField

  // ----- memories

  lemma OneBitSet(size: nat, p: nat) returns (m: seq<byte>)
    requires p < 8 * size
    ensures |m| == size && ByteBits(m) == Zeros(8 * size)[p := true]
  {
    hide ByteBits, Zeros, Shl;
    var z: seq<byte> := seq(size, _ => 0);
    ClearBuffer(z);
    ZerosAt(8 * size, p);
    SetInBytes(z, p, true);
    m := z[p / 8 := z[p / 8] + Shl(1, p % 8)];
  }

  lemma ZerosAt(n: nat, p: nat)
    requires p < n
    ensures Zeros(n)[p] == false
  {
  }

  lemma AllClear(size: nat) returns (m: seq<byte>)
    ensures |m| == size && ByteBits(m) == Zeros(8 * size)
  {
    m := seq(size, _ => 0);
    ClearBuffer(m);
  }

  // ----- storing a buffer in a field of itself

  /** How many bits a field takes from its own buffer and can store in whole units. */
  function Taken(size: nat, f: Field): (n: nat)
    ensures n <= f.bitlen && n <= 8 * size
    ensures n > 0 ==> f.bitoff + n <= Limit(size, FieldAlign(f.flags))
  {
    var lim := Limit(size, FieldAlign(f.flags));
    if lim <= f.bitoff then 0 else Min(f.bitlen, lim - f.bitoff)
  }

  /** How much of a field lies in its first access unit. */
  function FirstUnit(f: Field): nat
  {
    8 * FieldAlign(f.flags) - UnitOf(f.bitoff, FieldAlign(f.flags)).1
  }

  /** The field begins the buffer, or ends before what it takes begins to be overwritten, or is stored at once. */
  predicate Harmless(size: nat, f: Field)
  {
    f.bitoff == 0 || Taken(size, f) <= f.bitoff || Taken(size, f) <= FirstUnit(f)
  }

  lemma FirstPart(off: nat, wa: nat, j: nat)
    requires Width(wa)
    ensures Start(off, wa, j) == 0 <==> j < 8 * wa - UnitOf(off, wa).1
  {
    hide UnitOf, Times, Width;
    var (wo, ws) := UnitOf(off, wa);
    var (a, r) := UnitOf(off + j, wa);
    if j < 8 * wa - ws {
      UnitIs(off + j, wa, wo, ws + j);
    } else if a != wo {
      Separate(a, wo, wa);
    }
  }

  /** The first bit of the field that may come out wrong. */
  lemma FirstWrong(size: nat, f: Field) returns (p: nat)
    requires !Harmless(size, f)
    ensures p < Taken(size, f) && Origin(f.bitoff, FieldAlign(f.flags), p) < p
  {
    hide UnitOf, FieldAlign, Taken;
    var off, wa := f.bitoff, FieldAlign(f.flags);
    var c := FirstUnit(f);
    p := if off < c then c else off;
    FirstPart(off, wa, p);
    FirstPart(off, wa, 0);
    PartStart(off, wa, 0, c, 0);
  }

  lemma HarmlessSame(size: nat, f: Field, j: nat)
    requires Harmless(size, f) && j < Taken(size, f)
    ensures Origin(f.bitoff, FieldAlign(f.flags), j) == j
  {
    hide UnitOf, FieldAlign, Taken, Start;
    FirstPart(f.bitoff, FieldAlign(f.flags), j);
  }

  /** A write depends only on the bits that have a place in the memory. */
  lemma WriteSame(b: seq<bool>, lim: nat, off: nat, x: seq<bool>, y: seq<bool>)
    requires lim <= |b| && |x| == |y| && forall j :: 0 <= j < |x| && off + j < lim ==> x[j] == y[j]
    ensures WriteBits(b, lim, off, x) == WriteBits(b, lim, off, y)
  {
  }

  ghost predicate SameAsCopy(m: seq<byte>, f: Field)
  {
    Stored(ByteBits(m), |m|, f, Own) == Stored(ByteBits(m), |m|, f, Buffer(m))
  }

  lemma CopyPayload(m: seq<byte>, f: Field)
    ensures Payload(ByteBits(m), f, Buffer(m)) == ByteBits(m)[..Min(f.bitlen, 8 * |m|)]
  {
    assert ByteBits(m)[..8 * |m|] == ByteBits(m);
  }

  lemma HarmlessCopies(m: seq<byte>, f: Field)
    requires Harmless(|m|, f)
    ensures SameAsCopy(m, f)
  {
    hide ByteBits, Harmless, WriteBits, FieldAlign, Limit, Origin;
    var b, lim := ByteBits(m), Limit(|m|, FieldAlign(f.flags));
    CopyPayload(m, f);
    var x, y := Payload(b, f, Own), Payload(b, f, Buffer(m));
    forall j | 0 <= j < |x| && f.bitoff + j < lim
      ensures x[j] == y[j]
    {
      HarmlessSame(|m|, f, j);
    }
    WriteSame(b, lim, f.bitoff, x, y);
  }

  lemma WrongCopy(size: nat, f: Field) returns (m: seq<byte>)
    requires !Harmless(size, f)
    ensures |m| == size && !SameAsCopy(m, f)
  {
    hide ByteBits, Harmless, FieldAlign, Limit, Origin, Zeros;
    var p := FirstWrong(size, f);
    m := OneBitSet(size, p);
    var b, lim := ByteBits(m), Limit(size, FieldAlign(f.flags));
    CopyPayload(m, f);
    var x, y := Payload(b, f, Own), Payload(b, f, Buffer(m));
    ZerosAt(8 * size, Origin(f.bitoff, FieldAlign(f.flags), p));
    assert y[p] && !x[p];
    WrittenAt(b, lim, f.bitoff, x, p);
    WrittenAt(b, lim, f.bitoff, y, p);
  }

  lemma WrittenAt(b: seq<bool>, lim: nat, off: nat, x: seq<bool>, j: nat)
    requires lim <= |b| && j < |x| && off + j < lim
    ensures WriteBits(b, lim, off, x)[off + j] == x[j]
  {
  }

  /** Storing a buffer in a field of itself does the same as storing a copy, for all contents, exactly when harmless. */
  lemma OwnStoreIff(size: nat, f: Field)
    ensures (forall m: seq<byte> :: |m| == size ==> SameAsCopy(m, f)) <==> Harmless(size, f)
  {
    hide SameAsCopy, Harmless;
    if Harmless(size, f) {
      forall m: seq<byte> | |m| == size
        ensures SameAsCopy(m, f)
      {
        HarmlessCopies(m, f);
      }
    } else {
      var m := WrongCopy(size, f);
    }
  }

  // ----- the field that begins at the second byte

  lemma {:induction false} SmearOrigin(j: nat)
    ensures Origin(8, 1, j) == j % 8
  {
    if j >= 8 {
      SmearOrigin(j - 8);
    }
  }

  lemma SmearedBit(b: seq<bool>, size: nat, bitlen: nat, i: nat)
    requires |b| == 8 * size && i < |b| <= bitlen + 8
    ensures Stored(b, size, Field(1, 8, bitlen), Own)[i] == b[i % 8]
  {
    hide Origin;
    if i >= 8 {
      var x := Payload(b, Field(1, 8, bitlen), Own);
      SmearOrigin(i - 8);
      WrittenAt(b, 8 * size, 8, x, i - 8);
    }
  }

  lemma FilledBit(m: seq<byte>, i: nat)
    requires i < 8 * |m|
    ensures ByteBits(seq(|m|, _ => m[0]))[i] == ByteBits(m)[i % 8]
  {
    hide ByteBits, Shr;
    BitAt(seq(|m|, _ => m[0]), i);
    BitAt(m, i % 8);
  }

  /** With byte access, a buffer stored in all of itself but the first byte is filled with that byte. */
  lemma Smear(m: seq<byte>, bitlen: nat)
    requires 0 < |m| && 8 * |m| <= bitlen + 8
    ensures Stored(ByteBits(m), |m|, Field(1, 8, bitlen), Own) == ByteBits(seq(|m|, _ => m[0]))
  {
    hide ByteBits, Stored;
    forall i | 0 <= i < 8 * |m|
      ensures Stored(ByteBits(m), |m|, Field(1, 8, bitlen), Own)[i] == ByteBits(seq(|m|, _ => m[0]))[i]
    {
      SmearedBit(ByteBits(m), |m|, bitlen, i);
      FilledBit(m, i);
    }
  }

  lemma Smeared()
    ensures Stored(ByteBits([1, 2, 3, 4]), 4, Field(1, 8, 24), Own) == ByteBits([1, 1, 1, 1])
  {
    hide ByteBits, Stored;
    var m: seq<byte> := [1, 2, 3, 4];
    Smear(m, 24);
    assert seq(4, _ => m[0]) == [1, 1, 1, 1];
  }

  // ----- the order of two stores

  predicate Disjoint(f: Field, h: Field)
  {
    f.bitoff + f.bitlen <= h.bitoff || h.bitoff + h.bitlen <= f.bitoff
  }

  /** The store can change the first bit of the field; storing a buffer at its own beginning changes nothing. */
  ghost predicate Changes(size: nat, h: Field, u: Value)
  {
    && h.bitoff < Limit(size, FieldAlign(h.flags)) && 0 < h.bitlen && (u.Buffer? ==> u.b != [])
    && (u.Own? ==> h.bitoff > 0)
  }

  /** A store to h changes bits that f takes from the buffer. */
  ghost predicate Disturbs(size: nat, h: Field, u: Value, f: Field, v: Value)
  {
    v.Own? && Changes(size, h, u) && h.bitoff < Min(f.bitoff, Taken(size, f))
  }

  lemma FirstPayload(b: seq<bool>, size: nat, h: Field, u: Value)
    requires |b| == 8 * size && h.bitoff < Limit(size, FieldAlign(h.flags))
    ensures |Payload(b, h, u)| > 0 <==> 0 < h.bitlen && (u.Buffer? ==> u.b != [])
    ensures |Payload(b, h, u)| > 0 && u.Own? ==> Payload(b, h, u)[0] == b[0]
  {
    hide ByteBits, ToBits, FieldAlign;
    if u.Buffer? {
      SomeBits(u.b);
    }
  }

  lemma SomeBits(s: seq<byte>)
    ensures |ByteBits(s)| == 8 * |s|
  {
  }

  lemma StartHarmless(b: seq<bool>, size: nat, h: Field)
    requires |b| == 8 * size && h.bitoff == 0
    ensures Stored(b, size, h, Own) == b
  {
    hide FieldAlign, Limit, Origin;
    var x := Payload(b, h, Own);
    forall j | 0 <= j < |x|
      ensures x[j] == b[j]
    {
      OriginAtStart(FieldAlign(h.flags), j);
    }
  }

  lemma OriginAtStart(wa: nat, j: nat)
    requires Width(wa)
    ensures Origin(0, wa, j) == j
  {
    hide Start;
  }

  lemma NoChange(b: seq<bool>, size: nat, h: Field, u: Value)
    requires |b| == 8 * size && !Changes(size, h, u)
    ensures Stored(b, size, h, u) == b
  {
    hide FieldAlign, Limit, Payload;
    var lim, x := Limit(size, FieldAlign(h.flags)), Payload(b, h, u);
    if lim <= h.bitoff {
      BeyondLimit(b, lim, h.bitoff, x);
    } else if u.Own? && h.bitoff == 0 {
      StartHarmless(b, size, h);
    } else {
      FirstPayload(b, size, h, u);
      assert x == [];
      WriteNone(b, lim, h.bitoff);
    }
  }

  /** What f stores is not affected by a store to h that does not disturb it. */
  lemma Undisturbed(b: seq<bool>, size: nat, f: Field, v: Value, h: Field, u: Value)
    requires |b| == 8 * size && Disjoint(f, h) && !Disturbs(size, h, u, f, v)
    ensures var c, lim := Stored(b, size, h, u), Limit(size, FieldAlign(f.flags));
            var x, y := Payload(b, f, v), Payload(c, f, v);
            |x| == |y| && forall j :: 0 <= j < |x| && f.bitoff + j < lim ==> x[j] == y[j]
  {
    hide FieldAlign, Limit, Origin, Stored, ByteBits, ToBits;
    var c, lim := Stored(b, size, h, u), Limit(size, FieldAlign(f.flags));
    if !Changes(size, h, u) {
      NoChange(b, size, h, u);
    } else if v.Own? {
      var n := Min(f.bitlen, |b|);
      forall j | 0 <= j < n && f.bitoff + j < lim
        ensures b[Origin(f.bitoff, FieldAlign(f.flags), j)] == c[Origin(f.bitoff, FieldAlign(f.flags), j)]
      {
        Unwritten(b, size, h, u, Origin(f.bitoff, FieldAlign(f.flags), j));
      }
    }
  }

  lemma Unwritten(b: seq<bool>, size: nat, h: Field, u: Value, i: nat)
    requires |b| == 8 * size && i < |b| && (i < h.bitoff || h.bitoff + h.bitlen <= i)
    ensures Stored(b, size, h, u)[i] == b[i]
  {
    hide FieldAlign, Limit, Payload;
  }

  ghost predicate Commute(m: seq<byte>, f: Field, v: Value, h: Field, u: Value)
  {
    var b := ByteBits(m);
    Stored(Stored(b, |m|, f, v), |m|, h, u) == Stored(Stored(b, |m|, h, u), |m|, f, v)
  }

  lemma UndisturbedCommute(m: seq<byte>, f: Field, v: Value, h: Field, u: Value)
    requires Disjoint(f, h) && !Disturbs(|m|, h, u, f, v) && !Disturbs(|m|, f, v, h, u)
    ensures Commute(m, f, v, h, u)
  {
    hide ByteBits, FieldAlign, Limit, Payload, WriteBits, Disturbs;
    var b, size := ByteBits(m), |m|;
    var lf, lh := Limit(size, FieldAlign(f.flags)), Limit(size, FieldAlign(h.flags));
    var x, y := Payload(b, f, v), Payload(b, h, u);
    var bf, bh := Stored(b, size, f, v), Stored(b, size, h, u);
    Undisturbed(b, size, f, v, h, u);
    Undisturbed(b, size, h, u, f, v);
    WriteSame(bh, lf, f.bitoff, x, Payload(bh, f, v));
    WriteSame(bf, lh, h.bitoff, y, Payload(bf, h, u));
    DisjointCommute(b, lf, f.bitoff, x, lh, h.bitoff, y);
  }

  /** A memory for which the order matters. */
  lemma DisturbedDiffer(size: nat, f: Field, h: Field, u: Value) returns (m: seq<byte>)
    requires Disjoint(f, h) && Disturbs(size, h, u, f, Own)
    ensures |m| == size && !Commute(m, f, Own, h, u)
  {
    hide ByteBits, FieldAlign, Limit, Payload, WriteBits, Zeros, Taken;
    var q := h.bitoff;
    m := AllClear(size);
    ZerosAt(8 * size, q);
    ZerosAt(8 * size, 0);
    FirstPayload(ByteBits(m), size, h, u);
    if !Payload(ByteBits(m), h, u)[0] {
      m := OneBitSet(size, q);
      FirstPayload(ByteBits(m), size, h, u);
      if !u.Own? {
        FixedPayload(ByteBits(m), Zeros(8 * size), h, u);
      }
    }
    OrderSeen(m, f, h, u);
  }

  lemma FixedPayload(b: seq<bool>, c: seq<bool>, h: Field, u: Value)
    requires !u.Own?
    ensures Payload(b, h, u) == Payload(c, h, u)
  {
  }

  /** The bit that the store to h changes is seen by the store to f only if that comes later. */
  lemma OrderSeen(m: seq<byte>, f: Field, h: Field, u: Value)
    requires Disjoint(f, h) && Disturbs(|m|, h, u, f, Own)
    requires |Payload(ByteBits(m), h, u)| > 0 && Payload(ByteBits(m), h, u)[0] != ByteBits(m)[h.bitoff]
    ensures !Commute(m, f, Own, h, u)
  {
    hide ByteBits, FieldAlign, Limit, Payload, WriteBits;
    var b, size, q := ByteBits(m), |m|, h.bitoff;
    var bf, bh := Stored(b, size, f, Own), Stored(b, size, h, u);
    WrittenAt(b, Limit(size, FieldAlign(h.flags)), q, Payload(b, h, u), 0);
    OwnEarly(b, size, f, q);
    OwnEarly(bh, size, f, q);
    Unwritten(bf, size, h, u, f.bitoff + q);
  }

  lemma OwnEarly(b: seq<bool>, size: nat, f: Field, q: nat)
    requires |b| == 8 * size && q < Min(f.bitoff, Taken(size, f))
    ensures Stored(b, size, f, Own)[f.bitoff + q] == b[q]
  {
    hide FieldAlign, Limit, Start;
    WrittenAt(b, Limit(size, FieldAlign(f.flags)), f.bitoff, Payload(b, f, Own), q);
  }

  /** The order of stores to disjoint fields never matters exactly if neither disturbs the other. */
  lemma SwapIff(size: nat, f: Field, v: Value, h: Field, u: Value)
    requires Disjoint(f, h)
    ensures (forall m: seq<byte> :: |m| == size ==> Commute(m, f, v, h, u))
        <==> !Disturbs(size, h, u, f, v) && !Disturbs(size, f, v, h, u)
  {
    hide Commute;
    if Disturbs(size, h, u, f, v) {
      var m := DisturbedDiffer(size, f, h, u);
    } else if Disturbs(size, f, v, h, u) {
      var m := DisturbedDiffer(size, h, f, v);
      CommuteSym(m, f, v, h, u);
    } else {
      forall m: seq<byte> | |m| == size
        ensures Commute(m, f, v, h, u)
      {
        UndisturbedCommute(m, f, v, h, u);
      }
    }
  }

  lemma CommuteSym(m: seq<byte>, f: Field, v: Value, h: Field, u: Value)
    ensures Commute(m, f, v, h, u) <==> Commute(m, h, u, f, v)
  {
    hide Stored, ByteBits;
  }

  /** Two stores to disjoint fields, in either order unless one disturbs the other. */
  method StoreTwice(mem: array<byte>, f: Field, v: Value, h: Field, u: Value)
    requires Disjoint(f, h)
    modifies mem
    ensures var b, n := old(ByteBits(mem[..])), mem.Length;
            && ByteBits(mem[..]) == Stored(Stored(b, n, f, v), n, h, u)
            && (!Disturbs(n, h, u, f, v) && !Disturbs(n, f, v, h, u) ==>
                  ByteBits(mem[..]) == Stored(Stored(b, n, h, u), n, f, v))
  {
    hide ByteBits, Stored, Disturbs;
    ghost var m := mem[..];
    StoreField(mem, f, v);
    StoreField(mem, h, u);
    if !Disturbs(|m|, h, u, f, v) && !Disturbs(|m|, f, v, h, u) {
      UndisturbedCommute(m, f, v, h, u);
    }
  }
}
