/** The encoder's tables from match lengths and offsets to codes, as deflateinit builds them. */
module EncodeTables {
  import opened Bits
  import opened Tokens

  const MAX_OFF_CODE := 256

  /** lencode and litlenbase: indexed by length - 3 and by code - 257. */
  ghost predicate IsLenTable(lencode: seq<nat>, base: seq<nat>)
  {
    && |lencode| == MAX_MATCH && |base| == 31
    && (forall n :: 0 <= n < 256 ==> lencode[n] == LEN_START + LenCode(n + MIN_MATCH))
    && (forall c :: 0 <= c <= 28 ==> base[c] + MIN_MATCH == LenBase(c))
  }

  /** offcode, bigoffcode and offbase: indexed by offset - 1, by that over 128, and by code. */
  ghost predicate IsOffTable(offcode: seq<nat>, big: seq<nat>, base: seq<nat>)
  {
    && |offcode| == MAX_OFF_CODE && |big| == 256 && |base| == 30
    && (forall o :: 0 <= o < MAX_OFF_CODE ==> offcode[o] == OffCode(o + 1))
    && (forall o :: MAX_OFF_CODE <= o < MAX_OFF ==> big[o / 128] == OffCode(o + 1))
    && (forall c :: 0 <= c < 30 ==> base[c] + 1 == OffBase(c))
  }

  function Scale(big: bool, k: nat): nat
  {
    if big then 128 * k else k
  }

  /** Entry k of a table names the code whose range holds k, or 128 k in the table of big offsets. */
  ghost predicate Ranged(book: Book, t: seq<nat>, from: nat, to: nat, start: nat, big: bool)
  {
    && to <= |t|
    && forall k :: from <= k < to ==>
      && t[k] >= start
      && Span(book, t[k] - start) <= Scale(big, k) < Span(book, t[k] - start + 1)
  }

  /** Enter one code for its whole range. */
  method FillCode(t0: seq<nat>, ghost book: Book, ghost from: nat, ci: nat, n: nat, ghost start: nat, ghost big: bool,
                  i: nat)
    returns (t: seq<nat>)
    requires start <= i && ci <= n <= |t0| && Ranged(book, t0, from, ci, start, big)
    requires Span(book, i - start) <= Scale(big, ci) && Scale(big, n) <= Span(book, i - start + 1)
    ensures |t| == |t0| && Ranged(book, t, from, n, start, big)
  {
    hide Span;
    t := t0;
    var k := ci;
    while k < n
      invariant ci <= k <= n && |t| == |t0| && Ranged(book, t, from, k, start, big)
    {
      t := t[k := i];
      k := k + 1;
    }
  }

  method InitLenTable() returns (lencode: seq<nat>, base: seq<nat>)
    ensures IsLenTable(lencode, base)
  {
    hide Pow2, Span, Ranged;
    lencode := seq(MAX_MATCH, _ => 0);
    base := seq(31, _ => 0);
    var ci := 0;
    LenSpans();
    RangedNone(Lengths, lencode, 0, 257, false);
    for i := 257 to 286
      invariant ci == Span(Lengths, i - 257) && |lencode| == MAX_MATCH && |base| == 31
      invariant Ranged(Lengths, lencode, 0, ci, 257, false)
      invariant forall c :: 0 <= c < i - 257 ==> base[c] == Span(Lengths, c)
    {
      var c := i - 257;
      SpanNext(Lengths, c);
      LenRoom(c);
      var n := ci + Pow2(Extra(Lengths, c));
      base := base[c := ci];
      lencode := FillCode(lencode, Lengths, 0, ci, n, 257, false, i);
      ci := n;
    }
    RangedLess(Lengths, lencode, 0, ci, 257, false);
    lencode := lencode[MAX_MATCH - MIN_MATCH := 285];
    base := base[285 - LEN_START := MAX_MATCH - MIN_MATCH];
    LenTableDone(lencode, base);
  }

  lemma RangedNone(book: Book, t: seq<nat>, from: nat, start: nat, big: bool)
    requires from <= |t|
    ensures Ranged(book, t, from, from, start, big) && Span(book, 0) == 0
  {
  }

  lemma LenRoom(c: nat)
    requires c <= 28
    ensures Span(Lengths, c + 1) <= MAX_MATCH
  {
    hide Pow2, Span;
    LenSpans();
    if c < 28 {
      SpanMono(Lengths, c + 1, 28);
    } else {
      SpanNext(Lengths, 28);
      LastLen();
    }
  }

  /** The patch for the longest match leaves the entries below it alone. */
  lemma RangedLess(book: Book, t: seq<nat>, from: nat, to: nat, start: nat, big: bool)
    requires Ranged(book, t, from, to, start, big) && to == Span(Lengths, 29) && |t| == MAX_MATCH && from == 0
    ensures Ranged(book, t[255 := 285], from, 255, start, big)
  {
    hide Pow2;
    SpanMono(Lengths, 28, 29);
    LenSpans();
  }

  lemma LenTableDone(lencode: seq<nat>, base: seq<nat>)
    requires |lencode| == MAX_MATCH && |base| == 31 && lencode[255] == 285 && base[28] == 255
    requires Ranged(Lengths, lencode, 0, 255, 257, false)
    requires forall c :: 0 <= c < 28 ==> base[c] == Span(Lengths, c)
    ensures IsLenTable(lencode, base)
  {
    hide Pow2, Span;
    LenSpans();
    forall n | 0 <= n < 256
      ensures lencode[n] == LEN_START + LenCode(n + MIN_MATCH)
    {
      if n < 255 {
        var c := lencode[n] - 257;
        if c >= 28 {
          SpanMono(Lengths, 28, c);
        }
        FindUnique(Lengths, 28, n, c);
      }
    }
  }

  method InitSmallOff() returns (offcode: seq<nat>, base: seq<nat>)
    ensures |offcode| == MAX_OFF_CODE && |base| == 30 && Ranged(Distances, offcode, 0, MAX_OFF_CODE, 0, false)
    ensures forall c :: 0 <= c < 16 ==> base[c] == Span(Distances, c)
  {
    hide Pow2, Span, Ranged;
    offcode := seq(MAX_OFF_CODE, _ => 0);
    base := seq(30, _ => 0);
    var ci := 0;
    OffSpans();
    RangedNone(Distances, offcode, 0, 0, false);
    for i := 0 to 16
      invariant ci == Span(Distances, i) && |offcode| == MAX_OFF_CODE && |base| == 30
      invariant Ranged(Distances, offcode, 0, ci, 0, false)
      invariant forall c :: 0 <= c < i ==> base[c] == Span(Distances, c)
    {
      SpanMono(Distances, i + 1, 16);
      SpanNext(Distances, i);
      var n := ci + Pow2(Extra(Distances, i));
      base := base[i := ci];
      offcode := FillCode(offcode, Distances, 0, ci, n, 0, false, i);
      ci := n;
    }
  }

  lemma Unit128(i: nat)
    requires 16 <= i < 30
    ensures Extra(Distances, i) >= 7 && Pow2(Extra(Distances, i)) == 128 * Pow2(Extra(Distances, i) - 7)
  {
    var e := Extra(Distances, i);
    assert Pow2(e - 4) == 8 * Pow2(e - 7) by {
      assert Pow2(e - 4) == 2 * Pow2(e - 5) && Pow2(e - 5) == 2 * Pow2(e - 6) && Pow2(e - 6) == 2 * Pow2(e - 7);
    }
    assert Pow2(e) == 2 * Pow2(e - 1) && Pow2(e - 1) == 2 * Pow2(e - 2);
    assert Pow2(e - 2) == 2 * Pow2(e - 3) && Pow2(e - 3) == 2 * Pow2(e - 4);
  }

  method InitBigOff(base0: seq<nat>) returns (big: seq<nat>, base: seq<nat>)
    requires |base0| == 30 && forall c :: 0 <= c < 16 ==> base0[c] == Span(Distances, c)
    ensures |big| == 256 && |base| == 30 && Ranged(Distances, big, 2, 256, 0, true)
    ensures forall c :: 0 <= c < 30 ==> base[c] == Span(Distances, c)
  {
    hide Pow2, Span, Ranged;
    big := seq(256, _ => 0);
    base := base0;
    var ci := 2;
    OffSpans();
    RangedNone(Distances, big, 2, 0, true);
    for i := 16 to 30
      invariant 128 * ci == Span(Distances, i) && |big| == 256 && |base| == 30
      invariant Ranged(Distances, big, 2, ci, 0, true)
      invariant forall c :: 0 <= c < i ==> base[c] == Span(Distances, c)
    {
      SpanMono(Distances, i + 1, 30);
      SpanNext(Distances, i);
      Unit128(i);
      var n := ci + Pow2(Extra(Distances, i) - 7);
      base := base[i := 128 * ci];
      big := FillCode(big, Distances, 2, ci, n, 0, true, i);
      ci := n;
    }
  }

  lemma {:induction false} SpanAligned(i: nat)
    requires 16 <= i <= 30
    ensures Span(Distances, i) % 128 == 0
  {
    hide Pow2, Span;
    if i == 16 {
      OffSpans();
    } else {
      SpanAligned(i - 1);
      SpanNext(Distances, i - 1);
      Unit128(i - 1);
    }
  }

  lemma BigOffDone(big: seq<nat>, o: nat)
    requires |big| == 256 && Ranged(Distances, big, 2, 256, 0, true) && MAX_OFF_CODE <= o < MAX_OFF
    ensures big[o / 128] == OffCode(o + 1)
  {
    hide Pow2, Span;
    var k := o / 128;
    var c := big[k];
    OffSpans();
    if c < 16 {
      SpanMono(Distances, c + 1, 16);
    }
    if c >= 30 {
      SpanMono(Distances, 30, c);
    }
    SpanAligned(c + 1);
    FindUnique(Distances, 30, o, c);
  }

  method InitOffTable() returns (offcode: seq<nat>, big: seq<nat>, base: seq<nat>)
    ensures IsOffTable(offcode, big, base)
  {
    hide Ranged;
    offcode, base := InitSmallOff();
    big, base := InitBigOff(base);
    forall o | MAX_OFF_CODE <= o < MAX_OFF
      ensures big[o / 128] == OffCode(o + 1)
    {
      BigOffDone(big, o);
    }
    forall o | 0 <= o < MAX_OFF_CODE
      ensures offcode[o] == OffCode(o + 1)
    {
      SmallOffDone(offcode, o);
    }
  }

  lemma SmallOffDone(offcode: seq<nat>, o: nat)
    requires |offcode| == MAX_OFF_CODE && Ranged(Distances, offcode, 0, MAX_OFF_CODE, 0, false) && o < MAX_OFF_CODE
    ensures offcode[o] == OffCode(o + 1)
  {
    hide Pow2, Span;
    var c := offcode[o];
    OffSpans();
    if c >= 30 {
      SpanMono(Distances, 30, c);
    }
    FindUnique(Distances, 30, o, c);
  }
}
