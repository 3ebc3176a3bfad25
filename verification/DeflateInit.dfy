/** The encoder's fixed tables, made once by deflateinit. */
module DeflateInit {
  import opened Bits
  import opened RevTab
  import opened Canonical
  import opened Tokens
  import opened Format
  import opened HuffEncoder
  import opened LzBlock
  import opened DynCode
  import EncodeTables

  datatype Tables = Tables(m: MatchTables, revtab: seq<byte>, litlentab: seq<Entry>, offtab: seq<Entry>,
    hofftab: seq<Entry>)
  {
    ghost predicate Valid()
    {
      && m.Valid() && IsRevTab(revtab) && EncTable(litlentab, FixedLit()) && EncTable(offtab, Const(30, 5))
      && Table(hofftab, N_OFF)
    }
  }

  /** Set the lengths of a range of symbols. */
  method SetBits(tab: array<Entry>, from: nat, to: nat, b: nat)
    requires from <= to <= tab.Length
    modifies tab
    ensures forall i :: 0 <= i < tab.Length ==> if from <= i < to then tab[i].bits == b else tab[i] == old(tab[i])
  {
    for i := from to to
      invariant forall k :: 0 <= k < tab.Length ==> if from <= k < i then tab[k].bits == b else tab[k] == old(tab[k])
    {
      tab[i] := tab[i].(bits := b);
    }
  }

  lemma FixedLitAt(i: nat)
    requires i < N_LITLEN
    ensures FixedLit()[i] == if i < 144 then 8 else if i < 256 then 9 else if i < 280 then 7 else 8
  {
  }

  method FixedLitTab(revtab: seq<byte>) returns (litlentab: seq<Entry>)
    requires IsRevTab(revtab)
    ensures EncTable(litlentab, FixedLit())
  {
    hide IsRevTab, EncTable, Fits, FixedLit, Codeword;
    var tab := new Entry[N_LITLEN](_ => Entry(0, 0));
    SetBits(tab, 0, 144, 8);
    SetBits(tab, 144, 256, 9);
    SetBits(tab, 256, 280, 7);
    SetBits(tab, 280, N_LITLEN, 8);
    var bitcount := new nat[MAX_HUFF_BITS](_ => 0);
    bitcount[8] := bitcount[8] + 144;
    bitcount[9] := bitcount[9] + (256 - 144);
    bitcount[7] := bitcount[7] + (280 - 256);
    bitcount[8] := bitcount[8] + (N_LITLEN - 280);
    forall i | 0 <= i < N_LITLEN
      ensures tab[i].bits == FixedLit()[i]
    {
      FixedLitAt(i);
    }
    forall b | 0 < b <= 9
      ensures bitcount[b] == Count(FixedLit(), b)
    {
      FixedLitCount(b);
    }
    forall i | 0 <= i < N_LITLEN
      ensures FixedLit()[i] <= 9
    {
      FixedLitAt(i);
    }
    var ok := HuffTabInit(tab, revtab, FixedLit(), bitcount, 9);
    FixedLitFits();
    FitsAbove(FixedLit(), 9, MAX_BITS);
    litlentab := tab[..];
  }

  lemma ThirtyFits()
    ensures Fits(Const(30, 5), 5)
  {
    hide Const;
    forall b | 0 <= b <= 5
      ensures FitsAt(Const(30, 5), b)
    {
      var f := Const(30, 5);
      forall c: nat | c <= 5
        ensures Count(f, c) == if c == 5 then 30 else 0
      {
        ConstCount(30, 5, c);
      }
      if b < 5 {
        NoneShorter(f, b);
      } else {
        NoneShorter(f, 4);
        assert End(f, 5) == 2 * End(f, 4) + 30;
        Pow2Medium();
      }
    }
    ConstAll(30, 5);
  }

  lemma ConstAll(n: nat, v: nat)
    ensures forall i :: 0 <= i < n ==> Const(n, v)[i] == v
  {
  }

  method FixedOffTab(revtab: seq<byte>) returns (offtab: seq<Entry>)
    requires IsRevTab(revtab)
    ensures EncTable(offtab, Const(30, 5))
  {
    hide IsRevTab, EncTable, Fits, Const, Codeword;
    var tab := new Entry[N_OFF](_ => Entry(0, 0));
    SetBits(tab, 0, N_OFF, 5);
    var bitcount := new nat[MAX_HUFF_BITS](_ => 0);
    bitcount[5] := N_OFF;
    ConstAll(30, 5);
    forall b: nat | 0 < b <= 5
      ensures bitcount[b] == Count(Const(30, 5), b)
    {
      ConstCount(30, 5, b);
    }
    var ok := HuffTabInit(tab, revtab, Const(30, 5), bitcount, 5);
    ThirtyFits();
    offtab := tab[..];
  }

  /** Unused symbols after a code do not disturb it. */
  lemma PaddedTable(tab: seq<Entry>, n: nat)
    requires EncTable(tab, LensOf(tab)) && Fits(LensOf(tab), 15)
    ensures Table(tab + seq(n, _ => Entry(0, 0)), |tab| + n)
  {
    hide Codeword;
    var l := LensOf(tab);
    var t := tab + seq(n, _ => Entry(0, 0));
    var m := LensOf(t);
    assert m[..|l|] == l;
    forall i | 0 <= i < |l|
      ensures Codeword(m, i) == Codeword(l, i)
    {
      TrimmedCodeword(m, |l|, i);
    }
    forall b | 0 <= b <= 15
      ensures FitsAt(m, b)
    {
      TrailingZeros(m, |l|, b);
      assert FitsAt(l, b);
    }
  }

  /** The offset code of literal-only blocks: two symbols that never occur. */
  method HuffOnlyOffTab(revtab: seq<byte>) returns (hofftab: seq<Entry>)
    requires IsRevTab(revtab)
    ensures Table(hofftab, N_OFF)
  {
    hide IsRevTab, EncTable, Fits, Codeword, GzCode;
    var tab := new Entry[2](_ => Entry(0, 0));
    Pow2Small();
    UsedFew([0, 0], 2);
    var ok := MkGzPrecode(tab, revtab, [0, 0], MAX_HUFF_BITS);
    GzFits([0, 0], LensOf(tab[..]), 15);
    PaddedTable(tab[..], 28);
    hofftab := tab[..] + seq(28, _ => Entry(0, 0));
  }

  lemma GzFits(count: seq<nat>, l: Lens, top: nat)
    requires GzCode(count, l, top)
    ensures Fits(l, top) && |l| == |count|
  {
  }

  method DeflateInit() returns (t: Tables)
    ensures t.Valid()
  {
    hide IsRevTab, EncTable, Table, EncodeTables.IsLenTable, EncodeTables.IsOffTable;
    var revtab := InitRevTab();
    var lit := FixedLitTab(revtab);
    var off := FixedOffTab(revtab);
    var hoff := HuffOnlyOffTab(revtab);
    var lencode, lenbase := EncodeTables.InitLenTable();
    var offcode, big, offbase := EncodeTables.InitOffTable();
    t := Tables(MatchTables(lencode, lenbase, offcode, big, offbase), revtab, lit, off, hoff);
  }
}
