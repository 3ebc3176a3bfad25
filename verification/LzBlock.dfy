/** The block being assembled: its packed parse and the symbol counts for its Huffman codes. */
module LzBlock {
  import opened Bits
  import opened Canonical
  import opened Tokens
  import opened Parse
  import opened EncodeTables

  const MAX_PARSE := 32768

  // ----- counts

  function LitOf(t: Token): (s: nat)
    ensures s < 286 && s != EOB
  {
    if Legal(t) then LitSym(t) else 0
  }

  function OffOf(t: Token): (s: nat)
    ensures s <= 30
  {
    if t.Match? && Legal(t) then OffCode(t.off) else 30
  }

  /** Tokens with this literal/length symbol. */
  function LitCount(toks: seq<Token>, k: nat): nat
  {
    if toks == [] then 0
    else LitCount(toks[..|toks| - 1], k) + if LitOf(toks[|toks| - 1]) == k then 1 else 0
  }

  function OffCount(toks: seq<Token>, k: nat): nat
  {
    if toks == [] then 0
    else OffCount(toks[..|toks| - 1], k) + if OffOf(toks[|toks| - 1]) == k then 1 else 0
  }

  function ExtraOf(t: Token): nat
  {
    if t.Match? && Legal(t) then Extra(Lengths, LenCode(t.len)) + Extra(Distances, OffCode(t.off)) else 0
  }

  /** The extra bits of all tokens. */
  function ExtraCost(toks: seq<Token>): nat
  {
    if toks == [] then 0 else ExtraCost(toks[..|toks| - 1]) + ExtraOf(toks[|toks| - 1])
  }

  /** The counts are those of the tokens and the end-of-block mark. */
  ghost predicate Counts(toks: seq<Token>, lc: seq<nat>, oc: seq<nat>)
  {
    && |lc| == N_LITLEN && |oc| == N_OFF
    && (forall k :: 0 <= k < N_LITLEN ==> lc[k] == LitCount(toks, k) + if k == EOB then 1 else 0)
    && (forall k :: 0 <= k < N_OFF ==> oc[k] == OffCount(toks, k))
  }

  lemma CountSnoc(toks: seq<Token>, t: Token, k: nat)
    ensures LitCount(toks + [t], k) == LitCount(toks, k) + if LitOf(t) == k then 1 else 0
    ensures OffCount(toks + [t], k) == OffCount(toks, k) + if OffOf(t) == k then 1 else 0
  {
    hide LitOf, OffOf;
    assert (toks + [t])[..|toks|] == toks;
  }

  lemma ExtraSnoc(toks: seq<Token>, t: Token)
    ensures ExtraCost(toks + [t]) == ExtraCost(toks) + ExtraOf(t)
  {
    hide ExtraOf;
    assert (toks + [t])[..|toks|] == toks;
  }

  lemma ExtraMatch(toks: seq<Token>, len: nat, off: nat)
    requires Legal(Match(len, off))
    ensures ExtraCost(toks + [Match(len, off)])
         == ExtraCost(toks) + Extra(Lengths, LenCode(len)) + Extra(Distances, OffCode(off))
  {
    hide ExtraCost, Extra, LenCode, OffCode;
    ExtraSnoc(toks, Match(len, off));
  }

  lemma CountLit(toks: seq<Token>, b: byte, lc: seq<nat>, oc: seq<nat>)
    requires Counts(toks, lc, oc)
    ensures Counts(toks + [Lit(b)], lc[b := lc[b] + 1], oc)
  {
    hide LitCount, OffCount;
    forall k: nat
      ensures LitCount(toks + [Lit(b)], k) == LitCount(toks, k) + if b == k then 1 else 0
      ensures k < 30 ==> OffCount(toks + [Lit(b)], k) == OffCount(toks, k)
    {
      CountSnoc(toks, Lit(b), k);
    }
  }

  lemma CountMatch(toks: seq<Token>, len: nat, off: nat, lc: seq<nat>, oc: seq<nat>)
    requires Counts(toks, lc, oc) && Legal(Match(len, off))
    ensures var c, d := LEN_START + LenCode(len), OffCode(off);
            Counts(toks + [Match(len, off)], lc[c := lc[c] + 1], oc[d := oc[d] + 1])
  {
    hide LitCount, OffCount, LenCode, OffCode;
    forall k: nat
      ensures LitCount(toks + [Match(len, off)], k)
           == LitCount(toks, k) + if LEN_START + LenCode(len) == k then 1 else 0
      ensures OffCount(toks + [Match(len, off)], k) == OffCount(toks, k) + if OffCode(off) == k then 1 else 0
    {
      CountSnoc(toks, Match(len, off), k);
    }
  }

  /** A token's symbols have been counted. */
  lemma {:induction false} Counted(toks: seq<Token>, i: nat)
    requires i < |toks|
    ensures LitCount(toks, LitOf(toks[i])) > 0 && OffCount(toks, OffOf(toks[i])) > 0
  {
    hide LitOf, OffOf;
    if i < |toks| - 1 {
      Counted(toks[..|toks| - 1], i);
    }
  }

  // ----- the parse

  /** Items and v pending literals describe s from start on, and are packed and counted as they should be. */
  ghost predicate Parsed(s: seq<byte>, start: nat, items: seq<Item>, v: nat, parse: seq<nat>, lc: seq<nat>,
                         oc: seq<nat>, ex: nat)
  {
    && Sound(s, start, items) && AllValid(items) && v < MAX_LIT_RUN && start + Total(items) + v <= |s|
    && parse == Pack(items) && 2 * |parse| <= Total(items)
    && Counts(ParseTokens(s, start, items, v), lc, oc) && ex == ExtraCost(ParseTokens(s, start, items, v))
  }

  ghost function ParseTokens(s: seq<byte>, start: nat, items: seq<Item>, v: nat): seq<Token>
    requires Sound(s, start, items) && start + Total(items) + v <= |s|
  {
    AllTokens(s, start, items) + Lits(s, start + Total(items), v)
  }

  lemma LitsSnoc(s: seq<byte>, p: nat, v: nat)
    requires p + v < |s|
    ensures Lits(s, p, v + 1) == Lits(s, p, v) + [Lit(s[p + v])]
  {
  }

  lemma ParsedLit(s: seq<byte>, start: nat, items: seq<Item>, v: nat, parse: seq<nat>, lc: seq<nat>, oc: seq<nat>,
                  ex: nat)
    requires Parsed(s, start, items, v, parse, lc, oc, ex) && start + Total(items) + v < |s|
    ensures var q := start + Total(items) + v;
            var lc' := lc[s[q] := lc[s[q]] + 1];
            var toks := ParseTokens(s, start, items, v) + [Lit(s[q])];
            if v + 1 == MAX_LIT_RUN then
              Parsed(s, start, items + [Run(MAX_LIT_RUN)], 0, parse + [MAX_LIT_RUN], lc', oc, ex)
              && Total(items + [Run(MAX_LIT_RUN)]) == Total(items) + MAX_LIT_RUN
              && ParseTokens(s, start, items + [Run(MAX_LIT_RUN)], 0) == toks
            else Parsed(s, start, items, v + 1, parse, lc', oc, ex) && ParseTokens(s, start, items, v + 1) == toks
  {
    hide Counts, ExtraCost, Total, Sound, AllTokens, Pack, Lits, AllValid;
    var p := start + Total(items);
    var toks := ParseTokens(s, start, items, v);
    CountLit(toks, s[p + v], lc, oc);
    ExtraSnoc(toks, Lit(s[p + v]));
    LitsSnoc(s, p, v);
    assert AllTokens(s, start, items) + (Lits(s, p, v) + [Lit(s[p + v])]) == toks + [Lit(s[p + v])];
    if v + 1 == MAX_LIT_RUN {
      var it := Run(MAX_LIT_RUN);
      SoundSnoc(s, start, items, it);
      PackSnoc(items, it);
      TokensSnoc(s, start, items, it);
      NoLits(s, p + v + 1, AllTokens(s, start, items + [it]));
    }
  }

  lemma NoLits(s: seq<byte>, p: nat, ts: seq<Token>)
    requires p <= |s|
    ensures ts + Lits(s, p, 0) == ts
  {
  }

  lemma ParsedHit(s: seq<byte>, start: nat, items: seq<Item>, v: nat, n: nat, o: nat, parse: seq<nat>, lc: seq<nat>,
                  oc: seq<nat>, ex: nat)
    requires Parsed(s, start, items, v, parse, lc, oc, ex)
    requires n <= MAX_MATCH - MIN_MATCH && (n == 0 ==> o < MIN_MATCH_MAX_OFF)
             && MatchAt(s, start + Total(items) + v, n + MIN_MATCH, o + 1)
    ensures ValidItem(Hit(v, n, o))
    ensures var c, d := LEN_START + LenCode(n + MIN_MATCH), OffCode(o + 1);
            Parsed(s, start, items + [Hit(v, n, o)], 0, parse + PackItem(Hit(v, n, o)), lc[c := lc[c] + 1],
              oc[d := oc[d] + 1], ex + Extra(Lengths, c - LEN_START) + Extra(Distances, d))
    ensures Total(items + [Hit(v, n, o)]) == Total(items) + v + n + MIN_MATCH
  {
    hide PackItem, Counts, ExtraCost, Extra, Total, Sound, AllTokens, Pack, Lits, AllValid, LenCode, OffCode, MatchAt;
    MatchFacts(s, start + Total(items) + v, n + MIN_MATCH, o + 1);
    var toks, it := ParseTokens(s, start, items, v), Hit(v, n, o);
    HitTokens(s, start, items, v, n, o);
    hide ParseTokens;
    CountMatch(toks, n + MIN_MATCH, o + 1, lc, oc);
    ExtraMatch(toks, n + MIN_MATCH, o + 1);
    PackSnoc(items, it);
    HitSize(v, n, o);
  }

  lemma HitSize(v: nat, n: nat, o: nat)
    requires ValidItem(Hit(v, n, o))
    ensures 2 * |PackItem(Hit(v, n, o))| <= v + n + MIN_MATCH
  {
  }

  /** A match adds one token to those of the pending literals. */
  lemma HitTokens(s: seq<byte>, start: nat, items: seq<Item>, v: nat, n: nat, o: nat)
    requires Sound(s, start, items) && ValidItem(Hit(v, n, o))
             && MatchAt(s, start + Total(items) + v, n + MIN_MATCH, o + 1)
    ensures var it := Hit(v, n, o);
            && Sound(s, start, items + [it]) && Total(items + [it]) == Total(items) + v + n + MIN_MATCH
            && start + Total(items + [it]) <= |s|
            && ParseTokens(s, start, items + [it], 0)
            == ParseTokens(s, start, items, v) + [Match(n + MIN_MATCH, o + 1)]
  {
    hide Total, Sound, AllTokens, Lits, MatchAt;
    var p, it, t := start + Total(items), Hit(v, n, o), Match(n + MIN_MATCH, o + 1);
    MatchFacts(s, p + v, n + MIN_MATCH, o + 1);
    assert AllTokens(s, start, items) + (Lits(s, p, v) + [t]) == ParseTokens(s, start, items, v) + [t];
    SoundSnoc(s, start, items, it);
    TokensSnoc(s, start, items, it);
    NoLits(s, p + v + n + MIN_MATCH, AllTokens(s, start, items + [it]));
  }

  lemma ParsedGrows(s: seq<byte>, t: seq<byte>, start: nat, items: seq<Item>, v: nat, parse: seq<nat>, lc: seq<nat>,
                    oc: seq<nat>, ex: nat)
    requires Parsed(s, start, items, v, parse, lc, oc, ex) && s <= t
    ensures Parsed(t, start, items, v, parse, lc, oc, ex)
  {
    hide Counts, ExtraCost, Total, AllTokens, Pack, AllValid;
    TokensGrow(s, t, start, items);
    assert Lits(s, start + Total(items), v) == Lits(t, start + Total(items), v);
  }

  // ----- the block

  class Block {
    const parse: array<nat>
    var np: nat // eparse
    var lastv: nat
    const litlencount: array<nat>
    const offcount: array<nat>
    var excost: nat
    ghost var items: seq<Item>

    ghost predicate Shape()
    {
      && parse.Length == MAX_PARSE && litlencount.Length == N_LITLEN && offcount.Length == N_OFF
      && parse != litlencount && parse != offcount && litlencount != offcount
    }

    ghost predicate Valid(s: seq<byte>, start: nat)
      reads this, parse, litlencount, offcount
    {
      && Shape() && np <= parse.Length && Used() <= 65535
      && Parsed(s, start, items, lastv, parse[..np], litlencount[..], offcount[..], excost)
    }

    /** The tokens so far. */
    ghost function Toks(s: seq<byte>, start: nat): seq<Token>
      reads this, parse, litlencount, offcount
      requires Valid(s, start)
    {
      ParseTokens(s, start, items, lastv)
    }

    /** How many bytes the parse covers. */
    ghost function Used(): nat
      reads this
    {
      Total(items) + lastv
    }

    constructor ()
      ensures Shape() && fresh(parse) && fresh(litlencount) && fresh(offcount)
    {
      parse := new nat[MAX_PARSE](_ => 0);
      litlencount := new nat[N_LITLEN](_ => 0);
      offcount := new nat[N_OFF](_ => 0);
      np, lastv, excost, items := 0, 0, 0, [];
    }

    /** Start an empty block. */
    method Clear(ghost s: seq<byte>, ghost start: nat)
      requires Shape() && start <= |s|
      modifies this, litlencount, offcount
      ensures Valid(s, start) && Used() == 0 && np == 0 && lastv == 0 && items == [] && excost == 0
    {
      forall k | 0 <= k < N_LITLEN {
        litlencount[k] := 0;
      }
      forall k | 0 <= k < N_OFF {
        offcount[k] := 0;
      }
      litlencount[EOB] := litlencount[EOB] + 1;
      np, lastv, excost, items := 0, 0, 0, [];
      EmptyParse(s, start, litlencount[..], offcount[..]);
    }

    method PutLit(b: byte, ghost s: seq<byte>, ghost start: nat)
      requires Valid(s, start) && Used() < 65535 && start + Used() < |s| && s[start + Used()] == b
      modifies this, parse, litlencount
      ensures Valid(s, start) && Used() == old(Used()) + 1 && Toks(s, start) == old(Toks(s, start)) + [Lit(b)]
    {
      hide Parsed, Total, ParseTokens;
      ghost var was, lc := parse[..np], litlencount[..];
      ParsedFacts(s, start, items, lastv, was, lc, offcount[..], excost);
      ParsedLit(s, start, items, lastv, was, lc, offcount[..], excost);
      lastv := lastv + 1;
      if lastv == MAX_LIT_RUN {
        parse[np] := lastv;
        np := np + 1;
        items := items + [Run(MAX_LIT_RUN)];
        lastv := 0;
        assert parse[..np] == was + [MAX_LIT_RUN];
      }
      litlencount[b] := litlencount[b] + 1;
      assert litlencount[..] == lc[b := lc[b] + 1];
    }

    /** Add the words of a match, with the literals before it. */
    method Record(n: nat, o: nat)
      requires Shape() && np + 2 <= parse.Length && ValidItem(Hit(lastv, n, o))
      modifies this, parse
      ensures np <= parse.Length && parse[..np] == old(parse[..np]) + PackItem(Hit(old(lastv), n, o))
      ensures items == old(items) + [Hit(old(lastv), n, o)] && lastv == 0 && excost == old(excost)
    {
      ghost var was, w := parse[..np], PackItem(Hit(lastv, n, o));
      if lastv != 0 || n != 0 {
        parse[np] := lastv + LEN_FLAG + 16 * n;
        parse[np + 1] := o;
        np := np + 2;
      } else {
        parse[np] := 16 * o;
        np := np + 1;
      }
      assert parse[..np] == was + w;
      items := items + [Hit(lastv, n, o)];
      lastv := 0;
    }

    /** Record a match of length n + 3 at offset o + 1. */
    method PutMatch(n: nat, o: nat, tables: MatchTables, ghost s: seq<byte>, ghost start: nat)
      requires Valid(s, start) && tables.Valid()
      requires n <= MAX_MATCH - MIN_MATCH && (n == 0 ==> o < MIN_MATCH_MAX_OFF)
               && MatchAt(s, start + Used(), n + MIN_MATCH, o + 1)
      requires Used() + n + MIN_MATCH <= 65535
      modifies this, parse, litlencount, offcount
      ensures Valid(s, start) && Used() == old(Used()) + n + MIN_MATCH
      ensures Toks(s, start) == old(Toks(s, start)) + [Match(n + MIN_MATCH, o + 1)]
    {
      hide ParseTokens, Sound, Parsed, LenCode, OffCode, MatchAt, PackItem, ValidItem, MatchTables.Valid, Total;
      MatchFacts(s, start + Used(), n + MIN_MATCH, o + 1);
      ParsedFacts(s, start, items, lastv, parse[..np], litlencount[..], offcount[..], excost);
      ParsedHit(s, start, items, lastv, n, o, parse[..np], litlencount[..], offcount[..], excost);
      HitTokens(s, start, items, lastv, n, o);
      Record(n, o);
      CountPair(n, o, tables);
    }

    method CountPair(n: nat, o: nat, tables: MatchTables)
      requires Shape() && tables.Valid() && n <= MAX_MATCH - MIN_MATCH && o < MAX_OFF
      modifies `excost, litlencount, offcount
      ensures var c, d := LEN_START + LenCode(n + MIN_MATCH), OffCode(o + 1);
              && litlencount[..] == old(litlencount[..])[c := old(litlencount[c]) + 1]
              && offcount[..] == old(offcount[..])[d := old(offcount[d]) + 1]
              && excost == old(excost) + Extra(Lengths, c - LEN_START) + Extra(Distances, d)
    {
      hide LenCode, OffCode;
      var c := tables.lencode[n];
      litlencount[c] := litlencount[c] + 1;
      excost := excost + Extra(Lengths, c - LEN_START);
      var d := tables.OffCodeOf(o);
      offcount[d] := offcount[d] + 1;
      excost := excost + Extra(Distances, d);
    }
  }

  lemma MatchFacts(s: seq<byte>, q: nat, len: nat, off: nat)
    requires MatchAt(s, q, len, off)
    ensures 1 <= off <= MAX_OFF && q + len <= |s|
  {
  }

  lemma ParsedFacts(s: seq<byte>, start: nat, items: seq<Item>, v: nat, parse: seq<nat>, lc: seq<nat>, oc: seq<nat>,
                    ex: nat)
    requires Parsed(s, start, items, v, parse, lc, oc, ex)
    ensures v < MAX_LIT_RUN && start + Total(items) + v <= |s| && 2 * |parse| <= Total(items) && Sound(s, start, items)
  {
  }

  lemma EmptyParse(s: seq<byte>, start: nat, lc: seq<nat>, oc: seq<nat>)
    requires start <= |s| && |lc| == N_LITLEN && |oc| == N_OFF
    requires forall k :: 0 <= k < N_LITLEN ==> lc[k] == if k == EOB then 1 else 0
    requires forall k :: 0 <= k < N_OFF ==> oc[k] == 0
    ensures Parsed(s, start, [], 0, [], lc, oc, 0) && Total([]) == 0
  {
    NoLits(s, start, AllTokens(s, start, []));
  }

  /** lencode, litlenbase, offcode, bigoffcode and offbase. */
  datatype MatchTables = MatchTables(lencode: seq<nat>, lenbase: seq<nat>, offcode: seq<nat>, bigoffcode: seq<nat>,
    offbase: seq<nat>)
  {
    ghost predicate Valid()
    {
      IsLenTable(lencode, lenbase) && IsOffTable(offcode, bigoffcode, offbase)
    }

    function OffCodeOf(o: nat): (d: nat)
      requires Valid() && o < MAX_OFF
      ensures d == OffCode(o + 1)
    {
      if o < MAX_OFF_CODE then offcode[o] else bigoffcode[o / 128]
    }
  }
}
