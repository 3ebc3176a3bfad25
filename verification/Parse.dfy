/**
 The packed parse of a block: runs of literals and matches in 16-bit words.

 Bits 0-2 count literals, bit 3 says that a match of length bits 4-15 plus 3 follows with its
 offset in the next word; with no literals and the shortest length the offset is in
 bits 4-15 of a single word.
 */
module Parse {
  import opened Bits
  import opened Tokens

  const MAX_LIT_RUN := 7
  const LEN_FLAG := 8
  const MIN_MATCH_MAX_OFF := 4096

  /** run literals, then possibly a match of length n + 3 at offset o + 1. */
  datatype Item = Run(run: nat) | Hit(run: nat, n: nat, o: nat)

  predicate ValidItem(it: Item)
  {
    match it
    case Run(r) => 0 < r <= MAX_LIT_RUN
    case Hit(r, n, o) =>
      && r < MAX_LIT_RUN && n <= MAX_MATCH - MIN_MATCH && o < MAX_OFF
      && (r == 0 && n == 0 ==> o < MIN_MATCH_MAX_OFF)
  }

  function PackItem(it: Item): (w: seq<nat>)
    requires ValidItem(it)
    ensures |w| == 1 || |w| == 2
    ensures forall i :: 0 <= i < |w| ==> w[i] < 65536
  {
    match it
    case Run(r) => [r]
    case Hit(r, n, o) => if r != 0 || n != 0 then [r + LEN_FLAG + 16 * n, o] else [16 * o]
  }

  ghost predicate AllValid(items: seq<Item>)
  {
    forall i :: 0 <= i < |items| ==> ValidItem(items[i])
  }

  function Pack(items: seq<Item>): seq<nat>
    requires forall i :: 0 <= i < |items| ==> ValidItem(items[i])
  {
    if items == [] then [] else PackItem(items[0]) + Pack(items[1..])
  }

  lemma {:induction false} PackSnoc(items: seq<Item>, it: Item)
    requires AllValid(items) && ValidItem(it)
    ensures AllValid(items + [it]) && Pack(items + [it]) == Pack(items) + PackItem(it)
  {
    if items == [] {
      assert items + [it] == [it] && [it][1..] == [];
    } else {
      assert (items + [it])[1..] == items[1..] + [it];
      PackSnoc(items[1..], it);
    }
  }

  /** Input bytes that an item covers. */
  function Size(it: Item): nat
  {
    match it
    case Run(r) => r
    case Hit(r, n, _) => r + n + MIN_MATCH
  }

  function Total(items: seq<Item>): nat
  {
    if items == [] then 0 else Total(items[..|items| - 1]) + Size(items[|items| - 1])
  }

  lemma {:induction false} TotalCons(items: seq<Item>)
    requires items != []
    ensures Total(items) == Size(items[0]) + Total(items[1..])
  {
    if |items| > 1 {
      TotalCons(items[..|items| - 1]);
      assert items[..|items| - 1][1..] == items[1..][..|items| - 2];
    }
  }

  // ----- soundness

  /** The bytes at q repeat those off earlier, for len bytes. */
  ghost predicate MatchAt(s: seq<byte>, q: nat, len: nat, off: nat)
  {
    1 <= off <= MAX_OFF && off <= q && q + len <= |s| && forall i :: q <= i < q + len ==> s[i] == s[i - off]
  }

  ghost predicate SoundItem(s: seq<byte>, p: nat, it: Item)
  {
    ValidItem(it) && p + Size(it) <= |s| && (it.Hit? ==> MatchAt(s, p + it.run, it.n + MIN_MATCH, it.o + 1))
  }

  /** The items describe the bytes of s from p on. */
  ghost predicate Sound(s: seq<byte>, p: nat, items: seq<Item>)
    decreases |items|
  {
    items == [] || (SoundItem(s, p, items[0]) && Sound(s, p + Size(items[0]), items[1..]))
  }

  lemma {:induction false} SoundSnoc(s: seq<byte>, p: nat, items: seq<Item>, it: Item)
    requires Sound(s, p, items) && SoundItem(s, p + Total(items), it)
    ensures Sound(s, p, items + [it]) && Total(items + [it]) == Total(items) + Size(it)
    decreases |items|
  {
    assert (items + [it])[..|items|] == items;
    if items == [] {
      assert items + [it] == [it] && [it][1..] == [];
    } else {
      TotalCons(items);
      assert (items + [it])[1..] == items[1..] + [it];
      SoundSnoc(s, p + Size(items[0]), items[1..], it);
    }
  }

  /** Later input does not matter. */
  lemma {:induction false} SoundGrows(s: seq<byte>, t: seq<byte>, p: nat, items: seq<Item>)
    requires Sound(s, p, items) && s <= t
    ensures Sound(t, p, items)
    decreases |items|
  {
    if items != [] {
      assert SoundItem(t, p, items[0]);
      SoundGrows(s, t, p + Size(items[0]), items[1..]);
    }
  }

  // ----- as tokens

  function Lits(s: seq<byte>, p: nat, r: nat): (ts: seq<Token>)
    requires p + r <= |s|
    ensures |ts| == r && forall i :: 0 <= i < r ==> ts[i] == Lit(s[p + i])
  {
    seq(r, i requires 0 <= i < r => Lit(s[p + i]))
  }

  ghost function ItemTokens(s: seq<byte>, p: nat, it: Item): seq<Token>
    requires SoundItem(s, p, it)
  {
    match it
    case Run(r) => Lits(s, p, r)
    case Hit(r, n, o) => Lits(s, p, r) + [Match(n + MIN_MATCH, o + 1)]
  }

  ghost function AllTokens(s: seq<byte>, p: nat, items: seq<Item>): seq<Token>
    requires Sound(s, p, items)
    decreases |items|
  {
    if items == [] then [] else ItemTokens(s, p, items[0]) + AllTokens(s, p + Size(items[0]), items[1..])
  }

  lemma {:induction false} TokensSnoc(s: seq<byte>, p: nat, items: seq<Item>, it: Item)
    requires Sound(s, p, items) && SoundItem(s, p + Total(items), it)
    ensures Sound(s, p, items + [it])
    ensures AllTokens(s, p, items + [it]) == AllTokens(s, p, items) + ItemTokens(s, p + Total(items), it)
    decreases |items|
  {
    hide ItemTokens, SoundItem, Size;
    SoundSnoc(s, p, items, it);
    if items == [] {
      assert items + [it] == [it] && [it][1..] == [];
    } else {
      TotalCons(items);
      assert (items + [it])[1..] == items[1..] + [it];
      TokensSnoc(s, p + Size(items[0]), items[1..], it);
    }
  }

  lemma {:induction false} TokensGrow(s: seq<byte>, t: seq<byte>, p: nat, items: seq<Item>)
    requires Sound(s, p, items) && s <= t
    ensures Sound(t, p, items) && AllTokens(t, p, items) == AllTokens(s, p, items)
    decreases |items|
  {
    hide ItemTokens, SoundItem, Size;
    SoundGrows(s, t, p, items);
    if items != [] {
      ItemGrows(s, t, p, items[0]);
      TokensGrow(s, t, p + Size(items[0]), items[1..]);
    }
  }

  lemma ItemGrows(s: seq<byte>, t: seq<byte>, p: nat, it: Item)
    requires SoundItem(s, p, it) && s <= t
    ensures SoundItem(t, p, it) && ItemTokens(t, p, it) == ItemTokens(s, p, it)
  {
    assert Lits(s, p, it.run) == Lits(t, p, it.run);
  }

  // ----- replay

  lemma {:induction false} CopyIsMatch(s: seq<byte>, q: nat, k: nat, len: nat, off: nat)
    requires MatchAt(s, q, len, off) && k <= len
    ensures Copy(s[..q + k], len - k, off) == s[..q + len]
    decreases len - k
  {
    if k < len {
      var out := s[..q + k];
      assert out[|out| - off] == s[q + k - off] == s[q + k];
      assert s[..q + k + 1] == out + [s[q + k]];
      CopyIsMatch(s, q, k + 1, len, off);
    }
  }

  lemma {:induction false} LitsReplay(s: seq<byte>, p: nat, r: nat)
    requires p + r <= |s|
    ensures Playable(s[..p], Lits(s, p, r)) && Replay(s[..p], Lits(s, p, r)) == s[..p + r]
    decreases r
  {
    if r > 0 {
      var ts := Lits(s, p, r);
      assert ts[1..] == Lits(s, p + 1, r - 1);
      assert s[..p] + [s[p]] == s[..p + 1];
      LitsReplay(s, p + 1, r - 1);
    }
  }

  lemma OneReplay(out: seq<byte>, t: Token)
    requires Legal(t) && (t.Match? ==> t.off <= |out|)
    ensures Playable(out, [t]) && Replay(out, [t]) == Play(out, t)
  {
    hide Copy;
    assert [t][1..] == [];
  }

  lemma ItemReplay(s: seq<byte>, p: nat, it: Item)
    requires SoundItem(s, p, it)
    ensures p + Size(it) <= |s|
    ensures Playable(s[..p], ItemTokens(s, p, it)) && Replay(s[..p], ItemTokens(s, p, it)) == s[..p + Size(it)]
  {
    hide Copy, Playable, Replay, Lits;
    LitsReplay(s, p, it.run);
    if it.Hit? {
      var q := p + it.run;
      var m := Match(it.n + MIN_MATCH, it.o + 1);
      CopyIsMatch(s, q, 0, it.n + MIN_MATCH, it.o + 1);
      assert s[..q + 0] == s[..q];
      OneReplay(s[..q], m);
      ReplayAppend(s[..p], Lits(s, p, it.run), [m]);
    }
  }

  lemma NoTokens(out: seq<byte>)
    ensures Playable(out, []) && Replay(out, []) == out
  {
  }

  /** Replaying a sound parse after the bytes before it gives exactly the bytes it covers. */
  lemma {:induction false} ParseReplay(s: seq<byte>, p: nat, items: seq<Item>)
    requires Sound(s, p, items) && p <= |s|
    ensures p + Total(items) <= |s|
    ensures Playable(s[..p], AllTokens(s, p, items))
    ensures Replay(s[..p], AllTokens(s, p, items)) == s[..p + Total(items)]
    decreases |items|
  {
    hide ItemTokens, SoundItem, Playable, Replay;
    if items == [] {
      NoTokens(s[..p]);
    } else {
      TotalCons(items);
      ItemReplay(s, p, items[0]);
      ParseReplay(s, p + Size(items[0]), items[1..]);
      ReplayAppend(s[..p], ItemTokens(s, p, items[0]), AllTokens(s, p + Size(items[0]), items[1..]));
    }
  }
}
