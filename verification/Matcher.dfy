/** The hash chains and the search for a longer match. */
module Matcher {
  import opened Bits
  import opened Tokens
  import opened Parse
  import opened Ring

  const HASH_SIZE := 8192

  /** `now` of stream position 0: the dawn of time. */
  const DOT := MAX_OFF + 1

  /** A chain entry is empty or names an earlier position; far enough in, any entry does. */
  predicate Entry(e: word16, pos: nat)
  {
    pos >= MAX_OFF || e == 0 || DOT <= e < DOT + pos
  }

  ghost predicate Links(hash: seq<word16>, nexts: seq<word16>, pos: nat)
  {
    && |hash| == HASH_SIZE && |nexts| == MAX_OFF
    && (forall i :: 0 <= i < HASH_SIZE ==> Entry(hash[i], pos))
    && (forall i :: 0 <= i < MAX_OFF ==> Entry(nexts[i], pos))
  }

  /** (ushort)(now - link) for the position pos. */
  function Offset(pos: nat, link: word16): (off: word16)
  {
    (pos + DOT - link) % 65536
  }

  /** No chain entry leads back beyond the start of the stream. */
  lemma OffsetInStream(pos: nat, e: word16)
    requires Entry(e, pos) && 1 <= Offset(pos, e) <= MAX_OFF
    ensures Offset(pos, e) <= pos
  {
  }

  /** A position's own value is a good entry for all later positions. */
  lemma EntryNew(pos: nat, pos': nat)
    requires pos < pos'
    ensures Entry((pos + DOT) % 65536, pos')
  {
  }

  lemma LinksLater(hash: seq<word16>, nexts: seq<word16>, pos: nat, pos': nat)
    requires Links(hash, nexts, pos) && pos <= pos'
    ensures Links(hash, nexts, pos')
  {
  }

  predicate EqAt(h: seq<byte>, p: nat, t: nat, k: nat)
  {
    p + k < |h| && t + k < |h| && h[p + k] == h[t + k]
  }

  /** Compare n+1 bytes from the end, where a longer match would first differ. */
  method SameBack(hist: array<byte>, p: nat, t: nat, n: nat) returns (same: bool)
    requires p + n < hist.Length && t + n < hist.Length
    ensures same <==> forall k :: 0 <= k <= n ==> EqAt(hist[..], p, t, k)
  {
    var i: int := n;
    while i >= 0
      invariant -1 <= i <= n
      invariant forall k :: i < k <= n ==> EqAt(hist[..], p, t, k)
    {
      if hist[p + i] != hist[t + i] {
        assert !EqAt(hist[..], p, t, i);
        return false;
      }
      assert EqAt(hist[..], p, t, i);
      i := i - 1;
    }
    same := true;
  }

  /** Extend a match of n bytes as far as it goes before es. */
  method Extend(hist: array<byte>, p: nat, t: nat, n: nat, es: nat) returns (len: nat)
    requires p + n <= es <= hist.Length && t + (es - p) <= hist.Length
    requires forall k :: 0 <= k < n ==> EqAt(hist[..], p, t, k)
    ensures n <= len && p + len <= es && forall k :: 0 <= k < len ==> EqAt(hist[..], p, t, k)
    ensures p + len == es || !EqAt(hist[..], p, t, len)
  {
    len := n;
    while p + len < es && hist[p + len] == hist[t + len]
      invariant n <= len && p + len <= es && forall k :: 0 <= k < len ==> EqAt(hist[..], p, t, k)
    {
      assert EqAt(hist[..], p, t, len);
      len := len + 1;
    }
  }

  /** Equal bytes in the ring are equal bytes of the stream: a match. */
  lemma RingMatch(hist: seq<byte>, s: seq<byte>, lo: nat, p: nat, t: nat, a: nat, off: nat, len: nat)
    requires Holds(hist, s, lo) && IsAt(p, a) && 1 <= off <= MAX_OFF && off <= a && lo + off <= a
    requires t == Back(p, off) && p + len <= HIST_SIZE && t + len <= HIST_SIZE && a + len <= |s|
    requires forall k :: 0 <= k < len ==> EqAt(hist, p, t, k)
    ensures MatchAt(s, a, len, off)
  {
    hide Holds, Back;
    HoldsSize(hist, s, lo);
    BackIsAt(p, a, off);
    forall i | a <= i < a + len
      ensures s[i] == s[i - off]
    {
      var k := i - a;
      assert EqAt(hist, p, t, k);
      MoveOn(p, a, k);
      MoveOn(t, a - off, k);
      ReadsStream(hist, s, lo, p + k, i);
      ReadsStream(hist, s, lo, t + k, i - off);
    }
  }

  lemma HoldsSize(hist: seq<byte>, s: seq<byte>, lo: nat)
    requires Holds(hist, s, lo)
    ensures |hist| == HIST_SIZE
  {
  }

  // ----- what a search finds

  type Off = x: int | 1 <= x witness 1

  /** How many of the cap bytes at a repeat those off earlier, from the first on. */
  ghost function Common(s: seq<byte>, a: nat, off: int, cap: nat): (n: nat)
    ensures n <= cap
  {
    if cap == 0 then 0
    else
      var n := Common(s, a, off, cap - 1);
      if n == cap - 1 && 1 <= off <= a + n && a + n < |s| && s[a + n] == s[a + n - off] then cap else n
  }

  lemma {:induction false} CommonIs(s: seq<byte>, a: nat, off: nat, cap: nat, n: nat)
    requires 1 <= off <= a && a + cap <= |s| && n <= cap && forall k :: 0 <= k < n ==> SameAt(s, a, off, k)
    requires n == cap || !SameAt(s, a, off, n)
    ensures Common(s, a, off, cap) == n
  {
    if cap > 0 {
      if n == cap {
        CommonIs(s, a, off, cap - 1, cap - 1);
        assert SameAt(s, a, off, cap - 1);
      } else {
        CommonIs(s, a, off, cap - 1, n);
      }
    }
  }

  predicate SameAt(s: seq<byte>, a: nat, off: nat, k: nat)
  {
    1 <= off <= a + k && a + k < |s| && s[a + k] == s[a + k - off]
  }

  /** The offsets that a search looks at: up to check chain entries, each further back than the one before. */
  ghost function Walk(nexts: seq<word16>, link: word16, a: nat, last: nat, check: nat): seq<Off>
    requires |nexts| == MAX_OFF
    decreases check
  {
    var off := Offset(a, link);
    if check == 0 || off <= last || off > MAX_OFF then []
    else [off] + Walk(nexts, nexts[link % MAX_OFF], a, off, check - 1)
  }

  /**
   Of the offsets in turn, those that give a longer match; the search ends with a match that is as long as can be or
   longer than enough.
   */
  ghost function Best(s: seq<byte>, a: nat, cap: nat, offs: seq<Off>, r: nat, m: nat, enough: nat): (nat, nat)
    decreases |offs|
  {
    if offs == [] then (r, m)
    else
      var n := Common(s, a, offs[0], cap);
      if n <= r then Best(s, a, cap, offs[1..], r, m, enough)
      else if n == cap || n > enough then (n, offs[0] as int - 1)
      else Best(s, a, cap, offs[1..], n, offs[0] as int - 1, enough)
  }

  /**
   What comes out: nothing, if no offset gives more than r; else the longest match of all offsets looked at, and of
   those the closest; offsets are left out only if the match found is as long as can be or longer than enough.
   */
  ghost predicate LongestOf(s: seq<byte>, a: nat, cap: nat, offs: seq<Off>, r: nat, n: nat, m: nat, j: nat)
  {
    && j <= |offs| && r <= n
    && (forall i :: 0 <= i < j ==> Common(s, a, offs[i], cap) <= n)
    && (n > r ==> exists i :: 0 <= i < j && offs[i] == m + 1 && Common(s, a, offs[i], cap) == n
                              && forall k :: 0 <= k < i ==> Common(s, a, offs[k], cap) < n)
  }

  lemma {:induction false} BestIs(s: seq<byte>, a: nat, cap: nat, offs: seq<Off>, r: nat, m: nat,
                                  enough: nat) returns (j: nat)
    ensures var (n, m') := Best(s, a, cap, offs, r, m, enough);
            && LongestOf(s, a, cap, offs, r, n, m', j) && (n == r ==> m' == m)
            && (j == |offs| || n == cap || n > enough)
    decreases |offs|
  {
    hide Common;
    var (n, m') := Best(s, a, cap, offs, r, m, enough);
    if offs == [] {
      j := 0;
    } else {
      var c, rest := Common(s, a, offs[0], cap), offs[1..];
      if c > r && (c == cap || c > enough) {
        j := 1;
        assert offs[0] == m' + 1;
      } else {
        var r', m1 := if c <= r then r else c, if c <= r then m else offs[0] as int - 1;
        var i := BestIs(s, a, cap, rest, r', m1, enough);
        j := i + 1;
        BestCons(s, a, cap, offs, r, r', m1, n, m', i);
      }
    }
  }

  lemma BestCons(s: seq<byte>, a: nat, cap: nat, offs: seq<Off>, r: nat, r': nat, m1: nat, n: nat, m': nat, j: nat)
    requires offs != [] && LongestOf(s, a, cap, offs[1..], r', n, m', j) && (n == r' ==> m' == m1)
    requires r' == (if Common(s, a, offs[0], cap) <= r then r else Common(s, a, offs[0], cap))
    requires r' > r ==> m1 == offs[0] as int - 1
    ensures LongestOf(s, a, cap, offs, r, n, m', j + 1)
  {
    hide Common;
    var rest := offs[1..];
    assert forall i :: 0 < i <= j ==> offs[i] == rest[i - 1];
    if n > r' {
      var i :| 0 <= i < j && rest[i] == m' + 1 && Common(s, a, rest[i], cap) == n
               && forall k :: 0 <= k < i ==> Common(s, a, rest[k], cap) < n;
      assert offs[i + 1] == m' + 1;
      assert forall k :: 0 < k <= i ==> offs[k] == rest[k - 1];
    } else if n > r {
      assert offs[0] == m' + 1;
    }
  }

  /** Equal bytes in the ring and in the stream. */
  lemma RingSame(hist: seq<byte>, s: seq<byte>, lo: nat, p: nat, t: nat, a: nat, off: nat, k: nat)
    requires Holds(hist, s, lo) && IsAt(p, a) && 1 <= off <= MAX_OFF && off <= a && lo + off <= a
    requires t == Back(p, off) && p + k < HIST_SIZE && t + k < HIST_SIZE && a + k < |s|
    ensures EqAt(hist, p, t, k) <==> SameAt(s, a, off, k)
  {
    hide Holds, Back;
    HoldsSize(hist, s, lo);
    BackIsAt(p, a, off);
    MoveOn(p, a, k);
    MoveOn(t, a - off, k);
    ReadsStream(hist, s, lo, p + k, a + k);
    ReadsStream(hist, s, lo, t + k, a + k - off);
  }

  /** A match one longer than the best so far at offset off, extended; or 0. */
  method TryOffset(hist: array<byte>, p: nat, es: nat, off: nat, runlen: nat, ghost s: seq<byte>, ghost lo: nat,
                   ghost a: nat)
    returns (len: nat)
    requires Holds(hist[..], s, lo) && IsAt(p, a) && p + runlen < es <= HIST_SIZE && es <= p + MAX_MATCH
    requires 1 <= off <= MAX_OFF && off <= a && lo + off <= a && a + (es - p) <= |s|
    ensures len == 0 || (runlen < len && p + len <= es && MatchAt(s, a, len, off))
    ensures var n := Common(s, a, off, es - p);
            len == if n > runlen then n else 0
  {
    hide Holds, MatchAt, Back, Common;
    HoldsSize(hist[..], s, lo);
    var t := Back(p, off);
    ghost var cap := es - p;
    forall k | 0 <= k < cap
      ensures EqAt(hist[..], p, t, k) <==> SameAt(s, a, off, k)
    {
      RingSame(hist[..], s, lo, p, t, a, off, k);
    }
    var same := SameBack(hist, p, t, runlen);
    if !same {
      NotLonger(s, a, off, cap, runlen);
      return 0;
    }
    len := Extend(hist, p, t, runlen + 1, es);
    RingMatch(hist[..], s, lo, p, t, a, off, len);
    CommonIs(s, a, off, cap, len);
  }

  lemma NotLonger(s: seq<byte>, a: nat, off: nat, cap: nat, n: nat)
    requires 1 <= off <= a && a + cap <= |s| && n < cap && exists k :: 0 <= k <= n && !SameAt(s, a, off, k)
    ensures Common(s, a, off, cap) <= n
  {
    hide Common;
    var k := FirstDiffers(s, a, off, n);
    CommonIs(s, a, off, cap, k);
  }

  lemma {:induction false} FirstDiffers(s: seq<byte>, a: nat, off: nat, n: nat) returns (k: nat)
    requires exists k :: 0 <= k <= n && !SameAt(s, a, off, k)
    ensures k <= n && !SameAt(s, a, off, k) && forall i :: 0 <= i < k ==> SameAt(s, a, off, i)
  {
    if exists k :: 0 <= k < n && !SameAt(s, a, off, k) {
      k := FirstDiffers(s, a, off, n - 1);
    } else {
      k := n;
    }
  }

  /** How many chain entries are looked at for a match longer than runlen. */
  function Checks(runlen: nat, check: nat): nat
  {
    if runlen >= 8 then check / 4 else check
  }

  /** What the search for a match longer than runlen gives: its length, and its offset less one. */
  ghost function Found(s: seq<byte>, a: nat, cap: nat, nexts: seq<word16>, link: word16, runlen: nat,
                       check: nat): (nat, nat)
    requires |nexts| == MAX_OFF
  {
    if runlen >= cap then (runlen, 0)
    else Best(s, a, cap, Walk(nexts, link, a, 0, Checks(runlen, check)), runlen, 0, check)
  }

  /** Follow the chain for a match longer than runlen0; m is the offset less one, or 0 if none was found. */
  method LzMatch(a: nat, link0: word16, p: nat, es: nat, nexts: array<word16>, hist: array<byte>, runlen0: nat,
                 check0: nat,
                 ghost hash: seq<word16>, ghost s: seq<byte>, ghost lo: nat) returns (runlen: nat, m: nat)
    requires Holds(hist[..], s, lo) && Links(hash, nexts[..], a) && Entry(link0, a)
    requires IsAt(p, a) && p <= es <= HIST_SIZE && es <= p + MAX_MATCH && a + (es - p) <= |s|
             && (lo == 0 || lo + MAX_OFF <= a)
    ensures runlen == runlen0 ==> m == 0
    ensures runlen != runlen0 ==> runlen0 < runlen && p + runlen <= es && MatchAt(s, a, runlen, m + 1)
    ensures (runlen, m) == Found(s, a, es - p, nexts[..], link0, runlen0, check0)
  {
    hide Holds, MatchAt, Common, Walk, Best;
    runlen, m := runlen0, 0;
    var ml, check: nat := check0, if runlen >= 8 then check0 / 4 else check0;
    if p + runlen >= es {
      return;
    }
    ghost var cap, all := es - p, Found(s, a, es - p, nexts[..], link0, runlen0, check0);
    var last: nat, link: word16 := 0, link0;
    while check > 0
      invariant Entry(link, a) && p + runlen < es && 0 <= check
      invariant runlen == runlen0 ==> m == 0
      invariant runlen != runlen0 ==> runlen0 < runlen && MatchAt(s, a, runlen, m + 1)
      invariant all == Best(s, a, cap, Walk(nexts[..], link, a, last, check), runlen, m, ml)
      decreases check
    {
      WalkStep(nexts[..], link, a, last, check, s, cap, runlen, m, ml);
      check := check - 1;
      var off := Offset(a, link);
      if off <= last || off > MAX_OFF {
        return;
      }
      OffsetInStream(a, link);
      var len := TryOffset(hist, p, es, off, runlen, s, lo, a);
      if len > 0 {
        runlen := len;
        m := off - 1;
        if p + runlen == es || runlen > ml {
          return;
        }
      }
      last := off;
      assert Entry(nexts[..][link % MAX_OFF], a);
      link := nexts[link % MAX_OFF];
    }
    WalkEnd(nexts[..], link, a, last, s, cap, runlen, m, ml);
  }

  /** One chain entry of a search. */
  lemma WalkStep(nexts: seq<word16>, link: word16, a: nat, last: nat, check: nat, s: seq<byte>, cap: nat, r: nat,
                 m: nat,
                 enough: nat)
    requires |nexts| == MAX_OFF && check > 0
    ensures var off := Offset(a, link);
            Best(s, a, cap, Walk(nexts, link, a, last, check), r, m, enough)
            == if off <= last || off > MAX_OFF then (r, m)
            else
              var n := Common(s, a, off, cap);
              var more := Walk(nexts, nexts[link % MAX_OFF], a, off, check - 1);
              if n <= r then Best(s, a, cap, more, r, m, enough)
              else if n == cap || n > enough then (n, off - 1)
              else Best(s, a, cap, more, n, off - 1, enough)
  {
    hide Common;
    var off := Offset(a, link);
    if last < off <= MAX_OFF {
      var w, more := Walk(nexts, link, a, last, check), Walk(nexts, nexts[link % MAX_OFF], a, off, check - 1);
      assert w == [off] + more && w[1..] == more;
    }
  }

  lemma WalkEnd(nexts: seq<word16>, link: word16, a: nat, last: nat, s: seq<byte>, cap: nat, r: nat, m: nat,
                enough: nat)
    requires |nexts| == MAX_OFF
    ensures Best(s, a, cap, Walk(nexts, link, a, last, 0), r, m, enough) == (r, m)
  {
  }

  /** The search finds the longest match of the chain entries looked at, and of those the closest. */
  lemma FoundLongest(s: seq<byte>, a: nat, cap: nat, nexts: seq<word16>, link: word16, runlen: nat,
                     check: nat) returns (j: nat)
    requires |nexts| == MAX_OFF && runlen < cap
    ensures var w := Walk(nexts, link, a, 0, Checks(runlen, check));
            var (n, m) := Found(s, a, cap, nexts, link, runlen, check);
            LongestOf(s, a, cap, w, runlen, n, m, j) && (j == |w| || n == cap || n > check)
  {
    hide Common, Best, Walk, LongestOf;
    var w := Walk(nexts, link, a, 0, Checks(runlen, check));
    j := BestIs(s, a, cap, w, runlen, 0, check);
  }
}
