/** The encoder's history: a 64K ring whose first 512 bytes are mirrored past its end. */
module Ring {
  import opened Bits
  import opened Tokens

  const HIST_SLOP := 512
  const HIST_BLOCK := 65536
  const HIST_SIZE := 66048

  /** Index of an absolute stream position. */
  function Slot(a: nat): (i: nat)
    ensures i < HIST_BLOCK
  {
    a % HIST_BLOCK
  }

  /** The oldest of n bytes that the ring still holds. */
  function Oldest(n: nat): (lo: nat)
    ensures lo <= n <= lo + HIST_BLOCK
  {
    if n <= HIST_BLOCK then 0 else n - HIST_BLOCK
  }

  /** The ring holds the stream from lo on, and its mirror is up to date. */
  ghost predicate Holds(hist: seq<byte>, s: seq<byte>, lo: nat)
  {
    && |hist| == HIST_SIZE && lo <= |s| <= lo + HIST_BLOCK
    && (forall j :: lo <= j < |s| ==> hist[Slot(j)] == s[j])
    && (s != [] ==> forall k :: 0 <= k < HIST_SLOP ==> hist[k] == hist[k + HIST_BLOCK])
  }

  /** Index b, wrapped or not, stands for absolute position a. */
  ghost predicate IsAt(b: nat, a: nat)
  {
    b < HIST_SIZE && (b == Slot(a) || b == Slot(a) + HIST_BLOCK)
  }

  lemma ReadsStream(hist: seq<byte>, s: seq<byte>, lo: nat, b: nat, a: nat)
    requires Holds(hist, s, lo) && lo <= a < |s| && IsAt(b, a)
    ensures hist[b] == s[a]
  {
  }

  /** Moving on without wrapping stays on the stream, as far as the mirror reaches. */
  lemma MoveOn(b: nat, a: nat, k: nat)
    requires IsAt(b, a) && b + k < HIST_SIZE
    ensures IsAt(b + k, a + k)
  {
    if b == Slot(a) {
      if b + k < HIST_BLOCK {
        SlotIs(a + k, b + k, a / HIST_BLOCK);
      } else {
        SlotIs(a + k, b + k - HIST_BLOCK, a / HIST_BLOCK + 1);
      }
    } else {
      SlotIs(a + k, b + k - HIST_BLOCK, a / HIST_BLOCK);
    }
  }

  lemma SlotIs(a: nat, r: nat, q: nat)
    requires a == q * HIST_BLOCK + r && r < HIST_BLOCK
    ensures Slot(a) == r
  {
  }

  /** The index of the byte off before an index that may itself be past the end. */
  function Back(b: nat, off: nat): (i: nat)
    ensures i < HIST_BLOCK
  {
    (b - off) % HIST_BLOCK
  }

  lemma BackIsAt(b: nat, a: nat, off: nat)
    requires IsAt(b, a) && off <= a && off <= MAX_OFF
    ensures IsAt(Back(b, off), a - off)
  {
    var r := Slot(a);
    if off <= r {
      SlotIs(a - off, r - off, a / HIST_BLOCK);
    } else {
      SlotIs(a - off, r - off + HIST_BLOCK, a / HIST_BLOCK - 1);
    }
  }
}
