/** Run-length coding of code lengths, done in place by the encoder (section 3.2.7 of RFC 1951). */
module RunLength {
  import opened Bits
  import opened Canonical
  import opened Format

  /** How many lengths one code length symbol stands for. */
  function Reps(c: nat, x: nat): (j: nat)
    ensures j > 0
  {
    RepeatBase(c) + if c < 16 then 0 else x
  }

  /** The symbols and repeat counts form a legal coding. */
  predicate Legal(syms: seq<nat>, aux: seq<nat>)
  {
    && |syms| == |aux|
    && (forall i :: 0 <= i < |syms| ==> syms[i] <= 18 && (syms[i] >= 16 ==> aux[i] < Pow2(RepeatBits(syms[i]))))
    && (|syms| > 0 ==> syms[0] != 16)
  }

  /** The lengths that a coding stands for. */
  function Expand(syms: seq<nat>, aux: seq<nat>): (l: Lens)
    requires Legal(syms, aux)
    ensures |l| >= |syms|
  {
    if syms == [] then []
    else
      var n := |syms| - 1;
      var acc := Expand(syms[..n], aux[..n]);
      acc + Const(Reps(syms[n], aux[n]), RepeatValue(syms[n], acc))
  }

  lemma ExpandSnoc(syms: seq<nat>, aux: seq<nat>, s: nat, x: nat)
    requires Legal(syms, aux) && s <= 18 && (s >= 16 ==> x < Pow2(RepeatBits(s))) && (s == 16 ==> syms != [])
    ensures Legal(syms + [s], aux + [x])
    ensures var acc := Expand(syms, aux);
            Expand(syms + [s], aux + [x]) == acc + Const(Reps(s, x), RepeatValue(s, acc))
  {
    assert (syms + [s])[..|syms|] == syms && (aux + [x])[..|aux|] == aux;
  }

  /** The coding so far covers the lengths before the n still to be written of a run ending at i. */
  ghost predicate Coding(codes: seq<nat>, aux: seq<nat>, orig: Lens, c: nat, i: nat, n: nat)
  {
    && |codes| == |aux| && c + n <= i <= |orig| <= |codes|
    && Legal(codes[..c], aux[..c]) && Expand(codes[..c], aux[..c]) == orig[..i - n]
    && codes[i..|orig|] == orig[i..]
  }

  /** The last n lengths before i are all v. */
  ghost predicate RunOf(orig: Lens, i: nat, n: nat, v: nat)
  {
    n <= i <= |orig| && forall k :: i - n <= k < i ==> orig[k] == v
  }

  /** Writing one more symbol at c never touches what is unread at i. */
  lemma CodingStep(codes: seq<nat>, aux: seq<nat>, orig: Lens, c: nat, i: nat, n: nat, v: nat,
                   s: nat, x: nat, codes': seq<nat>, aux': seq<nat>)
    requires Coding(codes, aux, orig, c, i, n) && RunOf(orig, i, n, v)
    requires s <= 18 && (s >= 16 ==> x < Pow2(RepeatBits(s))) && Reps(s, x) <= n
    requires s == 16 ==> i - n > 0 && orig[i - n - 1] == v
    requires (s < 16 ==> s == v) && (s > 16 ==> v == 0)
    requires codes' == codes[c := s] && |aux'| == |aux| && aux'[..c] == aux[..c] && (s >= 16 ==> aux'[c] == x)
    ensures Coding(codes', aux', orig, c + 1, i, n - Reps(s, x))
  {
    hide Pow2, Expand, Legal, Const;
    var y, j := aux'[c], Reps(s, x);
    var acc := orig[..i - n];
    assert codes'[..c + 1] == codes[..c] + [s] && aux'[..c + 1] == aux[..c] + [y];
    if c == 0 {
      ExpandEmpty(codes[..0], aux[..0]);
    }
    ExpandSnoc(codes[..c], aux[..c], s, y);
    RunIsConst(orig, i, n, v, j);
    assert codes'[i..|orig|] == codes[i..|orig|];
  }

  lemma ExpandEmpty(syms: seq<nat>, aux: seq<nat>)
    requires syms == [] && Legal(syms, aux)
    ensures Expand(syms, aux) == []
  {
  }

  lemma RunIsConst(orig: Lens, i: nat, n: nat, v: nat, j: nat)
    requires RunOf(orig, i, n, v) && j <= n
    ensures orig[..i - (n - j)] == orig[..i - n] + Const(j, v)
  {
    assert orig[..i - (n - j)] == orig[..i - n] + orig[i - n..i - n + j];
    assert orig[i - n..i - n + j] == Const(j, v);
  }

  // ----- repeats

  predicate FourAt(l: Lens, k: nat)
  {
    3 <= k < |l| && l[k] != 0 && l[k] == l[k - 1] && l[k] == l[k - 2] && l[k] == l[k - 3]
  }

  /** Some length other than 0 occurs four times in a row before i. */
  ghost predicate FourInRow(l: Lens, i: nat)
  {
    exists k :: 0 <= k < i && FourAt(l, k)
  }

  /** Nothing is repeated across the beginning of a run. */
  ghost predicate RunStarts(l: Lens, i: nat)
  {
    0 < i < |l| ==> l[i - 1] != l[i]
  }

  lemma FourIn(l: Lens, i: nat, j: nat, v: nat, k: nat)
    requires i <= k < j <= |l| && RunOf(l, j, j - i, v) && RunStarts(l, i)
    ensures FourAt(l, k) <==> v != 0 && k >= i + 3
  {
    assert l[k] == v;
    if k >= i + 3 {
      assert l[k - 1] == v && l[k - 2] == v && l[k - 3] == v;
    } else if i > 0 {
      assert l[i - 1] != v;
    }
  }

  lemma FourInRun(l: Lens, i: nat, j: nat, v: nat)
    requires i < j <= |l| && RunOf(l, j, j - i, v) && RunStarts(l, i)
    ensures FourInRow(l, j) <==> FourInRow(l, i) || (v != 0 && j - i >= 4)
  {
    forall k | i <= k < j
      ensures FourAt(l, k) <==> v != 0 && k >= i + 3
    {
      FourIn(l, i, j, v, k);
    }
    hide FourAt;
    if v != 0 && j - i >= 4 {
      assert FourAt(l, i + 3);
    }
  }

  /** The symbols written so far, of which some may be repeats. */
  ghost predicate Repeated(codes: seq<nat>, c: nat)
  {
    exists k :: 0 <= k < c <= |codes| && codes[k] == 16
  }

  lemma RepeatedNext(codes: seq<nat>, c: nat, s: nat)
    requires c < |codes|
    ensures Repeated(codes[c := s], c + 1) <==> Repeated(codes, c) || s == 16
  {
    var codes' := codes[c := s];
    if s == 16 {
      assert codes'[c] == 16;
    }
    if Repeated(codes, c) {
      var k :| 0 <= k < c && codes[k] == 16;
      assert codes'[k] == 16;
    }
  }

  /** Write one symbol of the coding. */
  method Put(codes: array<nat>, aux: array<nat>, ghost orig: Lens, c: nat, ghost i: nat, ghost n: nat, ghost v: nat,
             s: nat, x: nat)
    requires codes != aux && codes.Length == aux.Length && Coding(codes[..], aux[..], orig, c, i, n)
             && RunOf(orig, i, n, v)
    requires s <= 18 && (s >= 16 ==> x < Pow2(RepeatBits(s))) && Reps(s, x) <= n
    requires s == 16 ==> i - n > 0 && orig[i - n - 1] == v
    requires (s < 16 ==> s == v) && (s > 16 ==> v == 0)
    modifies codes, aux
    ensures Coding(codes[..], aux[..], orig, c + 1, i, n - Reps(s, x))
    ensures Repeated(codes[..], c + 1) <==> old(Repeated(codes[..], c)) || s == 16
  {
    hide Legal, Expand, Pow2, Repeated;
    ghost var codes0, aux0 := codes[..], aux[..];
    codes[c] := s;
    if s >= 16 {
      aux[c] := x;
    }
    assert codes[..] == codes0[c := s];
    assert aux[..][..c] == aux0[..c];
    RepeatedNext(codes0, c, s);
    CodingStep(codes0, aux0, orig, c, i, n, v, s, x, codes[..], aux[..]);
  }

  /** Long runs of zeros; returns how many zeros are left. */
  method PutZeros(codes: array<nat>, aux: array<nat>, ghost orig: Lens, c0: nat, ghost i: nat, n0: nat)
    returns (c: nat, n: nat)
    requires codes != aux && codes.Length == aux.Length && Coding(codes[..], aux[..], orig, c0, i, n0)
             && RunOf(orig, i, n0, 0)
    modifies codes, aux
    ensures n <= n0 && n < 3 && Coding(codes[..], aux[..], orig, c, i, n)
    ensures Repeated(codes[..], c) <==> old(Repeated(codes[..], c0))
  {
    hide Coding, Pow2, Repeated;
    Pow2Small();
    c, n := c0, n0;
    while n >= 11
      invariant n <= n0 && Coding(codes[..], aux[..], orig, c, i, n)
      invariant Repeated(codes[..], c) <==> old(Repeated(codes[..], c0))
    {
      var m := n;
      if m > 138 {
        m := 138;
      }
      Put(codes, aux, orig, c, i, n, 0, 18, m - 11);
      c := c + 1;
      n := n - m;
    }
    if n >= 3 {
      Put(codes, aux, orig, c, i, n, 0, 17, n - 3);
      c := c + 1;
      n := 0;
    }
  }

  /** A run of n lengths v: v itself, then repeats of three to six. */
  method PutRun(codes: array<nat>, aux: array<nat>, ghost orig: Lens, c0: nat, ghost i: nat, n0: nat,
                v: nat) returns (c: nat)
    requires codes != aux && codes.Length == aux.Length && Coding(codes[..], aux[..], orig, c0, i, n0)
             && RunOf(orig, i, n0, v) && v < 16
    modifies codes, aux
    ensures Coding(codes[..], aux[..], orig, c, i, 0)
    ensures Repeated(codes[..], c) <==> old(Repeated(codes[..], c0)) || n0 >= 4
  {
    hide Coding, Pow2, Repeated;
    Pow2Small();
    c := c0;
    var n := n0;
    while n > 0
      invariant 0 <= n <= n0 && Coding(codes[..], aux[..], orig, c, i, n) && (n == n0 || n < 3)
      invariant Repeated(codes[..], c) <==> old(Repeated(codes[..], c0)) || (n < n0 && n0 >= 4)
    {
      Put(codes, aux, orig, c, i, n, v, v, 0);
      c := c + 1;
      n := n - 1;
      ghost var n1 := n;
      while n >= 3
        invariant 0 <= n <= n1 && Coding(codes[..], aux[..], orig, c, i, n) && (n < n1 ==> n1 >= 3)
        invariant Repeated(codes[..], c) <==> old(Repeated(codes[..], c0)) || (n1 < n0 - 1 && n0 >= 4) || n < n1
      {
        var m := n;
        if m > 6 {
          m := 6;
        }
        Put(codes, aux, orig, c, i, n, v, 16, m - 3);
        c := c + 1;
        n := n - m;
      }
    }
  }

  /** Where the run starting at i ends. */
  method RunEnd(codes: array<nat>, ncode: nat, i: nat) returns (n: nat)
    requires i < ncode <= codes.Length
    ensures i < n <= ncode && forall k :: i <= k < n ==> codes[k] == codes[i]
    ensures n < ncode ==> codes[n] != codes[i]
  {
    n := i + 1;
    while n < ncode && codes[i] == codes[n]
      invariant i < n <= ncode && forall k :: i <= k < n ==> codes[k] == codes[i]
    {
      n := n + 1;
    }
  }

  /** Replace the lengths by their run-length coding, in the same array; expanding it gives them back. */
  method Compress(codes: array<nat>, aux: array<nat>, ncode: nat, ghost orig: Lens) returns (c: nat)
    requires codes != aux && codes.Length == aux.Length && ncode <= codes.Length && codes[..ncode] == orig
    requires forall k :: 0 <= k < ncode ==> orig[k] < 16
    modifies codes, aux
    ensures c <= ncode && Legal(codes[..c], aux[..c]) && Expand(codes[..c], aux[..c]) == orig
    ensures 16 in codes[..c] <==> FourInRow(orig, |orig|)
  {
    c := 0;
    var i := 0;
    CodingStart(codes[..], aux[..], orig);
    hide Coding, FourInRow, Repeated;
    NoFour(codes[..], orig);
    while i < ncode
      invariant i <= ncode && Coding(codes[..], aux[..], orig, c, i, 0)
      invariant RunStarts(orig, i) && (Repeated(codes[..], c) <==> FourInRow(orig, i))
    {
      UnreadRun(codes[..], aux[..], orig, c, i);
      var v := codes[i];
      assert v == codes[..][i];
      var n := RunEnd(codes, ncode, i);
      assert forall k :: i <= k < n ==> codes[..][k] == codes[k];
      assert n < ncode ==> codes[n] == codes[..][n];
      ReadRun(codes[..], aux[..], orig, c, i, n, v);
      FourInRun(orig, i, n, v);
      var m := n - i;
      i := n;
      if v == 0 {
        c, m := PutZeros(codes, aux, orig, c, i, m);
      }
      c := PutRun(codes, aux, orig, c, i, m, v);
    }
    CodingEnd(codes[..], aux[..], orig, c);
    RepeatedIn(codes[..], c);
    assert codes[..][..c] == codes[..c] && aux[..][..c] == aux[..c];
  }

  lemma NoFour(codes: seq<nat>, orig: Lens)
    ensures !Repeated(codes, 0) && !FourInRow(orig, 0)
  {
  }

  lemma RepeatedIn(codes: seq<nat>, c: nat)
    requires c <= |codes|
    ensures Repeated(codes, c) <==> 16 in codes[..c]
  {
  }

  lemma CodingStart(codes: seq<nat>, aux: seq<nat>, orig: Lens)
    requires |codes| == |aux| && |orig| <= |codes| && codes[..|orig|] == orig
    ensures Coding(codes, aux, orig, 0, 0, 0)
  {
    assert codes[..0] == [] && orig[..0] == [] && codes[0..|orig|] == orig[0..];
  }

  lemma UnreadRun(codes: seq<nat>, aux: seq<nat>, orig: Lens, c: nat, i: nat)
    requires Coding(codes, aux, orig, c, i, 0)
    ensures forall k :: i <= k < |orig| ==> codes[k] == orig[k]
  {
    forall k | i <= k < |orig|
      ensures codes[k] == orig[k]
    {
      assert codes[k] == codes[i..|orig|][k - i] == orig[i..][k - i];
    }
  }

  /** Reading a run moves i past it, owing all its lengths. */
  lemma ReadRun(codes: seq<nat>, aux: seq<nat>, orig: Lens, c: nat, i: nat, j: nat, v: nat)
    requires Coding(codes, aux, orig, c, i, 0) && i < j <= |orig|
    requires forall k :: i <= k < j ==> codes[k] == v
    ensures Coding(codes, aux, orig, c, j, j - i) && RunOf(orig, j, j - i, v)
  {
    UnreadRun(codes, aux, orig, c, i);
    assert codes[j..|orig|] == codes[i..|orig|][j - i..];
    assert orig[j..] == orig[i..][j - i..];
  }

  lemma CodingEnd(codes: seq<nat>, aux: seq<nat>, orig: Lens, c: nat)
    requires Coding(codes, aux, orig, c, |orig|, 0)
    ensures c <= |orig| && Legal(codes[..c], aux[..c]) && Expand(codes[..c], aux[..c]) == orig
  {
    assert orig[..|orig|] == orig;
  }
}
