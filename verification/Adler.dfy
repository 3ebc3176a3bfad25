/** The Adler-32 checksum (section 8.2 of RFC 1950). */
module Adler {
  import opened Bits

  const ADLER_ITERS := 5552
  const ADLER_BASE := 65521
  const WORD := 0x1_0000_0000

  type word32 = x: int | 0 <= x < 0x1_0000_0000

  /** x % ADLERBASE */
  function Red(x: nat): (r: nat)
    ensures r < ADLER_BASE
  {
    x % ADLER_BASE
  }

  lemma {:induction false} RedMultiple(x: nat, q: nat)
    ensures Red(x + ADLER_BASE * q) == Red(x)
  {
    if q > 0 {
      RedMultiple(x, q - 1);
    }
  }

  /** Reducing a summand first makes no difference. */
  lemma RedAdd(x: nat, y: nat)
    ensures Red(Red(x) + y) == Red(x + y)
  {
    RedMultiple(Red(x) + y, x / ADLER_BASE);
  }

  lemma RedSmall(x: nat)
    requires x < ADLER_BASE
    ensures Red(x) == x
  {
  }

  // ----- the definition

  /** The two sums after a string of bytes, reduced at every byte. */
  function Sums(a: nat, b: nat, buf: seq<byte>): (r: (nat, nat))
    ensures r.0 < ADLER_BASE && r.1 < ADLER_BASE
  {
    if buf == [] then (Red(a), Red(b))
    else
      var (x, y) := Sums(a, b, buf[..|buf| - 1]);
      var x' := Red(x + buf[|buf| - 1]);
      (x', Red(y + x'))
  }

  /** The checksum of buf, continuing from an earlier value. */
  function AdlerOf(adler: word32, buf: seq<byte>): (r: word32)
  {
    if buf == [] then adler
    else
      var (x, y) := Sums(adler % 65536, adler / 65536, buf);
      65536 * y + x
  }

  lemma SumsSnoc(a: nat, b: nat, buf: seq<byte>, c: byte)
    ensures var (x, y) := Sums(a, b, buf);
            var x' := Red(x + c);
            Sums(a, b, buf + [c]) == (x', Red(y + x'))
  {
    assert (buf + [c])[..|buf|] == buf;
  }

  lemma {:induction false} SumsAppend(a: nat, b: nat, u: seq<byte>, v: seq<byte>)
    ensures var (x, y) := Sums(a, b, u);
            Sums(a, b, u + v) == Sums(x, y, v)
    decreases |v|
  {
    hide Red;
    if v == [] {
      assert u + v == u;
      RedSmall(Sums(a, b, u).0);
      RedSmall(Sums(a, b, u).1);
    } else {
      var w, c := v[..|v| - 1], v[|v| - 1];
      assert u + v == u + w + [c] && v == w + [c];
      SumsAppend(a, b, u, w);
      SumsSnoc(a, b, u + w, c);
    }
  }

  /** Checksumming piece by piece is checksumming the whole. */
  lemma AdlerAppend(adler: word32, u: seq<byte>, v: seq<byte>)
    ensures AdlerOf(AdlerOf(adler, u), v) == AdlerOf(adler, u + v)
  {
    hide Sums;
    if v == [] {
      assert u + v == u;
    } else if u == [] {
      assert u + v == v;
    } else {
      SumsAppend(adler % 65536, adler / 65536, u, v);
    }
  }

  // ----- as plain sums

  function Total(buf: seq<byte>): nat
  {
    if buf == [] then 0 else Total(buf[..|buf| - 1]) + buf[|buf| - 1]
  }

  /** The sum of the totals of all non-empty prefixes. */
  function Weighted(buf: seq<byte>): nat
  {
    if buf == [] then 0 else Weighted(buf[..|buf| - 1]) + Total(buf)
  }

  /** Reducing at every byte is reducing once at the end. */
  lemma {:induction false} SumsClosed(a: nat, b: nat, buf: seq<byte>)
    ensures Sums(a, b, buf) == (Red(a + Total(buf)), Red(b + |buf| * a + Weighted(buf)))
  {
    hide Red;
    if buf != [] {
      var w, c := buf[..|buf| - 1], buf[|buf| - 1];
      SumsClosed(a, b, w);
      assert |buf| * a == |w| * a + a;
      RedAdd(a + Total(w), c);
      RedAdd(b + |w| * a + Weighted(w), Red(a + Total(buf)));
      RedAdd(a + Total(buf), b + |w| * a + Weighted(w));
    }
  }

  /** Which sum is which: the low half adds up the bytes, the high half the low halves. */
  lemma AdlerHalves(adler: word32, buf: seq<byte>)
    requires buf != []
    ensures AdlerOf(adler, buf) % 65536 == (adler % 65536 + Total(buf)) % 65521
    ensures AdlerOf(adler, buf) / 65536
         == (adler / 65536 + |buf| * (adler % 65536) + ByDistance(buf)) % 65521
  {
    hide Sums, Total, Weighted, ByDistance;
    SumsClosed(adler % 65536, adler / 65536, buf);
    WeightedIs(buf);
  }

  /** Every byte times its distance from the end. */
  function ByDistance(buf: seq<byte>): nat
  {
    if buf == [] then 0 else |buf| * buf[0] + ByDistance(buf[1..])
  }

  lemma {:induction false} DistanceSnoc(buf: seq<byte>, c: byte)
    ensures ByDistance(buf + [c]) == ByDistance(buf) + Total(buf) + c
  {
    if buf == [] {
      assert (buf + [c])[1..] == [];
    } else {
      assert (buf + [c])[1..] == buf[1..] + [c];
      DistanceSnoc(buf[1..], c);
      TotalCons(buf);
      OneTimes(|buf|, buf[0]);
    }
  }

  lemma OneTimes(n: nat, c: nat)
    ensures (n + 1) * c == n * c + c
  {
  }

  lemma {:induction false} TotalCons(buf: seq<byte>)
    requires buf != []
    ensures Total(buf) == buf[0] + Total(buf[1..])
  {
    if |buf| > 1 {
      TotalCons(buf[..|buf| - 1]);
      assert buf[..|buf| - 1][1..] == buf[1..][..|buf| - 2];
    }
  }

  lemma {:induction false} WeightedIs(buf: seq<byte>)
    ensures Weighted(buf) == ByDistance(buf)
  {
    if buf != [] {
      var w, c := buf[..|buf| - 1], buf[|buf| - 1];
      WeightedIs(w);
      assert buf == w + [c];
      DistanceSnoc(w, c);
    }
  }

  /** The checksum of "ab". */
  lemma AdlerAb()
    ensures AdlerOf(1, [97, 98]) == 0x0126_00C4
  {
    hide AdlerOf, Sums;
    var buf: seq<byte> := [97, 98];
    AdlerHalves(1, buf);
    var r := AdlerOf(1, buf);
    assert r == 65536 * (r / 65536) + r % 65536;
    assert buf[..1] == [97] && buf[1..] == [98] && [98][1..] == [] && [97][..0] == [];
    assert Total([97]) == 97 && Total(buf) == 97 + 98;
    assert ByDistance([98]) == 98 && ByDistance(buf) == 2 * 97 + 98;
  }

  // ----- the batched loop

  /** 0 + 1 + ... + n */
  function Triangle(n: nat): nat
  {
    if n == 0 then 0 else Triangle(n - 1) + n
  }

  lemma {:induction false} TriangleIs(n: nat)
    ensures 2 * Triangle(n) == n * (n + 1)
  {
    if n > 0 {
      TriangleIs(n - 1);
    }
  }

  lemma {:induction false} TriangleMono(m: nat, n: nat)
    requires m <= n
    ensures Triangle(m) <= Triangle(n)
  {
    if m < n {
      TriangleMono(m, n - 1);
    }
  }

  /** What the unreduced sums can be after j bytes of a batch. */
  ghost predicate Bounded(s1: nat, s2: nat, j: nat)
  {
    s1 <= 65535 + 255 * j && s2 <= 65535 + 65535 * j + 255 * Triangle(j)
  }

  /** Within a batch no sum reaches 2^32. */
  lemma NoOverflow(s1: nat, s2: nat, j: nat)
    requires Bounded(s1, s2, j) && j <= ADLER_ITERS
    ensures s1 < WORD && s2 < WORD
  {
    TriangleIs(ADLER_ITERS);
    TriangleMono(j, ADLER_ITERS);
  }

  /** One byte added to both sums, in 32-bit arithmetic. */
  method AddByte(s1: nat, s2: nat, c: byte, ghost a: nat, ghost b: nat, ghost done: seq<byte>,
                 ghost j: nat) returns (t1: nat, t2: nat)
    requires Bounded(s1, s2, j) && j < ADLER_ITERS && Sums(a, b, done) == (Red(s1), Red(s2))
    ensures Bounded(t1, t2, j + 1) && Sums(a, b, done + [c]) == (Red(t1), Red(t2))
  {
    hide Sums, Red;
    t1 := (s1 + c) % WORD;
    t2 := (s2 + (s1 + c) % WORD) % WORD;
    assert Bounded(s1 + c, s2 + (s1 + c), j + 1);
    NoOverflow(s1 + c, s2 + (s1 + c), j + 1);
    SumsSnoc(a, b, done, c);
    RedAdd(s1, c);
    RedAdd(s2, Red(s1 + c));
    RedAdd(s1 + c, s2);
  }

  /** A batch of m bytes, reduced at its end. */
  method Batch(s1: nat, s2: nat, buf: seq<byte>, at: nat, m: nat, ghost a: nat, ghost b: nat) returns (t1: nat, t2: nat)
    requires at + m <= |buf| && m <= ADLER_ITERS && s1 <= 65535 && s2 <= 65535
    requires Sums(a, b, buf[..at]) == (Red(s1), Red(s2))
    ensures (t1, t2) == Sums(a, b, buf[..at + m])
  {
    hide Sums, Red;
    t1, t2 := s1, s2;
    for j := 0 to m
      invariant Bounded(t1, t2, j) && Sums(a, b, buf[..at + j]) == (Red(t1), Red(t2))
    {
      assert buf[..at + j + 1] == buf[..at + j] + [buf[at + j]];
      t1, t2 := AddByte(t1, t2, buf[at + j], a, b, buf[..at + j], j);
    }
    t1, t2 := Red(t1), Red(t2);
  }

  /** From any starting value: the checksum by its definition, in batches of up to 5552 bytes. */
  method Adler32(adler: word32, buf: seq<byte>) returns (r: word32)
    ensures r == AdlerOf(adler, buf)
    ensures buf != [] ==> r % 65536 == (adler % 65536 + Total(buf)) % 65521
    ensures buf != [] ==> r / 65536 == (adler / 65536 + |buf| * (adler % 65536) + ByDistance(buf)) % 65521
  {
    hide Sums, Red;
    var s1, s2 := adler % 65536, adler / 65536 % 65536;
    ghost var a, b := s1, s2;
    var at, n := 0, |buf|;
    StartSums(a, b, buf);
    while n >= 16
      invariant 0 <= at <= |buf| && at + n == |buf| && 0 <= s1 <= 65535 && 0 <= s2 <= 65535
      invariant Sums(a, b, buf[..at]) == (Red(s1), Red(s2))
      invariant if at == 0 then s1 == a && s2 == b else Sums(a, b, buf[..at]) == (s1, s2)
    {
      var m := if n > ADLER_ITERS then ADLER_ITERS else n;
      m := m - m % 16;
      s1, s2 := Batch(s1, s2, buf, at, m, a, b);
      RedSmall(s1);
      RedSmall(s2);
      at, n := at + m, n - m;
    }
    if n > 0 {
      s1, s2 := Batch(s1, s2, buf, at, n, a, b);
    }
    assert buf[..at + n] == buf;
    assert at + n == |buf|;
    r := 65536 * s2 + s1;
    if buf != [] {
      AdlerHalves(adler, buf);
    }
  }

  lemma StartSums(a: nat, b: nat, buf: seq<byte>)
    ensures Sums(a, b, buf[..0]) == (Red(a), Red(b))
  {
  }
}
