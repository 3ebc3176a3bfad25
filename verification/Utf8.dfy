/** UTF-8 (sections 3 and 4 of RFC 3629) as lib9's rune functions have it. */
module Utf8 {
  import opened Bits

  const RUNE_MAX := 0x10FFFF
  const RUNE_ERROR := 0xFFFD
  const UTF_MAX := 4

  /** Code points other than surrogate halves. */
  predicate Scalar(r: nat)
  {
    r <= RUNE_MAX && !(0xD800 <= r <= 0xDFFF)
  }

  /** The encoding of a scalar value. */
  function Utf8(r: nat): (w: seq<byte>)
    requires r <= RUNE_MAX
    ensures 1 <= |w| <= UTF_MAX
  {
    if r < 0x80 then [r]
    else if r < 0x800 then [0xC0 + r / 64, 0x80 + r % 64]
    else if r < 0x1_0000 then [0xE0 + r / 4096, 0x80 + r / 64 % 64, 0x80 + r % 64]
    else [0xF0 + r / 262144, 0x80 + r / 4096 % 64, 0x80 + r / 64 % 64, 0x80 + r % 64]
  }

  /** Byte i of a string that ends with NUL. */
  function At(s: seq<byte>, i: nat): byte
  {
    if i < |s| then s[i] else 0
  }

  ghost predicate Starts(s: seq<byte>, w: seq<byte>)
  {
    forall i :: 0 <= i < |w| ==> At(s, i) == w[i]
  }

  // ----- the tables

  /** A lead byte's mark: i ones and a zero. */
  function T(i: nat): nat
    requires 1 <= i <= 5
  {
    if i == 1 then 0x80 else if i == 2 then 0xC0 else if i == 3 then 0xE0 else if i == 4 then 0xF0 else 0xF8
  }

  /** The largest value that i bytes hold. */
  function RuneX(i: nat): nat
    requires 1 <= i <= 4
  {
    if i == 1 then 0x7F else if i == 2 then 0x7FF else if i == 3 then 0xFFFF else 0x1F_FFFF
  }

  predicate Trail(c: byte)
  {
    0x80 <= c < 0xC0
  }

  /** How many bytes a lead byte announces; 5 if it is none. */
  function Announced(c: byte): (n: nat)
    ensures 1 <= n <= 5
  {
    if c < 0x80 then 1 else if c < 0xE0 then 2 else if c < 0xF0 then 3 else if c < 0xF8 then 4 else 5
  }

  /** The bytes of a sequence put together, six bits from each after the first. */
  function Joined(s: seq<byte>, i: nat): nat
  {
    if i == 0 then At(s, 0) else Joined(s, i - 1) * 64 + At(s, i) % 64
  }

  /** The value of a sequence of i + 1 bytes. */
  function Value(s: seq<byte>, i: nat): nat
    requires 1 <= i <= 3
  {
    Joined(s, i) % (RuneX(i + 1) + 1)
  }

  /** The rune at the start of a string and how many bytes it takes. */
  function Decoded(s: seq<byte>): (r: (nat, nat))
  {
    var n := Announced(At(s, 0));
    if n == 1 then (At(s, 0), 1)
    else if n == 5 || !(forall k :: 1 <= k < n ==> Trail(At(s, k))) then (RUNE_ERROR, 1)
    else
      var l := Value(s, n - 1);
      if At(s, 0) < 0xC0 || l <= RuneX(n - 1) || !Scalar(l) then (RUNE_ERROR, 1) else (l, n)
  }

  /** The decoding loop. */
  method CharToRune(s: seq<byte>) returns (rune: nat, n: nat)
    ensures (rune, n) == Decoded(s)
  {
    var c := At(s, 0);
    if c < T(1) {
      return c, 1;
    }
    var l: nat := c;
    for i := 1 to UTF_MAX
      invariant l == Joined(s, i - 1) && Announced(c) > i && forall k :: 1 <= k < i ==> Trail(At(s, k))
    {
      var d := At(s, i);
      if !(0x80 <= d < 0xC0) {
        return RUNE_ERROR, 1;
      }
      l := l * 64 + d % 64;
      if c < T(i + 2) {
        l := l % (RuneX(i + 1) + 1);
        if i == 1 {
          if c < T(2) || l <= RuneX(1) {
            return RUNE_ERROR, 1;
          }
        } else if l <= RuneX(i) || l > RUNE_MAX {
          return RUNE_ERROR, 1;
        }
        if i == 2 && 0xD800 <= l <= 0xDFFF {
          return RUNE_ERROR, 1;
        }
        return l, i + 1;
      }
    }
    return RUNE_ERROR, 1;
  }

  // ----- digits

  lemma Mods(x: nat, y: nat)
    ensures y < 0x800 && x == 6 * 0x800 + y ==> x % 0x800 == y
    ensures y < 0x1_0000 && x == 14 * 0x1_0000 + y ==> x % 0x1_0000 == y
    ensures y < 0x20_0000 && x == 30 * 0x20_0000 + y ==> x % 0x20_0000 == y
  {
  }

  lemma Value2(s: seq<byte>)
    requires 0xC0 <= At(s, 0) < 0xE0
    ensures Value(s, 1) == (At(s, 0) - 0xC0) * 64 + At(s, 1) % 64
  {
    var a: int, b := At(s, 0), At(s, 1) % 64;
    assert Joined(s, 0) == a;
    assert Joined(s, 1) == a * 64 + b;
    Mods(a * 64 + b, (a - 0xC0) * 64 + b);
  }

  lemma Value3(s: seq<byte>)
    requires 0xE0 <= At(s, 0) < 0xF0
    ensures Value(s, 2) == ((At(s, 0) - 0xE0) * 64 + At(s, 1) % 64) * 64 + At(s, 2) % 64
  {
    var a: int, b, c := At(s, 0), At(s, 1) % 64, At(s, 2) % 64;
    assert Joined(s, 0) == a;
    assert Joined(s, 1) == a * 64 + b;
    assert Joined(s, 2) == (a * 64 + b) * 64 + c;
    Mods((a * 64 + b) * 64 + c, ((a - 0xE0) * 64 + b) * 64 + c);
  }

  lemma Value4(s: seq<byte>)
    requires 0xF0 <= At(s, 0) < 0xF8
    ensures Value(s, 3) == (((At(s, 0) - 0xF0) * 64 + At(s, 1) % 64) * 64 + At(s, 2) % 64) * 64 + At(s, 3) % 64
  {
    var a: int, b, c, d := At(s, 0), At(s, 1) % 64, At(s, 2) % 64, At(s, 3) % 64;
    assert Joined(s, 0) == a;
    assert Joined(s, 1) == a * 64 + b;
    assert Joined(s, 2) == (a * 64 + b) * 64 + c;
    assert Joined(s, 3) == ((a * 64 + b) * 64 + c) * 64 + d;
    Mods(((a * 64 + b) * 64 + c) * 64 + d, (((a - 0xF0) * 64 + b) * 64 + c) * 64 + d);
  }

  /** Base-64 digits determine a number and are determined by it. */
  lemma TwoDigits(r: nat, a: nat, d: nat)
    requires d < 64
    ensures r == a * 64 + d <==> a == r / 64 && d == r % 64
  {
  }

  lemma ThreeDigits(r: nat, a: nat, c: nat, d: nat)
    requires c < 64 && d < 64
    ensures r == (a * 64 + c) * 64 + d <==> a == r / 4096 && c == r / 64 % 64 && d == r % 64
  {
    TwoDigits(r, r / 64, d);
    TwoDigits(r / 64, a, c);
    assert r / 64 / 64 == r / 4096;
  }

  lemma FourDigits(r: nat, a: nat, b: nat, c: nat, d: nat)
    requires b < 64 && c < 64 && d < 64
    ensures r == ((a * 64 + b) * 64 + c) * 64 + d <==>
              && a == r / 262144 && b == r / 4096 % 64 && c == r / 64 % 64
              && d == r % 64
  {
    TwoDigits(r, (a * 64 + b) * 64 + c, d);
    ThreeDigits(r / 64, a, b, c);
    assert r / 64 / 64 == r / 4096 && r / 64 / 4096 == r / 262144;
  }

  // ----- decoding inverts encoding

  lemma Bytes(r: nat, s: seq<byte>)
    requires r <= RUNE_MAX
    ensures Starts(s, Utf8(r)) <==>
              && At(s, 0) == Utf8(r)[0] && (|Utf8(r)| > 1 ==> At(s, 1) == Utf8(r)[1])
              && (|Utf8(r)| > 2 ==> At(s, 2) == Utf8(r)[2]) && (|Utf8(r)| > 3 ==> At(s, 3) == Utf8(r)[3])
  {
    hide Utf8, At;
    var w := Utf8(r);
    if Starts(s, w) {
      assert At(s, 0) == w[0];
    }
  }

  /** Two-byte sequences. */
  lemma Two(s: seq<byte>, r: nat)
    requires 0x80 <= At(s, 0) < 0xE0
    ensures Decoded(s) == (r, 2) <==> 0x80 <= r < 0x800 && Starts(s, Utf8(r))
  {
    hide Utf8, Value, Starts;
    if At(s, 0) >= 0xC0 {
      Value2(s);
    }
    if 0x80 <= r < 0x800 {
      Bytes(r, s);
      Utf2(r);
    }
    if At(s, 0) >= 0xC0 {
      TwoDigits(r, At(s, 0) - 0xC0, At(s, 1) % 64);
    }
  }

  lemma Utf2(r: nat)
    requires 0x80 <= r < 0x800
    ensures Utf8(r) == [0xC0 + r / 64, 0x80 + r % 64]
  {
  }

  /** Three-byte sequences. */
  lemma Three(s: seq<byte>, r: nat)
    requires 0xE0 <= At(s, 0) < 0xF0
    ensures Decoded(s) == (r, 3) <==> 0x800 <= r < 0x1_0000 && Scalar(r) && Starts(s, Utf8(r))
  {
    hide Utf8, Value, Starts;
    Value3(s);
    if 0x800 <= r < 0x1_0000 {
      Bytes(r, s);
      Utf3(r);
    }
    ThreeDigits(r, At(s, 0) - 0xE0, At(s, 1) % 64, At(s, 2) % 64);
    TrailsOf(s, 3);
  }

  lemma Utf3(r: nat)
    requires 0x800 <= r < 0x1_0000
    ensures Utf8(r) == [0xE0 + r / 4096, 0x80 + r / 64 % 64, 0x80 + r % 64]
  {
  }

  /** Four-byte sequences. */
  lemma Four(s: seq<byte>, r: nat)
    requires 0xF0 <= At(s, 0) < 0xF8
    ensures Decoded(s) == (r, 4) <==> 0x1_0000 <= r <= RUNE_MAX && Starts(s, Utf8(r))
  {
    hide Utf8, Value, Starts;
    Value4(s);
    if 0x1_0000 <= r <= RUNE_MAX {
      Bytes(r, s);
      Utf4(r);
    }
    FourDigits(r, At(s, 0) - 0xF0, At(s, 1) % 64, At(s, 2) % 64, At(s, 3) % 64);
    TrailsOf(s, 4);
  }

  lemma Utf4(r: nat)
    requires 0x1_0000 <= r <= RUNE_MAX
    ensures Utf8(r) == [0xF0 + r / 262144, 0x80 + r / 4096 % 64, 0x80 + r / 64 % 64, 0x80 + r % 64]
  {
  }

  lemma TrailsOf(s: seq<byte>, n: nat)
    requires 3 <= n <= 4
    ensures (forall k :: 1 <= k < n ==> Trail(At(s, k)))
       <==> Trail(At(s, 1)) && Trail(At(s, 2)) && (n == 4 ==> Trail(At(s, 3)))
  {
  }

  /** An encoded value starts with a byte that announces its length. */
  lemma LeadOf(r: nat)
    requires r <= RUNE_MAX
    ensures Announced(Utf8(r)[0]) == |Utf8(r)| && (r >= 0x80 ==> Utf8(r)[0] >= 0xC0)
    ensures |Utf8(r)| == if r < 0x80 then 1 else if r < 0x800 then 2 else if r < 0x1_0000 then 3 else 4
  {
  }

  /** Whatever follows, an encoded scalar value is decoded to itself. */
  lemma DecodeEncoded(r: nat, s: seq<byte>)
    requires Scalar(r) && Starts(s, Utf8(r))
    ensures Decoded(s) == (r, |Utf8(r)|)
  {
    hide Decoded, Joined, Value;
    LeadOf(r);
    assert At(s, 0) == Utf8(r)[0];
    if r < 0x80 {
      Ascii(s);
    } else if r < 0x800 {
      Two(s, r);
    } else if r < 0x1_0000 {
      Three(s, r);
    } else {
      Four(s, r);
    }
  }

  lemma Ascii(s: seq<byte>)
    requires At(s, 0) < 0x80
    ensures Decoded(s) == (At(s, 0), 1)
  {
  }

  /** What is decoded without error is the shortest encoding of a scalar value. */
  lemma DecodedIsEncoded(s: seq<byte>)
    ensures var (r, n) := Decoded(s);
            (r, n) == (RUNE_ERROR, 1) || (Scalar(r) && n == |Utf8(r)| && Starts(s, Utf8(r)))
  {
    hide Value, Joined;
    var (r, n) := Decoded(s);
    var a := At(s, 0);
    if (r, n) != (RUNE_ERROR, 1) {
      if a < 0x80 {
        assert Utf8(r) == [a];
      } else if a < 0xE0 {
        Two(s, r);
        LeadOf(r);
      } else if a < 0xF0 {
        Three(s, r);
        LeadOf(r);
      } else if a < 0xF8 {
        Four(s, r);
        LeadOf(r);
      }
    }
  }

  // ----- encoding

  /** Code points that cannot be encoded become the error rune. */
  function Encodable(c: nat): (r: nat)
    ensures Scalar(r)
  {
    if Scalar(c) then c else RUNE_ERROR
  }

  function Pow64(k: nat): nat
    requires k <= 3
  {
    if k == 0 then 1 else if k == 1 then 64 else if k == 2 then 4096 else 262144
  }

  method RuneToChar(rune: nat) returns (str: seq<byte>)
    ensures str == Utf8(Encodable(rune))
  {
    hide Utf8;
    var c := rune;
    if c <= RuneX(1) {
      OneByte(c);
      return [c];
    }
    for i := 2 to UTF_MAX + 1
      invariant c > RuneX(i - 1) && (if i < 4 then c == rune else c == Encodable(rune))
    {
      if i == 3 {
        if c > RUNE_MAX {
          c := RUNE_ERROR;
        }
        if 0xD800 <= c <= 0xDFFF {
          c := RUNE_ERROR;
        }
      }
      if c <= RuneX(i) || i == UTF_MAX {
        str := PutBytes(c, i);
        return;
      }
    }
    str := []; // not reached
  }

  /** A lead byte and i - 1 trailing bytes. */
  method PutBytes(c: nat, i: nat) returns (str: seq<byte>)
    requires 2 <= i <= 4 && RuneX(i - 1) < c <= RUNE_MAX && (c <= RuneX(i) || i == 4)
    ensures str == Utf8(c)
  {
    hide Utf8;
    Sizes(c, i);
    str := [T(i) + c / Pow64(i - 1)];
    for j := 1 to i
      invariant |str| == j && str == Utf8(c)[..j]
    {
      str := str + [0x80 + c / Pow64(i - j - 1) % 64];
    }
  }

  lemma OneByte(c: nat)
    requires c < 0x80
    ensures Utf8(c) == [c]
  {
  }

  lemma Sizes(c: nat, i: nat)
    requires 2 <= i <= 4 && RuneX(i - 1) < c <= RUNE_MAX && (c <= RuneX(i) || i == 4)
    ensures |Utf8(c)| == i && Utf8(c)[0] == T(i) + c / Pow64(i - 1)
    ensures forall j :: 1 <= j < i ==> Utf8(c)[j] == 0x80 + c / Pow64(i - j - 1) % 64
  {
  }

  method RuneLen(c: nat) returns (n: nat)
    ensures n == |Utf8(Encodable(c))|
  {
    var str := RuneToChar(c);
    n := |str|;
  }

  /** The encoding of a string of runes. */
  function Encode(runes: seq<nat>): seq<byte>
    requires forall i :: 0 <= i < |runes| ==> Scalar(runes[i])
  {
    if runes == [] then []
    else
      assert Scalar(runes[0]);
      Utf8(runes[0]) + Encode(runes[1..])
  }

  function RuneSize(c: nat): nat
  {
    if c < 0x80 then 1 else if c < 0x800 then 2 else if c < 0x1_0000 then 3 else 4
  }

  function RuneSizes(runes: seq<nat>): nat
  {
    if runes == [] then 0 else RuneSize(runes[0]) + RuneSizes(runes[1..])
  }

  method RuneNLen(runes: seq<nat>) returns (nb: nat)
    ensures nb == RuneSizes(runes)
  {
    nb := 0;
    assert runes[0..] == runes;
    for k := 0 to |runes|
      invariant nb + RuneSizes(runes[k..]) == RuneSizes(runes)
    {
      assert runes[k..][1..] == runes[k + 1..];
      var c := runes[k];
      if c <= RuneX(1) {
        nb := nb + 1;
      } else {
        for i := 2 to UTF_MAX + 1
          invariant c > RuneX(i - 1) && i <= 4 && nb + RuneSizes(runes[k..]) == RuneSizes(runes)
        {
          if c <= RuneX(i) || i == UTF_MAX {
            nb := nb + i;
            break;
          }
        }
      }
    }
  }

  /**
   runenlen agrees with runetochar exactly up to the largest code point; beyond it counts four bytes where
   three are written.
   */
  lemma SizeAgrees(c: nat)
    ensures RuneSize(c) == |Utf8(Encodable(c))| <==> c <= RUNE_MAX
  {
    hide Utf8;
    LeadOf(Encodable(c));
  }

  lemma {:induction false} SizesOfEncoding(runes: seq<nat>)
    requires forall i :: 0 <= i < |runes| ==> Scalar(runes[i])
    ensures RuneSizes(runes) == |Encode(runes)|
  {
    hide Utf8;
    if runes != [] {
      LeadOf(runes[0]);
      SizesOfEncoding(runes[1..]);
    }
  }

  // ----- whether a rune is complete

  method FullRune(s: seq<byte>, n: int) returns (full: bool)
    ensures full <==> n > 0 && n >= (if Announced(At(s, 0)) == 5 then UTF_MAX else Announced(At(s, 0)))
  {
    if n <= 0 {
      return false;
    }
    var c := At(s, 0);
    if c < T(1) {
      return true;
    }
    for i := 3 to UTF_MAX + 1
      invariant c >= T(1) && (i > 3 ==> c >= T(i - 1))
    {
      if c < T(i) {
        return n >= i - 1;
      }
    }
    return n >= UTF_MAX;
  }

  /** When the first n bytes hold a full rune, what follows them does not matter. */
  lemma FullIsEnough(s: seq<byte>, t: seq<byte>, n: nat)
    requires n > 0 && n >= (if Announced(At(s, 0)) == 5 then UTF_MAX else Announced(At(s, 0)))
    requires forall i :: 0 <= i < n ==> At(s, i) == At(t, i)
    ensures Decoded(s) == Decoded(t)
  {
    var m := Announced(At(s, 0));
    assert At(s, 0) == At(t, 0);
    if 2 <= m <= 4 {
      SameJoined(s, t, m - 1);
    }
  }

  lemma {:induction false} SameJoined(s: seq<byte>, t: seq<byte>, i: nat)
    requires forall k :: 0 <= k <= i ==> At(s, k) == At(t, k)
    ensures Joined(s, i) == Joined(t, i)
  {
    if i > 0 {
      SameJoined(s, t, i - 1);
    }
  }

  // ----- copying

  /** The last byte among the first n that is not a trailing byte; 0 if there is none. */
  function LastLead(s: seq<byte>, n: nat): (k: nat)
    requires 0 < n <= |s|
    ensures k < n
  {
    if n == 1 || !Trail(s[n - 1]) then n - 1 else LastLead(s, n - 1)
  }

  /** Copy a string, cutting it at a rune boundary if it is too long; to is a buffer of to.Length bytes. */
  method Utfecpy(to: array<byte>, from: seq<byte>) returns (end: nat)
    requires forall i :: 0 <= i < |from| ==> from[i] != 0
    modifies to
    ensures to.Length == 0 ==> end == 0
    ensures 0 < to.Length && |from| < to.Length ==> end == |from|
    ensures 0 < to.Length <= |from| ==> end == LastLead(from, to.Length)
    ensures to.Length > 0 ==> end < to.Length && to[..end] == from[..end] && to[end] == 0
  {
    if to.Length == 0 {
      return 0;
    }
    var n := if |from| < to.Length then |from| + 1 else to.Length;
    forall i | 0 <= i < n {
      to[i] := At(from, i);
    }
    if |from| < to.Length {
      end := n - 1;
    } else {
      end := to.Length - 1;
      while end > 0 && Trail(to[end])
        invariant 0 <= end < to.Length && LastLead(from, to.Length) == LastLead(from, end + 1)
        invariant forall i :: 0 <= i < to.Length ==> to[i] == from[i]
      {
        end := end - 1;
      }
      to[end] := 0;
    }
  }

  lemma {:induction false} EncodeAppend(a: seq<nat>, b: seq<nat>)
    requires (forall i :: 0 <= i < |a| ==> Scalar(a[i])) && (forall i :: 0 <= i < |b| ==> Scalar(b[i]))
    ensures forall i :: 0 <= i < |a + b| ==> Scalar((a + b)[i])
    ensures Encode(a + b) == Encode(a) + Encode(b)
  {
    hide Utf8;
    if a == [] {
      assert a + b == b;
    } else {
      assert (a + b)[1..] == a[1..] + b;
      EncodeAppend(a[1..], b);
    }
  }

  lemma TrailsInside(r: nat, j: nat)
    requires r <= RUNE_MAX && j < |Utf8(r)|
    ensures Trail(Utf8(r)[j]) <==> j > 0
  {
  }

  lemma {:induction false} BackToLead(s: seq<byte>, lead: nat, n: nat)
    requires lead < n <= |s| && !Trail(s[lead]) && forall i :: lead < i < n ==> Trail(s[i])
    ensures LastLead(s, n) == lead
  {
    if n > lead + 1 {
      BackToLead(s, lead, n - 1);
    }
  }

  /** The rune that holds byte n - 1: k runes end before it, and it does not end before n. */
  lemma {:induction false} RuneAround(runes: seq<nat>, n: nat) returns (k: nat)
    requires (forall i :: 0 <= i < |runes| ==> Scalar(runes[i])) && 0 < n <= |Encode(runes)|
    ensures k < |runes| && |Encode(runes[..k])| < n <= |Encode(runes[..k + 1])|
  {
    hide Utf8;
    var w := Utf8(runes[0]);
    assert runes[..0] == [] && runes[..1] == [runes[0]] && [runes[0]][1..] == [];
    if n <= |w| {
      k := 0;
    } else {
      var j := RuneAround(runes[1..], n - |w|);
      k := j + 1;
      assert runes[..k][1..] == runes[1..][..j] && runes[..k + 1][1..] == runes[1..][..j + 1];
    }
  }

  /**
   Of a valid string that does not fit, utfecpy keeps the longest prefix of whole runes that leaves room for
   the NUL: k runes, and one more would not fit.
   */
  lemma KeepsWholeRunes(runes: seq<nat>, n: nat) returns (k: nat)
    requires (forall i :: 0 <= i < |runes| ==> Scalar(runes[i])) && 0 < n <= |Encode(runes)|
    ensures k < |runes| && LastLead(Encode(runes), n) == |Encode(runes[..k])| && Encode(runes[..k]) <= Encode(runes)
    ensures |Encode(runes[..k])| + 1 <= n < |Encode(runes[..k + 1])| + 1
  {
    hide Utf8, LastLead;
    k := RuneAround(runes, n);
    var a, r, b := runes[..k], runes[k], runes[k + 1..];
    var s, p, w := Encode(runes), Encode(a), Utf8(r);
    assert runes == a + ([r] + b) && runes[..k + 1] == a + [r];
    EncodeAppend(a, [r] + b);
    EncodeAppend(a, [r]);
    assert ([r] + b)[1..] == b && [r][1..] == [];
    assert s == p + (w + Encode(b));
    assert |Encode(runes[..k + 1])| == |p| + |w|;
    forall j | 0 <= j < |w|
      ensures s[|p| + j] == w[j] && (Trail(w[j]) <==> j > 0)
    {
      TrailsInside(r, j);
    }
    forall i | |p| < i < n
      ensures Trail(s[i])
    {
      assert s[|p| + (i - |p|)] == w[i - |p|];
    }
    assert s[|p| + 0] == w[0];
    BackToLead(s, |p|, n);
  }

  // ----- examples

  /** One, two, three and four bytes. */
  lemma Examples()
    ensures Utf8(0x24) == [0x24] && Utf8(0xA2) == [0xC2, 0xA2] && Utf8(0x20AC) == [0xE2, 0x82, 0xAC]
            && Utf8(0x1_0348) == [0xF0, 0x90, 0x8D, 0x88]
    ensures Decoded([0xE2, 0x82, 0xAC]) == (0x20AC, 3) && Decoded([0xF0, 0x90, 0x8D, 0x88]) == (0x1_0348, 4)
  {
    DecodeEncoded(0x20AC, [0xE2, 0x82, 0xAC]);
    DecodeEncoded(0x1_0348, [0xF0, 0x90, 0x8D, 0x88]);
  }

  /** Overlong forms, surrogate halves and bytes that start nothing give the error rune and take one byte. */
  lemma Malformed()
    ensures Decoded([0xC0, 0x80]) == (0xFFFD, 1) && Decoded([0xED, 0xA0, 0x80]) == (0xFFFD, 1)
            && Decoded([0xFF]) == (0xFFFD, 1)
  {
    var s: seq<byte>, t: seq<byte> := [0xC0, 0x80], [0xED, 0xA0, 0x80];
    assert Joined(s, 0) == 0xC0 && Joined(s, 1) == 0x3000;
    assert Joined(t, 0) == 0xED && Joined(t, 1) == 0xED * 64 + 0x20 && Joined(t, 2) == (0xED * 64 + 0x20) * 64;
  }
}
