/**
 9P2000 messages (intro(5) in section 5 of the Plan 9 manual): packing and unpacking.

 The two conversion routines' switches are given by one table, Layout, from message type to
 the kinds of its fields.  Strings are unpacked in place: each is moved down over its own length to
 make room for a NUL, and the unpacked message points into the buffer.
 */
module NineP {
  import opened Bits

  const MAXWELEM := 16

  datatype Kind = K8 | K16 | K32 | K64 | KQid | KStr | KNames | KQids | KData | KStat

  datatype Qid = Qid(kind: nat, vers: nat, path: nat)

  datatype Val =
    | Num(n: nat) | OneQid(q: Qid) | Str(s: seq<byte>)
    | Names(names: seq<seq<byte>>) | Qids(qids: seq<Qid>) | Bytes(b: seq<byte>)

  /** The fields of each message type; None for Terror and numbers that are no type. */
  function Layout(t: nat): Option<seq<Kind>>
  {
    match t
    case 100 => Some([K32, KStr]) // Tversion
    case 101 => Some([K32, KStr]) // Rversion
    case 102 => Some([K32, KStr, KStr]) // Tauth
    case 103 => Some([KQid]) // Rauth
    case 104 => Some([K32, K32, KStr, KStr]) // Tattach
    case 105 => Some([KQid]) // Rattach
    case 107 => Some([KStr]) // Rerror
    case 108 => Some([K16]) // Tflush
    case 109 => Some([]) // Rflush
    case 110 => Some([K32, K32, KNames]) // Twalk
    case 111 => Some([KQids]) // Rwalk
    case 112 => Some([K32, K8]) // Topen
    case 113 => Some([KQid, K32]) // Ropen
    case 114 => Some([K32, KStr, K32, K8]) // Tcreate
    case 115 => Some([KQid, K32]) // Rcreate
    case 116 => Some([K32, K64, K32]) // Tread
    case 117 => Some([KData]) // Rread
    case 118 => Some([K32, K64, KData]) // Twrite
    case 119 => Some([K32]) // Rwrite
    case 120 => Some([K32]) // Tclunk
    case 121 => Some([]) // Rclunk
    case 122 => Some([K32]) // Tremove
    case 123 => Some([]) // Rremove
    case 124 => Some([K32]) // Tstat
    case 125 => Some([KStat]) // Rstat
    case 126 => Some([K32, KStat]) // Twstat
    case 127 => Some([]) // Rwstat
    case _ => None
  }

  datatype Msg = Msg(kind: nat, tag: nat, vals: seq<Val>)

  // ----- little-endian numbers

  function Le(v: nat, n: nat): (s: seq<byte>)
    ensures |s| == n
  {
    if n == 0 then [] else [v % 256] + Le(v / 256, n - 1)
  }

  function FromLe(s: seq<byte>): nat
  {
    if s == [] then 0 else s[0] + 256 * FromLe(s[1..])
  }

  function Pow256(n: nat): nat
  {
    if n == 0 then 1 else 256 * Pow256(n - 1)
  }

  lemma {:induction false} FromLeLe(v: nat, n: nat)
    requires v < Pow256(n)
    ensures FromLe(Le(v, n)) == v
  {
    if n > 0 {
      FromLeLe(v / 256, n - 1);
      assert Le(v, n)[1..] == Le(v / 256, n - 1);
    }
  }

  lemma Widths()
    ensures Pow256(1) == 0x100 && Pow256(2) == 0x1_0000 && Pow256(4) == 0x1_0000_0000
            && Pow256(8) == 0x1_0000_0000_0000_0000
  {
    assert Pow256(3) == 256 * Pow256(2) && Pow256(4) == 256 * Pow256(3) && Pow256(5) == 256 * Pow256(4);
    assert Pow256(6) == 256 * Pow256(5) && Pow256(7) == 256 * Pow256(6) && Pow256(8) == 256 * Pow256(7);
  }

  // ----- packing

  function PackQid(q: Qid): (s: seq<byte>)
    ensures |s| == 13
  {
    Le(q.kind, 1) + Le(q.vers, 4) + Le(q.path, 8)
  }

  function PackStr(s: seq<byte>): seq<byte>
  {
    Le(|s|, 2) + s
  }

  function PackStrs(ss: seq<seq<byte>>): seq<byte>
  {
    if ss == [] then [] else PackStr(ss[0]) + PackStrs(ss[1..])
  }

  function PackQids(qs: seq<Qid>): seq<byte>
  {
    if qs == [] then [] else PackQid(qs[0]) + PackQids(qs[1..])
  }

  predicate Typed(k: Kind, v: Val)
  {
    match k
    case K8 => v.Num?
    case K16 => v.Num?
    case K32 => v.Num?
    case K64 => v.Num?
    case KQid => v.OneQid?
    case KStr => v.Str?
    case KNames => v.Names?
    case KQids => v.Qids?
    case KData => v.Bytes?
    case KStat => v.Bytes?
  }

  function PackVal(k: Kind, v: Val): seq<byte>
    requires Typed(k, v)
  {
    match k
    case K8 => Le(v.n, 1)
    case K16 => Le(v.n, 2)
    case K32 => Le(v.n, 4)
    case K64 => Le(v.n, 8)
    case KQid => PackQid(v.q)
    case KStr => PackStr(v.s)
    case KNames => Le(|v.names|, 2) + PackStrs(v.names)
    case KQids => Le(|v.qids|, 2) + PackQids(v.qids)
    case KData => Le(|v.b|, 4) + v.b
    case KStat => Le(|v.b|, 2) + v.b
  }

  predicate AllTyped(ks: seq<Kind>, vs: seq<Val>)
  {
    |ks| == |vs| && forall i :: 0 <= i < |ks| ==> Typed(ks[i], vs[i])
  }

  function PackVals(ks: seq<Kind>, vs: seq<Val>): seq<byte>
    requires AllTyped(ks, vs)
  {
    if ks == [] then [] else PackVal(ks[0], vs[0]) + PackVals(ks[1..], vs[1..])
  }

  /** A message whose fields are the ones its type has. */
  predicate Formed(m: Msg)
  {
    Layout(m.kind).Some? && AllTyped(Layout(m.kind).value, m.vals)
  }

  function Body(m: Msg): seq<byte>
    requires Formed(m)
  {
    PackVals(Layout(m.kind).value, m.vals)
  }

  function Pack(m: Msg): seq<byte>
    requires Formed(m)
  {
    Le(7 + |Body(m)|, 4) + Le(m.kind, 1) + Le(m.tag, 2) + Body(m)
  }

  // ----- what the wire can carry

  predicate NulFree(s: seq<byte>)
  {
    forall i :: 0 <= i < |s| ==> s[i] != 0
  }

  predicate StrOk(s: seq<byte>)
  {
    |s| < 0x1_0000 && NulFree(s)
  }

  predicate QidOk(q: Qid)
  {
    q.kind < 0x100 && q.vers < 0x1_0000_0000 && q.path < 0x1_0000_0000_0000_0000
  }

  predicate InRange(k: Kind, v: Val)
    requires Typed(k, v)
  {
    match k
    case K8 => v.n < 0x100
    case K16 => v.n < 0x1_0000
    case K32 => v.n < 0x1_0000_0000
    case K64 => v.n < 0x1_0000_0000_0000_0000
    case KQid => QidOk(v.q)
    case KStr => StrOk(v.s)
    case KNames => |v.names| <= MAXWELEM && forall i :: 0 <= i < |v.names| ==> StrOk(v.names[i])
    case KQids => |v.qids| <= MAXWELEM && forall i :: 0 <= i < |v.qids| ==> QidOk(v.qids[i])
    case KData => |v.b| < 0x1_0000_0000
    case KStat => |v.b| < 0x1_0000
  }

  predicate Sendable(m: Msg)
  {
    && Formed(m) && m.tag < 0x1_0000 && 7 + |Body(m)| < 0x1_0000_0000
    && forall i :: 0 <= i < |m.vals| ==> InRange(Layout(m.kind).value[i], m.vals[i])
  }

  // ----- unpacking, as a function

  /** A C string: what precedes the first NUL. */
  function Cut(s: seq<byte>): (c: seq<byte>)
    ensures c <= s && NulFree(c) && (|c| < |s| ==> s[|c|] == 0) && (NulFree(s) ==> c == s)
  {
    if s == [] || s[0] == 0 then [] else [s[0]] + Cut(s[1..])
  }

  function UnpackNum(b: seq<byte>, w: nat): Option<(Val, nat)>
  {
    if |b| < w then None else Some((Num(FromLe(b[..w])), w))
  }

  function UnpackQid(b: seq<byte>): Option<(Qid, nat)>
  {
    if |b| < 13 then None else Some((Qid(FromLe(b[..1]), FromLe(b[1..5]), FromLe(b[5..13])), 13))
  }

  function UnpackStr(b: seq<byte>): (r: Option<(seq<byte>, nat)>)
    ensures r.Some? ==> 2 <= r.value.1 <= |b|
  {
    if |b| < 2 then None
    else
      var n := FromLe(b[..2]);
      if |b| < 2 + n then None else Some((Cut(b[2..2 + n]), 2 + n))
  }

  function UnpackStrs(b: seq<byte>, n: nat): (r: Option<(seq<seq<byte>>, nat)>)
    ensures r.Some? ==> r.value.1 <= |b|
    decreases n
  {
    if n == 0 then Some(([], 0))
    else
      match UnpackStr(b)
      case None => None
      case Some((s, k)) =>
        match UnpackStrs(b[k..], n - 1)
        case None => None
        case Some((ss, j)) => Some(([s] + ss, k + j))
  }

  function UnpackQids(b: seq<byte>, n: nat): (r: Option<(seq<Qid>, nat)>)
    ensures r.Some? ==> r.value.1 <= |b|
    decreases n
  {
    if n == 0 then Some(([], 0))
    else
      match UnpackQid(b)
      case None => None
      case Some((q, k)) =>
        match UnpackQids(b[k..], n - 1)
        case None => None
        case Some((qs, j)) => Some(([q] + qs, k + j))
  }

  function UnpackBytes(b: seq<byte>, w: nat): (r: Option<(seq<byte>, nat)>)
    ensures r.Some? ==> r.value.1 <= |b|
  {
    if |b| < w then None
    else
      var n := FromLe(b[..w]);
      if |b| < w + n then None else Some((b[w..w + n], w + n))
  }

  /** A field at the start of b and how many bytes it takes. */
  function UnpackVal(k: Kind, b: seq<byte>): (r: Option<(Val, nat)>)
    ensures r.Some? ==> r.value.1 <= |b| && Typed(k, r.value.0)
  {
    match k
    case K8 => UnpackNum(b, 1)
    case K16 => UnpackNum(b, 2)
    case K32 => UnpackNum(b, 4)
    case K64 => UnpackNum(b, 8)
    case KQid =>
      (match UnpackQid(b)
       case None => None
       case Some((q, n)) => Some((OneQid(q), n)))
    case KStr =>
      (match UnpackStr(b)
       case None => None
       case Some((s, n)) => Some((Str(s), n)))
    case KNames =>
      if |b| < 2 || FromLe(b[..2]) > MAXWELEM then None else
      (match UnpackStrs(b[2..], FromLe(b[..2]))
       case None => None
       case Some((ss, n)) => Some((Names(ss), 2 + n)))
    case KQids =>
      if |b| < 2 || FromLe(b[..2]) > MAXWELEM then None else
      (match UnpackQids(b[2..], FromLe(b[..2]))
       case None => None
       case Some((qs, n)) => Some((Qids(qs), 2 + n)))
    case KData =>
      (match UnpackBytes(b, 4)
       case None => None
       case Some((x, n)) => Some((Bytes(x), n)))
    case KStat =>
      (match UnpackBytes(b, 2)
       case None => None
       case Some((x, n)) => Some((Bytes(x), n)))
  }

  function UnpackVals(ks: seq<Kind>, b: seq<byte>): (r: Option<(seq<Val>, nat)>)
    ensures r.Some? ==> r.value.1 <= |b| && |r.value.0| == |ks|
    decreases |ks|
  {
    if ks == [] then Some(([], 0))
    else
      match UnpackVal(ks[0], b)
      case None => None
      case Some((v, n)) =>
        match UnpackVals(ks[1..], b[n..])
        case None => None
        case Some((vs, m)) => Some(([v] + vs, n + m))
  }

  /** The message at the start of a buffer, if its size field says exactly how long it is. */
  function Unpack(b: seq<byte>): Option<Msg>
  {
    if |b| < 7 then None
    else
      var size, kind, tag := FromLe(b[..4]), FromLe(b[4..5]), FromLe(b[5..7]);
      if size < 7 || Layout(kind).None? then None
      else
        match UnpackVals(Layout(kind).value, b[7..])
        case None => None
        case Some((vs, n)) => if 7 + n == size then Some(Msg(kind, tag, vs)) else None
  }

  // ----- unpacking inverts packing

  lemma NumInverse(v: nat, w: nat, rest: seq<byte>)
    requires v < Pow256(w)
    ensures var b := Le(v, w) + rest;
            |b| >= w && b[..w] == Le(v, w) && b[w..] == rest && FromLe(b[..w]) == v
  {
    hide Le, FromLe, Pow256;
    FromLeLe(v, w);
    assert (Le(v, w) + rest)[..w] == Le(v, w);
  }

  lemma QidInverse(q: Qid, rest: seq<byte>)
    requires QidOk(q)
    ensures UnpackQid(PackQid(q) + rest) == Some((q, 13)) && (PackQid(q) + rest)[13..] == rest
  {
    hide Le, FromLe, Pow256;
    Widths();
    var x, y, z := Le(q.kind, 1), Le(q.vers, 4), Le(q.path, 8);
    var b := PackQid(q) + rest;
    assert b[..1] == x && b[1..5] == y && b[5..13] == z && b[13..] == rest;
    FromLeLe(q.kind, 1);
    FromLeLe(q.vers, 4);
    FromLeLe(q.path, 8);
  }

  lemma StrInverse(s: seq<byte>, rest: seq<byte>)
    requires StrOk(s)
    ensures var b := PackStr(s) + rest;
            UnpackStr(b) == Some((s, 2 + |s|)) && b[2 + |s|..] == rest
  {
    hide Le, FromLe, Pow256;
    Widths();
    var b := PackStr(s) + rest;
    assert b == Le(|s|, 2) + (s + rest);
    NumInverse(|s|, 2, s + rest);
    assert b[2..2 + |s|] == s;
  }

  lemma {:induction false} StrsInverse(ss: seq<seq<byte>>, rest: seq<byte>)
    requires forall i :: 0 <= i < |ss| ==> StrOk(ss[i])
    ensures UnpackStrs(PackStrs(ss) + rest, |ss|) == Some((ss, |PackStrs(ss)|))
  {
    hide PackStr, UnpackStr, StrOk;
    if ss != [] {
      var more := PackStrs(ss[1..]) + rest;
      var b := PackStrs(ss) + rest;
      assert b == PackStr(ss[0]) + more;
      StrInverse(ss[0], more);
      StrsInverse(ss[1..], rest);
      PackStrSize(ss[0]);
      assert [ss[0]] + ss[1..] == ss;
    }
  }

  lemma PackStrSize(s: seq<byte>)
    ensures |PackStr(s)| == 2 + |s|
  {
  }

  lemma {:induction false} QidsInverse(qs: seq<Qid>, rest: seq<byte>)
    requires forall i :: 0 <= i < |qs| ==> QidOk(qs[i])
    ensures UnpackQids(PackQids(qs) + rest, |qs|) == Some((qs, |PackQids(qs)|))
  {
    hide PackQid, UnpackQid, QidOk;
    if qs != [] {
      var more := PackQids(qs[1..]) + rest;
      var b := PackQids(qs) + rest;
      assert b == PackQid(qs[0]) + more;
      QidInverse(qs[0], more);
      QidsInverse(qs[1..], rest);
      assert [qs[0]] + qs[1..] == qs;
    }
  }

  lemma BytesInverse(x: seq<byte>, w: nat, rest: seq<byte>)
    requires |x| < Pow256(w)
    ensures UnpackBytes(Le(|x|, w) + x + rest, w) == Some((x, w + |x|))
  {
    hide Le, FromLe, Pow256, UnpackBytes;
    FromLeLe(|x|, w);
    FirstTwo(Le(|x|, w), x, rest);
    BytesGiven(Le(|x|, w) + x + rest, w, x);
  }

  lemma FirstTwo(a: seq<byte>, x: seq<byte>, rest: seq<byte>)
    ensures (a + x + rest)[..|a|] == a && (a + x + rest)[|a|..|a| + |x|] == x
  {
  }

  lemma Pieces(a: seq<byte>, x: seq<byte>, rest: seq<byte>)
    ensures a + x + rest == a + (x + rest) && (a + x)[|a|..] == x
  {
  }

  lemma BytesGiven(b: seq<byte>, w: nat, x: seq<byte>)
    requires w + |x| <= |b| && FromLe(b[..w]) == |x| && b[w..w + |x|] == x
    ensures UnpackBytes(b, w) == Some((x, w + |x|))
  {
    hide FromLe;
  }

  lemma ValInverse(k: Kind, v: Val, rest: seq<byte>)
    requires Typed(k, v) && InRange(k, v)
    ensures UnpackVal(k, PackVal(k, v) + rest) == Some((v, |PackVal(k, v)|))
  {
    hide Le, FromLe, Pow256, PackQid, UnpackQid, QidOk, UnpackStr, UnpackBytes, PackStrs, PackQids, UnpackStrs,
         UnpackQids, StrOk;
    Widths();
    match k
    case K8 => NumInverse(v.n, 1, rest);
    case K16 => NumInverse(v.n, 2, rest);
    case K32 => NumInverse(v.n, 4, rest);
    case K64 => NumInverse(v.n, 8, rest);
    case KQid => QidInverse(v.q, rest);
    case KStr => StrInverse(v.s, rest);
    case KNames =>
      assert PackVal(k, v) + rest == Le(|v.names|, 2) + (PackStrs(v.names) + rest);
      NumInverse(|v.names|, 2, PackStrs(v.names) + rest);
      StrsInverse(v.names, rest);
    case KQids =>
      assert PackVal(k, v) + rest == Le(|v.qids|, 2) + (PackQids(v.qids) + rest);
      NumInverse(|v.qids|, 2, PackQids(v.qids) + rest);
      QidsInverse(v.qids, rest);
    case KData => BytesInverse(v.b, 4, rest);
    case KStat => BytesInverse(v.b, 2, rest);
  }

  lemma {:induction false} ValsInverse(ks: seq<Kind>, vs: seq<Val>, rest: seq<byte>)
    requires AllTyped(ks, vs) && forall i :: 0 <= i < |ks| ==> InRange(ks[i], vs[i])
    ensures UnpackVals(ks, PackVals(ks, vs) + rest) == Some((vs, |PackVals(ks, vs)|))
    decreases |ks|
  {
    hide Typed, InRange, PackVal, UnpackVal;
    if ks != [] {
      var w, tail := PackVal(ks[0], vs[0]), PackVals(ks[1..], vs[1..]);
      var more := tail + rest;
      Pieces(w, tail, rest);
      Pieces(w, more, []);
      ValInverse(ks[0], vs[0], more);
      ValsInverse(ks[1..], vs[1..], rest);
      assert [vs[0]] + vs[1..] == vs;
    }
  }

  /** Every message the wire can carry is recovered from its packing, whatever follows it. */
  lemma UnpackPack(m: Msg, rest: seq<byte>)
    requires Sendable(m)
    ensures Unpack(Pack(m) + rest) == Some(m)
  {
    hide Le, FromLe, Pow256, PackVals, UnpackVals, InRange, Typed;
    Widths();
    var body := Body(m);
    var x, y, z := Le(7 + |body|, 4), Le(m.kind, 1), Le(m.tag, 2);
    var b := Pack(m) + rest;
    assert b[..4] == x && b[4..5] == y && b[5..7] == z && b[7..] == body + rest;
    KindSmall(m.kind);
    FromLeLe(7 + |body|, 4);
    FromLeLe(m.kind, 1);
    FromLeLe(m.tag, 2);
    ValsInverse(Layout(m.kind).value, m.vals, rest);
  }

  lemma KindSmall(t: nat)
    requires Layout(t).Some?
    ensures t < 0x100
  {
  }

  // ----- packing into a buffer

  /** The bytes of ap from p on are w; nothing else differs from was. */
  ghost predicate Placed(was: seq<byte>, now: seq<byte>, p: nat, w: seq<byte>)
  {
    |was| == |now| && p + |w| <= |was| && now == was[..p] + w + was[p + |w|..]
  }

  lemma PlacedNext(a: seq<byte>, b: seq<byte>, c: seq<byte>, p: nat, w: seq<byte>, x: seq<byte>)
    requires Placed(a, b, p, w) && Placed(b, c, p + |w|, x)
    ensures Placed(a, c, p, w + x)
  {
    var q := p + |w|;
    assert b[..q] == a[..p] + w;
    assert b[q + |x|..] == a[q + |x|..];
    assert c == a[..p] + w + x + a[q + |x|..];
    assert a[..p] + w + x == a[..p] + (w + x);
  }

  lemma PlacedNone(a: seq<byte>, p: nat)
    requires p <= |a|
    ensures Placed(a, a, p, [])
  {
    assert a[..p] + [] + a[p..] == a;
  }

  /** memmove, and the PBIT macros with the bytes they store. */
  method PutBytes(ap: array<byte>, p: nat, w: seq<byte>) returns (q: nat)
    requires p + |w| <= ap.Length
    modifies ap
    ensures q == p + |w| && Placed(old(ap[..]), ap[..], p, w)
  {
    ghost var was := ap[..];
    for i := 0 to |w|
      invariant forall k :: 0 <= k < ap.Length ==> ap[k] == if p <= k < p + i then w[k - p] else was[k]
    {
      ap[p + i] := w[i];
    }
    q := p + |w|;
    assert ap[..] == was[..p] + w + was[p + |w|..];
  }

  method PString(ap: array<byte>, p: nat, s: seq<byte>) returns (q: nat)
    requires p + |PackStr(s)| <= ap.Length
    modifies ap
    ensures q == p + |PackStr(s)| && Placed(old(ap[..]), ap[..], p, PackStr(s))
  {
    hide Placed, Le;
    ghost var was := ap[..];
    q := PutBytes(ap, p, Le(|s|, 2));
    ghost var mid := ap[..];
    q := PutBytes(ap, q, s);
    PlacedNext(was, mid, ap[..], p, Le(|s|, 2), s);
  }

  method PQid(ap: array<byte>, p: nat, x: Qid) returns (q: nat)
    requires p + 13 <= ap.Length
    modifies ap
    ensures q == p + 13 && Placed(old(ap[..]), ap[..], p, PackQid(x))
  {
    hide Placed, Le;
    ghost var was := ap[..];
    q := PutBytes(ap, p, Le(x.kind, 1));
    ghost var m1 := ap[..];
    q := PutBytes(ap, q, Le(x.vers, 4));
    ghost var m2 := ap[..];
    PlacedNext(was, m1, m2, p, Le(x.kind, 1), Le(x.vers, 4));
    q := PutBytes(ap, q, Le(x.path, 8));
    PlacedNext(was, m2, ap[..], p, Le(x.kind, 1) + Le(x.vers, 4), Le(x.path, 8));
  }

  lemma StrsSnoc(ss: seq<seq<byte>>, i: nat)
    requires i < |ss|
    ensures PackStrs(ss[..i + 1]) == PackStrs(ss[..i]) + PackStr(ss[i])
    decreases i
  {
    hide PackStr;
    if i == 0 {
      assert ss[..1][1..] == [] && ss[..0] == [];
      assert PackStrs(ss[..1]) == PackStr(ss[0]) + [];
    } else {
      StrsSnoc(ss[1..], i - 1);
      assert ss[..i + 1][1..] == ss[1..][..i] && ss[..i][1..] == ss[1..][..i - 1];
      var a, b, c := PackStr(ss[0]), PackStrs(ss[1..][..i - 1]), PackStr(ss[i]);
      assert a + (b + c) == a + b + c;
    }
  }

  lemma {:induction false} StrsPrefix(ss: seq<seq<byte>>, i: nat)
    requires i <= |ss|
    ensures |PackStrs(ss[..i])| <= |PackStrs(ss)|
    decreases |ss| - i
  {
    hide PackStr;
    if i == |ss| {
      assert ss[..i] == ss;
    } else {
      StrsSnoc(ss, i);
      StrsPrefix(ss, i + 1);
    }
  }

  method PutNames(ap: array<byte>, p: nat, ss: seq<seq<byte>>) returns (q: nat)
    requires p + |PackStrs(ss)| <= ap.Length
    modifies ap
    ensures q == p + |PackStrs(ss)| && Placed(old(ap[..]), ap[..], p, PackStrs(ss))
  {
    hide Placed, PackStr;
    ghost var was := ap[..];
    q := p;
    assert ss[..0] == [];
    PlacedNone(was, p);
    for i := 0 to |ss|
      invariant q == p + |PackStrs(ss[..i])| && Placed(was, ap[..], p, PackStrs(ss[..i]))
    {
      StrsSnoc(ss, i);
      StrsPrefix(ss, i + 1);
      ghost var mid := ap[..];
      q := PString(ap, q, ss[i]);
      PlacedNext(was, mid, ap[..], p, PackStrs(ss[..i]), PackStr(ss[i]));
    }
    assert ss[..|ss|] == ss;
  }

  lemma {:induction false} QidsSnoc(qs: seq<Qid>, i: nat)
    requires i < |qs|
    ensures PackQids(qs[..i + 1]) == PackQids(qs[..i]) + PackQid(qs[i])
    decreases i
  {
    hide PackQid;
    if i == 0 {
      assert qs[..1][1..] == [] && qs[..0] == [];
      assert PackQids(qs[..1]) == PackQid(qs[0]) + [];
    } else {
      QidsSnoc(qs[1..], i - 1);
      assert qs[..i + 1][1..] == qs[1..][..i] && qs[..i][1..] == qs[1..][..i - 1];
      var a, b, c := PackQid(qs[0]), PackQids(qs[1..][..i - 1]), PackQid(qs[i]);
      assert a + (b + c) == a + b + c;
    }
  }

  lemma {:induction false} QidsSize(qs: seq<Qid>)
    ensures |PackQids(qs)| == 13 * |qs|
  {
    if qs != [] {
      QidsSize(qs[1..]);
    }
  }

  method PutQids(ap: array<byte>, p: nat, qs: seq<Qid>) returns (q: nat)
    requires p + |PackQids(qs)| <= ap.Length
    modifies ap
    ensures q == p + |PackQids(qs)| && Placed(old(ap[..]), ap[..], p, PackQids(qs))
  {
    hide Placed, PackQid;
    ghost var was := ap[..];
    q := p;
    assert qs[..0] == [];
    PlacedNone(was, p);
    QidsSize(qs);
    for i := 0 to |qs|
      invariant q == p + 13 * i && |PackQids(qs[..i])| == 13 * i && Placed(was, ap[..], p, PackQids(qs[..i]))
    {
      QidsSnoc(qs, i);
      ghost var mid := ap[..];
      q := PQid(ap, q, qs[i]);
      PlacedNext(was, mid, ap[..], p, PackQids(qs[..i]), PackQid(qs[i]));
    }
    assert qs[..|qs|] == qs;
  }

  method PutVal(ap: array<byte>, p: nat, k: Kind, v: Val) returns (q: nat)
    requires Typed(k, v) && p + |PackVal(k, v)| <= ap.Length
    modifies ap
    ensures q == p + |PackVal(k, v)| && Placed(old(ap[..]), ap[..], p, PackVal(k, v))
  {
    hide Placed, Le, PackQid, PackStrs, PackQids, PackStr;
    ghost var was := ap[..];
    match k
    case K8 => q := PutBytes(ap, p, Le(v.n, 1));
    case K16 => q := PutBytes(ap, p, Le(v.n, 2));
    case K32 => q := PutBytes(ap, p, Le(v.n, 4));
    case K64 => q := PutBytes(ap, p, Le(v.n, 8));
    case KQid => q := PQid(ap, p, v.q);
    case KStr => q := PString(ap, p, v.s);
    case KNames =>
      q := PutBytes(ap, p, Le(|v.names|, 2));
      ghost var mid := ap[..];
      q := PutNames(ap, q, v.names);
      PlacedNext(was, mid, ap[..], p, Le(|v.names|, 2), PackStrs(v.names));
    case KQids =>
      q := PutBytes(ap, p, Le(|v.qids|, 2));
      ghost var mid := ap[..];
      q := PutQids(ap, q, v.qids);
      PlacedNext(was, mid, ap[..], p, Le(|v.qids|, 2), PackQids(v.qids));
    case KData =>
      q := PutBytes(ap, p, Le(|v.b|, 4));
      ghost var mid := ap[..];
      q := PutBytes(ap, q, v.b);
      PlacedNext(was, mid, ap[..], p, Le(|v.b|, 4), v.b);
    case KStat =>
      q := PutBytes(ap, p, Le(|v.b|, 2));
      ghost var mid := ap[..];
      q := PutBytes(ap, q, v.b);
      PlacedNext(was, mid, ap[..], p, Le(|v.b|, 2), v.b);
  }

  // ----- the size, and the whole message

  function ValSize(k: Kind, v: Val): (n: nat)
    requires Typed(k, v)
    ensures n == |PackVal(k, v)|
  {
    match k
    case K8 => 1
    case K16 => 2
    case K32 => 4
    case K64 => 8
    case KQid => 13
    case KStr => 2 + |v.s|
    case KNames => 2 + NamesSize(v.names)
    case KQids => QidsSize(v.qids); 2 + 13 * |v.qids|
    case KData => 4 + |v.b|
    case KStat => 2 + |v.b|
  }

  function NamesSize(ss: seq<seq<byte>>): (n: nat)
    ensures n == |PackStrs(ss)|
  {
    if ss == [] then 0 else 2 + |ss[0]| + NamesSize(ss[1..])
  }

  lemma {:induction false} ValsSnoc(ks: seq<Kind>, vs: seq<Val>, i: nat)
    requires AllTyped(ks, vs) && i < |ks|
    ensures PackVals(ks[..i + 1], vs[..i + 1]) == PackVals(ks[..i], vs[..i]) + PackVal(ks[i], vs[i])
    decreases i
  {
    hide PackVal;
    if i == 0 {
      assert ks[..1][1..] == [] && vs[..1][1..] == [] && ks[..0] == [] && vs[..0] == [];
      assert PackVals(ks[..1], vs[..1]) == PackVal(ks[0], vs[0]) + [];
    } else {
      ValsSnoc(ks[1..], vs[1..], i - 1);
      assert ks[..i + 1][1..] == ks[1..][..i] && ks[..i][1..] == ks[1..][..i - 1];
      assert vs[..i + 1][1..] == vs[1..][..i] && vs[..i][1..] == vs[1..][..i - 1];
      var a, b, c := PackVal(ks[0], vs[0]), PackVals(ks[1..][..i - 1], vs[1..][..i - 1]), PackVal(ks[i], vs[i]);
      assert a + (b + c) == a + b + c;
    }
  }

  lemma {:induction false} ValsPrefix(ks: seq<Kind>, vs: seq<Val>, i: nat)
    requires AllTyped(ks, vs) && i <= |ks|
    ensures |PackVals(ks[..i], vs[..i])| <= |PackVals(ks, vs)|
    decreases |ks| - i
  {
    hide PackVal;
    if i == |ks| {
      assert ks[..i] == ks && vs[..i] == vs;
    } else {
      ValsSnoc(ks, vs, i);
      ValsPrefix(ks, vs, i + 1);
    }
  }

  /** Sizes are kept in 32 bits. */
  const WORD := 0x1_0000_0000

  /** More names than an Fcall has room for; sizeS2M would read past their array. */
  predicate LongWalk(m: Msg)
  {
    exists i :: 0 <= i < |m.vals| && m.vals[i].Names? && |m.vals[i].names| > MAXWELEM
  }

  predicate TooManyQids(m: Msg)
  {
    exists i :: 0 <= i < |m.vals| && m.vals[i].Qids? && |m.vals[i].qids| > MAXWELEM
  }

  /** The sum that sizeS2M makes, before it is cut to 32 bits. */
  method ExactSize(m: Msg) returns (n: nat)
    requires Formed(m)
    ensures n == |Pack(m)|
  {
    hide PackVal, Le, Layout, Typed;
    var ks := Layout(m.kind).value;
    n := 7;
    assert ks[..0] == [] && m.vals[..0] == [];
    for i := 0 to |ks|
      invariant n == 7 + |PackVals(ks[..i], m.vals[..i])|
    {
      ValsSnoc(ks, m.vals, i);
      n := n + ValSize(ks[i], m.vals[i]);
    }
    assert ks[..|ks|] == ks && m.vals[..|ks|] == m.vals;
  }

  /** sizeS2M: 0 if there is no such message type, else the size modulo 2^32; undefined for a walk that is too long. */
  method SizeS2M(m: Msg) returns (n: nat, defined: bool)
    requires Layout(m.kind).Some? ==> Formed(m)
    ensures defined <==> Layout(m.kind).None? || !LongWalk(m)
    ensures defined ==> n == if Layout(m.kind).None? then 0 else |Pack(m)| % WORD
    ensures defined && Layout(m.kind).Some? ==> (n == |Pack(m)| <==> |Pack(m)| < WORD)
  {
    hide Layout, LongWalk, Pack;
    if Layout(m.kind).None? {
      return 0, true;
    }
    if LongWalk(m) {
      return 0, false;
    }
    n := ExactSize(m);
    n, defined := n % WORD, true;
  }

  /** The cut size passes the check against the buffer although the message does not fit. */
  predicate Fooled(m: Msg, nap: nat)
    requires Formed(m)
  {
    0 < |Pack(m)| % WORD <= nap < |Pack(m)|
  }

  /** A write of 2^32 - 22 bytes has the size 1: any buffer seems large enough for it. */
  lemma WrappedWrite(tag: nat, fid: nat, offset: nat, data: seq<byte>, nap: nat)
    requires |data| == WORD - 22 && 0 < nap < WORD
    ensures var m := Msg(118, tag, [Num(fid), Num(offset), Bytes(data)]);
            Formed(m) && |Pack(m)| == WORD + 1 && Fooled(m, nap)
  {
    hide Le;
    var m := Msg(118, tag, [Num(fid), Num(offset), Bytes(data)]);
    var ks, vs := Layout(118).value, m.vals;
    assert ks[1..][1..] == [KData] && vs[1..][1..] == [Bytes(data)] && [KData][1..] == [] && [Bytes(data)][1..] == [];
    assert PackVals([], []) == [];
    assert |PackVals([KData], [Bytes(data)])| == 4 + |data|;
    assert |PackVals(ks[1..], vs[1..])| == 8 + 4 + |data|;
    assert |Body(m)| == 4 + 8 + 4 + |data|;
  }

  method PutVals(ap: array<byte>, p: nat, ks: seq<Kind>, vs: seq<Val>) returns (q: nat)
    requires AllTyped(ks, vs) && p + |PackVals(ks, vs)| <= ap.Length
    modifies ap
    ensures q == p + |PackVals(ks, vs)| && Placed(old(ap[..]), ap[..], p, PackVals(ks, vs))
  {
    hide Placed, PackVal;
    ghost var was := ap[..];
    q := p;
    assert ks[..0] == [] && vs[..0] == [];
    PlacedNone(was, p);
    for i := 0 to |ks|
      invariant q == p + |PackVals(ks[..i], vs[..i])| && Placed(was, ap[..], p, PackVals(ks[..i], vs[..i]))
    {
      ValsSnoc(ks, vs, i);
      ValsPrefix(ks, vs, i + 1);
      ghost var mid := ap[..];
      q := PutVal(ap, q, ks[i], vs[i]);
      PlacedNext(was, mid, ap[..], p, PackVals(ks[..i], vs[..i]), PackVal(ks[i], vs[i]));
    }
    assert ks[..|ks|] == ks && vs[..|ks|] == vs;
  }

  /** What convS2M may be given: the messages that its size computation handles. */
  predicate Handled(m: Msg, nap: nat)
    requires Layout(m.kind).Some? ==> Formed(m)
  {
    Layout(m.kind).None? || (!LongWalk(m) && !Fooled(m, nap))
  }

  /**
   Pack a message into a buffer: all of it and nothing beyond, or 0.  The outcome is undefined exactly when
   the size computation reads past the names or is fooled by a wrapped size into writing past the buffer.
   */
  method ConvS2M(m: Msg, ap: array<byte>) returns (n: nat, defined: bool)
    requires (Layout(m.kind).Some? ==> Formed(m)) && ap.Length < WORD
    modifies ap
    ensures defined <==> Handled(m, ap.Length)
    ensures defined ==> (n > 0 <==> Layout(m.kind).Some? && |Pack(m)| <= ap.Length && !TooManyQids(m))
    ensures defined && n > 0 ==> n == |Pack(m)| && ap[..] == Pack(m) + old(ap[..])[n..]
  {
    hide Layout, LongWalk, TooManyQids, Pack, Typed, AllTyped;
    n := 0;
    var size;
    size, defined := SizeS2M(m);
    if !defined || size == 0 || size > ap.Length {
      if defined && Layout(m.kind).Some? {
        PackNonempty(m);
      }
      return;
    }
    var exact := ExactSize(m);
    if exact > ap.Length { // the source writes past the end of the buffer
      return 0, false;
    }
    if TooManyQids(m) {
      return;
    }
    PutMsg(ap, m, size);
    n := size;
  }

  lemma PackNonempty(m: Msg)
    requires Formed(m)
    ensures |Pack(m)| >= 7
  {
  }

  method PutMsg(ap: array<byte>, m: Msg, size: nat)
    requires Formed(m) && size == |Pack(m)| <= ap.Length
    modifies ap
    ensures ap[..] == Pack(m) + old(ap[..])[size..]
  {
    hide Placed, PackVal, Le, Layout, Typed, AllTyped, PackVals;
    ghost var was := ap[..];
    var p := PutBytes(ap, 0, Le(size, 4));
    ghost var m1 := ap[..];
    p := PutBytes(ap, p, Le(m.kind, 1));
    ghost var m2 := ap[..];
    PlacedNext(was, m1, m2, 0, Le(size, 4), Le(m.kind, 1));
    p := PutBytes(ap, p, Le(m.tag, 2));
    ghost var m3 := ap[..];
    PlacedNext(was, m2, m3, 0, Le(size, 4) + Le(m.kind, 1), Le(m.tag, 2));
    p := PutVals(ap, p, Layout(m.kind).value, m.vals);
    PlacedNext(was, m3, ap[..], 0, Le(size, 4) + Le(m.kind, 1) + Le(m.tag, 2), Body(m));
    PlacedAtStart(was, ap[..], Pack(m));
  }

  lemma PlacedAtStart(was: seq<byte>, now: seq<byte>, w: seq<byte>)
    requires Placed(was, now, 0, w)
    ensures now == w + was[|w|..]
  {
  }

  // ----- unpacking in place

  /** An unpacked field: strings and data are places in the buffer. */
  datatype Field =
    | FNum(n: nat) | FQid(q: Qid) | FStr(at: nat)
    | FNames(ats: seq<nat>) | FQids(qids: seq<Qid>) | FBytes(start: nat, len: nat)

  /** The C string at a place is s, and ends before q. */
  ghost predicate HeldStr(buf: seq<byte>, at: nat, s: seq<byte>, q: nat)
  {
    at + |s| < q <= |buf| && buf[at..at + |s|] == s && buf[at + |s|] == 0 && NulFree(s)
  }

  /** The field stands for v, and nothing of it is at or after q. */
  ghost predicate Held(buf: seq<byte>, f: Field, v: Val, q: nat)
  {
    match v
    case Num(n) => f == FNum(n)
    case OneQid(x) => f == FQid(x)
    case Str(s) => f.FStr? && HeldStr(buf, f.at, s, q)
    case Names(ss) => f.FNames? && |f.ats| == |ss| && forall i :: 0 <= i < |ss| ==> HeldStr(buf, f.ats[i], ss[i], q)
    case Qids(qs) => f == FQids(qs)
    case Bytes(x) => f.FBytes? && f.start + f.len <= q <= |buf| && buf[f.start..f.start + f.len] == x
  }

  /** Changes at or after q, and a later bound, do not matter. */
  lemma HeldStrStays(a: seq<byte>, b: seq<byte>, at: nat, s: seq<byte>, q: nat, q': nat)
    requires HeldStr(a, at, s, q) && q <= q' <= |b| && a[..q] == b[..q]
    ensures HeldStr(b, at, s, q')
  {
    assert a[..q][at..at + |s|] == a[at..at + |s|] && b[..q][at..at + |s|] == b[at..at + |s|];
    assert a[..q][at + |s|] == b[..q][at + |s|];
  }

  lemma HeldStays(a: seq<byte>, b: seq<byte>, f: Field, v: Val, q: nat, q': nat)
    requires Held(a, f, v, q) && q <= |a| && q <= q' <= |b| && a[..q] == b[..q]
    ensures Held(b, f, v, q')
  {
    hide HeldStr;
    match v
    case Str(s) => HeldStrStays(a, b, f.at, s, q, q');
    case Names(ss) =>
      forall i | 0 <= i < |ss|
        ensures HeldStr(b, f.ats[i], ss[i], q')
      {
        HeldStrStays(a, b, f.ats[i], ss[i], q, q');
      }
    case Bytes(x) =>
      assert a[..q][f.start..f.start + f.len] == a[f.start..f.start + f.len]
        && b[..q][f.start..f.start + f.len] == b[f.start..f.start + f.len];
    case _ =>
  }

  /** The bytes before p and from q on are as they were. */
  ghost predicate Outside(was: seq<byte>, now: seq<byte>, p: nat, q: nat)
  {
    p <= q <= |was| == |now| && now[..p] == was[..p] && now[q..] == was[q..]
  }

  method MoveDown(ap: array<byte>, p: nat, n: nat)
    requires p + 1 + n <= ap.Length
    modifies ap
    ensures Outside(old(ap[..]), ap[..], p, p + n + 1) && ap[p..p + n] == old(ap[p + 1..p + 1 + n]) && ap[p + n] == 0
  {
    ghost var was := ap[..];
    for i := 0 to n
      invariant forall k :: 0 <= k < p ==> ap[k] == was[k]
      invariant forall k :: p <= k < p + i ==> ap[k] == was[k + 1]
      invariant forall k :: p + i <= k < ap.Length ==> ap[k] == was[k]
    {
      ap[p + i] := ap[p + i + 1];
    }
    ap[p + n] := 0;
    assert ap[p..p + n] == was[p + 1..p + 1 + n];
    assert ap[..p] == was[..p] && ap[p + n + 1..] == was[p + n + 1..];
    assert ap[..][..p] == was[..p] && ap[..][p + n + 1..] == was[p + n + 1..];
  }

  /** Move a string down over its length and end it with NUL; bytes not read yet stay as they are. */
  method GString(ap: array<byte>, p: nat) returns (ok: bool, at: nat, q: nat)
    requires p <= ap.Length
    modifies ap
    ensures ok <==> UnpackStr(old(ap[..])[p..]).Some?
    ensures ok ==>
              && q == p + UnpackStr(old(ap[..])[p..]).value.1
              && HeldStr(ap[..], at, UnpackStr(old(ap[..])[p..]).value.0, q)
    ensures ok ==> Outside(old(ap[..]), ap[..], p, q)
  {
    hide FromLe, Cut, UnpackStr, HeldStr, Outside;
    ghost var was := ap[..];
    at, q := 0, p;
    if p + 2 > ap.Length {
      StrShort(was[p..]);
      return false, at, q;
    }
    var n := FromLe(ap[p..p + 2]);
    StrCases(was, p, n);
    if p + 1 + n + 1 > ap.Length {
      return false, at, q;
    }
    MoveDown(ap, p + 1, n);
    at := p + 1;
    q := p + 2 + n;
    ok := true;
    CutHeld(ap[..], at, n, was[p + 2..p + 2 + n]);
    OutsideMore(was, ap[..], p, q);
  }

  lemma OutsideMore(was: seq<byte>, now: seq<byte>, p: nat, q: nat)
    requires Outside(was, now, p + 1, q)
    ensures Outside(was, now, p, q)
  {
    assert now[..p] == now[..p + 1][..p] && was[..p] == was[..p + 1][..p];
  }

  lemma StrShort(b: seq<byte>)
    requires |b| < 2
    ensures UnpackStr(b).None?
  {
  }

  /** What unpacking a string at p gives, in terms of the whole buffer. */
  lemma StrCases(was: seq<byte>, p: nat, n: nat)
    requires p + 2 <= |was| && n == FromLe(was[p..p + 2])
    ensures UnpackStr(was[p..]) == if p + 2 + n > |was| then None else Some((Cut(was[p + 2..p + 2 + n]), 2 + n))
  {
    hide FromLe, Cut;
    var b := was[p..];
    assert b[..2] == was[p..p + 2];
    if p + 2 + n <= |was| {
      assert b[2..2 + n] == was[p + 2..p + 2 + n];
    }
  }

  lemma CutHeld(buf: seq<byte>, at: nat, n: nat, x: seq<byte>)
    requires at + n < |buf| && |x| == n && buf[at..at + n] == x && buf[at + n] == 0
    ensures HeldStr(buf, at, Cut(x), at + n + 1)
  {
    var c := Cut(x);
    assert buf[at..at + |c|] == buf[at..at + n][..|c|];
    if |c| < n {
      assert buf[at + |c|] == buf[at..at + n][|c|];
    }
  }

  /** Strings ss in k bytes, and then what r says. */
  function ThenStrs(ss: seq<seq<byte>>, k: nat, r: Option<(seq<seq<byte>>, nat)>): Option<(seq<seq<byte>>, nat)>
  {
    match r
    case None => None
    case Some((more, j)) => Some((ss + more, k + j))
  }

  lemma StrsStep(was: seq<byte>, q: nat, n: nat, ss: seq<seq<byte>>, k: nat)
    requires q <= |was| && n > 0
    ensures UnpackStr(was[q..]).None? ==> ThenStrs(ss, k, UnpackStrs(was[q..], n)).None?
    ensures UnpackStr(was[q..]).Some? ==>
              var (s, j) := UnpackStr(was[q..]).value;
              q + j <= |was| && ThenStrs(ss, k, UnpackStrs(was[q..], n))
                == ThenStrs(ss + [s], k + j, UnpackStrs(was[q + j..], n - 1))
  {
    hide UnpackStr;
    if UnpackStr(was[q..]).Some? {
      var (s, j) := UnpackStr(was[q..]).value;
      assert was[q..][j..] == was[q + j..];
      var r := UnpackStrs(was[q + j..], n - 1);
      if r.Some? {
        assert ss + ([s] + r.value.0) == ss + [s] + r.value.0;
      }
    }
  }

  lemma OutsideNext(a: seq<byte>, b: seq<byte>, c: seq<byte>, p: nat, q: nat, q': nat)
    requires Outside(a, b, p, q) && Outside(b, c, q, q')
    ensures Outside(a, c, p, q') && b[q..] == a[q..] && c[..q] == b[..q]
  {
    assert b[..p] == b[..q][..p] && c[..p] == c[..q][..p];
    assert a[q'..] == a[q..][q' - q..] && b[q'..] == b[q..][q' - q..];
  }

  lemma OutsideNone(a: seq<byte>, p: nat)
    requires p <= |a|
    ensures Outside(a, a, p, p)
  {
  }

  ghost predicate HeldStrs(buf: seq<byte>, ats: seq<nat>, ss: seq<seq<byte>>, q: nat)
  {
    |ats| == |ss| && forall i :: 0 <= i < |ss| ==> HeldStr(buf, ats[i], ss[i], q)
  }

  lemma HeldStrsNext(a: seq<byte>, b: seq<byte>, ats: seq<nat>, ss: seq<seq<byte>>, q: nat, at: nat, s: seq<byte>,
                     q': nat)
    requires HeldStrs(a, ats, ss, q) && HeldStr(b, at, s, q') && q <= q' <= |b| && q <= |a| && a[..q] == b[..q]
    ensures HeldStrs(b, ats + [at], ss + [s], q')
  {
    hide HeldStr;
    forall i | 0 <= i < |ss|
      ensures HeldStr(b, ats[i], ss[i], q')
    {
      HeldStrStays(a, b, ats[i], ss[i], q, q');
    }
  }

  method GetNames(ap: array<byte>, p: nat, n: nat) returns (ok: bool, ats: seq<nat>, q: nat)
    requires p <= ap.Length
    modifies ap
    ensures ok <==> UnpackStrs(old(ap[..])[p..], n).Some?
    ensures ok ==> q == p + UnpackStrs(old(ap[..])[p..], n).value.1 && Outside(old(ap[..]), ap[..], p, q)
    ensures ok ==> HeldStrs(ap[..], ats, UnpackStrs(old(ap[..])[p..], n).value.0, q)
  {
    hide UnpackStr, HeldStr, Outside, HeldStrs, ThenStrs, UnpackStrs;
    ghost var was, all := ap[..], UnpackStrs(ap[..][p..], n);
    ghost var ss: seq<seq<byte>> := [];
    ats, q := [], p;
    OutsideNone(was, p);
    NoNames(was, p, all);
    for i := 0 to n
      invariant p <= q <= ap.Length == |was| && Outside(was, ap[..], p, q) && HeldStrs(ap[..], ats, ss, q)
      invariant all == ThenStrs(ss, q - p, UnpackStrs(was[q..], n - i))
    {
      StrsStep(was, q, n - i, ss, q - p);
      ghost var mid := ap[..];
      SameTail(was, mid, p, q);
      var at, q1;
      ok, at, q1 := GString(ap, q);
      if !ok {
        return;
      }
      ghost var s := UnpackStr(was[q..]).value.0;
      OutsideNext(was, mid, ap[..], p, q, q1);
      HeldStrsNext(mid, ap[..], ats, ss, q, at, s, q1);
      ats, ss, q := ats + [at], ss + [s], q1;
    }
    LastName(ss, q - p, was[q..]);
    ok := true;
  }

  lemma NoNames(was: seq<byte>, p: nat, all: Option<(seq<seq<byte>>, nat)>)
    requires p <= |was|
    ensures all == ThenStrs([], 0, all) && HeldStrs(was, [], [], p)
  {
    if all.Some? {
      assert [] + all.value.0 == all.value.0;
    }
  }

  lemma LastName(ss: seq<seq<byte>>, k: nat, b: seq<byte>)
    ensures ThenStrs(ss, k, UnpackStrs(b, 0)) == Some((ss, k))
  {
    assert ss + [] == ss;
  }

  lemma SameTail(was: seq<byte>, now: seq<byte>, p: nat, q: nat)
    requires Outside(was, now, p, q)
    ensures now[q..] == was[q..]
  {
  }

  // ----- numbers, qids and data

  method GNum(ap: array<byte>, p: nat, w: nat) returns (ok: bool, f: Field, q: nat)
    requires p <= ap.Length
    ensures ok <==> UnpackNum(ap[..][p..], w).Some?
    ensures ok ==> q == p + UnpackNum(ap[..][p..], w).value.1 && Held(ap[..], f, UnpackNum(ap[..][p..], w).value.0, q)
  {
    hide FromLe;
    f, q := FNum(0), p;
    ok := p + w <= ap.Length;
    if ok {
      f, q := FNum(FromLe(ap[p..p + w])), p + w;
      assert ap[..][p..][..w] == ap[p..p + w];
    }
  }

  method GQid(ap: array<byte>, p: nat) returns (ok: bool, x: Qid, q: nat)
    requires p <= ap.Length
    ensures ok <==> UnpackQid(ap[..][p..]).Some?
    ensures ok ==> q == p + 13 && UnpackQid(ap[..][p..]) == Some((x, 13))
  {
    hide FromLe;
    x, q := Qid(0, 0, 0), p;
    ok := p + 13 <= ap.Length;
    if ok {
      ghost var b := ap[..][p..];
      x := Qid(FromLe(ap[p..p + 1]), FromLe(ap[p + 1..p + 5]), FromLe(ap[p + 5..p + 13]));
      assert b[..1] == ap[p..p + 1] && b[1..5] == ap[p + 1..p + 5] && b[5..13] == ap[p + 5..p + 13];
      q := p + 13;
    }
  }

  function ThenQids(qs: seq<Qid>, k: nat, r: Option<(seq<Qid>, nat)>): Option<(seq<Qid>, nat)>
  {
    match r
    case None => None
    case Some((more, j)) => Some((qs + more, k + j))
  }

  lemma QidsStep(b: seq<byte>, q: nat, n: nat, qs: seq<Qid>, k: nat)
    requires q <= |b| && n > 0
    ensures UnpackQid(b[q..]).None? ==> ThenQids(qs, k, UnpackQids(b[q..], n)).None?
    ensures UnpackQid(b[q..]).Some? ==>
              q + 13 <= |b| && ThenQids(qs, k, UnpackQids(b[q..], n))
                == ThenQids(qs + [UnpackQid(b[q..]).value.0], k + 13, UnpackQids(b[q + 13..], n - 1))
  {
    hide FromLe;
    if UnpackQid(b[q..]).Some? {
      var x := UnpackQid(b[q..]).value.0;
      assert b[q..][13..] == b[q + 13..];
      var r := UnpackQids(b[q + 13..], n - 1);
      if r.Some? {
        assert qs + ([x] + r.value.0) == qs + [x] + r.value.0;
      }
    }
  }

  lemma QidsEnds(all: Option<(seq<Qid>, nat)>, qs: seq<Qid>, k: nat, b: seq<byte>)
    ensures all == ThenQids([], 0, all) && ThenQids(qs, k, UnpackQids(b, 0)) == Some((qs, k))
  {
    if all.Some? {
      assert [] + all.value.0 == all.value.0;
    }
    assert qs + [] == qs;
  }

  method GetQids(ap: array<byte>, p: nat, n: nat) returns (ok: bool, qs: seq<Qid>, q: nat)
    requires p <= ap.Length
    ensures ok <==> UnpackQids(ap[..][p..], n).Some?
    ensures ok ==> UnpackQids(ap[..][p..], n) == Some((qs, q - p)) && p <= q
  {
    hide UnpackQid, ThenQids, UnpackQids;
    ghost var b, all := ap[..], UnpackQids(ap[..][p..], n);
    qs, q := [], p;
    QidsEnds(all, [], 0, []);
    for i := 0 to n
      invariant p <= q <= ap.Length == |b| && all == ThenQids(qs, q - p, UnpackQids(b[q..], n - i))
    {
      QidsStep(b, q, n - i, qs, q - p);
      var x, q1;
      ok, x, q1 := GQid(ap, q);
      if !ok {
        return;
      }
      qs, q := qs + [x], q1;
    }
    QidsEnds(all, qs, q - p, b[q..]);
    ok := true;
  }

  method GData(ap: array<byte>, p: nat, w: nat) returns (ok: bool, f: Field, q: nat)
    requires p <= ap.Length
    ensures ok <==> UnpackBytes(ap[..][p..], w).Some?
    ensures ok ==>
              && q == p + UnpackBytes(ap[..][p..], w).value.1
              && Held(ap[..], f, Bytes(UnpackBytes(ap[..][p..], w).value.0), q)
  {
    hide FromLe;
    f, q, ok := FNum(0), p, false;
    ghost var b := ap[..][p..];
    if p + w > ap.Length {
      return;
    }
    var n := FromLe(ap[p..p + w]);
    assert b[..w] == ap[p..p + w];
    if p + w + n > ap.Length {
      return;
    }
    f, q, ok := FBytes(p + w, n), p + w + n, true;
    assert b[w..w + n] == ap[..][p + w..p + w + n];
  }

  // ----- a whole message

  /** What unpacking a field at p leaves: the value is held before q, the bytes before p and from q on are untouched. */
  ghost predicate Got(was: seq<byte>, now: seq<byte>, p: nat, r: Option<(Val, nat)>, ok: bool, f: Field, q: nat)
  {
    && (ok <==> r.Some?)
    && (ok ==> q == p + r.value.1 && Outside(was, now, p, q) && Held(now, f, r.value.0, q))
  }

  method GetVal(ap: array<byte>, p: nat, k: Kind) returns (ok: bool, f: Field, q: nat)
    requires p <= ap.Length
    modifies ap
    ensures Got(old(ap[..]), ap[..], p, UnpackVal(k, old(ap[..])[p..]), ok, f, q)
  {
    hide UnpackNum, UnpackQid, UnpackStr, UnpackBytes, UnpackStrs, UnpackQids, HeldStr, FromLe;
    match k
    case K8 => ok, f, q := GNum(ap, p, 1);
    case K16 => ok, f, q := GNum(ap, p, 2);
    case K32 => ok, f, q := GNum(ap, p, 4);
    case K64 => ok, f, q := GNum(ap, p, 8);
    case KQid =>
      var x;
      ok, x, q := GQid(ap, p);
      f := FQid(x);
    case KStr =>
      var at;
      ok, at, q := GString(ap, p);
      f := FStr(at);
    case KNames => ok, f, q := GetNameList(ap, p);
    case KQids => ok, f, q := GetQidList(ap, p);
    case KData => ok, f, q := GData(ap, p, 4);
    case KStat => ok, f, q := GData(ap, p, 2);
  }

  method GetNameList(ap: array<byte>, p: nat) returns (ok: bool, f: Field, q: nat)
    requires p <= ap.Length
    modifies ap
    ensures Got(old(ap[..]), ap[..], p, UnpackVal(KNames, old(ap[..])[p..]), ok, f, q)
  {
    hide UnpackStrs, HeldStr, FromLe;
    ghost var was := ap[..];
    ok, f, q := false, FNum(0), p;
    if p + 2 > ap.Length {
      return;
    }
    var n := FromLe(ap[p..p + 2]);
    assert was[p..][..2] == ap[p..p + 2] && was[p..][2..] == was[p + 2..];
    if n > MAXWELEM {
      return;
    }
    var ats;
    ok, ats, q := GetNames(ap, p + 2, n);
    f := FNames(ats);
    if ok {
      OutsideWider(was, ap[..], p, p + 2, q);
    }
  }

  lemma OutsideWider(was: seq<byte>, now: seq<byte>, p: nat, p': nat, q: nat)
    requires Outside(was, now, p', q) && p <= p'
    ensures Outside(was, now, p, q)
  {
    assert now[..p] == now[..p'][..p] && was[..p] == was[..p'][..p];
  }

  method GetQidList(ap: array<byte>, p: nat) returns (ok: bool, f: Field, q: nat)
    requires p <= ap.Length
    ensures Got(ap[..], ap[..], p, UnpackVal(KQids, ap[..][p..]), ok, f, q)
  {
    hide UnpackQids, HeldStr, FromLe;
    ghost var was := ap[..];
    ok, f, q := false, FNum(0), p;
    if p + 2 > ap.Length {
      return;
    }
    var n := FromLe(ap[p..p + 2]);
    assert was[p..][..2] == ap[p..p + 2] && was[p..][2..] == was[p + 2..];
    if n > MAXWELEM {
      return;
    }
    var qs;
    ok, qs, q := GetQids(ap, p + 2, n);
    f := FQids(qs);
  }

  function ThenVals(vs: seq<Val>, k: nat, r: Option<(seq<Val>, nat)>): Option<(seq<Val>, nat)>
  {
    match r
    case None => None
    case Some((more, j)) => Some((vs + more, k + j))
  }

  lemma ValsStep(ks: seq<Kind>, i: nat, was: seq<byte>, q: nat, vs: seq<Val>, k: nat)
    requires q <= |was| && i < |ks|
    ensures UnpackVal(ks[i], was[q..]).None? ==> ThenVals(vs, k, UnpackVals(ks[i..], was[q..])).None?
    ensures UnpackVal(ks[i], was[q..]).Some? ==>
              var (v, j) := UnpackVal(ks[i], was[q..]).value;
              q + j <= |was|
              && ThenVals(vs, k, UnpackVals(ks[i..], was[q..]))
                == ThenVals(vs + [v], k + j, UnpackVals(ks[i + 1..], was[q + j..]))
  {
    hide UnpackVal;
    assert ks[i..][0] == ks[i] && ks[i..][1..] == ks[i + 1..];
    if UnpackVal(ks[i], was[q..]).Some? {
      var (v, j) := UnpackVal(ks[i], was[q..]).value;
      assert was[q..][j..] == was[q + j..];
      var r := UnpackVals(ks[i + 1..], was[q + j..]);
      if r.Some? {
        assert vs + ([v] + r.value.0) == vs + [v] + r.value.0;
      }
    }
  }

  lemma ValsEnds(all: Option<(seq<Val>, nat)>, vs: seq<Val>, k: nat, b: seq<byte>)
    ensures all == ThenVals([], 0, all) && ThenVals(vs, k, UnpackVals([], b)) == Some((vs, k))
  {
    if all.Some? {
      assert [] + all.value.0 == all.value.0;
    }
    assert vs + [] == vs;
  }

  ghost predicate HeldAll(buf: seq<byte>, fs: seq<Field>, vs: seq<Val>, q: nat)
  {
    |fs| == |vs| && q <= |buf| && forall i :: 0 <= i < |fs| ==> Held(buf, fs[i], vs[i], q)
  }

  lemma HeldAllNext(a: seq<byte>, b: seq<byte>, fs: seq<Field>, vs: seq<Val>, q: nat, f: Field, v: Val, q': nat)
    requires HeldAll(a, fs, vs, q) && Held(b, f, v, q') && q <= q' <= |b| && a[..q] == b[..q]
    ensures HeldAll(b, fs + [f], vs + [v], q')
  {
    hide Held;
    forall i | 0 <= i < |fs|
      ensures Held(b, fs[i], vs[i], q')
    {
      HeldStays(a, b, fs[i], vs[i], q, q');
    }
  }

  method GetVals(ap: array<byte>, p: nat, ks: seq<Kind>) returns (ok: bool, fs: seq<Field>, q: nat)
    requires p <= ap.Length
    modifies ap
    ensures ok <==> UnpackVals(ks, old(ap[..])[p..]).Some?
    ensures ok ==>
              && q == p + UnpackVals(ks, old(ap[..])[p..]).value.1
              && HeldAll(ap[..], fs, UnpackVals(ks, old(ap[..])[p..]).value.0, q)
    ensures ok ==> Outside(old(ap[..]), ap[..], p, q)
  {
    hide UnpackVal, UnpackVals, ThenVals, Held, HeldAll, Outside;
    ghost var was, all := ap[..], UnpackVals(ks, ap[..][p..]);
    ghost var vs: seq<Val> := [];
    fs, q := [], p;
    ValsEnds(all, [], 0, []);
    OutsideNone(was, p);
    NoFields(was, p);
    assert ks[0..] == ks;
    for i := 0 to |ks|
      invariant p <= q <= ap.Length == |was| && Outside(was, ap[..], p, q) && HeldAll(ap[..], fs, vs, q)
      invariant all == ThenVals(vs, q - p, UnpackVals(ks[i..], was[q..]))
    {
      ValsStep(ks, i, was, q, vs, q - p);
      ghost var mid := ap[..];
      SameTail(was, mid, p, q);
      var f, q1;
      ok, f, q1 := GetVal(ap, q, ks[i]);
      if !ok {
        return;
      }
      ghost var v := UnpackVal(ks[i], was[q..]).value.0;
      OutsideNext(was, mid, ap[..], p, q, q1);
      HeldAllNext(mid, ap[..], fs, vs, q, f, v, q1);
      fs, vs, q := fs + [f], vs + [v], q1;
    }
    assert ks[|ks|..] == [];
    ValsEnds(all, vs, q - p, was[q..]);
    ok := true;
  }

  lemma NoFields(b: seq<byte>, p: nat)
    requires p <= |b|
    ensures HeldAll(b, [], [], p)
  {
  }

  /**
   Unpack the message at the start of a buffer: the size of the message, or 0 if there is none; the fields
   point into the buffer and stand for the message's values.
   */
  method ConvM2S(ap: array<byte>) returns (n: nat, kind: nat, tag: nat, fs: seq<Field>)
    modifies ap
    ensures n > 0 <==> Unpack(old(ap[..])).Some?
    ensures n > 0 ==> var m := Unpack(old(ap[..])).value;
                      kind == m.kind && tag == m.tag && HeldAll(ap[..], fs, m.vals, n) && n == FromLe(old(ap[..])[..4])
    ensures n > 0 ==> ap[n..] == old(ap[..])[n..]
  {
    hide UnpackVals, HeldAll, Layout, FromLe, Outside;
    ghost var was := ap[..];
    n, kind, tag, fs := 0, 0, 0, [];
    if 7 > ap.Length {
      return;
    }
    var size := FromLe(ap[..4]);
    assert was[..4] == ap[..4] && was[4..5] == ap[4..5] && was[5..7] == ap[5..7];
    if size < 7 {
      return;
    }
    kind, tag := FromLe(ap[4..5]), FromLe(ap[5..7]);
    if Layout(kind).None? {
      return;
    }
    var ok, p;
    ok, fs, p := GetVals(ap, 7, Layout(kind).value);
    if !ok || p != size {
      return;
    }
    SameTail(was, ap[..], 7, p);
    assert ap[..][p..] == ap[p..];
    n := size;
  }

  /** Pack a message and unpack it again in place: every field stands for what was sent. */
  method PackUnpack(m: Msg, ap: array<byte>) returns (n: nat, kind: nat, tag: nat, fs: seq<Field>)
    requires Sendable(m) && |Pack(m)| <= ap.Length < WORD
    modifies ap
    ensures n == |Pack(m)| && kind == m.kind && tag == m.tag && HeldAll(ap[..], fs, m.vals, n)
  {
    hide Pack, Unpack, HeldAll, Layout, Body, FromLe, TooManyQids, LongWalk;
    SendableHandled(m, ap.Length);
    ghost var was := ap[..];
    var defined;
    n, defined := ConvS2M(m, ap);
    UnpackPack(m, was[n..]);
    PackSize(m, was[n..]);
    n, kind, tag, fs := ConvM2S(ap);
  }

  /** A sendable message that fits the buffer is handled. */
  lemma SendableHandled(m: Msg, nap: nat)
    requires Sendable(m) && |Pack(m)| <= nap
    ensures Handled(m, nap) && !TooManyQids(m) && Layout(m.kind).Some? && Formed(m)
  {
    hide Layout, Body;
    forall i | 0 <= i < |m.vals|
      ensures !(m.vals[i].Names? && |m.vals[i].names| > MAXWELEM) && !(m.vals[i].Qids? && |m.vals[i].qids| > MAXWELEM)
    {
      assert InRange(Layout(m.kind).value[i], m.vals[i]);
    }
  }

  /** The size field of a packed message is its size. */
  lemma PackSize(m: Msg, rest: seq<byte>)
    requires Sendable(m)
    ensures |Pack(m)| >= 7 && FromLe((Pack(m) + rest)[..4]) == |Pack(m)|
  {
    hide Le, FromLe, Pow256, Body;
    Widths();
    FromLeLe(7 + |Body(m)|, 4);
    assert (Pack(m) + rest)[..4] == Le(7 + |Body(m)|, 4);
  }
}
