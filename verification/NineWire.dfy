/** What every 9P2000 message looks like on the wire, byte by byte (section 5 of the Plan 9 manual). */
module NineWire {
  import opened Bits
  import opened NineP

  function WireQid(q: Qid): seq<byte>
  {
    Le(q.kind, 1) + Le(q.vers, 4) + Le(q.path, 8)
  }

  function WireQids(qs: seq<Qid>): seq<byte>
  {
    if qs == [] then [] else WireQid(qs[0]) + WireQids(qs[1..])
  }

  function WireStr(s: seq<byte>): seq<byte>
  {
    Le(|s|, 2) + s
  }

  function WireStrs(ss: seq<seq<byte>>): seq<byte>
  {
    if ss == [] then [] else WireStr(ss[0]) + WireStrs(ss[1..])
  }

  /** The fields that a message of each type has. */
  predicate HasFields(m: Msg)
  {
    var v := m.vals;
    match m.kind
    case 100 => |v| == 2 && v[0].Num? && v[1].Str?
    case 101 => |v| == 2 && v[0].Num? && v[1].Str?
    case 102 => |v| == 3 && v[0].Num? && v[1].Str? && v[2].Str?
    case 103 => |v| == 1 && v[0].OneQid?
    case 104 => |v| == 4 && v[0].Num? && v[1].Num? && v[2].Str? && v[3].Str?
    case 105 => |v| == 1 && v[0].OneQid?
    case 107 => |v| == 1 && v[0].Str?
    case 108 => |v| == 1 && v[0].Num?
    case 109 => |v| == 0
    case 110 => |v| == 3 && v[0].Num? && v[1].Num? && v[2].Names?
    case 111 => |v| == 1 && v[0].Qids?
    case 112 => |v| == 2 && v[0].Num? && v[1].Num?
    case 113 => |v| == 2 && v[0].OneQid? && v[1].Num?
    case 114 => |v| == 4 && v[0].Num? && v[1].Str? && v[2].Num? && v[3].Num?
    case 115 => |v| == 2 && v[0].OneQid? && v[1].Num?
    case 116 => |v| == 3 && v[0].Num? && v[1].Num? && v[2].Num?
    case 117 => |v| == 1 && v[0].Bytes?
    case 118 => |v| == 3 && v[0].Num? && v[1].Num? && v[2].Bytes?
    case 119 => |v| == 1 && v[0].Num?
    case 120 => |v| == 1 && v[0].Num?
    case 121 => |v| == 0
    case 122 => |v| == 1 && v[0].Num?
    case 123 => |v| == 0
    case 124 => |v| == 1 && v[0].Num?
    case 125 => |v| == 1 && v[0].Bytes?
    case 126 => |v| == 2 && v[0].Num? && v[1].Bytes?
    case 127 => |v| == 0
    case _ => false
  }

  /** The bytes after size, type and tag. */
  function Wire(m: Msg): seq<byte>
    requires HasFields(m)
  {
    var v := m.vals;
    match m.kind
    case 100 => Le(v[0].n, 4) + WireStr(v[1].s) // Tversion: msize version
    case 101 => Le(v[0].n, 4) + WireStr(v[1].s) // Rversion: msize version
    case 102 => Le(v[0].n, 4) + WireStr(v[1].s) + WireStr(v[2].s) // Tauth: afid uname aname
    case 103 => WireQid(v[0].q) // Rauth: aqid
    case 104 => Le(v[0].n, 4) + Le(v[1].n, 4) + WireStr(v[2].s) + WireStr(v[3].s) // Tattach: fid afid uname aname
    case 105 => WireQid(v[0].q) // Rattach: qid
    case 107 => WireStr(v[0].s) // Rerror: ename
    case 108 => Le(v[0].n, 2) // Tflush: oldtag
    case 109 => [] // Rflush
    case 110 => Le(v[0].n, 4) + Le(v[1].n, 4) + Le(|v[2].names|, 2) + WireStrs(v[2].names) // Twalk: fid newfid names
    case 111 => Le(|v[0].qids|, 2) + WireQids(v[0].qids) // Rwalk: qids
    case 112 => Le(v[0].n, 4) + Le(v[1].n, 1) // Topen: fid mode
    case 113 => WireQid(v[0].q) + Le(v[1].n, 4) // Ropen: qid iounit
    case 114 => Le(v[0].n, 4) + WireStr(v[1].s) + Le(v[2].n, 4) + Le(v[3].n, 1) // Tcreate: fid name perm mode
    case 115 => WireQid(v[0].q) + Le(v[1].n, 4) // Rcreate: qid iounit
    case 116 => Le(v[0].n, 4) + Le(v[1].n, 8) + Le(v[2].n, 4) // Tread: fid offset count
    case 117 => Le(|v[0].b|, 4) + v[0].b // Rread: count data
    case 118 => Le(v[0].n, 4) + Le(v[1].n, 8) + Le(|v[2].b|, 4) + v[2].b // Twrite: fid offset count data
    case 119 => Le(v[0].n, 4) // Rwrite: count
    case 120 => Le(v[0].n, 4) // Tclunk: fid
    case 121 => [] // Rclunk
    case 122 => Le(v[0].n, 4) // Tremove: fid
    case 123 => [] // Rremove
    case 124 => Le(v[0].n, 4) // Tstat: fid
    case 125 => Le(|v[0].b|, 2) + v[0].b // Rstat: stat
    case 126 => Le(v[0].n, 4) + Le(|v[1].b|, 2) + v[1].b // Twstat: fid stat
    case 127 => [] // Rwstat
  }

  lemma {:induction false} StrsAre(ss: seq<seq<byte>>)
    ensures PackStrs(ss) == WireStrs(ss)
  {
    if ss != [] {
      StrsAre(ss[1..]);
    }
  }

  lemma {:induction false} QidsAre(qs: seq<Qid>)
    ensures PackQids(qs) == WireQids(qs)
  {
    if qs != [] {
      QidsAre(qs[1..]);
    }
  }

  /** The values of up to four fields, one after the other. */
  lemma FewVals(ks: seq<Kind>, vs: seq<Val>)
    requires AllTyped(ks, vs) && |ks| <= 4
    ensures |ks| == 0 ==> PackVals(ks, vs) == []
    ensures |ks| == 1 ==> PackVals(ks, vs) == PackVal(ks[0], vs[0])
    ensures |ks| == 2 ==> PackVals(ks, vs) == PackVal(ks[0], vs[0]) + PackVal(ks[1], vs[1])
    ensures |ks| == 3 ==> PackVals(ks, vs) == PackVal(ks[0], vs[0]) + PackVal(ks[1], vs[1]) + PackVal(ks[2], vs[2])
    ensures |ks| == 4 ==> PackVals(ks, vs)
                          == PackVal(ks[0], vs[0]) + PackVal(ks[1], vs[1]) + PackVal(ks[2], vs[2])
                             + PackVal(ks[3], vs[3])
  {
    hide PackVal, Typed;
    assert ks[..|ks|] == ks && vs[..|vs|] == vs && ks[..0] == [] && vs[..0] == [];
    if |ks| > 0 {
      ValsSnoc(ks, vs, 0);
    }
    if |ks| > 1 {
      ValsSnoc(ks, vs, 1);
    }
    if |ks| > 2 {
      ValsSnoc(ks, vs, 2);
    }
    if |ks| > 3 {
      ValsSnoc(ks, vs, 3);
    }
  }

  lemma ShapeIs(m: Msg)
    ensures Formed(m) <==> HasFields(m)
  {
  }

  lemma FormedFew(m: Msg)
    requires Formed(m)
    ensures |Layout(m.kind).value| <= 4 && m.kind < 128
  {
  }

  /** For every message of every type. */
  lemma OnTheWire(m: Msg)
    ensures Formed(m) <==> HasFields(m)
    ensures Formed(m) ==> Pack(m) == Le(7 + |Wire(m)|, 4) + [m.kind] + Le(m.tag, 2) + Wire(m)
  {
    hide PackVals, Le, PackStrs, PackQids, WireStrs, WireQids;
    ShapeIs(m);
    if Formed(m) {
      FormedFew(m);
      FewVals(Layout(m.kind).value, m.vals);
      BodyIs(m);
      Le1(m.kind);
    }
  }

  lemma BodyIs(m: Msg)
    requires Formed(m) && HasFields(m)
    ensures Body(m) == Wire(m)
  {
    hide PackVals, Le, PackStrs, PackQids, WireStrs, WireQids;
    FewVals(Layout(m.kind).value, m.vals);
    if m.kind == 110 {
      StrsAre(m.vals[2].names);
    } else if m.kind == 111 {
      QidsAre(m.vals[0].qids);
    }
  }

  /** Numbers are little-endian. */
  lemma LittleEndian(v: nat)
    ensures Le(v, 1) == [v % 256]
    ensures Le(v, 2) == [v % 256, v / 0x100 % 256]
    ensures Le(v, 4) == [v % 256, v / 0x100 % 256, v / 0x1_0000 % 256, v / 0x100_0000 % 256]
    ensures Le(v, 8) == Le(v, 4) + Le(v / 0x1_0000_0000, 4)
  {
    Le1(v);
    Le2(v);
    Le4(v);
    Le8(v);
  }

  lemma Le1(v: nat)
    ensures Le(v, 1) == [v % 256]
  {
    assert Le(v / 256, 0) == [];
  }

  lemma Le2(v: nat)
    ensures Le(v, 2) == [v % 256, v / 0x100 % 256]
  {
    Le1(v / 256);
  }

  lemma Le4(v: nat)
    ensures Le(v, 4) == [v % 256, v / 0x100 % 256, v / 0x1_0000 % 256, v / 0x100_0000 % 256]
  {
    Le2(v / 256 / 256);
    assert Le(v, 4) == [v % 256] + Le(v / 256, 3) && Le(v / 256, 3) == [v / 256 % 256] + Le(v / 256 / 256, 2);
    assert v / 256 / 256 == v / 0x1_0000 && v / 0x1_0000 / 256 == v / 0x100_0000;
  }

  lemma Le8(v: nat)
    ensures Le(v, 8) == Le(v, 4) + Le(v / 0x1_0000_0000, 4)
  {
    var a := v / 256;
    var b := a / 256;
    var c := b / 256;
    var d := c / 256;
    assert d == v / 0x1_0000_0000;
    assert Le(v, 8) == [v % 256] + Le(a, 7) && Le(a, 7) == [a % 256] + Le(b, 6);
    assert Le(b, 6) == [b % 256] + Le(c, 5) && Le(c, 5) == [c % 256] + Le(d, 4);
    assert Le(v, 4) == [v % 256] + Le(a, 3) && Le(a, 3) == [a % 256] + Le(b, 2);
    assert Le(b, 2) == [b % 256] + Le(c, 1) && Le(c, 1) == [c % 256] + Le(d, 0);
  }

  /** A read of 8192 bytes at offset 0. */
  lemma TreadBytes(tag: nat)
    requires tag < 256
    ensures var m := Msg(116, tag, [Num(1), Num(0), Num(8192)]);
            Formed(m) && Pack(m)
            == [23, 0, 0, 0, 116, tag, 0, 1, 0, 0, 0, 0, 0, 0, 0, 0, 0, 0, 0, 0, 0x20, 0, 0]
  {
    hide Le, Pack, Formed;
    var m := Msg(116, tag, [Num(1), Num(0), Num(8192)]);
    OnTheWire(m);
    Le4(23);
    Le4(1);
    Le4(0);
    Le8(0);
    Le4(8192);
    Le2(tag);
  }

  /** A walk of more than sixteen names is too long, and a walk's answer of more than sixteen qids. */
  lemma Limits(m: Msg)
    requires Formed(m)
    ensures LongWalk(m) <==> m.kind == 110 && |m.vals[2].names| > 16
    ensures TooManyQids(m) <==> m.kind == 111 && |m.vals[0].qids| > 16
  {
    ShapeIs(m);
    if m.kind == 110 {
      assert m.vals[2].Names?;
    }
  }
}
