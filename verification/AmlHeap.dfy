/** The AML interpreter's heap and its mark and sweep collector. */
module AmlHeap {

  /** What an object holds, by tag; Data stands for the tags without pointers. */
  datatype Body =
    | Env(loc: seq<Obj?>, arg: seq<Obj?>)
    | Ref(ref: Obj?)
    | Name(seg: string, v: Obj?, up: Obj?, next: Obj?, fork: Obj?, down: Obj?)
    | Package(elems: seq<Obj?>)
    | Region(regname: Obj?)
    | Method(metname: Obj?)
    | Field(reg: Obj?, bank: Obj?, index: Obj?)
    | Data

  class Obj {
    var link: Obj?
    var live: bool // mark & 1
    var pinned: bool // mark & 2
    var body: Body
    ghost var kids: seq<Obj> // of a name: the list that starts at down

    constructor (b: Body)
      ensures link == null && !live && !pinned && body == b && kids == []
    {
      link, live, pinned, body, kids := null, false, false, b, [];
    }
  }

  /** Pointers that the collector follows, apart from the list of a name's children. */
  function Out(b: Body): seq<Obj?>
  {
    match b
    case Env(loc, arg) => loc + arg
    case Ref(r) => [r]
    case Name(_, v, up, _, fork, _) => [v, fork, up]
    case Package(elems) => elems
    case Region(n) => [n]
    case Method(n) => [n]
    case Field(reg, bank, index) => [reg, bank, index]
    case Data => []
  }

  // ----- pointers, field by field

  predicate In(p: Obj?, all: set<Obj>)
  {
    p != null ==> p in all
  }

  predicate AllIn(s: seq<Obj?>, all: set<Obj>)
  {
    forall i :: 0 <= i < |s| ==> In(s[i], all)
  }

  /** What an object points to is in the heap; a name's next sibling apart. */
  predicate PointersIn(b: Body, all: set<Obj>)
  {
    && (b.Env? ==> AllIn(b.loc, all) && AllIn(b.arg, all))
    && (b.Ref? ==> In(b.ref, all))
    && (b.Name? ==> In(b.v, all) && In(b.up, all) && In(b.fork, all) && In(b.down, all))
    && (b.Package? ==> AllIn(b.elems, all))
    && (b.Region? ==> In(b.regname, all))
    && (b.Method? ==> In(b.metname, all))
    && (b.Field? ==> In(b.reg, all) && In(b.bank, all) && In(b.index, all))
  }

  predicate NextIn(b: Body, all: set<Obj>)
  {
    b.Name? ==> In(b.next, all)
  }

  predicate FrameIn(f: Frame, all: set<Obj>)
  {
    AllIn(f.arg, all) && In(f.env, all) && In(f.dot, all) && In(f.ref, all)
  }

  type Graph = map<Obj, set<Obj>>

  /** What the collector goes on to from an object. */
  ghost function Pointed(o: Obj): set<Obj>
    reads o`body, o`kids
  {
    (set c: Obj | c in Out(o.body)) + (if o.body.Name? then set k | k in o.kids else {})
  }

  ghost function Succ(s: seq<Obj>, i: nat): Obj?
  {
    if i + 1 < |s| then s[i + 1] else null
  }

  /** The list that starts at d and is linked by next. */
  ghost predicate Siblings(d: Obj?, s: seq<Obj>, all: set<Obj>)
    reads all`body
  {
    && (if s == [] then d == null else d == s[0])
    && (forall i :: 0 <= i < |s| ==> s[i] in all && s[i].body.Name? && s[i].body.next == Succ(s, i))
  }

  /** g is the graph of the heap: nothing points outside, and every name's children are a list. */
  ghost predicate GraphOf(all: set<Obj>, g: Graph)
    reads all`body, all`kids
  {
    g.Keys == all && forall o :: o in all ==> ObjectOk(o, all, g)
  }

  ghost predicate ObjectOk(o: Obj, all: set<Obj>, g: Graph)
    requires o in g
    reads o`body, o`kids, all`body
  {
    g[o] == Pointed(o) && g[o] <= all && (o.body.Name? ==> Siblings(o.body.down, o.kids, all))
  }

  // ----- reachability

  ghost predicate Closed(g: Graph, t: set<Obj>)
  {
    forall o :: o in t && o in g ==> g[o] <= t
  }

  /** One step from every object of s. */
  ghost function Step(g: Graph, s: set<Obj>): set<Obj>
  {
    s + set o, c | o in s && o in g && c in g[o] :: c
  }

  ghost function Reach(g: Graph, s: set<Obj>): (r: set<Obj>)
    requires s <= g.Keys && forall o :: o in g ==> g[o] <= g.Keys
    ensures s <= r <= g.Keys && Closed(g, r)
    decreases g.Keys - s
  {
    if Step(g, s) == s then StepClosed(g, s); s else Reach(g, Step(g, s))
  }

  lemma StepClosed(g: Graph, s: set<Obj>)
    requires Step(g, s) == s
    ensures Closed(g, s)
  {
    forall o, c | o in s && o in g && c in g[o]
      ensures c in s
    {
      assert c in Step(g, s);
    }
  }

  /** Nothing smaller will do. */
  lemma {:induction false} ReachLeast(g: Graph, s: set<Obj>, t: set<Obj>)
    requires s <= g.Keys && (forall o :: o in g ==> g[o] <= g.Keys) && s <= t && Closed(g, t)
    ensures Reach(g, s) <= t
    decreases g.Keys - s
  {
    if Step(g, s) != s {
      ReachLeast(g, Step(g, s), t);
    }
  }

  // ----- marking

  ghost function Marked(all: set<Obj>): set<Obj>
    reads all`live
  {
    set o | o in all && o.live
  }

  /** From m to n more objects are marked: all of them in t, and whatever they point to is marked too. */
  ghost predicate Grown(g: Graph, m: set<Obj>, n: set<Obj>, t: set<Obj>)
  {
    m <= n && n - m <= t && forall o :: o in n && o !in m && o in g ==> g[o] <= n
  }

  lemma GrownNone(g: Graph, m: set<Obj>, t: set<Obj>)
    ensures Grown(g, m, m, t)
  {
  }

  lemma GrownTwice(g: Graph, a: set<Obj>, b: set<Obj>, c: set<Obj>, t: set<Obj>)
    requires Grown(g, a, b, t) && Grown(g, b, c, t)
    ensures Grown(g, a, c, t) && b <= c
  {
  }

  lemma GrownFrom(g: Graph, m: set<Obj>, p: Obj, n: set<Obj>, t: set<Obj>)
    requires p in t && p in g && Grown(g, m + {p}, n, t) && g[p] <= n
    ensures Grown(g, m, n, t) && p in n
  {
  }

  /** Marking from p stays within every closed set around p and terminates on cyclic graphs. */
  method GcMark(p: Obj?, ghost all: set<Obj>, ghost g: Graph, ghost t: set<Obj>)
    requires GraphOf(all, g) && Closed(g, t) && (p != null ==> p in all && p in t)
    modifies all`live
    ensures Grown(g, old(Marked(all)), Marked(all), t) && (p != null ==> p in Marked(all))
    decreases all - Marked(all), 0
  {
    hide GraphOf, Closed, Grown;
    if p == null || p.live {
      GrownNone(g, Marked(all), t);
      return;
    }
    ghost var m := Marked(all);
    p.live := true;
    assert Marked(all) == m + {p};
    GraphAt(p, all, g);
    GcMarkBody(p, all, g, t);
    GrownFrom(g, m, p, Marked(all), t);
  }

  /** The switch of gcmark. */
  method GcMarkBody(p: Obj, ghost all: set<Obj>, ghost g: Graph, ghost t: set<Obj>)
    requires GraphOf(all, g) && Closed(g, t) && p in all && p in t
    modifies all`live
    ensures Grown(g, old(Marked(all)), Marked(all), t) && g[p] <= Marked(all)
    decreases all - Marked(all), 3
  {
    hide GraphOf, Siblings;
    GraphAt(p, all, g);
    match p.body
    case Env(loc, arg) =>
      ghost var m := Marked(all);
      GcMarkAll(loc, all, g, t);
      ghost var n := Marked(all);
      GcMarkAll(arg, all, g, t);
      GrownTwice(g, m, n, Marked(all), t);
    case Ref(r) =>
      GcMarkAll([r], all, g, t);
    case Name(_, _, _, _, _, _) =>
      GcMarkName(p, all, g, t);
    case Package(elems) =>
      GcMarkAll(elems, all, g, t);
    case Region(n) =>
      GcMarkAll([n], all, g, t);
    case Method(n) =>
      GcMarkAll([n], all, g, t);
    case Field(reg, bank, index) =>
      GcMarkAll([reg, bank, index], all, g, t);
    case Data =>
  }

  method GcMarkName(n: Obj, ghost all: set<Obj>, ghost g: Graph, ghost t: set<Obj>)
    requires GraphOf(all, g) && Closed(g, t) && n in all && n in t && n.body.Name?
    modifies all`live
    ensures Grown(g, old(Marked(all)), Marked(all), t) && g[n] <= Marked(all)
    decreases all - Marked(all), 2
  {
    hide GraphOf, Siblings;
    GraphAt(n, all, g);
    ghost var m0 := Marked(all);
    assert n.body.v in Out(n.body) && n.body.fork in Out(n.body) && n.body.up in Out(n.body);
    GcMark(n.body.v, all, g, t);
    ghost var m1 := Marked(all);
    GcMarkKids(n, all, g, t);
    ghost var m2 := Marked(all);
    GrownTwice(g, m0, m1, m2, t);
    GcMarkAll([n.body.fork, n.body.up], all, g, t);
    GrownTwice(g, m0, m2, Marked(all), t);
  }

  method GcMarkKids(n: Obj, ghost all: set<Obj>, ghost g: Graph, ghost t: set<Obj>)
    requires GraphOf(all, g) && Closed(g, t) && n in all && n in t && n.body.Name?
    modifies all`live
    ensures Grown(g, old(Marked(all)), Marked(all), t) && forall k :: k in n.kids ==> k in Marked(all)
    decreases all - Marked(all), 1
  {
    hide GraphOf, Closed, Grown, Marked;
    ghost var m := Marked(all);
    GrownNone(g, m, t);
    var d := n.body.down;
    ghost var i := 0;
    KidAt(n, all, g, t, 0);
    while d != null
      invariant i <= |n.kids| && d == (if i < |n.kids| then n.kids[i] else null)
      invariant Grown(g, m, Marked(all), t) && GraphOf(all, g) && m <= Marked(all)
      invariant forall k :: 0 <= k < i ==> n.kids[k] in Marked(all)
      decreases |n.kids| - i
    {
      ghost var was := Marked(all);
      KidAt(n, all, g, t, i);
      GcMark(d, all, g, t);
      GrownTwice(g, m, was, Marked(all), t);
      d := d.body.next;
      i := i + 1;
    }
  }

  /** The i-th child of a name, and where its next leads. */
  lemma KidAt(n: Obj, all: set<Obj>, g: Graph, t: set<Obj>, i: nat)
    requires GraphOf(all, g) && Closed(g, t) && n in all && n in t && n.body.Name?
    ensures n.body.down == if n.kids == [] then null else n.kids[0]
    ensures i < |n.kids| ==>
              var k := n.kids[i];
              && k in all && k in t && k.body.Name?
              && k.body.next == if i + 1 < |n.kids| then n.kids[i + 1] else null
  {
    hide GraphOf, Closed;
    GraphAt(n, all, g);
    ClosedAt(n, g, t);
    if i < |n.kids| {
      assert n.kids[i] in Pointed(n);
    }
  }

  lemma ClosedAt(o: Obj, g: Graph, t: set<Obj>)
    requires Closed(g, t) && o in t && o in g
    ensures g[o] <= t
  {
  }

  lemma GraphAt(o: Obj, all: set<Obj>, g: Graph)
    requires GraphOf(all, g) && o in all
    ensures o in g && g[o] == Pointed(o) && g[o] <= all && (o.body.Name? ==> Siblings(o.body.down, o.kids, all))
  {
  }

  method GcMarkAll(s: seq<Obj?>, ghost all: set<Obj>, ghost g: Graph, ghost t: set<Obj>)
    requires GraphOf(all, g) && Closed(g, t) && forall c: Obj :: c in s ==> c in all && c in t
    modifies all`live
    ensures Grown(g, old(Marked(all)), Marked(all), t) && forall c: Obj :: c in s ==> c in Marked(all)
    decreases all - Marked(all), 1
  {
    hide GraphOf, Closed;
    ghost var m := Marked(all);
    for i := 0 to |s|
      invariant Grown(g, m, Marked(all), t) && GraphOf(all, g)
      invariant forall k :: 0 <= k < i && s[k] != null ==> s[k] in Marked(all)
    {
      ghost var n := Marked(all);
      GcMark(s[i], all, g, t);
      GrownTwice(g, m, n, Marked(all), t);
    }
  }

  // ----- the collector

  datatype Frame = Frame(arg: seq<Obj?>, env: Obj?, dot: Obj?, ref: Obj?)

  function FrameRoots(f: Frame): seq<Obj?>
  {
    f.arg + [f.env, f.dot, f.ref]
  }

  lemma FrameIs(f: Frame, all: set<Obj>)
    ensures FrameIn(f, all) <==> forall c: Obj :: c in FrameRoots(f) ==> c in all
  {
    var s, n := FrameRoots(f), |f.arg|;
    assert s[n] == f.env && s[n + 1] == f.dot && s[n + 2] == f.ref && s[..n] == f.arg;
    if forall c: Obj :: c in s ==> c in all {
      forall i | 0 <= i < |s|
        ensures In(s[i], all)
      {
        if s[i] != null {
          var c: Obj := s[i];
          assert c in s;
        }
      }
      assert forall i :: 0 <= i < n ==> s[i] == f.arg[i];
    }
  }

  /** The heap's list, linked through its objects. */
  ghost predicate Listed(h: Obj?, s: seq<Obj>)
    reads Elems(s)`link
  {
    && (if s == [] then h == null else h == s[0])
    && (forall i :: 0 <= i < |s| ==> s[i].link == Succ(s, i))
  }

  ghost predicate Distinct(s: seq<Obj>)
  {
    forall i, j :: 0 <= i < j < |s| ==> s[i] != s[j]
  }

  ghost function Elems(s: seq<Obj>): set<Obj>
  {
    set o | o in s
  }

  /** The objects of a list that are in r, in their order. */
  ghost function Keep(s: seq<Obj>, r: set<Obj>): seq<Obj>
  {
    if s == [] then []
    else Keep(s[..|s| - 1], r) + (if s[|s| - 1] in r then [s[|s| - 1]] else [])
  }

  lemma {:induction false} KeepElems(s: seq<Obj>, r: set<Obj>)
    ensures Elems(Keep(s, r)) == Elems(s) * r && |Keep(s, r)| <= |s|
  {
    if s != [] {
      var x, u := s[|s| - 1], s[..|s| - 1];
      KeepElems(u, r);
      assert s == u + [x];
      ElemsSnoc(u, x);
      ElemsSnoc(Keep(u, r), x);
      assert Keep(u, r) + [] == Keep(u, r);
    }
  }

  lemma ElemsIs(s: seq<Obj>)
    ensures forall o :: o in Elems(s) <==> o in s
  {
  }

  lemma ElemsCons(x: Obj, u: seq<Obj>)
    ensures Elems([x] + u) == Elems(u) + {x}
  {
  }

  lemma ElemsSnoc(u: seq<Obj>, x: Obj)
    ensures Elems(u + [x]) == Elems(u) + {x}
  {
  }

  lemma KeepNext(s: seq<Obj>, r: set<Obj>, i: nat)
    requires i < |s|
    ensures Keep(s[..i + 1], r) == Keep(s[..i], r) + (if s[i] in r then [s[i]] else [])
  {
    assert s[..i + 1][..i] == s[..i];
  }

  class Interp {
    var hp: Obj?
    var frames: seq<Frame> // the live part of the stack
    var amlroot: Obj?
    ghost var objs: seq<Obj>

    /** The roots of a collection. */
    ghost function Roots(): set<Obj>
      reads this, Elems(objs)`pinned
    {
      (set o | o in objs && o.pinned) + (set f, c: Obj | f in frames && c in FrameRoots(f) :: c)
      + (if amlroot != null then {amlroot} else {})
    }

    ghost predicate Valid(g: Graph)
      reads this, Elems(objs)
    {
      && Listed(hp, objs) && Distinct(objs) && GraphOf(Elems(objs), g) && Roots() <= Elems(objs)
    }

    method ClearMarks(ghost g: Graph)
      requires Valid(g)
      modifies Elems(objs)`live
      ensures Marked(Elems(objs)) == {}
    {
      hide GraphOf;
      var h := hp;
      ghost var i := 0;
      while h != null
        invariant i <= |objs| && h == (if i < |objs| then objs[i] else null)
        invariant forall k :: 0 <= k < i ==> !objs[k].live
        decreases |objs| - i
      {
        h.live := false;
        assert objs[i].link == Succ(objs, i);
        h := h.link;
        i := i + 1;
      }
    }

    /** The link of the i-th object leads to the next one. */
    lemma LinkAt(g: Graph, i: nat)
      requires Valid(g) && i < |objs|
      ensures objs[i].link == Succ(objs, i) && objs[i] in Elems(objs)
    {
    }

    lemma RootsIn(g: Graph, t: set<Obj>)
      requires Valid(g) && Roots() <= t
      ensures forall o :: o in objs && o.pinned ==> o in t
      ensures forall f, c: Obj :: f in frames && c in FrameRoots(f) ==> c in t && c in Elems(objs)
      ensures amlroot != null ==> amlroot in t && amlroot in Elems(objs)
    {
      hide FrameRoots, GraphOf;
      forall o | o in objs && o.pinned
        ensures o in t
      {
        assert o in Roots();
      }
      forall f, c: Obj | f in frames && c in FrameRoots(f)
        ensures c in t && c in Elems(objs)
      {
        assert c in Roots();
      }
    }

    method MarkPinned(ghost g: Graph, ghost t: set<Obj>)
      requires Valid(g) && Closed(g, t) && Roots() <= t
      modifies Elems(objs)`live
      ensures Grown(g, old(Marked(Elems(objs))), Marked(Elems(objs)), t)
      ensures forall o :: o in objs && o.pinned ==> o in Marked(Elems(objs))
    {
      hide GraphOf, Grown, Closed, Roots, Listed, Distinct, Marked;
      ghost var all := Elems(objs);
      ghost var m := Marked(all);
      GrownNone(g, m, t);
      RootsIn(g, t);
      assert hp == (if 0 < |objs| then objs[0] else null) by {
        HeadAt(g);
      }
      var h := hp;
      ghost var i := 0;
      while h != null
        invariant i <= |objs| && h == (if i < |objs| then objs[i] else null)
        invariant Grown(g, m, Marked(all), t)
        invariant forall k :: 0 <= k < i && objs[k].pinned ==> objs[k] in Marked(all)
        decreases |objs| - i
      {
        ghost var was := Marked(all);
        LinkAt(g, i);
        if h.pinned {
          GcMark(h, all, g, t);
          GrownTwice(g, m, was, Marked(all), t);
        }
        h := h.link;
        i := i + 1;
      }
    }

    lemma HeadAt(g: Graph)
      requires Valid(g)
      ensures hp == if 0 < |objs| then objs[0] else null
    {
    }

    method MarkFrames(ghost g: Graph, ghost t: set<Obj>)
      requires Valid(g) && Closed(g, t) && Roots() <= t
      modifies Elems(objs)`live
      ensures Grown(g, old(Marked(Elems(objs))), Marked(Elems(objs)), t)
      ensures forall f, c: Obj :: f in frames && c in FrameRoots(f) ==> c in Marked(Elems(objs))
    {
      hide GraphOf, Grown, Closed, Roots, Listed, Distinct, Marked, FrameRoots;
      ghost var all := Elems(objs);
      ghost var m := Marked(all);
      GrownNone(g, m, t);
      RootsIn(g, t);
      var i := |frames|;
      while i > 0
        invariant 0 <= i <= |frames| && Grown(g, m, Marked(all), t)
        invariant forall k, c: Obj :: i <= k < |frames| && c in FrameRoots(frames[k]) ==> c in Marked(all)
      {
        i := i - 1;
        ghost var was := Marked(all);
        assert frames[i] in frames;
        GcMarkAll(FrameRoots(frames[i]), all, g, t);
        GrownTwice(g, m, was, Marked(all), t);
      }
    }

    /** The heap and its namespace are in order. */
    ghost predicate InOrder()
      reads this, Elems(objs)
    {
      Valid(Snapshot(Elems(objs))) && TreeOk(Elems(objs))
    }

    /** Allocate an object without children at the head of the list. */
    method Mk(b: Body) returns (o: Obj)
      requires InOrder() && (forall c: Obj :: c in Out(b) ==> c in objs)
               && (b.Name? ==> b.next == null && b.down == null)
      modifies this
      ensures fresh(o) && objs == [o] + old(objs) && o.body == b && o.kids == [] && !o.pinned
      ensures hp == o && frames == old(frames) && amlroot == old(amlroot) && InOrder()
    {
      hide GraphOf, TreeOk, Listed, Distinct, Roots, Snapshot, Pointed, FrameRoots, Elems;
      ghost var was, all := objs, Elems(objs);
      RootsIn(Snapshot(all), all);
      ElemsIs(was);
      o := new Obj(b);
      assert GraphOf(all, Snapshot(all)) && TreeOk(all) && Listed(hp, was);
      o.link := hp;
      hp := o;
      objs := [o] + objs;
      ElemsCons(o, was);
      assert objs[1..] == was;
      MkKeeps(all, o);
      MkLists(o);
      RootsWithin(Elems(objs));
    }

    lemma MkLists(o: Obj)
      requires objs != [] && objs[0] == o && hp == o && Listed(o.link, objs[1..]) && Distinct(objs[1..])
               && o !in objs[1..]
      ensures Listed(hp, objs) && Distinct(objs)
    {
      forall i | 0 <= i < |objs|
        ensures objs[i].link == Succ(objs, i)
      {
        if i > 0 {
          assert objs[1..][i - 1].link == Succ(objs[1..], i - 1);
        }
      }
    }

    /** Take object j of the list cur out of it; prev is the one before. */
    method Unlink(prev: Obj?, h: Obj, ghost cur: seq<Obj>, ghost j: nat)
      requires Listed(hp, cur) && Distinct(cur) && j < |cur| && h == cur[j]
               && prev == (if j == 0 then null else cur[j - 1])
      modifies `hp, Elems(cur)`link
      ensures Listed(hp, cur[..j] + cur[j + 1..]) && Distinct(cur[..j] + cur[j + 1..])
    {
      ghost var rest := cur[..j] + cur[j + 1..];
      assert h.link == Succ(cur, j);
      if prev == null {
        hp := h.link;
      } else {
        assert prev in Elems(cur);
        prev.link := h.link;
      }
      forall k | 0 <= k < |rest|
        ensures rest[k].link == Succ(rest, k)
      {
        assert rest[k] == if k < j then cur[k] else cur[k + 1];
      }
    }

    /** Free what is neither marked nor pinned; returns how many were freed. */
    method Sweep(ghost g: Graph, ghost r: set<Obj>) returns (freed: nat)
      requires Valid(g) && forall o :: o in objs ==> (o.live || o.pinned <==> o in r)
      modifies `hp, `objs, Elems(objs)`link
      ensures objs == Keep(old(objs), r) && Listed(hp, objs) && Distinct(objs) && freed == |old(objs)| - |objs|
    {
      hide GraphOf, Roots, Keep, Elems, Listed, Distinct, Swept;
      ghost var was := objs;
      ghost var cur, i, j := objs, 0, 0;
      SweptNone(was, r);
      freed := 0;
      var prev: Obj? := null;
      while true
        invariant Listed(hp, cur) && Distinct(cur) && Swept(was, cur, i, j, r) && i <= |was| && j <= |cur|
        invariant prev == (if j == 0 then null else cur[j - 1]) && freed == |was| - |cur|
        decreases |was| - i
      {
        var h := if prev == null then hp else prev.link;
        ListAt(hp, cur, j);
        SweptAt(was, cur, i, j, r);
        if h == null {
          break;
        }
        if h.live || h.pinned {
          SweptKeep(was, cur, i, j, r);
          prev := h;
          j := j + 1;
        } else {
          SweptDrop(was, cur, i, j, r);
          Unlink(prev, h, cur, j);
          cur := cur[..j] + cur[j + 1..];
          freed := freed + 1;
        }
        i := i + 1;
      }
      objs := cur;
    }

    /** Mark everything reachable from the roots, and nothing else. */
    method MarkAll(ghost g: Graph)
      requires Valid(g)
      modifies Elems(objs)`live
      ensures GraphClosed(g) && Roots() <= g.Keys && Marked(Elems(objs)) == Reach(g, Roots())
    {
      hide GraphOf, Closed, Listed, Distinct, Roots, Grown, Marked, Reach, Elems, FrameRoots;
      ghost var all := Elems(objs);
      ValidGraph(all, g);
      ghost var r := Reach(g, Roots());
      ClearMarks(g);
      MarkPinned(g, r);
      ghost var m1 := Marked(all);
      MarkFrames(g, r);
      ghost var m2 := Marked(all);
      GrownTwice(g, {}, m1, m2, r);
      assert m1 <= m2;
      RootsIn(g, r);
      GcMark(amlroot, all, g, r);
      GrownTwice(g, {}, m2, Marked(all), r);
      MarkedIsReach(g, Marked(all));
    }

    lemma MarkedIsReach(g: Graph, m: set<Obj>)
      requires Valid(g) && GraphClosed(g) && Roots() <= g.Keys && Grown(g, {}, m, Reach(g, Roots()))
      requires forall o :: o in objs && o.pinned ==> o in m
      requires forall f, c: Obj :: f in frames && c in FrameRoots(f) ==> c in m
      requires amlroot != null ==> amlroot in m
      ensures m == Reach(g, Roots())
    {
      hide GraphOf, FrameRoots, Reach, Listed, Distinct;
      assert Roots() <= m;
      ReachLeast(g, Roots(), m);
    }

    /**
     Collect: the heap is left with exactly the objects reachable from pinned objects, the frames and
     the root, in their old order.
     */
    method Gc(ghost g: Graph) returns (freed: nat)
      requires Valid(g)
      modifies this, Elems(objs)
      ensures GraphClosed(g) && old(Roots()) <= g.Keys
      ensures objs == Keep(old(objs), Reach(g, old(Roots()))) && freed == |old(objs)| - |objs|
      ensures Valid(Restrict(g, Reach(g, old(Roots()))))
      ensures forall o :: o in objs ==> PointersIn(o.body, Elems(objs))
      ensures old(TreeOk(Elems(objs))) ==> forall o :: o in objs ==> NextIn(o.body, Elems(objs))
      ensures (forall f :: f in frames ==> FrameIn(f, Elems(objs))) && In(amlroot, Elems(objs))
      ensures forall o :: o in old(objs) && o.pinned ==> o in objs
      ensures frames == old(frames) && amlroot == old(amlroot)
      ensures forall o :: o in old(objs) ==> o.body == old(o.body) && o.pinned == old(o.pinned) && o.kids == old(o.kids)
    {
      hide GraphOf, Roots, Keep, Reach, Listed, Distinct, Marked;
      ghost var was, roots := objs, Roots();
      ValidGraph(Elems(was), g);
      MarkAll(g);
      ghost var r := Reach(g, roots);
      PinnedMarked(g, r);
      RootsIn(g, r);
      freed := Sweep(g, r);
      KeepElems(was, r);
      SurvivorsOk(Elems(was), g, r);
      RootsWithin(r);
      SurvivorPointers(Elems(was), g, r);
      FramesKept(r);
    }

    lemma FramesKept(r: set<Obj>)
      requires forall f, c: Obj :: f in frames && c in FrameRoots(f) ==> c in r
      ensures forall f :: f in frames ==> FrameIn(f, r)
    {
      forall f | f in frames
        ensures FrameIn(f, r)
      {
        FrameIs(f, r);
      }
    }

    /**
     What is left after a collection is needed: it is in every set that holds the roots and what its objects
     point to.
     */
    lemma NothingSpare(g: Graph, t: set<Obj>)
      requires Valid(g) && (forall o :: o in objs && o.pinned ==> o in t) && In(amlroot, t)
      requires (forall f :: f in frames ==> FrameIn(f, t)) && forall o :: o in objs && o in t ==> Followed(o, t)
      ensures GraphClosed(g) && Roots() <= g.Keys && Reach(g, Roots()) <= t
    {
      hide Reach, Listed, Distinct, FrameRoots, Followed, FrameIn;
      ValidGraph(Elems(objs), g);
      forall f, c: Obj | f in frames && c in FrameRoots(f)
        ensures c in t
      {
        FrameIs(f, t);
      }
      forall o | o in t && o in g
        ensures g[o] <= t
      {
        GraphAt(o, Elems(objs), g);
        FollowedPointed(o, t);
      }
      ReachLeast(g, Roots(), t);
    }

    lemma PinnedMarked(g: Graph, r: set<Obj>)
      requires Valid(g) && Marked(Elems(objs)) == r && Roots() <= r
      ensures forall o :: o in objs ==> (o.live || o.pinned <==> o in r)
    {
      hide GraphOf, Listed, Distinct;
      forall o | o in objs && o.pinned
        ensures o in r
      {
        assert o in Roots();
      }
    }

    lemma RootsWithin(r: set<Obj>)
      requires Elems(objs) == r
      requires forall f, c: Obj :: f in frames && c in FrameRoots(f) ==> c in r
      requires amlroot != null ==> amlroot in r
      ensures Roots() <= Elems(objs)
    {
      hide FrameRoots;
    }
  }

  ghost predicate GraphClosed(g: Graph)
  {
    forall o :: o in g ==> g[o] <= g.Keys
  }

  lemma ValidGraph(all: set<Obj>, g: Graph)
    requires GraphOf(all, g)
    ensures GraphClosed(g) && g.Keys == all
  {
  }

  /** In a heap in order every pointer of every object leads to an object of the heap. */
  lemma HeapPointers(all: set<Obj>, g: Graph, o: Obj)
    requires GraphOf(all, g) && o in all
    ensures PointersIn(o.body, all)
  {
    GraphAt(o, all, g);
    forall c: Obj | c in Out(o.body)
      ensures c in all
    {
      assert c in Pointed(o);
    }
    OutIs(o.body, all);
    if o.body.Name? && o.kids != [] {
      assert o.kids[0] in Pointed(o);
    }
  }

  /** The pointers followed are those of the fields. */
  lemma OutIs(b: Body, all: set<Obj>)
    requires b.Name? ==> In(b.down, all)
    ensures (forall c: Obj :: c in Out(b) ==> c in all) <==> PointersIn(b, all)
  {
    var s := Out(b);
    if forall c: Obj :: c in s ==> c in all {
      forall i | 0 <= i < |s|
        ensures In(s[i], all)
      {
        if s[i] != null {
          var c: Obj := s[i];
          assert c in s;
        }
      }
      OutFields(b, all);
    }
    if PointersIn(b, all) {
      OutFields(b, all);
    }
  }

  lemma OutFields(b: Body, all: set<Obj>)
    requires b.Name? ==> In(b.down, all)
    ensures AllIn(Out(b), all) <==> PointersIn(b, all)
  {
    var s := Out(b);
    match b
    case Env(loc, arg) =>
      assert forall i :: 0 <= i < |loc| ==> loc[i] == s[i];
      assert forall i :: 0 <= i < |arg| ==> arg[i] == s[|loc| + i];
    case Ref(r) =>
      assert s[0] == r;
    case Name(_, v, up, _, fork, _) =>
      assert s[0] == v && s[1] == fork && s[2] == up;
    case Package(elems) =>
    case Region(n) =>
      assert s[0] == n;
    case Method(n) =>
      assert s[0] == n;
    case Field(reg, bank, index) =>
      assert s[0] == reg && s[1] == bank && s[2] == index;
    case Data =>
  }

  /** Whatever a kept object makes the collector keep is in t. */
  ghost predicate Followed(o: Obj, t: set<Obj>)
    reads o`body, o`kids
  {
    if o.body.Name? then
      In(o.body.v, t) && In(o.body.up, t) && In(o.body.fork, t) && forall k :: k in o.kids ==> k in t
    else PointersIn(o.body, t)
  }

  lemma FollowedPointed(o: Obj, t: set<Obj>)
    requires Followed(o, t)
    ensures Pointed(o) <= t
  {
    if !o.body.Name? {
      OutIs(o.body, t);
    }
  }

  /** No survivor points to a freed object. */
  lemma SurvivorsOk(all: set<Obj>, g: Graph, r: set<Obj>)
    requires GraphOf(all, g) && Closed(g, r) && r <= all
    ensures GraphOf(r, Restrict(g, r))
  {
    forall o | o in r
      ensures ObjectOk(o, r, Restrict(g, r))
    {
      assert ObjectOk(o, all, g);
      if o.body.Name? {
        forall i | 0 <= i < |o.kids|
          ensures o.kids[i] in r
        {
          assert o.kids[i] in Pointed(o);
        }
      }
    }
  }

  lemma SurvivorPointers(all: set<Obj>, g: Graph, r: set<Obj>)
    requires GraphOf(all, g) && Closed(g, r) && r <= all && GraphOf(r, Restrict(g, r))
    ensures forall o :: o in r ==> PointersIn(o.body, r)
    ensures TreeOk(all) ==> forall o :: o in r ==> NextIn(o.body, r)
  {
    hide GraphOf, Closed, PointersIn, TreeOk;
    forall o | o in r
      ensures PointersIn(o.body, r)
    {
      HeapPointers(r, Restrict(g, r), o);
    }
    if TreeOk(all) {
      forall o | o in r && o.body.Name? && o.body.next != null
        ensures o.body.next in r
      {
        NextSurvives(all, g, r, o);
      }
    }
  }

  /** The part of the graph on r. */
  ghost function Restrict(g: Graph, r: set<Obj>): Graph
  {
    map o | o in g && o in r :: g[o]
  }

  /** The list cur when the first i objects of was have been dealt with and j of them kept. */
  ghost predicate Swept(was: seq<Obj>, cur: seq<Obj>, i: nat, j: nat, r: set<Obj>)
  {
    i <= |was| && cur == Keep(was[..i], r) + was[i..] && j == |Keep(was[..i], r)| && Elems(cur) <= Elems(was)
  }

  lemma SweptNone(was: seq<Obj>, r: set<Obj>)
    ensures Swept(was, was, 0, 0, r)
  {
    KeepNone(was, r);
  }

  lemma SweptAt(was: seq<Obj>, cur: seq<Obj>, i: nat, j: nat, r: set<Obj>)
    requires Swept(was, cur, i, j, r)
    ensures i < |was| ==> j < |cur| && cur[j] == was[i] && was[i] in was
    ensures i == |was| ==> j == |cur| && cur == Keep(was, r)
    ensures Elems(cur) <= Elems(was)
  {
    hide Keep;
    if i == |was| {
      assert was[..i] == was && was[i..] == [];
    }
  }

  lemma SweptKeep(was: seq<Obj>, cur: seq<Obj>, i: nat, j: nat, r: set<Obj>)
    requires Swept(was, cur, i, j, r) && i < |was| && was[i] in r
    ensures Swept(was, cur, i + 1, j + 1, r)
  {
    hide Keep;
    KeepNext(was, r, i);
    assert was[i..] == [was[i]] + was[i + 1..];
  }

  lemma SweptDrop(was: seq<Obj>, cur: seq<Obj>, i: nat, j: nat, r: set<Obj>)
    requires Swept(was, cur, i, j, r) && i < |was| && was[i] !in r
    ensures j < |cur| && Swept(was, cur[..j] + cur[j + 1..], i + 1, j, r)
  {
    hide Keep, Elems;
    KeepNext(was, r, i);
    ElemsLess(cur, j);
    assert was[i..] == [was[i]] + was[i + 1..];
    assert cur[..j] == Keep(was[..i], r) && cur[j + 1..] == was[i + 1..];
  }

  lemma KeepNone(s: seq<Obj>, r: set<Obj>)
    ensures Keep(s[..0], r) == [] && [] + s[0..] == s
  {
  }

  lemma ElemsLess(s: seq<Obj>, j: nat)
    requires j < |s|
    ensures Elems(s[..j] + s[j + 1..]) <= Elems(s)
  {
  }

  /** Where the link before position j leads. */
  lemma ListAt(h: Obj?, s: seq<Obj>, j: nat)
    requires Listed(h, s) && j <= |s|
    ensures (if j == 0 then h else s[j - 1].link) == if j < |s| then s[j] else null
  {
    if j > 0 {
      assert s[j - 1].link == Succ(s, j - 1);
    }
  }

  // ----- the namespace

  /**
   A name's children are different names that point up to it; a name that has a next sibling is among the
   children of the name above it.
   */
  ghost predicate TreeOk(all: set<Obj>)
    reads all`body, all`kids
  {
    forall o :: o in all && o.body.Name? ==> NameOk(o, all)
  }

  ghost predicate NameOk(o: Obj, all: set<Obj>)
    requires o.body.Name?
    reads o`body, o`kids, all`body, all`kids
  {
    && Distinct(o.kids) && (forall k :: k in o.kids ==> k in all && k.body.Name? && k.body.up == o && k != o)
    && (o.body.next != null ==> var u := o.body.up; u != null && u in all && u.body.Name? && o in u.kids)
  }

  /** The collector does not follow next, yet a survivor's next survives. */
  lemma NextSurvives(all: set<Obj>, g: Graph, r: set<Obj>, o: Obj)
    requires GraphOf(all, g) && TreeOk(all) && Closed(g, r) && r <= all
    requires o in r && o.body.Name? && o.body.next != null
    ensures o.body.next in r && o.body.up in r
  {
    assert NameOk(o, all);
    var u := o.body.up;
    assert ObjectOk(o, all, g) && ObjectOk(u, all, g);
    assert u in Out(o.body) && u in Pointed(o);
    var i :| 0 <= i < |u.kids| && u.kids[i] == o;
    assert o.body.next == Succ(u.kids, i);
    assert u.kids[i + 1] in Pointed(u);
  }

  lemma TreeSurvives(all: set<Obj>, g: Graph, r: set<Obj>)
    requires GraphOf(all, g) && TreeOk(all) && Closed(g, r) && r <= all
    ensures TreeOk(r)
  {
    hide GraphOf, Closed;
    forall o | o in r && o.body.Name?
      ensures NameOk(o, r)
    {
      assert NameOk(o, all);
      GraphAt(o, all, g);
      ClosedAt(o, g, r);
      forall k | k in o.kids
        ensures k in r
      {
        assert k in Pointed(o);
      }
      if o.body.next != null {
        NextSurvives(all, g, r, o);
      }
    }
  }

  ghost function Snapshot(all: set<Obj>): Graph
    reads all`body, all`kids
  {
    map o | o in all :: Pointed(o)
  }

  /** A new object without children leaves everything in order. */
  lemma MkKeeps(all: set<Obj>, o: Obj)
    requires o !in all && GraphOf(all, Snapshot(all)) && TreeOk(all) && o.kids == []
    requires (forall c: Obj :: c in Out(o.body) ==> c in all)
             && (o.body.Name? ==> o.body.next == null && o.body.down == null)
    ensures GraphOf(all + {o}, Snapshot(all + {o})) && TreeOk(all + {o})
  {
    var more := all + {o};
    forall x | x in more
      ensures ObjectOk(x, more, Snapshot(more)) && (x.body.Name? ==> NameOk(x, more))
    {
      if x in all {
        assert ObjectOk(x, all, Snapshot(all));
        assert x.body.Name? ==> NameOk(x, all);
      }
    }
  }

  // ----- the namespace on values

  type Bodies = map<Obj, Body>
  type Kids = map<Obj, seq<Obj>>

  ghost function BodiesOf(all: set<Obj>): Bodies
    reads all`body
  {
    map o | o in all :: o.body
  }

  ghost function KidsOf(all: set<Obj>): Kids
    reads all`kids
  {
    map o | o in all :: o.kids
  }

  /** What ObjectOk and NameOk say of one object. */
  ghost predicate OrderAt(b: Bodies, ks: Kids, o: Obj)
    requires o in b && b.Keys == ks.Keys
  {
    && (forall c: Obj :: c in Out(b[o]) ==> c in b)
    && (b[o].Name? ==>
          && Distinct(ks[o]) && b[o].down == (if ks[o] == [] then null else ks[o][0])
          && (forall i :: 0 <= i < |ks[o]| ==> ChildAt(b, ks[o], i, o))
          && (b[o].next != null ==> var u := b[o].up; u != null && u in b && b[u].Name? && o in ks[u]))
  }

  /** The i-th child of o. */
  ghost predicate ChildAt(b: Bodies, s: seq<Obj>, i: nat, o: Obj)
    requires i < |s|
  {
    s[i] in b && b[s[i]].Name? && b[s[i]].next == Succ(s, i) && b[s[i]].up == o && s[i] != o
  }

  ghost predicate Order(b: Bodies, ks: Kids)
  {
    b.Keys == ks.Keys && forall o :: o in b ==> OrderAt(b, ks, o)
  }

  lemma OrderIs(all: set<Obj>)
    ensures Order(BodiesOf(all), KidsOf(all)) <==> GraphOf(all, Snapshot(all)) && TreeOk(all)
  {
    forall o | o in all
      ensures OrderAt(BodiesOf(all), KidsOf(all), o) <==>
                && ObjectOk(o, all, Snapshot(all))
                && (o.body.Name? ==> NameOk(o, all))
    {
      OrderAtIs(all, o);
    }
  }

  lemma OrderAtIs(all: set<Obj>, o: Obj)
    requires o in all
    ensures OrderAt(BodiesOf(all), KidsOf(all), o) <==>
              && ObjectOk(o, all, Snapshot(all))
              && (o.body.Name? ==> NameOk(o, all))
  {
    var b, ks := BodiesOf(all), KidsOf(all);
    if OrderAt(b, ks, o) {
      forall k | k in o.kids && o.body.Name?
        ensures k in all && k.body.Name? && k.body.up == o && k != o
      {
        var i :| 0 <= i < |o.kids| && o.kids[i] == k;
        assert ChildAt(b, ks[o], i, o);
      }
      forall i | 0 <= i < |o.kids| && o.body.Name?
        ensures o.kids[i] in all && o.kids[i].body.Name? && o.kids[i].body.next == Succ(o.kids, i)
      {
        assert ChildAt(b, ks[o], i, o);
      }
    }
    if ObjectOk(o, all, Snapshot(all)) && (o.body.Name? ==> NameOk(o, all)) {
      forall c: Obj | c in Out(o.body)
        ensures c in all
      {
        assert c in Pointed(o);
      }
      forall i | 0 <= i < |o.kids| && o.body.Name?
        ensures ChildAt(b, ks[o], i, o)
      {
        assert o.kids[i] in o.kids;
      }
    }
  }

  /** n becomes the last child of dot, after l if there was one. */
  ghost function HungBodies(b: Bodies, dot: Obj, l: Obj?, n: Obj): Bodies
    requires dot in b && b[dot].Name? && (l != null ==> l in b && b[l].Name?)
  {
    if l == null then b[dot := b[dot].(down := n)] else b[l := b[l].(next := n)]
  }

  /** A name nobody has as a child, pointing up to dot, can be hung there. */
  lemma HangKeeps(b: Bodies, ks: Kids, dot: Obj, l: Obj?, n: Obj)
    requires Order(b, ks) && dot in b && n in b && b[dot].Name? && b[n].Name? && b[n].next == null && b[n].up == dot
             && n != dot
    requires n !in ks[dot] && l == if ks[dot] == [] then null else ks[dot][|ks[dot]| - 1]
    ensures (l != null ==> l in b && b[l].Name?) && Order(HungBodies(b, dot, l, n), ks[dot := ks[dot] + [n]])
  {
    assert OrderAt(b, ks, dot);
    if l != null {
      assert ChildAt(b, ks[dot], |ks[dot]| - 1, dot);
    }
    var b', ks' := HungBodies(b, dot, l, n), ks[dot := ks[dot] + [n]];
    forall o | o in b'
      ensures OrderAt(b', ks', o)
    {
      HangAt(b, ks, dot, l, n, o);
    }
  }

  lemma HangAt(b: Bodies, ks: Kids, dot: Obj, l: Obj?, n: Obj, o: Obj)
    requires Order(b, ks) && dot in b && n in b && b[dot].Name? && b[n].Name? && b[n].next == null && b[n].up == dot
             && n != dot
    requires n !in ks[dot] && l == (if ks[dot] == [] then null else ks[dot][|ks[dot]| - 1])
             && (l != null ==> l in b && b[l].Name?)
    requires o in b
    ensures OrderAt(HungBodies(b, dot, l, n), ks[dot := ks[dot] + [n]], o)
  {
    assert OrderAt(b, ks, dot) && OrderAt(b, ks, o);
    var b', ks' := HungBodies(b, dot, l, n), ks[dot := ks[dot] + [n]];
    if l != null {
      assert ChildAt(b, ks[dot], |ks[dot]| - 1, dot);
      assert l in ks[dot];
    }
    if b'[o].Name? {
      forall i | 0 <= i < |ks'[o]|
        ensures ChildAt(b', ks'[o], i, o)
      {
        if i < |ks[o]| {
          assert ChildAt(b, ks[o], i, o);
        }
      }
    }
  }
}
