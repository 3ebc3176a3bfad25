/** Growing the namespace: looking up or creating a segment, and forking a scope. */
module AmlNames {
  import opened AmlHeap

  /** Replacing the value of a name. */
  lemma ValueKeeps(b: Bodies, ks: Kids, n: Obj, v: Obj)
    requires Order(b, ks) && n in b && v in b && b[n].Name?
    ensures Order(b[n := b[n].(v := v)], ks)
  {
    var b' := b[n := b[n].(v := v)];
    forall o | o in b'
      ensures OrderAt(b', ks, o)
    {
      assert OrderAt(b, ks, o);
      if b'[o].Name? {
        forall i | 0 <= i < |ks[o]|
          ensures ChildAt(b', ks[o], i, o)
        {
          assert ChildAt(b, ks[o], i, o);
        }
      }
    }
  }

  /** The list and the roots are in order, whatever the objects hold. */
  ghost predicate Kept(it: Interp)
    reads it, Elems(it.objs)`link, Elems(it.objs)`pinned
  {
    Listed(it.hp, it.objs) && Distinct(it.objs) && it.Roots() <= Elems(it.objs)
  }

  lemma InOrderIs(it: Interp)
    ensures it.InOrder() <==> Kept(it) && Order(BodiesOf(Elems(it.objs)), KidsOf(Elems(it.objs)))
  {
    OrderIs(Elems(it.objs));
  }

  /** None of the children of d has this segment. */
  ghost predicate Lacks(d: Obj, seg: string)
    reads d, d.kids
  {
    forall k :: k in d.kids ==> k.body.Name? && k.body.seg != seg
  }

  /** The first child of d with this segment. */
  ghost predicate FirstWith(d: Obj, seg: string, n: Obj)
    reads d, d.kids
  {
    exists i :: HasAt(d, seg, n, i)
  }

  ghost predicate HasAt(d: Obj, seg: string, n: Obj, i: nat)
    reads d, d.kids
  {
    && i < |d.kids| && n == d.kids[i] && n.body.Name? && n.body.seg == seg
    && forall k :: 0 <= k < i ==> d.kids[k].body.Name? && d.kids[k].body.seg != seg
  }

  /** Look for a segment among the children of d; l is the last one looked at. */
  method Search(it: Interp, d: Obj, seg: string) returns (n: Obj?, l: Obj?)
    requires it.InOrder() && d in it.objs && d.body.Name?
    ensures n != null ==> FirstWith(d, seg, n)
    ensures n == null ==> l == (if d.kids == [] then null else d.kids[|d.kids| - 1])
    ensures n == null ==> Lacks(d, seg)
  {
    hide Interp.InOrder;
    ChildOf(it, d, 0);
    n, l := d.body.down, null;
    ghost var i := 0;
    while n != null
      invariant i <= |d.kids| && n == (if i < |d.kids| then d.kids[i] else null)
      invariant l == (if i == 0 then null else d.kids[i - 1]) && it.InOrder()
      invariant forall k :: 0 <= k < i ==> d.kids[k].body.Name? && d.kids[k].body.seg != seg
      decreases |d.kids| - i
    {
      ChildOf(it, d, i);
      if n.body.seg == seg {
        assert HasAt(d, seg, n, i);
        return;
      }
      l := n;
      n := n.body.next;
      i := i + 1;
    }
  }

  lemma ChildOf(it: Interp, d: Obj, i: nat)
    requires it.InOrder() && d in it.objs && d.body.Name?
    ensures d.body.down == if d.kids == [] then null else d.kids[0]
    ensures i < |d.kids| ==>
              && d.kids[i] in it.objs && d.kids[i].body.Name?
              && d.kids[i].body.next == if i + 1 < |d.kids| then d.kids[i + 1] else null
    ensures i < |d.kids| ==> d.kids[i] != d
  {
    hide Listed, Interp.Roots;
    assert ObjectOk(d, Elems(it.objs), Snapshot(Elems(it.objs))) && NameOk(d, Elems(it.objs));
    if i < |d.kids| {
      assert d.kids[i] in d.kids;
      assert d.kids[i].body.next == Succ(d.kids, i);
    }
  }

  /** Create a child of d after its last child l. */
  method NewChild(it: Interp, d: Obj, l: Obj?, seg: string) returns (n: Obj)
    requires it.InOrder() && d in it.objs && d.body.Name? && l == (if d.kids == [] then null else d.kids[|d.kids| - 1])
    modifies it, Elems(it.objs)
    ensures it.InOrder() && fresh(n) && it.objs == [n] + old(it.objs)
    ensures n.body == Name(seg, n, d, null, null, null) && d.kids == old(d.kids) + [n]
    ensures forall o :: o in old(it.objs) && o != d ==> o.kids == old(o.kids) && (o != l ==> o.body == old(o.body))
  {
    hide Interp.InOrder;
    n := it.Mk(Name(seg, null, d, null, null, null));
    assert n !in d.kids;
    SetValue(it, n);
    Hang(it, d, l, n);
  }

  method SetValue(it: Interp, n: Obj)
    requires it.InOrder() && n in it.objs && n.body.Name?
    modifies n`body
    ensures it.InOrder() && n.body == old(n.body).(v := n)
  {
    hide Interp.InOrder, Order, BodiesOf, KidsOf, Kept;
    ghost var all := Elems(it.objs);
    InOrderIs(it);
    ghost var b, ks := BodiesOf(all), KidsOf(all);
    Present(it, all);
    assert n in all;
    ValueKeeps(b, ks, n, n);
    n.body := n.body.(v := n);
    BodiesAre(all, b[n := b[n].(v := n)], ks);
    InOrderIs(it);
  }

  /** The ghost side of hanging n under d: what the heap must look like. */
  lemma HangPlan(it: Interp, d: Obj, l: Obj?, n: Obj)
    requires it.InOrder() && d in it.objs && d.body.Name? && l == (if d.kids == [] then null else d.kids[|d.kids| - 1])
    requires n in it.objs && n.body.Name? && n.body.next == null && n.body.up == d && n != d && n !in d.kids
    ensures var all := Elems(it.objs);
            var b, ks := BodiesOf(all), KidsOf(all);
            && b.Keys == ks.Keys == all && d in all && n in all && b[d] == d.body && ks[d] == d.kids && b[d].Name?
            && (l != null ==> l in all && b[l] == l.body && b[l].Name? && l != d && l != n)
            && Order(HungBodies(b, d, l, n), ks[d := ks[d] + [n]]) && Kept(it)
  {
    hide Interp.InOrder, Order, BodiesOf, KidsOf, Kept, HungBodies;
    var all := Elems(it.objs);
    if l != null {
      ChildOf(it, d, |d.kids| - 1);
    }
    InOrderIs(it);
    Present(it, all);
    HangKeeps(BodiesOf(all), KidsOf(all), d, l, n);
  }

  method Hang(it: Interp, d: Obj, l: Obj?, n: Obj)
    requires it.InOrder() && d in it.objs && d.body.Name? && l == (if d.kids == [] then null else d.kids[|d.kids| - 1])
    requires n in it.objs && n.body.Name? && n.body.next == null && n.body.up == d && n != d && n !in d.kids
    modifies Elems(it.objs)`body, d`kids
    ensures it.InOrder() && d.kids == old(d.kids) + [n] && n.body == old(n.body)
    ensures forall o :: o in it.objs && o != d && o != l ==> o.body == old(o.body)
  {
    hide Interp.InOrder, Order, BodiesOf, KidsOf, Kept, HungBodies;
    ghost var all := Elems(it.objs);
    HangPlan(it, d, l, n);
    ghost var b, ks := BodiesOf(all), KidsOf(all);
    Present(it, all);
    HungIs(b, d, l, n);
    ghost var b', ks' := HungBodies(b, d, l, n), ks[d := ks[d] + [n]];
    if l == null {
      d.body := d.body.(down := n);
    } else {
      l.body := l.body.(next := n);
    }
    d.kids := d.kids + [n];
    BodiesAre(all, b', ks');
    InOrderIs(it);
  }

  lemma Present(it: Interp, all: set<Obj>)
    requires all == Elems(it.objs)
    ensures BodiesOf(all).Keys == KidsOf(all).Keys == all
    ensures forall o :: o in all ==> BodiesOf(all)[o] == o.body && KidsOf(all)[o] == o.kids
  {
  }

  lemma HungIs(b: Bodies, d: Obj, l: Obj?, n: Obj)
    requires d in b && b[d].Name? && (l != null ==> l in b && b[l].Name?)
    ensures HungBodies(b, d, l, n).Keys == b.Keys
    ensures forall o :: o in b ==>
                          HungBodies(b, d, l, n)[o] == if l == null then if o == d then b[d].(down := n) else b[o]
                                                       else if o == l then b[l].(next := n) else b[o]
  {
  }

  lemma BodiesAre(all: set<Obj>, b: Bodies, ks: Kids)
    requires b.Keys == ks.Keys == all && forall o :: o in all ==> o.body == b[o] && o.kids == ks[o]
    ensures BodiesOf(all) == b && KidsOf(all) == ks
  {
  }

  // ----- looking up a segment

  /** The scopes to be searched: dot, what it was forked from, and so on. */
  ghost predicate Forks(it: Interp, dot: Obj?, forks: seq<Obj>)
    reads it, Elems(it.objs)`body
  {
    && dot == (if forks == [] then null else forks[0])
    && forall i :: 0 <= i < |forks| ==>
      && forks[i] in Elems(it.objs) && forks[i].body.Name?
      && forks[i].body.fork == Succ(forks, i)
  }

  /** Find the first child with a segment of the first scope that has one. */
  method FindSeg(it: Interp, dot: Obj?, seg: string, ghost forks: seq<Obj>) returns (n: Obj?)
    requires it.InOrder() && Forks(it, dot, forks)
    ensures n != null ==>
              exists i :: 0 <= i < |forks| && FirstWith(forks[i], seg, n) && forall j :: 0 <= j < i ==>
                Lacks(forks[j], seg)
    ensures n == null ==> forall i :: 0 <= i < |forks| ==> Lacks(forks[i], seg)
  {
    hide Interp.InOrder, Lacks;
    var d := dot;
    ghost var i := 0;
    n := null;
    while d != null
      invariant i <= |forks| && d == (if i < |forks| then forks[i] else null) && n == null && it.InOrder()
      invariant forall j :: 0 <= j < i ==> Lacks(forks[j], seg)
      decreases |forks| - i
    {
      assert forks[i].body.fork == Succ(forks, i);
      var l;
      n, l := Search(it, d, seg);
      if n != null {
        assert FirstWith(forks[i], seg, n);
        return;
      }
      d := d.body.fork;
      i := i + 1;
    }
  }

  /** Everything is as it was, except that the scope and its last child may link to a new one. */
  twostate predicate OnlyLinks(objs: seq<Obj>, dot: Obj)
    reads Elems(objs)
  {
    forall o :: o in objs && o != dot ==>
      && o.kids == old(o.kids)
      && (o.body == old(o.body) || (old(dot.kids) != [] && o == old(dot.kids)[|old(dot.kids)| - 1]))
  }

  /**
   getseg: the segment; with new set it is made as the last child of the scope itself if it is not there, and
   then nothing else changes.
   */
  method GetSeg(it: Interp, dot: Obj?, seg: string, make: bool, ghost forks: seq<Obj>) returns (n: Obj?)
    requires it.InOrder() && Forks(it, dot, forks)
    modifies it, Elems(it.objs)
    ensures it.InOrder() && (n != null ==> n.body.Name? && n.body.seg == seg)
    ensures !make || dot == null || !old(Lacks(dot, seg)) ==>
              it.objs == old(it.objs) && forall o :: o in it.objs ==> o.body == old(o.body) && o.kids == old(o.kids)
    ensures !make && n != null ==>
              exists i :: 0 <= i < |forks| && FirstWith(forks[i], seg, n) && forall j :: 0 <= j < i ==>
                Lacks(forks[j], seg)
    ensures !make && n == null ==> forall i :: 0 <= i < |forks| ==> Lacks(forks[i], seg)
    ensures make && dot != null && !old(Lacks(dot, seg)) ==> n != null && FirstWith(dot, seg, n)
    ensures make && dot != null && old(Lacks(dot, seg)) ==>
              && n != null && fresh(n) && n.body == Name(seg, n, dot, null, null, null)
                && dot.kids == old(dot.kids) + [n] && it.objs == [n] + old(it.objs)
              && OnlyLinks(old(it.objs), dot)
  {
    hide Interp.InOrder;
    if !make || dot == null {
      n := FindSeg(it, dot, seg, forks);
      return;
    }
    var l;
    n, l := Search(it, dot, seg);
    if n == null {
      n := NewChild(it, dot, l, seg);
    }
  }

  // ----- forking

  /** A name that is nobody's child can be given another place: itself, or a name without children. */
  lemma PlaceKeeps(b: Bodies, ks: Kids, n: Obj, f: Obj)
    requires Order(b, ks) && n in b && f in b && b[n].Name? && b[f].Name? && b[n].next == null
             && (forall o :: o in ks ==> n !in ks[o])
    requires f != n ==> ks[f] == []
    ensures f == n ==> Order(b[n := b[n].(up := n)], ks)
    ensures f != n ==> Order(b[n := b[n].(up := f)][f := b[f].(down := n)], ks[f := [n]])
  {
    var b' := if f == n then b[n := b[n].(up := n)] else b[n := b[n].(up := f)][f := b[f].(down := n)];
    var ks' := if f == n then ks else ks[f := [n]];
    forall o | o in b'
      ensures OrderAt(b', ks', o)
    {
      assert OrderAt(b, ks, o) && OrderAt(b, ks, f);
      if b'[o].Name? {
        forall i | 0 <= i < |ks'[o]|
          ensures ChildAt(b', ks'[o], i, o)
        {
          if ks'[o] == ks[o] {
            assert ChildAt(b, ks[o], i, o);
            assert ks[o][i] in ks[o];
          }
        }
      }
    }
  }

  ghost function Above(ups: seq<Obj>, i: nat): Obj
    requires i < |ups|
  {
    if i + 1 < |ups| then ups[i + 1] else ups[i]
  }

  /** The scopes from dot up to the root. */
  ghost predicate Ups(all: set<Obj>, dot: Obj, ups: seq<Obj>)
    reads all`body
  {
    && ups != [] && ups[0] == dot
    && (forall i :: 0 <= i < |ups| ==> ups[i] in all && ups[i].body.Name? && ups[i].body.up == Above(ups, i))
    && (forall i :: 0 <= i < |ups| - 1 ==> ups[i].body.up != ups[i])
  }

  lemma UpsTail(all: set<Obj>, more: set<Obj>, dot: Obj, ups: seq<Obj>)
    requires Ups(all, dot, ups) && all <= more && dot.body.Name?
    ensures dot.body.up == dot <==> |ups| == 1
    ensures |ups| > 1 ==> Ups(more, ups[1], ups[1..]) && dot.body.up == ups[1]
  {
    assert ups[0].body.up == Above(ups, 0);
    if |ups| > 1 {
      forall i | 0 <= i < |ups| - 1
        ensures ups[1..][i] in more && ups[1..][i].body.Name?
        ensures ups[1..][i].body.up == Above(ups[1..], i)
        ensures i < |ups| - 2 ==> ups[1..][i].body.up != ups[1..][i]
      {
        assert ups[1..][i] == ups[i + 1] && ups[i + 1].body.up == Above(ups, i + 1);
      }
    }
  }

  /** Give a name that is nobody's child its place: itself as a root, or the only child of f. */
  method Place(it: Interp, n: Obj, f: Obj)
    requires it.InOrder() && n in it.objs && f in it.objs && n.body.Name? && f.body.Name? && n.body.next == null
    requires (forall o :: o in it.objs ==> n !in o.kids) && (f != n ==> f.kids == [])
    modifies n`body, f`body, f`kids
    ensures it.InOrder() && n.body == old(n.body).(up := f)
            && (f != n ==> f.body == old(f.body).(down := n) && f.kids == [n]) && (f == n ==> n.kids == old(n.kids))
  {
    hide Interp.InOrder, Order, BodiesOf, KidsOf, Kept;
    ghost var all := Elems(it.objs);
    InOrderIs(it);
    ghost var b, ks := BodiesOf(all), KidsOf(all);
    Present(it, all);
    assert n in all && f in all;
    PlaceKeeps(b, ks, n, f);
    n.body := n.body.(up := f);
    if f != n {
      f.body := f.body.(down := n);
      f.kids := [n];
      BodiesAre(all, b[n := b[n].(up := f)][f := b[f].(down := n)], ks[f := [n]]);
    } else {
      BodiesAre(all, b[n := b[n].(up := n)], ks);
    }
    InOrderIs(it);
  }

  /** A copy of a name, with the original as its fork and without a place of its own. */
  method CopyName(it: Interp, dot: Obj) returns (n: Obj)
    requires it.InOrder() && dot in it.objs && dot.body.Name?
    modifies it
    ensures it.InOrder() && fresh(n) && it.objs == [n] + old(it.objs) && it.frames == old(it.frames)
            && it.amlroot == old(it.amlroot)
    ensures n.body == dot.body.(fork := dot, next := null, down := null,
            v := if dot.body.v == dot then n else dot.body.v) && n.kids == []
  {
    hide Interp.InOrder;
    NamePointers(it, dot);
    n := it.Mk(dot.body.(fork := dot, next := null, down := null));
    if dot.body.v == dot {
      SetValue(it, n);
    }
  }

  /** The copy of ups[i]: same segment and value, the original as its fork, and the next copy above it. */
  ghost predicate CopyAt(copies: seq<Obj>, ups: seq<Obj>, i: nat)
    requires i < |copies| == |ups|
    reads copies, ups
  {
    var c, u := copies[i], ups[i];
    && c.body.Name? && u.body.Name? && c.body.seg == u.body.seg && c.body.fork == u && c.body.next == null
    && c.body.v == (if u.body.v == u then c else u.body.v) && c.body.up == Above(copies, i)
    && c.kids == if i == 0 then [] else [copies[i - 1]]
  }

  /**
   A copy of a scope, and of all scopes above it, in which new names can be made without touching the
   originals; the copies point up to each other as the originals do.
   */
  method ForkName(it: Interp, dot: Obj, ghost ups: seq<Obj>) returns (n: Obj, ghost copies: seq<Obj>)
    requires it.InOrder() && Ups(Elems(it.objs), dot, ups)
    modifies it
    ensures it.InOrder() && it.frames == old(it.frames) && it.amlroot == old(it.amlroot)
    ensures |copies| == |ups| && n == copies[0] && (forall c :: c in copies ==> fresh(c))
    ensures |it.objs| == |old(it.objs)| + |ups| && it.objs[|ups|..] == old(it.objs)
    ensures forall i :: 0 <= i < |ups| ==> it.objs[i] == copies[|ups| - 1 - i]
    ensures forall i :: 0 <= i < |ups| ==> CopyAt(copies, ups, i)
    decreases |ups|
  {
    hide Interp.InOrder, Ups, CopyAt, Distinct, Above, Elems;
    ghost var was := it.objs;
    n := CopyFirst(it, dot, ups);
    var f := n;
    ghost var above := [];
    if dot.body.up != dot {
      f, above := ForkName(it, dot.body.up, ups[1..]);
      assert f in above;
    }
    copies := [n] + above;
    JoinCopies(it, n, f, above, ups, was);
  }

  /** Copy the first scope; the scopes above it are still there to be copied. */
  method CopyFirst(it: Interp, dot: Obj, ghost ups: seq<Obj>) returns (n: Obj)
    requires it.InOrder() && Ups(Elems(it.objs), dot, ups)
    modifies it
    ensures it.InOrder() && fresh(n) && it.objs == [n] + old(it.objs) && it.frames == old(it.frames)
            && it.amlroot == old(it.amlroot)
    ensures |ups| > 0 && dot == ups[0] && dot.body.Name? && (dot.body.up == dot <==> |ups| == 1) && n !in ups
            && dot !in [n]
    ensures n.body == dot.body.(fork := dot, next := null, down := null,
            v := if dot.body.v == dot then n else dot.body.v) && n.kids == []
    ensures forall u :: u in ups ==> u in old(it.objs) && u.body == old(u.body)
    ensures |ups| > 1 ==> dot.body.up == ups[1] && Ups(Elems(it.objs), ups[1], ups[1..])
  {
    hide Interp.InOrder, Ups, Above;
    ghost var all := Elems(it.objs);
    UpsFirst(it, dot, ups);
    n := CopyName(it, dot);
    UpsTail(all, Elems(it.objs), dot, ups);
  }

  /** Put the first copy below the others. */
  method JoinCopies(it: Interp, n: Obj, f: Obj, ghost above: seq<Obj>, ghost ups: seq<Obj>, ghost was: seq<Obj>)
    requires it.InOrder() && |ups| == |above| + 1 && |it.objs| == |above| + 1 + |was| && it.objs[|above|..] == [n] + was
    requires (forall i :: 0 <= i < |above| ==> it.objs[i] == above[|above| - 1 - i])
             && f == (if above == [] then n else above[0])
    requires (forall i :: 0 <= i < |above| ==> CopyAt(above, ups[1..], i)) && n !in above && n.kids == []
    requires (forall o :: o in was ==> n !in o.kids) && n !in ups && f !in ups && ups[0].body.Name? && n.body.Name?
             && n.body.next == null
    requires n.body.seg == ups[0].body.seg && n.body.fork == ups[0]
    requires n.body.v == if ups[0].body.v == ups[0] then n else ups[0].body.v
    modifies n`body, f`body, f`kids
    ensures it.InOrder() && forall i :: 0 <= i < |ups| ==> CopyAt([n] + above, ups, i)
  {
    hide Interp.InOrder, CopyAt, Distinct;
    ghost var k := |above|;
    CopiesKids(above, ups[1..], n);
    NobodysChild(it.objs, k, was, n);
    AllDifferent(it);
    assert it.objs[k] == it.objs[k..][0] == n;
    CopiesDiffer(it.objs, k, n, above);
    assert k > 0 ==> it.objs[k - 1] == f;
    Settle(it, n, f, above, ups, k);
  }

  lemma AllDifferent(it: Interp)
    requires it.InOrder()
    ensures Distinct(it.objs)
  {
  }

  lemma CopiesDiffer(objs: seq<Obj>, k: nat, n: Obj, above: seq<Obj>)
    requires k < |objs| && |above| == k && objs[k] == n && Distinct(objs) && forall i :: 0 <= i < k ==>
             objs[i] == above[k - 1 - i]
    ensures Distinct([n] + above)
  {
    var c := [n] + above;
    forall i, j | 0 <= i < j < |c|
      ensures c[i] != c[j]
    {
      assert c[i] == objs[k - i] && c[j] == objs[k - j];
    }
  }

  lemma CopiesKids(above: seq<Obj>, ups: seq<Obj>, n: Obj)
    requires |above| == |ups| && n !in above && forall i :: 0 <= i < |ups| ==> CopyAt(above, ups, i)
    ensures forall i :: 0 <= i < |ups| ==> n !in above[i].kids
    ensures above != [] ==> above[0].body.Name? && above[0].kids == []
  {
    assert above != [] ==> CopyAt(above, ups, 0);
    forall i | 0 <= i < |ups|
      ensures n !in above[i].kids
    {
      assert CopyAt(above, ups, i);
    }
  }

  /** Put the copy n of the first scope below f, the copy of the next, or make it a root. */
  method Settle(it: Interp, n: Obj, f: Obj, ghost above: seq<Obj>, ghost ups: seq<Obj>, ghost k: nat)
    requires it.InOrder() && n in it.objs && f in it.objs && n.body.Name? && f.body.Name? && n.body.next == null
    requires (forall o :: o in it.objs ==> n !in o.kids) && n.kids == [] && k == |above| && |ups| == k + 1 && n !in ups
             && f !in ups
    requires f == (if k == 0 then n else above[0]) && Distinct([n] + above) && forall i :: 0 <= i < k ==>
             CopyAt(above, ups[1..], i)
    requires ups[0].body.Name? && n.body.seg == ups[0].body.seg && n.body.fork == ups[0]
    requires n.body.v == if ups[0].body.v == ups[0] then n else ups[0].body.v
    modifies n`body, f`body, f`kids
    ensures it.InOrder() && forall i :: 0 <= i < |ups| ==> CopyAt([n] + above, ups, i)
  {
    hide Interp.InOrder;
    ghost var copies := [n] + above;
    if k > 0 {
      assert CopyAt(above, ups[1..], 0);
    }
    Place(it, n, f);
    forall i | 0 <= i < |ups|
      ensures CopyAt(copies, ups, i)
    {
      if i > 0 {
        assert copies[i] == above[i - 1] && ups[i] == ups[1..][i - 1];
        assert old(CopyAt(above, ups[1..], i - 1));
        assert i > 1 ==> copies[i] != copies[0] && copies[i] != copies[1];
      }
    }
  }

  /** The new names' children are new, the old names' children are old, and n was made in between. */
  lemma NobodysChild(objs: seq<Obj>, k: nat, was: seq<Obj>, n: Obj)
    requires k < |objs| && objs[k..] == [n] + was && n.kids == []
    requires (forall i :: 0 <= i < k ==> n !in objs[i].kids) && (forall o :: o in was ==> n !in o.kids)
    ensures n in objs && forall o :: o in objs ==> n !in o.kids
  {
    assert objs[k..][0] == n;
    forall o | o in objs
      ensures n !in o.kids
    {
      var i :| 0 <= i < |objs| && objs[i] == o;
      if i > k {
        assert o == objs[k..][i - k] == was[i - k - 1];
      }
    }
  }

  lemma UpsFirst(it: Interp, dot: Obj, ups: seq<Obj>)
    requires Ups(Elems(it.objs), dot, ups)
    ensures dot in it.objs && dot.body.Name? && |ups| >= 1 && ups[0] == dot && forall u :: u in ups ==>
            u in Elems(it.objs)
  {
  }

  lemma NamePointers(it: Interp, dot: Obj)
    requires it.InOrder() && dot in it.objs && dot.body.Name?
    ensures forall c: Obj :: c in Out(dot.body.(fork := dot, next := null, down := null)) ==> c in it.objs
  {
    hide Listed, Interp.Roots;
    assert ObjectOk(dot, Elems(it.objs), Snapshot(Elems(it.objs)));
    forall c: Obj | c in Out(dot.body)
      ensures c in it.objs
    {
      assert c in Pointed(dot);
    }
    assert dot.body.v in Out(dot.body) && dot.body.up in Out(dot.body);
  }

  // ----- collecting

  /** A collection leaves the namespace in order: no survivor's link, next included, leads to a freed object. */
  method Collect(it: Interp) returns (freed: nat)
    requires it.InOrder()
    modifies it, Elems(it.objs)
    ensures it.InOrder() && it.frames == old(it.frames) && it.amlroot == old(it.amlroot)
    ensures forall o :: o in it.objs ==> o in old(it.objs) && o.body == old(o.body)
    ensures freed + |it.objs| == |old(it.objs)|
  {
    hide GraphOf, Closed, Reach, Keep, Listed, Distinct, Interp.Roots;
    ghost var was, all := it.objs, Elems(it.objs);
    ghost var g := Snapshot(all);
    ghost var roots := it.Roots();
    OrderIs(all);
    freed := it.Gc(g);
    ghost var r := Reach(g, roots);
    KeepElems(was, r);
    OrderKept(all, g, r);
    assert Elems(it.objs) == r;
    forall o | o in it.objs
      ensures o in was
    {
      assert o in Elems(it.objs);
    }
  }

  lemma OrderKept(all: set<Obj>, g: Graph, r: set<Obj>)
    requires g == Snapshot(all) && GraphOf(all, g) && TreeOk(all) && Closed(g, r) && r <= all
    ensures TreeOk(r) && Restrict(g, r) == Snapshot(r)
  {
    hide GraphOf, TreeOk, Closed;
    TreeSurvives(all, g, r);
  }
}
