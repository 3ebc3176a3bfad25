/**
 Readers and writers: an RWlock is two queueing locks, a spin lock and a count of readers.

 Every reachable state of any number of processes is considered; a process is at one
 atomic step of rlock, canrlock, runlock, wlock or wunlock, or between calls.
 */
module RWLock {
  import opened QLock

  datatype Pc =
    | Idle | Reading | Writing
    | RLockX(c: Stage) | CanX(c: Stage) | RLockL | RLockInc | RLockK(c: Stage) | RLockUnl | RLockQ(c: Stage)
    | RUnL | RUnDec | RUnK(c: Stage) | RUnUnl
    | WLockX(c: Stage) | WLockK(c: Stage) | WUnK(c: Stage) | WUnX(c: Stage)

  datatype State = State(l: bool, readers: int, x: Lock, k: Lock, ready: set<Pid>, pc: seq<Pc>)

  predicate CallsX(pc: Pc)
  {
    pc.RLockX? || pc.CanX? || pc.RLockQ? || pc.WLockX? || pc.WUnX?
  }

  predicate CallsK(pc: Pc)
  {
    pc.RLockK? || pc.RUnK? || pc.WLockK? || pc.WUnK?
  }

  function X(pc: Pc): Stage
  {
    if CallsX(pc) then pc.c else Away
  }

  function K(pc: Pc): Stage
  {
    if CallsK(pc) then pc.c else Away
  }

  /** What follows a call of one of the queueing locks; only canrlock looks at what canqlock returns. */
  function Return(pc: Pc, owner: bool): Pc
    requires CallsX(pc) || CallsK(pc)
  {
    match pc
    case RLockX(_) => RLockL
    case CanX(_) => if owner then RLockL else Idle
    case RLockK(_) => RLockUnl
    case RLockQ(_) => Reading
    case RUnK(_) => RUnUnl
    case WLockX(_) => WLockK(LockEnter)
    case WLockK(_) => Writing
    case WUnK(_) => WUnX(UnlockEnter)
    case WUnX(_) => Idle
  }

  function Next(pc: Pc, out: Outcome): Pc
    requires CallsX(pc) || CallsK(pc)
  {
    match out
    case Go(c) => pc.(c := c)
    case Done(owner) => Return(pc, owner)
  }

  ghost predicate Init(s: State)
  {
    !s.l && s.readers == 0 && s.x == Fresh() && s.k == Fresh() && s.ready == {} && forall p :: 0 <= p < |s.pc| ==>
      s.pc[p].Idle?
  }

  /** Process p takes a step. */
  ghost predicate Step(s: State, p: Pid, s': State)
  {
    p < |s.pc| &&
    var pc := s.pc[p];
    if CallsX(pc) then
      var r := Act(s.x, s.ready, p, pc.c);
      r.Did? && s' == s.(x := r.q, ready := r.ready, pc := s.pc[p := Next(pc, r.out)])
    else if CallsK(pc) then
      var r := Act(s.k, s.ready, p, pc.c);
      r.Did? && s' == s.(k := r.q, ready := r.ready, pc := s.pc[p := Next(pc, r.out)])
    else PlainStep(s, p, s')
  }

  /** Steps outside the queueing locks. */
  ghost predicate PlainStep(s: State, p: Pid, s': State)
    requires p < |s.pc| && !CallsX(s.pc[p]) && !CallsK(s.pc[p])
  {
    match s.pc[p]
    case Idle =>
      || s' == s.(pc := s.pc[p := RLockX(LockEnter)])
      || s' == s.(pc := s.pc[p := CanX(TryEnter)])
      || s' == s.(pc := s.pc[p := WLockX(LockEnter)])
    case Reading => s' == s.(pc := s.pc[p := RUnL])
    case Writing => s' == s.(pc := s.pc[p := WUnK(UnlockEnter)])
    case RLockL => !s.l && s' == s.(l := true, pc := s.pc[p := RLockInc])
    case RLockInc => s' == s.(readers := s.readers + 1, pc := s.pc[p := RLockK(TryEnter)])
    case RLockUnl => s' == s.(l := false, pc := s.pc[p := RLockQ(UnlockEnter)])
    case RUnL => !s.l && s' == s.(l := true, pc := s.pc[p := RUnDec])
    case RUnDec => s' == s.(readers := s.readers - 1,
      pc := s.pc[p := if s.readers - 1 == 0 then RUnK(UnlockEnter) else RUnUnl])
    case RUnUnl => s' == s.(l := false, pc := s.pc[p := Idle])
  }

  // ----- the invariant

  /** Owns x outside the calls of x. */
  predicate HoldsX(pc: Pc)
  {
    pc.RLockL? || pc.RLockInc? || pc.RLockK? || pc.RLockUnl? || pc.WLockK? || pc.Writing? || pc.WUnK?
  }

  predicate HoldsL(pc: Pc)
  {
    pc.RLockInc? || pc.RLockK? || pc.RLockUnl? || pc.RUnDec? || pc.RUnK? || pc.RUnUnl?
  }

  /** Counted in readers. */
  predicate IsReader(pc: Pc)
  {
    pc.RLockK? || pc.RLockUnl? || pc.RLockQ? || pc.Reading? || pc.RUnL? || pc.RUnDec?
  }

  predicate IsWriter(pc: Pc)
  {
    pc.Writing?
  }

  /** A reader whose canqlock of k has not failed and not returned. */
  predicate Trying(pc: Pc)
  {
    pc.RLockK? && (pc.c.TryEnter? || pc.c.TryInside? || pc.c == TryLeave(true))
  }

  predicate LockStage(c: Stage)
  {
    c.LockEnter? || c.LockInside? || c.LockLeave? || c.LockQueued? || c.Asleep?
  }

  predicate TryStage(c: Stage)
  {
    c.TryEnter? || c.TryInside? || c.TryLeave?
  }

  predicate UnlockStage(c: Stage)
  {
    c.UnlockEnter? || c.UnlockInside? || c.UnlockLeave? || c.UnlockLeaveTo? || c.Waking?
  }

  predicate Formed(pc: Pc)
  {
    match pc
    case RLockX(c) => LockStage(c)
    case WLockX(c) => LockStage(c)
    case WLockK(c) => LockStage(c)
    case CanX(c) => TryStage(c)
    case RLockK(c) => TryStage(c)
    case RLockQ(c) => UnlockStage(c)
    case RUnK(c) => UnlockStage(c)
    case WUnK(c) => UnlockStage(c)
    case WUnX(c) => UnlockStage(c)
    case _ => true
  }

  function Xs(pc: seq<Pc>): (st: seq<Stage>)
    ensures |st| == |pc| && forall i :: 0 <= i < |pc| ==> st[i] == X(pc[i])
  {
    seq(|pc|, i requires 0 <= i < |pc| => X(pc[i]))
  }

  function Ks(pc: seq<Pc>): (st: seq<Stage>)
    ensures |st| == |pc| && forall i :: 0 <= i < |pc| ==> st[i] == K(pc[i])
  {
    seq(|pc|, i requires 0 <= i < |pc| => K(pc[i]))
  }

  /** Owners of k outside its calls: a writer, or the readers together once the first has locked it. */
  function HeldK(readers: int, pc: seq<Pc>): nat
  {
    CountIf(IsWriter, pc) + Bit(readers > CountIf(Trying, pc))
  }

  ghost predicate Sleepers(ready: set<Pid>, pc: seq<Pc>)
  {
    forall p :: p in ready ==> p < |pc| && (Waits(X(pc[p])) || Waits(K(pc[p])))
  }

  ghost predicate Good(s: State, hx: Heir, hk: Heir)
  {
    && (forall p :: 0 <= p < |s.pc| ==> Formed(s.pc[p]))
    && Inv(s.x, s.ready, Xs(s.pc), CountIf(HoldsX, s.pc), hx)
    && Inv(s.k, s.ready, Ks(s.pc), HeldK(s.readers, s.pc), hk)
    && CountIf(HoldsL, s.pc) == Bit(s.l) && s.readers == CountIf(IsReader, s.pc)
    && Sleepers(s.ready, s.pc)
  }

  // ----- moving one process

  /** The counts and projections after process p moves to v. */
  ghost predicate Moved(pc: seq<Pc>, p: Pid, v: Pc, pc': seq<Pc>)
    requires p < |pc|
  {
    && pc' == pc[p := v] && Xs(pc') == Xs(pc)[p := X(v)] && Ks(pc') == Ks(pc)[p := K(v)]
    && CountIf(HoldsX, pc') + Bit(HoldsX(pc[p])) == CountIf(HoldsX, pc) + Bit(HoldsX(v))
    && CountIf(HoldsL, pc') + Bit(HoldsL(pc[p])) == CountIf(HoldsL, pc) + Bit(HoldsL(v))
    && CountIf(IsReader, pc') + Bit(IsReader(pc[p])) == CountIf(IsReader, pc) + Bit(IsReader(v))
    && CountIf(IsWriter, pc') + Bit(IsWriter(pc[p])) == CountIf(IsWriter, pc) + Bit(IsWriter(v))
    && CountIf(Trying, pc') + Bit(Trying(pc[p])) == CountIf(Trying, pc) + Bit(Trying(v))
  }

  lemma Moves(pc: seq<Pc>, p: Pid, v: Pc)
    requires p < |pc|
    ensures Moved(pc, p, v, pc[p := v])
  {
    hide CountIf;
    CountUpdate(HoldsX, pc, p, v);
    CountUpdate(HoldsL, pc, p, v);
    CountUpdate(IsReader, pc, p, v);
    CountUpdate(IsWriter, pc, p, v);
    CountUpdate(Trying, pc, p, v);
  }

  // ----- what excludes what

  /** Only one process can be past qlock(&x) outside its calls, and only one can hold the spin lock. */
  lemma Alone(s: State, hx: Heir, hk: Heir, p: Pid, i: Pid)
    requires Good(s, hx, hk) && p < |s.pc| && i < |s.pc| && i != p
    ensures !(HoldsX(s.pc[p]) && HoldsX(s.pc[i])) && !(HoldsL(s.pc[p]) && HoldsL(s.pc[i]))
  {
    hide CountIf;
    var a, b := if p < i then p else i, if p < i then i else p;
    if HoldsX(s.pc[a]) && HoldsX(s.pc[b]) {
      CountTwo(HoldsX, s.pc, a, b);
    }
    if HoldsL(s.pc[a]) && HoldsL(s.pc[b]) {
      CountTwo(HoldsL, s.pc, a, b);
    }
  }

  /** While a reader is at canqlock(&k), nobody else is in a call of k: its spin lock cannot be busy. */
  lemma NobodyElseAtK(s: State, hx: Heir, hk: Heir, p: Pid, i: Pid)
    requires Good(s, hx, hk) && p < |s.pc| && s.pc[p].RLockK? && i < |s.pc| && i != p
    ensures K(s.pc[i]).Away? && !s.pc[i].Writing?
  {
    hide Inv, CountIf;
    Alone(s, hx, hk, p, i);
  }

  /** The ignored result: canqlock(&k) finds the spin lock free, and k locked exactly when there are other readers. */
  lemma ReaderAtK(s: State, hx: Heir, hk: Heir, p: Pid)
    requires Good(s, hx, hk) && p < |s.pc| && s.pc[p].RLockK?
    ensures s.pc[p].c.TryEnter? ==> !s.k.use
    ensures s.pc[p].c.TryEnter? || s.pc[p].c.TryInside? ==> (s.k.locked <==> s.readers > 1)
    ensures s.pc[p].c == TryLeave(true) ==> s.readers == 1
    ensures CountIf(Trying, s.pc) == Bit(Trying(s.pc[p])) && s.readers >= 1
  {
    hide CountIf;
    var st := Ks(s.pc);
    forall i | 0 <= i < |s.pc| && i != p
      ensures K(s.pc[i]).Away? && !s.pc[i].Writing? && !Trying(s.pc[i])
    {
      NobodyElseAtK(s, hx, hk, p, i);
    }
    CountNone(IsWriter, s.pc);
    CountSome(IsReader, s.pc, p);
    OnlyOne(Trying, s.pc, p);
    OnlyOne(InUse, st, p);
    OnlyOne(HasToken, st, p);
  }

  lemma {:induction false} OnlyOne<T>(f: T -> bool, s: seq<T>, p: nat)
    requires p < |s| && forall i :: 0 <= i < |s| && i != p ==> !f(s[i])
    ensures CountIf(f, s) == Bit(f(s[p]))
  {
    var n := |s| - 1;
    if p == n {
      CountNone(f, s[..n]);
    } else {
      OnlyOne(f, s[..n], p);
    }
  }

  // ----- every step keeps the invariant

  lemma ActForms(q: Lock, ready: set<Pid>, p: Pid, pc: Pc)
    requires (CallsX(pc) || CallsK(pc)) && Formed(pc) && Act(q, ready, p, pc.c).Did?
    ensures var out := Act(q, ready, p, pc.c).out;
            Formed(Next(pc, out)) && (LockStage(pc.c) && out.Done? ==> out.owner)
              && (UnlockStage(pc.c) && out.Done? ==> !out.owner)
    ensures var out := Act(q, ready, p, pc.c).out;
            out.Go? ==> (CallsX(Next(pc, out)) <==> CallsX(pc)) && (CallsK(Next(pc, out)) <==> CallsK(pc))
  {
  }

  /** An action wakes only a process that sleeps at the same lock. */
  lemma WokenHere(q: Lock, ready: set<Pid>, st: seq<Stage>, held: nat, heir: Heir, p: Pid)
    requires Inv(q, ready, st, held, heir) && p < |st| && Act(q, ready, p, st[p]).Did?
    ensures var r := Act(q, ready, p, st[p]);
            && (forall i :: i in r.ready && i !in ready ==> i < |st| && Waits(st[i]) && i != p)
            && (forall i :: i in ready && i !in r.ready ==> i == p && st[p].Asleep?)
            && (Waits(st[p]) && !Waits(After(r.out)) ==> p !in r.ready)
  {
  }

  lemma SleepersMove(ready: set<Pid>, ready': set<Pid>, pc: seq<Pc>, p: Pid, v: Pc)
    requires p < |pc| && Sleepers(ready, pc)
    requires forall i :: i in ready' && i !in ready ==> i < |pc| && i != p && (Waits(X(pc[i])) || Waits(K(pc[i])))
    requires (Waits(X(pc[p])) || Waits(K(pc[p]))) && !Waits(X(v)) && !Waits(K(v)) ==> p !in ready'
    ensures Sleepers(ready', pc[p := v])
  {
  }

  /** What a step inside a call of x changes for the other parts: only who holds x. */
  lemma EffectX(q: Lock, ready: set<Pid>, p: Pid, pc: Pc)
    requires CallsX(pc) && Formed(pc) && Act(q, ready, p, pc.c).Did?
    ensures var out := Act(q, ready, p, pc.c).out;
            var v := Next(pc, out);
            && Formed(v) && X(v) == After(out) && !HoldsX(pc) && (HoldsX(v) <==> out == Done(true)) && K(pc).Away?
            && (HoldsL(v) <==> HoldsL(pc)) && (IsReader(v) <==> IsReader(pc)) && (IsWriter(v) <==> IsWriter(pc))
              && (Trying(v) <==> Trying(pc))
            && (K(v).Away? || K(v).LockEnter?)
  {
    ActForms(q, ready, p, pc);
  }

  /** What a step inside a call of k changes for the other parts, apart from canqlock's. */
  lemma EffectK(q: Lock, ready: set<Pid>, p: Pid, pc: Pc)
    requires CallsK(pc) && Formed(pc) && Act(q, ready, p, pc.c).Did?
    ensures var out := Act(q, ready, p, pc.c).out;
            var v := Next(pc, out);
            && Formed(v) && K(v) == After(out) && X(pc).Away?
            && (HoldsL(v) <==> HoldsL(pc)) && (IsReader(v) <==> IsReader(pc)) && !IsWriter(pc)
            && (if X(v).Away? then HoldsX(v) <==> HoldsX(pc) else X(v).UnlockEnter? && HoldsX(pc) && !HoldsX(v))
            && (if pc.RLockK? then !IsWriter(v) else (IsWriter(v) <==> out == Done(true)) && !Trying(pc) && !Trying(v))
  {
    ActForms(q, ready, p, pc);
  }

  /** canqlock(&k): what the readers hold together changes as the call reports. */
  lemma EffectTry(s: State, hx: Heir, hk: Heir, p: Pid)
    requires Good(s, hx, hk) && p < |s.pc| && s.pc[p].RLockK? && Act(s.k, s.ready, p, s.pc[p].c).Did?
    ensures var out := Act(s.k, s.ready, p, s.pc[p].c).out;
            var v := Next(s.pc[p], out);
            Bit(s.readers > Bit(Trying(v))) == Bit(s.readers > Bit(Trying(s.pc[p]))) + Bit(out == Done(true))
    ensures CountIf(Trying, s.pc) == Bit(Trying(s.pc[p]))
  {
    hide Inv, CountIf;
    ReaderAtK(s, hx, hk, p);
  }

  /** A step inside a call of x. */
  lemma StepX(s: State, p: Pid, s': State, hx: Heir, hk: Heir) returns (hx': Heir)
    requires Good(s, hx, hk) && Step(s, p, s') && CallsX(s.pc[p])
    ensures Good(s', hx', hk)
  {
    hide Inv, CountIf, Act, Formed, HoldsX, HoldsL, IsReader, IsWriter, Trying, Next, CallsK, K, PlainStep, Waits;
    var pc := s.pc[p];
    var r := Act(s.x, s.ready, p, pc.c);
    var v := Next(pc, r.out);
    EffectX(s.x, s.ready, p, pc);
    Moves(s.pc, p, v);
    WokenHere(s.x, s.ready, Xs(s.pc), CountIf(HoldsX, s.pc), hx, p);
    AwayNotWaiting();
    SleepersMove(s.ready, r.ready, s.pc, p, v);
    SleepsOnce(s.pc);
    hx' := ActKeeps(s.x, s.ready, Xs(s.pc), CountIf(HoldsX, s.pc), hx, p);
    OtherWakeups(s.k, s.ready, r.ready, Ks(s.pc), HeldK(s.readers, s.pc), hk);
    if K(v).LockEnter? {
      BeginKeeps(s.k, r.ready, Ks(s.pc), HeldK(s.readers, s.pc), hk, p, LockEnter);
    } else {
      assert Ks(s.pc)[p := K(v)] == Ks(s.pc);
    }
  }

  lemma AwayNotWaiting()
    ensures !Waits(Away) && !Waits(LockEnter) && !Waits(UnlockEnter)
  {
  }

  lemma SleepsOnce(pc: seq<Pc>)
    ensures forall i :: 0 <= i < |pc| ==> !(Waits(X(pc[i])) && Waits(K(pc[i])))
  {
  }

  /** A step inside a call of k keeps x as it was, or starts to give it up. */
  lemma StepKforX(s: State, p: Pid, s': State, hx: Heir, hk: Heir)
    requires Good(s, hx, hk) && Step(s, p, s') && CallsK(s.pc[p])
    ensures Inv(s'.x, s'.ready, Xs(s'.pc), CountIf(HoldsX, s'.pc), hx)
  {
    hide Inv, CountIf, Act, Formed, HoldsX, HoldsL, IsReader, IsWriter, Trying, Next, CallsX, X, PlainStep, Waits,
         HeldK, Sleepers;
    var pc := s.pc[p];
    CallOne(pc);
    var r := Act(s.k, s.ready, p, pc.c);
    var v := Next(pc, r.out);
    EffectK(s.k, s.ready, p, pc);
    Moves(s.pc, p, v);
    WokenHere(s.k, s.ready, Ks(s.pc), HeldK(s.readers, s.pc), hk, p);
    AwayNotWaiting();
    SleepsOnce(s.pc);
    OtherWakeups(s.x, s.ready, r.ready, Xs(s.pc), CountIf(HoldsX, s.pc), hx);
    if X(v).UnlockEnter? {
      CountSome(HoldsX, s.pc, p);
      BeginKeeps(s.x, r.ready, Xs(s.pc), CountIf(HoldsX, s.pc), hx, p, UnlockEnter);
    } else {
      assert Xs(s.pc)[p := X(v)] == Xs(s.pc);
    }
  }

  /** A step inside a call of k. */
  lemma StepK(s: State, p: Pid, s': State, hx: Heir, hk: Heir) returns (hk': Heir)
    requires Good(s, hx, hk) && Step(s, p, s') && CallsK(s.pc[p])
    ensures Good(s', hx, hk')
  {
    hide Inv, CountIf, Act, Formed, HoldsX, HoldsL, IsReader, IsWriter, Trying, Next, CallsX, X, PlainStep, Waits;
    StepKforX(s, p, s', hx, hk);
    var pc := s.pc[p];
    CallOne(pc);
    var r := Act(s.k, s.ready, p, pc.c);
    var v := Next(pc, r.out);
    EffectK(s.k, s.ready, p, pc);
    Moves(s.pc, p, v);
    var held := HeldK(s.readers, s.pc);
    WokenHere(s.k, s.ready, Ks(s.pc), held, hk, p);
    AwayNotWaiting();
    SleepersMove(s.ready, r.ready, s.pc, p, v);
    hk' := ActKeeps(s.k, s.ready, Ks(s.pc), held, hk, p);
    if pc.RLockK? {
      EffectTry(s, hx, hk, p);
    }
  }

  lemma CallOne(pc: Pc)
    requires CallsK(pc)
    ensures !CallsX(pc)
  {
  }

  /** What a step outside the calls does to the spin lock and the count. */
  lemma PlainRest(s: State, p: Pid, s': State, hx: Heir, hk: Heir)
    requires Good(s, hx, hk) && Step(s, p, s') && !CallsX(s.pc[p]) && !CallsK(s.pc[p])
    ensures |s'.pc| == |s.pc| && CountIf(HoldsL, s'.pc) == Bit(s'.l) && s'.readers == CountIf(IsReader, s'.pc)
  {
    hide Inv, CountIf, Act, HoldsX, IsWriter, Trying, HeldK, Xs, Ks, Formed, Sleepers;
    Moves(s.pc, p, s'.pc[p]);
  }

  lemma PlainForm(s: State, p: Pid, s': State, hx: Heir, hk: Heir)
    requires Good(s, hx, hk) && Step(s, p, s') && !CallsX(s.pc[p]) && !CallsK(s.pc[p])
    ensures |s'.pc| == |s.pc| && (forall i :: 0 <= i < |s.pc| ==> Formed(s'.pc[i])) && Sleepers(s'.ready, s'.pc)
  {
    hide Inv, CountIf, Act, HoldsX, HoldsL, IsReader, IsWriter, Trying, HeldK, Xs, Ks;
    SleepersMove(s.ready, s.ready, s.pc, p, s'.pc[p]);
  }

  /** A step outside the calls. */
  lemma StepPlain(s: State, p: Pid, s': State, hx: Heir, hk: Heir)
    requires Good(s, hx, hk) && Step(s, p, s') && !CallsX(s.pc[p]) && !CallsK(s.pc[p])
    ensures Good(s', hx, hk)
  {
    hide Inv, CountIf, Act, Step, Sleepers, Formed;
    PlainRest(s, p, s', hx, hk);
    PlainForm(s, p, s', hx, hk);
    PlainX(s, p, s', hx, hk);
    PlainK(s, p, s', hx, hk);
  }

  lemma PlainX(s: State, p: Pid, s': State, hx: Heir, hk: Heir)
    requires Good(s, hx, hk) && Step(s, p, s') && !CallsX(s.pc[p]) && !CallsK(s.pc[p])
    ensures Inv(s'.x, s'.ready, Xs(s'.pc), CountIf(HoldsX, s'.pc), hx)
  {
    hide Inv, CountIf, Act, HoldsL, IsReader, IsWriter, Trying, HeldK, Ks, Formed, Sleepers;
    var v := s'.pc[p];
    Moves(s.pc, p, v);
    if CallsX(v) {
      if v.RLockQ? {
        CountSome(HoldsX, s.pc, p);
      }
      BeginKeeps(s.x, s.ready, Xs(s.pc), CountIf(HoldsX, s.pc), hx, p, X(v));
    } else {
      assert Xs(s.pc)[p := X(v)] == Xs(s.pc);
    }
  }

  lemma PlainK(s: State, p: Pid, s': State, hx: Heir, hk: Heir)
    requires Good(s, hx, hk) && Step(s, p, s') && !CallsX(s.pc[p]) && !CallsK(s.pc[p])
    ensures Inv(s'.k, s'.ready, Ks(s'.pc), HeldK(s'.readers, s'.pc), hk)
  {
    hide Inv, CountIf, Act, HoldsL, HoldsX, Xs, Formed, Sleepers;
    var pc, v, held := s.pc[p], s'.pc[p], HeldK(s.readers, s.pc);
    Moves(s.pc, p, v);
    if pc.RLockInc? || pc.RUnDec? {
      NoneTrying(s, hx, hk, p);
    }
    if CallsK(v) {
      if pc.Writing? {
        CountSome(IsWriter, s.pc, p);
      }
      BeginKeeps(s.k, s.ready, Ks(s.pc), held, hk, p, K(v));
    } else {
      if pc.RUnDec? {
        CountSome(IsReader, s.pc, p);
      }
      assert Ks(s.pc)[p := K(v)] == Ks(s.pc);
    }
  }

  lemma NoneTrying(s: State, hx: Heir, hk: Heir, p: Pid)
    requires Good(s, hx, hk) && p < |s.pc| && (s.pc[p].RLockInc? || s.pc[p].RUnDec?)
    ensures CountIf(Trying, s.pc) == 0
  {
    hide Inv, CountIf;
    forall i | 0 <= i < |s.pc|
      ensures !Trying(s.pc[i])
    {
      if i != p {
        Alone(s, hx, hk, p, i);
      }
    }
    CountNone(Trying, s.pc);
  }

  lemma StepKeeps(s: State, p: Pid, s': State, hx: Heir, hk: Heir) returns (hx': Heir, hk': Heir)
    requires Good(s, hx, hk) && Step(s, p, s')
    ensures Good(s', hx', hk')
  {
    hide Good, Act, PlainStep;
    hx', hk' := hx, hk;
    if CallsX(s.pc[p]) {
      hx' := StepX(s, p, s', hx, hk);
    } else if CallsK(s.pc[p]) {
      hk' := StepK(s, p, s', hx, hk);
    } else {
      StepPlain(s, p, s', hx, hk);
    }
  }

  // ----- runs

  ghost predicate Move(s: State, s': State)
  {
    exists p :: Step(s, p, s')
  }

  ghost predicate Run(run: seq<State>)
  {
    run != [] && Init(run[0]) && forall i :: 0 < i < |run| ==> Move(run[i - 1], run[i])
  }

  lemma InitGood(s: State)
    requires Init(s)
    ensures Good(s, Nobody, Nobody)
  {
    FreshInv(Xs(s.pc));
    FreshInv(Ks(s.pc));
    CountNone(HoldsX, s.pc);
    CountNone(HoldsL, s.pc);
    CountNone(IsReader, s.pc);
    CountNone(IsWriter, s.pc);
    CountNone(Trying, s.pc);
  }

  lemma {:induction false} RunGood(run: seq<State>, i: nat) returns (hx: Heir, hk: Heir)
    requires Run(run) && i < |run|
    ensures Good(run[i], hx, hk)
  {
    hide Step, Good;
    if i == 0 {
      InitGood(run[0]);
      hx, hk := Nobody, Nobody;
    } else {
      var ax, ak := RunGood(run, i - 1);
      assert Move(run[i - 1], run[i]);
      var p :| Step(run[i - 1], p, run[i]);
      hx, hk := StepKeeps(run[i - 1], p, run[i], ax, ak);
    }
  }

  /** A writer is alone. */
  ghost predicate Exclusive(s: State)
  {
    forall p, r :: 0 <= p < |s.pc| && 0 <= r < |s.pc| && s.pc[p].Writing? ==>
      && !s.pc[r].Reading?
      && (s.pc[r].Writing? ==> r == p)
  }

  /** Process p has k for itself: as a writer, in a call that has the ownership in hand, or woken or about to be. */
  ghost predicate OwnsK(s: State, p: Pid)
  {
    && p < |s.pc|
    && (s.pc[p].Writing? || HasToken(K(s.pc[p]))
        || (K(s.pc[p]).Asleep? && (p in s.ready || exists r: Pid :: Wakes(s.pc, r, p))))
  }

  predicate Wakes(pc: seq<Pc>, r: Pid, p: Pid)
  {
    r < |pc| && WakesHeir(K(pc[r])) && K(pc[r]).heir == p
  }

  /**
   The count is right, and outside the windows in which the spin lock is held, k belongs to the readers
   exactly when there are any: with readers it is locked and no process has it, without readers it is locked
   exactly while some process has it, and that is one process, a writer.
   */
  ghost predicate ReadersHoldK(s: State)
  {
    && s.readers == CountIf(IsReader, s.pc)
    && (!s.l && s.readers > 0 ==> s.k.locked && forall p: Pid :: !OwnsK(s, p))
    && (!s.l && s.readers == 0 ==>
          && (s.k.locked <==> exists p: Pid :: OwnsK(s, p))
          && (forall p: Pid :: OwnsK(s, p) ==> p < |s.pc| && ForWriter(s.pc[p]))
          && (forall p: Pid, r: Pid :: OwnsK(s, p) && OwnsK(s, r) ==> p == r))
  }

  /** Writing, or taking or giving up k as a writer. */
  predicate ForWriter(pc: Pc)
  {
    pc.Writing? || pc.WLockK? || pc.WUnK?
  }

  /**
   canqlock(&k) in rlock and canrlock is never refused because k's spin lock is busy, and locks k for the
   first reader.
   */
  ghost predicate TryWorks(s: State)
  {
    forall p :: 0 <= p < |s.pc| && s.pc[p].RLockK? ==>
                  && (s.pc[p].c.TryEnter? ==> !s.k.use)
                  && (s.pc[p].c.TryInside? ==> (s.k.locked <==> s.readers > 1))
  }

  lemma WriterAlone(s: State, hx: Heir, hk: Heir, p: Pid, r: Pid)
    requires Good(s, hx, hk) && p < |s.pc| && r < |s.pc| && r != p && s.pc[p].Writing?
    ensures !s.pc[r].Reading? && !s.pc[r].Writing?
  {
    hide CountIf;
    Alone(s, hx, hk, p, r);
    CountSome(IsWriter, s.pc, p);
    if s.pc[r].Reading? {
      forall i | 0 <= i < |s.pc|
        ensures !Trying(s.pc[i])
      {
        if i != p {
          Alone(s, hx, hk, p, i);
        }
      }
      CountNone(Trying, s.pc);
      CountSome(IsReader, s.pc, r);
    }
  }

  /** A sleeper that owns k is the heir. */
  lemma OwnerAsleep(s: State, hx: Heir, hk: Heir, p: Pid)
    requires Good(s, hx, hk) && OwnsK(s, p) && !s.pc[p].Writing? && !HasToken(K(s.pc[p]))
    ensures hk == Heir(p)
  {
    hide CountIf;
    var st := Ks(s.pc);
    assert Waits(st[p]);
    if p !in s.ready {
      var r: Pid :| Wakes(s.pc, r, p);
      assert WakesHeir(st[r]);
    }
  }

  /** Who owns k is one of those that the invariant counts. */
  lemma OwnerCounted(s: State, hx: Heir, hk: Heir, p: Pid)
    requires Good(s, hx, hk) && OwnsK(s, p)
    ensures CountIf(IsWriter, s.pc) + CountIf(HasToken, Ks(s.pc)) + Bit(hk.Heir?) == 1
    ensures s.k.locked && s.readers <= CountIf(Trying, s.pc)
  {
    hide CountIf;
    if s.pc[p].Writing? {
      CountSome(IsWriter, s.pc, p);
    } else if HasToken(K(s.pc[p])) {
      CountSome(HasToken, Ks(s.pc), p);
    } else {
      OwnerAsleep(s, hx, hk, p);
    }
  }

  lemma OneOwner(s: State, hx: Heir, hk: Heir, p: Pid, r: Pid)
    requires Good(s, hx, hk) && OwnsK(s, p) && OwnsK(s, r) && p <= r
    ensures p == r
  {
    hide CountIf, Good, Inv, OwnsK;
    OwnerCounted(s, hx, hk, p);
    var a := Kind(s, hx, hk, p);
    var b := Kind(s, hx, hk, r);
    if a == b == 0 && p < r {
      CountTwo(IsWriter, s.pc, p, r);
    } else if a == b == 1 && p < r {
      CountTwo(HasToken, Ks(s.pc), p, r);
    }
  }

  /** Which of the three counts a process that owns k adds to. */
  lemma Kind(s: State, hx: Heir, hk: Heir, p: Pid) returns (k: nat)
    requires Good(s, hx, hk) && OwnsK(s, p)
    ensures k <= 2 && p < |s.pc|
    ensures k == 0 ==> IsWriter(s.pc[p]) && CountIf(IsWriter, s.pc) > 0
    ensures k == 1 ==> HasToken(Ks(s.pc)[p]) && CountIf(HasToken, Ks(s.pc)) > 0
    ensures k == 2 ==> hk == Heir(p)
  {
    hide CountIf, Inv;
    if s.pc[p].Writing? {
      CountSome(IsWriter, s.pc, p);
      k := 0;
    } else if HasToken(K(s.pc[p])) {
      CountSome(HasToken, Ks(s.pc), p);
      k := 1;
    } else {
      OwnerAsleep(s, hx, hk, p);
      k := 2;
    }
  }

  /** Without readers whoever owns k is a writer. */
  lemma OwnerWrites(s: State, hx: Heir, hk: Heir, p: Pid)
    requires Good(s, hx, hk) && !s.l && OwnsK(s, p)
    ensures p < |s.pc| && ForWriter(s.pc[p])
  {
    hide CountIf, Inv;
    if HoldsL(s.pc[p]) {
      CountSome(HoldsL, s.pc, p);
    }
  }

  /** Locked without readers, k has an owner. */
  lemma SomeOwner(s: State, hx: Heir, hk: Heir) returns (p: Pid)
    requires Good(s, hx, hk) && s.readers == 0 && s.k.locked
    ensures OwnsK(s, p)
  {
    hide CountIf;
    if hk.Heir? {
      p := hk.pid;
      assert Ks(s.pc)[p].Asleep?;
      if p !in s.ready {
        var r := CountWitness(WakesHeir, Ks(s.pc));
        assert Wakes(s.pc, r, p);
      }
    } else if CountIf(IsWriter, s.pc) > 0 {
      p := CountWitness(IsWriter, s.pc);
    } else {
      p := CountWitness(HasToken, Ks(s.pc));
    }
  }

  /** While the spin lock is free nobody is at canqlock(&k). */
  lemma NobodyTries(s: State, hx: Heir, hk: Heir)
    requires Good(s, hx, hk) && !s.l
    ensures CountIf(Trying, s.pc) == 0
  {
    hide CountIf, Inv;
    forall i | 0 <= i < |s.pc|
      ensures !Trying(s.pc[i])
    {
      if HoldsL(s.pc[i]) {
        CountSome(HoldsL, s.pc, i);
      }
    }
    CountNone(Trying, s.pc);
  }

  lemma GoodReaders(s: State, hx: Heir, hk: Heir)
    requires Good(s, hx, hk)
    ensures ReadersHoldK(s)
  {
    hide CountIf, OwnsK, Inv;
    if !s.l {
      NobodyTries(s, hx, hk);
      ReadersLock(s, hx, hk);
      forall p: Pid | OwnsK(s, p)
        ensures p < |s.pc| && s.k.locked && s.readers == 0 && ForWriter(s.pc[p])
      {
        OwnerCounted(s, hx, hk, p);
        OwnerWrites(s, hx, hk, p);
      }
      forall p: Pid, r: Pid | OwnsK(s, p) && OwnsK(s, r)
        ensures p == r
      {
        if p <= r {
          OneOwner(s, hx, hk, p, r);
        } else {
          OneOwner(s, hx, hk, r, p);
        }
      }
      if s.readers == 0 && s.k.locked {
        var p := SomeOwner(s, hx, hk);
      }
    }
  }

  lemma ReadersLock(s: State, hx: Heir, hk: Heir)
    requires Good(s, hx, hk) && CountIf(Trying, s.pc) == 0
    ensures s.readers >= 0 && (s.readers > 0 ==> s.k.locked)
  {
    hide CountIf;
  }

  /** In every state of every run of any number of processes. */
  lemma RunSafe(run: seq<State>, i: nat)
    requires Run(run) && i < |run|
    ensures Exclusive(run[i]) && ReadersHoldK(run[i]) && TryWorks(run[i])
  {
    hide Run, Good, ReadersHoldK;
    var hx, hk := RunGood(run, i);
    var s := run[i];
    GoodReaders(s, hx, hk);
    forall p, r | 0 <= p < |s.pc| && 0 <= r < |s.pc| && s.pc[p].Writing?
      ensures !s.pc[r].Reading? && (s.pc[r].Writing? ==> r == p)
    {
      if r != p {
        WriterAlone(s, hx, hk, p, r);
      }
    }
    forall p | 0 <= p < |s.pc| && s.pc[p].RLockK?
      ensures s.pc[p].c.TryEnter? ==> !s.k.use
      ensures s.pc[p].c.TryInside? ==> (s.k.locked <==> s.readers > 1)
    {
      ReaderAtK(s, hx, hk, p);
    }
  }

  // ----- somebody can always go on

  /** A process in a call, or holding the lock, that can take a step. */
  predicate Enabled(s: State, p: Pid)
  {
    p < |s.pc| && !s.pc[p].Idle? &&
    if CallsX(s.pc[p]) then Act(s.x, s.ready, p, s.pc[p].c).Did?
    else if CallsK(s.pc[p]) then Act(s.k, s.ready, p, s.pc[p].c).Did?
    else s.pc[p].RLockL? || s.pc[p].RUnL? ==> !s.l
  }

  lemma EnabledSteps(s: State, p: Pid) returns (s': State)
    requires Enabled(s, p)
    ensures Step(s, p, s')
  {
    var pc := s.pc[p];
    if CallsX(pc) {
      var r := Act(s.x, s.ready, p, pc.c);
      s' := s.(x := r.q, ready := r.ready, pc := s.pc[p := Next(pc, r.out)]);
    } else if CallsK(pc) {
      var r := Act(s.k, s.ready, p, pc.c);
      s' := s.(k := r.q, ready := r.ready, pc := s.pc[p := Next(pc, r.out)]);
    } else {
      match pc
      case Reading => s' := s.(pc := s.pc[p := RUnL]);
      case Writing => s' := s.(pc := s.pc[p := WUnK(UnlockEnter)]);
      case RLockL => s' := s.(l := true, pc := s.pc[p := RLockInc]);
      case RLockInc => s' := s.(readers := s.readers + 1, pc := s.pc[p := RLockK(TryEnter)]);
      case RLockUnl => s' := s.(l := false, pc := s.pc[p := RLockQ(UnlockEnter)]);
      case RUnL => s' := s.(l := true, pc := s.pc[p := RUnDec]);
      case RUnDec =>
        s' := s.(readers := s.readers - 1, pc := s.pc[p := if s.readers - 1 == 0 then RUnK(UnlockEnter) else RUnUnl]);
      case RUnUnl => s' := s.(l := false, pc := s.pc[p := Idle]);
    }
  }

  /** The holder of x's spin lock goes on. */
  lemma SpinX(s: State, hx: Heir, hk: Heir) returns (q: Pid)
    requires Good(s, hx, hk) && s.x.use
    ensures Enabled(s, q)
  {
    hide CountIf, Act;
    q := CountWitness(InUse, Xs(s.pc));
    WaitsWhen(s.x, s.ready, q, s.pc[q].c);
  }

  lemma SpinK(s: State, hx: Heir, hk: Heir) returns (q: Pid)
    requires Good(s, hx, hk) && s.k.use
    ensures Enabled(s, q)
  {
    hide CountIf, Act;
    q := CountWitness(InUse, Ks(s.pc));
    WaitsWhen(s.k, s.ready, q, s.pc[q].c);
  }

  /** The holder of the spin lock l goes on, or waits for the holder of k's. */
  lemma SpinL(s: State, hx: Heir, hk: Heir) returns (q: Pid)
    requires Good(s, hx, hk) && s.l
    ensures Enabled(s, q)
  {
    hide CountIf, Act, Inv;
    q := CountWitness(HoldsL, s.pc);
    assert Formed(s.pc[q]);
    if CallsK(s.pc[q]) {
      WaitsWhen(s.k, s.ready, q, s.pc[q].c);
      if !Enabled(s, q) {
        q := SpinK(s, hx, hk);
      }
    }
  }

  /** Whoever k is waited for goes on, or waits for a spin lock. */
  lemma OwnerK(s: State, hx: Heir, hk: Heir) returns (q: Pid)
    requires Good(s, hx, hk) && s.k.locked
    ensures Enabled(s, q)
  {
    hide CountIf, Act;
    if hk.Heir? {
      if hk.pid in s.ready {
        q := hk.pid;
        WaitsWhen(s.k, s.ready, q, s.pc[q].c);
      } else {
        q := CountWitness(WakesHeir, Ks(s.pc));
        WaitsWhen(s.k, s.ready, q, s.pc[q].c);
      }
    } else if CountIf(HasToken, Ks(s.pc)) > 0 {
      q := CountWitness(HasToken, Ks(s.pc));
      WaitsWhen(s.k, s.ready, q, s.pc[q].c);
      if !Enabled(s, q) {
        q := SpinK(s, hx, hk);
      }
    } else if CountIf(IsWriter, s.pc) > 0 {
      q := CountWitness(IsWriter, s.pc);
    } else {
      q := ReaderGoesOn(s, hx, hk);
    }
  }

  lemma ReaderGoesOn(s: State, hx: Heir, hk: Heir) returns (q: Pid)
    requires Good(s, hx, hk) && s.readers > 0
    ensures Enabled(s, q)
  {
    hide CountIf, Act, Inv;
    q := CountWitness(IsReader, s.pc);
    assert Formed(s.pc[q]);
    if CallsK(s.pc[q]) {
      WaitsWhen(s.k, s.ready, q, s.pc[q].c);
    } else if CallsX(s.pc[q]) {
      WaitsWhen(s.x, s.ready, q, s.pc[q].c);
      if !Enabled(s, q) {
        q := SpinX(s, hx, hk);
      }
    } else if s.pc[q].RUnL? && s.l {
      q := SpinL(s, hx, hk);
    }
  }

  lemma FromK(s: State, hx: Heir, hk: Heir, p: Pid) returns (q: Pid)
    requires Good(s, hx, hk) && p < |s.pc| && CallsK(s.pc[p])
    ensures Enabled(s, q)
  {
    hide CountIf, Act;
    q := p;
    assert Formed(s.pc[p]) && Ks(s.pc)[p] == s.pc[p].c;
    WaitsWhen(s.k, s.ready, p, s.pc[p].c);
    if !Enabled(s, p) {
      if s.k.use {
        q := SpinK(s, hx, hk);
      } else {
        q := OwnerK(s, hx, hk);
      }
    }
  }

  /** Whoever x is waited for goes on, or waits for a spin lock or for k. */
  lemma OwnerX(s: State, hx: Heir, hk: Heir) returns (q: Pid)
    requires Good(s, hx, hk) && s.x.locked
    ensures Enabled(s, q)
  {
    hide CountIf, Act;
    if hx.Heir? {
      if hx.pid in s.ready {
        q := hx.pid;
        WaitsWhen(s.x, s.ready, q, s.pc[q].c);
      } else {
        q := CountWitness(WakesHeir, Xs(s.pc));
        WaitsWhen(s.x, s.ready, q, s.pc[q].c);
      }
    } else if CountIf(HasToken, Xs(s.pc)) > 0 {
      q := CountWitness(HasToken, Xs(s.pc));
      WaitsWhen(s.x, s.ready, q, s.pc[q].c);
      if !Enabled(s, q) {
        q := SpinX(s, hx, hk);
      }
    } else {
      q := CountWitness(HoldsX, s.pc);
      if CallsK(s.pc[q]) {
        q := FromK(s, hx, hk, q);
      } else if s.pc[q].RLockL? && s.l {
        q := SpinL(s, hx, hk);
      }
    }
  }

  /** Whenever a process is in a call or holds the lock, such a process can take a step. */
  lemma SomeoneGoesOn(s: State, hx: Heir, hk: Heir, p: Pid) returns (q: Pid)
    requires Good(s, hx, hk) && p < |s.pc| && !s.pc[p].Idle?
    ensures Enabled(s, q)
  {
    hide CountIf, Act;
    q := p;
    if CallsX(s.pc[p]) {
      assert Formed(s.pc[p]) && Xs(s.pc)[p] == s.pc[p].c;
      WaitsWhen(s.x, s.ready, p, s.pc[p].c);
      if !Enabled(s, p) {
        if s.x.use {
          q := SpinX(s, hx, hk);
        } else {
          q := OwnerX(s, hx, hk);
        }
      }
    } else if CallsK(s.pc[p]) {
      q := FromK(s, hx, hk, p);
    } else if !Enabled(s, p) {
      q := SpinL(s, hx, hk);
    }
  }

  /** No run ends in a deadlock. */
  lemma RunLive(run: seq<State>, i: nat, p: Pid) returns (q: Pid, s': State)
    requires Run(run) && i < |run| && p < |run[i].pc| && !run[i].pc[p].Idle?
    ensures q < |run[i].pc| && !run[i].pc[q].Idle? && Step(run[i], q, s')
  {
    hide Run, Good, Step;
    var hx, hk := RunGood(run, i);
    q := SomeoneGoesOn(run[i], hx, hk, p);
    s' := EnabledSteps(run[i], q);
  }
}
