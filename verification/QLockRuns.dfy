/** All runs of any number of processes that share one queueing lock. */
module QLockRuns {
  import opened QLock

  datatype Pc = Idle | Owner | In(c: Stage)

  datatype State = State(q: Lock, ready: set<Pid>, pc: seq<Pc>)

  function StageOf(pc: Pc): Stage
  {
    if pc.In? then pc.c else Away
  }

  function Stages(pc: seq<Pc>): (st: seq<Stage>)
    ensures |st| == |pc| && forall i :: 0 <= i < |pc| ==> st[i] == StageOf(pc[i])
  {
    seq(|pc|, i requires 0 <= i < |pc| => StageOf(pc[i]))
  }

  predicate IsOwner(pc: Pc)
  {
    pc.Owner?
  }

  ghost predicate Init(s: State)
  {
    s.q == Fresh() && s.ready == {} && forall p :: 0 <= p < |s.pc| ==> s.pc[p].Idle?
  }

  function Return(out: Outcome): Pc
  {
    match out
    case Go(c) => In(c)
    case Done(owner) => if owner then Owner else Idle
  }

  /** Process p takes a step: it starts a call it is entitled to, or goes on with one. */
  ghost predicate Step(s: State, p: Pid, s': State)
  {
    p < |s.pc| &&
    match s.pc[p]
    case Idle => s' == s.(pc := s.pc[p := In(LockEnter)]) || s' == s.(pc := s.pc[p := In(TryEnter)])
    case Owner => s' == s.(pc := s.pc[p := In(UnlockEnter)])
    case In(c) =>
      var r := Act(s.q, s.ready, p, c);
      r.Did? && s' == State(r.q, r.ready, s.pc[p := Return(r.out)])
  }

  ghost predicate Good(s: State, heir: Heir)
  {
    && Inv(s.q, s.ready, Stages(s.pc), CountIf(IsOwner, s.pc), heir)
    && (forall p :: p in s.ready ==> p < |s.pc| && Waits(StageOf(s.pc[p])))
  }

  lemma StepKeeps(s: State, p: Pid, s': State, heir: Heir) returns (heir': Heir)
    requires Good(s, heir) && Step(s, p, s')
    ensures Good(s', heir')
  {
    hide Inv, CountIf;
    var st := Stages(s.pc);
    var v := s'.pc[p];
    CountUpdate(IsOwner, s.pc, p, v);
    assert Stages(s'.pc) == st[p := StageOf(v)];
    if s.pc[p].In? {
      heir' := ActKeeps(s.q, s.ready, st, CountIf(IsOwner, s.pc), heir, p);
      WokenWaits(s.q, s.ready, st, CountIf(IsOwner, s.pc), heir, p);
    } else {
      heir' := heir;
      BeginKeeps(s.q, s.ready, st, CountIf(IsOwner, s.pc), heir, p, StageOf(v));
    }
  }

  /** An action wakes only a process that waits, and only then. */
  lemma WokenWaits(q: Lock, ready: set<Pid>, st: seq<Stage>, held: nat, heir: Heir, p: Pid)
    requires Inv(q, ready, st, held, heir) && p < |st| && Act(q, ready, p, st[p]).Did?
    ensures var r := Act(q, ready, p, st[p]);
            forall i :: i in r.ready && i !in ready ==> i < |st| && Waits(st[i]) && i != p && st[p] == Waking(i)
    ensures var r := Act(q, ready, p, st[p]);
            forall i :: i in ready && i !in r.ready ==> i == p
    ensures var r := Act(q, ready, p, st[p]);
            p in r.ready && Waits(st[p]) ==> Waits(After(r.out))
  {
  }

  /** Whether a process owns the lock, be it one that has been given it in its sleep. */
  predicate Owns(s: State, p: Pid)
    requires p < |s.pc|
  {
    || s.pc[p].Owner? || HasToken(StageOf(s.pc[p]))
    || (StageOf(s.pc[p]).Asleep? && p !in s.q.queue)
  }

  /** What holds in every state of every run. */
  ghost predicate Safe(s: State)
  {
    && (forall p, r :: 0 <= p < |s.pc| && 0 <= r < |s.pc| && Owns(s, p) && Owns(s, r) ==> p == r)
    && (s.q.locked <==> exists p :: 0 <= p < |s.pc| && Owns(s, p))
    && (!s.q.locked ==> s.q.queue == [])
    && InOrder(s.q)
    && (forall p :: 0 <= p < |s.pc| && StageOf(s.pc[p]).Asleep? && p !in s.q.queue ==>
      (p in s.ready <==> Outstanding(s.q) == 0))
  }

  /**
   Processes are woken in the order in which they queued, each once; at most one has left the queue and is not
   woken yet.
   */
  ghost predicate InOrder(q: Lock)
  {
    && 0 <= Outstanding(q) <= 1 && q.readied <= q.enqueued
    && q.enqueued[|q.enqueued| - |q.queue|..] == q.queue
  }

  /** Processes taken from the queue that have not been readied yet. */
  function Outstanding(q: Lock): int
  {
    |q.enqueued| - |q.readied| - |q.queue|
  }

  lemma OneToken(s: State, heir: Heir, p: Pid, r: Pid)
    requires Good(s, heir) && p < r < |s.pc|
    ensures !Owns(s, p) || !Owns(s, r)
  {
    hide CountIf;
    var st := Stages(s.pc);
    assert Waits(st[p]) <==> p in s.q.queue || heir == Heir(p);
    assert Waits(st[r]) <==> r in s.q.queue || heir == Heir(r);
    if s.pc[p].Owner? {
      CountSome(IsOwner, s.pc, p);
    }
    if s.pc[r].Owner? {
      CountSome(IsOwner, s.pc, r);
    }
    if HasToken(st[p]) {
      CountSome(HasToken, st, p);
    }
    if HasToken(st[r]) {
      CountSome(HasToken, st, r);
    }
    if s.pc[p].Owner? && s.pc[r].Owner? {
      CountTwo(IsOwner, s.pc, p, r);
    }
    if HasToken(st[p]) && HasToken(st[r]) {
      CountTwo(HasToken, st, p, r);
    }
  }

  lemma LockedHasOwner(s: State, heir: Heir)
    requires Good(s, heir) && s.q.locked
    ensures exists p :: 0 <= p < |s.pc| && Owns(s, p)
  {
    hide CountIf;
    var st := Stages(s.pc);
    if heir.Heir? {
      assert Owns(s, heir.pid);
    } else if CountIf(IsOwner, s.pc) > 0 {
      var p := CountWitness(IsOwner, s.pc);
      assert Owns(s, p);
    } else {
      var p := CountWitness(HasToken, st);
      assert Owns(s, p);
    }
  }

  lemma OwnerLocked(s: State, heir: Heir, p: Pid)
    requires Good(s, heir) && p < |s.pc| && Owns(s, p)
    ensures s.q.locked
  {
    hide CountIf;
    var st := Stages(s.pc);
    if s.pc[p].Owner? {
      CountSome(IsOwner, s.pc, p);
    } else if HasToken(st[p]) {
      CountSome(HasToken, st, p);
    } else {
      assert Waits(st[p]) <==> p in s.q.queue || heir == Heir(p);
    }
  }

  lemma GoodOrder(s: State, heir: Heir)
    requires Good(s, heir)
    ensures InOrder(s.q)
    ensures forall p :: 0 <= p < |s.pc| && StageOf(s.pc[p]).Asleep? && p !in s.q.queue ==>
            (p in s.ready <==> Outstanding(s.q) == 0)
  {
    hide CountIf;
    var st := Stages(s.pc);
    forall p | 0 <= p < |s.pc| && StageOf(s.pc[p]).Asleep? && p !in s.q.queue
      ensures heir == Heir(p)
    {
      assert Waits(st[p]) <==> p in s.q.queue || heir == Heir(p);
    }
  }

  lemma GoodSafe(s: State, heir: Heir)
    requires Good(s, heir)
    ensures Safe(s)
  {
    hide CountIf;
    forall p, r | 0 <= p < |s.pc| && 0 <= r < |s.pc| && Owns(s, p) && Owns(s, r)
      ensures p == r
    {
      if p < r {
        OneToken(s, heir, p, r);
      } else if r < p {
        OneToken(s, heir, r, p);
      }
    }
    GoodOrder(s, heir);
    if s.q.locked {
      LockedHasOwner(s, heir);
    }
    forall p | 0 <= p < |s.pc| && Owns(s, p)
      ensures s.q.locked
    {
      OwnerLocked(s, heir, p);
    }
  }

  // ----- runs

  ghost predicate Move(s: State, s': State)
  {
    exists p :: Step(s, p, s')
  }

  ghost predicate Run(run: seq<State>)
  {
    run != [] && Init(run[0]) && forall i :: 0 < i < |run| ==> Move(run[i - 1], run[i])
  }

  lemma {:induction false} RunGood(run: seq<State>, i: nat) returns (heir: Heir)
    requires Run(run) && i < |run|
    ensures Good(run[i], heir)
  {
    hide Inv, Step;
    if i == 0 {
      InitGood(run[0]);
      heir := Nobody;
    } else {
      var before := RunGood(run, i - 1);
      assert Move(run[i - 1], run[i]);
      var p :| Step(run[i - 1], p, run[i]);
      heir := StepKeeps(run[i - 1], p, run[i], before);
    }
  }

  lemma InitGood(s: State)
    requires Init(s)
    ensures Good(s, Nobody)
  {
    FreshInv(Stages(s.pc));
    CountNone(IsOwner, s.pc);
  }

  /**
   In every state of every run: one owner at most, the lock is marked exactly while it has one, and wakeups
   come in queue order.
   */
  lemma RunSafe(run: seq<State>, i: nat)
    requires Run(run) && i < |run|
    ensures Safe(run[i])
  {
    hide Run, Good, Safe;
    var heir := RunGood(run, i);
    GoodSafe(run[i], heir);
  }

  // ----- somebody can always go on

  /** A process in a call, or owning the lock, that can take a step. */
  predicate Enabled(s: State, p: Pid)
  {
    p < |s.pc| && (s.pc[p].Owner? || (s.pc[p].In? && Act(s.q, s.ready, p, s.pc[p].c).Did?))
  }

  lemma SpinHolder(s: State, heir: Heir) returns (r: Pid)
    requires Good(s, heir) && s.q.use
    ensures Enabled(s, r)
  {
    hide CountIf, Act;
    r := CountWitness(InUse, Stages(s.pc));
    WaitsWhen(s.q, s.ready, r, s.pc[r].c);
  }

  lemma OwnerGoesOn(s: State, heir: Heir) returns (r: Pid)
    requires Good(s, heir) && s.q.locked
    ensures Enabled(s, r)
  {
    hide CountIf, Act;
    if heir.Heir? {
      if heir.pid in s.ready {
        r := heir.pid;
      } else {
        r := CountWitness(WakesHeir, Stages(s.pc));
      }
      WaitsWhen(s.q, s.ready, r, s.pc[r].c);
    } else if CountIf(IsOwner, s.pc) > 0 {
      r := CountWitness(IsOwner, s.pc);
    } else {
      r := CountWitness(HasToken, Stages(s.pc));
      WaitsWhen(s.q, s.ready, r, s.pc[r].c);
      if !Enabled(s, r) {
        r := SpinHolder(s, heir);
      }
    }
  }

  /** Whenever a process is in a call or owns the lock, such a process can take a step. */
  lemma SomeoneGoesOn(s: State, heir: Heir, p: Pid) returns (r: Pid)
    requires Good(s, heir) && p < |s.pc| && !StageOf(s.pc[p]).Away?
    ensures Enabled(s, r)
  {
    hide CountIf, Act;
    r := p;
    assert Stages(s.pc)[p] == s.pc[p].c;
    WaitsWhen(s.q, s.ready, p, s.pc[p].c);
    if !Enabled(s, p) {
      if s.q.use {
        r := SpinHolder(s, heir);
      } else {
        r := OwnerGoesOn(s, heir);
      }
    }
  }

  /** No run ends in a deadlock. */
  lemma RunLive(run: seq<State>, i: nat, p: Pid) returns (r: Pid, s': State)
    requires Run(run) && i < |run| && p < |run[i].pc| && !StageOf(run[i].pc[p]).Away?
    ensures r < |run[i].pc| && !run[i].pc[r].Idle? && Step(run[i], r, s')
  {
    hide Run, Good;
    var heir := RunGood(run, i);
    var s := run[i];
    r := SomeoneGoesOn(s, heir, p);
    if s.pc[r].Owner? {
      s' := s.(pc := s.pc[r := In(UnlockEnter)]);
    } else {
      var a := Act(s.q, s.ready, r, s.pc[r].c);
      s' := State(a.q, a.ready, s.pc[r := Return(a.out)]);
    }
  }
}
