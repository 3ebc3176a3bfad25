/**
 The queueing lock as seen from its own state: every process is somewhere in a call of
 qlock, canqlock or qunlock, or in none.

 Steps are the atomic actions of lib9's lock code: a test-and-set, the work done while the
 inner spin lock is held, its release, going to sleep, waking another process.  What an
 owner does outside these calls is left open, so the same proofs serve every user of the lock.
 */
module QLock {

  type Pid = nat

  /** Where a process is in a call; Away when it is in none. */
  datatype Stage =
    | Away
    | LockEnter | LockInside | LockLeave | LockQueued | Asleep
    | TryEnter | TryInside | TryLeave(got: bool)
    | UnlockEnter | UnlockInside | UnlockLeave | UnlockLeaveTo(heir: Pid) | Waking(heir: Pid)

  /** enqueued and readied are histories: who went to the queue, and who was woken, in order. */
  datatype Lock = Lock(use: bool, locked: bool, queue: seq<Pid>, enqueued: seq<Pid>, readied: seq<Pid>)

  datatype Outcome = Go(stage: Stage) | Done(owner: bool)

  datatype Result = Wait | Did(q: Lock, ready: set<Pid>, out: Outcome)

  /** The next action of process p, or Wait if it spins or sleeps. */
  function Act(q: Lock, ready: set<Pid>, p: Pid, c: Stage): Result
  {
    match c
    case Away => Wait
    case LockEnter => if q.use then Wait else Did(q.(use := true), ready, Go(LockInside))
    case LockInside =>
      if !q.locked then Did(q.(locked := true), ready, Go(LockLeave))
      else Did(q.(queue := q.queue + [p], enqueued := q.enqueued + [p]), ready, Go(LockQueued))
    case LockLeave => Did(q.(use := false), ready, Done(true))
    case LockQueued => Did(q.(use := false), ready, Go(Asleep))
    case Asleep => if p in ready then Did(q, ready - {p}, Done(true)) else Wait
    case TryEnter => if q.use then Did(q, ready, Done(false)) else Did(q.(use := true), ready, Go(TryInside))
    case TryInside =>
      if q.locked then Did(q, ready, Go(TryLeave(false)))
      else Did(q.(locked := true), ready, Go(TryLeave(true)))
    case TryLeave(got) => Did(q.(use := false), ready, Done(got))
    case UnlockEnter => if q.use then Wait else Did(q.(use := true), ready, Go(UnlockInside))
    case UnlockInside =>
      if q.queue != [] then Did(q.(queue := q.queue[1..]), ready, Go(UnlockLeaveTo(q.queue[0])))
      else Did(q.(locked := false), ready, Go(UnlockLeave))
    case UnlockLeave => Did(q.(use := false), ready, Done(false))
    case UnlockLeaveTo(heir) => Did(q.(use := false), ready, Go(Waking(heir)))
    case Waking(heir) => Did(q.(readied := q.readied + [heir]), ready + {heir}, Done(false))
  }

  /** Only three kinds of stages ever wait: those that want the spin lock, and sleep. */
  lemma WaitsWhen(q: Lock, ready: set<Pid>, p: Pid, c: Stage)
    ensures Act(q, ready, p, c).Wait? <==>
              c.Away? || (c.LockEnter? && q.use) || (c.UnlockEnter? && q.use) || (c.Asleep? && p !in ready)
  {
  }

  // ----- counting

  function Bit(b: bool): nat
  {
    if b then 1 else 0
  }

  function CountIf<T>(f: T -> bool, s: seq<T>): nat
  {
    if s == [] then 0 else CountIf(f, s[..|s| - 1]) + Bit(f(s[|s| - 1]))
  }

  lemma {:induction false} CountUpdate<T>(f: T -> bool, s: seq<T>, i: nat, v: T)
    requires i < |s|
    ensures CountIf(f, s[i := v]) + Bit(f(s[i])) == CountIf(f, s) + Bit(f(v))
  {
    var n := |s| - 1;
    if i == n {
      assert s[i := v][..n] == s[..n];
    } else {
      assert s[i := v][..n] == s[..n][i := v];
      CountUpdate(f, s[..n], i, v);
    }
  }

  lemma {:induction false} CountNone<T>(f: T -> bool, s: seq<T>)
    requires forall i :: 0 <= i < |s| ==> !f(s[i])
    ensures CountIf(f, s) == 0
  {
    if s != [] {
      CountNone(f, s[..|s| - 1]);
    }
  }

  lemma {:induction false} CountSome<T>(f: T -> bool, s: seq<T>, i: nat)
    requires i < |s| && f(s[i])
    ensures CountIf(f, s) >= 1
  {
    if i < |s| - 1 {
      CountSome(f, s[..|s| - 1], i);
    }
  }

  /** Two different ones make two. */
  lemma {:induction false} CountTwo<T>(f: T -> bool, s: seq<T>, i: nat, j: nat)
    requires i < j < |s| && f(s[i]) && f(s[j])
    ensures CountIf(f, s) >= 2
  {
    var n := |s| - 1;
    if j == n {
      CountSome(f, s[..n], i);
    } else {
      CountTwo(f, s[..n], i, j);
    }
  }

  lemma {:induction false} CountWitness<T>(f: T -> bool, s: seq<T>) returns (i: nat)
    requires CountIf(f, s) > 0
    ensures i < |s| && f(s[i])
  {
    if f(s[|s| - 1]) {
      i := |s| - 1;
    } else {
      i := CountWitness(f, s[..|s| - 1]);
    }
  }

  // ----- the invariant

  /** Between acquiring and releasing the spin lock. */
  predicate InUse(c: Stage)
  {
    c.LockInside? || c.LockLeave? || c.LockQueued? || c.TryInside? || c.TryLeave? || c.UnlockInside? || c.UnlockLeave?
      || c.UnlockLeaveTo?
  }

  /** The call itself has the ownership in hand. */
  predicate HasToken(c: Stage)
  {
    c.LockLeave? || c == TryLeave(true) || c.UnlockEnter? || c.UnlockInside?
  }

  predicate WakesHeir(c: Stage)
  {
    c.UnlockLeaveTo? || c.Waking?
  }

  predicate Waits(c: Stage)
  {
    c.LockQueued? || c.Asleep?
  }

  ghost predicate Distinct(s: seq<Pid>)
  {
    forall i, j :: 0 <= i < j < |s| ==> s[i] != s[j]
  }

  datatype Heir = Nobody | Heir(pid: Pid)

  /**
   The state of the lock when `held` owners (0 or 1) are outside the calls and `heir` has been given
   the lock but has not yet returned from its sleep.
   */
  ghost predicate Inv(q: Lock, ready: set<Pid>, st: seq<Stage>, held: nat, heir: Heir)
  {
    && CountIf(InUse, st) == Bit(q.use)
    && CountIf(HasToken, st) + held + Bit(heir.Heir?) == Bit(q.locked)
    && (q.queue == [] || q.locked) && Distinct(q.queue)
    && (forall p :: 0 <= p < |st| ==> (Waits(st[p]) <==> p in q.queue || heir == Heir(p)))
    && (forall p :: p in q.queue ==> p < |st| && heir != Heir(p))
    && (heir.Heir? ==> heir.pid < |st| && st[heir.pid].Asleep?)
    && (forall p :: 0 <= p < |st| && WakesHeir(st[p]) ==> heir == Heir(st[p].heir))
    && CountIf(WakesHeir, st) + Bit(heir.Heir? && heir.pid in ready) == Bit(heir.Heir?)
    && (forall p :: 0 <= p < |st| && Waits(st[p]) && p in ready ==> heir == Heir(p))
    && q.enqueued == q.readied + (if heir.Heir? && heir.pid !in ready then [heir.pid] else []) + q.queue
  }

  function After(out: Outcome): Stage
  {
    match out
    case Go(c) => c
    case Done(_) => Away
  }

  /** How the counts change when one process moves. */
  lemma CountsMove(st: seq<Stage>, p: Pid, c: Stage)
    requires p < |st|
    ensures CountIf(InUse, st[p := c]) + Bit(InUse(st[p])) == CountIf(InUse, st) + Bit(InUse(c))
    ensures CountIf(HasToken, st[p := c]) + Bit(HasToken(st[p])) == CountIf(HasToken, st) + Bit(HasToken(c))
    ensures CountIf(WakesHeir, st[p := c]) + Bit(WakesHeir(st[p])) == CountIf(WakesHeir, st) + Bit(WakesHeir(c))
  {
    CountUpdate(InUse, st, p, c);
    CountUpdate(HasToken, st, p, c);
    CountUpdate(WakesHeir, st, p, c);
  }

  /** Actions that change neither the queue nor who has been given the lock. */
  lemma QuietActKeeps(q: Lock, ready: set<Pid>, st: seq<Stage>, held: nat, heir: Heir, p: Pid)
    requires Inv(q, ready, st, held, heir) && p < |st| && Act(q, ready, p, st[p]).Did?
    requires !st[p].Asleep? && !st[p].Waking? && !(st[p].LockInside? && q.locked)
             && !(st[p].UnlockInside? && q.queue != [])
    ensures var r := Act(q, ready, p, st[p]);
            Inv(r.q, r.ready, st[p := After(r.out)], held + Bit(r.out == Done(true)), heir)
  {
    hide CountIf;
    var r := Act(q, ready, p, st[p]);
    CountsMove(st, p, After(r.out));
    if InUse(st[p]) {
      CountSome(InUse, st, p);
    }
    if HasToken(st[p]) {
      CountSome(HasToken, st, p);
    }
  }

  lemma EnqueueKeeps(q: Lock, ready: set<Pid>, st: seq<Stage>, held: nat, heir: Heir, p: Pid)
    requires Inv(q, ready, st, held, heir) && p < |st| && st[p].LockInside? && q.locked && p !in ready
    ensures Inv(q.(queue := q.queue + [p], enqueued := q.enqueued + [p]), ready, st[p := LockQueued], held, heir)
  {
    hide CountIf;
    CountsMove(st, p, LockQueued);
  }

  /** The lock goes to the head of the queue. */
  lemma HandOffKeeps(q: Lock, ready: set<Pid>, st: seq<Stage>, held: nat, heir: Heir, p: Pid)
    requires Inv(q, ready, st, held, heir) && p < |st| && st[p].UnlockInside? && q.queue != []
    ensures Inv(q.(queue := q.queue[1..]), ready, st[p := UnlockLeaveTo(q.queue[0])], held, Heir(q.queue[0]))
  {
    hide CountIf;
    CountsMove(st, p, UnlockLeaveTo(q.queue[0]));
    CountSome(HasToken, st, p);
    var h := q.queue[0];
    assert h in q.queue && q.queue == [h] + q.queue[1..];
    if st[h].LockQueued? {
      SpinTwice(st, h, p);
    }
    assert heir.Nobody? && h !in ready && h !in q.queue[1..];
    assert q.readied + [] + q.queue == q.readied + [h] + q.queue[1..];
    assert forall i :: i in q.queue[1..] ==> i in q.queue;
    assert forall i :: i in q.queue ==> i == h || i in q.queue[1..];
  }

  lemma SpinTwice(st: seq<Stage>, h: Pid, p: Pid)
    requires h < |st| && p < |st| && h != p && InUse(st[h]) && InUse(st[p])
    ensures CountIf(InUse, st) >= 2
  {
    if h < p {
      CountTwo(InUse, st, h, p);
    } else {
      CountTwo(InUse, st, p, h);
    }
  }

  lemma WakeKeeps(q: Lock, ready: set<Pid>, st: seq<Stage>, held: nat, heir: Heir, p: Pid)
    requires Inv(q, ready, st, held, heir) && p < |st| && st[p].Waking?
    ensures var h := st[p].heir;
            Inv(q.(readied := q.readied + [h]), ready + {h}, st[p := Away], held, heir)
  {
    hide CountIf;
    CountsMove(st, p, Away);
    CountSome(WakesHeir, st, p);
  }

  lemma AwakeKeeps(q: Lock, ready: set<Pid>, st: seq<Stage>, held: nat, heir: Heir, p: Pid)
    requires Inv(q, ready, st, held, heir) && p < |st| && st[p].Asleep? && p in ready
    ensures Inv(q, ready - {p}, st[p := Away], held + 1, Nobody)
  {
    hide CountIf;
    CountsMove(st, p, Away);
    forall w | 0 <= w < |st| && WakesHeir(st[w])
      ensures false
    {
      CountSome(WakesHeir, st, w);
    }
  }

  /** Every action keeps the invariant; ownership passes between the calls and their users and is never doubled. */
  lemma ActKeeps(q: Lock, ready: set<Pid>, st: seq<Stage>, held: nat, heir: Heir, p: Pid) returns (heir': Heir)
    requires Inv(q, ready, st, held, heir) && p < |st| && Act(q, ready, p, st[p]).Did? && (p in ready ==> Waits(st[p]))
    ensures var r := Act(q, ready, p, st[p]);
            Inv(r.q, r.ready, st[p := After(r.out)], held + Bit(r.out == Done(true)), heir')
  {
    hide Inv;
    heir' := heir;
    if st[p].LockInside? && q.locked {
      EnqueueKeeps(q, ready, st, held, heir, p);
    } else if st[p].UnlockInside? && q.queue != [] {
      HandOffKeeps(q, ready, st, held, heir, p);
      heir' := Heir(q.queue[0]);
    } else if st[p].Waking? {
      WakeKeeps(q, ready, st, held, heir, p);
    } else if st[p].Asleep? {
      AwakeKeeps(q, ready, st, held, heir, p);
      heir' := Nobody;
    } else {
      QuietActKeeps(q, ready, st, held, heir, p);
    }
  }

  // ----- the edges of the calls

  predicate Begins(c: Stage)
  {
    c.LockEnter? || c.TryEnter? || c.UnlockEnter?
  }

  /** A call of qlock or canqlock brings nothing; a call of qunlock brings the ownership. */
  lemma BeginKeeps(q: Lock, ready: set<Pid>, st: seq<Stage>, held: nat, heir: Heir, p: Pid, c: Stage)
    requires Inv(q, ready, st, held, heir) && p < |st| && st[p].Away? && Begins(c) && (c.UnlockEnter? ==> held > 0)
    ensures Inv(q, ready, st[p := c], if c.UnlockEnter? then held - 1 else held, heir)
  {
    hide CountIf;
    CountsMove(st, p, c);
  }

  /** Wakeups of processes that sleep elsewhere do not matter. */
  lemma OtherWakeups(q: Lock, ready: set<Pid>, ready': set<Pid>, st: seq<Stage>, held: nat, heir: Heir)
    requires Inv(q, ready, st, held, heir) && forall p :: 0 <= p < |st| && Waits(st[p]) ==>
             (p in ready <==> p in ready')
    ensures Inv(q, ready', st, held, heir)
  {
  }

  function Fresh(): Lock
  {
    Lock(false, false, [], [], [])
  }

  lemma FreshInv(st: seq<Stage>)
    requires forall p :: 0 <= p < |st| ==> st[p].Away?
    ensures Inv(Fresh(), {}, st, 0, Nobody)
  {
    CountNone(InUse, st);
    CountNone(HasToken, st);
    CountNone(WakesHeir, st);
  }
}
