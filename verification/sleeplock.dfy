/** Sleep-locks on top of sleep and wakeup, as steps of processes that run concurrently.  A step is
    what happens inside one critical section on one p->lock; the inner spinlock is held across steps. */
module Sleeplock {
  /** Where a process is with respect to the lock: outside, in acquiresleep (before and under the inner
      lock, going to sleep, asleep, awake again), holding it, or in releasesleep (before the inner
      lock, about to clear `locked`, and in wakeup's loop). */
  datatype Pc =
    Outside | Acquiring | Testing | Dozing | Asleep | Awake | Holding | Releasing | Clearing | Waking(w: int)

  /** selfLocked: the process holds its own p->lock on the way to the scheduler. */
  datatype Proc = Proc(pc: Pc, pid: int, selfLocked: bool)

  /** inner: holder of lk->lk, -1 if none; locked and pid are the sleep-lock's fields. */
  datatype St = St(p: seq<Proc>, inner: int, locked: bool, pid: int)

  predicate HoldsInner(pc: Pc) { pc.Testing? || pc.Clearing? || pc.Waking? }
  predicate Owner(pc: Pc) { pc.Holding? || pc.Releasing? || pc.Clearing? }
  predicate Resting(pc: Pc) { pc.Dozing? || pc.Asleep? }

  /** A releaser has cleared the lock and has not yet come to process i in wakeup. */
  predicate Coming(s: St, i: int) {
    0 <= s.inner < |s.p| && s.p[s.inner].pc.Waking? && s.p[s.inner].pc.w <= i
  }

  predicate ProcOk(p: Proc, i: int, n: int, inner: int, locked: bool, pid: int, coming: bool) {
    && (HoldsInner(p.pc) <==> inner == i)
    && (Owner(p.pc) ==> locked && pid == p.pid)
    && (p.selfLocked <==> p.pc.Dozing?)
    && (Resting(p.pc) ==> locked || coming)
    && (p.pc.Waking? ==> 0 <= p.pc.w <= n && !locked)
    && p.pid > 0
  }

  predicate PairOk(p: Proc, i: int, c: Proc, k: int) {
    i != k ==> !(Owner(p.pc) && Owner(c.pc)) && p.pid != c.pid
  }

  ghost predicate One(s: St, i: int)
    requires 0 <= i < |s.p|
  {
    ProcOk(s.p[i], i, |s.p|, s.inner, s.locked, s.pid, Coming(s, i))
  }

  ghost predicate Two(s: St, i: int, k: int)
    requires 0 <= i < |s.p| && 0 <= k < |s.p|
  {
    PairOk(s.p[i], i, s.p[k], k)
  }

  ghost predicate OwnedBy(s: St, i: int)
    requires 0 <= i < |s.p|
  {
    Owner(s.p[i].pc)
  }

  ghost predicate Inv(s: St) {
    && -1 <= s.inner < |s.p|
    && (forall i | 0 <= i < |s.p| :: One(s, i))
    && (forall i, k | 0 <= i < |s.p| && 0 <= k < |s.p| :: Two(s, i, k))
    && (s.locked ==> exists i :: 0 <= i < |s.p| && OwnedBy(s, i))
  }

  datatype Step =
    | Call(i: int) | Lock(i: int) | Test(i: int) | Sleep(i: int) | Retry(i: int)
    | Release(i: int) | LockToRelease(i: int) | Clear(i: int) | Wakeup(i: int) | Kill(i: int)

  predicate Enabled(s: St, e: Step) {
    && 0 <= e.i < |s.p| && var p := s.p[e.i];
    match e
    case Call(_) => p.pc.Outside?
    case Lock(_) => p.pc.Acquiring? && s.inner == -1
    case Test(_) => p.pc.Testing?
    case Sleep(_) => p.pc.Dozing?
    case Retry(_) => p.pc.Awake?
    case Release(_) => p.pc.Holding?
    case LockToRelease(_) => p.pc.Releasing? && s.inner == -1
    case Clear(_) => p.pc.Clearing?
    case Wakeup(i) =>
      p.pc.Waking? && (p.pc.w == |s.p| || p.pc.w == i || (0 <= p.pc.w < |s.p| && !s.p[p.pc.w].selfLocked))
    case Kill(_) => p.pc.Asleep?
  }

  /** What a step makes of process x. */
  function After(s: St, e: Step, x: int): Proc
    requires 0 <= x < |s.p| && 0 <= e.i < |s.p|
  {
    var p, o, me := s.p[e.i], s.p[x], x == e.i;
    match e
    case Call(_) => if me then p.(pc := Acquiring) else o
    case Lock(_) => if me then p.(pc := Testing) else o
    case Test(_) => if !me then o else if s.locked then p.(pc := Dozing, selfLocked := true) else p.(pc := Holding)
    case Sleep(_) => if me then p.(pc := Asleep, selfLocked := false) else o
    case Retry(_) => if me then p.(pc := Acquiring) else o
    case Release(_) => if me then p.(pc := Releasing) else o
    case LockToRelease(_) => if me then p.(pc := Clearing) else o
    case Clear(_) => if me then p.(pc := Waking(0)) else o
    case Wakeup(_) =>
      if !p.pc.Waking? then o
      else if me then if p.pc.w == |s.p| then p.(pc := Outside) else p.(pc := Waking(p.pc.w + 1))
      else if x == p.pc.w && o.pc.Asleep? then o.(pc := Awake) else o
    case Kill(_) => if me then p.(pc := Awake) else o
  }

  function Do(s: St, e: Step): St
    requires 0 <= e.i < |s.p|
  {
    var p := s.p[e.i];
    St(seq(|s.p|, x requires 0 <= x < |s.p| => After(s, e, x)),
       if e.Lock? || e.LockToRelease? then e.i
       else if e.Test? || (e.Wakeup? && p.pc.Waking? && p.pc.w == |s.p|) then -1 else s.inner,
       if e.Test? then true else if e.Clear? then false else s.locked,
       if e.Test? && !s.locked then p.pid else if e.Clear? then 0 else s.pid)
  }

  ghost predicate Known(s: St, e: Step, i: int) {
    && -1 <= s.inner < |s.p| && 0 <= i < |s.p| && Enabled(s, e) && One(s, i) && One(s, e.i) && Two(s, e.i, i)
    && Two(s, i, e.i)
  }

  lemma OneKept(s: St, e: Step, i: int)
    requires Known(s, e, i)
    ensures One(Do(s, e), i)
  {
  }

  lemma TwoKept(s: St, e: Step, i: int, k: int)
    requires Known(s, e, i) && Known(s, e, k) && Two(s, i, k)
    ensures Two(Do(s, e), i, k)
  {
  }

  lemma OwnerKept(s: St, e: Step)
    requires Inv(s) && Enabled(s, e) && Do(s, e).locked
    ensures exists i :: 0 <= i < |s.p| && OwnedBy(Do(s, e), i)
  {
    hide Two;
    assert One(s, e.i);
    if e.Test? && !s.locked {
      assert OwnedBy(Do(s, e), e.i);
    } else {
      var i :| 0 <= i < |s.p| && OwnedBy(s, i);
      assert One(s, i);
      assert OwnedBy(Do(s, e), i);
    }
  }

  /** Every step of every process, in any order, keeps the invariant. */
  lemma StepKeepsInv(s: St, e: Step)
    requires Inv(s) && Enabled(s, e)
    ensures Inv(Do(s, e))
  {
    hide One, Two, After;
    var t := Do(s, e);
    forall i | 0 <= i < |t.p| ensures One(t, i) {
      OneKept(s, e, i);
    }
    forall i, k | 0 <= i < |t.p| && 0 <= k < |t.p| ensures Two(t, i, k) {
      TwoKept(s, e, i, k);
    }
    if t.locked {
      OwnerKept(s, e);
    }
    InnerBound(s, e);
  }

  lemma InnerBound(s: St, e: Step)
    requires Inv(s) && Enabled(s, e)
    ensures -1 <= Do(s, e).inner < |s.p|
  {
  }

  predicate InAcquire(pc: Pc) { pc.Acquiring? || pc.Testing? || pc.Dozing? || pc.Asleep? || pc.Awake? }
  predicate InRelease(pc: Pc) { pc.Releasing? || pc.Clearing? || pc.Waking? }

  /** acquiresleep returns holding the lock, and only after finding it free. */
  lemma AcquireEnds(s: St, e: Step, i: int)
    requires Inv(s) && Enabled(s, e) && 0 <= i < |s.p| && InAcquire(s.p[i].pc)
    ensures var t := Do(s, e);
            InAcquire(t.p[i].pc) || (t.p[i].pc.Holding? && !s.locked && t.locked && t.pid == s.p[i].pid)
    ensures s.p[i].pc.Awake? ==> Do(s, e).p[i].pc.Awake? || Do(s, e).p[i].pc.Acquiring?
  {
    hide Two;
    assert One(s, i);
  }

  /** The owner keeps the lock until it calls releasesleep and comes to clear it. */
  lemma HoldingEnds(s: St, e: Step, i: int)
    requires Inv(s) && Enabled(s, e) && 0 <= i < |s.p| && Owner(s.p[i].pc)
    ensures s.p[i].pc.Holding? ==> Do(s, e).p[i].pc.Holding? || (e == Release(i) && Do(s, e).p[i].pc.Releasing?)
    ensures (Do(s, e).locked && Owner(Do(s, e).p[i].pc)) || (e == Clear(i) && Do(s, e).p[i].pc == Waking(0))
  {
    assert One(s, i) && One(s, e.i) && Two(s, e.i, i);
  }

  /** releasesleep returns with the lock given up and nobody left asleep on it. */
  lemma ReleaseEnds(s: St, e: Step, i: int)
    requires Inv(s) && Enabled(s, e) && 0 <= i < |s.p| && InRelease(s.p[i].pc) && !InRelease(Do(s, e).p[i].pc)
    ensures var t := Do(s, e);
            t.p[i].pc.Outside? && !t.locked && forall k | 0 <= k < |s.p| :: !Resting(t.p[k].pc)
  {
    hide Two, Coming;
    assert One(s, i) && One(s, e.i);
    StepKeepsInv(s, e);
    var t := Do(s, e);
    forall k | 0 <= k < |s.p| ensures !Resting(t.p[k].pc) {
      assert One(t, k);
      NoneComing(t, k);
    }
  }

  lemma NoneComing(s: St, k: int)
    requires s.inner == -1
    ensures !Coming(s, k)
  {
  }

  // The inner lock is always given up, and nobody is stuck.

  /** How many steps of its own the holder of the inner lock takes at most until it gives it up. */
  function Left(pc: Pc, n: int): int {
    match pc
    case Testing => 1
    case Clearing => n + 2
    case Waking(w) => n - w + 1
    case _ => 0
  }

  /** Every step of the holder brings the end of its turn closer, and nobody else's step delays it. */
  lemma InnerGivenUp(s: St, e: Step)
    requires Inv(s) && Enabled(s, e) && s.inner >= 0
    ensures var t := Do(s, e);
            && Left(s.p[s.inner].pc, |s.p|) > 0
            && (t.inner == -1 || t.inner == s.inner)
            && (e.i == s.inner && t.inner >= 0 ==> Left(t.p[t.inner].pc, |s.p|) < Left(s.p[s.inner].pc, |s.p|))
            && (e.i != s.inner ==> t.inner == s.inner && t.p[t.inner].pc == s.p[s.inner].pc)
  {
    hide Two, Coming;
    assert One(s, s.inner) && One(s, e.i);
  }

  /** The holder can go on, unless its wakeup has come to a process that is about to sleep; that one can. */
  lemma HolderMoves(s: St) returns (e: Step)
    requires Inv(s) && s.inner >= 0
    ensures Enabled(s, e) && !e.Kill?
    ensures e.i == s.inner || (e.Sleep? && s.p[s.inner].pc == Waking(e.i))
  {
    hide Two, Coming;
    var i := s.inner;
    assert One(s, i);
    match s.p[i].pc
    case Testing => return Test(i);
    case Clearing => return Clear(i);
    case Waking(w) =>
      if w < |s.p| && w != i && s.p[w].selfLocked {
        assert One(s, w);
        return Sleep(w);
      }
      return Wakeup(i);
    case _ => assert false;
  }

  /** A process in acquiresleep or releasesleep that does not sleep can go on, or waits for the inner lock. */
  lemma NeverStuck(s: St, i: int) returns (e: Step)
    requires Inv(s) && 0 <= i < |s.p| && (InAcquire(s.p[i].pc) || InRelease(s.p[i].pc)) && !s.p[i].pc.Asleep?
    ensures Enabled(s, e) && !e.Kill?
    ensures e.i == i || (s.inner >= 0 && (e.i == s.inner || (e.Sleep? && s.p[s.inner].pc == Waking(e.i))))
  {
    hide Two, Coming;
    assert One(s, i);
    if s.p[i].pc.Dozing? {
      return Sleep(i);
    }
    if s.p[i].pc.Awake? {
      return Retry(i);
    }
    if s.inner >= 0 {
      e := HolderMoves(s);
    } else {
      return if s.p[i].pc.Acquiring? then Lock(i) else LockToRelease(i);
    }
  }

  ghost predicate RunOf(s: St, es: seq<Step>)
    requires Inv(s)
    decreases |es|
  {
    es != [] ==> Enabled(s, es[0]) && (StepKeepsInv(s, es[0]); RunOf(Do(s, es[0]), es[1..]))
  }

  ghost function Last(s: St, es: seq<Step>): (t: St)
    requires Inv(s) && RunOf(s, es)
    ensures Inv(t) && |t.p| == |s.p|
    decreases |es|
  {
    if es == [] then s else (StepKeepsInv(s, es[0]); Last(Do(s, es[0]), es[1..]))
  }

  /** n processes outside a fresh lock. */
  function Unheld(n: nat): St {
    St(seq(n, i => Proc(Outside, i + 1, false)), -1, false, 0)
  }

  lemma UnheldInv(n: nat)
    ensures Inv(Unheld(n))
  {
    var s := Unheld(n);
    forall i | 0 <= i < n ensures One(s, i) {
      assert s.p[i] == Proc(Outside, i + 1, false);
    }
    forall i, k | 0 <= i < n && 0 <= k < n ensures Two(s, i, k) {
      assert s.p[i] == Proc(Outside, i + 1, false) && s.p[k] == Proc(Outside, k + 1, false);
    }
  }

  ghost function Fresh(n: nat): (s: St)
    ensures Inv(s) && |s.p| == n
  {
    UnheldInv(n);
    Unheld(n)
  }

  /** In every run at most one process holds the lock. */
  lemma MutualExclusion(n: nat, es: seq<Step>, i: int, k: int)
    requires RunOf(Fresh(n), es) && 0 <= i < n && 0 <= k < n
    requires Owner(Last(Fresh(n), es).p[i].pc) && Owner(Last(Fresh(n), es).p[k].pc)
    ensures i == k
  {
    hide One;
    assert Two(Last(Fresh(n), es), i, k);
  }

  /** In every run, whoever sleeps on the lock has somebody who will wake it: the lock has an owner, or
      a releaser's wakeup has still to come to it. */
  lemma NoLostWakeup(n: nat, es: seq<Step>, i: int)
    requires RunOf(Fresh(n), es) && 0 <= i < n && Last(Fresh(n), es).p[i].pc.Asleep?
    ensures (exists k :: 0 <= k < n && OwnedBy(Last(Fresh(n), es), k)) || Coming(Last(Fresh(n), es), i)
  {
    hide Two;
    assert One(Last(Fresh(n), es), i);
  }

  /** With the inner lock free, holdingsleep's test tells whether process i holds the lock. */
  lemma HoldingTells(n: nat, es: seq<Step>, i: int)
    requires RunOf(Fresh(n), es) && 0 <= i < n
    ensures var s := Last(Fresh(n), es); s.locked && s.pid == s.p[i].pid <==> Owner(s.p[i].pc)
  {
    var s := Last(Fresh(n), es);
    assert One(s, i);
    if s.locked {
      var k :| 0 <= k < |s.p| && OwnedBy(s, k);
      assert One(s, k) && Two(s, i, k);
    }
  }
}
