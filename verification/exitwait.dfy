/** kfork, kexit, kwait, sleep and wakeup as steps of processes that run concurrently.  A step is what
    happens inside one critical section on one p->lock; wait_lock is held across steps. */
module ExitWait {
  datatype State = Unused | Used | Sleeping | Runnable | Running | Zombie

  /** What a process sleeps on: a process (only kwait does that) or something else. */
  datatype Chan = NoChan | OfProc(q: int) | Other

  /** Where a process is: in kfork, in kexit under wait_lock, in kwait, or elsewhere.  A scan of n processes
      that has come to n + 1 has found children, tested killed(p), and decided to sleep. */
  datatype Pc =
    | User
    | Forking(j: int) | Forked(j: int)
    | Reparent(k: int) | WakeInit(k: int, w: int) | WakeParent(w: int) | Gone
    | Waiting | Scan(k: int, kids: bool) | Dozing | Asleep

  /** parent is -1 for none; locked: the process itself holds its p->lock until it is off the CPU. */
  datatype Proc = Proc(st: State, parent: int, chan: Chan, pid: int, xstate: int, killed: bool, locked: bool, pc: Pc)

  /** lock: who holds wait_lock, -1 if nobody.  exited and reaped record statuses by pid. */
  datatype St = St(p: seq<Proc>, lock: int, init: int, next: int, exited: map<int, int>, reaped: map<int, int>)

  predicate Holds(pc: Pc) { pc.Reparent? || pc.WakeInit? || pc.WakeParent? || pc.Scan? }

  predicate Live(st: State) { st.Sleeping? || st.Runnable? || st.Running? }

  /** In kwait and asleep, or about to be. */
  predicate Resting(p: Proc) { p.pc.Dozing? || (p.pc.Asleep? && p.st.Sleeping?) }

  predicate Forks(pc: Pc, j: int) { (pc.Forking? || pc.Forked?) && pc.j == j }

  /** Where process i is agrees with its state and its locks. */
  predicate StateOk(p: Proc, i: int, lock: int) {
    && (Holds(p.pc) <==> lock == i)
    && (p.st.Unused? || p.st.Used? ==> p.pc.User?)
    && (p.st.Zombie? <==> p.pc.Gone?)
    && (Holds(p.pc) || p.pc.Dozing? ==> p.st.Running?)
    && (p.pc.Forking? || p.pc.Forked? || p.pc.Waiting? ==> p.st.Running? || p.st.Runnable?)
    && (p.pc.Asleep? ==> Live(p.st))
    && (p.chan.OfProc? ==> p.chan.q == i)
    && (p.st.Sleeping? ==> (p.chan.OfProc? <==> p.pc.Asleep?))
    && (p.locked ==> p.pc.Dozing? || p.pc.Gone?) && (p.pc.Dozing? ==> p.locked)
  }

  /** Every process but init has a parent, and init never exits. */
  predicate TreeOk(p: Proc, i: int, n: int, init: int) {
    && -1 <= p.parent < n && p.parent != i
    && (p.st.Unused? ==> p.parent == -1)
    && (i != init && (Live(p.st) || p.st.Zombie?) ==> p.parent >= 0)
    && (i == init ==> p.parent == -1 && Live(p.st) && !p.pc.Reparent? && !p.pc.WakeInit? && !p.pc.WakeParent?)
    && (p.pc.Reparent? ==> 0 <= p.pc.k <= n) && (p.pc.WakeInit? ==> 0 <= p.pc.k < n && 0 <= p.pc.w <= n)
    && (p.pc.WakeParent? ==> 0 <= p.pc.w <= n) && (p.pc.Scan? ==> 0 <= p.pc.k <= n + 1 && (p.pc.k > n ==> p.pc.kids))
  }

  /** Pids are not reused; an exited process is a zombie until it is reaped, with its status. */
  predicate PidOk(p: Proc, next: int, exited: map<int, int>, reaped: map<int, int>) {
    && (!p.st.Unused? ==> 0 < p.pid < next && p.pid !in reaped)
    && (p.st.Zombie? ==> p.pid in exited && exited[p.pid] == p.xstate)
    && (!p.st.Unused? && !p.st.Zombie? ==> p.pid !in exited)
  }

  /** Parents are alive; an exiting process has given away the children it has passed, and a waiting
      one has no zombie among those it has passed, and has noticed them. */
  predicate ChildOk(p: Proc, i: int, c: Proc, k: int) {
    c.parent == i ==>
      && Live(p.st) && !p.pc.WakeParent?
      && (p.pc.Reparent? ==> k >= p.pc.k)
      && (p.pc.WakeInit? ==> k > p.pc.k)
      && (c.st.Zombie? && p.pc.Scan? ==> k >= p.pc.k)
      && (p.pc.Scan? && k < p.pc.k ==> p.pc.kids)
  }

  /** Nobody rests in kwait with a zombie child, unless init and about to be woken. */
  predicate RestOk(p: Proc, i: int, c: Proc, waking: bool) {
    c.parent == i && Resting(p) ==> (c.st.Zombie? ==> waking) && (c.pc.WakeParent? ==> c.pc.w <= i)
  }

  /** A process being forked belongs to one forker. */
  predicate ForkOk(p: Proc, i: int, c: Proc, k: int) {
    && (Forks(p.pc, k) ==> i != k && c.st.Used? && c.parent == (if p.pc.Forking? then -1 else i))
    && (i != k && (p.pc.Forking? || p.pc.Forked?) ==> !Forks(c.pc, p.pc.j))
  }

  predicate ApartOk(p: Proc, i: int, c: Proc, k: int) {
    i != k && !p.st.Unused? && !c.st.Unused? ==> p.pid != c.pid
  }

  /** The holder of wait_lock has still to wake init. */
  predicate InitToWake(s: St)
    requires -1 <= s.lock < |s.p|
  {
    s.lock >= 0 && s.p[s.lock].pc.WakeInit? && s.p[s.lock].pc.w <= s.init
  }

  /** What holds of one process. */
  ghost predicate One(s: St, i: int)
    requires 0 <= i < |s.p|
  {
    StateOk(s.p[i], i, s.lock) && TreeOk(s.p[i], i, |s.p|, s.init) && PidOk(s.p[i], s.next, s.exited, s.reaped)
  }

  /** What holds of process i with respect to process k. */
  ghost predicate Two(s: St, i: int, k: int)
    requires 0 <= i < |s.p| && 0 <= k < |s.p| && -1 <= s.lock < |s.p|
  {
    && ChildOk(s.p[i], i, s.p[k], k) && RestOk(s.p[i], i, s.p[k], i == s.init && InitToWake(s))
    && ForkOk(s.p[i], i, s.p[k], k) && ApartOk(s.p[i], i, s.p[k], k)
  }

  ghost predicate ZombieOf(s: St, pid: int, i: int)
    requires 0 <= i < |s.p|
  {
    s.p[i].st.Zombie? && s.p[i].pid == pid
  }

  /** Every exited process is either reaped or still there. */
  ghost predicate Accounted(s: St, pid: int) {
    pid in s.exited && pid < s.next && if pid in s.reaped then s.reaped[pid] == s.exited[pid]
                       else exists i :: 0 <= i < |s.p| && ZombieOf(s, pid, i)
  }

  predicate ChildBelow(s: St, i: int, k: int, n: int) { 0 <= k < n && k < |s.p| && s.p[k].parent == i }

  /** What kwait takes for a child is one. */
  ghost predicate KidsOk(s: St, i: int)
    requires 0 <= i < |s.p|
  {
    s.p[i].pc.Scan? && s.p[i].pc.kids ==> exists k :: ChildBelow(s, i, k, s.p[i].pc.k)
  }

  ghost predicate Inv(s: St) {
    && -1 <= s.lock < |s.p| && 0 <= s.init < |s.p| && 0 < s.next
    && (forall i | 0 <= i < |s.p| :: One(s, i))
    && (forall i, k | 0 <= i < |s.p| && 0 <= k < |s.p| :: Two(s, i, k))
    && (forall i | 0 <= i < |s.p| :: KidsOk(s, i))
    && (forall pid | pid in s.exited || pid in s.reaped :: Accounted(s, pid))
  }

  datatype Step =
    | ForkAlloc(i: int, j: int) | ForkFail(i: int) | ForkParent(i: int) | ForkRun(i: int)
    | ExitLock(i: int) | ExitReparent(i: int) | ExitWakeInit(i: int) | ExitWakeParent(i: int)
    | ExitZombie(i: int, status: int) | ExitOff(i: int)
    | WaitCall(i: int) | WaitLock(i: int) | WaitScan(i: int, copyFails: bool) | WaitGiveUp(i: int)
    | WaitDecide(i: int) | WaitDoze(i: int) | WaitSleep(i: int) | WaitAwake(i: int)
    | Schedule(i: int) | Yield(i: int) | SleepOther(i: int) | WakeOther(i: int) | Tidy(i: int) | Kill(i: int)

  /** What freeproc leaves in a slot. */
  function Empty(): Proc { Proc(Unused, -1, NoChan, 0, 0, false, false, User) }

  /** One round of wakeup's loop, on channel q. */
  function Woken(p: Proc, q: int): Proc {
    if p.st.Sleeping? && p.chan == OfProc(q) then p.(st := Runnable) else p
  }

  predicate Enabled(s: St, e: Step)
    requires -1 <= s.lock < |s.p|
  {
    && 0 <= e.i < |s.p| && var p := s.p[e.i];
    match e
    case ForkAlloc(i, j) => p.st.Running? && p.pc.User? && 0 <= j < |s.p| && s.p[j].st.Unused?
    case ForkFail(i) => p.st.Running? && p.pc.Forking?
    case ForkParent(i) => p.st.Running? && p.pc.Forking? && s.lock == -1
    case ForkRun(i) => p.st.Running? && p.pc.Forked?
    case ExitLock(i) => p.st.Running? && p.pc.User? && i != s.init && s.lock == -1
    case ExitReparent(i) => p.pc.Reparent?
    case ExitWakeInit(i) =>
      p.pc.WakeInit? && (p.pc.w == |s.p| || p.pc.w == i || (0 <= p.pc.w < |s.p| && !s.p[p.pc.w].locked))
    case ExitWakeParent(i) => p.pc.WakeParent? && 0 <= p.pc.w < |s.p| && (p.pc.w == i || !s.p[p.pc.w].locked)
    case ExitZombie(i, _) => p.pc.WakeParent? && p.pc.w == |s.p|
    case ExitOff(i) => p.pc.Gone? && p.locked
    case WaitCall(i) => p.st.Running? && p.pc.User?
    case WaitLock(i) => p.st.Running? && p.pc.Waiting? && s.lock == -1
    case WaitScan(i, _) => p.pc.Scan? && 0 <= p.pc.k < |s.p| && (s.p[p.pc.k].parent == i ==> !s.p[p.pc.k].locked)
    case WaitGiveUp(i) => p.pc.Scan? && p.pc.k == |s.p| && (!p.pc.kids || p.killed)
    case WaitDecide(i) => p.pc.Scan? && p.pc.k == |s.p| && p.pc.kids && !p.killed
    case WaitDoze(i) => p.pc.Scan? && p.pc.k == |s.p| + 1
    case WaitSleep(i) => p.pc.Dozing?
    case WaitAwake(i) => p.pc.Asleep? && p.st.Running?
    case Schedule(i) => p.st.Runnable? && !p.locked
    case Yield(i) => p.st.Running? && !p.locked && !Holds(p.pc)
    case SleepOther(i) => p.st.Running? && p.pc.User?
    case WakeOther(i) => p.st.Sleeping? && p.chan.Other? && !p.locked
    case Tidy(i) => p.st.Running? && p.chan.Other? && p.pc.User?
    case Kill(i) => !p.locked && !p.st.Unused?
  }

  /** What a step makes of process x. */
  function After(s: St, e: Step, x: int): Proc
    requires 0 <= x < |s.p| && 0 <= e.i < |s.p|
  {
    var p, o, me := s.p[e.i], s.p[x], x == e.i;
    match e
    case ForkAlloc(_, j) =>
      if x == j then Empty().(st := Used, pid := s.next) else if me then p.(pc := Forking(j)) else o
    case ForkFail(_) => if Forks(p.pc, x) then Empty() else if me then p.(pc := User) else o
    case ForkParent(i) =>
      if Forks(p.pc, x) then o.(parent := i) else if me && p.pc.Forking? then p.(pc := Forked(p.pc.j)) else o
    case ForkRun(_) => if Forks(p.pc, x) then o.(st := Runnable) else if me then p.(pc := User) else o
    case ExitLock(_) => if me then p.(pc := Reparent(0)) else o
    case ExitReparent(i) =>
      if !p.pc.Reparent? then o
      else if p.pc.k == |s.p| then if me then p.(pc := WakeParent(0)) else o
      else if 0 <= p.pc.k < |s.p| && s.p[p.pc.k].parent == i then
        if me then p.(pc := WakeInit(p.pc.k, 0)) else if x == p.pc.k then o.(parent := s.init) else o
      else if me then p.(pc := Reparent(p.pc.k + 1)) else o
    case ExitWakeInit(_) =>
      if !p.pc.WakeInit? then o
      else if p.pc.w == |s.p| then if me then p.(pc := Reparent(p.pc.k + 1)) else o
      else if me then p.(pc := WakeInit(p.pc.k, p.pc.w + 1)) else if x == p.pc.w then Woken(o, s.init) else o
    case ExitWakeParent(_) =>
      if !p.pc.WakeParent? then o
      else if me then p.(pc := WakeParent(p.pc.w + 1)) else if x == p.pc.w then Woken(o, p.parent) else o
    case ExitZombie(_, status) => if me then p.(st := Zombie, xstate := status, locked := true, pc := Gone) else o
    case ExitOff(_) => if me then p.(locked := false) else o
    case WaitCall(_) => if me then p.(pc := Waiting) else o
    case WaitLock(_) => if me then p.(pc := Scan(0, false)) else o
    case WaitScan(i, copyFails) =>
      if !p.pc.Scan? || !(0 <= p.pc.k < |s.p|) then o
      else
        var c := s.p[p.pc.k];
        if c.parent != i then if me then p.(pc := Scan(p.pc.k + 1, p.pc.kids)) else o
        else if !c.st.Zombie? then if me then p.(pc := Scan(p.pc.k + 1, true)) else o
        else if me then p.(pc := User) else if x == p.pc.k && !copyFails then Empty() else o
    case WaitGiveUp(_) => if me then p.(pc := User) else o
    case WaitDecide(_) => if me && p.pc.Scan? then p.(pc := Scan(p.pc.k + 1, p.pc.kids)) else o
    case WaitDoze(_) => if me then p.(pc := Dozing, locked := true) else o
    case WaitSleep(i) => if me then p.(pc := Asleep, chan := OfProc(i), st := Sleeping, locked := false) else o
    case WaitAwake(_) => if me then p.(pc := Waiting, chan := NoChan) else o
    case Schedule(_) => if me then p.(st := Running) else o
    case Yield(_) => if me then p.(st := Runnable) else o
    case SleepOther(_) => if me then p.(st := Sleeping, chan := Other) else o
    case WakeOther(_) => if me then p.(st := Runnable) else o
    case Tidy(_) => if me then p.(chan := NoChan) else o
    case Kill(_) => if me then p.(killed := true, st := if p.st.Sleeping? then Runnable else p.st) else o
  }

  /** The scan has come to a zombie child. */
  predicate Found(s: St, i: int) {
    0 <= i < |s.p| && s.p[i].pc.Scan? && 0 <= s.p[i].pc.k < |s.p| && s.p[s.p[i].pc.k].parent == i
    && s.p[s.p[i].pc.k].st.Zombie?
  }

  function LockAfter(s: St, e: Step): int {
    if e.ExitLock? || e.WaitLock? then e.i
    else if e.ExitZombie? || e.WaitGiveUp? || e.WaitDoze? || (e.WaitScan? && Found(s, e.i)) then -1
    else s.lock
  }

  function Do(s: St, e: Step): St
    requires 0 <= e.i < |s.p|
  {
    var p := s.p[e.i];
    St(seq(|s.p|, x requires 0 <= x < |s.p| => After(s, e, x)), LockAfter(s, e), s.init,
       if e.ForkAlloc? then s.next + 1 else s.next,
       if e.ExitZombie? then s.exited[p.pid := e.status] else s.exited,
       if e.WaitScan? && Found(s, e.i) && !e.copyFails then s.reaped[s.p[p.pc.k].pid := s.p[p.pc.k].xstate]
       else s.reaped)
  }

  predicate ForkStep(e: Step) { e.ForkAlloc? || e.ForkFail? || e.ForkParent? || e.ForkRun? }
  predicate ExitStep(e: Step) {
    e.ExitLock? || e.ExitReparent? || e.ExitWakeInit? || e.ExitWakeParent? || e.ExitZombie? || e.ExitOff?
  }
  predicate WaitStep(e: Step) {
    e.WaitCall? || e.WaitLock? || e.WaitScan? || e.WaitGiveUp? || e.WaitDecide? || e.WaitDoze? || e.WaitSleep?
    || e.WaitAwake?
  }

  /** Pids from next on are new. */
  lemma FreshPid(s: St)
    requires Inv(s)
    ensures s.next !in s.exited && s.next !in s.reaped
  {
    hide One, Two;
    assert s.next in s.exited || s.next in s.reaped ==> Accounted(s, s.next);
  }

  /** What the invariant says of two processes. */
  lemma Pair(s: St, i: int, k: int)
    requires Inv(s) && 0 <= i < |s.p| && 0 <= k < |s.p|
    ensures -1 <= s.lock < |s.p| && 0 <= s.init < |s.p| && One(s, i) && One(s, k) && Two(s, i, k) && Two(s, k, i)
  {
    hide One, Two, Accounted;
  }

  /** The other process a fork step deals with, or the one under kwait's scan. */
  function Target(s: St, e: Step): int
    requires 0 <= e.i < |s.p|
  {
    var pc := s.p[e.i].pc;
    var j := if e.ForkAlloc? then e.j else if pc.Forking? || pc.Forked? then pc.j else if pc.Scan? then pc.k else e.i;
    if 0 <= j < |s.p| then j else e.i
  }

  /** What is known before a step about the processes that matter to process k. */
  ghost predicate Known(s: St, e: Step, k: int) {
    && -1 <= s.lock < |s.p| && 0 <= s.init < |s.p| && 0 <= k < |s.p| && Enabled(s, e) && 0 < s.next
    && One(s, k) && One(s, e.i) && Two(s, e.i, k) && Two(s, k, e.i)
    && (var j := Target(s, e); One(s, j) && Two(s, j, k) && Two(s, k, j) && Two(s, e.i, j) && Two(s, j, e.i))
    && s.next !in s.exited && s.next !in s.reaped
  }

  lemma IsKnown(s: St, e: Step, k: int)
    requires Inv(s) && Enabled(s, e) && 0 <= k < |s.p|
    ensures Known(s, e, k)
  {
    hide One, Two, Accounted;
    FreshPid(s);
  }

  /** Enough is known about processes i and k. */
  ghost predicate Ready(s: St, e: Step, i: int, k: int) {
    Known(s, e, i) && Known(s, e, k) && Two(s, i, k)
  }

  lemma StateFork(s: St, e: Step, i: int)
    requires Known(s, e, i) && ForkStep(e)
    ensures StateOk(After(s, e, i), i, LockAfter(s, e))
  {
    hide PidOk, ApartOk;
  }

  lemma StateExit(s: St, e: Step, i: int)
    requires Known(s, e, i) && ExitStep(e)
    ensures StateOk(After(s, e, i), i, LockAfter(s, e))
  {
    hide PidOk, ApartOk;
  }

  lemma StateWait(s: St, e: Step, i: int)
    requires Known(s, e, i) && WaitStep(e)
    ensures StateOk(After(s, e, i), i, LockAfter(s, e))
  {
    hide PidOk, ApartOk;
  }

  lemma StateOther(s: St, e: Step, i: int)
    requires Known(s, e, i) && !ForkStep(e) && !ExitStep(e) && !WaitStep(e)
    ensures StateOk(After(s, e, i), i, LockAfter(s, e))
  {
    hide PidOk, ApartOk;
  }

  lemma TreeFork(s: St, e: Step, i: int)
    requires Known(s, e, i) && ForkStep(e)
    ensures TreeOk(After(s, e, i), i, |s.p|, s.init)
  {
    hide PidOk, ApartOk, RestOk;
  }

  lemma TreeExit(s: St, e: Step, i: int)
    requires Known(s, e, i) && ExitStep(e)
    ensures TreeOk(After(s, e, i), i, |s.p|, s.init)
  {
    hide PidOk, ApartOk, RestOk;
  }

  lemma TreeWait(s: St, e: Step, i: int)
    requires Known(s, e, i) && WaitStep(e)
    ensures TreeOk(After(s, e, i), i, |s.p|, s.init)
  {
    hide PidOk, ApartOk, RestOk;
  }

  lemma TreeOther(s: St, e: Step, i: int)
    requires Known(s, e, i) && !ForkStep(e) && !ExitStep(e) && !WaitStep(e)
    ensures TreeOk(After(s, e, i), i, |s.p|, s.init)
  {
    hide PidOk, ApartOk, RestOk;
  }

  lemma PidFork(s: St, e: Step, i: int)
    requires Known(s, e, i) && ForkStep(e)
    ensures var t := Do(s, e); PidOk(After(s, e, i), t.next, t.exited, t.reaped)
  {
    hide TreeOk, RestOk, ChildOk;
  }

  lemma PidExit(s: St, e: Step, i: int)
    requires Known(s, e, i) && ExitStep(e)
    ensures var t := Do(s, e); PidOk(After(s, e, i), t.next, t.exited, t.reaped)
  {
    hide TreeOk, RestOk, ChildOk;
  }

  lemma PidWait(s: St, e: Step, i: int)
    requires Known(s, e, i) && WaitStep(e)
    ensures var t := Do(s, e); PidOk(After(s, e, i), t.next, t.exited, t.reaped)
  {
    hide TreeOk, RestOk, ChildOk;
  }

  lemma PidOther(s: St, e: Step, i: int)
    requires Known(s, e, i) && !ForkStep(e) && !ExitStep(e) && !WaitStep(e)
    ensures var t := Do(s, e); PidOk(After(s, e, i), t.next, t.exited, t.reaped)
  {
    hide TreeOk, RestOk, ChildOk;
  }

  lemma ChildFork(s: St, e: Step, i: int, k: int)
    requires Ready(s, e, i, k) && ForkStep(e)
    ensures ChildOk(After(s, e, i), i, After(s, e, k), k)
  {
    hide PidOk, ApartOk, RestOk;
  }

  lemma ChildReparent(s: St, e: Step, i: int, k: int)
    requires Ready(s, e, i, k) && e.ExitReparent?
    ensures ChildOk(After(s, e, i), i, After(s, e, k), k)
  {
    hide PidOk, ApartOk, RestOk, ForkOk;
  }

  lemma ChildExit(s: St, e: Step, i: int, k: int)
    requires Ready(s, e, i, k) && ExitStep(e)
    ensures ChildOk(After(s, e, i), i, After(s, e, k), k)
  {
    hide PidOk, ApartOk, RestOk, ForkOk;
    if e.ExitReparent? {
      ChildReparent(s, e, i, k);
    }
  }

  lemma ChildWait(s: St, e: Step, i: int, k: int)
    requires Ready(s, e, i, k) && WaitStep(e)
    ensures ChildOk(After(s, e, i), i, After(s, e, k), k)
  {
    hide PidOk, ApartOk, RestOk, ForkOk;
  }

  lemma ChildOther(s: St, e: Step, i: int, k: int)
    requires Ready(s, e, i, k) && !ForkStep(e) && !ExitStep(e) && !WaitStep(e)
    ensures ChildOk(After(s, e, i), i, After(s, e, k), k)
  {
    hide PidOk, ApartOk, RestOk;
  }

  lemma RestFork(s: St, e: Step, i: int, k: int)
    requires Ready(s, e, i, k) && ForkStep(e)
    ensures RestOk(After(s, e, i), i, After(s, e, k),
                   i == s.init && -1 <= LockAfter(s, e) < |s.p| && InitToWake(Do(s, e)))
  {
    hide PidOk, ApartOk;
  }

  /** The wakeups of kexit reach whoever rests before the zombie appears. */
  lemma RestWakeup(s: St, e: Step, i: int, k: int)
    requires Ready(s, e, i, k) && (e.ExitReparent? || e.ExitWakeInit?)
    ensures RestOk(After(s, e, i), i, After(s, e, k),
                   i == s.init && -1 <= LockAfter(s, e) < |s.p| && InitToWake(Do(s, e)))
  {
    hide PidOk, ApartOk, ForkOk;
    if e.ExitReparent? {
      RestReparent(s, e, i, k);
    }
  }

  lemma RestReparent(s: St, e: Step, i: int, k: int)
    requires Ready(s, e, i, k) && e.ExitReparent?
    ensures RestOk(After(s, e, i), i, After(s, e, k),
                   i == s.init && -1 <= LockAfter(s, e) < |s.p| && InitToWake(Do(s, e)))
  {
    hide PidOk, ApartOk, ForkOk;
  }

  lemma RestExit(s: St, e: Step, i: int, k: int)
    requires Ready(s, e, i, k) && ExitStep(e)
    ensures RestOk(After(s, e, i), i, After(s, e, k),
                   i == s.init && -1 <= LockAfter(s, e) < |s.p| && InitToWake(Do(s, e)))
  {
    hide PidOk, ApartOk, ForkOk;
    if e.ExitReparent? || e.ExitWakeInit? {
      RestWakeup(s, e, i, k);
    }
  }

  lemma RestWait(s: St, e: Step, i: int, k: int)
    requires Ready(s, e, i, k) && WaitStep(e)
    ensures RestOk(After(s, e, i), i, After(s, e, k),
                   i == s.init && -1 <= LockAfter(s, e) < |s.p| && InitToWake(Do(s, e)))
  {
    hide PidOk, ApartOk, ForkOk;
    if e.WaitScan? {
      RestScan(s, e, i, k);
    }
  }

  lemma RestScan(s: St, e: Step, i: int, k: int)
    requires Ready(s, e, i, k) && e.WaitScan?
    ensures RestOk(After(s, e, i), i, After(s, e, k),
                   i == s.init && -1 <= LockAfter(s, e) < |s.p| && InitToWake(Do(s, e)))
  {
    hide PidOk, ApartOk, ForkOk;
  }

  lemma RestOther(s: St, e: Step, i: int, k: int)
    requires Ready(s, e, i, k) && !ForkStep(e) && !ExitStep(e) && !WaitStep(e)
    ensures RestOk(After(s, e, i), i, After(s, e, k),
                   i == s.init && -1 <= LockAfter(s, e) < |s.p| && InitToWake(Do(s, e)))
  {
    hide PidOk, ApartOk, ForkOk;
  }

  lemma ForkerFork(s: St, e: Step, i: int, k: int)
    requires Ready(s, e, i, k) && ForkStep(e)
    ensures ForkOk(After(s, e, i), i, After(s, e, k), k)
  {
    hide PidOk, ApartOk, RestOk, ChildOk;
  }

  lemma ForkerExit(s: St, e: Step, i: int, k: int)
    requires Ready(s, e, i, k) && ExitStep(e)
    ensures ForkOk(After(s, e, i), i, After(s, e, k), k)
  {
    hide PidOk, ApartOk, RestOk, ChildOk;
  }

  lemma ForkerWait(s: St, e: Step, i: int, k: int)
    requires Ready(s, e, i, k) && WaitStep(e)
    ensures ForkOk(After(s, e, i), i, After(s, e, k), k)
  {
    hide PidOk, ApartOk, RestOk, ChildOk;
  }

  lemma ForkerOther(s: St, e: Step, i: int, k: int)
    requires Ready(s, e, i, k) && !ForkStep(e) && !ExitStep(e) && !WaitStep(e)
    ensures ForkOk(After(s, e, i), i, After(s, e, k), k)
  {
    hide PidOk, ApartOk, RestOk, ChildOk;
  }

  lemma ApartFork(s: St, e: Step, i: int, k: int)
    requires Ready(s, e, i, k) && ForkStep(e)
    ensures ApartOk(After(s, e, i), i, After(s, e, k), k)
  {
    hide TreeOk, RestOk, ChildOk;
  }

  lemma ApartExit(s: St, e: Step, i: int, k: int)
    requires Ready(s, e, i, k) && ExitStep(e)
    ensures ApartOk(After(s, e, i), i, After(s, e, k), k)
  {
    hide TreeOk, RestOk, ChildOk;
  }

  lemma ApartWait(s: St, e: Step, i: int, k: int)
    requires Ready(s, e, i, k) && WaitStep(e)
    ensures ApartOk(After(s, e, i), i, After(s, e, k), k)
  {
    hide TreeOk, RestOk, ChildOk;
  }

  lemma ApartOther(s: St, e: Step, i: int, k: int)
    requires Ready(s, e, i, k) && !ForkStep(e) && !ExitStep(e) && !WaitStep(e)
    ensures ApartOk(After(s, e, i), i, After(s, e, k), k)
  {
    hide TreeOk, RestOk, ChildOk;
  }

  /** Each step keeps what holds of every process and of every pair. */
  lemma OneKept(s: St, e: Step, i: int)
    requires Inv(s) && Enabled(s, e) && 0 <= i < |s.p|
    ensures One(Do(s, e), i)
  {
    hide Inv, One, Two, After, StateOk, TreeOk, PidOk;
    IsKnown(s, e, i);
    if ForkStep(e) {
      StateFork(s, e, i);
      TreeFork(s, e, i);
      PidFork(s, e, i);
    } else if ExitStep(e) {
      StateExit(s, e, i);
      TreeExit(s, e, i);
      PidExit(s, e, i);
    } else if WaitStep(e) {
      StateWait(s, e, i);
      TreeWait(s, e, i);
      PidWait(s, e, i);
    } else {
      StateOther(s, e, i);
      TreeOther(s, e, i);
      PidOther(s, e, i);
    }
    OneOf(s, e, i);
  }

  lemma OneOf(s: St, e: Step, i: int)
    requires 0 <= e.i < |s.p| && 0 <= i < |s.p|
    requires StateOk(After(s, e, i), i, LockAfter(s, e)) && TreeOk(After(s, e, i), i, |s.p|, s.init)
    requires PidOk(After(s, e, i), Do(s, e).next, Do(s, e).exited, Do(s, e).reaped)
    ensures One(Do(s, e), i)
  {
    hide After, StateOk, TreeOk, PidOk;
  }

  lemma TwoKept(s: St, e: Step, i: int, k: int)
    requires Inv(s) && Enabled(s, e) && 0 <= i < |s.p| && 0 <= k < |s.p|
    ensures -1 <= LockAfter(s, e) < |s.p| && Two(Do(s, e), i, k)
  {
    hide Inv, One, Two, After, ChildOk, RestOk, ForkOk, ApartOk;
    IsKnown(s, e, i);
    IsKnown(s, e, k);
    Pair(s, i, k);
    if ForkStep(e) {
      ChildFork(s, e, i, k);
      RestFork(s, e, i, k);
      ForkerFork(s, e, i, k);
      ApartFork(s, e, i, k);
    } else if ExitStep(e) {
      ChildExit(s, e, i, k);
      RestExit(s, e, i, k);
      ForkerExit(s, e, i, k);
      ApartExit(s, e, i, k);
    } else if WaitStep(e) {
      ChildWait(s, e, i, k);
      RestWait(s, e, i, k);
      ForkerWait(s, e, i, k);
      ApartWait(s, e, i, k);
    } else {
      ChildOther(s, e, i, k);
      RestOther(s, e, i, k);
      ForkerOther(s, e, i, k);
      ApartOther(s, e, i, k);
    }
    TwoOf(s, e, i, k);
  }

  lemma TwoOf(s: St, e: Step, i: int, k: int)
    requires 0 <= e.i < |s.p| && 0 <= i < |s.p| && 0 <= k < |s.p| && -1 <= LockAfter(s, e) < |s.p|
    requires ChildOk(After(s, e, i), i, After(s, e, k), k) && ForkOk(After(s, e, i), i, After(s, e, k), k)
    requires ApartOk(After(s, e, i), i, After(s, e, k), k)
    requires RestOk(After(s, e, i), i, After(s, e, k), i == s.init && InitToWake(Do(s, e)))
    ensures Two(Do(s, e), i, k)
  {
    hide After, ChildOk, RestOk, ForkOk, ApartOk;
  }

  /** A pid in the records stays accounted for: exited, and either reaped once or still a zombie. */
  lemma AccountedKept(s: St, e: Step, pid: int)
    requires Inv(s) && Enabled(s, e) && (pid in Do(s, e).exited || pid in Do(s, e).reaped)
    ensures Accounted(Do(s, e), pid)
  {
    var t := Do(s, e);
    IsKnown(s, e, e.i);
    Pair(s, e.i, Target(s, e));
    if e.ExitZombie? && pid == s.p[e.i].pid {
      assert ZombieOf(t, pid, e.i);
    } else if e.WaitScan? && Found(s, e.i) && !e.copyFails && pid == s.p[s.p[e.i].pc.k].pid {
      assert pid in t.reaped;
    } else {
      StillAccounted(s, e, pid);
    }
  }

  lemma StillAccounted(s: St, e: Step, pid: int)
    requires Inv(s) && Enabled(s, e) && (pid in Do(s, e).exited || pid in Do(s, e).reaped)
    requires e.ExitZombie? ==> 0 <= e.i < |s.p| && pid != s.p[e.i].pid
    requires e.WaitScan? && Found(s, e.i) && !e.copyFails ==> pid != s.p[s.p[e.i].pc.k].pid
    ensures Accounted(Do(s, e), pid)
  {
    hide One, Two;
    assert Accounted(s, pid);
    if pid !in s.reaped {
      var i :| 0 <= i < |s.p| && ZombieOf(s, pid, i);
      IsKnown(s, e, i);
      StillZombie(s, e, i);
      assert ZombieOf(Do(s, e), pid, i);
    }
  }

  /** Only being reaped ends a zombie. */
  lemma StillZombie(s: St, e: Step, i: int)
    requires Known(s, e, i) && s.p[i].st.Zombie?
    ensures if e.WaitScan? && Found(s, e.i) && !e.copyFails && i == s.p[e.i].pc.k then After(s, e, i) == Empty()
            else After(s, e, i).st.Zombie? && After(s, e, i).pid == s.p[i].pid && After(s, e, i).xstate == s.p[i].xstate
  {
  }

  /** While a process scans, its children stay its children, until it has found a zombie. */
  lemma ScanKeepsKids(s: St, e: Step, i: int, k: int)
    requires Ready(s, e, i, k) && s.p[i].pc.Scan? && After(s, e, i).pc.Scan? && s.p[k].parent == i
    ensures After(s, e, k).parent == i && After(s, e, i).pc.k >= s.p[i].pc.k
  {
    hide PidOk, ApartOk, RestOk;
  }

  /** The scan sets kids at a child, and only there. */
  lemma ScanSeesKids(s: St, e: Step, i: int)
    requires Known(s, e, i) && After(s, e, i).pc.Scan? && After(s, e, i).pc.kids
    ensures s.p[i].pc.Scan?
    ensures s.p[i].pc.kids || ChildBelow(s, i, s.p[i].pc.k, After(s, e, i).pc.k)
  {
    hide PidOk, ApartOk, RestOk, ForkOk, ChildOk;
  }

  lemma KidsKept(s: St, e: Step, i: int)
    requires Inv(s) && Enabled(s, e) && 0 <= i < |s.p|
    ensures KidsOk(Do(s, e), i)
  {
    hide One, Two, After, Accounted;
    var t := Do(s, e);
    if t.p[i].pc.Scan? && t.p[i].pc.kids {
      IsKnown(s, e, i);
      ScanSeesKids(s, e, i);
      assert KidsOk(s, i);
      var k := if s.p[i].pc.kids then var k :| ChildBelow(s, i, k, s.p[i].pc.k); k else s.p[i].pc.k;
      IsKnown(s, e, k);
      Pair(s, i, k);
      ScanKeepsKids(s, e, i, k);
      assert ChildBelow(t, i, k, t.p[i].pc.k);
    }
  }

  /** Every step of every process keeps the invariant. */
  lemma StepKeepsInv(s: St, e: Step)
    requires Inv(s) && Enabled(s, e)
    ensures Inv(Do(s, e))
  {
    hide One, Two, After, Accounted;
    var t := Do(s, e);
    forall i | 0 <= i < |t.p| ensures One(t, i) {
      OneKept(s, e, i);
    }
    TwoKept(s, e, 0, 0);
    forall i, k | 0 <= i < |t.p| && 0 <= k < |t.p| ensures Two(t, i, k) {
      TwoKept(s, e, i, k);
    }
    forall i | 0 <= i < |t.p| ensures KidsOk(t, i) {
      KidsKept(s, e, i);
    }
    forall pid | pid in t.exited || pid in t.reaped ensures Accounted(t, pid) {
      AccountedKept(s, e, pid);
    }
  }

  // What becomes of a call.

  predicate InWait(pc: Pc) { pc.Waiting? || pc.Scan? || pc.Dozing? || pc.Asleep? }
  predicate InExit(pc: Pc) { pc.Reparent? || pc.WakeInit? || pc.WakeParent? }

  /** kwait returns only with a zombie child or by giving up; woken, it goes back to the scan. */
  lemma WaitStays(s: St, e: Step, i: int)
    requires Inv(s) && Enabled(s, e) && 0 <= i < |s.p| && InWait(s.p[i].pc)
    ensures InWait(Do(s, e).p[i].pc) || (e.i == i && (e.WaitGiveUp? || (e.WaitScan? && Found(s, i))))
    ensures e.i == i && e.WaitGiveUp? ==> s.p[i].killed || forall k | 0 <= k < |s.p| :: s.p[k].parent != i
    ensures e.i == i && e.WaitAwake? ==> Do(s, e).p[i].pc.Waiting?
  {
    hide Inv, One, Two, Known, Found, After;
    IsKnown(s, e, i);
    StillWaits(s, e, i);
    if e.WaitGiveUp? && e.i == i && !s.p[i].killed {
      forall k | 0 <= k < |s.p| ensures s.p[k].parent != i {
        NoKid(s, i, k);
      }
    }
  }

  lemma StillWaits(s: St, e: Step, i: int)
    requires Known(s, e, i) && InWait(s.p[i].pc)
    ensures InWait(After(s, e, i).pc) || (e.i == i && (e.WaitGiveUp? || (e.WaitScan? && Found(s, i))))
    ensures e.i == i && e.WaitAwake? ==> After(s, e, i).pc.Waiting?
  {
    hide RestOk, ApartOk, ChildOk, PidOk, TreeOk;
  }

  lemma NoKid(s: St, i: int, k: int)
    requires Inv(s) && 0 <= i < |s.p| && 0 <= k < |s.p| && s.p[i].pc.Scan? && s.p[i].pc.k == |s.p| && !s.p[i].pc.kids
    ensures s.p[k].parent != i
  {
    hide Accounted, One;
    assert Two(s, i, k);
  }

  /** kexit does not return: it ends with the process a zombie that has the status it was called with, on
      record under its pid, and nobody's parent. */
  lemma ExitEnds(s: St, e: Step, i: int)
    requires Inv(s) && Enabled(s, e) && 0 <= i < |s.p| && InExit(s.p[i].pc)
    ensures var q := Do(s, e).p[i];
            InExit(q.pc) || (e.ExitZombie? && e.i == i && q.st.Zombie? && q.xstate == e.status && q.pid == s.p[i].pid)
    ensures e.ExitZombie? && e.i == i ==> Do(s, e).exited == s.exited[s.p[i].pid := e.status] && s.p[i].pid !in s.exited
    ensures e.ExitZombie? && e.i == i ==> forall k | 0 <= k < |s.p| :: Do(s, e).p[k].parent != i
  {
    hide Inv, One, Two, Known, After;
    IsKnown(s, e, i);
    StillExits(s, e, i);
    if e.ExitZombie? && e.i == i {
      forall k | 0 <= k < |s.p| ensures Do(s, e).p[k].parent != i {
        NoOrphan(s, e, k);
      }
    }
  }

  lemma StillExits(s: St, e: Step, i: int)
    requires Known(s, e, i) && InExit(s.p[i].pc)
    ensures var q := After(s, e, i);
            InExit(q.pc) || (e.ExitZombie? && e.i == i && q.st.Zombie? && q.xstate == e.status && q.pid == s.p[i].pid)
    ensures s.p[i].pid !in s.exited
  {
    hide RestOk, ApartOk, ChildOk;
  }

  lemma NoOrphan(s: St, e: Step, k: int)
    requires Inv(s) && Enabled(s, e) && e.ExitZombie? && 0 <= k < |s.p|
    ensures Do(s, e).p[k].parent != e.i
  {
    hide Accounted, One;
    assert Two(s, e.i, k);
  }

  /** kfork takes an unused slot and gives it a new pid. */
  lemma ForkStarts(s: St, i: int, j: int)
    requires Inv(s) && Enabled(s, ForkAlloc(i, j))
    ensures var t := Do(s, ForkAlloc(i, j));
            && t.p[i].pc == Forking(j) && t.p[j].st.Used? && t.p[j].pid == s.next < t.next
            && forall k | 0 <= k < |s.p| && k != j && !t.p[k].st.Unused? :: t.p[k].pid != s.next
  {
    hide Accounted, Two;
    forall k | 0 <= k < |s.p| && k != j && !s.p[k].st.Unused? ensures s.p[k].pid < s.next {
      assert One(s, k);
    }
  }

  /** It returns after giving the slot back, or with the child runnable and its own. */
  lemma ForkEnds(s: St, e: Step, i: int, j: int)
    requires Inv(s) && Enabled(s, e) && 0 <= i < |s.p| && 0 <= j < |s.p| && Forks(s.p[i].pc, j)
    ensures var p, q := Do(s, e).p[i], Do(s, e).p[j];
              || (Forks(p.pc, j) && q.pid == s.p[j].pid && q.st == s.p[j].st)
              || (e == ForkFail(i) && q == Empty() && p.pc.User?)
              || (e == ForkRun(i) && p.pc.User? && q == s.p[j].(st := Runnable) && q.parent == i)
    ensures e == ForkParent(i) ==> Do(s, e).p[j].parent == i
  {
    hide Inv, One, Two, Known, After;
    IsKnown(s, e, i);
    IsKnown(s, e, j);
    Pair(s, i, j);
    if e.i == i {
      ForkOwn(s, e, i, j);
    } else {
      ForkOther(s, e, i, j);
    }
  }

  lemma ForkOwn(s: St, e: Step, i: int, j: int)
    requires Ready(s, e, i, j) && Forks(s.p[i].pc, j) && e.i == i
    ensures var p, q := After(s, e, i), After(s, e, j);
              || (Forks(p.pc, j) && q.pid == s.p[j].pid && q.st == s.p[j].st)
              || (e == ForkFail(i) && q == Empty() && p.pc.User?)
              || (e == ForkRun(i) && p.pc.User? && q == s.p[j].(st := Runnable) && q.parent == i)
    ensures e == ForkParent(i) ==> After(s, e, j).parent == i
  {
    hide RestOk, ApartOk, ChildOk, PidOk, TreeOk;
  }

  lemma ForkOther(s: St, e: Step, i: int, j: int)
    requires Ready(s, e, i, j) && Forks(s.p[i].pc, j) && e.i != i
    ensures var p, q := After(s, e, i), After(s, e, j);
            Forks(p.pc, j) && q.pid == s.p[j].pid && q.st == s.p[j].st
  {
    hide RestOk, ApartOk, ChildOk, PidOk, TreeOk;
  }

  /** A process gets another parent only when it is forked, and when its parent exits: then it is init. */
  lemma ParentMoves(s: St, e: Step, x: int)
    requires Inv(s) && Enabled(s, e) && 0 <= x < |s.p| && Do(s, e).p[x].parent != s.p[x].parent
    ensures var q := Do(s, e).p[x].parent;
            || (e.ForkParent? && q == e.i && Forks(s.p[e.i].pc, x))
            || (e.ExitReparent? && s.p[x].parent == e.i && q == s.init)
            || (e.WaitScan? && Found(s, e.i) && x == s.p[e.i].pc.k && Do(s, e).p[x] == Empty())
  {
    hide Accounted, RestOk, ChildOk;
    IsKnown(s, e, x);
  }

  /** A kill lasts until the slot is emptied, and wakes its process. */
  lemma KillLasts(s: St, e: Step, x: int)
    requires Inv(s) && Enabled(s, e) && 0 <= x < |s.p|
    ensures e == Kill(x) ==> Do(s, e).p[x].killed && !Do(s, e).p[x].st.Sleeping?
    ensures s.p[x].killed && !s.p[x].st.Unused? ==> Do(s, e).p[x].killed || Do(s, e).p[x] == Empty()
    ensures Do(s, e).p[x].killed ==> s.p[x].killed || e == Kill(x)
  {
    hide Inv, One, Two;
  }

  // A kill that falls between kwait's test of killed(p) and its going to sleep.

  /** Killed, but past the test and not awake since. */
  predicate Late(p: Proc, n: int) { p.killed && (Resting(p) || (p.pc.Scan? && p.pc.k > n)) }

  /** kwait sleeps through exactly the kills that come after its test and before it holds its p->lock; from
      that sleep only an exiting process's wakeup gets it, or another kill. */
  lemma KillComesLate(s: St, e: Step, i: int)
    requires Inv(s) && Enabled(s, e) && 0 <= i < |s.p|
    ensures var q := Do(s, e).p[i];
            if !Late(s.p[i], |s.p|) then Late(q, |s.p|) <==> e == Kill(i) && s.p[i].pc.Scan? && s.p[i].pc.k > |s.p|
            else Late(q, |s.p|) || e == Kill(i) || e.ExitWakeInit? || e.ExitWakeParent?
  {
    hide Accounted, RestOk, ApartOk, PidOk, KidsOk;
    assert One(s, i) && One(s, e.i) && Two(s, e.i, i);
  }

  lemma Deciding(s: St, i: int)
    requires Inv(s) && Enabled(s, WaitDecide(i))
    ensures s.p[i].st.Running? && !s.p[i].locked
  {
    hide Two, Accounted;
    assert One(s, i);
  }

  /** Wherever kwait is about to sleep, it can be killed and sleep all the same. */
  lemma KillMissed(s: St, i: int)
    requires Inv(s) && Enabled(s, WaitDecide(i))
    ensures var t := Do(s, WaitDecide(i));
            var u := Do(t, Kill(i));
            var v := Do(u, WaitDoze(i));
            var w := Do(v, WaitSleep(i)).p[i];
            && Enabled(t, Kill(i)) && Enabled(u, WaitDoze(i)) && Enabled(v, WaitSleep(i))
            && w.killed && w.st.Sleeping? && w.chan == OfProc(i)
  {
    hide Inv, Woken, Found;
    Deciding(s, i);
  }

  // wait_lock is always given up, and nobody is stuck.

  predicate InFork(pc: Pc) { pc.Forking? || pc.Forked? }

  /** How many steps of its own the holder of wait_lock takes at most until it gives it up. */
  function Left(pc: Pc, n: int): int {
    match pc
    case Reparent(k) => (n - k) * (n + 2) + n + 2
    case WakeInit(k, w) => (n - k - 1) * (n + 2) + n + 3 + (n - w)
    case WakeParent(w) => n - w + 1
    case Scan(k, _) => n - k + 2
    case _ => 0
  }

  lemma LeftSteps(k: int, n: int)
    requires 0 <= k <= n
    ensures (n - k) * (n + 2) >= 0 && (k < n ==> (n - k) * (n + 2) == (n - k - 1) * (n + 2) + n + 2)
  {
  }

  /** Every step of the holder brings the end of its turn closer, and nobody else's step delays it. */
  lemma LockGivenUp(s: St, e: Step)
    requires Inv(s) && Enabled(s, e) && s.lock >= 0
    ensures var t := Do(s, e);
            && Left(s.p[s.lock].pc, |s.p|) > 0
            && (t.lock == -1 || (t.lock == s.lock && Left(t.p[t.lock].pc, |s.p|) <= Left(s.p[s.lock].pc, |s.p|)))
            && (e.i == s.lock && !e.Kill? && t.lock >= 0 ==>
                  Left(t.p[t.lock].pc, |s.p|) < Left(s.p[s.lock].pc, |s.p|))
  {
    hide One, Two, Accounted, KidsOk, Left, After, LockAfter, Known;
    IsKnown(s, e, s.lock);
    IsKnown(s, e, e.i);
    if e.i == s.lock {
      OwnTurn(s, e);
    } else {
      OtherTurn(s, e);
    }
  }

  lemma OwnTurn(s: St, e: Step)
    requires 0 <= s.lock < |s.p| && One(s, s.lock) && Enabled(s, e) && e.i == s.lock
    ensures var x, l, n := After(s, e, s.lock), LockAfter(s, e), |s.p|;
            && Left(s.p[s.lock].pc, n) > 0 && (l == -1 || l == s.lock)
            && (if e.Kill? then x.pc == s.p[s.lock].pc else l == -1 || Left(x.pc, n) < Left(s.p[s.lock].pc, n))
  {
    hide PidOk, Woken, Found;
    var pc := s.p[s.lock].pc;
    if pc.Reparent? || pc.WakeInit? {
      LeftSteps(pc.k, |s.p|);
    }
  }

  lemma OtherTurn(s: St, e: Step)
    requires 0 <= s.lock < |s.p| && e.i != s.lock && Known(s, e, s.lock)
    ensures LockAfter(s, e) == s.lock && After(s, e, s.lock).pc == s.p[s.lock].pc && Left(s.p[s.lock].pc, |s.p|) > 0
  {
    hide PidOk, RestOk, ApartOk;
    var pc := s.p[s.lock].pc;
    if pc.Reparent? || pc.WakeInit? {
      LeftSteps(pc.k, |s.p|);
    }
  }

  /** Whose p->lock the holder of wait_lock waits for, the holder itself if it need not wait. */
  function Needs(s: St, i: int): int
    requires 0 <= i < |s.p|
  {
    var pc := s.p[i].pc;
    var q := if pc.WakeInit? || pc.WakeParent? then pc.w else if pc.Scan? then pc.k else i;
    if 0 <= q < |s.p| && q != i && s.p[q].locked then q else i
  }

  /** The holder of wait_lock can go on, unless it has come to a process that still holds its own p->lock.
      That one can go on, to where it lets go of it. */
  lemma HolderMoves(s: St) returns (e: Step)
    requires Inv(s) && s.lock >= 0
    ensures Enabled(s, e) && !e.Kill? && e.i == Needs(s, s.lock)
    ensures e.i != s.lock ==> !Do(s, e).p[e.i].locked
  {
    hide Accounted, Two;
    var i := s.lock;
    var q := Needs(s, i);
    assert One(s, i) && One(s, q);
    if q != i {
      return if s.p[q].pc.Dozing? then WaitSleep(q) else ExitOff(q);
    }
    match s.p[i].pc
    case Reparent(_) => return ExitReparent(i);
    case WakeInit(_, _) => return ExitWakeInit(i);
    case WakeParent(w) => return if w == |s.p| then ExitZombie(i, 0) else ExitWakeParent(i);
    case Scan(k, kids) =>
      return if k < |s.p| then WaitScan(i, false) else if k > |s.p| then WaitDoze(i)
             else if kids && !s.p[i].killed then WaitDecide(i) else WaitGiveUp(i);
  }

  /** A running process inside kfork, kexit or kwait can always go on, or waits for wait_lock. */
  lemma NeverStuck(s: St, i: int) returns (e: Step)
    requires Inv(s) && 0 <= i < |s.p| && s.p[i].st.Running? && s.lock != i
    requires InFork(s.p[i].pc) || InWait(s.p[i].pc)
    ensures Enabled(s, e) && if s.lock >= 0 && s.p[i].pc.Waiting? then e.i == Needs(s, s.lock)
                             else e.i == i && !e.Kill? && !e.Yield?
  {
    hide Accounted, Two;
    assert One(s, i);
    match s.p[i].pc
    case Forking(_) => return ForkFail(i);
    case Forked(_) => return ForkRun(i);
    case Waiting =>
      if s.lock >= 0 {
        e := HolderMoves(s);
      } else {
        return WaitLock(i);
      }
    case Dozing => return WaitSleep(i);
    case Asleep => return WaitAwake(i);
    case _ => assert false;
  }

  // Whole runs.

  ghost predicate RunOf(s: St, es: seq<Step>)
    requires Inv(s)
    decreases |es|
  {
    es != [] ==> Enabled(s, es[0]) && (StepKeepsInv(s, es[0]); RunOf(Do(s, es[0]), es[1..]))
  }

  ghost function Last(s: St, es: seq<Step>): (t: St)
    requires Inv(s) && RunOf(s, es)
    ensures Inv(t)
    decreases |es|
  {
    if es == [] then s else (StepKeepsInv(s, es[0]); Last(Do(s, es[0]), es[1..]))
  }

  /** After userinit: the first process alone, in slot 0. */
  function AtBoot(n: nat): St
    requires n > 0
  {
    St(seq(n, i => if i == 0 then Proc(Runnable, -1, NoChan, 1, 0, false, false, User) else Empty()),
       -1, 0, 2, map[], map[])
  }

  lemma BootInv(n: nat)
    requires n > 0
    ensures Inv(AtBoot(n))
  {
    var s := AtBoot(n);
    forall i | 0 <= i < n ensures One(s, i) {
      assert s.p[i] == if i == 0 then Proc(Runnable, -1, NoChan, 1, 0, false, false, User) else Empty();
    }
    forall i | 0 <= i < n ensures KidsOk(s, i) {
      assert s.p[i] == if i == 0 then Proc(Runnable, -1, NoChan, 1, 0, false, false, User) else Empty();
    }
    forall i, k | 0 <= i < n && 0 <= k < n ensures Two(s, i, k) {
      assert s.p[i] == if i == 0 then Proc(Runnable, -1, NoChan, 1, 0, false, false, User) else Empty();
      assert s.p[k] == if k == 0 then Proc(Runnable, -1, NoChan, 1, 0, false, false, User) else Empty();
    }
  }

  ghost function Boot(n: nat): (s: St)
    requires n > 0
    ensures Inv(s)
  {
    BootInv(n);
    AtBoot(n)
  }

  /** In every run, whenever nobody holds wait_lock: every parent is alive, and nobody sleeps in kwait with
      a zombie child. */
  lemma QuietWhenFree(n: nat, es: seq<Step>, s: St, k: int)
    requires n > 0 && RunOf(Boot(n), es) && s == Last(Boot(n), es) && s.lock == -1 && 0 <= k < |s.p|
    requires s.p[k].parent >= 0
    ensures s.p[k].parent < |s.p| && Live(s.p[s.p[k].parent].st)
    ensures s.p[k].st.Zombie? ==> !(s.p[s.p[k].parent].pc.Asleep? && s.p[s.p[k].parent].st.Sleeping?)
  {
    hide Accounted;
    assert One(s, k) && Two(s, s.p[k].parent, k);
  }

  /** In every run kwait gives up without being killed only if the process has no child, and goes to sleep
      only if it has one. */
  lemma GivesUpChildless(n: nat, es: seq<Step>, s: St, i: int)
    requires n > 0 && RunOf(Boot(n), es) && s == Last(Boot(n), es)
    ensures Enabled(s, WaitGiveUp(i)) && !s.p[i].killed ==> forall k | 0 <= k < |s.p| :: s.p[k].parent != i
    ensures Enabled(s, WaitDecide(i)) || Enabled(s, WaitDoze(i)) ==> exists k :: ChildBelow(s, i, k, |s.p|)
  {
    hide Accounted, StateOk, PidOk, RestOk, ForkOk, ApartOk;
    if Enabled(s, WaitGiveUp(i)) && !s.p[i].killed {
      forall k | 0 <= k < |s.p| ensures s.p[k].parent != i {
        assert Two(s, i, k);
      }
    }
    if Enabled(s, WaitDecide(i)) || Enabled(s, WaitDoze(i)) {
      assert KidsOk(s, i) && One(s, i);
      var k :| ChildBelow(s, i, k, s.p[i].pc.k);
      assert ChildBelow(s, i, k, |s.p|);
    }
  }

  /** A reaping returns the pid and status of a process that exited and was never reaped before, and
      empties just its slot. */
  lemma ReapsOnce(n: nat, es: seq<Step>, s: St, e: Step)
    requires n > 0 && RunOf(Boot(n), es) && s == Last(Boot(n), es)
    requires Enabled(s, e) && e.WaitScan? && Found(s, e.i) && !e.copyFails
    ensures s.p[s.p[e.i].pc.k].pid in s.exited && s.p[s.p[e.i].pc.k].pid !in s.reaped
    ensures Do(s, e).reaped == s.reaped[s.p[s.p[e.i].pc.k].pid := s.exited[s.p[s.p[e.i].pc.k].pid]]
    ensures forall i | 0 <= i < |s.p| && i != e.i :: Do(s, e).p[i] == if i == s.p[e.i].pc.k then Empty() else s.p[i]
  {
    hide Accounted, Two;
    Pair(s, e.i, s.p[e.i].pc.k);
  }

  /** In every run, every pid that exited has been reaped with the status it exited with, or is a zombie. */
  lemma NoneLost(n: nat, es: seq<Step>, s: St, pid: int)
    requires n > 0 && RunOf(Boot(n), es) && s == Last(Boot(n), es)
    ensures pid in s.reaped ==> pid in s.exited && s.reaped[pid] == s.exited[pid]
    ensures pid in s.exited && pid !in s.reaped ==> exists i :: 0 <= i < |s.p| && ZombieOf(s, pid, i)
  {
    hide One, Two;
    if pid in s.exited || pid in s.reaped {
      assert Accounted(s, pid);
    }
  }

  lemma {:induction false} RunMore(s: St, es: seq<Step>, e: Step)
    requires Inv(s) && RunOf(s, es) && Enabled(Last(s, es), e)
    ensures RunOf(s, es + [e]) && Last(s, es + [e]) == Do(Last(s, es), e)
    decreases |es|
  {
    hide Inv, After;
    if es == [] {
      assert (es + [e])[1..] == [];
      StepKeepsInv(s, e);
    } else {
      assert (es + [e])[1..] == es[1..] + [e];
      StepKeepsInv(s, es[0]);
      RunMore(Do(s, es[0]), es[1..], e);
    }
  }

  /** Two processes, of which the first is init. */
  function Pairs(a: Pc, run: State, c: State, parent: int, lock: int): St {
    St([Proc(run, -1, NoChan, 1, 0, false, false, a),
        if c.Unused? then Empty() else Proc(c, parent, NoChan, 2, 0, false, false, User)],
       lock, 0, if c.Unused? then 2 else 3, map[], map[])
  }

  lemma Go(s: St, es: seq<Step>, e: Step, t: St) returns (more: seq<Step>)
    requires Inv(s) && RunOf(s, es) && Leads(Last(s, es), e, t)
    ensures RunOf(s, more) && Last(s, more) == t
  {
    RunMore(s, es, e);
    more := es + [e];
  }

  lemma AtStart(s: St)
    requires Inv(s)
    ensures RunOf(s, []) && Last(s, []) == s
  {
  }

  ghost predicate Leads(s: St, e: Step, t: St) {
    -1 <= s.lock < |s.p| && Enabled(s, e) && Do(s, e) == t
  }

  lemma InitForks()
    ensures Leads(Pairs(User, Runnable, Unused, -1, -1), Schedule(0), Pairs(User, Running, Unused, -1, -1))
    ensures Leads(Pairs(User, Running, Unused, -1, -1), ForkAlloc(0, 1), Pairs(Forking(1), Running, Used, -1, -1))
    ensures Leads(Pairs(Forking(1), Running, Used, -1, -1), ForkParent(0), Pairs(Forked(1), Running, Used, 0, -1))
    ensures Leads(Pairs(Forked(1), Running, Used, 0, -1), ForkRun(0), Pairs(User, Running, Runnable, 0, -1))
  {
  }

  lemma InitWaits()
    ensures Leads(Pairs(User, Running, Runnable, 0, -1), WaitCall(0), Pairs(Waiting, Running, Runnable, 0, -1))
    ensures Leads(Pairs(Waiting, Running, Runnable, 0, -1), WaitLock(0), Pairs(Scan(0, false), Running, Runnable, 0, 0))
  {
  }

  lemma InitScans()
    ensures Leads(Pairs(Scan(0, false), Running, Runnable, 0, 0), WaitScan(0, false),
                  Pairs(Scan(1, false), Running, Runnable, 0, 0))
    ensures Leads(Pairs(Scan(1, false), Running, Runnable, 0, 0), WaitScan(0, false),
                  Pairs(Scan(2, true), Running, Runnable, 0, 0))
    ensures Enabled(Pairs(Scan(2, true), Running, Runnable, 0, 0), WaitDecide(0))
  {
  }

  /** init forks and waits, and is about to sleep: there is such a run. */
  lemma AboutToSleep() returns (es: seq<Step>)
    ensures RunOf(Boot(2), es) && Enabled(Last(Boot(2), es), WaitDecide(0))
  {
    hide Inv, RunOf, Last, Do, Enabled, Pairs;
    var s := Boot(2);
    BootPairs();
    InitForks();
    InitWaits();
    InitScans();
    AtStart(s);
    es := [];
    es := Go(s, es, Schedule(0), Pairs(User, Running, Unused, -1, -1));
    es := Go(s, es, ForkAlloc(0, 1), Pairs(Forking(1), Running, Used, -1, -1));
    es := Go(s, es, ForkParent(0), Pairs(Forked(1), Running, Used, 0, -1));
    es := Go(s, es, ForkRun(0), Pairs(User, Running, Runnable, 0, -1));
    es := Go(s, es, WaitCall(0), Pairs(Waiting, Running, Runnable, 0, -1));
    es := Go(s, es, WaitLock(0), Pairs(Scan(0, false), Running, Runnable, 0, 0));
    es := Go(s, es, WaitScan(0, false), Pairs(Scan(1, false), Running, Runnable, 0, 0));
    es := Go(s, es, WaitScan(0, false), Pairs(Scan(2, true), Running, Runnable, 0, 0));
  }

  lemma BootPairs()
    ensures Boot(2) == Pairs(User, Runnable, Unused, -1, -1)
  {
  }
}
