/** begin_op, log_write, end_op and commit of any number of processes, as a step system.
    Each step is one critical section of log.lock. */
module LogSpace {
  import opened Params
  import opened Lru

  /** A running file system operation and the number of blocks it has added to the log. */
  datatype Op = Op(pid: nat, used: nat)

  /** listed: the blocks in the log, log.lh.block up to log.lh.n. */
  datatype State = State(listed: seq<int>, outstanding: int, committing: bool, ops: seq<Op>, asleep: set<nat>)

  datatype Outcome = Done(s: State) | Panic

  /** LogWrite(i, b): the i-th running operation logs block b, which may be in the log already.
      Wake is a spurious wakeup, as by kill; the woken process calls Begin again. */
  datatype Action = Begin(pid: nat) | LogWrite(i: nat, b: int) | End(i: nat) | Committed | Wake(pid: nat)

  const Init := State([], 0, false, [], {})

  predicate Enabled(s: State, a: Action) {
    match a
    case Begin(pid) => pid !in s.asleep && forall o | o in s.ops :: o.pid != pid
    case LogWrite(i, _) => i < |s.ops|
    case End(i) => i < |s.ops|
    case Committed => s.committing
    case Wake(_) => true
  }

  function Do(s: State, a: Action): Outcome
    requires Enabled(s, a)
  {
    match a
    case Begin(pid) =>
      if s.committing || |s.listed| + (s.outstanding + 1) * MAXOPBLOCKS > LOGBLOCKS then
        Done(s.(asleep := s.asleep + {pid}))
      else
        Done(s.(outstanding := s.outstanding + 1, ops := s.ops + [Op(pid, 0)]))
    case LogWrite(i, b) =>
      if |s.listed| >= LOGBLOCKS || s.outstanding < 1 then Panic
      else if b in s.listed then Done(s)
      else Done(s.(listed := s.listed + [b], ops := s.ops[i := s.ops[i].(used := s.ops[i].used + 1)]))
    case End(i) =>
      var left := s.(outstanding := s.outstanding - 1, ops := Without(s.ops, i));
      if s.committing then Panic
      else if left.outstanding == 0 then Done(left.(committing := true))
      else Done(left.(asleep := {}))
    case Committed => Done(s.(listed := [], committing := false, asleep := {}))
    case Wake(pid) => Done(s.(asleep := s.asleep - {pid}))
  }

  /** The operation that logs has added fewer than MAXOPBLOCKS blocks so far. */
  predicate WithinBudget(s: State, a: Action)
    requires Enabled(s, a)
  {
    a.LogWrite? ==> s.ops[a.i].used < MAXOPBLOCKS
  }

  /** Log blocks the running operations may still add. */
  function Room(ops: seq<Op>): int {
    if ops == [] then 0 else MAXOPBLOCKS - ops[0].used + Room(ops[1..])
  }

  lemma {:induction false} RoomSplit(a: seq<Op>, b: seq<Op>)
    ensures Room(a + b) == Room(a) + Room(b)
  {
    if a == [] {
      assert a + b == b;
    } else {
      RoomSplit(a[1..], b);
      assert (a + b)[1..] == a[1..] + b;
    }
  }

  lemma {:induction false} RoomBounds(ops: seq<Op>)
    requires forall o | o in ops :: o.used <= MAXOPBLOCKS
    ensures 0 <= Room(ops) <= |ops| * MAXOPBLOCKS
  {
    if ops != [] {
      RoomBounds(ops[1..]);
    }
  }

  lemma RoomAt(ops: seq<Op>, i: nat)
    requires i < |ops|
    ensures Room(ops) == MAXOPBLOCKS - ops[i].used + Room(Without(ops, i))
    ensures forall o :: Room(ops[i := o]) == MAXOPBLOCKS - o.used + Room(Without(ops, i))
  {
    RoomSplit(ops[..i], ops[i + 1..]);
    forall o ensures Room(ops[i := o]) == MAXOPBLOCKS - o.used + Room(Without(ops, i)) {
      RoomSplit(ops[..i], [o] + ops[i + 1..]);
      assert ops[i := o] == ops[..i] + ([o] + ops[i + 1..]);
    }
    assert ops == ops[i := ops[i]];
  }

  /** Taking one operation out. */
  lemma RoomWithout(ops: seq<Op>, i: nat)
    requires i < |ops| && forall o | o in ops :: o.used <= MAXOPBLOCKS
    ensures |Without(ops, i)| == |ops| - 1 && ops[i] in ops && forall o | o in Without(ops, i) :: o in ops
    ensures 0 <= Room(Without(ops, i)) <= (|ops| - 1) * MAXOPBLOCKS
    ensures Room(ops) == MAXOPBLOCKS - ops[i].used + Room(Without(ops, i))
  {
    RoomAt(ops, i);
    var rest := Without(ops, i);
    assert forall k :: 0 <= k < |rest| ==> rest[k] == ops[if k < i then k else k + 1];
    RoomBounds(rest);
  }

  /** One more reservation fits. */
  predicate Fits(s: State) { |s.listed| + (s.outstanding + 1) * MAXOPBLOCKS <= LOGBLOCKS }

  /** Whoever sleeps in begin_op could not be admitted now, and somebody is there to wake it. */
  ghost predicate Inv(s: State) {
    && s.outstanding == |s.ops|
    && (forall o | o in s.ops :: o.used <= MAXOPBLOCKS)
    && |s.listed| + Room(s.ops) <= LOGBLOCKS
    && (s.committing ==> s.outstanding == 0)
    && (s.outstanding == 0 && !s.committing ==> s.listed == [])
    && (s.asleep != {} ==> s.committing || (s.outstanding >= 1 && !Fits(s)))
  }

  lemma BeginKeepsInv(s: State, pid: nat)
    requires Inv(s) && Enabled(s, Begin(pid))
    ensures Do(s, Begin(pid)).Done? && Inv(Do(s, Begin(pid)).s)
  {
    RoomBounds(s.ops);
    RoomSplit(s.ops, [Op(pid, 0)]);
  }

  lemma LogWriteKeepsInv(s: State, i: nat, b: int)
    requires Inv(s) && i < |s.ops| && s.ops[i].used < MAXOPBLOCKS
    ensures Do(s, LogWrite(i, b)).Done? && Inv(Do(s, LogWrite(i, b)).s)
  {
    RoomAt(s.ops, i);
    RoomWithout(s.ops, i);
    assert |s.ops| > 0;
  }

  lemma EndKeepsInv(s: State, i: nat)
    requires Inv(s) && i < |s.ops|
    ensures Do(s, End(i)).Done? && Inv(Do(s, End(i)).s)
  {
    RoomWithout(s.ops, i);
    assert |s.ops| == 1 ==> Without(s.ops, i) == [];
  }

  lemma StepKeepsInv(s: State, a: Action)
    requires Inv(s) && Enabled(s, a) && WithinBudget(s, a)
    ensures Do(s, a).Done? && Inv(Do(s, a).s)
  {
    match a
    case Begin(pid) => BeginKeepsInv(s, pid);
    case LogWrite(i, b) => LogWriteKeepsInv(s, i, b);
    case End(i) => EndKeepsInv(s, i);
    case _ =>
  }

  ghost predicate Allowed(s: State, run: seq<Action>)
    decreases |run|
  {
    run == [] ||
    (Enabled(s, run[0]) && WithinBudget(s, run[0]) && (Do(s, run[0]).Done? ==> Allowed(Do(s, run[0]).s, run[1..])))
  }

  ghost function Run(s: State, run: seq<Action>): Outcome
    requires Allowed(s, run)
    decreases |run|
  {
    if run == [] then Done(s)
    else match Do(s, run[0])
      case Panic => Panic
      case Done(t) => Run(t, run[1..])
  }

  /** While every operation adds at most MAXOPBLOCKS blocks, and none logs after its last one, no
      run panics, a commit excludes running operations, and nobody sleeps in begin_op who could be
      admitted, or with neither a commit nor an operation under way to wake it. */
  lemma {:induction false} NoPanic(s: State, run: seq<Action>)
    requires Inv(s) && Allowed(s, run)
    ensures Run(s, run).Done? && Inv(Run(s, run).s)
    decreases |run|
  {
    if run != [] {
      StepKeepsInv(s, run[0]);
      NoPanic(Do(s, run[0]).s, run[1..]);
    }
  }

  /** b, b + 1, ..., k of them */
  function From(b: int, k: nat): seq<int>
    decreases k
  {
    if k == 0 then [] else [b] + From(b + 1, k - 1)
  }

  lemma {:induction false} FreshWrites(s: State, i: nat, b: int, k: nat) returns (run: seq<Action>)
    requires i < |s.ops| && s.ops[i].used + k <= MAXOPBLOCKS && |s.listed| + k <= LOGBLOCKS && s.outstanding >= 1
    requires forall c | c in s.listed :: c < b
    ensures Allowed(s, run)
    ensures Run(s, run) ==
            Done(s.(listed := s.listed + From(b, k), ops := s.ops[i := s.ops[i].(used := s.ops[i].used + k)]))
    ensures forall c | c in s.listed + From(b, k) :: c < b + k
    decreases k
  {
    run := [];
    if k > 0 {
      var t := Do(s, LogWrite(i, b)).s;
      var rest := FreshWrites(t, i, b + 1, k - 1);
      run := [LogWrite(i, b)] + rest;
      assert run[1..] == rest;
      assert t.listed + From(b + 1, k - 1) == s.listed + From(b, k);
    } else {
      assert s.ops[i := s.ops[i]] == s.ops && s.listed + [] == s.listed;
    }
  }

  lemma {:induction false} FromLength(b: int, k: nat)
    ensures |From(b, k)| == k
    decreases k
  {
    if k > 0 {
      FromLength(b + 1, k - 1);
    }
  }

  lemma {:induction false} RunAppend(s: State, r1: seq<Action>, r2: seq<Action>)
    requires Allowed(s, r1) && Run(s, r1).Done? && Allowed(Run(s, r1).s, r2)
    ensures Allowed(s, r1 + r2) && Run(s, r1 + r2) == Run(Run(s, r1).s, r2)
    decreases |r1|
  {
    if r1 == [] {
      assert r1 + r2 == r2;
    } else {
      RunAppend(Do(s, r1[0]).s, r1[1..], r2);
      assert (r1 + r2)[1..] == r1[1..] + r2;
    }
  }

  /** The budget cannot be read as "at most MAXOPBLOCKS distinct blocks": log_write tests the log's
      capacity before it looks for the block, so an operation that has logged its MAXOPBLOCKS blocks
      and logs one of them again panics when the log is full. */
  lemma AbsorptionCanPanic() returns (run: seq<Action>)
    ensures Allowed(Init, run) && Run(Init, run).Done?
    ensures var s := Run(Init, run).s;
            && 0 < |s.ops| && (forall o | o in s.ops :: o.used <= MAXOPBLOCKS)
            && 0 < |s.listed| && Do(s, LogWrite(0, s.listed[0])) == Panic
  {
    run := [Begin(1), Begin(2), Begin(3)];
    var s1 := State([], 1, false, [Op(1, 0)], {});
    var s2 := State([], 2, false, [Op(1, 0), Op(2, 0)], {});
    var s3 := State([], 3, false, [Op(1, 0), Op(2, 0), Op(3, 0)], {});
    assert Do(Init, Begin(1)).s == s1 && Do(s1, Begin(2)).s == s2 && Do(s2, Begin(3)).s == s3;
    assert Allowed(s2, [Begin(3)]) && Run(s2, [Begin(3)]) == Done(s3);
    assert [Begin(2), Begin(3)][1..] == [Begin(3)] && run[1..] == [Begin(2), Begin(3)];
    assert Allowed(s1, [Begin(2), Begin(3)]) && Run(s1, [Begin(2), Begin(3)]) == Done(s3);
    var s := s3;
    for i := 0 to 3
      invariant Allowed(Init, run) && Run(Init, run) == Done(s) && |s.ops| == 3 && s.outstanding == 3
      invariant |s.listed| == i * MAXOPBLOCKS && forall c | c in s.listed :: c < i * MAXOPBLOCKS
      invariant forall j | 0 <= j < 3 :: s.ops[j].used == if j < i then MAXOPBLOCKS else 0
    {
      var more := FreshWrites(s, i, i * MAXOPBLOCKS, MAXOPBLOCKS);
      FromLength(i * MAXOPBLOCKS, MAXOPBLOCKS);
      RunAppend(Init, run, more);
      run, s := run + more, Run(s, more).s;
    }
  }

  /** In a state that runs reach, log_write by a running operation panics exactly when the log is full,
      whether or not the block would have been absorbed. */
  lemma PanicExactlyWhenFull(s: State, i: nat, b: int)
    requires Inv(s) && i < |s.ops|
    ensures Do(s, LogWrite(i, b)) == Panic <==> |s.listed| == LOGBLOCKS
    ensures |s.listed| == LOGBLOCKS ==> forall o | o in s.ops :: o.used == MAXOPBLOCKS
  {
    RoomBounds(s.ops);
    forall k: nat | k < |s.ops| && |s.listed| == LOGBLOCKS ensures s.ops[k].used == MAXOPBLOCKS {
      RoomWithout(s.ops, k);
    }
  }
}
