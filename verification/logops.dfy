/** The log as file system calls use it: begin_op, bread, changes, log_write, brelse, end_op.  Every
    call keeps the log in order, and is a step of the protocol of module LogSpace. */
module LogOps {
  import opened Params
  import opened Disks
  import opened Lru
  import opened Bcaches
  import opened LogImages
  import opened Logs
  import opened LogFull
  import Space = LogSpace

  /** A buffer's references are its pin, if it has one, and its holder's. */
  ghost predicate Refs(log: Log)
    reads log, log.cache
  {
    |log.cache.buf| == NBUF && forall i: nat | i < NBUF :: RefsOf(log, i)
  }

  ghost predicate RefsOf(log: Log, i: nat)
    requires i < |log.cache.buf|
    reads log, log.cache
  {
    && log.cache.buf[i].refcnt == (if i in log.slot then 1 else 0) + (if log.cache.buf[i].locked then 1 else 0)
    && (log.cache.buf[i].locked ==> log.cache.buf[i].valid && log.cache.buf[i].dev == log.cache.root)
  }

  ghost predicate Held(cache: Bcache, b: int)
    reads cache
  {
    exists i :: 0 <= i < |cache.buf| && cache.buf[i].locked && cache.buf[i].Holds(cache.root, b)
  }

  /** Changed blocks are logged or still in somebody's hands. */
  ghost predicate Guarded(log: Log)
    requires log.n <= |log.block|
    reads log, log.cache
  {
    forall b | b in log.cache.dirty :: b in log.block[..log.n] || Held(log.cache, b)
  }

  ghost predicate Ready(log: Log)
    reads log, log.cache, log.cache.disk
  {
    log.Valid() && Refs(log) && Guarded(log)
  }

  ghost predicate NoneHeld(log: Log)
    reads log.cache
  {
    forall i | 0 <= i < |log.cache.buf| :: !log.cache.buf[i].locked
  }

  /** The protocol state the log is in. */
  ghost predicate InState(log: Log, s: Space.State)
    requires log.n <= |log.block|
    reads log
  {
    s.listed == log.block[..log.n] && s.outstanding == log.outstanding && s.committing == log.committing
  }

  /** After booting, or after a commit, with no buffer in use. */
  lemma Booted(log: Log)
    requires log.Valid() && log.n == 0 && log.cache.dirty == {}
    requires forall i | 0 <= i < |log.cache.buf| :: log.cache.buf[i].refcnt == 0
    ensures Ready(log) && NoneHeld(log)
  {
    assert log.slot == [];
    forall i: nat | i < NBUF ensures RefsOf(log, i) {
    }
  }

  /** begin_op, once: not ok if it went to sleep. */
  method Begin(log: Log, ghost s: Space.State, ghost pid: nat) returns (ok: bool, ghost t: Space.State)
    requires Ready(log) && InState(log, s) && Space.Enabled(s, Space.Begin(pid))
    modifies log`outstanding
    ensures Ready(log) && Space.Do(s, Space.Begin(pid)) == Space.Done(t) && InState(log, t)
    ensures ok <==> pid !in t.asleep
    ensures log.outstanding == old(log.outstanding) + if ok then 1 else 0
  {
    hide Bcache.Valid, Bcache.Shape;
    ok := log.BeginOp();
    forall i: nat | i < NBUF ensures RefsOf(log, i) {
      assert old(RefsOf(log, i));
    }
    t := Space.Do(s, Space.Begin(pid)).s;
  }

  /** bread */
  method Read(log: Log, blockno: nat) returns (b: nat)
    requires Ready(log) && blockno < |log.cache.view|
    requires log.cache.CanGet(log.cache.root, blockno) && log.cache.Unlocked(log.cache.root, blockno)
    modifies log.cache`buf
    ensures Ready(log) && b < NBUF && log.cache.buf[b].locked && log.cache.buf[b].Holds(log.cache.root, blockno)
    ensures Only(old(log.cache.buf), log.cache.buf, b) && !old(log.cache.buf[b].locked)
    ensures blockno !in log.cache.loose ==> log.cache.buf[b].data == log.cache.view[blockno]
  {
    hide Bcache.Valid, Bcache.Shape;
    ghost var was := log.cache.buf;
    b := log.cache.Bread(blockno);
    forall d | d in log.cache.dirty && d !in log.block[..log.n] ensures Held(log.cache, d) {
      var i :| 0 <= i < |was| && was[i].locked && was[i].Holds(log.cache.root, d);
      assert log.cache.buf[i] == was[i];
    }
    forall i: nat | i < NBUF ensures RefsOf(log, i) {
      assert old(RefsOf(log, i)) && (i != b ==> log.cache.buf[i] == was[i]);
    }
  }

  /** A change to the contents of a held buffer. */
  method Change(log: Log, b: nat, data: Block)
    requires Ready(log) && b < NBUF && log.cache.buf[b].locked && |data| == WORDS
    requires Home(|log.cache.view|, log.start, log.cache.buf[b].blockno)
    modifies log.cache`buf, log.cache`view, log.cache`dirty, log.cache`loose
    ensures Ready(log) && Only(old(log.cache.buf), log.cache.buf, b)
    ensures log.cache.buf[b] == old(log.cache.buf[b]).(data := data) && log.cache.buf[b].blockno !in log.cache.loose
    ensures log.cache.view == old(log.cache.view)[log.cache.buf[b].blockno := data]
    ensures log.cache.dirty == old(log.cache.dirty) + {log.cache.buf[b].blockno}
  {
    hide Bcache.Valid, Bcache.Shape;
    ghost var was := log.cache.buf;
    assert RefsOf(log, b);
    log.cache.Modify(b, data);
    forall d | d in log.cache.dirty && d !in log.block[..log.n] ensures Held(log.cache, d) {
      if d == log.cache.buf[b].blockno {
        assert log.cache.buf[b].Holds(log.cache.root, d);
      } else {
        var i :| 0 <= i < |was| && was[i].locked && was[i].Holds(log.cache.root, d);
        assert log.cache.buf[i].Holds(log.cache.root, d);
      }
    }
    forall i: nat | i < NBUF ensures RefsOf(log, i) {
      assert old(RefsOf(log, i)) && (i != b ==> log.cache.buf[i] == was[i]);
    }
  }

  /** log_write by the i-th running operation. */
  method Record(log: Log, b: nat, ghost s: Space.State, ghost i: nat) returns (panicked: bool, ghost t: Space.State)
    requires Ready(log) && InState(log, s) && i < |s.ops| && b < NBUF && log.cache.buf[b].locked
    requires Home(|log.cache.view|, log.start, log.cache.buf[b].blockno) && log.cache.buf[b].blockno !in log.cache.loose
    modifies log`n, log`block, log`slot, log.cache`buf
    ensures Ready(log) && (panicked ==> unchanged(log) && unchanged(log.cache))
    ensures Space.Do(s, Space.LogWrite(i, old(log.cache.buf[b].blockno))) ==
            if panicked then Space.Panic else Space.Done(t)
    ensures !panicked ==> InState(log, t) && Only(old(log.cache.buf), log.cache.buf, b)
    ensures !panicked ==> log.cache.buf[b] == old(log.cache.buf[b]).(refcnt := log.cache.buf[b].refcnt)
    ensures !panicked ==> log.cache.buf[b].blockno in log.block[..log.n]
  {
    hide Bcache.Valid, Bcache.Shape;
    ghost var was, blockno := log.cache.buf, log.cache.buf[b].blockno;
    assert RefsOf(log, b);
    OneSlot(log, b);
    panicked := log.LogWrite(b);
    t := s;
    if !panicked {
      t := Space.Do(s, Space.LogWrite(i, blockno)).s;
      forall d | d in log.cache.dirty && d !in log.block[..log.n] ensures Held(log.cache, d) {
        var k :| 0 <= k < |was| && was[k].locked && was[k].Holds(log.cache.root, d);
        assert log.cache.buf[k].Holds(log.cache.root, d);
      }
      forall k: nat | k < NBUF ensures RefsOf(log, k) {
        assert old(RefsOf(log, k)) && (k != b ==> log.cache.buf[k] == was[k]);
      }
    }
  }

  /** A buffer is pinned exactly if it holds a listed block. */
  lemma OneSlot(log: Log, b: nat)
    requires Ready(log) && b < NBUF && log.cache.buf[b].dev == log.cache.root
    ensures b in log.slot <==> log.cache.buf[b].blockno in log.block[..log.n]
  {
    if log.cache.buf[b].blockno in log.block[..log.n] {
      var j :| 0 <= j < log.n && log.block[j] == log.cache.buf[b].blockno;
      assert log.slot[j] == b;
    }
  }

  /** brelse.  A block that was changed and not logged loses its protection. */
  method Release(log: Log, b: nat)
    requires Ready(log) && b < NBUF && log.cache.buf[b].locked
    modifies log.cache
    ensures Ready(log) && Only(old(log.cache.buf), log.cache.buf, b) && |log.cache.view| == |old(log.cache.view)|
    ensures log.cache.buf[b] == old(log.cache.buf[b]).(refcnt := old(log.cache.buf[b].refcnt) - 1, locked := false)
    ensures old(log.cache.buf[b].blockno !in log.cache.dirty || log.cache.buf[b].blockno in log.block[..log.n]) ==>
              log.cache.view == old(log.cache.view) && log.cache.dirty == old(log.cache.dirty)
              && log.cache.loose == old(log.cache.loose)
  {
    hide Bcache.Valid, Bcache.Shape;
    ghost var was := log.cache.buf;
    assert RefsOf(log, b);
    OneSlot(log, b);
    log.LogAreaOnDisk();
    log.cache.Brelse(b);
    forall d | d in log.cache.dirty && d !in log.block[..log.n] ensures Held(log.cache, d) {
      var i :| 0 <= i < |was| && was[i].locked && was[i].Holds(log.cache.root, d);
      assert i != b;
      assert log.cache.buf[i] == was[i];
    }
    forall i: nat | i < NBUF ensures RefsOf(log, i) {
      assert old(RefsOf(log, i)) && (i != b ==> log.cache.buf[i] == was[i]);
    }
  }

  /** end_op of the i-th running operation.  The last one commits, and panics in bread exactly if all
      NBUF buffers are pinned. */
  method End(log: Log, ghost s: Space.State, ghost i: nat) returns (panicked: bool, ghost t: Space.State)
    requires Ready(log) && InState(log, s) && i < |s.ops| && log.outstanding > 0
    requires log.outstanding == 1 ==> NoneHeld(log)
    modifies log, log.cache, log.cache.disk
    ensures panicked <==> old(log.outstanding) == 1 && old(log.n) == NBUF
    ensures panicked ==> unchanged(log.cache) && !log.cache.CanGet(log.cache.root, log.start + 1)
    ensures !panicked ==> Ready(log) && InState(log, t)
    ensures Space.Do(s, Space.End(i)).Done?
    ensures !panicked ==> var u := Space.Do(s, Space.End(i)).s;
              if u.committing then Space.Do(u, Space.Committed) == Space.Done(t) else t == u
    ensures !panicked && old(log.outstanding) == 1 ==>
              && log.cache.dirty == {} && SameHome(old(log.cache.view), log.cache.view, log.start)
              && log.cache.disk.trace == old(log.cache.disk.trace)
                   + CommitTrace(old(log.cache.disk.image), log.start, old(log.cache.view), old(log.block[..log.n]))
  {
    hide Bcache.Valid, Bcache.Shape, CommitTrace, SameHome;
    t := s;
    if log.outstanding == 1 {
      LastOut(log);
      if log.n == NBUF {
        return true, t;
      }
    }
    ghost var u := Space.Do(s, Space.End(i)).s;
    t := if u.committing then Space.Do(u, Space.Committed).s else u;
    log.EndOp();
    panicked := false;
    forall k: nat | k < NBUF ensures RefsOf(log, k) {
      assert old(RefsOf(log, k));
    }
  }

  /** With nobody holding a buffer, every change is logged and the pins are the only references. */
  lemma LastOut(log: Log)
    requires Ready(log) && NoneHeld(log)
    ensures log.AllLogged() && log.Quiet() && (log.SomeUnused() <==> log.n < NBUF)
    ensures log.cache.CanGet(log.cache.root, log.start + 1) <==> log.n < NBUF
  {
    hide Bcache.Valid, Bcache.Shape;
    forall i: nat | i < NBUF ensures log.cache.buf[i].refcnt == if i in log.slot then 1 else 0 {
      assert RefsOf(log, i);
    }
    CommitNeedsUnpinnedBuffer(log);
  }

  /** bread, change, log_write, brelse of one block that is not in the log yet. */
  method LogOne(log: Log, blockno: nat, ghost s: Space.State, ghost i: nat) returns (ghost t: Space.State)
    requires Ready(log) && NoneHeld(log) && InState(log, s) && i < |s.ops| && log.n < LOGBLOCKS && log.outstanding > 0
    requires Home(|log.cache.view|, log.start, blockno) && blockno !in log.block[..log.n]
    modifies log`n, log`block, log`slot, log.cache
    ensures Ready(log) && NoneHeld(log) && log.n <= |log.block| && InState(log, t)
    ensures |log.cache.view| == |old(log.cache.view)|
    ensures log.outstanding == old(log.outstanding)
    ensures Space.Do(s, Space.LogWrite(i, blockno)) == Space.Done(t)
  {
    hide Bcache.Valid, Bcache.Shape, Refs, Guarded, Log.Valid;
    Cacheable(log, blockno);
    var b := Read(log, blockno);
    Change(log, b, seq(WORDS, _ => 1));
    var panicked;
    panicked, t := Record(log, b, s, i);
    Release(log, b);
    Cacheable(log, blockno);
  }

  /** With nobody holding a buffer, any block can be read while one is not pinned. */
  lemma Cacheable(log: Log, blockno: nat)
    requires Ready(log) && NoneHeld(log)
    ensures log.n < NBUF ==> log.cache.CanGet(log.cache.root, blockno)
    ensures log.cache.Unlocked(log.cache.root, blockno) && |log.cache.buf| == NBUF && log.n <= |log.block|
    ensures !log.committing
  {
    LastOut(log);
  }

  /** Three operations that stay within their reservations can log NBUF blocks: from a freshly booted
      file system this run is allowed by begin_op and log_write, and leaves no buffer to commit with. */
  method FillLog(log: Log) returns (ghost s: Space.State)
    requires Ready(log) && NoneHeld(log) && log.n == 0 && log.outstanding == 0
    requires log.start + 2 * LOGBLOCKS < |log.cache.view|
    modifies log, log.cache
    ensures Ready(log) && NoneHeld(log) && log.n == NBUF && log.outstanding == LOGBLOCKS / MAXOPBLOCKS
    ensures InState(log, s) && |s.ops| == log.outstanding && forall o | o in s.ops :: o.used == MAXOPBLOCKS
    ensures !log.cache.CanGet(log.cache.root, log.start + 1)
  {
    hide Bcache.Valid, Bcache.Shape, Refs, Guarded, Log.Valid;
    s := Space.Init;
    Cacheable(log, 0);
    assert log.block[..log.n] == [];
    for op := 0 to LOGBLOCKS / MAXOPBLOCKS
      invariant Ready(log) && NoneHeld(log) && log.n <= |log.block| && InState(log, s) && log.n == 0
      invariant log.outstanding == op == |s.ops|
      invariant s.asleep == {} && forall j | 0 <= j < op :: s.ops[j] == Space.Op(j, 0)
      modifies log`outstanding
    {
      var ok;
      ok, s := Begin(log, s, op);
    }
    for k := 0 to LOGBLOCKS
      invariant Ready(log) && NoneHeld(log) && log.n <= |log.block| && InState(log, s) && log.n == k
      invariant log.outstanding == 3 == |s.ops|
      invariant log.start + 2 * LOGBLOCKS < |log.cache.view|
      invariant forall j | 0 <= j < k :: log.block[..log.n][j] == log.start + LOGBLOCKS + 1 + j
      invariant forall j | 0 <= j < 3 :: s.ops[j].used == Clip(k - j * MAXOPBLOCKS)
    {
      s := LogOne(log, log.start + LOGBLOCKS + 1 + k, s, k / MAXOPBLOCKS);
    }
    LastOut(log);
  }

  /** Between 0 and MAXOPBLOCKS. */
  function Clip(k: int): nat { if k < 0 then 0 else if k > MAXOPBLOCKS then MAXOPBLOCKS else k }

  /** Then logging a block that is in the log already panics. */
  method AbsorptionPanics(log: Log) returns (blockno: nat, panicked: bool)
    requires Ready(log) && NoneHeld(log) && log.n == 0 && log.outstanding == 0
    requires log.start + 2 * LOGBLOCKS < |log.cache.view|
    modifies log, log.cache
    ensures Ready(log) && blockno in log.block[..log.n] && Held(log.cache, blockno) && panicked
  {
    hide Bcache.Valid, Bcache.Shape, Refs, Guarded;
    ghost var s := FillLog(log);
    blockno := log.block[0];
    Pinned0(log);
    var b := Read(log, blockno);
    ghost var t;
    panicked, t := Record(log, b, s, 0);
  }

  /** The first listed block is in the cache. */
  lemma Pinned0(log: Log)
    requires Ready(log) && NoneHeld(log) && log.n > 0
    ensures 0 <= log.block[0] < |log.cache.view| && log.block[0] in log.block[..log.n]
    ensures log.block[0] !in log.cache.loose
    ensures log.cache.CanGet(log.cache.root, log.block[0]) && log.cache.Unlocked(log.cache.root, log.block[0])
    ensures Home(|log.cache.view|, log.start, log.block[0])
  {
    hide Bcache.Valid, Bcache.Shape;
    assert log.block[..log.n][0] == log.block[0];
    assert log.cache.buf[log.slot[0]].Holds(log.cache.root, log.block[0]);
  }
}
