/** A commit needs one buffer that is not pinned, and the reservation made by begin_op does not
    leave one: NBUF equals LOGBLOCKS. */
module LogFull {
  import opened Params
  import opened Disks
  import opened Lru
  import opened Bcaches
  import opened LogImages
  import opened Logs

  lemma {:induction false} Missing(s: seq<nat>, m: nat) returns (i: nat)
    requires |s| < m
    ensures i < m && i !in s
  {
    if m - 1 !in s {
      i := m - 1;
    } else {
      var j :| 0 <= j < |s| && s[j] == m - 1;
      i := Missing(Without(s, j), m - 1);
      assert s == s[..j] + [s[j]] + s[j + 1..];
    }
  }

  lemma {:induction false} DistinctTooLong(s: seq<nat>, m: nat)
    requires Distinct(s) && forall i | 0 <= i < |s| :: s[i] < m
    ensures |s| <= m
  {
    if |s| > 0 {
      assert s[0] < m;
      if m - 1 in s {
        var j :| 0 <= j < |s| && s[j] == m - 1;
        var r := Without(s, j);
        assert forall k :: 0 <= k < |r| ==> r[k] == s[if k < j then k else k + 1];
        DistinctTooLong(r, m - 1);
      } else {
        assert forall i | 0 <= i < |s| :: s[i] in s;
        DistinctTooLong(s, m - 1);
      }
    }
  }

  lemma AllPresent(s: seq<nat>, m: nat, i: nat)
    requires Distinct(s) && |s| == m && (forall k | 0 <= k < |s| :: s[k] < m) && i < m
    ensures i in s
  {
    if i !in s {
      DistinctTooLong(s + [i], m);
    }
  }

  /** The only references to buffers are the log's pins. */
  ghost predicate OnlyPins(log: Log)
    reads log, log.cache
  {
    forall i | 0 <= i < |log.cache.buf| :: log.cache.buf[i].refcnt == if i in log.slot then 1 else 0
  }

  /** With no other reference to any buffer, write_log can read its first log block exactly when
      fewer than NBUF blocks are logged; with NBUF of them bget panics. */
  lemma CommitNeedsUnpinnedBuffer(log: Log)
    requires log.Valid() && OnlyPins(log)
    ensures log.SomeUnused() <==> log.n < NBUF
    ensures log.cache.CanGet(log.cache.root, log.start + 1) <==> log.n < NBUF
  {
    if log.n < NBUF {
      var i := Missing(log.slot, NBUF);
      assert log.cache.buf[i].refcnt == 0;
    } else {
      forall i: nat | i < NBUF
        ensures i in log.slot && !log.cache.buf[i].Holds(log.cache.root, log.start + 1)
      {
        AllPresent(log.slot, NBUF, i);
        var j :| 0 <= j < |log.slot| && log.slot[j] == i;
        assert Home(|log.cache.view|, log.start, log.block[..log.n][j]);
      }
    }
  }
}
