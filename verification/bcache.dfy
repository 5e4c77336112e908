/** A disk that is written one block at a time. */
module Disks {
  type Block = seq<int>        // a disk block, seen as 32-bit words
  type Image = seq<Block>      // the disk, by block number

  class Disk {
    var image: Image
    ghost var trace: seq<Image>  // every image the disk has gone through, oldest first

    constructor (image: Image)
      ensures this.image == image && trace == [image]
    {
      this.image, trace := image, [image];
    }

    /** virtio_disk_rw(b, 1): one atomic block write. */
    method Write(b: nat, data: Block)
      requires b < |image|
      modifies this
      ensures image == old(image)[b := data] && trace == old(trace) + [image]
    {
      image := image[b := data];
      trace := trace + [image];
    }
  }
}

/** The buffer cache: an LRU list of NBUF buffers in front of the disk. */
module Bcaches {
  import opened Params
  import opened Disks
  import opened Lru

  datatype Buf = Buf(valid: bool, dev: nat, blockno: nat, locked: bool, refcnt: nat, data: Block) {
    predicate Holds(d: nat, b: int) {
      dev == d && blockno == b
    }
  }

  /** Only the buffer at index b may differ. */
  ghost predicate Only(was: seq<Buf>, now: seq<Buf>, b: nat) {
    |now| == |was| && forall i | 0 <= i < |now| && i != b :: now[i] == was[i]
  }

  /** Block b of device dev sits in a valid buffer that cannot be recycled. */
  ghost predicate KeptIn(buf: seq<Buf>, dev: nat, b: nat) {
    exists i :: 0 <= i < |buf| && buf[i].Holds(dev, b) && buf[i].valid && buf[i].refcnt > 0
  }

  /** Nobody uses buffer b, and everything behind it in the list is in use. */
  ghost predicate LeastRecent(buf: seq<Buf>, order: seq<nat>, b: nat)
    requires |buf| == |order| == NBUF && (forall k | 0 <= k < NBUF :: order[k] < NBUF) && b < NBUF
  {
    buf[b].refcnt == 0
    && exists k :: 0 <= k < NBUF && order[k] == b && forall j | k < j < NBUF :: buf[order[j]].refcnt > 0
  }

  class Bcache {
    const disk: Disk
    const root: nat              // the device served by `disk`
    var buf: seq<Buf>
    var next: seq<nat>           // links between buffers; index NBUF is the list head
    var prev: seq<nat>
    ghost var order: seq<nat>    // the list, most recently used buffer first
    ghost var view: Image        // latest contents of every block of `root`
    ghost var dirty: set<nat>    // blocks changed in the cache and not yet written
    ghost var loose: set<nat>    // blocks given back changed but unprotected: what is cached may get lost

    /** The list is a permutation of the buffers, and a real device's block is cached at most once. */
    ghost predicate Shape()
      reads this
    {
      && |buf| == |order| == NBUF
      && Ring(next, prev, order, NBUF)
      && (forall i: nat | i < NBUF :: i in order)
      && (forall i | 0 <= i < NBUF :: buf[i].locked ==> buf[i].refcnt > 0)
      && (forall i, j | 0 <= i < j < NBUF :: buf[i].dev != 0 ==> !buf[j].Holds(buf[i].dev, buf[i].blockno))
    }

    ghost predicate Valid()
      reads this, disk
    {
      && Shape() && root != 0 && |view| == |disk.image|
      && (forall i | 0 <= i < NBUF :: buf[i].dev == root && buf[i].valid ==>
            buf[i].blockno < |view| && (buf[i].blockno in loose || buf[i].data == view[buf[i].blockno]))
      && (forall b: nat | b < |view| && b !in dirty :: disk.image[b] == view[b])
      && (forall b | b in dirty :: b < |view| && b !in loose && KeptIn(buf, root, b))
    }

    ghost predicate Cached(dev: nat, b: nat)
      reads this
    {
      exists i :: 0 <= i < |buf| && buf[i].Holds(dev, b)
    }

    /** bget panics unless the block is cached or some buffer is unused. */
    ghost predicate CanGet(dev: nat, b: nat)
      reads this
    {
      Cached(dev, b) || exists i :: 0 <= i < |buf| && buf[i].refcnt == 0
    }

    ghost predicate Unlocked(dev: nat, b: nat)
      reads this
    {
      forall i | 0 <= i < |buf| :: buf[i].Holds(dev, b) ==> !buf[i].locked
    }

    /** binit, on a zeroed bcache. */
    constructor (disk: Disk, root: nat)
      requires root != 0
      ensures Valid() && this.disk == disk && this.root == root
      ensures view == disk.image && dirty == loose == {}
      ensures forall i | 0 <= i < NBUF :: buf[i] == Buf(false, 0, 0, false, 0, [])
    {
      this.disk, this.root, view, dirty, loose := disk, root, disk.image, {}, {};
      buf := seq(NBUF, _ => Buf(false, 0, 0, false, 0, []));
      next, prev, order := seq(NBUF + 1, _ => NBUF), seq(NBUF + 1, _ => NBUF), [];
      new;
      assert Linked(next, prev, order, NBUF, 0);
      for b := 0 to NBUF
        invariant Ring(next, prev, order, NBUF) && |order| == b
        invariant forall i: nat :: i in order <==> i < b
        invariant buf == seq(NBUF, _ => Buf(false, 0, 0, false, 0, []))
        invariant view == disk.image && dirty == loose == {}
      {
        PushFrontKeepsRing(next, prev, order, NBUF, b);
        next, prev := next[b := next[NBUF]], prev[b := NBUF];
        prev := prev[next[NBUF] := b];
        next := next[NBUF := b];
        order := [b] + order;
      }
    }

    /** Returns the locked buffer of a block, recycling the unused buffer nearest the LRU tail; not ok,
        the panic "bget: no buffers", exactly if the block is not cached and every buffer is in use. */
    method Bget(dev: nat, blockno: nat) returns (ok: bool, b: nat)
      requires Shape() && Unlocked(dev, blockno)
      modifies this`buf
      ensures Shape() && b <= NBUF && (ok <==> old(CanGet(dev, blockno))) && (ok <==> b < NBUF)
      ensures !ok ==> buf == old(buf)
      ensures ok && old(Cached(dev, blockno)) ==>
                old(buf[b]).Holds(dev, blockno)
                && Only(old(buf), buf, b) && buf[b] == old(buf[b]).(refcnt := old(buf[b].refcnt) + 1, locked := true)
      ensures ok && !old(Cached(dev, blockno)) ==>
                && Only(old(buf), buf, b)
                && buf[b] == Buf(false, dev, blockno, true, 1, old(buf[b].data))
                && LeastRecent(old(buf), order, b)
    {
      hide Ring, LeastRecent;
      b := FindCached(dev, blockno);
      if b != NBUF {
        buf := buf[b := buf[b].(refcnt := buf[b].refcnt + 1)];
        buf := buf[b := buf[b].(locked := true)];
        return true, b;
      }
      b := FindUnused();
      if b != NBUF {
        buf := buf[b := buf[b].(dev := dev, blockno := blockno, valid := false, refcnt := 1)];
        buf := buf[b := buf[b].(locked := true)];
        return true, b;
      }
      return false, b;
    }

    /** From the head of the list: the buffer that holds a block, or the head. */
    method FindCached(dev: nat, blockno: nat) returns (b: nat)
      requires Shape()
      ensures b <= NBUF && (b < NBUF <==> Cached(dev, blockno)) && (b < NBUF ==> buf[b].Holds(dev, blockno))
    {
      assert Linked(next, prev, order, NBUF, 0);
      b := next[NBUF];
      ghost var k := 0;
      while b != NBUF && !(buf[b].dev == dev && buf[b].blockno == blockno)
        invariant 0 <= k <= NBUF && b == At(order, NBUF, k)
        invariant forall j | 0 <= j < k :: !buf[order[j]].Holds(dev, blockno)
        decreases NBUF - k
      {
        assert Linked(next, prev, order, NBUF, k + 1);
        b := next[b];
        k := k + 1;
      }
      if b == NBUF {
        forall i: nat | i < NBUF ensures !buf[i].Holds(dev, blockno) {
          assert i in order;
        }
      }
    }

    /** From the tail of the list: a buffer nobody uses, or the head. */
    method FindUnused() returns (b: nat)
      requires Shape()
      ensures b <= NBUF && (b < NBUF <==> exists i :: 0 <= i < NBUF && buf[i].refcnt == 0)
      ensures b < NBUF ==> LeastRecent(buf, order, b)
    {
      assert Linked(next, prev, order, NBUF, NBUF);
      b := prev[NBUF];
      ghost var k := NBUF - 1;
      while b != NBUF && buf[b].refcnt != 0
        invariant -1 <= k < NBUF && b == At(order, NBUF, k)
        invariant forall j | k < j < NBUF :: buf[order[j]].refcnt > 0
        decreases k
      {
        assert Linked(next, prev, order, NBUF, k);
        b := prev[b];
        k := k - 1;
      }
      if b == NBUF {
        forall i: nat | i < NBUF ensures buf[i].refcnt > 0 {
          assert i in order;
        }
      }
    }

    /** The returned buffer holds the latest contents of the block, or what was cached if that was given
        back unprotected. */
    method Bread(blockno: nat) returns (b: nat)
      requires Valid() && blockno < |view| && CanGet(root, blockno) && Unlocked(root, blockno)
      modifies this`buf
      ensures Valid() && b < NBUF
      ensures Only(old(buf), buf, b) && buf[b] == Buf(true, root, blockno, true, old(buf[b].refcnt) + 1, buf[b].data)
      ensures blockno !in loose ==> buf[b].data == view[blockno]
      ensures if old(Cached(root, blockno)) then old(buf[b]).Holds(root, blockno) else old(buf[b].refcnt) == 0
      ensures buf[b].data == if old(buf[b].Holds(root, blockno) && buf[b].valid) then old(buf[b].data)
              else disk.image[blockno]
      ensures !old(buf[b].locked)
      ensures forall i | 0 <= i < NBUF && buf[i].Holds(root, blockno) :: i == b
    {
      hide Ring, KeptIn;
      ghost var was := buf;
      var ok;
      ok, b := Bget(root, blockno);
      KeptFrame(was, dirty, b);
      if !buf[b].valid {
        if blockno in dirty {
          KeptValid(was, blockno, b);
        }
        assert blockno !in dirty;
        Fill(b);
      }
    }

    /** virtio_disk_rw(b, 0); b->valid = 1; */
    method Fill(b: nat)
      requires Valid() && b < NBUF && buf[b].dev == root && !buf[b].valid && buf[b].locked
      requires buf[b].blockno < |view| && buf[b].blockno !in dirty
      modifies this`buf
      ensures Valid() && Only(old(buf), buf, b) && old(buf[b]).blockno < |disk.image|
      ensures buf[b] == old(buf[b]).(valid := true, data := disk.image[old(buf[b]).blockno])
    {
      hide Ring;
      ghost var was := buf;
      buf := buf[b := buf[b].(data := disk.image[buf[b].blockno])];
      buf := buf[b := buf[b].(valid := true)];
      KeptFrame(was, dirty, b);
    }

    /** A block that cannot be recycled is valid in the one buffer that holds it. */
    lemma KeptValid(was: seq<Buf>, d: nat, b: nat)
      requires root != 0 && KeptIn(was, root, d) && b < |was| == NBUF
      requires (exists i :: 0 <= i < |was| && was[i].Holds(root, d)) ==> was[b].Holds(root, d)
      requires forall i, j | 0 <= i < j < NBUF :: was[i].dev != 0 ==> !was[j].Holds(was[i].dev, was[i].blockno)
      ensures was[b].valid && was[b].Holds(root, d)
    {
      var i :| 0 <= i < |was| && was[i].Holds(root, d) && was[i].valid && was[i].refcnt > 0;
      assert i == b;
    }

    /** The caller changes the contents of a buffer it holds. */
    method Modify(b: nat, data: Block)
      requires Valid() && b < NBUF && buf[b].locked && buf[b].valid && buf[b].dev == root
      modifies this`buf, this`view, this`dirty, this`loose
      ensures Valid() && Only(old(buf), buf, b) && buf[b] == old(buf[b]).(data := data)
      ensures view == old(view)[buf[b].blockno := data] && dirty == old(dirty) + {buf[b].blockno}
      ensures loose == old(loose) - {buf[b].blockno}
    {
      ghost var was := buf;
      buf := buf[b := buf[b].(data := data)];
      view, dirty, loose := view[buf[b].blockno := data], dirty + {buf[b].blockno}, loose - {buf[b].blockno};
      KeptFrame(was, dirty, b);
    }

    method Bwrite(b: nat)
      requires Valid() && b < NBUF && buf[b].locked && buf[b].valid && buf[b].dev == root
      modifies this`view, this`dirty, this`loose, disk
      ensures Valid() && dirty == old(dirty) - {buf[b].blockno} && loose == old(loose) - {buf[b].blockno}
      ensures view == old(view)[buf[b].blockno := buf[b].data]
      ensures disk.image == old(disk.image)[buf[b].blockno := buf[b].data]
      ensures disk.trace == old(disk.trace) + [disk.image]
    {
      disk.Write(buf[b].blockno, buf[b].data);
      view, dirty, loose := view[buf[b].blockno := buf[b].data], dirty - {buf[b].blockno}, loose - {buf[b].blockno};
    }

    /** memmove(dst->data, src->data, BSIZE); bwrite(dst). */
    method CopyWrite(dst: nat, src: nat)
      requires Valid() && dst < NBUF && src < NBUF && dst != src
      requires buf[dst].locked && buf[dst].valid && buf[dst].dev == root
      modifies this`buf, this`view, this`dirty, this`loose, disk
      ensures Valid() && dirty == old(dirty) - {buf[dst].blockno} && loose == old(loose) - {buf[dst].blockno}
      ensures Only(old(buf), buf, dst) && buf[dst] == old(buf[dst]).(data := old(buf[src].data))
      ensures view == old(view)[buf[dst].blockno := buf[src].data]
      ensures disk.image == old(disk.image)[buf[dst].blockno := buf[src].data]
      ensures disk.trace == old(disk.trace) + [disk.image]
    {
      hide Ring;
      Modify(dst, buf[src].data);
      Bwrite(dst);
    }

    /** Unlink b and link it in again right after the head. */
    method MoveToFront(b: nat)
      requires |order| == NBUF && Ring(next, prev, order, NBUF) && (forall i: nat | i < NBUF :: i in order) && b < NBUF
      modifies this`next, this`prev, this`order
      ensures |order| == NBUF && Ring(next, prev, order, NBUF) && (forall i: nat | i < NBUF :: i in order)
      ensures exists k :: 0 <= k < NBUF && old(order)[k] == b && order == [b] + Without(old(order), k)
    {
      assert b in order;
      ghost var k: nat :| k < NBUF && order[k] == b;
      ghost var rest := Without(order, k);
      UnlinkKeepsRing(next, prev, order, NBUF, k);
      assert forall j :: 0 <= j < |rest| ==> rest[j] == order[if j < k then j else j + 1];
      PushFrontKeepsRing(next[prev[b] := next[b]], prev[next[b] := prev[b]], rest, NBUF, b);
      prev := prev[next[b] := prev[b]];
      next := next[prev[b] := next[b]];
      next, prev := next[b := next[NBUF]], prev[b := NBUF];
      prev := prev[next[NBUF] := b];
      next := next[NBUF := b];
      StillAll(order, k, b);
      order := [b] + rest;
    }

    /** Moving one element to the front loses none. */
    lemma StillAll(order: seq<nat>, k: nat, b: nat)
      requires k < |order| == NBUF && order[k] == b && forall i: nat | i < NBUF :: i in order
      ensures forall i: nat | i < NBUF :: i in [b] + Without(order, k)
    {
      var moved := [b] + Without(order, k);
      forall i: nat | i < NBUF ensures i in moved {
        assert i in order;
        var j :| 0 <= j < NBUF && order[j] == i;
        assert i == moved[if j < k then j + 1 else if j == k then 0 else j];
      }
    }

    /** Gives a buffer back.  If it was changed and neither logged (which pins it) nor written, its block
        is no longer protected: the next commit will not write it, and it may be recycled. */
    method Brelse(b: nat)
      requires Valid() && b < NBUF && buf[b].locked
      modifies this`buf, this`next, this`prev, this`order, this`view, this`dirty, this`loose
      ensures Valid() && Only(old(buf), buf, b)
      ensures buf[b] == old(buf[b]).(refcnt := old(buf[b].refcnt) - 1, locked := false)
      ensures if buf[b].refcnt > 0 then order == old(order)
              else exists k :: 0 <= k < NBUF && old(order)[k] == b && order == [b] + Without(old(order), k)
      ensures if buf[b].dev == root && buf[b].blockno in old(dirty) && buf[b].refcnt == 0
              then dirty == old(dirty) - {buf[b].blockno} && loose == old(loose) + {buf[b].blockno}
                   && view == old(view)[buf[b].blockno := disk.image[buf[b].blockno]]
              else dirty == old(dirty) && loose == old(loose) && view == old(view)
    {
      hide KeptIn, Without, Ring;
      if buf[b].dev == root && buf[b].blockno in dirty && buf[b].refcnt == 1 {
        Unprotect(buf[b].blockno);
      }
      LockedInUse(b);
      Unref(b);
      if buf[b].refcnt == 0 {
        InOrder();
        MoveToFront(b);
      }
    }

    /** The order of the list is no part of what the buffers hold. */
    lemma InOrder()
      requires Valid()
      ensures |order| == NBUF && Ring(next, prev, order, NBUF) && forall i: nat | i < NBUF :: i in order
    {
    }

    /** releasesleep(&b->lock); b->refcnt--; */
    method Unref(b: nat)
      requires Valid() && b < NBUF && buf[b].locked
      requires buf[b].dev == root && buf[b].blockno in dirty ==> buf[b].refcnt > 1
      modifies this`buf
      ensures Valid() && Only(old(buf), buf, b) && old(buf[b].refcnt) > 0
      ensures buf[b] == old(buf[b]).(refcnt := old(buf[b].refcnt) - 1, locked := false)
    {
      hide Ring;
      ghost var was := buf;
      buf := buf[b := buf[b].(locked := false)];
      buf := buf[b := buf[b].(refcnt := buf[b].refcnt - 1)];
      KeptFrame(was, dirty, b);
    }

    ghost method Unprotect(n: nat)
      requires Valid() && n in dirty
      modifies this`view, this`dirty, this`loose
      ensures Valid() && dirty == old(dirty) - {n} && loose == old(loose) + {n} && view == old(view)[n := disk.image[n]]
    {
      view, dirty, loose := view[n := disk.image[n]], dirty - {n}, loose + {n};
    }

    /** Only buffer b changed, and if it kept a dirty block it still does. */
    lemma KeptFrame(was: seq<Buf>, dirty: set<nat>, b: nat)
      requires b < |buf| && Only(was, buf, b)
      requires was[b].dev == root && was[b].blockno in dirty && was[b].valid && was[b].refcnt > 0 ==>
                 buf[b].Holds(root, was[b].blockno) && buf[b].valid && buf[b].refcnt > 0
      ensures forall d | d in dirty && KeptIn(was, root, d) :: KeptIn(buf, root, d)
    {
      forall d | d in dirty && KeptIn(was, root, d) ensures KeptIn(buf, root, d) {
        var i :| 0 <= i < |was| && was[i].Holds(root, d) && was[i].valid && was[i].refcnt > 0;
        assert buf[i].Holds(root, d) && buf[i].valid && buf[i].refcnt > 0;
      }
    }

    lemma LockedInUse(b: nat)
      requires Valid() && b < NBUF && buf[b].locked
      ensures buf[b].refcnt > 0
    {
    }

    method Bpin(b: nat)
      requires Valid() && b < NBUF
      modifies this`buf
      ensures Valid() && Only(old(buf), buf, b) && buf[b] == old(buf[b]).(refcnt := old(buf[b].refcnt) + 1)
    {
      ghost var was := buf;
      buf := buf[b := buf[b].(refcnt := buf[b].refcnt + 1)];
      KeptFrame(was, dirty, b);
    }

    method Bunpin(b: nat)
      requires Valid() && b < NBUF && buf[b].refcnt > 0
      requires buf[b].locked || (buf[b].dev == root && buf[b].blockno in dirty) ==> buf[b].refcnt > 1
      modifies this`buf
      ensures Valid() && Only(old(buf), buf, b) && buf[b] == old(buf[b]).(refcnt := old(buf[b].refcnt) - 1)
    {
      ghost var was := buf;
      buf := buf[b := buf[b].(refcnt := buf[b].refcnt - 1)];
      KeptFrame(was, dirty, b);
    }
  }
}
