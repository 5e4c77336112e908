/** The write-ahead log, run through the buffer cache. */
module Logs {
  import opened Params
  import opened Disks
  import opened Lru
  import opened Bcaches
  import opened LogImages

  /** Disk writes of write_log, one image per write. */
  ghost function WriteLogTrace(d: Image, start: nat, src: seq<Block>, k: nat): seq<Image>
    requires k <= |src| && start + k < |d|
  {
    if k == 0 then [] else WriteLogTrace(d, start, src, k - 1) + [Appended(d, start, src, k)]
  }

  /** Disk writes of install_trans. */
  ghost function InstallTrace(d: Image, start: nat, bl: seq<int>, k: nat): seq<Image>
    requires k <= |bl| && Layout(d, start) && HomeList(|d|, start, bl)
  {
    if k == 0 then [] else InstallTrace(d, start, bl, k - 1) + [Installed(d, start, bl, k)]
  }

  ghost function Gather(view: Image, bl: seq<int>): seq<Block>
    requires forall i | 0 <= i < |bl| :: 0 <= bl[i] < |view|
  {
    seq(|bl|, i requires 0 <= i < |bl| => view[bl[i]])
  }

  /** The disk after write_log and after the header write that commits. */
  ghost function LoggedImage(d: Image, start: nat, view: Image, bl: seq<int>): Image
    requires Layout(d, start) && HomeList(|d|, start, bl) && |view| == |d|
  {
    Appended(d, start, Gather(view, bl), |bl|)
  }

  ghost function CommittedImage(d: Image, start: nat, view: Image, bl: seq<int>): (r: Image)
    requires Layout(d, start) && HomeList(|d|, start, bl) && Layout(view, start) && |view| == |d|
    ensures Layout(r, start) && |r| == |d|
  {
    forall b: nat | b < |d| ensures |LoggedImage(d, start, view, bl)[b]| == WORDS {
      AppendedAt(d, start, Gather(view, bl), |bl|, b);
    }
    var e := LoggedImage(d, start, view, bl);
    e[start := PutHeader(e[start], bl)]
  }

  ghost function Cleared(d: Image, start: nat): Image
    requires Layout(d, start)
  {
    d[start := PutHeader(d[start], [])]
  }

  /** Every image the disk goes through during a commit. */
  ghost function CommitTrace(d: Image, start: nat, view: Image, bl: seq<int>): seq<Image>
    requires Layout(d, start) && HomeList(|d|, start, bl) && Layout(view, start) && |view| == |d|
  {
    if bl == [] then [] else
      var c := CommittedImage(d, start, view, bl);
      InstalledLayout(c, start, bl, |bl|);
      WriteLogTrace(d, start, Gather(view, bl), |bl|) + [c]
      + InstallTrace(c, start, bl, |bl|) + [Cleared(Installed(c, start, bl, |bl|), start)]
  }

  /** Every image the disk goes through during a recovery. */
  ghost function RecoveryTrace(d: Image, start: nat): seq<Image>
    requires HeaderOk(d, start)
  {
    var bl := Header(d, start);
    InstalledLayout(d, start, bl, |bl|);
    InstallTrace(d, start, bl, |bl|) + [Cleared(Recovered(d, start), start)]
  }

  lemma InstalledNone(d: Image, start: nat, bl: seq<int>)
    requires Layout(d, start) && HomeList(|d|, start, bl)
    ensures Installed(d, start, bl, 0) == d && InstallTrace(d, start, bl, 0) == []
  {
  }

  lemma AppendedNone(d: Image, start: nat, src: seq<Block>)
    requires start < |d|
    ensures Appended(d, start, src, 0) == d && WriteLogTrace(d, start, src, 0) == []
  {
  }

  lemma AppendedStep(d: Image, start: nat, src: seq<Block>, k: nat)
    requires k < |src| && start + k + 1 < |d|
    ensures Appended(d, start, src, k + 1) == Appended(d, start, src, k)[start + 1 + k := src[k]]
    ensures WriteLogTrace(d, start, src, k + 1) == WriteLogTrace(d, start, src, k) + [Appended(d, start, src, k + 1)]
  {
  }

  /** The next block to install can be read from the current image. */
  lemma InstalledStep(d: Image, start: nat, bl: seq<int>, k: nat)
    requires k < |bl| && Layout(d, start) && HomeList(|d|, start, bl)
    ensures var e := Installed(d, start, bl, k);
            && e[start + 1 + k] == d[start + 1 + k]
            && Installed(d, start, bl, k + 1) == e[bl[k] := e[start + 1 + k]]
            && InstallTrace(d, start, bl, k + 1) == InstallTrace(d, start, bl, k) + [Installed(d, start, bl, k + 1)]
  {
    InstalledLayout(d, start, bl, k);
  }

  /** Installing changes nothing where the home blocks already hold the logged contents. */
  lemma {:induction false} InstalledSame(d: Image, start: nat, bl: seq<int>, k: nat)
    requires k <= |bl| && Layout(d, start) && HomeList(|d|, start, bl)
    requires forall j | 0 <= j < |bl| :: d[start + 1 + j] == d[bl[j]]
    ensures Installed(d, start, bl, k) == d
  {
    if k > 0 {
      InstalledSame(d, start, bl, k - 1);
    }
  }

  /** The cached view during a commit: log and header blocks change, home blocks do not. */
  lemma CommitView(v: Image, start: nat, bl: seq<int>, v1: Image, v2: Image)
    requires Layout(v, start) && HomeList(|v|, start, bl)
    requires v1 == Appended(v, start, Gather(v, bl), |bl|) && |v1[start]| == WORDS
    requires v2 == v1[start := PutHeader(v1[start], bl)]
    requires Layout(v2, start)
    ensures Installed(v2, start, bl, |bl|) == v2 && SameHome(v, v2, start)
  {
    forall b: nat | b < |v| ensures v1[b] == if start < b <= start + |bl| then v[bl[b - start - 1]] else v[b] {
      AppendedAt(v, start, Gather(v, bl), |bl|, b);
    }
    InstalledSame(v2, start, bl, |bl|);
  }

  class Log {
    const cache: Bcache
    const start: nat
    var n: nat                // lh.n
    var block: seq<int>       // lh.block
    var outstanding: nat
    var committing: bool
    ghost var slot: seq<nat>  // slot[j] is the buffer pinned for block[j]

    /** initlog at boot, on an empty cache: recover_from_log. */
    constructor (cache: Bcache, start: nat)
      requires cache.Valid() && cache.dirty == cache.loose == {} && cache.view == cache.disk.image
      requires HeaderOk(cache.disk.image, start)
      requires |cache.buf| == NBUF && |cache.view| == |cache.disk.image|
      requires forall i | 0 <= i < NBUF :: cache.buf[i].refcnt == 0 && !cache.buf[i].locked
      modifies cache, cache.disk
      ensures Valid() && this.cache == cache && this.start == start && n == 0 && outstanding == 0
      ensures cache.dirty == cache.loose == {} && cache.view == cache.disk.image
      ensures cache.disk.image == Cleared(Recovered(old(cache.disk.image), start), start)
      ensures cache.disk.trace == old(cache.disk.trace) + RecoveryTrace(old(cache.disk.image), start)
      ensures forall i | 0 <= i < NBUF :: cache.buf[i].refcnt == 0
    {
      hide Bcache.Valid, Bcache.Shape, Installed, InstallTrace, Home;
      this.cache, this.start := cache, start;
      n, block, outstanding, committing, slot := 0, seq(LOGBLOCKS, _ => 0), 0, false, [];
      new;
      assert cache.buf[0].refcnt == 0 == cache.buf[1].refcnt;
      RecoverFromLog();
    }

    ghost predicate Listed()
      reads this, cache, cache.disk
    {
      && cache.Valid() && Layout(cache.view, start) && Layout(cache.disk.image, start)
      && n <= LOGBLOCKS == |block| && |cache.buf| == NBUF && |cache.view| == |cache.disk.image|
      && HomeList(|cache.view|, start, block[..n])
      && (forall b | b in cache.dirty || b in cache.loose :: Home(|cache.view|, start, b))
      && (forall b | b in cache.loose :: b !in block[..n])
    }

    /** From position `from` on, every listed block has its own pin, besides any holder's reference. */
    ghost predicate Pinned(from: nat)
      requires n <= |block| && |cache.buf| == NBUF
      reads this, cache
    {
      && |slot| == n && Distinct(block[..n])
      && forall j | from <= j < n :: slot[j] < NBUF && cache.buf[slot[j]].valid
           && cache.buf[slot[j]].Holds(cache.root, block[j])
           && cache.buf[slot[j]].refcnt > (if cache.buf[slot[j]].locked then 1 else 0)
    }

    /** Holds whenever no commit is running. */
    ghost predicate Valid()
      reads this, cache, cache.disk
    {
      && Listed() && Pinned(0) && !committing
      && cache.view[start][0] == 0
    }

    /** Everything changed in the cache has been logged. */
    ghost predicate AllLogged()
      requires Listed()
      reads this, cache, cache.disk
    {
      forall b | b in cache.dirty :: b in block[..n]
    }

    /** No buffer that a commit or recovery has to lock is held by anyone. */
    ghost predicate Quiet()
      requires n <= |block| && |cache.buf| == NBUF
      reads this, cache
    {
      forall i | 0 <= i < NBUF && cache.buf[i].locked && cache.buf[i].dev == cache.root ::
        !(start <= cache.buf[i].blockno <= start + LOGBLOCKS) && cache.buf[i].blockno !in block[..n]
    }

    ghost predicate TwoUnused()
      reads cache
    {
      TwoFree(cache.buf)
    }

    ghost predicate SomeUnused()
      reads cache
    {
      exists i :: 0 <= i < |cache.buf| && cache.buf[i].refcnt == 0
    }

    lemma LogAreaOnDisk()
      requires Listed()
      ensures forall b: nat | start <= b <= start + LOGBLOCKS :: cache.view[b] == cache.disk.image[b]
    {
    }

    /** Copy modified blocks from the cache to the log. */
    method WriteLog()
      requires Listed() && Pinned(0) && Quiet() && SomeUnused()
      modifies cache, cache.disk
      ensures Listed() && Pinned(0) && Quiet() && SomeUnused()
      ensures SameUse(old(cache.buf), cache.buf)
      ensures |cache.view| == |old(cache.view)| && cache.dirty == old(cache.dirty)
      ensures var src := Gather(old(cache.view), block[..n]);
              && cache.view == Appended(old(cache.view), start, src, n)
              && cache.disk.image == Appended(old(cache.disk.image), start, src, n)
              && cache.disk.trace == old(cache.disk.trace) + WriteLogTrace(old(cache.disk.image), start, src, n)
    {
      hide Bcache.Valid, Bcache.Shape, Log.Pinned, Log.Quiet, Log.SomeUnused, Appended, WriteLogTrace;
      ghost var src := Gather(cache.view, block[..n]);
      AppendedNone(cache.view, start, src);
      AppendedNone(cache.disk.image, start, src);
      var tail := 0;
      while tail < n
        invariant 0 <= tail <= n && Listed() && Pinned(0) && Quiet() && SomeUnused()
        invariant SameUse(old(cache.buf), cache.buf)
        invariant |cache.view| == |old(cache.view)| && cache.dirty == old(cache.dirty)
        invariant cache.view == Appended(old(cache.view), start, src, tail)
        invariant cache.disk.image == Appended(old(cache.disk.image), start, src, tail)
        invariant cache.disk.trace == old(cache.disk.trace) + WriteLogTrace(old(cache.disk.image), start, src, tail)
      {
        AppendedAt(old(cache.view), start, src, tail, block[tail]);
        AppendedStep(old(cache.view), start, src, tail);
        AppendedStep(old(cache.disk.image), start, src, tail);
        CopyToLog(tail);
        tail := tail + 1;
      }
    }

    lemma SlotFacts(j: nat)
      requires Listed() && Quiet() && SomeUnused() && j < n
      ensures n <= |block| && cache.Valid() && |cache.buf| == NBUF && start + j + 1 < |cache.view|
      ensures start + j + 1 !in cache.dirty && start + j + 1 !in cache.loose && |cache.view[start + j + 1]| == WORDS
      ensures cache.CanGet(cache.root, start + j + 1) && cache.Unlocked(cache.root, start + j + 1)
      ensures 0 <= block[j] < |cache.view| && !(start <= block[j] <= start + LOGBLOCKS)
      ensures start + j + 1 <= start + LOGBLOCKS
      ensures cache.Unlocked(cache.root, block[j]) && block[j] !in cache.loose
    {
      assert block[j] in block[..n];
    }

    lemma PinFacts(from: nat, j: nat)
      requires Listed() && Quiet() && from <= j < n && Pinned(from)
      ensures n <= |block| && j < |slot| && slot[j] < |cache.buf| && 0 <= block[j]
      ensures cache.buf[slot[j]].valid && cache.buf[slot[j]].Holds(cache.root, block[j])
      ensures !cache.buf[slot[j]].locked && cache.buf[slot[j]].refcnt > 0
    {
      assert block[j] in block[..n];
    }

    /** Refilling one unlocked buffer that nobody pinned disturbs no one. */
    twostate lemma OneReplaced(to: nat)
      requires old(Listed() && Pinned(0) && Quiet() && SomeUnused()) && cache.Valid() && to < NBUF
      requires n == old(n) && block == old(block) && slot == old(slot) && Only(old(cache.buf), cache.buf, to)
      requires |cache.view| == |old(cache.view)|
      requires cache.buf[to].refcnt == old(cache.buf[to].refcnt) && !cache.buf[to].locked && !old(cache.buf[to].locked)
      requires old(cache.buf[to].refcnt) == 0 ||
               (cache.buf[to].valid && cache.buf[to].Holds(old(cache.buf[to].dev), old(cache.buf[to].blockno)))
      requires Layout(cache.view, start) && Layout(cache.disk.image, start) && |cache.disk.image| == |cache.view|
      requires cache.dirty <= old(cache.dirty) && cache.loose <= old(cache.loose)
      ensures Listed() && Pinned(0) && Quiet() && SomeUnused() && SameUse(old(cache.buf), cache.buf)
    {
      hide Bcache.Valid, Bcache.Shape;
      var u :| 0 <= u < NBUF && old(cache.buf[u].refcnt) == 0;
      assert cache.buf[u].refcnt == 0;
    }

    /** One turn of write_log's loop. */
    method CopyToLog(tail: nat)
      requires Listed() && Pinned(0) && Quiet() && SomeUnused() && tail < n
      modifies cache`buf, cache`next, cache`prev, cache`order, cache`view, cache`dirty, cache`loose, cache.disk
      ensures Listed() && Pinned(0) && Quiet() && SomeUnused() && SameUse(old(cache.buf), cache.buf)
      ensures var data := old(cache.view)[block[tail]];
              && cache.view == old(cache.view)[start + 1 + tail := data]
              && cache.disk.image == old(cache.disk.image)[start + 1 + tail := data]
      ensures cache.disk.trace == old(cache.disk.trace) + [cache.disk.image]
      ensures cache.dirty == old(cache.dirty)
    {
      hide Bcache.Valid, Bcache.Shape;
      var to := FillSlot(tail);
      OneReplaced(to);
    }

    method FillSlot(tail: nat) returns (to: nat)
      requires Listed() && Pinned(0) && Quiet() && SomeUnused() && tail < n
      modifies cache`buf, cache`next, cache`prev, cache`order, cache`view, cache`dirty, cache`loose, cache.disk
      ensures cache.Valid() && to < NBUF && |cache.buf| == NBUF
      ensures var data := old(cache.view)[block[tail]];
              && Only(old(cache.buf), cache.buf, to)
              && cache.buf[to] == Buf(true, cache.root, start + 1 + tail, false, old(cache.buf[to].refcnt), data)
              && cache.view == old(cache.view)[start + 1 + tail := data]
              && cache.disk.image == old(cache.disk.image)[start + 1 + tail := data]
      ensures old(cache.buf[to].Holds(cache.root, start + 1 + tail)) || old(cache.buf[to].refcnt) == 0
      ensures !old(cache.buf[to].locked) && cache.dirty == old(cache.dirty) && cache.loose <= old(cache.loose)
      ensures cache.disk.trace == old(cache.disk.trace) + [cache.disk.image]
    {
      hide Bcache.Valid, Bcache.Shape, Log.Listed, Log.Pinned, Log.Quiet, Log.SomeUnused;
      SlotFacts(tail);
      PinFacts(0, tail);
      ghost var was, f := cache.buf, slot[tail];
      to := cache.Bread(start + tail + 1);
      assert to != f && cache.buf[f] == was[f];
      var from := cache.Bread(block[tail]);
      assert from == f;
      cache.CopyWrite(to, from);
      cache.Brelse(from);
      cache.Brelse(to);
    }

    /** If committed, copy from the log to the disk; then clear the log. */
    method RecoverFromLog()
      requires Listed() && n == 0 && HeaderOk(cache.disk.image, start) && cache.dirty == cache.loose == {}
      requires TwoUnused()
      requires forall i | 0 <= i < NBUF :: !cache.buf[i].locked
      requires cache.view == cache.disk.image
      modifies this`n, this`block, this`slot, cache, cache.disk
      ensures Listed() && n == 0 && slot == [] && cache.dirty == cache.loose == {} && cache.view == cache.disk.image
      ensures cache.disk.image == Cleared(Recovered(old(cache.disk.image), start), start)
      ensures cache.disk.trace == old(cache.disk.trace) + RecoveryTrace(old(cache.disk.image), start)
      ensures SameUse(old(cache.buf), cache.buf)
    {
      hide Bcache.Valid, Bcache.Shape, Installed, InstallTrace, HeaderOk, Home, HomeList, Layout, Log.Quiet;
      hide Log.SomeUnused, TwoFree, SameUse;
      ghost var was := cache.buf;
      AtRest(was);
      ReadHead();
      AtRest(was);
      ghost var mid := cache.buf;
      InstallTrans(true);
      SameUseStep(was, mid, cache.buf);
      n, slot := 0, [];
      mid := cache.buf;
      AtRest(was);
      WriteHead();
      SameUseStep(was, mid, cache.buf);
    }

    /** Nobody holds a buffer, and two are unused. */
    lemma AtRest(was: seq<Buf>)
      requires |was| == NBUF == |cache.buf| && n <= |block| && (forall i | 0 <= i < NBUF :: !was[i].locked)
      requires TwoFree(was) && (SameUse(was, cache.buf) || was == cache.buf)
      ensures Quiet() && SomeUnused() && TwoUnused() && SameUse(was, cache.buf)
    {
      var i, j :| 0 <= i < j < NBUF && was[i].refcnt == 0 && was[j].refcnt == 0;
      assert cache.buf[i].refcnt == 0 && cache.buf[j].refcnt == 0;
    }

    /** Read the log header from disk into the in-memory header. */
    method ReadHead()
      requires Listed() && n == 0 && HeaderOk(cache.disk.image, start) && cache.dirty == {} && SomeUnused() && Quiet()
      requires cache.view == cache.disk.image && cache.loose == {}
      modifies this`n, this`block, cache`buf, cache`next, cache`prev, cache`order, cache`view, cache`dirty, cache`loose
      ensures Listed() && block[..n] == Header(cache.disk.image, start)
      ensures cache.view == cache.disk.image && cache.dirty == cache.loose == {}
      ensures SameUse(old(cache.buf), cache.buf)
    {
      hide Bcache.Valid, Bcache.Shape;
      var b := cache.Bread(start);
      var lh := cache.buf[b].data;
      n := lh[0];
      for i := 0 to n
        invariant |block| == LOGBLOCKS && block[..i] == lh[1..1 + i]
        modifies this`block
      {
        block := block[i := lh[1 + i]];
      }
      cache.Brelse(b);
    }

    /** Write the in-memory log header to disk. */
    method WriteHead()
      requires Listed() && Quiet() && SomeUnused()
      modifies cache`buf, cache`next, cache`prev, cache`order, cache`view, cache`dirty, cache`loose, cache.disk
      ensures Listed() && cache.dirty == old(cache.dirty) && cache.loose <= old(cache.loose)
      ensures Quiet() && SomeUnused() && SameUse(old(cache.buf), cache.buf) && (old(Pinned(0)) ==> Pinned(0))
      ensures var h := PutHeader(old(cache.view)[start], block[..n]);
              cache.view == old(cache.view)[start := h] && cache.disk.image == old(cache.disk.image)[start := h]
      ensures cache.disk.trace == old(cache.disk.trace) + [cache.disk.image]
    {
      hide Bcache.Valid, Bcache.Shape;
      var b := cache.Bread(start);
      var hb := cache.buf[b].data;
      hb := hb[0 := n];
      for i := 0 to n
        invariant hb == [n as int] + block[..i] + old(cache.view)[start][1 + i..]
      {
        hb := hb[1 + i := block[i]];
      }
      cache.Modify(b, hb);
      cache.Bwrite(b);
      cache.Brelse(b);
    }

    /** Copy committed blocks from the log to their home locations. */
    method InstallTrans(recovering: bool)
      requires Listed() && Quiet() && SomeUnused()
      requires if recovering then TwoUnused() else Pinned(0)
      modifies cache`buf, cache`next, cache`prev, cache`order, cache`view, cache`dirty, cache`loose, cache.disk
      ensures Listed() && Quiet() && SomeUnused()
      ensures cache.view == Installed(old(cache.view), start, block[..n], n)
      ensures cache.disk.image == Installed(old(cache.disk.image), start, block[..n], n)
      ensures cache.disk.trace == old(cache.disk.trace) + InstallTrace(old(cache.disk.image), start, block[..n], n)
      ensures cache.dirty <= old(cache.dirty) && cache.loose <= old(cache.loose)
      ensures forall j | 0 <= j < n :: block[j] !in cache.dirty
      ensures if recovering then SameUse(old(cache.buf), cache.buf) else Unpinned(old(cache.buf), cache.buf, slot)
    {
      hide Bcache.Valid, Bcache.Shape, Installed, InstallTrace, Log.Quiet, Log.SomeUnused, Log.TwoUnused, SameUse;
      hide Unpinned;
      LogAreaOnDisk();
      ghost var bl, v0, d0 := block[..n], cache.view, cache.disk.image;
      UseNone(cache.buf);
      InstalledNone(v0, start, bl);
      InstalledNone(d0, start, bl);
      var tail := 0;
      while tail < n
        invariant 0 <= tail <= n && Listed() && Quiet() && SomeUnused()
        invariant if recovering then TwoUnused() else Pinned(tail)
        invariant cache.view == Installed(v0, start, bl, tail)
        invariant cache.disk.image == Installed(d0, start, bl, tail)
        invariant cache.disk.trace == old(cache.disk.trace) + InstallTrace(d0, start, bl, tail)
        invariant cache.dirty <= old(cache.dirty) && cache.loose <= old(cache.loose)
        invariant forall j | 0 <= j < tail :: bl[j] !in cache.dirty
        invariant if recovering then SameUse(old(cache.buf), cache.buf)
                  else Unpinned(old(cache.buf), cache.buf, slot[..tail])
      {
        InstalledStep(v0, start, bl, tail);
        InstalledStep(d0, start, bl, tail);
        ghost var mid := cache.buf;
        InstallOne(tail, recovering);
        if recovering {
          SameUseStep(old(cache.buf), mid, cache.buf);
        } else {
          UnpinnedStep(old(cache.buf), mid, cache.buf, slot, tail);
        }
        tail := tail + 1;
      }
      assert recovering || slot[..n] == slot;
    }

    /** A turn of install_trans leaves all other buffers and the remaining pins alone. */
    twostate lemma InstallFrame(new tail: nat, new recovering: bool, new l: nat, new d: nat)
      requires old(Listed() && Quiet() && SomeUnused()) && cache.Valid() && n == old(n) && block == old(block)
      requires slot == old(slot)
      requires tail < n && l < NBUF && d < NBUF && l != d && |cache.buf| == NBUF
      requires recovering ==> old(TwoUnused())
      requires !recovering ==> old(Pinned(tail))
      requires forall i | 0 <= i < NBUF && i != l && i != d :: cache.buf[i] == old(cache.buf[i])
      requires Refilled(old(cache.buf[l]), cache.buf[l], cache.root, start + 1 + tail)
      requires recovering ==> Refilled(old(cache.buf[d]), cache.buf[d], cache.root, block[tail])
      requires !recovering ==> d == slot[tail] && cache.buf[d].refcnt == old(cache.buf[d].refcnt) - 1
      requires !recovering ==>
                 cache.buf[d] == old(cache.buf[d]).(refcnt := cache.buf[d].refcnt, data := cache.buf[d].data)
      requires |cache.view| == |old(cache.view)| && |cache.disk.image| == |old(cache.disk.image)|
      requires cache.dirty <= old(cache.dirty) && cache.loose <= old(cache.loose)
      requires Layout(cache.view, start) && Layout(cache.disk.image, start)
      ensures Listed() && Quiet() && SomeUnused() && (if recovering then TwoUnused() else Pinned(tail + 1))
      ensures if recovering then SameUse(old(cache.buf), cache.buf)
              else Unpinned(old(cache.buf), cache.buf, [slot[tail]])
    {
      hide Bcache.Valid, Bcache.Shape;
    }

    /** One turn of install_trans's loop. */
    method InstallOne(tail: nat, recovering: bool)
      requires Listed() && Quiet() && SomeUnused() && tail < n
      requires if recovering then TwoUnused() else Pinned(tail)
      modifies cache`buf, cache`next, cache`prev, cache`order, cache`view, cache`dirty, cache`loose, cache.disk
      ensures Listed() && Quiet() && SomeUnused() && (if recovering then TwoUnused() else Pinned(tail + 1))
      ensures if recovering then SameUse(old(cache.buf), cache.buf)
              else Unpinned(old(cache.buf), cache.buf, [slot[tail]])
      ensures var data := old(cache.view)[start + 1 + tail];
              cache.view == old(cache.view)[block[tail] := data]
              && cache.disk.image == old(cache.disk.image)[block[tail] := data]
      ensures cache.dirty == old(cache.dirty) - {block[tail] as nat} && cache.loose <= old(cache.loose)
      ensures cache.disk.trace == old(cache.disk.trace) + [cache.disk.image]
    {
      hide Bcache.Valid, Bcache.Shape;
      var l, d := CopyHome(tail, recovering);
      InstallFrame(tail, recovering, l, d);
    }

    method CopyHome(tail: nat, recovering: bool) returns (lbuf: nat, dbuf: nat)
      requires Listed() && Quiet() && SomeUnused() && tail < n
      requires if recovering then TwoUnused() else Pinned(tail)
      modifies cache`buf, cache`next, cache`prev, cache`order, cache`view, cache`dirty, cache`loose, cache.disk
      ensures cache.Valid() && |cache.buf| == NBUF && lbuf < NBUF && dbuf < NBUF && lbuf != dbuf
      ensures forall i | 0 <= i < NBUF && i != lbuf && i != dbuf :: cache.buf[i] == old(cache.buf[i])
      ensures Refilled(old(cache.buf[lbuf]), cache.buf[lbuf], cache.root, start + 1 + tail)
      ensures if recovering then Refilled(old(cache.buf[dbuf]), cache.buf[dbuf], cache.root, block[tail])
              else dbuf == slot[tail] && cache.buf[dbuf].refcnt == old(cache.buf[dbuf].refcnt) - 1
                   && cache.buf[dbuf] ==
                      old(cache.buf[dbuf]).(refcnt := cache.buf[dbuf].refcnt, data := cache.buf[dbuf].data)
      ensures var data := old(cache.view)[start + 1 + tail];
              cache.view == old(cache.view)[block[tail] := data]
              && cache.disk.image == old(cache.disk.image)[block[tail] := data]
      ensures cache.dirty == old(cache.dirty) - {block[tail] as nat} && cache.loose <= old(cache.loose)
      ensures cache.disk.trace == old(cache.disk.trace) + [cache.disk.image]
    {
      hide Bcache.Valid, Bcache.Shape, Log.Listed, Log.Pinned, Log.Quiet, Log.SomeUnused, Layout, Home, HomeList;
      SlotFacts(tail);
      lbuf, dbuf := ReadPair(tail, recovering);
      cache.CopyWrite(dbuf, lbuf);
      assert cache.view == old(cache.view)[block[tail] := old(cache.view)[start + 1 + tail]];
      if !recovering {
        cache.Bunpin(dbuf);
      }
      cache.Brelse(lbuf);
      cache.Brelse(dbuf);
    }

    /** The log block and the home block it goes to, both held. */
    method ReadPair(tail: nat, recovering: bool) returns (lbuf: nat, dbuf: nat)
      requires Listed() && Quiet() && SomeUnused() && tail < n
      requires if recovering then TwoUnused() else Pinned(tail)
      modifies cache`buf
      ensures cache.Valid() && |cache.buf| == NBUF && lbuf < NBUF && dbuf < NBUF && lbuf != dbuf
      ensures forall i | 0 <= i < NBUF && i != lbuf && i != dbuf :: cache.buf[i] == old(cache.buf[i])
      ensures Taken(old(cache.buf[lbuf]), cache.buf[lbuf], cache.root, start + 1 + tail)
      ensures Taken(old(cache.buf[dbuf]), cache.buf[dbuf], cache.root, block[tail])
      ensures cache.buf[lbuf].data == cache.view[start + 1 + tail]
      ensures !recovering ==> dbuf == slot[tail] && old(cache.buf[dbuf].refcnt) > 0
      ensures recovering
              || cache.buf[dbuf] ==
                 old(cache.buf[dbuf]).(refcnt := cache.buf[dbuf].refcnt, data := cache.buf[dbuf].data, locked := true)
    {
      hide Bcache.Valid, Bcache.Shape, Log.Listed, Log.Pinned, Log.Quiet, Log.SomeUnused, Layout, Home, HomeList;
      SlotFacts(tail);
      if !recovering {
        PinFacts(tail, tail);
      }
      lbuf := cache.Bread(start + tail + 1);
      dbuf := cache.Bread(block[tail]);
    }

    /** Write the pending group to disk: log, header, home blocks, empty header. */
    method Commit()
      requires Listed() && Pinned(0) && Quiet() && AllLogged() && (n > 0 ==> SomeUnused())
      requires cache.view[start][0] == 0
      modifies this`n, this`slot, cache, cache.disk
      ensures Listed() && n == 0 && slot == [] && cache.dirty == {} && cache.view[start][0] == 0
      ensures SameHome(old(cache.view), cache.view, start)
      ensures cache.disk.trace == old(cache.disk.trace)
                + CommitTrace(old(cache.disk.image), start, old(cache.view), old(block[..n]))
      ensures old(n) > 0 ==> |cache.disk.trace| > 0 && cache.disk.image == cache.disk.trace[|cache.disk.trace| - 1]
      ensures Unpinned(old(cache.buf), cache.buf, old(slot))
    {
      hide Bcache.Valid, Bcache.Shape, Installed, Appended, InstallTrace, WriteLogTrace, Log.SomeUnused;
      if n > 0 {
        ghost var v, bl := cache.view, block[..n];
        WriteLog();
        ghost var v1 := cache.view;
        LogAreaOnDisk();
        WriteHead();
        CommitView(v, start, bl, v1, cache.view);
        InstallTrans(false);
        LogAreaOnDisk();
        n, slot := 0, [];
        WriteHead();
      }
    }

    /** One turn of begin_op's loop, with no commit under way: not ok if it has to sleep and try again. */
    method BeginOp() returns (ok: bool)
      requires Valid()
      modifies this`outstanding
      ensures Valid() && (ok <==> n + (old(outstanding) + 1) * MAXOPBLOCKS <= LOGBLOCKS)
      ensures outstanding == old(outstanding) + if ok then 1 else 0
    {
      if committing {
        return false;
      } else if n + (outstanding + 1) * MAXOPBLOCKS > LOGBLOCKS {
        return false;
      }
      outstanding := outstanding + 1;
      return true;
    }

    /** Ends an operation; the last one out commits everything logged since the previous commit. */
    method EndOp()
      requires Valid() && outstanding > 0
      requires outstanding == 1 ==> AllLogged() && Quiet() && (n > 0 ==> SomeUnused())
      modifies this, cache, cache.disk
      ensures Valid() && outstanding == old(outstanding) - 1
      ensures old(outstanding) > 1 ==>
                unchanged(cache) && unchanged(cache.disk) && block[..n] == old(block[..n]) && slot == old(slot)
      ensures outstanding == 0 ==>
                n == 0 && cache.dirty == {} && SameHome(old(cache.view), cache.view, start)
                && cache.disk.trace == old(cache.disk.trace)
                     + CommitTrace(old(cache.disk.image), start, old(cache.view), old(block[..n]))
                && Unpinned(old(cache.buf), cache.buf, old(slot))
    {
      hide Bcache.Valid, Bcache.Shape;
      outstanding := outstanding - 1;
      if outstanding == 0 {
        committing := true;
        Commit();
        committing := false;
      }
    }

    /** Records a modified buffer; one that is already in the log is absorbed.  panicked: the log is full,
        whether or not the buffer would be absorbed, or no operation is running. */
    method LogWrite(b: nat) returns (panicked: bool)
      requires Valid() && b < NBUF && cache.buf[b].locked && cache.buf[b].valid && cache.buf[b].dev == cache.root
      requires Home(|cache.view|, start, cache.buf[b].blockno) && cache.buf[b].blockno !in cache.loose
      modifies this`n, this`block, this`slot, cache`buf
      ensures Valid() && unchanged(cache`view) && unchanged(cache`dirty)
      ensures panicked <==> old(n) >= LOGBLOCKS || outstanding < 1
      ensures panicked ==> unchanged(this) && unchanged(cache)
      ensures !panicked && old(cache.buf[b].blockno in block[..n]) ==>
                block[..n] == old(block[..n]) && slot == old(slot) && cache.buf == old(cache.buf)
      ensures !panicked && old(cache.buf[b].blockno !in block[..n]) ==>
                && block[..n] == old(block[..n]) + [old(cache.buf[b].blockno)] && slot == old(slot) + [b]
                && Only(old(cache.buf), cache.buf, b)
                && cache.buf[b] == old(cache.buf[b]).(refcnt := old(cache.buf[b].refcnt) + 1)
    {
      hide Bcache.Valid, Bcache.Shape;
      if n >= LOGBLOCKS || outstanding < 1 {
        return true;
      }
      var i := 0;
      while i < n && block[i] != cache.buf[b].blockno
        invariant 0 <= i <= n && cache.buf[b].blockno !in block[..i]
      {
        i := i + 1;
      }
      block := block[i := cache.buf[b].blockno];
      if i == n {
        cache.LockedInUse(b);
        cache.Bpin(b);
        n, slot := n + 1, slot + [b];
        assert block[..n] == old(block[..n]) + [cache.buf[b].blockno];
      } else {
        assert block == old(block) && block[i] in block[..n];
      }
      return false;
    }
  }

  ghost predicate TwoFree(buf: seq<Buf>) {
    exists i, j :: 0 <= i < j < |buf| && buf[i].refcnt == 0 && buf[j].refcnt == 0
  }

  /** An unlocked buffer was used for block b of device `root` and given back. */
  ghost predicate Refilled(was: Buf, now: Buf, root: nat, b: int) {
    && now.valid && now.dev == root && now.blockno == b && !now.locked && !was.locked && now.refcnt == was.refcnt
    && (was.refcnt > 0 ==> was.dev == root && was.blockno == b)
  }

  /** A buffer nobody held was locked for block b of device `root`. */
  ghost predicate Taken(was: Buf, now: Buf, root: nat, b: int) {
    && now.valid && now.dev == root && now.blockno == b && now.locked && !was.locked && now.refcnt == was.refcnt + 1
    && (was.refcnt > 0 ==> was.dev == root && was.blockno == b)
  }

  lemma UseNone(was: seq<Buf>)
    ensures SameUse(was, was) && Unpinned(was, was, [])
  {
  }

  lemma SameUseStep(was: seq<Buf>, mid: seq<Buf>, now: seq<Buf>)
    requires SameUse(was, mid) && SameUse(mid, now)
    ensures SameUse(was, now)
  {
  }

  lemma UnpinnedStep(was: seq<Buf>, mid: seq<Buf>, now: seq<Buf>, slots: seq<nat>, k: nat)
    requires k < |slots| && Unpinned(was, mid, slots[..k]) && slots[k] !in slots[..k]
    requires Unpinned(mid, now, [slots[k]])
    ensures Unpinned(was, now, slots[..k + 1])
  {
    assert slots[..k + 1] == slots[..k] + [slots[k]];
  }

  /** The buffers in `slots` lost one reference each; locks and owners are as before. */
  ghost predicate Unpinned(was: seq<Buf>, now: seq<Buf>, slots: seq<nat>) {
    && |was| == |now|
    && (forall i | 0 <= i < |now| :: now[i].locked == was[i].locked
          && now[i].refcnt == was[i].refcnt - (if i in slots then 1 else 0))
  }

  /** Reference counts and locks are as before, and no buffer in use was given to another block. */
  ghost predicate SameUse(was: seq<Buf>, now: seq<Buf>) {
    && |was| == |now|
    && (forall i | 0 <= i < |now| ::
          && was[i].refcnt == now[i].refcnt && was[i].locked == now[i].locked
          && (was[i].refcnt > 0 ==> was[i].dev == now[i].dev && was[i].blockno == now[i].blockno)
          && (was[i].refcnt > 0 && was[i].valid ==> now[i].valid))
  }
}
