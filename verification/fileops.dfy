/** Open files: writing in chunks that fit the log, and reading back. */
module FileOps {
  import opened Params
  import opened Inodes
  import opened Sets
  import opened FileBytes
  import opened Fs

  class OpenFile {
    var ip: Inode
    var off: nat

    constructor (ip: Inode, off: nat)
      ensures this.ip == ip && this.off == off
    {
      this.ip, this.off := ip, off;
    }
  }

  /** A completed write is read back exactly, wherever it lies. */
  lemma ReadBack(s: St, t: St, inum: nat, off: nat, src: seq<nat>)
    requires WroteFiles(s, t, inum, off, src, |src|) && t.nodes[inum].size >= off + |src|
    ensures File(t, inum)[off..off + |src|] == src
  {
    hide Inv, ByteAt;
    var f := File(t, inum);
    assert forall k | off <= k < off + |src| :: f[k] == src[k - off];
  }

  /** Two adjacent writes are one. */
  lemma WroteFilesTwice(s: St, t: St, u: St, inum: nat, off: nat, src: seq<nat>, i: nat, n: nat, w: nat, r: nat)
    requires WroteFiles(s, t, inum, off, src, i) && i + n <= |src| && r <= w <= n
    requires WroteFiles(t, u, inum, off + i, src[i..i + n], w)
    requires off <= s.nodes[inum].size && t.nodes[inum].size == Max(s.nodes[inum].size, off + i)
    requires u.nodes[inum].size == Max(t.nodes[inum].size, off + i + r)
    ensures WroteFiles(s, u, inum, off, src, i + w) && u.nodes[inum].size == Max(s.nodes[inum].size, off + i + r)
  {
    hide Inv, ByteAt, File;
    FileSize(s, inum);
    FileSize(t, inum);
    FileSize(u, inum);
    var f, g, h := File(s, inum), File(t, inum), File(u, inum);
    var o := Overlay(f, off, src, i + w, u.nodes[inum].size);
    forall k | 0 <= k < |h| ensures h[k] == o[k] {
      assert k < |g| ==> g[k] == if off <= k < off + i then src[k - off] else if k < |f| then f[k] else 0;
    }
    assert h == o;
  }

  lemma FileSize(s: St, inum: nat)
    requires Inv(s) && inum < |s.nodes|
    ensures |File(s, inum)| == s.nodes[inum].size
  {
  }

  function Max(a: nat, b: nat): nat { if a < b then b else a }

  const MAX: nat := (MAXOPBLOCKS - 1 - 1 - 2) / 2 * BSIZE

  /** One chunk of a write logs at most seven blocks if the bitmap is a single block. */
  lemma ChunkFitsLog(fs: FileSys, ip: Inode, off: nat, n: nat)
    requires fs.Ok(ip) && |ip.addrs| == NDIRECT + 1 && 0 < n <= MAX && off / BSIZE <= End(off, n) <= MAXFILE
    requires fs.size <= BPB
    requires fs.LoggedOnly({} + {fs.IBlock(ip.inum)}, ip, off / BSIZE, End(off, n))
    ensures |fs.logged| <= 7
  {
    hide Inv, Stretch, FileSys.Bitmaps, Nonzero, End;
    fs.Shapes(fs.S(ip));
    StretchSize(fs.S(ip), ip.inum, off / BSIZE, End(off, n));
    ChunkSpan(off, n);
    NonzeroSize(ip.addrs[NDIRECT]);
    var a, b, c := {fs.IBlock(ip.inum)}, fs.Bitmaps(), Nonzero(ip.addrs[NDIRECT]);
    var d := Stretch(fs.S(ip), ip.inum, off / BSIZE, End(off, n));
    OneBitmapBlock(fs);
    UnionSize(a, b);
    UnionSize(a + b, c);
    UnionSize(a + b + c, d);
    SubsetSize(fs.logged, a + b + c + d);
  }

  lemma ChunkSpan(off: nat, n: nat)
    requires 0 < n <= MAX
    ensures End(off, n) <= off / BSIZE + 4
  {
    assert (off + n - 1) / BSIZE <= (off + 3 * BSIZE) / BSIZE == off / BSIZE + 3;
  }

  lemma OneBitmapBlock(fs: FileSys)
    requires fs.size <= BPB
    ensures |fs.Bitmaps()| <= 1
  {
    assert fs.Bitmaps() <= {fs.bmapstart};
    SubsetSize(fs.Bitmaps(), {fs.bmapstart});
  }

  /** A write from off on, of which `done` bytes are completed and w in the files t. */
  ghost predicate Progress(s: St, t: St, inum: nat, off: nat, src: seq<nat>, done: nat, w: nat)
    requires inum < |s.nodes| && inum < |t.nodes|
  {
    if off <= s.nodes[inum].size
    then WroteFiles(s, t, inum, off, src, w) && t.nodes[inum].size == Max(s.nodes[inum].size, off + done)
    else done == 0 && w == 0 && t == s
  }

  /** The next chunk of a write of n bytes, of which `done` are completed, would pass the largest file. */
  predicate TooLarge(off: nat, n: nat, done: nat) {
    done < n && off + done + Min(MAX, n - done) > MAXFILE * BSIZE
  }

  /** Why a write of n bytes from off on is short: it starts beyond the file's end, or would end beyond
      the largest file, or the disk is full, or the source faults after `good` bytes, which then are
      the bytes in the cache. */
  ghost predicate Short(fs: FileSys, ip: Inode, size: nat, off: nat, n: nat, good: nat, done: nat, w: nat)
    requires fs.Ok(ip)
    reads fs, ip
  {
    || (off > size && done == 0 && w == 0)
    || (TooLarge(off, n, done) && w == done)
    || (fs.Full() && w == done && (off + done) / BSIZE < MAXFILE
        && BlockOf(fs.S(ip), ip.inum, (off + done) / BSIZE) == 0)
    || (done <= good < n && w == good)
  }

  /** The bytes writei counts, none if it fails. */
  function Moved(r: int): nat { if r > 0 then r else 0 }

  /** One transaction of filewrite: the chunk of n1 bytes from the i-th on. */
  method WriteChunk(fs: FileSys, f: OpenFile, src: seq<nat>, i: nat, n1: nat, good: nat, alone: bool, ghost s: St,
                    ghost off: nat)
    returns (r: int, ghost w: nat, ghost l: nat, ghost cost: nat)
    requires fs.Ok(f.ip) && f.ip.kind != 0 && |f.ip.addrs| == NDIRECT + 1 && fs.Settled() && fs.size <= BPB
    requires fs.dinodes[f.ip.inum] == f.ip.V()
    requires |src| < 0x8000_0000 && f.off == off + i <= MAXFILE * BSIZE && i < |src| && n1 == Min(MAX, |src| - i)
    requires i <= good
    requires f.ip.inum < |s.nodes| && Progress(s, fs.S(f.ip), f.ip.inum, off, src, i, i)
    modifies fs, f`off, f.ip`addrs, f.ip`size
    ensures fs.Ok(f.ip) && |f.ip.addrs| == NDIRECT + 1 && cost <= 7 && r <= n1
    ensures fs.dinodes[f.ip.inum] == f.ip.V() && fs.MetaSettled()
    ensures f.off == old(f.off) + Moved(r) && i <= f.off - off <= w <= |src| && f.off <= MAXFILE * BSIZE
    ensures f.off - off <= good
    ensures Progress(s, fs.S(f.ip), f.ip.inum, off, src, f.off - off, w)
    ensures Progress(s, fs.Durable(), f.ip.inum, off, src, f.off - off, l)
    ensures (l == w || l == f.off - off) && (l == w ==> fs.Settled())
    ensures r == n1 ==> w == l == f.off - off
    ensures alone ==> fs.OnDisk() == fs.Durable() && fs.listed == fs.listedNodes == fs.listedBits == {}
    ensures r != n1 ==> Short(fs, f.ip, s.nodes[f.ip.inum].size, off, |src|, good, f.off - off, w)
  {
    hide Inv, WroteFiles, FileSys.LoggedOnly, FileSys.Pending, Progress, FileSys.Settled, BlockOf;
    hide FileSys.MetaSettled, FileSys.PendingBits, FileSys.PendingNodes;
    fs.BeginOp();
    r, w, l := WriteInode(fs, f, src, i, n1, good, s, off);
    cost := |fs.logged|;
    if r > 0 {
      f.off := f.off + r;
    }
    fs.Shapes(fs.S(f.ip));
    fs.EndOp(alone);
  }

  /** The call of writei. */
  method WriteInode(fs: FileSys, f: OpenFile, src: seq<nat>, i: nat, n1: nat, good: nat, ghost s: St, ghost off: nat)
    returns (r: int, ghost w: nat, ghost l: nat)
    requires fs.Ok(f.ip) && f.ip.kind != 0 && |f.ip.addrs| == NDIRECT + 1 && fs.Settled() && fs.size <= BPB
    requires fs.dinodes[f.ip.inum] == f.ip.V()
    requires |src| < 0x8000_0000 && f.off == off + i <= MAXFILE * BSIZE && i < |src| && n1 == Min(MAX, |src| - i)
    requires i <= good
    requires f.ip.inum < |s.nodes| && Progress(s, fs.S(f.ip), f.ip.inum, off, src, i, i)
    requires fs.logged == {}
    modifies fs, f.ip`addrs, f.ip`size
    ensures fs.Ok(f.ip) && |f.ip.addrs| == NDIRECT + 1 && |fs.logged| <= 7 && r <= n1
    ensures fs.dinodes[f.ip.inum] == f.ip.V() && fs.MetaSettled()
    ensures i + Moved(r) <= w <= |src| && f.off + Moved(r) <= MAXFILE * BSIZE && i + Moved(r) <= good
    ensures Progress(s, fs.S(f.ip), f.ip.inum, off, src, i + Moved(r), w)
    ensures Progress(s, fs.Durable(), f.ip.inum, off, src, i + Moved(r), l)
    ensures (l == w || l == i + Moved(r)) && (l == w ==> fs.Settled())
    ensures r == n1 ==> w == l == i + Moved(r)
    ensures r != n1 ==> Short(fs, f.ip, s.nodes[f.ip.inum].size, off, |src|, good, i + Moved(r), w)
  {
    hide Inv, WroteFiles, FileSys.LoggedOnly, FileSys.Stopped, End, File, FileSys.Pending, BlockOf, FileSys.Settled;
    hide Progress, Short, FileSys.MetaSettled, FileSys.PendingBits, FileSys.PendingNodes;
    ghost var c, v := Call(fs.S(f.ip), fs.logged, fs.listed), 0;
    w, l := i, i;
    r, v := fs.Writei(f.ip, src[i..i + n1], good - i, f.off);
    if r >= 0 {
      ChunkFitsLog(fs, f.ip, off + i, n1);
      w := i + v;
      l := i + fs.Logged(f.ip, n1, off + i, r, v);
      ProgressMore(s, c.s, fs.S(f.ip), f.ip.inum, off, src, i, n1, r, v);
      fs.MetaPending();
      ProgressMore(s, c.s, fs.Durable(), f.ip.inum, off, src, i, n1, r, l - i);
      if r < n1 {
        StoppedShort(fs, c, f.ip, s.nodes[f.ip.inum].size, off, |src|, i, n1, good, r, v);
      }
    } else {
      fs.DurableIs(f.ip);
      FailedShort(fs, f.ip, s, off, src, i, n1, good);
    }
  }

  /** One more chunk. */
  lemma ProgressMore(s: St, t: St, u: St, inum: nat, off: nat, src: seq<nat>, i: nat, n1: nat, r: nat, w: nat)
    requires inum < |s.nodes| && inum < |t.nodes| && Progress(s, t, inum, off, src, i, i) && i + n1 <= |src|
    requires r <= w <= n1
    requires WroteFiles(t, u, inum, off + i, src[i..i + n1], w) && off + i <= t.nodes[inum].size
    requires u.nodes[inum].size == Max(t.nodes[inum].size, off + i + r)
    ensures Progress(s, u, inum, off, src, i + r, i + w)
  {
    hide Inv, File;
    WroteFilesTwice(s, t, u, inum, off, src, i, n1, w, r);
  }

  /** A writei that fails leaves the write where it was. */
  lemma FailedShort(fs: FileSys, ip: Inode, s: St, off: nat, src: seq<nat>, i: nat, n1: nat, good: nat)
    requires fs.Ok(ip) && ip.inum < |s.nodes| && Progress(s, fs.S(ip), ip.inum, off, src, i, i)
    requires i < |src| && n1 == Min(MAX, |src| - i) && (off + i > ip.size || off + i + n1 > MAXFILE * BSIZE)
    ensures Short(fs, ip, s.nodes[ip.inum].size, off, |src|, good, i, i)
  {
    hide Inv, BlockOf, WroteFiles;
  }

  /** Why writei stopped is why the whole write is short. */
  lemma StoppedShort(fs: FileSys, c: Call, ip: Inode, size: nat, off: nat, n: nat, i: nat, n1: nat, good: nat,
                     r: nat, v: nat)
    requires fs.Ok(ip) && i + n1 <= n && i <= good && r <= v && fs.Stopped(c, ip, n1, good - i, off + i, r, v)
    ensures Short(fs, ip, size, off, n, good, i + r, i + v)
  {
    hide Inv, BlockOf;
  }

  /** Writes n bytes in chunks, one transaction each; other operations may keep a group open from one to
      the next.  w bytes reach the file as the cache shows it, l of them as it will be committed, and
      `done` in completed writes. */
  method Filewrite(fs: FileSys, f: OpenFile, src: seq<nat>, good: nat)
    returns (ret: int, ghost done: nat, ghost w: nat, ghost l: nat, ghost most: nat)
    requires fs.Ok(f.ip) && f.ip.kind != 0 && |f.ip.addrs| == NDIRECT + 1 && fs.Settled() && fs.size <= BPB
    requires fs.dinodes[f.ip.inum] == f.ip.V()
    requires |src| < 0x8000_0000 && f.off <= MAXFILE * BSIZE
    modifies fs, f`off, f.ip`addrs, f.ip`size
    ensures fs.Ok(f.ip) && |f.ip.addrs| == NDIRECT + 1 && most <= 7
    ensures fs.dinodes[f.ip.inum] == f.ip.V() && fs.MetaSettled()
    ensures ret == (if done == |src| then |src| else -1) && f.off == old(f.off) + done
    ensures done <= w <= |src| && done <= good && (l == done || l == w) && (l == w ==> fs.Settled())
    ensures done == |src| ==> w == done
    ensures done < |src| ==> Short(fs, f.ip, old(f.ip.size), old(f.off), |src|, good, done, w)
    ensures old(f.off) <= old(f.ip.size) || |src| == 0 ==>
              WroteFiles(old(fs.S(f.ip)), fs.S(f.ip), f.ip.inum, old(f.off), src, w)
    ensures old(f.off) <= old(f.ip.size) || |src| == 0 ==>
              WroteFiles(old(fs.S(f.ip)), fs.Durable(), f.ip.inum, old(f.off), src, l)
    ensures old(f.off) <= old(f.ip.size) ==> f.ip.size == Max(old(f.ip.size), old(f.off) + done)
    ensures old(f.off) > old(f.ip.size) ==> done == 0 && fs.S(f.ip) == old(fs.S(f.ip))
  {
    hide Inv, WroteFiles, File, FileSys.Pending, BlockOf, FileSys.MetaSettled, FileSys.Durable;
    ghost var s, ip, off := fs.S(f.ip), f.ip, f.off;
    var i, r := 0, 0;
    w, l, most := 0, 0, 0;
    WroteNothing(s, ip.inum, off, src);
    fs.DurableIs(f.ip);
    while i < |src|
      invariant fs.Ok(ip) && |ip.addrs| == NDIRECT + 1 && fs.Settled() && 0 <= i <= |src| && i <= good && most <= 7
      invariant fs.dinodes[ip.inum] == ip.V()
      invariant f.ip == ip && f.off == off + i <= MAXFILE * BSIZE && w == l == i
      invariant Progress(s, fs.S(ip), ip.inum, off, src, i, i)
    {
      var n1 := |src| - i;
      if n1 > MAX {
        n1 := MAX;
      }
      var alone: bool := *;
      ghost var cost;
      r, w, l, cost := WriteChunk(fs, f, src, i, n1, good, alone, s, off);
      most := if cost > most then cost else most;
      if r != n1 {
        break;
      }
      i := i + r;
    }
    fs.DurableIs(f.ip);
    done := f.off - off;
    ret := if i == |src| then |src| else -1;
  }
}
