/** The inode and block layer of the file system, on one device, one operation at a time. */
module Fs {
  import opened Params
  import opened Inodes
  import opened FileBytes
  import opened Truncate

  /** An in-memory inode. */
  class Inode {
    var inum: nat
    var ref: nat
    var valid: bool
    var kind: nat     // ip->type
    var nlink: nat
    var size: nat
    var addrs: seq<nat>

    function V(): Dinode
      reads this
    {
      Dinode(kind, nlink, size, addrs)
    }
  }

  const TWO32: nat := 0x1_0000_0000

  function Min(a: nat, b: nat): nat { if a < b then a else b }

  /** The file system, with the inode taken from memory, when a write starts, and what is logged by then. */
  datatype Call = Call(s: St, logged: set<nat>, listed: set<nat>)

  /** The cache's contents of some blocks and the disk's of all others. */
  ghost function Merged(cache: seq<Content>, disk: seq<Content>, some: set<nat>): (r: seq<Content>)
    ensures |r| == |cache|
  {
    seq(|cache|, b requires 0 <= b < |cache| => if b in some || b >= |disk| then cache[b] else disk[b])
  }

  /** The same for bits, which lie BPB to a block, */
  ghost function MergedBits(cache: seq<bool>, disk: seq<bool>, start: nat, some: set<nat>): (r: seq<bool>)
    ensures |r| == |cache|
  {
    seq(|cache|, b requires 0 <= b < |cache| => if b / BPB + start in some || b >= |disk| then cache[b] else disk[b])
  }

  /** and inodes, IPB to a block. */
  ghost function MergedNodes(cache: seq<Dinode>, disk: seq<Dinode>, start: nat, some: set<nat>): (r: seq<Dinode>)
    ensures |r| == |cache|
  {
    seq(|cache|, n requires 0 <= n < |cache| => if n / IPB + start in some || n >= |disk| then cache[n] else disk[n])
  }

  /** Where the share of a write's n bytes ends that goes to the same block as byte tot. */
  function Share(off: nat, tot: nat, n: nat): nat { Min(n, tot + BSIZE - (off + tot) % BSIZE) }

  class FileSys {
    const size: nat          // sb.size
    const nmeta: nat         // blocks before the first data block
    const inodestart: nat
    const bmapstart: nat
    var bits: seq<bool>      // the free bitmap
    var blocks: seq<Content> // contents as the buffer cache shows them
    var dinodes: seq<Dinode>
    ghost var own: seq<Use>
    ghost var logged: set<nat>       // blocks log_write has been called on
    ghost var listed: set<nat>       // the open group of the log: data blocks,
    ghost var listedNodes: set<nat>  // inode blocks,
    ghost var listedBits: set<nat>   // bitmap blocks
    ghost var disk: seq<Content>     // as of the last commit: data blocks,
    ghost var diskNodes: seq<Dinode> // inodes,
    ghost var diskBits: seq<bool>    // bitmap

    /** A file system all of whose changes are committed or listed in an open group. */
    constructor (s: St, inodestart: nat, bmapstart: nat, ghost listed: set<nat>)
      ensures size == |s.bits| && nmeta == s.nmeta && bits == s.bits && blocks == s.blocks && dinodes == s.nodes
      ensures own == s.own
      ensures disk == s.blocks && diskNodes == s.nodes && diskBits == s.bits
      ensures this.listed == listed && listedNodes == listedBits == logged == {}
    {
      size, nmeta, this.inodestart, this.bmapstart := |s.bits|, s.nmeta, inodestart, bmapstart;
      bits, blocks, dinodes, own := s.bits, s.blocks, s.nodes, s.own;
      disk, diskNodes, diskBits := s.blocks, s.nodes, s.bits;
      this.listed, listedNodes, listedBits, logged := listed, {}, {}, {};
    }

    function BBlock(b: nat): nat { b / BPB + bmapstart }
    function IBlock(inum: nat): nat { inum / IPB + inodestart }

    /** The blocks of the bitmap. */
    ghost function Bitmaps(): set<nat> { set b: nat | b < size :: BBlock(b) }

    /** The file system with ip's in-memory copy in place of the one on disk. */
    ghost function S(ip: Inode): St
      requires ip.inum < |dinodes|
      reads this, ip
    {
      St(nmeta, bits, blocks, dinodes[ip.inum := ip.V()], own)
    }

    ghost predicate Ok(ip: Inode)
      reads this, ip
    {
      ip.inum < |dinodes| && |bits| == size && |disk| == size && Inv(S(ip))
    }

    /** The data blocks as a commit of the open group leaves them: write_log copies a listed block from
        the cache, whatever was in it when it was listed. */
    ghost function Pending(): seq<Content>
      reads this`blocks, this`disk, this`listed
    {
      Merged(blocks, disk, listed)
    }

    /** The bitmap as a commit leaves it, */
    ghost function PendingBits(): seq<bool>
      reads this`bits, this`diskBits, this`listedBits
    {
      MergedBits(bits, diskBits, bmapstart, listedBits)
    }

    /** and the inodes. */
    ghost function PendingNodes(): seq<Dinode>
      reads this`dinodes, this`diskNodes, this`listedNodes
    {
      MergedNodes(dinodes, diskNodes, inodestart, listedNodes)
    }

    /** The file system that a commit of the open group makes durable. */
    ghost function Durable(): St
      reads this`own, this`blocks, this`disk, this`listed
      reads this`bits, this`diskBits, this`listedBits, this`dinodes, this`diskNodes, this`listedNodes
    {
      St(nmeta, PendingBits(), Pending(), PendingNodes(), own)
    }

    /** What is durable already. */
    ghost function OnDisk(): St
      reads this
    {
      St(nmeta, diskBits, disk, diskNodes, own)
    }

    /** An inode or a bit that differs from its committed copy has its block in the open group. */
    ghost predicate MetaSettled()
      reads this`bits, this`diskBits, this`listedBits, this`dinodes, this`diskNodes, this`listedNodes
    {
      && |diskBits| == |bits| && |diskNodes| == |dinodes|
      && (forall b: nat | b < |bits| :: BBlock(b) in listedBits || diskBits[b] == bits[b])
      && (forall n: nat | n < |dinodes| :: IBlock(n) in listedNodes || diskNodes[n] == dinodes[n])
    }

    /** Nothing is changed in the cache that a commit would not write. */
    ghost predicate Settled()
      reads this`blocks, this`disk, this`listed
      reads this`bits, this`diskBits, this`listedBits, this`dinodes, this`diskNodes, this`listedNodes
    {
      && |disk| == |blocks| && (forall b | 0 <= b < |blocks| :: b in listed || disk[b] == blocks[b])
      && MetaSettled()
    }

    /** begin_op: a new operation, perhaps in a group that is open already. */
    method BeginOp()
      modifies this`logged
      ensures logged == {}
    {
      logged := {};
    }

    /** end_op: the group is committed if no other operation is running. */
    method EndOp(alone: bool)
      modifies this`disk, this`diskNodes, this`diskBits, this`listed, this`listedNodes, this`listedBits
      ensures if alone then OnDisk() == old(Durable()) && listed == listedNodes == listedBits == {}
              else OnDisk() == old(OnDisk()) && listed == old(listed) && listedNodes == old(listedNodes)
                   && listedBits == old(listedBits)
      ensures Durable() == old(Durable()) && (old(Settled()) ==> Settled()) && (old(MetaSettled()) ==> MetaSettled())
      ensures old(|disk| == |blocks|) ==> |disk| == |blocks|
    {
      if alone {
        disk, diskNodes, diskBits := Pending(), PendingNodes(), PendingBits();
        listed, listedNodes, listedBits := {}, {}, {};
      }
    }

    /** log_write of a data or indirect block. */
    method LogData(ghost b: nat)
      modifies this`listed, this`logged
      ensures listed == old(listed) + {b} && logged == old(logged) + {b}
    {
      listed := listed + {b};
      LogWrite(b);
    }

    /** log_write of the block that has an inode. */
    method LogNode(ghost inum: nat)
      modifies this`listedNodes, this`logged
      ensures listedNodes == old(listedNodes) + {IBlock(inum)} && logged == old(logged) + {IBlock(inum)}
    {
      listedNodes := listedNodes + {IBlock(inum)};
      LogWrite(IBlock(inum));
    }

    /** log_write of the block that has a bit of the bitmap. */
    method LogBit(ghost b: nat)
      modifies this`listedBits, this`logged
      ensures listedBits == old(listedBits) + {BBlock(b)} && logged == old(logged) + {BBlock(b)}
    {
      listedBits := listedBits + {BBlock(b)};
      LogWrite(BBlock(b));
    }

    /** log_write of any block */
    method LogWrite(ghost b: nat)
      modifies this`logged
      ensures logged == old(logged) + {b}
    {
      logged := logged + {b};
    }

    /** Zeroes a block. */
    method Bzero(b: nat)
      requires b < |blocks|
      modifies this`blocks, this`listed, this`logged
      ensures blocks == old(blocks)[b := Zeroed] && listed == old(listed) + {b} && logged == old(logged) + {b}
    {
      blocks := blocks[b := Zeroed];
      LogData(b);
    }

    /** Takes the first free block and zeroes it; 0 if there is none. */
    method Balloc() returns (r: nat)
      requires |bits| == |blocks| == size && 0 < size && bits[0]
      modifies this`bits, this`blocks, this`listed, this`listedBits, this`logged
      ensures r == 0 ==> unchanged(this) && forall b | 0 <= b < size :: bits[b]
      ensures r != 0 ==> r < size && !old(bits)[r] && (forall b | 0 <= b < r :: old(bits)[b])
                         && bits == old(bits)[r := true] && blocks == old(blocks)[r := Zeroed]
                         && listed == old(listed) + {r} && logged == old(logged) + {BBlock(r), r}
                         && listedBits == old(listedBits) + {BBlock(r)}
      ensures old(MetaSettled()) ==> MetaSettled()
    {
      var b := 0;
      while b < size
        invariant b % BPB == 0 && unchanged(this)
        invariant forall c | 0 <= c < b && c < size :: bits[c]
      {
        var bi := 0;
        while bi < BPB && b + bi < size
          invariant bi <= BPB && unchanged(this) && (b + bi <= size || bi == 0)
          invariant forall c | 0 <= c < b + bi && c < size :: bits[c]
        {
          if !bits[b + bi] {
            bits := bits[b + bi := true];
            LogBit(b + bi);
            Bzero(b + bi);
            return b + bi;
          }
          bi := bi + 1;
        }
        b := b + BPB;
      }
      return 0;
    }

    /** Frees a block, which must be in use. */
    method Bfree(b: nat)
      requires b < |bits| && bits[b]
      modifies this`bits, this`listedBits, this`logged
      ensures bits == old(bits)[b := false] && logged == old(logged) + {BBlock(b)}
      ensures listedBits == old(listedBits) + {BBlock(b)} && (old(MetaSettled()) ==> MetaSettled())
    {
      assert bits[b];  // no "freeing free block" panic
      bits := bits[b := false];
      LogBit(b);
    }

    /** Block x is an indirect block whose j-th entry is b. */
    static predicate Lists(blocks: seq<Content>, x: nat, j: nat, b: nat) {
      0 < x < |blocks| && IsIndex(blocks[x]) && j < NINDIRECT && WordsOf(blocks[x])[j] == b
    }

    lemma Listed(ip: Inode, j: nat)
      requires Ok(ip) && |ip.addrs| == NDIRECT + 1 && j < NINDIRECT
      ensures Ref(S(ip), Entry(ip.inum, j)) != 0 ==>
                Lists(blocks, ip.addrs[NDIRECT], j, Ref(S(ip), Entry(ip.inum, j)))
    {
      hide Inv;
      Shapes(S(ip));
    }

    /** The block of a file's bn-th kilobyte, allocated if it has none; 0 if the disk is full. */
    method Bmap(ip: Inode, bn: nat) returns (addr: nat)
      requires Ok(ip) && bn < MAXFILE && ip.kind != 0
      modifies this, ip`addrs
      ensures Ok(ip) && Kept(old(S(ip)), S(ip)) && dinodes == old(dinodes)
      ensures addr == BlockOf(S(ip), ip.inum, bn) && |ip.addrs| == NDIRECT + 1 == |old(ip.addrs)|
      ensures bn < NDIRECT ==> addr == ip.addrs[bn]
      ensures bn >= NDIRECT && addr != 0 ==> Lists(blocks, ip.addrs[NDIRECT], bn - NDIRECT, addr)
      ensures old(ip.addrs)[NDIRECT] != 0 ==> ip.addrs[NDIRECT] == old(ip.addrs)[NDIRECT]
      ensures old(BlockOf(S(ip), ip.inum, bn)) != 0 ==> unchanged(this) && unchanged(ip)
      ensures addr == 0 ==> forall b | 0 <= b < size :: bits[b]
      ensures forall k: nat | k < MAXFILE && k != bn :: BlockOf(S(ip), ip.inum, k) == old(BlockOf(S(ip), ip.inum, k))
      ensures logged <= old(logged) + Bitmaps() + Nonzero(ip.addrs[NDIRECT]) + Nonzero(addr)
      ensures Nonzero(addr) <= listed || old(BlockOf(S(ip), ip.inum, bn)) != 0
      ensures old(listed) <= listed <= old(listed) + Nonzero(ip.addrs[NDIRECT]) + Nonzero(addr)
      ensures old(Settled()) ==> Settled()
    {
      hide RefOk, UseOk, NodeOk, KindOk, Kept, Ref;
      hide FileSys.MetaSettled;
      ghost var s := S(ip);
      SlotRefs(ip);
      if bn < NDIRECT {
        addr := MapSlot(ip, bn);
        SlotRefs(ip);
        return;
      }
      addr := MapIndirect(ip, bn);
      Listed(ip, bn - NDIRECT);
    }

    /** bmap of a block the indirect block lists. */
    method MapIndirect(ip: Inode, bn: nat) returns (addr: nat)
      requires Ok(ip) && NDIRECT <= bn < MAXFILE && ip.kind != 0
      modifies this, ip`addrs
      ensures Ok(ip) && Kept(old(S(ip)), S(ip)) && dinodes == old(dinodes)
      ensures addr == BlockOf(S(ip), ip.inum, bn)
      ensures |ip.addrs| == NDIRECT + 1 == |old(ip.addrs)|
      ensures old(ip.addrs)[NDIRECT] != 0 ==> ip.addrs[NDIRECT] == old(ip.addrs)[NDIRECT]
      ensures old(BlockOf(S(ip), ip.inum, bn)) != 0 ==> unchanged(this) && unchanged(ip)
      ensures addr == 0 ==> forall b | 0 <= b < size :: bits[b]
      ensures forall k: nat | k < MAXFILE && k != bn :: BlockOf(S(ip), ip.inum, k) == old(BlockOf(S(ip), ip.inum, k))
      ensures logged <= old(logged) + Bitmaps() + Nonzero(ip.addrs[NDIRECT]) + Nonzero(addr)
      ensures Nonzero(addr) <= listed || old(BlockOf(S(ip), ip.inum, bn)) != 0
      ensures old(listed) <= listed <= old(listed) + Nonzero(ip.addrs[NDIRECT]) + Nonzero(addr)
      ensures old(Settled()) ==> Settled()
    {
      hide RefOk, UseOk, NodeOk, KindOk, Kept, Ref;
      hide FileSys.MetaSettled;
      ghost var s := S(ip);
      SlotRefs(ip);
      addr := MapSlot(ip, NDIRECT);
      SlotRefs(ip);
      if addr == 0 {
        NoEntries(ip, bn - NDIRECT);
        return;
      }
      ghost var t := S(ip);
      if s.nodes[ip.inum].addrs[NDIRECT] == 0 {
        EmptyEntry(s, ip.inum, bn - NDIRECT);
      }
      addr := MapEntry(ip, bn - NDIRECT);
      KeptTwice(s, t, S(ip));
    }

    /** Copies the in-memory inode to disk. */
    method Iupdate(ip: Inode)
      requires Ok(ip)
      modifies this`dinodes, this`listedNodes, this`logged
      ensures Ok(ip) && S(ip) == old(S(ip)) && dinodes == old(dinodes)[ip.inum := ip.V()]
      ensures logged == old(logged) + {IBlock(ip.inum)} && listedNodes == old(listedNodes) + {IBlock(ip.inum)}
      ensures old(MetaSettled()) ==> MetaSettled()
    {
      assert dinodes[ip.inum := ip.V()][ip.inum := ip.V()] == dinodes[ip.inum := ip.V()];
      dinodes := dinodes[ip.inum := ip.V()];
      LogNode(ip.inum);
    }

    /** Reads n bytes at off into a destination that can take `room` bytes; -1 if that is too few. */
    method Readi(ip: Inode, off: nat, n: nat, room: nat) returns (tot: int, data: seq<nat>)
      requires Ok(ip) && ip.kind != 0 && off < TWO32 && n < TWO32
      modifies this, ip`addrs
      ensures unchanged(this) && unchanged(ip) && Ok(ip)
      ensures var f := File(S(ip), ip.inum); var m := if off > |f| || off + n >= TWO32 then 0
              else if off + n > |f| then |f| - off else n;
        if m <= room then tot == m && data == (if off > |f| then [] else f[off..off + m]) else tot == -1
    {
      hide RefOk, UseOk, NodeOk, KindOk, Kept, Ref, BlockOf, File, ByteAt, Inv, BytesOf;
      ghost var s, f := S(ip), File(S(ip), ip.inum);
      tot, data := 0, [];
      FileFacts(s, ip.inum);
      if off > ip.size || (off + n) % TWO32 < off {
        return;
      }
      var n := n;
      if off + n > ip.size {
        n := ip.size - off;
      }
      var off' := off;
      while tot < n
        invariant unchanged(this) && unchanged(ip) && 0 <= tot <= n && off' == off + tot && tot <= room
        invariant data == f[off..off']
      {
        var addr := BmapInside(ip, off');
        var m := Min(n - tot, BSIZE - off' % BSIZE);
        if room < tot + m {
          return -1, data;
        }
        Bytewise(s, ip.inum, off', m);
        data := data + BytesOf(blocks[addr])[off' % BSIZE..off' % BSIZE + m];
        assert f[off..off'] + f[off'..off' + m] == f[off..off' + m];
        tot, off' := tot + m, off' + m;
      }
    }

    /** bmap of a byte below the size: the disk is never full. */
    method BmapInside(ip: Inode, k: nat) returns (addr: nat)
      requires Ok(ip) && ip.kind != 0 && k < ip.size
      modifies this, ip`addrs
      ensures unchanged(this) && unchanged(ip) && Ok(ip)
      ensures k / BSIZE < MAXFILE && addr == BlockOf(S(ip), ip.inum, k / BSIZE) != 0 && addr < |blocks|
    {
      hide RefOk, UseOk, NodeOk, KindOk, Kept, Ref, BlockOf, File, ByteAt;
      SlotRefs(ip);
      FileByte(S(ip), ip.inum, k);
      addr := Bmap(ip, k / BSIZE);
      if addr == 0 {
        assert false;
      }
    }

    /** Copies bytes into a block of a file, and logs it unless the copy failed half way. */
    method CopyIntoBlock(ip: Inode, addr: nat, ghost bn: nat, o: nat, part: seq<nat>, whole: bool)
      requires Ok(ip) && bn < MAXFILE && addr == BlockOf(S(ip), ip.inum, bn) != 0 && o + |part| <= BSIZE
      modifies this`blocks, this`listed, this`logged
      ensures addr < |blocks| && Patched(old(S(ip)), S(ip), ip.inum, bn, o, part)
      ensures logged == if whole then old(logged) + {addr} else old(logged)
      ensures listed == if whole then old(listed) + {addr} else old(listed)
      ensures old(Settled()) && (whole || addr in listed) ==> Settled()
      ensures old(Settled()) && !whole && addr !in listed ==> Pending() == old(blocks)
    {
      hide NodeOk, KindOk;
      hide FileSys.MetaSettled;
      DataBlock(S(ip), ip.inum, bn);
      blocks := blocks[addr := Patch(blocks[addr], o, part)];
      if whole {
        LogData(addr);
      }
    }

    /** All that a write to the kilobytes lo..hi of a file may have logged. */
    ghost predicate LoggedOnly(base: set<nat>, ip: Inode, lo: nat, hi: nat)
      requires Ok(ip) && lo <= hi <= MAXFILE && |ip.addrs| == NDIRECT + 1
      reads this, ip
    {
      logged <= base + Bitmaps() + Nonzero(ip.addrs[NDIRECT]) + Stretch(S(ip), ip.inum, lo, hi)
    }

    /** All data blocks it may have put into the open group. */
    ghost predicate ListedOnly(base: set<nat>, ip: Inode, lo: nat, hi: nat)
      requires Ok(ip) && lo <= hi <= MAXFILE && |ip.addrs| == NDIRECT + 1
      reads this, ip
    {
      base <= listed <= base + Nonzero(ip.addrs[NDIRECT]) + Stretch(S(ip), ip.inum, lo, hi)
    }

    ghost predicate Full()
      reads this`bits
    {
      forall b | 0 <= b < |bits| :: bits[b]
    }

    /** Where a write stands after tot bytes: they are in the file, and what comes after is as it was. */
    ghost predicate Going(c: Call, ip: Inode, src: seq<nat>, off: nat, tot: nat)
      requires Ok(ip) && |ip.addrs| == NDIRECT + 1
      reads this, ip
    {
      && Settled() && Wrote(c.s, S(ip), ip.inum, off, src, tot)
      && off / BSIZE <= End(off, tot) <= MAXFILE
      && LoggedOnly(c.logged, ip, off / BSIZE, End(off, tot)) && ListedOnly(c.listed, ip, off / BSIZE, End(off, tot))
      && (forall k: nat | End(off, tot) <= k < MAXFILE :: BlockOf(S(ip), ip.inum, k) == BlockOf(c.s, ip.inum, k))
      && (tot < |src| ==> End(off, tot) <= (off + tot) / BSIZE && (tot == 0 || (off + tot) % BSIZE == 0))
    }

    /** Why a write of n bytes ended after tot, with w bytes in the cache: its next block is missing and
        the disk full, or the copy faulted within that block's share.  The block is in the open group
        exactly if it was when writei was called, or has been allocated since. */
    ghost predicate Stopped(c: Call, ip: Inode, n: nat, good: nat, off: nat, tot: nat, w: nat)
      requires Ok(ip)
      reads this, ip
    {
      && tot < n && (tot == 0 || (off + tot) % BSIZE == 0) && (off + tot) / BSIZE < MAXFILE
      && |c.s.nodes| == |dinodes| && Shape(c.s)
      && var b := BlockOf(S(ip), ip.inum, (off + tot) / BSIZE);
         if b == 0 then w == tot && Full()
         else && tot <= good < Share(off, tot, n) && w == good
              && (b in listed <==> b in c.listed || BlockOf(c.s, ip.inum, (off + tot) / BSIZE) == 0)
    }

    /** How many of the w bytes in the cache a commit of the open group writes: those of a torn block that
        is not in the group stay behind. */
    ghost function Logged(ip: Inode, n: nat, off: nat, tot: nat, w: nat): (r: nat)
      requires Ok(ip) && tot <= w && (tot < n ==> (off + tot) / BSIZE < MAXFILE)
      reads this, ip
      ensures r == tot || r == w
    {
      if tot < n && BlockOf(S(ip), ip.inum, (off + tot) / BSIZE) !in listed then tot else w
    }

    /** A commit of the open group gives the file the write's first l bytes, all of those in the cache if
        nothing is left behind. */
    ghost predicate Committed(c: Call, ip: Inode, src: seq<nat>, off: nat, w: nat, l: nat)
      requires Ok(ip)
      reads this, ip
    {
      var t := S(ip).(blocks := Pending());
      Inv(t) && Wrote(c.s, t, ip.inum, off, src, l) && (l == w ==> Settled()) && MetaSettled()
    }

    /** One round of writei's loop; m == 0 if it ends here. */
    method WriteBlock(ip: Inode, src: seq<nat>, good: nat, off: nat, tot: nat, ghost c: Call)
      returns (m: nat, ghost w: nat)
      requires Ok(ip) && ip.kind != 0 && |ip.addrs| == NDIRECT + 1
      requires tot < |src| && tot <= good && off + |src| <= MAXFILE * BSIZE && Going(c, ip, src, off, tot)
      modifies this, ip`addrs
      ensures Ok(ip) && dinodes == old(dinodes) && |ip.addrs| == NDIRECT + 1 && tot <= w <= |src| && tot + m <= |src|
      ensures m > 0 ==> w == tot + m <= good && Going(c, ip, src, off, tot + m)
      ensures m == 0 ==> Stopped(c, ip, |src|, good, off, tot, w) && Wrote(c.s, S(ip), ip.inum, off, src, w)
      ensures m == 0 ==> Committed(c, ip, src, off, w, Logged(ip, |src|, off, tot, w))
      ensures off / BSIZE <= (off + tot) / BSIZE < End(off, |src|) <= MAXFILE
      ensures LoggedOnly(c.logged, ip, off / BSIZE, (off + tot) / BSIZE + 1)
    {
      hide RefOk, UseOk, NodeOk, KindOk, Ref, BlockOf, File, ByteAt, Wrote, Patched, Stretch, Inv, Bitmaps, Nonzero;
      hide FileSys.MetaSettled;
      hide FileSys.Pending;
      ghost var t, lo, bn := S(ip), off / BSIZE, (off + tot) / BSIZE;
      m := Min(|src| - tot, BSIZE - (off + tot) % BSIZE);
      w := tot;
      EndStep(off, tot, m, |src|);
      ShareEnd(off, tot, |src|);
      Shapes(t);
      NotYet(ip, lo, End(off, tot), bn, c.listed);
      var addr := Bmap(ip, (off + tot) / BSIZE);
      Grown(c, t, old(logged), old(listed), old(ip.addrs[NDIRECT]), ip, src, off, tot);
      if addr == 0 {
        SettledPending();
        WroteShape(c.s, S(ip), ip.inum, off, src, tot);
        return 0, tot;
      }
      NonzeroIs(addr);
      m, w := WriteShare(ip, src, good, off, tot, addr, c);
    }

    /** What holds once the block of the next share is there. */
    ghost predicate Ready(c: Call, ip: Inode, src: seq<nat>, off: nat, tot: nat, addr: nat)
      requires Ok(ip) && |ip.addrs| == NDIRECT + 1
      reads this, ip
    {
      && Settled() && Wrote(c.s, S(ip), ip.inum, off, src, tot) && tot < |src| && off + |src| <= MAXFILE * BSIZE
      && (tot == 0 || (off + tot) % BSIZE == 0) && off / BSIZE <= (off + tot) / BSIZE < MAXFILE
      && addr == BlockOf(S(ip), ip.inum, (off + tot) / BSIZE) != 0
      && LoggedOnly(c.logged, ip, off / BSIZE, (off + tot) / BSIZE + 1)
      && ListedOnly(c.listed, ip, off / BSIZE, (off + tot) / BSIZE + 1)
      && (forall k: nat | (off + tot) / BSIZE < k < MAXFILE :: BlockOf(S(ip), ip.inum, k) == BlockOf(c.s, ip.inum, k))
      && (addr in listed <==> addr in c.listed || BlockOf(c.s, ip.inum, (off + tot) / BSIZE) == 0)
    }

    /** The copy into one block: all of its share, or what comes before the fault. */
    method WriteShare(ip: Inode, src: seq<nat>, good: nat, off: nat, tot: nat, addr: nat, ghost c: Call)
      returns (m: nat, ghost w: nat)
      requires Ok(ip) && |ip.addrs| == NDIRECT + 1 && tot <= good && Ready(c, ip, src, off, tot, addr)
      modifies this`blocks, this`listed, this`logged
      ensures Ok(ip) && tot <= w <= |src| && tot + m <= |src|
      ensures m > 0 ==> w == tot + m <= good && Going(c, ip, src, off, tot + m)
      ensures m == 0 ==> Stopped(c, ip, |src|, good, off, tot, w) && Wrote(c.s, S(ip), ip.inum, off, src, w)
      ensures m == 0 ==> Committed(c, ip, src, off, w, Logged(ip, |src|, off, tot, w))
      ensures LoggedOnly(c.logged, ip, off / BSIZE, (off + tot) / BSIZE + 1)
    {
      hide RefOk, UseOk, NodeOk, KindOk, Ref, BlockOf, File, ByteAt, Wrote, Patched, Stretch, Inv, Bitmaps, Nonzero;
      hide FileSys.MetaSettled;
      hide FileSys.Pending;
      m := Min(|src| - tot, BSIZE - (off + tot) % BSIZE);
      ShareEnd(off, tot, |src|);
      if good < tot + m {
        w := good;
        m := 0;
        if good > tot {
          CopyTorn(ip, src, good, off, tot, addr, c);
        } else {
          SettledPending();
          WroteShape(c.s, S(ip), ip.inum, off, src, tot);
          Shapes(S(ip));
        }
      } else {
        w := tot + m;
        CopyWhole(ip, src, off, tot, m, addr, c);
      }
    }

    /** The copy got as far as the fault. */
    method CopyTorn(ip: Inode, src: seq<nat>, good: nat, off: nat, tot: nat, addr: nat, ghost c: Call)
      requires Ok(ip) && |ip.addrs| == NDIRECT + 1 && Ready(c, ip, src, off, tot, addr)
      requires tot < good < Share(off, tot, |src|)
      modifies this`blocks, this`listed, this`logged
      ensures Ok(ip) && Stopped(c, ip, |src|, good, off, tot, good) && Wrote(c.s, S(ip), ip.inum, off, src, good)
      ensures Committed(c, ip, src, off, good, Logged(ip, |src|, off, tot, good))
      ensures LoggedOnly(c.logged, ip, off / BSIZE, (off + tot) / BSIZE + 1)
    {
      hide RefOk, UseOk, NodeOk, KindOk, Ref, BlockOf, File, ByteAt, Wrote, Patched, Stretch, Inv, Bitmaps, Nonzero;
      hide FileSys.MetaSettled;
      hide FileSys.Pending;
      ghost var bn, u := (off + tot) / BSIZE, S(ip);
      Shapes(u);
      WroteShape(c.s, u, ip.inum, off, src, tot);
      CopyIntoBlock(ip, addr, bn, (off + tot) % BSIZE, src[tot..good], false);
      WroteMore(c.s, u, S(ip), ip.inum, off, src, tot, good - tot);
      PatchedRefs(u, S(ip), ip.inum, bn, (off + tot) % BSIZE, src[tot..good]);
      StretchKept(u, S(ip), ip.inum, off / BSIZE, bn + 1);
      SettledPending();
    }

    method CopyWhole(ip: Inode, src: seq<nat>, off: nat, tot: nat, m: nat, addr: nat, ghost c: Call)
      requires Ok(ip) && |ip.addrs| == NDIRECT + 1 && Ready(c, ip, src, off, tot, addr)
      requires tot + m == Share(off, tot, |src|)
      modifies this`blocks, this`listed, this`logged
      ensures Ok(ip) && Going(c, ip, src, off, tot + m)
      ensures LoggedOnly(c.logged, ip, off / BSIZE, (off + tot) / BSIZE + 1)
    {
      hide RefOk, UseOk, NodeOk, KindOk, Ref, BlockOf, File, ByteAt, Wrote, Patched, Stretch, Inv, Bitmaps, Nonzero;
      hide FileSys.MetaSettled;
      hide FileSys.Pending;
      ghost var lo, bn, u := off / BSIZE, (off + tot) / BSIZE, S(ip);
      EndStep(off, tot, m, |src|);
      ShareEnd(off, tot, |src|);
      Shapes(u);
      CopyIntoBlock(ip, addr, bn, (off + tot) % BSIZE, src[tot..tot + m], true);
      WroteMore(c.s, u, S(ip), ip.inum, off, src, tot, m);
      PatchedRefs(u, S(ip), ip.inum, bn, (off + tot) % BSIZE, src[tot..tot + m]);
      StretchKept(u, S(ip), ip.inum, lo, bn + 1);
      StretchMore(u, ip.inum, lo, bn, bn + 1);
      NonzeroIs(addr);
      assert {addr} <= Nonzero(addr) <= Stretch(S(ip), ip.inum, lo, bn + 1);
    }

    lemma ShareEnd(off: nat, tot: nat, n: nat)
      requires tot < n
      ensures Share(off, tot, n) == tot + Min(n - tot, BSIZE - (off + tot) % BSIZE)
      ensures Share(off, tot, n) < n ==> (off + Share(off, tot, n)) / BSIZE == (off + tot) / BSIZE + 1
      ensures Share(off, tot, n) < n ==> (off + Share(off, tot, n)) % BSIZE == 0
    {
      if Share(off, tot, n) < n {
        assert off + Share(off, tot, n) == ((off + tot) / BSIZE + 1) * BSIZE;
      }
    }

    lemma SettledPending()
      ensures Settled() ==> Pending() == blocks
    {
    }

    /** The blocks a write has come to so far do not include later ones. */
    lemma {:induction false} NotInStretch(s: St, inum: nat, lo: nat, hi: nat, bn: nat)
      requires Inv(s) && inum < |s.nodes| && lo <= hi <= bn < MAXFILE && BlockOf(s, inum, bn) != 0
      ensures BlockOf(s, inum, bn) !in Stretch(s, inum, lo, hi)
      decreases hi
    {
      hide RefOk, UseOk, NodeOk, Ref, Inv;
      if lo < hi {
        NotInStretch(s, inum, lo, hi - 1, bn);
        Shapes(s);
        if BlockOf(s, inum, hi - 1) == BlockOf(s, inum, bn) {
          NoAlias(s, At(inum, hi - 1), At(inum, bn));
        }
      }
    }

    /** A block the write has not come to is in the open group only if it was before. */
    lemma NotYet(ip: Inode, lo: nat, hi: nat, bn: nat, was: set<nat>)
      requires Ok(ip) && |ip.addrs| == NDIRECT + 1 && lo <= hi <= bn < MAXFILE && ListedOnly(was, ip, lo, hi)
      ensures BlockOf(S(ip), ip.inum, bn) != 0 ==>
                (BlockOf(S(ip), ip.inum, bn) in listed <==> BlockOf(S(ip), ip.inum, bn) in was)
    {
      hide RefOk, UseOk, NodeOk, Ref, Stretch, Inv;
      SlotRefs(ip);
      Shapes(S(ip));
      if BlockOf(S(ip), ip.inum, bn) != 0 {
        NotInStretch(S(ip), ip.inum, lo, hi, bn);
        if BlockOf(S(ip), ip.inum, bn) == ip.addrs[NDIRECT] {
          NoAlias(S(ip), At(ip.inum, bn), Slot(ip.inum, NDIRECT));
        }
      }
    }

    /** Mapping the next block keeps what was written and adds to the log what it may. */
    lemma Grown(c: Call, t: St, logs: set<nat>, lists: set<nat>, ind: nat, ip: Inode, src: seq<nat>, off: nat, tot: nat)
      requires Ok(ip) && |ip.addrs| == NDIRECT + 1 && Inv(t) && Kept(t, S(ip)) && ip.inum < |t.nodes|
      requires tot < |src| && off + |src| <= MAXFILE * BSIZE && Wrote(c.s, t, ip.inum, off, src, tot)
      requires off / BSIZE <= End(off, tot) <= (off + tot) / BSIZE < MAXFILE && (ind != 0 ==> ip.addrs[NDIRECT] == ind)
      requires logs <= c.logged + Bitmaps() + Nonzero(ind) + Stretch(t, ip.inum, off / BSIZE, End(off, tot))
      requires c.listed <= lists <= c.listed + Nonzero(ind) + Stretch(t, ip.inum, off / BSIZE, End(off, tot))
      requires var a := Nonzero(ip.addrs[NDIRECT]) + Nonzero(BlockOf(S(ip), ip.inum, (off + tot) / BSIZE));
               logged <= logs + Bitmaps() + a && lists <= listed <= lists + a
      ensures Wrote(c.s, S(ip), ip.inum, off, src, tot)
      ensures LoggedOnly(c.logged, ip, off / BSIZE, (off + tot) / BSIZE + 1)
      ensures ListedOnly(c.listed, ip, off / BSIZE, (off + tot) / BSIZE + 1)
    {
      hide RefOk, UseOk, NodeOk, KindOk, Kept, Ref, BlockOf, ByteAt, Wrote, Stretch, Inv, Bitmaps, Nonzero;
      ghost var lo, bn, u := off / BSIZE, (off + tot) / BSIZE, S(ip);
      Shapes(t);
      Shapes(u);
      WroteKept(c.s, t, u, ip.inum, off, src, tot);
      KeptRefs(t, u, ip.inum);
      StretchKept(t, u, ip.inum, lo, End(off, tot));
      StretchMore(u, ip.inum, lo, End(off, tot), bn + 1);
      StretchMore(u, ip.inum, lo, bn, bn + 1);
      NonzeroKept(ind, ip.addrs[NDIRECT]);
    }

    lemma Shapes(s: St)
      requires Inv(s)
      ensures Shape(s)
    {
    }

    lemma NonzeroIs(b: nat)
      requires b != 0
      ensures Nonzero(b) == {b}
    {
    }

    lemma NonzeroKept(a: nat, b: nat)
      requires a != 0 ==> b == a
      ensures Nonzero(a) <= Nonzero(b)
    {
    }

    lemma KeptRefs(s: St, t: St, inum: nat)
      requires Kept(s, t) && inum < |s.nodes|
      ensures |t.nodes| == |s.nodes|
      ensures forall bn: nat | bn < MAXFILE && BlockOf(s, inum, bn) != 0 :: BlockOf(t, inum, bn) == BlockOf(s, inum, bn)
    {
    }

    /** Writes src at off; only its first `good` bytes can be copied in.  The file as the cache shows it
        gets w bytes, and the file as the open group will commit it Logged(..): after a fault strictly
        inside a block, w exceeds tot, and the torn bytes are committed if and only if the block is in
        the open group for another reason. */
    method Writei(ip: Inode, src: seq<nat>, good: nat, off: nat) returns (tot: int, ghost w: nat)
      requires Ok(ip) && ip.kind != 0 && |ip.addrs| == NDIRECT + 1
      requires off < TWO32 && |src| < TWO32 && Settled()
      modifies this, ip`addrs, ip`size
      ensures Ok(ip) && |ip.addrs| == NDIRECT + 1
      ensures off > old(ip.size) || off + |src| > MAXFILE * BSIZE <==> tot == -1
      ensures tot == -1 ==> unchanged(this) && unchanged(ip)
      ensures tot != -1 ==> 0 <= tot <= w <= |src| && tot <= good && dinodes == old(dinodes)[ip.inum := ip.V()]
      ensures tot != -1 ==> IBlock(ip.inum) in logged && IBlock(ip.inum) in listedNodes
      ensures tot != -1 ==> ip.size == (if off + tot > old(ip.size) then off + tot else old(ip.size))
      ensures tot != -1 ==> WroteFiles(old(S(ip)), S(ip), ip.inum, off, src, w)
      ensures forall k: nat | k < MAXFILE && BlockOf(old(S(ip)), ip.inum, k) != 0 ::
                BlockOf(S(ip), ip.inum, k) == BlockOf(old(S(ip)), ip.inum, k)
      ensures tot == |src| ==> w == tot && Settled()
      ensures 0 <= tot < |src| ==> Stopped(old(Call(S(ip), logged, listed)), ip, |src|, good, off, tot, w)
      ensures tot != -1 ==> CommitsFiles(old(S(ip)), ip, src, off, w, Logged(ip, |src|, off, tot, w))
      ensures tot != -1 ==> off / BSIZE <= End(off, |src|) <= MAXFILE
      ensures tot != -1 ==> LoggedOnly(old(logged) + {IBlock(ip.inum)}, ip, off / BSIZE, End(off, |src|))
    {
      hide RefOk, UseOk, NodeOk, KindOk, Kept, Ref, BlockOf, File, ByteAt, Wrote, Stretch, Inv, Bitmaps, Nonzero;
      hide FileSys.MetaSettled;
      hide FileSys.Pending;
      w := 0;
      if off > ip.size || (off + |src|) % TWO32 < off {
        return -1, 0;
      }
      if off + |src| > MAXFILE * BSIZE {
        return -1, 0;
      }
      ghost var c := Call(S(ip), logged, listed);
      Shapes(c.s);
      SlotRefs(ip);
      WroteNone(c.s, ip.inum, off, src);
      EndBounds(off, |src|);
      tot := 0;
      while tot < |src|
        invariant Ok(ip) && 0 <= tot <= |src| && tot <= good && dinodes == old(dinodes) && |ip.addrs| == NDIRECT + 1
        invariant ip.size == old(ip.size)
        invariant w == tot && Going(c, ip, src, off, tot) && End(off, tot) <= End(off, |src|)
      {
        var m;
        m, w := WriteBlock(ip, src, good, off, tot, c);
        if m == 0 {
          WriteEnd(c, ip, src, good, off, tot, w, (off + tot) / BSIZE + 1);
          return;
        }
        tot := tot + m;
      }
      SettledPending();
      WriteEnd(c, ip, src, good, off, tot, w, End(off, |src|));
    }

    /** Committing the open group gives this file l of the bytes written, and all others their contents;
        if l is w, nothing in the cache is left out. */
    ghost predicate CommitsFiles(s: St, ip: Inode, src: seq<nat>, off: nat, w: nat, l: nat)
      requires Ok(ip)
      reads this, ip
    {
      WroteFiles(s, Durable(), ip.inum, off, src, l) && (l == w ==> Settled()) && MetaSettled()
    }

    lemma EndBounds(off: nat, n: nat)
      requires off + n <= MAXFILE * BSIZE
      ensures End(off, 0) == off / BSIZE <= End(off, n) <= MAXFILE
    {
      if n > 0 {
        assert off / BSIZE <= (off + n - 1) / BSIZE;
      }
    }

    /** The end of writei: the size is raised and the inode goes back to disk. */
    method WriteEnd(ghost c: Call, ip: Inode, src: seq<nat>, ghost good: nat, off: nat, tot: nat, ghost w: nat,
                    ghost hi: nat)
      requires Ok(ip) && |ip.addrs| == NDIRECT + 1 && tot <= w <= |src|
      requires off / BSIZE <= hi <= End(off, |src|) <= MAXFILE
      requires Inv(c.s) && ip.inum < |c.s.nodes| && c.s.nodes[ip.inum].size == ip.size && c.s.nodes[ip.inum].kind != 0
      requires off <= ip.size && (tot < |src| ==> Stopped(c, ip, |src|, good, off, tot, w))
      requires Wrote(c.s, S(ip), ip.inum, off, src, w) && Committed(c, ip, src, off, w, Logged(ip, |src|, off, tot, w))
      requires LoggedOnly(c.logged, ip, off / BSIZE, hi)
      modifies this`dinodes, this`listedNodes, this`logged, ip`size
      ensures IBlock(ip.inum) in logged && IBlock(ip.inum) in listedNodes
      ensures Ok(ip) && ip.size == (if off + tot > old(ip.size) then off + tot else old(ip.size))
      ensures dinodes == old(dinodes)[ip.inum := ip.V()] && (tot < |src| ==> Stopped(c, ip, |src|, good, off, tot, w))
      ensures WroteFiles(c.s, S(ip), ip.inum, off, src, w)
      ensures forall k: nat | k < MAXFILE && BlockOf(c.s, ip.inum, k) != 0 ::
                BlockOf(S(ip), ip.inum, k) == BlockOf(c.s, ip.inum, k)
      ensures CommitsFiles(c.s, ip, src, off, w, Logged(ip, |src|, off, tot, w))
      ensures LoggedOnly(c.logged + {IBlock(ip.inum)}, ip, off / BSIZE, End(off, |src|))
    {
      hide RefOk, UseOk, NodeOk, KindOk, BlockOf, File, ByteAt, Wrote, Stretch, Inv, Bitmaps, Nonzero, Overlay;
      hide FileSys.Pending, FileSys.PendingBits, FileSys.PendingNodes, FileSys.MetaSettled;
      ghost var t, v, l := S(ip), S(ip).(blocks := Pending()), Logged(ip, |src|, off, tot, w);
      Shapes(t);
      WroteShape(c.s, t, ip.inum, off, src, w);
      StretchMore(t, ip.inum, off / BSIZE, hi, End(off, |src|));
      ghost var size := if off + tot > ip.size then off + tot else ip.size;
      WroteFile(c.s, t, WithSize(t, ip.inum, size), ip.inum, off, src, w, tot);
      WroteFile(c.s, v, WithSize(v, ip.inum, size), ip.inum, off, src, l, tot);
      if off + tot > ip.size {
        ip.size := off + tot;
      }
      assert S(ip) == WithSize(t, ip.inum, size);
      StretchSame(t, S(ip), ip.inum, off / BSIZE, End(off, |src|));
      SameBlockOf(t, S(ip), ip.inum);
      Iupdate(ip);
      assert S(ip).(blocks := Pending()) == WithSize(v, ip.inum, size);
      MetaPending();
      Written(ip);
    }

    /** With every change to inodes and bitmap in the open group, a commit makes them durable. */
    lemma MetaPending()
      requires MetaSettled()
      ensures PendingBits() == bits && PendingNodes() == dinodes
    {
    }

    /** Between operations nothing is lost: what a commit makes durable is the file system in memory. */
    lemma DurableIs(ip: Inode)
      requires Ok(ip) && dinodes[ip.inum] == ip.V()
      ensures Settled() ==> Durable() == S(ip) && Inv(Durable()) && MetaSettled()
    {
      hide Inv, FileSys.Pending, FileSys.PendingBits, FileSys.PendingNodes;
      if Settled() {
        SettledPending();
        MetaPending();
        Written(ip);
      }
    }

    /** Once the inode is back on disk, the file system is the one in memory. */
    lemma Written(ip: Inode)
      requires ip.inum < |dinodes| && dinodes[ip.inum] == ip.V()
      ensures S(ip) == St(nmeta, bits, blocks, dinodes, own)
    {
      assert dinodes[ip.inum := ip.V()] == dinodes;
    }

    lemma SameBlockOf(s: St, t: St, inum: nat)
      requires Shape(s) && Shape(t) && inum < |s.nodes| == |t.nodes|
      requires s.nodes[inum].addrs == t.nodes[inum].addrs && s.blocks == t.blocks
      ensures forall bn: nat | bn < MAXFILE :: BlockOf(s, inum, bn) == BlockOf(t, inum, bn)
    {
    }

    lemma WroteShape(s: St, t: St, inum: nat, off: nat, src: seq<nat>, w: nat)
      requires Wrote(s, t, inum, off, src, w)
      ensures |t.nodes| == |s.nodes| && Shape(s) && Shape(t) && inum < |s.nodes|
      ensures forall k: nat | k < MAXFILE && BlockOf(s, inum, k) != 0 :: BlockOf(t, inum, k) == BlockOf(s, inum, k)
    {
    }

    lemma StretchSame(s: St, t: St, inum: nat, lo: nat, hi: nat)
      requires Shape(s) && Shape(t) && inum < |s.nodes| == |t.nodes| && s.nodes[inum].addrs == t.nodes[inum].addrs
      requires s.blocks == t.blocks
      requires lo <= hi <= MAXFILE
      ensures Stretch(s, inum, lo, hi) == Stretch(t, inum, lo, hi)
    {
      StretchKept(s, t, inum, lo, hi);
      StretchKept(t, s, inum, lo, hi);
    }

    lemma DataBlock(s: St, inum: nat, bn: nat)
      requires Inv(s) && inum < |s.nodes| && bn < MAXFILE && BlockOf(s, inum, bn) != 0
      ensures BlockOf(s, inum, bn) < |s.own| && IsData(s.blocks[BlockOf(s, inum, bn)])
    {
      hide NodeOk;
      assert Place(s, At(inum, bn)) && RefOk(s, At(inum, bn)) && UseOk(s, BlockOf(s, inum, bn));
    }

    /** The file system with ip's size taken as zero. */
    ghost function Emptying(ip: Inode): St
      requires ip.inum < |dinodes|
      reads this, ip
    {
      WithSize(S(ip), ip.inum, 0)
    }

    /** The loop over the slots that hold data blocks. */
    method FreeSlots(ip: Inode)
      requires Ok(ip) && |ip.addrs| == NDIRECT + 1
      modifies this`bits, this`own, this`listedBits, this`logged, ip`addrs
      ensures old(MetaSettled()) ==> MetaSettled()
      ensures |ip.addrs| == NDIRECT + 1 && |bits| == size && Inv(Emptying(ip))
      ensures ip.addrs[NDIRECT] == old(ip.addrs)[NDIRECT]
      ensures Less(old(own), own, ip.inum, NDIRECT, 0) && forall k | 0 <= k < NDIRECT :: ip.addrs[k] == 0
    {
      hide RefOk, UseOk, NodeOk, KindOk, Inv, Ref;
      hide FileSys.MetaSettled;
      ghost var s := S(ip);
      SizeZero(s, ip.inum);
      for i := 0 to NDIRECT
        invariant |ip.addrs| == NDIRECT + 1 && |bits| == size && Inv(Emptying(ip))
        invariant ip.addrs[i..] == old(ip.addrs)[i..] && forall k | 0 <= k < i :: ip.addrs[k] == 0
        invariant Less(old(own), own, ip.inum, i, 0) && (old(MetaSettled()) ==> MetaSettled())
      {
        ghost var t := Emptying(ip);
        SlotFacts(s, ip.inum, i);
        SlotFacts(t, ip.inum, i);
        if ip.addrs[i] != 0 {
          ghost var b := ip.addrs[i];
          Bfree(ip.addrs[i]);
          own := own[b := Unused];
          ip.addrs := ip.addrs[i := 0];
          assert Emptying(ip) == WithAddr(t, ip.inum, i, 0).(bits := t.bits[b := false], own := t.own[b := Unused]);
          DropSlot(t, Emptying(ip), ip.inum, i);
        }
        LessSlot(s, t.own, own, ip.inum, i, 0);
      }
    }

    /** The loop over the entries of the indirect block, which itself is not changed. */
    method FreeEntries(ip: Inode, ghost s: St)
      requires ip.inum < |dinodes| && HasIndirect(Emptying(ip), ip.inum) && Inv(Emptying(ip)) && |bits| == size
      requires Inv(s) && ip.inum < |s.nodes| && Less(s.own, own, ip.inum, NDIRECT, 0)
      requires s.nodes[ip.inum].addrs[NDIRECT] == ip.addrs[NDIRECT] && s.blocks == blocks
      modifies this`bits, this`own, this`listedBits, this`logged
      ensures old(MetaSettled()) ==> MetaSettled()
      ensures HasIndirect(Emptying(ip), ip.inum) && Inv(ClearedTo(Emptying(ip), ip.inum, NINDIRECT)) && |bits| == size
      ensures Less(s.own, own, ip.inum, NDIRECT, NINDIRECT)
    {
      hide RefOk, UseOk, NodeOk, KindOk, Inv, Ref, ClearedTo;
      hide FileSys.MetaSettled;
      ClearedNone(Emptying(ip), ip.inum);
      var a := WordsOf(blocks[ip.addrs[NDIRECT]]);
      EntryRefs(s, ip.inum);
      for j := 0 to NINDIRECT
        invariant HasIndirect(Emptying(ip), ip.inum) && Inv(ClearedTo(Emptying(ip), ip.inum, j)) && |bits| == size
        invariant Less(s.own, own, ip.inum, NDIRECT, j) && (old(MetaSettled()) ==> MetaSettled())
      {
        ghost var t := Emptying(ip);
        NextEntry(t, ip.inum, j);
        if a[j] != 0 {
          Bfree(a[j]);
          own := own[a[j] := Unused];
        }
        DropEntry(t, Emptying(ip), ip.inum, j);
        LessEntry(s, t.own, own, ip.inum, NDIRECT, j);
      }
    }

    lemma EntryRefs(s: St, inum: nat)
      requires Inv(s) && inum < |s.nodes| && s.nodes[inum].addrs[NDIRECT] != 0
      ensures s.nodes[inum].addrs[NDIRECT] < |s.blocks| && IsIndex(s.blocks[s.nodes[inum].addrs[NDIRECT]])
      ensures forall j: nat | j < NINDIRECT ::
                Ref(s, Entry(inum, j)) == WordsOf(s.blocks[s.nodes[inum].addrs[NDIRECT]])[j]
    {
      IndirectBlock(s, inum);
    }

    /** Empties a file: exactly its own blocks are freed, each once. */
    method Itrunc(ip: Inode)
      requires Ok(ip) && |ip.addrs| == NDIRECT + 1
      modifies this`bits, this`own, this`listedBits, this`listedNodes, this`logged, this`dinodes, ip`addrs, ip`size
      ensures IBlock(ip.inum) in logged && IBlock(ip.inum) in listedNodes && (old(Settled()) ==> Settled())
      ensures Ok(ip) && Less(old(own), own, ip.inum, NDIRECT + 1, NINDIRECT)
      ensures dinodes == old(dinodes)[ip.inum := ip.V()]
      ensures ip.size == 0 && ip.addrs == Zeros(NDIRECT + 1)
      ensures forall n: nat | n < |dinodes| && n != ip.inum :: File(S(ip), n) == File(old(S(ip)), n)
    {
      hide RefOk, UseOk, NodeOk, KindOk, Inv, Ref, File;
      hide FileSys.MetaSettled, FileSys.Settled;
      ghost var s := S(ip);
      Shapes(s);
      FreeSlots(ip);
      if ip.addrs[NDIRECT] != 0 {
        FreeIndirect(ip, s);
      } else {
        AllDone(s, own, ip.inum);
      }
      ghost var t := Emptying(ip);
      ip.size := 0;
      assert ip.addrs == Zeros(NDIRECT + 1);
      assert S(ip) == t;
      Iupdate(ip);
      StillSettled();
      OtherFiles(s, S(ip), ip.inum);
    }

    /** Data blocks that are not touched stay settled. */
    twostate lemma StillSettled()
      requires old(MetaSettled()) ==> MetaSettled()
      requires blocks == old(blocks) && disk == old(disk) && listed == old(listed)
      ensures old(Settled()) ==> Settled()
    {
      hide FileSys.MetaSettled;
    }

    /** The indirect block and all it lists. */
    method FreeIndirect(ip: Inode, ghost s: St)
      requires ip.inum < |dinodes| && |ip.addrs| == NDIRECT + 1 && Inv(Emptying(ip)) && |bits| == size
      requires ip.addrs[NDIRECT] != 0
      requires Inv(s) && ip.inum < |s.nodes| && Less(s.own, own, ip.inum, NDIRECT, 0)
      requires s.nodes[ip.inum].addrs[NDIRECT] == ip.addrs[NDIRECT] && s.blocks == blocks
      modifies this`bits, this`own, this`listedBits, this`logged, ip`addrs
      ensures old(MetaSettled()) ==> MetaSettled()
      ensures ip.addrs == old(ip.addrs)[NDIRECT := 0] && |bits| == size && Inv(Emptying(ip))
      ensures Less(s.own, own, ip.inum, NDIRECT + 1, NINDIRECT)
    {
      hide RefOk, UseOk, NodeOk, KindOk, Inv, Ref, ClearedTo, Less;
      hide FileSys.MetaSettled;
      StillIndirect(s, Emptying(ip), ip.inum);
      FreeEntries(ip, s);
      ghost var t, x := Emptying(ip), ip.addrs[NDIRECT];
      SlotFacts(s, ip.inum, NDIRECT);
      IndirectSet(t, ip.inum);
      Bfree(ip.addrs[NDIRECT]);
      own := own[x := Unused];
      ip.addrs := ip.addrs[NDIRECT := 0];
      assert Emptying(ip) == WithAddr(t, ip.inum, NDIRECT, 0).(bits := t.bits[x := false], own := t.own[x := Unused]);
      DropIndirect(t, Emptying(ip), ip.inum);
      LessSlot(s, t.own, own, ip.inum, NDIRECT, NINDIRECT);
    }

    lemma StillIndirect(s: St, t: St, inum: nat)
      requires Inv(s) && Inv(t) && inum < |t.nodes| && t.nodes[inum].addrs[NDIRECT] != 0 && t.nodes[inum].size == 0
      ensures HasIndirect(t, inum)
    {
      IndirectBlock(t, inum);
    }

    lemma IndirectSet(s: St, inum: nat)
      requires HasIndirect(s, inum) && Inv(ClearedTo(s, inum, NINDIRECT))
      ensures s.nodes[inum].addrs[NDIRECT] < |s.bits| == |s.own| && s.bits[s.nodes[inum].addrs[NDIRECT]]
    {
      OnlyOne(ClearedTo(s, inum, NINDIRECT), Slot(inum, NDIRECT));
    }

    lemma SlotFacts(s: St, inum: nat, i: nat)
      requires Inv(s) && inum < |s.nodes| && i <= NDIRECT
      ensures Shape(s) && Ref(s, Slot(inum, i)) == s.nodes[inum].addrs[i]
      ensures s.nodes[inum].addrs[i] != 0 ==>
                s.nodes[inum].addrs[i] < |s.bits| == |s.own| && s.bits[s.nodes[inum].addrs[i]]
    {
      OnlyOne(s, Slot(inum, i));
    }

    lemma SlotRefs(ip: Inode)
      requires Ok(ip)
      ensures |ip.addrs| == NDIRECT + 1 && S(ip).nodes[ip.inum] == ip.V()
      ensures forall i: nat | i <= NDIRECT :: Ref(S(ip), Slot(ip.inum, i)) == ip.addrs[i]
    {
    }

    lemma EmptyEntry(s: St, inum: nat, j: nat)
      requires Inv(s) && inum < |s.nodes| && j < NINDIRECT && s.nodes[inum].addrs[NDIRECT] == 0
      ensures Ref(s, Entry(inum, j)) == 0
    {
    }

    lemma NoEntries(ip: Inode, j: nat)
      requires Ok(ip) && |ip.addrs| == NDIRECT + 1 && ip.addrs[NDIRECT] == 0 && j < NINDIRECT
      ensures Ref(S(ip), Entry(ip.inum, j)) == 0
    {
    }

    /** Slot i of an inode, allocated if empty. */
    method MapSlot(ip: Inode, i: nat) returns (addr: nat)
      requires Ok(ip) && i <= NDIRECT && ip.kind != 0
      modifies this, ip`addrs
      ensures Ok(ip) && Kept(old(S(ip)), S(ip)) && dinodes == old(dinodes)
      ensures |ip.addrs| == NDIRECT + 1 == |old(ip.addrs)| && addr == ip.addrs[i]
      ensures ip.addrs == old(ip.addrs)[i := addr]
      ensures old(ip.addrs)[i] != 0 ==> unchanged(this) && unchanged(ip)
      ensures forall v | Place(old(S(ip)), v) && v != Slot(ip.inum, i) :: Ref(S(ip), v) == Ref(old(S(ip)), v)
      ensures addr == 0 ==> unchanged(this) && unchanged(ip) && forall b | 0 <= b < size :: bits[b]
      ensures logged <= old(logged) + Bitmaps() + Nonzero(addr)
      ensures old(ip.addrs)[i] == 0 ==> listed == old(listed) + Nonzero(addr)
      ensures old(Settled()) ==> Settled()
    {
      hide RefOk, UseOk, NodeOk, KindOk, Kept, Ref, Inv;
      hide FileSys.MetaSettled;
      ghost var s := S(ip);
      SlotRefs(ip);
      Shapes(s);
      KeptSelf(s);
      Basics(s);
      addr := ip.addrs[i];
      if addr == 0 {
        addr := Balloc();
        if addr == 0 {
          return;
        }
        ip.addrs := ip.addrs[i := addr];
        own := own[addr := Slot(ip.inum, i)];
        assert dinodes[ip.inum := ip.V()] ==
               s.nodes[ip.inum := s.nodes[ip.inum].(addrs := s.nodes[ip.inum].addrs[i := addr])];
        assert S(ip) == AllocSlot(s, ip.inum, i, addr);
        AllocSlotInv(s, ip.inum, i, addr);
        Shapes(S(ip));
        AllocKept(s, S(ip), Slot(ip.inum, i), addr);
      }
    }

    /** Entry j of an inode's indirect block, allocated if empty. */
    method MapEntry(ip: Inode, j: nat) returns (addr: nat)
      requires Ok(ip) && j < NINDIRECT && ip.kind != 0 && |ip.addrs| == NDIRECT + 1 && ip.addrs[NDIRECT] != 0
      modifies this`bits, this`blocks, this`listed, this`listedBits, this`logged, this`own
      ensures Ok(ip) && Kept(old(S(ip)), S(ip))
      ensures addr == Ref(S(ip), Entry(ip.inum, j))
      ensures Ref(old(S(ip)), Entry(ip.inum, j)) != 0 ==> unchanged(this)
      ensures forall v | Place(old(S(ip)), v) && v != Entry(ip.inum, j) :: Ref(S(ip), v) == Ref(old(S(ip)), v)
      ensures addr == 0 ==> unchanged(this) && forall b | 0 <= b < size :: bits[b]
      ensures logged <= old(logged) + Bitmaps() + Nonzero(ip.addrs[NDIRECT]) + Nonzero(addr)
      ensures Nonzero(addr) <= listed || Ref(old(S(ip)), Entry(ip.inum, j)) != 0
      ensures old(listed) <= listed <= old(listed) + Nonzero(ip.addrs[NDIRECT]) + Nonzero(addr)
      ensures old(Settled()) ==> Settled()
    {
      hide RefOk, UseOk, NodeOk, KindOk, Kept, Ref;
      hide FileSys.MetaSettled, FileSys.Settled;
      ghost var s := S(ip);
      SlotRefs(ip);
      KeptSelf(s);
      IndirectBlock(s, ip.inum);
      var bp := ip.addrs[NDIRECT];
      var a := WordsOf(blocks[bp]);
      addr := a[j];
      if addr == 0 {
        addr := NewEntry(ip, j, bp, a);
      }
    }

    /** The entry gets a new block, if there is one. */
    method NewEntry(ip: Inode, j: nat, bp: nat, a: seq<nat>) returns (addr: nat)
      requires Ok(ip) && j < NINDIRECT && ip.kind != 0 && |ip.addrs| == NDIRECT + 1 && bp == ip.addrs[NDIRECT] != 0
      requires bp < |blocks| && IsIndex(blocks[bp]) && a == WordsOf(blocks[bp])
      requires Ref(S(ip), Entry(ip.inum, j)) == 0
      modifies this`bits, this`blocks, this`listed, this`listedBits, this`logged, this`own
      ensures Ok(ip) && Kept(old(S(ip)), S(ip))
      ensures addr == Ref(S(ip), Entry(ip.inum, j))
      ensures forall v | Place(old(S(ip)), v) && v != Entry(ip.inum, j) :: Ref(S(ip), v) == Ref(old(S(ip)), v)
      ensures addr == 0 ==> unchanged(this) && forall b | 0 <= b < size :: bits[b]
      ensures logged <= old(logged) + Bitmaps() + {bp} + Nonzero(addr)
      ensures old(listed) + Nonzero(addr) <= listed <= old(listed) + {bp} + Nonzero(addr)
      ensures old(Settled()) ==> Settled()
    {
      hide RefOk, UseOk, NodeOk, KindOk, Kept, Ref, Inv;
      hide FileSys.MetaSettled;
      ghost var s := S(ip);
      SlotRefs(ip);
      Shapes(s);
      KeptSelf(s);
      Basics(s);
      IndirectBlock(s, ip.inum);
      addr := Balloc();
      if addr != 0 {
        AllocEntryInv(s, ip.inum, j, addr);
        assert blocks[bp] == s.blocks[bp];
        StoreEntry(bp, a[j := addr], addr, Entry(ip.inum, j));
        assert S(ip) == AllocEntry(s, ip.inum, j, addr);
        Shapes(S(ip));
        assert s.own[bp] == Slot(ip.inum, NDIRECT);
        AllocKept(s, S(ip), Entry(ip.inum, j), addr);
      }
    }

    /** a[..] = addr; log_write(bp). */
    method StoreEntry(bp: nat, a: seq<nat>, addr: nat, ghost u: Use)
      requires bp < |blocks| && addr < |own|
      modifies this`blocks, this`listed, this`logged, this`own
      ensures blocks == old(blocks)[bp := Words(a)] && own == old(own)[addr := u]
      ensures logged == old(logged) + {bp} && listed == old(listed) + {bp} && (old(Settled()) ==> Settled())
    {
      hide FileSys.MetaSettled;
      blocks := blocks[bp := Words(a)];
      LogData(bp);
      own := own[addr := u];
    }

    lemma Basics(s: St)
      requires Inv(s)
      ensures |s.bits| > 0 && s.bits[0]
    {
      assert UseOk(s, 0);
    }

    lemma AllocKept(s: St, t: St, u: Use, b: nat)
      requires Inv(s) && Inv(t) && Stored(s, t, u, b) && Ref(s, u) == 0 && b < |s.own| && !s.bits[b]
      requires forall n | 0 <= n < |s.nodes| :: t.nodes[n].nlink == s.nodes[n].nlink
      requires forall c: nat | c < |s.own| && c != b
               && (s.own[c].Entry? || (s.own[c].Slot? && s.own[c].i < NDIRECT)) :: t.blocks[c] == s.blocks[c]
      ensures Kept(s, t)
    {
      assert UseOk(s, b);
      StoredKept(s, t, u, b);
    }

    lemma FileFacts(s: St, inum: nat)
      requires Inv(s) && inum < |s.nodes|
      ensures |File(s, inum)| == s.nodes[inum].size <= MAXFILE * BSIZE
    {
      assert NodeOk(s, inum);
    }

    /** The bn-th block of a file is there and holds bytes. */
    static ghost predicate HasBytes(s: St, inum: nat, bn: nat)
      requires Shape(s) && inum < |s.nodes| && bn < MAXFILE
    {
      var b := BlockOf(s, inum, bn);
      b != 0 && b < |s.blocks| && IsData(s.blocks[b])
    }

    /** A byte below the size: its block is there, and the file shows it. */
    lemma FileByte(s: St, inum: nat, k: nat)
      requires Inv(s) && inum < |s.nodes| && k < s.nodes[inum].size
      ensures k / BSIZE < MAXFILE && k < MAXFILE * BSIZE
      ensures |File(s, inum)| == s.nodes[inum].size && HasBytes(s, inum, k / BSIZE)
      ensures File(s, inum)[k] == BytesOf(s.blocks[BlockOf(s, inum, k / BSIZE)])[k % BSIZE]
    {
      hide Ref;
      assert NodeOk(s, inum);
      var u := At(inum, k / BSIZE);
      assert BlockOf(s, inum, k / BSIZE) != 0 && Place(s, u) && RefOk(s, u);
      assert UseOk(s, Ref(s, u));
    }

    /** The part of a block from off on, as file bytes. */
    lemma Bytewise(s: St, inum: nat, off: nat, m: nat)
      requires Inv(s) && inum < |s.nodes| && off + m <= s.nodes[inum].size && 0 < m <= BSIZE - off % BSIZE
      ensures off / BSIZE < MAXFILE && HasBytes(s, inum, off / BSIZE)
      ensures BytesOf(s.blocks[BlockOf(s, inum, off / BSIZE)])[off % BSIZE..off % BSIZE + m] ==
              File(s, inum)[off..off + m]
    {
      hide Ref, UseOk, NodeOk, RefOk, BlockOf, File;
      FileFacts(s, inum);
      FileByte(s, inum, off);
      forall k: nat | off <= k < off + m
        ensures File(s, inum)[k] == BytesOf(s.blocks[BlockOf(s, inum, off / BSIZE)])[off % BSIZE + (k - off)] {
        FileByte(s, inum, k);
        SameBlock(off, k, m);
      }
      var d, f := BytesOf(s.blocks[BlockOf(s, inum, off / BSIZE)]), File(s, inum);
      assert forall k | off <= k < off + m :: f[k] == d[off % BSIZE..off % BSIZE + m][k - off];
    }
  }

  /** One inode with one block of zeros. */
  function OneBlockFile(): St {
    St(1, [true, true], [Zeroed, Zeroed], [Dinode(2, 1, BSIZE, [1] + Zeros(NDIRECT))], [Meta, Slot(0, 0)])
  }

  lemma OneBlockInv()
    ensures Inv(OneBlockFile()) && File(OneBlockFile(), 0) == Zeros(BSIZE) && BlockOf(OneBlockFile(), 0, 0) == 1
  {
    var s := OneBlockFile();
    assert s.nodes[0].addrs[0] == 1 && forall i | 0 < i <= NDIRECT :: s.nodes[0].addrs[i] == 0;
    forall u | Place(s, u) ensures RefOk(s, u) && (Ref(s, u) == 1 <==> u == Slot(0, 0)) {
    }
    forall b: nat | b < |s.own| ensures UseOk(s, b) {
    }
    forall n: nat | n < |s.nodes| ensures NodeOk(s, n) {
      assert BlockOf(s, 0, 0) == 1;
    }
    assert File(s, 0) == Zeros(BSIZE) by {
      assert |File(s, 0)| == BSIZE;
      forall k | 0 <= k < BSIZE ensures File(s, 0)[k] == 0 {
        assert ByteAt(s, 0, k) == 0;
      }
    }
  }

  /** A machine with that file system, and the inode in memory. */
  method OneBlock(open: bool) returns (fs: FileSys, ip: Inode)
    ensures fs.Ok(ip) && fs.S(ip) == OneBlockFile() && ip.inum == 0 && ip.kind == 2 && ip.size == BSIZE
    ensures fresh(fs) && fresh(ip) && |ip.addrs| == NDIRECT + 1 && |fs.dinodes| == 1
    ensures fs.Settled() && fs.listed == if open then {1} else {}
  {
    hide Inv;
    var s := OneBlockFile();
    OneBlockInv();
    fs := new FileSys(s, 0, 0, if open then {1} else {});
    ip := new Inode;
    ip.inum, ip.ref, ip.valid := 0, 1, true;
    ip.kind, ip.nlink, ip.size, ip.addrs := 2, 1, BSIZE, [1] + Zeros(NDIRECT);
    assert fs.S(ip) == s;
  }

  /** Two bytes are written, the second cannot be copied in.  writei counts none, yet the first is in the
      cached file.  The commit leaves it behind, unless the block is in the open group already. */
  method TornWrite(open: bool) returns (fs: FileSys, ip: Inode, tot: int)
    ensures fs.Ok(ip) && tot == 0 && ip.inum == 0 && |fs.dinodes| == 1
    ensures |File(fs.S(ip), 0)| == BSIZE && File(fs.S(ip), 0)[0] == 7
    ensures var t := fs.Durable();
            Inv(t) && |File(t, 0)| == BSIZE && File(t, 0)[0] == if open then 7 else 0
  {
    hide Inv, File, FileSys.Pending, FileSys.LoggedOnly, BlockOf, OneBlockFile, FileSys.Settled;
    OneBlockInv();
    fs, ip := OneBlock(open);
    ghost var w;
    tot, w := fs.Writei(ip, [7, 7], 1, 0);
    FirstByte(fs.S(ip), [7, 7], w);
    FirstByte(fs.Durable(), [7, 7], fs.Logged(ip, 2, 0, tot, w));
  }

  /** The first byte of that file after a write at its start. */
  lemma FirstByte(t: St, src: seq<nat>, w: nat)
    requires Inv(OneBlockFile()) && File(OneBlockFile(), 0) == Zeros(BSIZE)
    requires WroteFiles(OneBlockFile(), t, 0, 0, src, w) && t.nodes[0].size == BSIZE
    ensures |File(t, 0)| == BSIZE && File(t, 0)[0] == if w > 0 then src[0] else 0
  {
    hide Inv, ByteAt;
  }
}
