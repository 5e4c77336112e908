/** The inode table: allocating, referencing and freeing inodes. */
module Itable {
  import opened Params
  import opened Inodes
  import opened FileBytes
  import opened Truncate
  import opened Fs

  predicate Distinct(table: seq<Inode>) {
    forall i, j :: 0 <= i < j < |table| ==> table[i] != table[j]
  }

  /** The file system as it is on disk. */
  ghost function D(fs: FileSys): St
    reads fs
  {
    St(fs.nmeta, fs.bits, fs.blocks, fs.dinodes, fs.own)
  }

  ghost predicate DiskOk(fs: FileSys)
    reads fs
  {
    |fs.bits| == fs.size && |fs.disk| == fs.size && Inv(D(fs))
  }

  /** An entry in use names an inode, and if valid is a copy of it, which is not free. */
  ghost predicate EntryOk(fs: FileSys, e: Inode)
    reads fs`dinodes, e
  {
    e.ref > 0 ==> e.inum < |fs.dinodes| && (e.valid ==> e.V() == fs.dinodes[e.inum] && e.kind != 0)
  }

  /** At most one entry in use per inode. */
  ghost predicate TableOk(fs: FileSys, table: seq<Inode>)
    reads fs`dinodes, table
  {
    && Distinct(table) && (forall e | e in table :: EntryOk(fs, e))
    && (forall e, f | e in table && f in table && e != f && e.ref > 0 && f.ref > 0 :: e.inum != f.inum)
  }

  lemma OnDisk(fs: FileSys, ip: Inode)
    requires ip.inum < |fs.dinodes| && ip.V() == fs.dinodes[ip.inum]
    ensures fs.S(ip) == D(fs)
  {
    assert fs.dinodes[ip.inum := ip.V()] == fs.dinodes;
  }

  /** When every change is in the open group, a commit makes the whole file system durable. */
  lemma AllDurable(fs: FileSys)
    requires DiskOk(fs) && fs.Settled()
    ensures fs.Durable() == D(fs)
  {
    hide Inv, FileSys.Pending, FileSys.PendingBits, FileSys.PendingNodes;
    fs.SettledPending();
    fs.MetaPending();
  }

  /** An inode's fields change but none of the places where it stores blocks. */
  lemma NodeChanged(s: St, inum: nat, d: Dinode)
    requires Inv(s) && inum < |s.nodes| && |d.addrs| == NDIRECT + 1 && d.size == 0
    requires d.addrs == s.nodes[inum].addrs && (d.kind == 0 ==> d.addrs == Zeros(NDIRECT + 1))
    ensures Inv(s.(nodes := s.nodes[inum := d]))
  {
    hide KindOk;
    var t := s.(nodes := s.nodes[inum := d]);
    assert forall v | Place(s, v) :: Ref(t, v) == Ref(s, v);
    forall v | Place(t, v) ensures RefOk(t, v) {
      assert RefOk(s, v);
    }
    forall b: nat | b < |t.own| ensures UseOk(t, b) {
      assert UseOk(s, b);
    }
    forall n: nat | n < |t.nodes| ensures NodeOk(t, n) {
      if n == inum {
        SizeBlocks(0);
      } else {
        assert NodeOk(s, n);
        UnsizedNode(s, t, n);
      }
    }
  }

  /** A free inode's addresses are all zero. */
  lemma FreeInode(s: St, inum: nat)
    requires Inv(s) && inum < |s.nodes| && s.nodes[inum].kind == 0
    ensures s.nodes[inum].addrs == Zeros(NDIRECT + 1)
  {
    assert NodeOk(s, inum);
    forall i | 0 <= i <= NDIRECT ensures s.nodes[inum].addrs[i] == 0 {
      assert Ref(s, Slot(inum, i)) == 0;
    }
  }

  /** A reference to an inode: the entry that has it, or the first free one. */
  method Iget(fs: FileSys, table: seq<Inode>, inum: nat) returns (ip: Inode)
    requires TableOk(fs, table) && inum < |fs.dinodes|
    requires exists e :: e in table && (e.ref == 0 || e.inum == inum)
    modifies table
    ensures TableOk(fs, table) && ip in table && ip.inum == inum && ip.ref == old(ip.ref) + 1
    ensures old(ip.ref) > 0 ==> old(ip.inum) == inum && ip.V() == old(ip.V()) && ip.valid == old(ip.valid)
    ensures old(ip.ref) == 0 ==> !ip.valid && forall e | e in table && old(e.ref) > 0 :: old(e.inum) != inum
    ensures forall e | e in table && e != ip :: Same(e)
  {
    var empty: Inode? := null;
    var i := 0;
    while i < |table|
      invariant 0 <= i <= |table| && forall e | e in table :: Same(e)
      invariant forall k | 0 <= k < i :: !(table[k].ref > 0 && table[k].inum == inum)
      invariant if empty == null then forall k | 0 <= k < i :: table[k].ref > 0 else empty in table && empty.ref == 0
    {
      if table[i].ref > 0 && table[i].inum == inum {
        table[i].ref := table[i].ref + 1;
        return table[i];
      }
      if empty == null && table[i].ref == 0 {
        empty := table[i];
      }
      i := i + 1;
    }
    assert empty != null;  // no "iget: no inodes" panic
    ip := empty;
    Recycle(fs, table, ip, inum);
  }

  /** The entry is now for this inode, which has no other. */
  method Recycle(fs: FileSys, table: seq<Inode>, ip: Inode, inum: nat)
    requires TableOk(fs, table) && inum < |fs.dinodes| && ip in table && ip.ref == 0
    requires forall e | e in table && e.ref > 0 :: e.inum != inum
    modifies ip`inum, ip`ref, ip`valid
    ensures TableOk(fs, table) && ip.inum == inum && ip.ref == 1 && !ip.valid
  {
    ip.inum, ip.ref, ip.valid := inum, 1, false;
  }

  /** An untouched inode entry. */
  twostate predicate Same(e: Inode)
    reads e
  {
    e.inum == old(e.inum) && e.ref == old(e.ref) && e.valid == old(e.valid) && e.V() == old(e.V())
  }

  /** The free inode gets its type, on the disk too. */
  method MarkInode(fs: FileSys, inum: nat, kind: nat)
    requires DiskOk(fs) && kind != 0 && inum < |fs.dinodes| && fs.dinodes[inum].kind == 0
    modifies fs`dinodes, fs`logged, fs`listedNodes
    ensures DiskOk(fs) && fs.dinodes == old(fs.dinodes)[inum := Dinode(kind, 0, 0, Zeros(NDIRECT + 1))]
    ensures fs.logged == old(fs.logged) + {fs.IBlock(inum)}
    ensures fs.listedNodes == old(fs.listedNodes) + {fs.IBlock(inum)}
    ensures old(fs.Settled()) ==> fs.Settled()
  {
    hide Inv;
    FreeInode(D(fs), inum);
    NodeChanged(D(fs), inum, Dinode(kind, 0, 0, Zeros(NDIRECT + 1)));
    fs.dinodes := fs.dinodes[inum := Dinode(kind, 0, 0, Zeros(NDIRECT + 1))];
    fs.LogNode(inum);
  }

  /** Takes the first free inode, and a reference to it; null if there is none. */
  method Ialloc(fs: FileSys, table: seq<Inode>, kind: nat) returns (ip: Inode?)
    requires DiskOk(fs) && TableOk(fs, table) && kind != 0 && exists e :: e in table && e.ref == 0
    modifies fs`dinodes, fs`logged, fs`listedNodes, table
    ensures DiskOk(fs) && TableOk(fs, table) && |fs.dinodes| == |old(fs.dinodes)|
    ensures ip == null ==> unchanged(fs)
    ensures ip != null ==> fs.logged == old(fs.logged) + {fs.IBlock(ip.inum)}
    ensures ip != null ==> fs.listedNodes == old(fs.listedNodes) + {fs.IBlock(ip.inum)}
    ensures old(fs.Settled()) ==> fs.Settled()
    ensures ip == null ==> fs.dinodes == old(fs.dinodes) && forall i | 1 <= i < |fs.dinodes| :: fs.dinodes[i].kind != 0
    ensures ip == null ==> forall e | e in table :: Same(e)
    ensures ip != null ==> && ip in table && 1 <= ip.inum < |fs.dinodes| && old(fs.dinodes)[ip.inum].kind == 0
                           && (forall i | 1 <= i < ip.inum :: old(fs.dinodes)[i].kind != 0)
                           && fs.dinodes == old(fs.dinodes)[ip.inum := Dinode(kind, 0, 0, Zeros(NDIRECT + 1))]
    ensures ip != null ==> ip.ref == old(ip.ref) + 1 && forall e | e in table && e != ip :: Same(e)
  {
    hide Inv, FileSys.Settled;
    var inum := 1;
    while inum < |fs.dinodes|
      invariant inum >= 1 && unchanged(fs) && DiskOk(fs) && TableOk(fs, table)
      invariant forall e | e in table :: Same(e)
      invariant forall i | 1 <= i < inum && i < |fs.dinodes| :: fs.dinodes[i].kind != 0
    {
      if fs.dinodes[inum].kind == 0 {
        MarkInode(fs, inum, kind);
        ip := Iget(fs, table, inum);
        return;
      }
      inum := inum + 1;
    }
    return null;
  }

  /** Makes an entry valid. */
  method Ilock(fs: FileSys, table: seq<Inode>, ip: Inode)
    requires TableOk(fs, table) && ip in table && ip.ref > 0 && ip.inum < |fs.dinodes|
    requires ip.valid || fs.dinodes[ip.inum].kind != 0
    modifies ip`valid, ip`kind, ip`nlink, ip`size, ip`addrs
    ensures TableOk(fs, table) && ip.valid && ip.V() == fs.dinodes[ip.inum]
  {
    if !ip.valid {
      var d := fs.dinodes[ip.inum];
      ip.kind, ip.nlink, ip.size, ip.addrs := d.kind, d.nlink, d.size, d.addrs;
      ip.valid := true;
      assert ip.kind != 0;  // no "ilock: no type" panic
    }
  }

  /** Drops a reference; the last one to an inode without links frees the inode and its blocks. */
  method Iput(fs: FileSys, table: seq<Inode>, ip: Inode)
    requires TableOk(fs, table) && DiskOk(fs) && ip in table && ip.ref > 0
    modifies fs`bits, fs`own, fs`logged, fs`listedBits, fs`listedNodes, fs`dinodes, ip
    ensures old(fs.Settled()) ==> fs.Settled()
    ensures TableOk(fs, table) && DiskOk(fs) && ip.ref == old(ip.ref) - 1 && ip.inum == old(ip.inum)
    ensures ip.inum < |fs.dinodes| == |old(fs.dinodes)|
    ensures if old(ip.ref == 1 && ip.valid && ip.nlink == 0)
            then && fs.IBlock(ip.inum) in fs.logged && fs.IBlock(ip.inum) in fs.listedNodes
                 && fs.dinodes == old(fs.dinodes)[ip.inum := fs.dinodes[ip.inum]]
                 && fs.dinodes[ip.inum].kind == 0 && !ip.valid
                 && Less(old(fs.own), fs.own, ip.inum, NDIRECT + 1, NINDIRECT)
                 && forall n: nat | n < |fs.dinodes| && n != ip.inum :: File(D(fs), n) == File(old(D(fs)), n)
            else unchanged(fs) && ip.V() == old(ip.V()) && ip.valid == old(ip.valid)
  {
    hide Inv, File, Less;
    if ip.ref == 1 && ip.valid && ip.nlink == 0 {
      FreeContents(fs, ip);
    }
    ip.ref := ip.ref - 1;
  }

  /** itrunc(ip); ip->type = 0; iupdate(ip); ip->valid = 0. */
  method FreeContents(fs: FileSys, ip: Inode)
    requires DiskOk(fs) && ip.inum < |fs.dinodes| && ip.V() == fs.dinodes[ip.inum]
    modifies fs`bits, fs`own, fs`logged, fs`listedBits, fs`listedNodes, fs`dinodes
    modifies ip`addrs, ip`size, ip`kind, ip`valid
    ensures fs.IBlock(ip.inum) in fs.logged && fs.IBlock(ip.inum) in fs.listedNodes
    ensures old(fs.Settled()) ==> fs.Settled()
    ensures DiskOk(fs) && ip.inum < |fs.dinodes| == |old(fs.dinodes)| && !ip.valid
    ensures fs.dinodes == old(fs.dinodes)[ip.inum := fs.dinodes[ip.inum]] && fs.dinodes[ip.inum].kind == 0
    ensures Less(old(fs.own), fs.own, ip.inum, NDIRECT + 1, NINDIRECT)
    ensures forall n: nat | n < |fs.dinodes| && n != ip.inum :: File(D(fs), n) == File(old(D(fs)), n)
  {
    hide Inv, File, Less, FileSys.MetaSettled, FileSys.Settled;
    OnDisk(fs, ip);
    Lengths(D(fs), ip.inum);
    fs.Itrunc(ip);
    ghost var t := fs.S(ip);
    NodeChanged(t, ip.inum, ip.V().(kind := 0));
    OtherFiles(t, t.(nodes := t.nodes[ip.inum := ip.V().(kind := 0)]), ip.inum);
    ip.kind := 0;
    assert fs.dinodes[ip.inum := ip.V()] == t.nodes[ip.inum := ip.V()];
    label T:
    fs.Iupdate(ip);
    fs.StillSettled@T();
    OnDisk(fs, ip);
    ip.valid := false;
  }

  lemma Lengths(s: St, inum: nat)
    requires Inv(s) && inum < |s.nodes|
    ensures |s.nodes[inum].addrs| == NDIRECT + 1
  {
  }

  /** What holds while the file system starts: some entry is free, and those in use have links. */
  ghost predicate BootOk(fs: FileSys, table: seq<Inode>)
    reads fs, table
  {
    && TableOk(fs, table) && DiskOk(fs) && (exists e :: e in table && e.ref == 0)
    && (forall e | e in table && e.ref > 0 :: e.inum < |fs.dinodes| && fs.dinodes[e.inum].nlink != 0)
  }

  /** Allocated, but no directory names it. */
  predicate Orphan(d: Dinode) { d.kind != 0 && d.nlink == 0 }

  /** An orphan's only reference is taken and dropped again. */
  method FreeOrphan(fs: FileSys, table: seq<Inode>, inum: nat)
    requires BootOk(fs, table) && inum < |fs.dinodes| && Orphan(fs.dinodes[inum]) && fs.Settled()
    modifies fs`bits, fs`own, fs`logged, fs`listedBits, fs`listedNodes, fs`dinodes, table
    ensures BootOk(fs, table) && inum < |fs.dinodes| && fs.dinodes == old(fs.dinodes)[inum := fs.dinodes[inum]]
    ensures fs.Settled() && fs.dinodes[inum].kind == 0 && Less(old(fs.own), fs.own, inum, NDIRECT + 1, NINDIRECT)
    ensures fs.IBlock(inum) in fs.logged && fs.IBlock(inum) in fs.listedNodes
    ensures forall n: nat | n < |fs.dinodes| && n != inum :: File(D(fs), n) == File(old(D(fs)), n)
  {
    hide Inv, File, Less, TableOk, FileSys.Settled;
    var ip := Iget(fs, table, inum);
    InUse(fs, table);
    fs.BeginOp();
    Ilock(fs, table, ip);
    assert ip.ref == 1;
    Iput(fs, table, ip);
    assert ip in table && ip.ref == 0;
  }

  /** The body of ireclaim's loop: an orphan is gone, from the disk too. */
  method ReclaimOne(fs: FileSys, table: seq<Inode>, inum: nat)
    requires BootOk(fs, table) && inum < |fs.dinodes| && fs.Settled()
    modifies fs, table
    ensures BootOk(fs, table) && inum < |fs.dinodes| && fs.dinodes == old(fs.dinodes)[inum := fs.dinodes[inum]]
    ensures if Orphan(old(fs.dinodes)[inum]) then fs.dinodes[inum].kind == 0 && fs.IBlock(inum) in fs.logged
            && Less(old(fs.own), fs.own, inum, NDIRECT + 1, NINDIRECT) && fs.OnDisk() == D(fs)
            else unchanged(fs)
    ensures forall n: nat | n < |fs.dinodes| && n != inum :: File(D(fs), n) == File(old(D(fs)), n)
    ensures fs.Settled()
  {
    hide Inv, File, Less, TableOk, FileSys.Settled, FileSys.MetaSettled;
    hide FileSys.Pending, FileSys.PendingBits, FileSys.PendingNodes;
    if fs.dinodes[inum].kind != 0 && fs.dinodes[inum].nlink == 0 {
      FreeOrphan(fs, table, inum);
      AllDurable(fs);
      fs.Shapes(D(fs));
      fs.EndOp(true);
    } else {
      assert fs.dinodes[inum := fs.dinodes[inum]] == fs.dinodes;
    }
  }

  lemma InUse(fs: FileSys, table: seq<Inode>)
    requires TableOk(fs, table)
    ensures forall e | e in table && e.ref > 0 :: e.inum < |fs.dinodes|
  {
  }

  /** At boot: frees every inode that is allocated but has no links, and commits that. */
  method Ireclaim(fs: FileSys, table: seq<Inode>)
    requires BootOk(fs, table) && fs.Settled()
    modifies fs, table
    ensures fs.Settled() && (old(fs.OnDisk() == D(fs)) ==> fs.OnDisk() == D(fs))
    ensures BootOk(fs, table) && |fs.dinodes| == |old(fs.dinodes)|
    ensures forall n | 1 <= n < |fs.dinodes| && Orphan(old(fs.dinodes)[n]) :: fs.dinodes[n].kind == 0
    ensures forall n | 1 <= n < |fs.dinodes| :: !Orphan(fs.dinodes[n])
    ensures forall n: nat | n < |fs.dinodes| && (n == 0 || !Orphan(old(fs.dinodes)[n])) ::
              fs.dinodes[n] == old(fs.dinodes)[n] && File(D(fs), n) == File(old(D(fs)), n)
  {
    hide Inv, File, TableOk, FileSys.Settled;
    var inum := 1;
    while inum < |fs.dinodes|
      invariant fs.Settled() && (old(fs.OnDisk() == D(fs)) ==> fs.OnDisk() == D(fs))
      invariant BootOk(fs, table) && |fs.dinodes| == |old(fs.dinodes)| && 1 <= inum
      invariant forall n | 1 <= n < inum && n < |fs.dinodes| ::
                  fs.dinodes[n] ==
                  (if Orphan(old(fs.dinodes)[n]) then fs.dinodes[n].(kind := 0) else old(fs.dinodes)[n])
      invariant forall n | inum <= n < |fs.dinodes| :: fs.dinodes[n] == old(fs.dinodes)[n]
      invariant forall n: nat | n < |fs.dinodes| && (n == 0 || !Orphan(old(fs.dinodes)[n])) ::
                  fs.dinodes[n] == old(fs.dinodes)[n] && File(D(fs), n) == File(old(D(fs)), n)
    {
      ReclaimOne(fs, table, inum);
      inum := inum + 1;
    }
  }
}
