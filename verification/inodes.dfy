/** The block map of inodes and the free bitmap, as values. */
module Inodes {
  import opened Params

  const NDIRECT: nat := 12
  const NINDIRECT: nat := 256
  const MAXFILE: nat := NDIRECT + NINDIRECT
  const BPB: nat := BSIZE * 8   // bitmap bits per block
  const IPB: nat := 16          // inodes per block

  /** A block after bzero, holding file bytes, or holding block numbers. */
  datatype Content = Zeroed | Bytes(b: seq<nat>) | Words(w: seq<nat>)

  predicate IsData(c: Content) { c.Zeroed? || (c.Bytes? && |c.b| == BSIZE) }
  predicate IsIndex(c: Content) { c.Zeroed? || (c.Words? && |c.w| == NINDIRECT) }

  function BytesOf(c: Content): (r: seq<nat>)
    requires IsData(c)
    ensures |r| == BSIZE
  {
    if c.Zeroed? then Zeros(BSIZE) else c.b
  }

  function WordsOf(c: Content): (r: seq<nat>)
    requires IsIndex(c)
    ensures |r| == NINDIRECT
  {
    if c.Zeroed? then Zeros(NINDIRECT) else c.w
  }

  datatype Dinode = Dinode(kind: nat, nlink: nat, size: nat, addrs: seq<nat>)

  /** What a block is for: a slot of an inode (slot NDIRECT is the indirect block), an entry of an
      inode's indirect block, metadata, or nothing. */
  datatype Use = Unused | Meta | Slot(inum: nat, i: nat) | Entry(inum: nat, j: nat)

  /** nmeta blocks of metadata; then data blocks, each with its bit, contents and use. */
  datatype St = St(nmeta: nat, bits: seq<bool>, blocks: seq<Content>, nodes: seq<Dinode>, own: seq<Use>)

  /** u is a place where a block number can be stored. */
  predicate Place(s: St, u: Use) {
    match u
    case Slot(inum, i) => inum < |s.nodes| && i <= NDIRECT
    case Entry(inum, j) => inum < |s.nodes| && j < NINDIRECT
    case _ => false
  }

  predicate Shape(s: St) {
    && |s.bits| == |s.blocks| == |s.own|
    && forall n | 0 <= n < |s.nodes| :: |s.nodes[n].addrs| == NDIRECT + 1
  }

  /** The block number stored at a place, 0 if none. */
  function Ref(s: St, u: Use): nat
    requires Shape(s) && Place(s, u)
  {
    match u
    case Slot(inum, i) => s.nodes[inum].addrs[i]
    case Entry(inum, j) =>
      var b := s.nodes[inum].addrs[NDIRECT];
      if b != 0 && b < |s.blocks| && IsIndex(s.blocks[b]) then WordsOf(s.blocks[b])[j] else 0
  }

  /** The place of the bn-th block of a file. */
  function At(inum: nat, bn: nat): Use {
    if bn < NDIRECT then Slot(inum, bn) else Entry(inum, bn - NDIRECT)
  }

  function BlockOf(s: St, inum: nat, bn: nat): nat
    requires Shape(s) && inum < |s.nodes| && bn < MAXFILE
  {
    Ref(s, At(inum, bn))
  }

  /** Number of blocks that hold size bytes. */
  function Blocks(size: nat): nat { (size + BSIZE - 1) / BSIZE }

  /** A stored block number names a block with exactly this use. */
  ghost predicate RefOk(s: St, u: Use)
    requires Shape(s) && Place(s, u)
  {
    Ref(s, u) != 0 ==> Ref(s, u) < |s.own| && s.own[Ref(s, u)] == u
  }

  /** A block in use by a file is stored at its place, and the bitmap says so. */
  ghost predicate UseOk(s: St, b: nat)
    requires Shape(s) && b < |s.own|
  {
    && (s.own[b].Meta? <==> b < s.nmeta)
    && (s.bits[b] <==> !s.own[b].Unused?)
    && (s.own[b].Slot? || s.own[b].Entry? ==> Place(s, s.own[b]) && Ref(s, s.own[b]) == b)
    && KindOk(s.own[b], s.blocks[b])
  }

  /** The contents a block may have, given its use. */
  predicate KindOk(u: Use, c: Content) {
    match u
    case Slot(_, i) => if i == NDIRECT then IsIndex(c) else IsData(c)
    case Entry(_, _) => IsData(c)
    case _ => true
  }

  /** Free inodes hold no blocks; every block below an inode's size is there. */
  ghost predicate NodeOk(s: St, inum: nat)
    requires Shape(s) && inum < |s.nodes|
  {
    && s.nodes[inum].size <= MAXFILE * BSIZE
    && (s.nodes[inum].kind == 0 ==>
          s.nodes[inum].size == 0 && forall i: nat | i <= NDIRECT :: Ref(s, Slot(inum, i)) == 0)
    && (forall bn: nat | bn < Blocks(s.nodes[inum].size) :: BlockOf(s, inum, bn) != 0)
  }

  /** The bitmap, the inodes and their indirect blocks agree exactly. */
  ghost predicate Inv(s: St) {
    && Shape(s) && 1 <= s.nmeta <= |s.own|
    && (forall u | Place(s, u) :: RefOk(s, u))
    && (forall b: nat | b < |s.own| :: UseOk(s, b))
    && (forall n: nat | n < |s.nodes| :: NodeOk(s, n))
  }

  /** Distinct places never share a block. */
  lemma NoAlias(s: St, u: Use, v: Use)
    requires Inv(s) && Place(s, u) && Place(s, v) && Ref(s, u) != 0 && Ref(s, u) == Ref(s, v)
    ensures u == v
  {
    hide UseOk, NodeOk;
    assert RefOk(s, u) && RefOk(s, v);
  }

  /** A block's bit is set exactly when it is metadata or reachable from an inode. */
  lemma BitmapAgrees(s: St, b: nat)
    requires Inv(s) && b < |s.bits|
    ensures s.bits[b] <==> b < s.nmeta || exists u :: Place(s, u) && Ref(s, u) == b
  {
    hide NodeOk;
    assert UseOk(s, b);
    if u :| Place(s, u) && Ref(s, u) == b {
      assert RefOk(s, u);
    }
  }

  /** t is s with x stored at place u; inodes keep their kinds and sizes. */
  ghost predicate Stored(s: St, t: St, u: Use, x: nat) {
    && Shape(s) && Shape(t) && Place(s, u) && |t.nodes| == |s.nodes| && t.nmeta == s.nmeta && |t.own| == |s.own|
    && (forall v | Place(s, v) :: Ref(t, v) == if v == u then x else Ref(s, v))
    && (forall n | 0 <= n < |s.nodes| :: t.nodes[n].kind == s.nodes[n].kind && t.nodes[n].size == s.nodes[n].size)
  }

  /** A free block gets stored at an empty place. */
  lemma Attach(s: St, t: St, u: Use, b: nat)
    requires Inv(s) && Stored(s, t, u, b) && Ref(s, u) == 0 && b < |s.own| && s.own[b].Unused?
    requires s.nodes[u.inum].kind != 0
    requires t.own == s.own[b := u] && t.bits == s.bits[b := true] && t.blocks[b].Zeroed?
    requires forall c | 0 <= c < |s.own| && c != b :: KindOk(s.own[c], t.blocks[c])
    ensures Inv(t)
  {
    hide KindOk, IsIndex, IsData, Blocks, Ref;
    assert b != 0 && b >= s.nmeta by {
      assert UseOk(s, b) && UseOk(s, 0);
    }
    forall v | Place(t, v) ensures RefOk(t, v) {
      assert RefOk(s, v);
    }
    forall c: nat | c < |t.own| ensures UseOk(t, c) {
      assert UseOk(s, c);
      ZeroedKind(u);
    }
    forall n: nat | n < |t.nodes| ensures NodeOk(t, n) {
      NodeStored(s, t, u, b, n);
    }
  }

  lemma ZeroedKind(u: Use)
    ensures KindOk(u, Zeroed)
  {
  }

  lemma NodeStored(s: St, t: St, u: Use, x: nat, n: nat)
    requires Stored(s, t, u, x) && n < |s.nodes| && NodeOk(s, n)
    requires s.nodes[u.inum].kind != 0 && (x != 0 || s.nodes[u.inum].size == 0)
    ensures NodeOk(t, n)
  {
    hide Ref, Blocks;
    SizeBlocks(s.nodes[n].size);
    forall bn: nat | bn < Blocks(t.nodes[n].size) ensures BlockOf(t, n, bn) != 0 {
      assert BlockOf(s, n, bn) != 0 && Place(s, At(n, bn));
    }
  }

  lemma SizeBlocks(size: nat)
    requires size <= MAXFILE * BSIZE
    ensures Blocks(size) <= MAXFILE && Blocks(0) == 0
  {
  }

  /** A stored block is taken out and freed. */
  lemma Detach(s: St, t: St, u: Use)
    requires Inv(s) && Stored(s, t, u, 0) && Ref(s, u) != 0 && s.nodes[u.inum].size == 0
    requires t.own == s.own[Ref(s, u) := Unused] && t.bits == s.bits[Ref(s, u) := false]
    requires forall c | 0 <= c < |s.own| :: KindOk(s.own[c], t.blocks[c])
    ensures Inv(t)
  {
    hide KindOk, IsIndex, IsData, Blocks, Ref;
    var b := Ref(s, u);
    assert RefOk(s, u);
    forall v | Place(t, v) ensures RefOk(t, v) {
      assert RefOk(s, v);
    }
    forall c: nat | c < |t.own| ensures UseOk(t, c) {
      assert UseOk(s, c);
      assert KindOk(Unused, t.blocks[c]) by { UnusedKind(t.blocks[c]); }
    }
    forall n: nat | n < |t.nodes| ensures NodeOk(t, n) {
      NodeDetached(s, t, u, n);
    }
  }

  lemma UnusedKind(c: Content)
    ensures KindOk(Unused, c)
  {
  }

  lemma NodeDetached(s: St, t: St, u: Use, n: nat)
    requires Stored(s, t, u, 0) && n < |s.nodes| && NodeOk(s, n) && s.nodes[u.inum].size == 0
    ensures NodeOk(t, n)
  {
    hide Ref, Blocks;
    SizeBlocks(s.nodes[n].size);
    forall bn: nat | bn < Blocks(t.nodes[n].size) ensures BlockOf(t, n, bn) != 0 {
      assert BlockOf(s, n, bn) != 0 && Place(s, At(n, bn));
    }
  }

  // The three ways a block number gets stored.

  function WithAddr(s: St, inum: nat, i: nat, b: nat): St
    requires Shape(s) && inum < |s.nodes| && i <= NDIRECT
  {
    s.(nodes := s.nodes[inum := s.nodes[inum].(addrs := s.nodes[inum].addrs[i := b])])
  }

  /** balloc for a slot of an inode. */
  function AllocSlot(s: St, inum: nat, i: nat, b: nat): St
    requires Shape(s) && inum < |s.nodes| && i <= NDIRECT && b < |s.own|
  {
    WithAddr(s, inum, i, b).(bits := s.bits[b := true], blocks := s.blocks[b := Zeroed],
                             own := s.own[b := Slot(inum, i)])
  }

  lemma AllocSlotInv(s: St, inum: nat, i: nat, b: nat)
    requires Inv(s) && inum < |s.nodes| && i <= NDIRECT && b < |s.own| && !s.bits[b] && s.nodes[inum].addrs[i] == 0
    requires s.nodes[inum].kind != 0
    ensures var t := AllocSlot(s, inum, i, b); Inv(t) && Stored(s, t, Slot(inum, i), b)
  {
    hide NodeOk, KindOk;
    var t := AllocSlot(s, inum, i, b);
    assert UseOk(s, b);
    forall v | Place(s, v) ensures Ref(t, v) == if v == Slot(inum, i) then b else Ref(s, v) {
      if v.Entry? {
        assert RefOk(s, Slot(v.inum, NDIRECT));
      }
    }
    forall c: nat | c < |s.own| && c != b ensures KindOk(s.own[c], t.blocks[c]) {
      assert UseOk(s, c);
    }
    Attach(s, t, Slot(inum, i), b);
  }

  /** balloc for an entry of an inode's indirect block. */
  function AllocEntry(s: St, inum: nat, j: nat, b: nat): St
    requires Shape(s) && inum < |s.nodes| && j < NINDIRECT && b < |s.own|
    requires var x := s.nodes[inum].addrs[NDIRECT]; x < |s.own| && IsIndex(s.blocks[x])
  {
    var x := s.nodes[inum].addrs[NDIRECT];
    s.(bits := s.bits[b := true], blocks := s.blocks[b := Zeroed][x := Words(WordsOf(s.blocks[x])[j := b])],
       own := s.own[b := Entry(inum, j)])
  }

  /** The indirect block of an inode. */
  lemma IndirectBlock(s: St, inum: nat)
    requires Inv(s) && inum < |s.nodes| && s.nodes[inum].addrs[NDIRECT] != 0
    ensures var x := s.nodes[inum].addrs[NDIRECT];
            x < |s.own| && x >= s.nmeta && s.own[x] == Slot(inum, NDIRECT) && IsIndex(s.blocks[x]) && s.bits[x]
    ensures forall j: nat | j < NINDIRECT ::
              Ref(s, Entry(inum, j)) == WordsOf(s.blocks[s.nodes[inum].addrs[NDIRECT]])[j]
  {
    hide NodeOk;
    assert RefOk(s, Slot(inum, NDIRECT)) && UseOk(s, s.nodes[inum].addrs[NDIRECT]);
  }

  lemma AllocEntryInv(s: St, inum: nat, j: nat, b: nat)
    requires Inv(s) && inum < |s.nodes| && j < NINDIRECT && b < |s.own| && !s.bits[b] && s.nodes[inum].kind != 0
    requires s.nodes[inum].addrs[NDIRECT] != 0 && Ref(s, Entry(inum, j)) == 0
    ensures var x := s.nodes[inum].addrs[NDIRECT]; x < |s.own| && IsIndex(s.blocks[x]) && b != x
    ensures var t := AllocEntry(s, inum, j, b); Inv(t) && Stored(s, t, Entry(inum, j), b)
  {
    hide NodeOk;
    IndirectBlock(s, inum);
    var x, t := s.nodes[inum].addrs[NDIRECT], AllocEntry(s, inum, j, b);
    assert UseOk(s, b);
    forall v | Place(s, v) ensures Ref(t, v) == if v == Entry(inum, j) then b else Ref(s, v) {
      if v.Entry? {
        assert RefOk(s, Slot(v.inum, NDIRECT));
      }
    }
    forall c: nat | c < |s.own| && c != b ensures KindOk(s.own[c], t.blocks[c]) {
      assert UseOk(s, c);
    }
    Attach(s, t, Entry(inum, j), b);
  }

  /** Writing file bytes to a data block. */
  lemma WriteDataInv(s: St, u: Use, c: Content)
    requires Inv(s) && Place(s, u) && u != Slot(u.inum, NDIRECT) && Ref(s, u) != 0 && IsData(c)
    ensures Ref(s, u) < |s.own|
    ensures var t := s.(blocks := s.blocks[Ref(s, u) := c]); Inv(t) && forall v | Place(s, v) :: Ref(t, v) == Ref(s, v)
  {
    hide NodeOk;
    assert RefOk(s, u);
    var b, t := Ref(s, u), s.(blocks := s.blocks[Ref(s, u) := c]);
    forall v | Place(s, v) ensures Ref(t, v) == Ref(s, v) {
      if v.Entry? {
        assert RefOk(s, Slot(v.inum, NDIRECT));
      }
    }
    forall v | Place(t, v) ensures RefOk(t, v) {
      assert RefOk(s, v);
    }
    forall x: nat | x < |t.own| ensures UseOk(t, x) {
      assert UseOk(s, x);
    }
    forall n: nat | n < |t.nodes| ensures NodeOk(t, n) {
      NodeSame(s, t, n);
    }
  }

  lemma NodeSame(s: St, t: St, n: nat)
    requires Shape(s) && Shape(t) && s.nodes == t.nodes && n < |s.nodes| && NodeOk(s, n)
    requires forall v | Place(s, v) :: Ref(t, v) == Ref(s, v)
    ensures NodeOk(t, n)
  {
    hide Ref, Blocks;
    SizeBlocks(s.nodes[n].size);
    forall bn: nat | bn < Blocks(t.nodes[n].size) ensures BlockOf(t, n, bn) != 0 {
      assert BlockOf(s, n, bn) != 0 && Place(s, At(n, bn));
    }
  }

  // File contents.

  /** Byte k of a file's blocks, whether or not below its size. */
  function ByteAt(s: St, inum: nat, k: nat): nat
    requires Shape(s) && inum < |s.nodes| && k < MAXFILE * BSIZE
  {
    var b := BlockOf(s, inum, k / BSIZE);
    if b != 0 && b < |s.blocks| && IsData(s.blocks[b]) then BytesOf(s.blocks[b])[k % BSIZE] else 0
  }

  /** The bytes of a file. */
  ghost function File(s: St, inum: nat): seq<nat>
    requires Inv(s) && inum < |s.nodes|
  {
    assert NodeOk(s, inum);
    seq<nat>(s.nodes[inum].size, k requires 0 <= k < s.nodes[inum].size => ByteAt(s, inum, k))
  }

  /** Blocks that were there are still there with the same bytes. */
  ghost predicate Kept(s: St, t: St) {
    && Shape(s) && Shape(t) && |s.nodes| == |t.nodes|
    && (forall n | 0 <= n < |s.nodes| :: t.nodes[n].kind == s.nodes[n].kind && t.nodes[n].size == s.nodes[n].size
                                         && t.nodes[n].nlink == s.nodes[n].nlink)
    && (forall n: nat, bn: nat | n < |s.nodes| && bn < MAXFILE && BlockOf(s, n, bn) != 0 ::
          BlockOf(t, n, bn) == BlockOf(s, n, bn))
    && (forall n: nat, k: nat | n < |s.nodes| && k < MAXFILE * BSIZE && BlockOf(s, n, k / BSIZE) != 0 ::
          ByteAt(t, n, k) == ByteAt(s, n, k))
  }

  lemma KeptSelf(s: St)
    requires Shape(s)
    ensures Kept(s, s)
  {
  }

  lemma KeptTwice(s: St, t: St, u: St)
    requires Kept(s, t) && Kept(t, u)
    ensures Kept(s, u)
  {
    hide BlockOf, ByteAt;
  }

  /** What is kept, as files. */
  lemma KeptFiles(s: St, t: St, inum: nat)
    requires Inv(s) && Inv(t) && Kept(s, t) && inum < |s.nodes|
    ensures File(t, inum) == File(s, inum)
  {
    hide BlockOf, ByteAt, UseOk, RefOk;
    assert NodeOk(s, inum) && NodeOk(t, inum);
    forall k | 0 <= k < s.nodes[inum].size ensures File(t, inum)[k] == File(s, inum)[k] {
      assert BlockOf(s, inum, k / BSIZE) != 0;
    }
  }

  /** Storing one more block keeps everything. */
  lemma StoredKept(s: St, t: St, u: Use, b: nat)
    requires Inv(s) && Stored(s, t, u, b) && Ref(s, u) == 0 && b < |s.own| && s.own[b].Unused?
    requires |t.blocks| == |s.blocks|
    requires forall n | 0 <= n < |s.nodes| :: t.nodes[n].nlink == s.nodes[n].nlink
    requires forall c: nat | c < |s.own| && (s.own[c].Entry? || (s.own[c].Slot? && s.own[c].i < NDIRECT)) ::
               t.blocks[c] == s.blocks[c]
    ensures Kept(s, t)
  {
    hide NodeOk, Ref;
    forall n: nat, bn: nat | n < |s.nodes| && bn < MAXFILE && BlockOf(s, n, bn) != 0
      ensures BlockOf(t, n, bn) == BlockOf(s, n, bn)
    {
      assert Place(s, At(n, bn));
    }
    forall n: nat, k: nat | n < |s.nodes| && k < MAXFILE * BSIZE && BlockOf(s, n, k / BSIZE) != 0
      ensures ByteAt(t, n, k) == ByteAt(s, n, k)
    {
      assert Place(s, At(n, k / BSIZE)) && RefOk(s, At(n, k / BSIZE));
    }
  }
}
