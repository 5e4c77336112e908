/** Files as byte sequences: what a write does to them. */
module FileBytes {
  import opened Params
  import opened Inodes
  import opened Sets

  /** A data block with src written at offset o. */
  function Patch(c: Content, o: nat, src: seq<nat>): (r: Content)
    requires IsData(c) && o + |src| <= BSIZE
    ensures IsData(r)
  {
    Bytes(BytesOf(c)[..o] + src + BytesOf(c)[o + |src|..])
  }

  /** u is t with `part` written into the bn-th block of a file. */
  ghost predicate Patched(t: St, u: St, inum: nat, bn: nat, o: nat, part: seq<nat>)
    requires Shape(t) && inum < |t.nodes| && bn < MAXFILE && o + |part| <= BSIZE
  {
    var b := BlockOf(t, inum, bn);
    b != 0 && b < |t.own| && IsData(t.blocks[b]) && u == t.(blocks := t.blocks[b := Patch(t.blocks[b], o, part)])
  }

  /** Everything in t is as in s, except that src's first w bytes are in file inum from off on. */
  ghost predicate Wrote(s: St, t: St, inum: nat, off: nat, src: seq<nat>, w: nat) {
    && Shape(s) && Shape(t) && |s.nodes| == |t.nodes| && inum < |s.nodes| && w <= |src|
    && off + |src| <= MAXFILE * BSIZE
    && (forall n | 0 <= n < |s.nodes| :: t.nodes[n].kind == s.nodes[n].kind && t.nodes[n].size == s.nodes[n].size
                                         && t.nodes[n].nlink == s.nodes[n].nlink)
    && (forall n: nat, bn: nat | n < |s.nodes| && bn < MAXFILE && BlockOf(s, n, bn) != 0 ::
          BlockOf(t, n, bn) == BlockOf(s, n, bn))
    && (forall n: nat, k: nat | n < |s.nodes| && k < MAXFILE * BSIZE && BlockOf(s, n, k / BSIZE) != 0
                                && !(n == inum && off <= k < off + w) ::
          ByteAt(t, n, k) == ByteAt(s, n, k))
    && (forall k: nat | off <= k < off + w :: BlockOf(t, inum, k / BSIZE) != 0 && ByteAt(t, inum, k) == src[k - off])
  }

  lemma WroteNone(s: St, inum: nat, off: nat, src: seq<nat>)
    requires Shape(s) && inum < |s.nodes| && off + |src| <= MAXFILE * BSIZE
    ensures Wrote(s, s, inum, off, src, 0)
  {
  }

  lemma WroteKept(s: St, t: St, u: St, inum: nat, off: nat, src: seq<nat>, w: nat)
    requires Wrote(s, t, inum, off, src, w) && Kept(t, u)
    ensures Wrote(s, u, inum, off, src, w)
  {
    hide BlockOf, ByteAt;
  }

  /** One block's share of a write. */
  lemma WroteMore(s: St, t: St, u: St, inum: nat, off: nat, src: seq<nat>, w: nat, m: nat)
    requires Inv(t) && Wrote(s, t, inum, off, src, w) && w + m <= |src| && (off + w) % BSIZE + m <= BSIZE
    requires (off + w) / BSIZE < MAXFILE
    requires Patched(t, u, inum, (off + w) / BSIZE, (off + w) % BSIZE, src[w..w + m])
    ensures Inv(u) && Wrote(s, u, inum, off, src, w + m)
  {
    hide UseOk, NodeOk, Ref, RefOk;
    var bn, o := (off + w) / BSIZE, (off + w) % BSIZE;
    var b := BlockOf(t, inum, bn);
    WriteDataInv(t, At(inum, bn), Patch(t.blocks[b], o, src[w..w + m]));
    assert forall n: nat, c: nat | n < |t.nodes| && c < MAXFILE ::
      Place(t, At(n, c)) && BlockOf(u, n, c) == BlockOf(t, n, c);
    forall n: nat, k: nat | n < |t.nodes| && k < MAXFILE * BSIZE && BlockOf(t, n, k / BSIZE) != 0
      ensures ByteAt(u, n, k) == if n == inum && off + w <= k < off + w + m then src[k - off] else ByteAt(t, n, k) {
      PatchByte(t, u, n, k, inum, bn, o, src[w..w + m]);
      if n == inum && off + w <= k < off + w + m {
        SameBlock(off + w, k, m);
      } else if n == inum && k / BSIZE == bn {
        assert k == bn * BSIZE + k % BSIZE;
      }
    }
    forall k: nat | off <= k < off + w + m
      ensures BlockOf(u, inum, k / BSIZE) != 0 && ByteAt(u, inum, k) == src[k - off]
    {
      if k >= off + w {
        SameBlock(off + w, k, m);
      } else {
        assert BlockOf(t, inum, k / BSIZE) != 0;
      }
    }
  }

  lemma SameBlock(a: nat, k: nat, m: nat)
    requires a <= k < a + m && a % BSIZE + m <= BSIZE
    ensures k / BSIZE == a / BSIZE && k % BSIZE == a % BSIZE + (k - a)
  {
  }

  /** Patching a block shows up in its one file only. */
  lemma PatchByte(t: St, u: St, n: nat, k: nat, inum: nat, bn: nat, o: nat, part: seq<nat>)
    requires Inv(t) && Shape(u) && inum < |t.nodes| == |u.nodes| && n < |t.nodes| && k < MAXFILE * BSIZE
    requires bn < MAXFILE && o + |part| <= BSIZE
    requires Patched(t, t.(blocks := u.blocks), inum, bn, o, part)
    requires BlockOf(t, n, k / BSIZE) != 0 && BlockOf(u, n, k / BSIZE) == BlockOf(t, n, k / BSIZE)
    ensures ByteAt(u, n, k) ==
            if n == inum && k / BSIZE == bn && o <= k % BSIZE < o + |part| then part[k % BSIZE - o] else ByteAt(t, n, k)
  {
    hide UseOk, NodeOk, Ref;
    assert Place(t, At(n, k / BSIZE)) && Place(t, At(inum, bn));
    if BlockOf(t, n, k / BSIZE) == BlockOf(t, inum, bn) {
      NoAlias(t, At(n, k / BSIZE), At(inum, bn));
    }
  }

  /** f with src's first w bytes at off, cut or grown to size. */
  function Overlay(f: seq<nat>, off: nat, src: seq<nat>, w: nat, size: nat): seq<nat>
    requires w <= |src|
  {
    seq<nat>(size, k requires 0 <= k < size => if off <= k < off + w then src[k - off] else if k < |f| then f[k] else 0)
  }

  function WithSize(s: St, inum: nat, size: nat): St
    requires inum < |s.nodes|
  {
    s.(nodes := s.nodes[inum := s.nodes[inum].(size := size)])
  }

  /** After the write the size is raised to the end of what was written. */
  lemma WroteFile(s: St, t: St, u: St, inum: nat, off: nat, src: seq<nat>, w: nat, tot: nat)
    requires Inv(s) && Inv(t) && Wrote(s, t, inum, off, src, w) && tot <= w && off <= s.nodes[inum].size
    requires s.nodes[inum].kind != 0
    requires u == WithSize(t, inum, if off + tot > s.nodes[inum].size then off + tot else s.nodes[inum].size)
    ensures Inv(u) && File(u, inum) == Overlay(File(s, inum), off, src, w, u.nodes[inum].size)
    ensures forall n: nat | n < |s.nodes| && n != inum :: File(u, n) == File(s, n)
  {
    hide UseOk, NodeOk, BlockOf, RefOk, ByteAt;
    SizedInv(s, t, u, inum, off, src, w, tot);
    forall n: nat | n < |s.nodes| && n != inum ensures File(u, n) == File(s, n) {
      OtherFile(s, t, u, inum, off, src, w, n);
    }
    SizeBound(u, inum);
    var f, g := File(u, inum), Overlay(File(s, inum), off, src, w, u.nodes[inum].size);
    forall k | 0 <= k < |f| ensures f[k] == g[k] {
      SizedByte(s, t, u, inum, off, src, w, k);
    }
    assert f == g;
  }

  lemma SizedInv(s: St, t: St, u: St, inum: nat, off: nat, src: seq<nat>, w: nat, tot: nat)
    requires Inv(s) && Inv(t) && Wrote(s, t, inum, off, src, w) && tot <= w && off <= s.nodes[inum].size
    requires s.nodes[inum].kind != 0
    requires u == WithSize(t, inum, if off + tot > s.nodes[inum].size then off + tot else s.nodes[inum].size)
    ensures Inv(u)
  {
    hide ByteAt;
    assert forall v | Place(t, v) :: Ref(u, v) == Ref(t, v);
    forall v | Place(u, v) ensures RefOk(u, v) {
      assert RefOk(t, v);
    }
    forall b: nat | b < |u.own| ensures UseOk(u, b) {
      assert UseOk(t, b);
    }
    forall n: nat | n < |u.nodes| ensures NodeOk(u, n) {
      assert NodeOk(t, n) && NodeOk(s, n);
      if n == inum {
        SizedNode(s, t, u, inum, off, src, w, tot);
      } else {
        UnsizedNode(t, u, n);
      }
    }
  }

  lemma SizeBound(s: St, inum: nat)
    requires Inv(s) && inum < |s.nodes|
    ensures s.nodes[inum].size <= MAXFILE * BSIZE
  {
    assert NodeOk(s, inum);
  }

  lemma UnsizedNode(t: St, u: St, n: nat)
    requires Shape(t) && Shape(u) && |t.nodes| == |u.nodes| && n < |t.nodes| && u.nodes[n] == t.nodes[n] && NodeOk(t, n)
    requires forall v | Place(t, v) :: Ref(u, v) == Ref(t, v)
    ensures NodeOk(u, n)
  {
    hide Ref;
    SizeBlocks(t.nodes[n].size);
    forall bn: nat | bn < Blocks(u.nodes[n].size) ensures BlockOf(u, n, bn) != 0 {
      assert BlockOf(t, n, bn) != 0 && Place(t, At(n, bn));
    }
  }

  lemma SizedNode(s: St, t: St, u: St, inum: nat, off: nat, src: seq<nat>, w: nat, tot: nat)
    requires Shape(u) && inum < |s.nodes| && Wrote(s, t, inum, off, src, w) && NodeOk(s, inum) && tot <= w
    requires off <= s.nodes[inum].size
    requires u == WithSize(t, inum, if off + tot > s.nodes[inum].size then off + tot else s.nodes[inum].size)
    requires s.nodes[inum].kind != 0 && forall v | Place(t, v) :: Ref(u, v) == Ref(t, v)
    ensures NodeOk(u, inum)
  {
    hide ByteAt, Ref;
    var size := s.nodes[inum].size;
    SizeBlocks(u.nodes[inum].size);
    forall bn: nat | bn < Blocks(u.nodes[inum].size) ensures BlockOf(u, inum, bn) != 0 {
      assert Place(t, At(inum, bn));
      if bn < Blocks(size) {
        assert BlockOf(s, inum, bn) != 0;
      } else {
        var k := bn * BSIZE;
        assert k / BSIZE == bn && size <= k < off + tot;
        assert BlockOf(t, inum, k / BSIZE) != 0;
      }
    }
  }

  lemma OtherFile(s: St, t: St, u: St, inum: nat, off: nat, src: seq<nat>, w: nat, n: nat)
    requires Inv(s) && Inv(u) && Wrote(s, t, inum, off, src, w) && n < |s.nodes| && n != inum
    requires u.blocks == t.blocks && |u.nodes| == |t.nodes| && u.nodes[n] == t.nodes[n]
    ensures File(u, n) == File(s, n)
  {
    hide UseOk, RefOk, Ref;
    assert NodeOk(s, n);
    var f, g := File(u, n), File(s, n);
    forall k | 0 <= k < |g| ensures f[k] == g[k] {
      assert BlockOf(s, n, k / BSIZE) != 0;
      SameNode(t, u, n, k);
    }
    assert f == g;
  }

  lemma SameNode(t: St, u: St, n: nat, k: nat)
    requires Shape(t) && Shape(u) && u.blocks == t.blocks && n < |t.nodes| == |u.nodes|
    requires u.nodes[n].addrs == t.nodes[n].addrs
    requires k < MAXFILE * BSIZE
    ensures ByteAt(u, n, k) == ByteAt(t, n, k)
  {
  }

  lemma SizedByte(s: St, t: St, u: St, inum: nat, off: nat, src: seq<nat>, w: nat, k: nat)
    requires Inv(s) && Shape(u) && Wrote(s, t, inum, off, src, w) && k < MAXFILE * BSIZE
    requires k < s.nodes[inum].size || off <= k < off + w
    requires u.blocks == t.blocks && |u.nodes| == |t.nodes| && u.nodes[inum].addrs == t.nodes[inum].addrs
    ensures ByteAt(u, inum, k) == if off <= k < off + w then src[k - off] else ByteAt(s, inum, k)
  {
    hide UseOk, RefOk, Ref;
    SameNode(t, u, inum, k);
    assert NodeOk(s, inum);
    if k < s.nodes[inum].size {
      assert BlockOf(s, inum, k / BSIZE) != 0;
    }
  }

  // Blocks touched by a write.

  ghost function Nonzero(b: nat): set<nat> { {b} - {0} }

  /** The blocks of a stretch of a file. */
  ghost function Stretch(s: St, inum: nat, lo: nat, hi: nat): set<nat>
    requires Shape(s) && inum < |s.nodes| && lo <= hi <= MAXFILE
    decreases hi
  {
    if lo == hi then {} else Stretch(s, inum, lo, hi - 1) + Nonzero(BlockOf(s, inum, hi - 1))
  }

  lemma {:induction false} StretchSize(s: St, inum: nat, lo: nat, hi: nat)
    requires Shape(s) && inum < |s.nodes| && lo <= hi <= MAXFILE
    ensures |Stretch(s, inum, lo, hi)| <= hi - lo
    decreases hi
  {
    hide BlockOf, Nonzero, Shape;
    if lo < hi {
      StretchSize(s, inum, lo, hi - 1);
      UnionSize(Stretch(s, inum, lo, hi - 1), Nonzero(BlockOf(s, inum, hi - 1)));
      NonzeroSize(BlockOf(s, inum, hi - 1));
    }
  }

  lemma NonzeroSize(b: nat)
    ensures |Nonzero(b)| <= 1
  {
    assert Nonzero(b) == if b == 0 then {} else {b};
  }

  lemma {:induction false} StretchKept(s: St, t: St, inum: nat, lo: nat, hi: nat)
    requires Shape(s) && Shape(t) && inum < |s.nodes| == |t.nodes| && lo <= hi <= MAXFILE
    requires forall bn: nat | bn < MAXFILE && BlockOf(s, inum, bn) != 0 :: BlockOf(t, inum, bn) == BlockOf(s, inum, bn)
    ensures Stretch(s, inum, lo, hi) <= Stretch(t, inum, lo, hi)
    decreases hi
  {
    hide BlockOf;
    if lo < hi {
      StretchKept(s, t, inum, lo, hi - 1);
      assert BlockOf(s, inum, hi - 1) != 0 ==> BlockOf(t, inum, hi - 1) == BlockOf(s, inum, hi - 1);
    }
  }

  lemma {:induction false} StretchMore(s: St, inum: nat, lo: nat, mid: nat, hi: nat)
    requires Shape(s) && inum < |s.nodes| && lo <= mid <= hi <= MAXFILE
    ensures Stretch(s, inum, lo, mid) <= Stretch(s, inum, lo, hi)
    ensures mid < hi ==> Nonzero(BlockOf(s, inum, hi - 1)) <= Stretch(s, inum, lo, hi)
    decreases hi
  {
    hide BlockOf;
    if mid < hi {
      StretchMore(s, inum, lo, mid, hi - 1);
    }
  }

  /** Writing bytes moves no block. */
  lemma PatchedRefs(t: St, u: St, inum: nat, bn: nat, o: nat, part: seq<nat>)
    requires Inv(t) && inum < |t.nodes| && bn < MAXFILE && o + |part| <= BSIZE && Patched(t, u, inum, bn, o, part)
    ensures Shape(u) && |u.nodes| == |t.nodes|
    ensures forall c: nat | c < MAXFILE :: BlockOf(u, inum, c) == BlockOf(t, inum, c)
  {
    hide UseOk, NodeOk, Ref, RefOk;
    var b := BlockOf(t, inum, bn);
    WriteDataInv(t, At(inum, bn), Patch(t.blocks[b], o, part));
    assert forall c: nat | c < MAXFILE :: Place(t, At(inum, c));
  }

  /** One past the last kilobyte of n bytes at off. */
  function End(off: nat, n: nat): nat { if n == 0 then off / BSIZE else (off + n - 1) / BSIZE + 1 }

  lemma EndStep(off: nat, tot: nat, m: nat, n: nat)
    requires tot < n && off + n <= MAXFILE * BSIZE && 0 < m <= BSIZE - (off + tot) % BSIZE
    ensures End(off, tot) <= (off + tot) / BSIZE + 1 == End(off, tot + m)
    ensures (off + tot) / BSIZE + 1 <= End(off, n) <= MAXFILE
    ensures off / BSIZE <= End(off, tot) && off / BSIZE <= (off + tot) / BSIZE
  {
    if tot > 0 {
      assert (off + tot - 1) / BSIZE <= (off + tot) / BSIZE;
    }
    SameBlock(off + tot, off + tot + m - 1, m);
  }

  /** Files after a write of src's first w bytes at off. */
  ghost predicate WroteFiles(s: St, t: St, inum: nat, off: nat, src: seq<nat>, w: nat) {
    && Inv(s) && Inv(t) && inum < |s.nodes| == |t.nodes| && w <= |src|
    && File(t, inum) == Overlay(File(s, inum), off, src, w, t.nodes[inum].size)
    && forall n: nat | n < |s.nodes| && n != inum :: File(t, n) == File(s, n)
  }

  lemma WroteNothing(s: St, inum: nat, off: nat, src: seq<nat>)
    requires Inv(s) && inum < |s.nodes|
    ensures WroteFiles(s, s, inum, off, src, 0)
  {
    hide ByteAt, UseOk, RefOk;
    assert NodeOk(s, inum);
    var f := File(s, inum);
    assert |f| == s.nodes[inum].size;
    var g := Overlay(f, off, src, 0, s.nodes[inum].size);
    assert forall k | 0 <= k < |f| :: f[k] == g[k];
    assert f == g;
  }
}
