/** Emptying a file: which blocks are freed, one by one. */
module Truncate {
  import opened Params
  import opened Inodes
  import opened FileBytes

  /** u belongs to one of the first i slots or j indirect entries of a file. */
  predicate Done(u: Use, inum: nat, i: nat, j: nat) {
    match u
    case Slot(n, k) => n == inum && k < i
    case Entry(n, k) => n == inum && k < j
    case _ => false
  }

  /** own is was without the blocks of those slots and entries. */
  ghost predicate Less(was: seq<Use>, own: seq<Use>, inum: nat, i: nat, j: nat) {
    |own| == |was| && forall b | 0 <= b < |was| :: own[b] == if Done(was[b], inum, i, j) then Unused else was[b]
  }

  lemma SizeZero(s: St, inum: nat)
    requires Inv(s) && inum < |s.nodes|
    ensures Inv(WithSize(s, inum, 0)) && forall v | Place(s, v) :: Ref(WithSize(s, inum, 0), v) == Ref(s, v)
  {
    var t := WithSize(s, inum, 0);
    hide KindOk;
    assert forall v | Place(s, v) :: Ref(t, v) == Ref(s, v);
    forall v | Place(t, v) ensures RefOk(t, v) {
      assert RefOk(s, v);
    }
    forall b: nat | b < |t.own| ensures UseOk(t, b) {
      assert UseOk(s, b);
    }
    forall n: nat | n < |t.nodes| ensures NodeOk(t, n) {
      assert NodeOk(s, n);
      if n == inum {
        ZeroNode(s, t, n);
      } else {
        UnsizedNode(s, t, n);
      }
    }
  }

  lemma ZeroNode(s: St, t: St, n: nat)
    requires Shape(s) && Shape(t) && |t.nodes| == |s.nodes| && n < |s.nodes| && NodeOk(s, n)
    requires t.nodes[n] == s.nodes[n].(size := 0)
    requires forall v | Place(s, v) :: Ref(t, v) == Ref(s, v)
    ensures NodeOk(t, n)
  {
    hide Ref;
    SizeBlocks(0);
  }

  /** One slot below NDIRECT given back. */
  lemma DropSlot(s: St, t: St, inum: nat, i: nat)
    requires Inv(s) && inum < |s.nodes| && i < NDIRECT && s.nodes[inum].size == 0 && s.nodes[inum].addrs[i] != 0
    requires var b := s.nodes[inum].addrs[i];
      b < |s.own| && t == WithAddr(s, inum, i, 0).(bits := s.bits[b := false], own := s.own[b := Unused])
    ensures Inv(t)
  {
    hide NodeOk, RefOk;
    assert forall v | Place(s, v) :: Ref(t, v) == if v == Slot(inum, i) then 0 else Ref(s, v);
    forall c | 0 <= c < |s.own| ensures KindOk(s.own[c], t.blocks[c]) {
      assert UseOk(s, c);
    }
    Detach(s, t, Slot(inum, i));
  }

  /** The block at a place is the only one with that use. */
  lemma OnlyOne(s: St, u: Use)
    requires Inv(s) && Place(s, u)
    ensures Ref(s, u) != 0 ==> Ref(s, u) < |s.own| && s.own[Ref(s, u)] == u && s.bits[Ref(s, u)] && Ref(s, u) >= s.nmeta
    ensures forall b: nat | b < |s.own| && s.own[b] == u :: b == Ref(s, u) && b != 0
  {
    hide NodeOk;
    assert RefOk(s, u);
    if Ref(s, u) != 0 {
      assert UseOk(s, Ref(s, u));
    }
    assert UseOk(s, 0);
    forall b: nat | b < |s.own| && s.own[b] == u ensures b == Ref(s, u) && b != 0 {
      assert UseOk(s, b);
    }
  }

  /** The next slot or entry is done: its block is gone, or there was none. */
  lemma LessSlot(s: St, own: seq<Use>, own': seq<Use>, inum: nat, i: nat, j: nat)
    requires Inv(s) && inum < |s.nodes| && i <= NDIRECT && Less(s.own, own, inum, i, j)
    requires var b := Ref(s, Slot(inum, i)); if b == 0 then own' == own else b < |own| && own' == own[b := Unused]
    ensures Less(s.own, own', inum, i + 1, j)
  {
    hide Inv;
    OnlyOne(s, Slot(inum, i));
  }

  lemma LessEntry(s: St, own: seq<Use>, own': seq<Use>, inum: nat, i: nat, j: nat)
    requires Inv(s) && inum < |s.nodes| && j < NINDIRECT && Less(s.own, own, inum, i, j)
    requires var b := Ref(s, Entry(inum, j)); if b == 0 then own' == own else b < |own| && own' == own[b := Unused]
    ensures Less(s.own, own', inum, i, j + 1)
  {
    hide Inv;
    OnlyOne(s, Entry(inum, j));
  }

  /** w with its first j words zero. */
  function Cleared(w: seq<nat>, j: nat): (r: seq<nat>)
    ensures |r| == |w|
  {
    seq<nat>(|w|, k requires 0 <= k < |w| => if k < j then 0 else w[k])
  }

  /** s with the first j entries of a file's indirect block taken out. */
  function ClearedTo(s: St, inum: nat, j: nat): St
    requires Shape(s) && inum < |s.nodes|
    requires s.nodes[inum].addrs[NDIRECT] < |s.blocks| && IsIndex(s.blocks[s.nodes[inum].addrs[NDIRECT]])
  {
    var x := s.nodes[inum].addrs[NDIRECT];
    s.(blocks := s.blocks[x := Words(Cleared(WordsOf(s.blocks[x]), j))])
  }

  lemma ClearedNone(s: St, inum: nat)
    requires Inv(s) && inum < |s.nodes| && s.nodes[inum].addrs[NDIRECT] != 0
    ensures s.nodes[inum].addrs[NDIRECT] < |s.blocks| && IsIndex(s.blocks[s.nodes[inum].addrs[NDIRECT]])
    ensures Inv(ClearedTo(s, inum, 0))
  {
    hide NodeOk;
    IndirectBlock(s, inum);
    var x, t := s.nodes[inum].addrs[NDIRECT], ClearedTo(s, inum, 0);
    assert Cleared(WordsOf(s.blocks[x]), 0) == WordsOf(s.blocks[x]);
    forall v | Place(s, v) ensures Ref(t, v) == Ref(s, v) {
      if v.Entry? {
        assert RefOk(s, Slot(v.inum, NDIRECT));
      }
    }
    SameRefs(s, t);
  }

  /** Contents that mean the same, or that nobody uses, do not matter. */
  lemma SameRefs(s: St, t: St)
    requires Inv(s) && Shape(t) && t == s.(blocks := t.blocks)
    requires forall v | Place(s, v) :: Ref(t, v) == Ref(s, v)
    requires forall c | 0 <= c < |s.own| :: t.blocks[c] == s.blocks[c] || KindOk(s.own[c], t.blocks[c])
    ensures Inv(t)
  {
    hide Ref, KindOk;
    forall v | Place(t, v) ensures RefOk(t, v) {
      assert RefOk(s, v);
    }
    forall b: nat | b < |t.own| ensures UseOk(t, b) {
      assert UseOk(s, b);
    }
    forall n: nat | n < |t.nodes| ensures NodeOk(t, n) {
      NodeSame(s, t, n);
    }
  }

  /** The indirect block stays where it is while its entries are taken out. */
  ghost predicate HasIndirect(s: St, inum: nat) {
    && Shape(s) && inum < |s.nodes| && s.nodes[inum].addrs[NDIRECT] != 0 && s.nodes[inum].size == 0
    && s.nodes[inum].addrs[NDIRECT] < |s.blocks| && IsIndex(s.blocks[s.nodes[inum].addrs[NDIRECT]])
  }

  function Word(s: St, inum: nat, j: nat): nat
    requires HasIndirect(s, inum) && j < NINDIRECT
  {
    WordsOf(s.blocks[s.nodes[inum].addrs[NDIRECT]])[j]
  }

  lemma NextEntry(s: St, inum: nat, j: nat)
    requires HasIndirect(s, inum) && Inv(ClearedTo(s, inum, j)) && j < NINDIRECT
    ensures Ref(ClearedTo(s, inum, j), Entry(inum, j)) == Word(s, inum, j)
    ensures Word(s, inum, j) != 0 ==>
              Word(s, inum, j) < |s.own| && s.bits[Word(s, inum, j)] && Word(s, inum, j) != s.nodes[inum].addrs[NDIRECT]
  {
    hide Inv;
    var c := ClearedTo(s, inum, j);
    assert Ref(c, Entry(inum, j)) == Word(s, inum, j);
    OnlyOne(c, Entry(inum, j));
    OnlyOne(c, Slot(inum, NDIRECT));
  }

  lemma DropEntry(s: St, t: St, inum: nat, j: nat)
    requires HasIndirect(s, inum) && Inv(ClearedTo(s, inum, j)) && j < NINDIRECT
    requires var b := Word(s, inum, j);
      if b == 0 then t == s else b < |s.own| && t == s.(bits := s.bits[b := false], own := s.own[b := Unused])
    ensures HasIndirect(t, inum) && Inv(ClearedTo(t, inum, j + 1))
  {
    hide NodeOk, RefOk, UseOk, WordsOf, KindOk;
    NextEntry(s, inum, j);
    var c, d, w := ClearedTo(s, inum, j), ClearedTo(t, inum, j + 1), WordsOf(s.blocks[s.nodes[inum].addrs[NDIRECT]]);
    if w[j] == 0 {
      assert Cleared(w, j + 1) == Cleared(w, j);
    } else {
      EntryCleared(s, t, inum, j);
      KindsCleared(c, d, inum);
      Detach(c, d, Entry(inum, j));
    }
  }

  lemma EntryCleared(s: St, t: St, inum: nat, j: nat)
    requires HasIndirect(s, inum) && Inv(ClearedTo(s, inum, j)) && j < NINDIRECT
    requires t == s.(bits := t.bits, own := t.own)
    requires |t.bits| == |s.bits| && |t.own| == |s.own|
    ensures HasIndirect(t, inum) && Stored(ClearedTo(s, inum, j), ClearedTo(t, inum, j + 1), Entry(inum, j), 0)
  {
    hide NodeOk, UseOk;
    var c, d := ClearedTo(s, inum, j), ClearedTo(t, inum, j + 1);
    forall v | Place(c, v) ensures Ref(d, v) == if v == Entry(inum, j) then 0 else Ref(c, v) {
      if v.Entry? {
        assert RefOk(c, Slot(v.inum, NDIRECT)) && RefOk(c, Slot(inum, NDIRECT));
      }
    }
  }

  lemma KindsCleared(c: St, d: St, inum: nat)
    requires Inv(c) && inum < |c.nodes| && c.nodes[inum].addrs[NDIRECT] != 0 && |d.blocks| == |c.blocks|
    requires forall x | 0 <= x < |c.blocks| && x != c.nodes[inum].addrs[NDIRECT] :: d.blocks[x] == c.blocks[x]
    requires c.nodes[inum].addrs[NDIRECT] < |d.blocks| && IsIndex(d.blocks[c.nodes[inum].addrs[NDIRECT]])
    ensures forall x | 0 <= x < |c.own| :: KindOk(c.own[x], d.blocks[x])
  {
    hide NodeOk, RefOk;
    OnlyOne(c, Slot(inum, NDIRECT));
    forall x | 0 <= x < |c.own| ensures KindOk(c.own[x], d.blocks[x]) {
      assert UseOk(c, x);
    }
  }

  /** With its entries gone the indirect block goes too. */
  lemma DropIndirect(s: St, t: St, inum: nat)
    requires HasIndirect(s, inum) && Inv(ClearedTo(s, inum, NINDIRECT))
    requires var x := s.nodes[inum].addrs[NDIRECT];
      x < |s.own| && t == WithAddr(s, inum, NDIRECT, 0).(bits := s.bits[x := false], own := s.own[x := Unused])
    ensures Inv(t)
  {
    hide NodeOk, RefOk, UseOk, KindOk, WordsOf;
    var c := ClearedTo(s, inum, NINDIRECT);
    var d := t.(blocks := c.blocks);
    IndirectCleared(s, d, inum);
    KindsCleared(c, d, inum);
    Detach(c, d, Slot(inum, NDIRECT));
    IndirectGone(d, t, inum, s.nodes[inum].addrs[NDIRECT]);
  }

  lemma IndirectCleared(s: St, d: St, inum: nat)
    requires HasIndirect(s, inum) && Inv(ClearedTo(s, inum, NINDIRECT))
    requires d == WithAddr(ClearedTo(s, inum, NINDIRECT), inum, NDIRECT, 0).(bits := d.bits, own := d.own)
    requires |d.bits| == |s.bits| && |d.own| == |s.own|
    ensures Stored(ClearedTo(s, inum, NINDIRECT), d, Slot(inum, NDIRECT), 0)
    ensures Ref(ClearedTo(s, inum, NINDIRECT), Slot(inum, NDIRECT)) == s.nodes[inum].addrs[NDIRECT]
  {
    hide NodeOk, UseOk;
    var c := ClearedTo(s, inum, NINDIRECT);
    forall v | Place(c, v) ensures Ref(d, v) == if v == Slot(inum, NDIRECT) then 0 else Ref(c, v) {
      if v.Entry? {
        assert RefOk(c, Slot(v.inum, NDIRECT));
      }
    }
  }

  lemma IndirectGone(d: St, t: St, inum: nat, x: nat)
    requires Inv(d) && inum < |d.nodes| && d.nodes[inum].addrs[NDIRECT] == 0 && x < |d.own| && d.own[x].Unused?
    requires t == d.(blocks := t.blocks) && |t.blocks| == |d.blocks|
    requires forall c | 0 <= c < |d.blocks| && c != x :: t.blocks[c] == d.blocks[c]
    ensures Inv(t)
  {
    hide NodeOk, UseOk;
    forall v | Place(d, v) ensures Ref(t, v) == Ref(d, v) {
      if v.Entry? {
        assert RefOk(d, Slot(v.inum, NDIRECT));
      }
    }
    SameRefs(d, t);
  }

  /** A file with no blocks left has none anywhere. */
  lemma AllDone(s: St, own: seq<Use>, inum: nat)
    requires Inv(s) && inum < |s.nodes| && Less(s.own, own, inum, NDIRECT, 0) && s.nodes[inum].addrs[NDIRECT] == 0
    ensures Less(s.own, own, inum, NDIRECT + 1, NINDIRECT)
  {
    hide NodeOk, RefOk;
    assert UseOk(s, 0);
    forall b | 0 <= b < |s.own|
      ensures Done(s.own[b], inum, NDIRECT + 1, NINDIRECT) <==> Done(s.own[b], inum, NDIRECT, 0)
    {
      assert UseOk(s, b);
    }
  }

  /** The other files are as before. */
  lemma OthersKept(s: St, t: St, inum: nat, n: nat)
    requires Inv(s) && Inv(t) && inum < |s.nodes| && n < |s.nodes| && n != inum && t.blocks == s.blocks
    requires |t.nodes| == |s.nodes| && t.nodes == s.nodes[inum := t.nodes[inum]]
    ensures File(t, n) == File(s, n)
  {
    hide ByteAt;
    assert NodeOk(s, n);
    forall k | 0 <= k < |File(s, n)| ensures File(t, n)[k] == File(s, n)[k] {
      SameNode(s, t, n, k);
    }
  }

  /** A change to one inode alone leaves all other files as they were. */
  lemma OtherFiles(s: St, t: St, inum: nat)
    requires Inv(s) && Inv(t) && inum < |s.nodes| && t.blocks == s.blocks
    requires |t.nodes| == |s.nodes| && t.nodes == s.nodes[inum := t.nodes[inum]]
    ensures forall n: nat | n < |s.nodes| && n != inum :: File(t, n) == File(s, n)
  {
    hide Inv, File;
    forall n: nat | n < |s.nodes| && n != inum ensures File(t, n) == File(s, n) {
      OthersKept(s, t, inum, n);
    }
  }
}
