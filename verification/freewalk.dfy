/** Taking a page-table tree apart. */
module FreeTree {
  import opened Params
  import opened PageTables

  /** c is k or a page-table page in the subtree of k. */
  predicate Below(c: Key, k: Key) {
    c.root == k.root && c.level <= k.level && Up(c.prefix, k.level - c.level) == k.prefix
  }

  /** c is in the subtree of one of the first i children of k. */
  predicate Under(c: Key, k: Key, i: nat) {
    && c.root == k.root && c.level < k.level && Up(c.prefix, k.level - c.level) == k.prefix
    && Up(c.prefix, k.level - 1 - c.level) < k.prefix * ENTRIES + i
  }

  lemma UnderNext(c: Key, k: Key, i: nat)
    requires k.level > 0 && i < ENTRIES
    ensures Under(c, k, i + 1) <==> Under(c, k, i) || Below(c, Child(k, i))
    ensures !Under(c, k, 0) && !Under(k, k, i) && !(Under(c, k, i) && Below(c, Child(k, i)))
  {
    if c.level < k.level {
      assert Up(c.prefix, k.level - c.level) == Up(c.prefix, k.level - 1 - c.level) / ENTRIES;
    }
  }

  lemma UnderAll(c: Key, k: Key)
    ensures Below(c, k) <==> c == k || Under(c, k, ENTRIES)
  {
    if c.level < k.level {
      assert Up(c.prefix, k.level - c.level) == Up(c.prefix, k.level - 1 - c.level) / ENTRIES;
    }
  }

  /** No page has an entry in the subtree of k. */
  ghost predicate Bare(s: St, k: Key) {
    forall v: nat | Below(Key(k.root, 0, v / ENTRIES), k) :: Pte(s, k.root, v) == 0
  }

  /** t is s with the subtree of k returned to the free list. */
  ghost predicate Freed(s: St, t: St, k: Key) {
    && s.mem.Keys == s.owner.Keys == t.owner.Keys == t.mem.Keys
    && (forall c :: c in t.dir <==> c in s.dir && !Below(c, k))
    && (forall c | c in t.dir :: t.dir[c] == s.dir[c])
    && (forall g | g in s.owner ::
          t.owner[g] == if s.owner[g].Node? && Below(s.owner[g].key, k) then Free else s.owner[g])
    && (forall g | g in t.owner && !t.owner[g].Free? :: t.mem[g] == s.mem[g])
    && SameMap(s, t)
  }

  /** The same for the first i children of k only, whose entries are cleared. */
  ghost predicate FreedPart(s: St, t: St, k: Key, i: nat) {
    && s.mem.Keys == s.owner.Keys == t.owner.Keys == t.mem.Keys && k in s.dir && s.dir[k] in s.mem
    && (forall c :: c in t.dir <==> c in s.dir && !Under(c, k, i))
    && (forall c | c in t.dir :: t.dir[c] == s.dir[c])
    && (forall g | g in s.owner ::
          t.owner[g] == if s.owner[g].Node? && Under(s.owner[g].key, k, i) then Free else s.owner[g])
    && (forall g | g in t.owner && !t.owner[g].Free? && g != s.dir[k] :: t.mem[g] == s.mem[g])
    && SameMap(s, t)
  }

  /** A node whose children are gone leaves the tree; its parent's entry dangles for now. */
  lemma DropNode(s: St, k: Key)
    requires NodesOk(s, {}) && k in s.dir && (forall c | c in s.dir && c.level < 2 :: Parent(c) != k)
    requires k.level == 0 ==> forall i: nat | i < ENTRIES :: s.mem[s.dir[k]].pte[i] == 0
    ensures var t := St(s.mem, s.owner[s.dir[k] := Kernel], s.dir - {k}); NodesOk(t, {k}) && SameMap(s, t)
  {
    var t := St(s.mem, s.owner[s.dir[k] := Kernel], s.dir - {k});
    forall c, i: nat | c in t.dir && i < ENTRIES ensures EntryOk(t, {k}, c, i) {
      assert EntryOk(s, {}, c, i);
    }
    forall r: nat, v: nat ensures Pte(t, r, v) == Pte(s, r, v) {
    }
  }

  /** Clearing the entry that dangled. */
  lemma ClearEntry(s: St, k: Key, i: nat)
    requires k.level > 0 && i < ENTRIES && NodesOk(s, {Child(k, i)}) && k in s.dir
    ensures var t := s.(mem := s.mem[s.dir[k] := Table(s.mem[s.dir[k]].pte[i := 0])]); NodesOk(t, {}) && SameMap(s, t)
  {
    var t := s.(mem := s.mem[s.dir[k] := Table(s.mem[s.dir[k]].pte[i := 0])]);
    ParentEntry(k, i);
    forall c, j: nat | c in t.dir && j < ENTRIES ensures EntryOk(t, {}, c, j) {
      assert EntryOk(s, {Child(k, i)}, c, j);
    }
    forall r: nat, v: nat ensures Pte(t, r, v) == Pte(s, r, v) {
    }
  }

  /** The root's entry in no page: nothing dangles. */
  lemma RootGone(s: St, k: Key)
    requires NodesOk(s, {k}) && k.level == 2
    ensures NodesOk(s, {})
  {
    forall c, i: nat | c in s.dir && i < ENTRIES ensures EntryOk(s, {}, c, i) {
      assert EntryOk(s, {k}, c, i);
    }
  }

  lemma FreedNone(s: St, k: Key, i: nat)
    requires NodesOk(s, {}) && k in s.dir && (i == 0 || k.level == 0)
    ensures FreedPart(s, s, k, i)
  {
    forall c ensures !Under(c, k, i) {
      if k.level > 0 {
        UnderNext(c, k, 0);
      }
    }
  }

  lemma NodeFacts(s: St, k: Key)
    requires NodesOk(s, {}) && k in s.dir
    ensures k.level <= 2 && s.mem.Keys == s.owner.Keys && s.dir[k] in s.mem && s.owner[s.dir[k]] == Node(k)
    ensures s.mem[s.dir[k]].Table? && |s.mem[s.dir[k]].pte| == ENTRIES
    ensures forall g | g in s.owner && s.owner[g] == Node(k) :: g == s.dir[k]
  {
  }

  /** Entries of a bare subtree: none at level 0, pointers to children above. */
  lemma BareEntry(s: St, k: Key, i: nat)
    requires NodesOk(s, {}) && k in s.dir && i < ENTRIES && Bare(s, k)
    ensures s.dir[k] in s.mem && s.mem[s.dir[k]].Table? && |s.mem[s.dir[k]].pte| == ENTRIES
    ensures var e := s.mem[s.dir[k]].pte[i];
            && (k.level == 0 ==> e == 0)
            && (PteValid(e) ==> !IsLeaf(e) && k.level > 0 && Child(k, i) in s.dir && s.dir[Child(k, i)] == PteFrame(e))
            && (k.level > 0 && !PteValid(e) ==> Child(k, i) !in s.dir)
  {
    assert EntryOk(s, {}, k, i);
    if k.level == 0 {
      var v := k.prefix * ENTRIES + i;
      assert v / ENTRIES == k.prefix && Below(Key(k.root, 0, v / ENTRIES), k);
      assert Pte(s, k.root, v) == 0;
    } else if Child(k, i) in s.dir {
      PteFields(s.dir[Child(k, i)], 0);
    }
  }

  lemma BareChild(s: St, k: Key, i: nat)
    requires Bare(s, k) && k.level > 0 && i < ENTRIES
    ensures Bare(s, Child(k, i))
  {
    hide Pte, Below, Under;
    forall v: nat | Below(Key(k.root, 0, v / ENTRIES), Child(k, i)) ensures Pte(s, k.root, v) == 0 {
      var c := Key(k.root, 0, v / ENTRIES);
      UnderNext(c, k, i);
      UnderMore(c, k, i + 1);
      UnderAll(c, k);
      assert Pte(s, k.root, v) == 0;
    }
  }

  lemma BareSame(s: St, t: St, k: Key)
    requires Bare(s, k) && SameMap(s, t)
    ensures Bare(t, k)
  {
  }

  lemma UnderMore(c: Key, k: Key, i: nat)
    requires Under(c, k, i) && i <= ENTRIES
    ensures Under(c, k, ENTRIES)
  {
  }

  lemma FreedKeeps(s: St, t: St, k: Key, i: nat)
    requires k.level > 0 && i < ENTRIES && k in s.dir && Freed(s, t, Child(k, i))
    ensures k in t.dir && t.dir[k] == s.dir[k]
  {
  }

  lemma FreedChild(s: St, t: St, u: St, w: St, k: Key, i: nat)
    requires k.level > 0 && i < ENTRIES && FreedPart(s, t, k, i) && Freed(t, u, Child(k, i))
    requires k in u.dir && u.dir[k] == s.dir[k]
    requires w.owner == u.owner && w.dir == u.dir && w.mem.Keys == u.mem.Keys && SameMap(u, w)
    requires forall g | g in u.mem && g != s.dir[k] :: w.mem[g] == u.mem[g]
    ensures FreedPart(s, w, k, i + 1)
  {
    hide Pte, EntryOk, SameMap, Under, Below, Up, NodesOk;
    SameMapThrice(s, t, u, w);
    forall c ensures c in w.dir <==> c in s.dir && !Under(c, k, i + 1) {
      UnderNext(c, k, i);
    }
    forall g | g in s.owner
      ensures w.owner[g] == if s.owner[g].Node? && Under(s.owner[g].key, k, i + 1) then Free else s.owner[g]
    {
      if s.owner[g].Node? {
        UnderNext(s.owner[g].key, k, i);
      }
    }
  }

  /** No child at entry i: nothing to do. */
  lemma FreedSkip(s: St, t: St, k: Key, i: nat)
    requires k.level > 0 && i < ENTRIES && FreedPart(s, t, k, i) && NodesOk(s, {}) && NodesOk(t, {})
    requires Child(k, i) !in t.dir
    ensures FreedPart(s, t, k, i + 1)
  {
    hide Pte, EntryOk, SameMap, Under, Below, Up, NodesOk;
    forall c: Key ensures c in s.dir ==> (Under(c, k, i + 1) <==> Under(c, k, i)) {
      UnderNext(c, k, i);
      if c in s.dir {
        UnderSame(s, t, c, k, i);
      }
    }
    forall g | g in s.owner && s.owner[g].Node? ensures s.owner[g].key in s.dir {
      OwnerNode(s, g);
    }
  }

  lemma UnderSame(s: St, t: St, c: Key, k: Key, i: nat)
    requires k.level > 0 && i < ENTRIES && FreedPart(s, t, k, i) && NodesOk(s, {}) && NodesOk(t, {})
    requires Child(k, i) !in t.dir && c in s.dir
    ensures Below(c, Child(k, i)) ==> Under(c, k, i)
  {
    hide Pte, EntryOk, SameMap, Under, Below, Up;
    if c in t.dir && Below(c, Child(k, i)) {
      Climb(t, c, Child(k, i));
    }
  }

  lemma OwnerNode(s: St, g: nat)
    requires NodesOk(s, {}) && g in s.owner && s.owner[g].Node?
    ensures s.owner[g].key in s.dir
  {
  }

  /** Every ancestor of a node is in the tree. */
  lemma {:induction false} Climb(s: St, c: Key, k: Key)
    requires NodesOk(s, {}) && c in s.dir && Below(c, k) && k.level <= 2
    ensures k in s.dir
    decreases k.level - c.level
  {
    if c.level < k.level {
      UpUp(c.prefix, k.level - c.level);
      Climb(s, Parent(c), k);
    }
  }

  lemma {:induction false} UpUp(p: nat, n: nat)
    requires n > 0
    ensures Up(p, n) == Up(p / ENTRIES, n - 1)
  {
    if n > 1 {
      UpUp(p, n - 1);
    }
  }

  lemma FreedWhole(s: St, t: St, w: St, k: Key, f: nat)
    requires FreedPart(s, t, k, ENTRIES) && f == s.dir[k] && f in s.owner && s.owner[f] == Node(k)
    requires forall g | g in s.owner && s.owner[g] == Node(k) :: g == f
    requires w.mem.Keys == t.mem.Keys && w.owner == t.owner[f := Free] && w.dir == t.dir - {k} && SameMap(t, w)
    requires forall g | g in t.mem && g != f :: w.mem[g] == t.mem[g]
    ensures Freed(s, w, k)
  {
    hide Pte, EntryOk, SameMap, Under, Below, Up;
    SameMapThrice(s, t, t, w) by { SameMapSelf(t); }
    forall c ensures c in w.dir <==> c in s.dir && !Below(c, k) {
      UnderAll(c, k);
    }
    forall g | g in s.owner
      ensures w.owner[g] == if s.owner[g].Node? && Below(s.owner[g].key, k) then Free else s.owner[g]
    {
      if s.owner[g].Node? {
        UnderAll(s.owner[g].key, k);
      } 
    }
  }

  lemma SameMapSelf(s: St)
    ensures SameMap(s, s)
  {
  }

  /** With the children gone nobody has k as parent. */
  lemma Childless(s: St, t: St, k: Key)
    requires NodesOk(s, {}) && NodesOk(t, {}) && k.level > 0 && k.level <= 2 && FreedPart(s, t, k, ENTRIES)
    ensures k in t.dir && forall c | c in t.dir && c.level < 2 :: Parent(c) != k
  {
    hide Pte, EntryOk, SameMap;
    UnderNext(k, k, 0);
    assert !Under(k, k, ENTRIES);
    forall c | c in t.dir && c.level < 2 ensures Parent(c) != k {
      if Parent(c) == k {
        UpUp(c.prefix, 1);
        UnderAll(c, k);
      }
    }
  }

  lemma FreedMap(s: St, t: St, k: Key)
    requires Freed(s, t, k)
    ensures SameMap(s, t)
  {
  }

  lemma DeadFacts(s: St, k: Key, dead: set<Key>)
    requires NodesOk(s, dead) && k in s.dir
    ensures s.mem.Keys == s.owner.Keys && s.dir[k] in s.mem && s.owner[s.dir[k]] == Node(k)
    ensures s.mem[s.dir[k]].Table? && |s.mem[s.dir[k]].pte| == ENTRIES
  {
  }

  /** A bare level-0 page is all zero and nobody's parent. */
  lemma ZeroNode(s: St, k: Key)
    requires NodesOk(s, {}) && k in s.dir && k.level == 0 && Bare(s, k)
    ensures s.dir[k] in s.mem && s.mem[s.dir[k]].Table? && |s.mem[s.dir[k]].pte| == ENTRIES
    ensures forall i: nat | i < ENTRIES :: s.mem[s.dir[k]].pte[i] == 0
    ensures forall c: Key | c in s.dir && c.level < 2 :: Parent(c) != k
  {
    forall i: nat | i < ENTRIES ensures s.mem[s.dir[k]].pte[i] == 0 {
      BareEntry(s, k, i);
    }
  }
}
