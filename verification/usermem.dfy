/** Whole address spaces: freeing, copying, and the page tables of processes. */
module UserMem {
  import opened Params
  import opened Sets
  import opened PageTables
  import opened FreeTree
  import opened Spaces
  import opened Vm

  /** Frees the page-table pages of the subtree at k; every leaf entry below must be gone. */
  method Freewalk(m: Machine, ghost k: Key, pagetable: nat)
    requires m.Ok({}) && k in m.dir && m.dir[k] == pagetable && Bare(m.S(), k)
    modifies m
    ensures m.Ok({k}) && Freed(old(m.S()), m.S(), k) && m.failures == old(m.failures)
    decreases k.level, 1
  {
    hide FreeOk, NodesOk, Pte, Freed, FreedPart, Bare, MakePte, PteValid, PteFrame, IsLeaf, Under, Below, SameMap;
    ghost var s := m.S();
    NodeFacts(s, k);
    FreedNone(s, k, 0);
    SameMapSelf(s);
    for i := 0 to ENTRIES
      invariant m.Ok({}) && k in m.dir && m.dir[k] == pagetable && m.failures == old(m.failures)
      invariant FreedPart(s, m.S(), k, i) && SameMap(s, m.S()) && (k.level == 0 ==> m.S() == s)
    {
      BareSame(s, m.S(), k);
      BareEntry(m.S(), k, i);
      var pte := m.mem[pagetable].pte[i];
      if PteValid(pte) && !IsLeaf(pte) {
        ghost var t := m.S();
        ghost var u := FreeChild(m, k, i, pagetable, PteFrame(pte));
        FreedChild(s, t, u, m.S(), k, i);
        SameMapThrice(s, t, u, m.S());
      } else if PteValid(pte) {
        assert false;  // no "freewalk: leaf" panic
      } else if k.level > 0 {
        FreedSkip(s, m.S(), k, i);
      } else {
        FreedNone(s, k, i + 1);
      }
    }
    BareSame(s, m.S(), k);
    FreeNode(m, s, k, pagetable);
  }

  /** freewalk(child); pagetable[i] = 0. */
  method FreeChild(m: Machine, ghost k: Key, i: nat, pagetable: nat, child: nat) returns (ghost u: St)
    requires m.Ok({}) && k in m.dir && m.dir[k] == pagetable && Bare(m.S(), k)
    requires k.level > 0 && i < ENTRIES && Child(k, i) in m.dir && m.dir[Child(k, i)] == child
    modifies m
    ensures m.Ok({}) && k in m.dir && m.dir[k] == pagetable && m.failures == old(m.failures)
    ensures Freed(old(m.S()), u, Child(k, i)) && SameMap(old(m.S()), u) && SameMap(u, m.S())
    ensures k in u.dir && u.dir[k] == pagetable && m.owner == u.owner && m.dir == u.dir && m.mem.Keys == u.mem.Keys
    ensures forall g | g in u.mem && g != pagetable :: m.mem[g] == u.mem[g]
    decreases k.level, 0
  {
    hide FreeOk, NodesOk, Pte, Freed, Bare, SameMap;
    ghost var s := m.S();
    BareChild(s, k, i);
    Freewalk(m, Child(k, i), child);
    u := m.S();
    FreedKeeps(s, u, k, i);
    FreedMap(s, u, Child(k, i));
    DeadFacts(u, k, {Child(k, i)});
    ClearEntry(u, k, i);
    var p := Table(m.mem[pagetable].pte[i := 0]);
    UsedFrame(u, m.freelist, m.free, pagetable, p, m.owner[pagetable], m.dir);
    assert m.owner[pagetable := m.owner[pagetable]] == m.owner;
    m.mem := m.mem[pagetable := p];
  }

  /** kfree(pagetable), once its children are gone. */
  method FreeNode(m: Machine, ghost s: St, ghost k: Key, pagetable: nat)
    requires m.Ok({}) && k in m.dir && m.dir[k] == pagetable && NodesOk(s, {}) && k in s.dir && s.dir[k] == pagetable
    requires FreedPart(s, m.S(), k, ENTRIES) && Bare(m.S(), k)
    modifies m
    ensures m.Ok({k}) && Freed(s, m.S(), k) && m.failures == old(m.failures)
  {
    hide FreeOk, NodesOk, Pte, Freed, FreedPart, Bare, SameMap, Under, Below;
    ghost var t := m.S();
    NodeFacts(s, k);
    NodeFacts(t, k);
    if k.level > 0 {
      Childless(s, t, k);
    } else {
      ZeroNode(t, k);
    }
    DropNode(t, k);
    UsedFrame(t, m.freelist, m.free, pagetable, m.mem[pagetable], Kernel, m.dir - {k});
    assert m.mem[pagetable := m.mem[pagetable]] == m.mem;
    m.owner, m.dir := m.owner[pagetable := Kernel], m.dir - {k};
    ghost var u := m.S();
    m.Kfree(pagetable, {k});
    SameMapThrice(t, t, u, m.S()) by { SameMapSelf(t); }
    UpdateTwice(t.owner, pagetable, Kernel, Free);
    FreedWhole(s, t, m.S(), k, pagetable);
  }

  /** Frees the user pages of a page table, then its page-table pages. */
  method Uvmfree(m: Machine, root: nat, sz: nat)
    requires m.Valid() && Key(root, 2, 0) in m.dir && sz <= TRAPFRAME * PGSIZE
    requires forall v: nat | v >= Pages(sz) :: Pte(m.S(), root, v) == 0
    modifies m
    ensures m.Valid() && Local(old(m.S()), m.S(), root, 0) && Vacant(m.S(), root) && m.failures == old(m.failures)
  {
    hide FreeOk, NodesOk, LeavesOk, Pte, Unmapped, Freed, Local, Vacant, Bare, SameMap;
    ghost var s, k := m.S(), Key(root, 2, 0);
    NodeFacts(s, k);
    if sz > 0 {
      m.Uvmunmap(root, 0, Pages(sz), true);
    } else {
      UnmappedNone(s, root, 0, true);
    }
    ghost var t := m.S();
    Emptied(s, t, root, Pages(sz), k);
    Freewalk(m, k, root);
    RootGone(m.S(), k);
    TreeGone(t, m.S(), root);
    UnmappedLocal(s, t, root, 0, Pages(sz), true, 0);
    FreedLocal(t, m.S(), k, 0);
    LocalTwice(s, t, m.S(), root, 0);
  }

  lemma Emptied(s: St, t: St, root: nat, n: nat, k: Key)
    requires NodesOk(s, {}) && Unmapped(s, t, root, 0, n, true) && k == Key(root, 2, 0) && k in s.dir
    requires forall v: nat | v >= n :: Pte(s, root, v) == 0
    ensures Bare(t, k) && k in t.dir && t.dir[k] == root && forall v: nat :: Pte(t, root, v) == 0
  {
    hide Pte, EntryOk;
  }

  /** An empty user page table; 0 when out of memory. */
  method Uvmcreate(m: Machine) returns (r: nat)
    requires m.Valid()
    modifies m
    ensures m.Valid() && m.failures == old(m.failures) + (if r == 0 then 1 else 0) && (r == 0 <==> old(m.free) == [])
    ensures r != 0 ==> |m.free| == |old(m.free)| - 1 && m.dir.Keys == old(m.dir).Keys + {Key(r, 2, 0)}
    ensures if r == 0 then old(m.S()) == m.S()
            else Local(old(m.S()), m.S(), r, 0) && Vacant(old(m.S()), r) && Key(r, 2, 0) in m.dir
                 && forall v: nat :: Pte(m.S(), r, v) == 0
  {
    hide FreeOk, NodesOk, LeavesOk, Pte, Local, Vacant, SameMap;
    ghost var s := m.S();
    DirKeys(s);
    r := m.Kalloc({});
    if r == 0 {
      return;
    }
    ghost var t := m.S();
    LeavesSame(s, t);
    m.RootFrame(r);
    SameMapThrice(s, t, t, m.S()) by { SameMapSelf(t); }
    FreshRoot(s, m.S(), r);
  }

  lemma FreshRoot(s: St, t: St, r: nat)
    requires NodesOk(s, {}) && LeavesOk(s) && r in s.owner && s.owner[r].Free? && t.mem.Keys == s.mem.Keys
    requires SameMap(s, t)
    requires t.owner == s.owner[r := Node(Key(r, 2, 0))] && t.dir == s.dir[Key(r, 2, 0) := r]
    requires forall g | g in s.owner && g != r :: t.mem[g] == s.mem[g]
    ensures Local(s, t, r, 0) && Vacant(s, r) && forall v: nat :: Pte(t, r, v) == 0
  {
    hide LeavesOk, EntryOk, Pte, Local, Vacant;
    NoRoot(s, r);
    VacantRoot(s, r);
    NewRootLocal(s, t, r, 0);
  }

  /** Copies the pages below sz bytes of one page table into another; gives everything back on failure. */
  method Uvmcopy(m: Machine, old_: nat, new_: nat, sz: nat) returns (ok: bool)
    requires m.Valid() && Key(old_, 2, 0) in m.dir && Key(new_, 2, 0) in m.dir && old_ != new_
    requires sz <= TRAPFRAME * PGSIZE && forall v: nat | v < Pages(sz) :: Pte(m.S(), new_, v) == 0
    modifies m
    ensures m.Valid() && m.failures == old(m.failures) + (if ok then 0 else 1)
    ensures if ok then Placed(old(m.S()), m.S(), new_, CopyOf(old(m.S()), old_, Pages(sz)))
            else Grown(old(m.S()), m.S(), new_)
    ensures ok <==> |old(m.free)| >= CopyNeeds(old(m.S()), old_, new_, Pages(sz), old(m.dir).Keys)
  {
    hide FreeOk, NodesOk, LeavesOk, Pte, Placed, Grown, Machine.Ok, Copied, CopyOf, CopyNeeds;
    ghost var s, room := m.S(), |m.free|;
    m.SameKeys();
    CopiedNone(s, old_, new_, room);
    var i := 0;
    while i < sz
      invariant i % PGSIZE == 0 && i / PGSIZE <= Pages(sz) && m.failures == old(m.failures)
      invariant m.Valid() && Key(old_, 2, 0) in m.dir && Key(new_, 2, 0) in m.dir
      invariant Copied(s, m.S(), old_, new_, i / PGSIZE, room, |m.free|)
    {
      ok := CopyOne(m, old_, new_, i / PGSIZE, s, Pages(sz), room);
      if !ok {
        CopyUndo(m, old_, new_, i / PGSIZE, s);
        return;
      }
      i := i + PGSIZE;
    }
    CopiedFacts(s, m.S(), old_, new_, i / PGSIZE, room, |m.free|);
    return true;
  }

  /** The first v pages of old_ have been copied between s and t; there were `room` free frames, `left` are left. */
  ghost predicate Copied(s: St, t: St, old_: nat, new_: nat, v: nat, room: nat, left: nat) {
    && Placed(s, t, new_, CopyOf(s, old_, v))
    && Added(s.dir.Keys, room - MappedBelow(s, old_, v), CopyPaths(s, old_, new_, v), t.dir.Keys, left)
  }

  lemma CopiedNone(s: St, old_: nat, new_: nat, room: nat)
    requires s.mem.Keys == s.owner.Keys
    ensures Copied(s, s, old_, new_, 0, room, room)
  {
    hide Pte, Placed, Added, CopyOf, MappedBelow, CopyPaths, Path, PageOf;
    CopyPathsStep(s, old_, new_, 0);
    AddedNone(s.dir.Keys, room);
    assert CopyOf(s, old_, 0) == map[] by { CopyNext(s, old_, 0); }
    PlacedNone(s, new_);
  }

  lemma CopiedFacts(s: St, t: St, old_: nat, new_: nat, v: nat, room: nat, left: nat)
    requires Copied(s, t, old_, new_, v, room, left)
    ensures Placed(s, t, new_, CopyOf(s, old_, v)) && room >= CopyNeeds(s, old_, new_, v, s.dir.Keys)
    ensures old_ != new_ ==> Pte(t, old_, v) == Pte(s, old_, v)
    ensures Pte(t, new_, v) == Pte(s, new_, v) && forall k | k in s.dir :: k in t.dir
  {
    hide Pte, Placed, CopyOf, CopyPaths;
    PlacedElsewhere(s, t, new_, CopyOf(s, old_, v));
    CopyNext(s, old_, v);
  }

  /** One more page, which may be a hole. */
  lemma CopiedMore(s: St, t: St, u: St, old_: nat, new_: nat, v: nat, f: nat, room: nat, rest: nat, left: nat)
    requires LeavesOk(s) && old_ != new_ && v < TRAPFRAME && Copied(s, t, old_, new_, v, room, rest)
    requires PteValid(Pte(t, old_, v)) ==>
               PageOf(t, old_, v).perm < 1024
               && OnePage(t, u, new_, v, f, PageOf(t, old_, v).perm, PageOf(t, old_, v).data)
               && Added(t.dir.Keys, rest - 1, Path(new_, v), u.dir.Keys, left)
    requires !PteValid(Pte(t, old_, v)) ==> u == t && left == rest
    ensures Copied(s, u, old_, new_, v + 1, room, left)
  {
    hide LeavesOk, Pte, PteValid, Placed, OnePage, CopyOf, Added, MappedBelow, CopyPaths, Path, CopyNeeds, PageOf;
    CopiedFacts(s, t, old_, new_, v, room, rest);
    CopyNext(s, old_, v);
    CopyPathsStep(s, old_, new_, v);
    if PteValid(Pte(s, old_, v)) {
      PageStays(s, t, old_, new_, v, CopyOf(s, old_, v));
      PlacedMore(s, t, u, new_, CopyOf(s, old_, v), v, f, PageOf(s, old_, v));
      CountCopy(s, old_, new_, v, v + 1, s.dir.Keys, room, t.dir.Keys, rest, u.dir.Keys, left);
    } else {
      assert CopyPaths(s, old_, new_, v + 1) == CopyPaths(s, old_, new_, v);
    }
  }

  /** A page for which there are too few frames. */
  lemma CopiedShort(s: St, t: St, u: St, old_: nat, new_: nat, v: nat, n: nat, room: nat, rest: nat)
    requires old_ != new_ && v < n && Copied(s, t, old_, new_, v, room, rest) && Grown(t, u, new_)
    requires PteValid(Pte(t, old_, v)) && rest < 1 + |Path(new_, v) - t.dir.Keys|
    ensures Placed(s, u, new_, CopyOf(s, old_, v)) && room < CopyNeeds(s, old_, new_, n, s.dir.Keys)
  {
    hide Pte, PteValid, Placed, Grown, CopyOf, Added, MappedBelow, CopyPaths, Path, CopyNeeds;
    CopiedFacts(s, t, old_, new_, v, room, rest);
    PlacedGrown(s, t, u, new_, CopyOf(s, old_, v));
    CountCopy(s, old_, new_, v, n, s.dir.Keys, room, t.dir.Keys, rest, {}, 0);
  }

  /** One turn of uvmcopy's loop. */
  method CopyOne(m: Machine, old_: nat, new_: nat, v: nat, ghost s: St, ghost n: nat, ghost room: nat)
    returns (ok: bool)
    requires m.Valid() && Key(old_, 2, 0) in m.dir && Key(new_, 2, 0) in m.dir && LeavesOk(s)
    requires old_ != new_ && v < n <= TRAPFRAME && Pte(s, new_, v) == 0
    requires Copied(s, m.S(), old_, new_, v, room, |m.free|)
    modifies m
    ensures m.Valid() && Key(old_, 2, 0) in m.dir && Key(new_, 2, 0) in m.dir
    ensures m.failures == old(m.failures) + (if ok then 0 else 1)
    ensures ok ==> Copied(s, m.S(), old_, new_, v + 1, room, |m.free|)
    ensures !ok ==> Placed(s, m.S(), new_, CopyOf(s, old_, v)) && room < CopyNeeds(s, old_, new_, n, s.dir.Keys)
  {
    hide FreeOk, NodesOk, LeavesOk, Pte, PteValid, Placed, Grown, OnePage, Machine.Ok, Machine.Valid;
    hide Copied, CopyOf, Added, Path, CopyNeeds, PageOf;
    ghost var t, rest := m.S(), |m.free|;
    CopiedFacts(s, t, old_, new_, v, room, rest);
    var f;
    ok, f := CopyPage(m, old_, new_, v);
    if ok {
      CopiedMore(s, t, m.S(), old_, new_, v, f, room, rest, |m.free|);
    } else {
      CopiedShort(s, t, m.S(), old_, new_, v, n, room, rest);
    }
  }

  /** Pages placed in one address space leave the pages of the others alone. */
  lemma PageStays(s: St, t: St, old_: nat, new_: nat, v: nat, want: map<nat, Want>)
    requires LeavesOk(s) && v < TRAPFRAME && PteValid(Pte(s, old_, v))
    requires Placed(s, t, new_, want) && old_ != new_
    ensures PteValid(Pte(t, old_, v)) && PageOf(t, old_, v) == PageOf(s, old_, v) && PageOf(s, old_, v).perm < 1024
  {
    hide LeavesOk, Pte, PteFrame, PteFlags, PteValid;
    PageShape(s, old_, v);
    OddFlags(Pte(s, old_, v));
  }

  /** uvmunmap(new, 0, i / PGSIZE, 1) after a failure. */
  method CopyUndo(m: Machine, ghost old_: nat, new_: nat, n: nat, ghost s: St)
    requires m.Valid() && Key(new_, 2, 0) in m.dir && n <= TRAPFRAME
    requires Placed(s, m.S(), new_, CopyOf(s, old_, n)) && LeavesOk(s)
    requires forall v: nat | v < n :: Pte(s, new_, v) == 0
    modifies m
    ensures m.Valid() && Grown(s, m.S(), new_) && m.failures == old(m.failures)
  {
    hide FreeOk, NodesOk, LeavesOk, Pte, Placed, Grown, Unmapped, Machine.Ok, CopyOf;
    ghost var u := m.S();
    m.Uvmunmap(new_, 0, n, true);
    CopyKeys(s, old_, n);
    PlacedUndone(s, u, m.S(), new_, CopyOf(s, old_, n), 0, n);
  }

  lemma CopyKeys(s: St, root: nat, n: nat)
    ensures forall v | v in CopyOf(s, root, n) :: 0 <= v < n
  {
  }

  lemma DirKeys(s: St)
    requires NodesOk(s, {})
    ensures s.mem.Keys == s.owner.Keys
  {
  }

  /** The body of uvmcopy's loop: one page, which may be a hole. */
  method CopyPage(m: Machine, old_: nat, new_: nat, v: nat) returns (ok: bool, f: nat)
    requires m.Valid() && Key(old_, 2, 0) in m.dir && Key(new_, 2, 0) in m.dir && old_ != new_ && v < TRAPFRAME
    requires Pte(m.S(), new_, v) == 0
    modifies m
    ensures m.Valid() && Key(old_, 2, 0) in m.dir && Key(new_, 2, 0) in m.dir
    ensures m.failures == old(m.failures) + (if ok then 0 else 1)
    ensures !ok ==> Grown(old(m.S()), m.S(), new_)
    ensures PteValid(Pte(old(m.S()), old_, v)) ==> (ok <==> |old(m.free)| >= 1 + |Path(new_, v) - old(m.dir).Keys|)
    ensures PteValid(Pte(old(m.S()), old_, v)) && ok ==>
              Added(old(m.dir).Keys, |old(m.free)| - 1, Path(new_, v), m.dir.Keys, |m.free|)
    ensures PteValid(Pte(old(m.S()), old_, v)) ==>
              PageOf(old(m.S()), old_, v).perm < 1024
              && (ok ==> OnePage(old(m.S()), m.S(), new_, v, f,
                                 PageOf(old(m.S()), old_, v).perm, PageOf(old(m.S()), old_, v).data))
    ensures !PteValid(Pte(old(m.S()), old_, v)) ==> ok && m.free == old(m.free) && m.S() == old(m.S())
  {
    hide FreeOk, NodesOk, LeavesOk, Pte, Grown, OnePage, PteValid, PteFrame, PteFlags, Added, Path;
    ghost var s := m.S();
    DirKeys(s);
    NullEntry();
    var slot := m.Walk(old_, v, false);
    if slot == NoSlot {
      NoEntry(s, old_, v);
      return true, 0;
    }
    var e := m.ReadEntry(slot, old_, v);
    if !PteValid(e) {
      return true, 0;
    }
    OddFlags(e);
    PageShape(s, old_, v);
    f := m.AddPage(new_, v, m.mem[PteFrame(e)].data, PteFlags(e));
    return f != 0, f;
  }
}
