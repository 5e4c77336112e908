/** The frame allocator and the page-table code, on a machine's physical memory. */
module Vm {
  import opened Params
  import opened Sets
  import opened PageTables
  import opened FreeTree
  import opened Spaces

  datatype Slot = NoSlot | Slot(frame: nat, index: nat)

  class Machine {
    var mem: map<nat, Page>        // managed physical pages
    var freelist: nat              // kmem.freelist
    ghost var owner: map<nat, Owner>
    ghost var free: seq<nat>       // the free list, first page first
    ghost var dir: map<Key, nat>   // every page-table page, by position
    ghost var failures: nat        // calls of kalloc that found no free page

    ghost function S(): St
      reads this
    {
      St(mem, owner, dir)
    }

    /** The allocator's list and all page-table trees are in order; entries to pages in `dead` may dangle. */
    ghost predicate Ok(dead: set<Key>)
      reads this
    {
      FreeOk(S(), freelist, free) && NodesOk(S(), dead)
    }

    /** Besides, every user page is owned by the one entry that maps it. */
    ghost predicate Valid()
      reads this
    {
      Ok({}) && LeavesOk(S())
    }

    /** kinit and freerange: every managed frame, lo up to hi, is put on the free list. */
    constructor (lo: nat, hi: nat)
      requires 0 < lo <= hi
      ensures Valid() && |free| == hi - lo && forall f: nat :: f in owner <==> lo <= f < hi
      ensures forall f | f in owner :: owner[f] == Free
    {
      hide FreeOk, NodesOk, LeavesOk, Pte;
      mem := map f: nat | lo <= f < hi :: Junk(f);
      owner := map f: nat | lo <= f < hi :: Unclaimed(f);
      dir, free, freelist, failures := map[], [], 0, 0;
      new;
      Start(S());
      for f := lo to hi
        invariant Ok({}) && dir == map[] && |free| == f - lo
        invariant forall g: nat :: g in owner <==> lo <= g < hi
        invariant forall g | g in owner :: owner[g] == if g < f then Free else Kernel
      {
        Kfree(f, {});
      }
      NoTables(S());
    }

    lemma Start(s: St)
      requires s.mem.Keys == s.owner.Keys && 0 !in s.mem && s.dir == map[]
      requires forall f | f in s.owner :: s.owner[f].Kernel?
      ensures FreeOk(s, 0, []) && NodesOk(s, {})
    {
    }

    lemma NoTables(s: St)
      requires NodesOk(s, {}) && s.dir == map[] && forall f | f in s.owner :: s.owner[f].Free?
      ensures LeavesOk(s)
    {
      NullEntry();
    }

    static function Junk(f: nat): Page { Bytes([]) }
    static function Unclaimed(f: nat): Owner { Kernel }

    method Kalloc(ghost dead: set<Key>) returns (r: nat)
      requires Ok(dead)
      modifies this`mem, this`freelist, this`owner, this`free, this`failures
      ensures Ok(dead) && SameMap(old(S()), S())
      ensures (r == 0 <==> old(free) == []) && failures == old(failures) + (if r == 0 then 1 else 0)
      ensures if r == 0 then S() == old(S()) && free == old(free) && freelist == old(freelist)
              else r in old(owner) && old(owner[r]).Free? && owner == old(owner)[r := Kernel]
                   && mem == old(mem)[r := Bytes(seq(PGSIZE, _ => 5))] && free == old(free)[1..]
    {
      hide NodesOk, Pte;
      r := freelist;
      if r != 0 {
        assert free != [];
        PopFree(S(), freelist, free, Bytes(seq(PGSIZE, _ => 5)));
        OtherFrame(S(), dead, r, Bytes(seq(PGSIZE, _ => 5)), Kernel);
        freelist := mem[r].next;
        mem := mem[r := Bytes(seq(PGSIZE, _ => 5))];
        owner, free := owner[r := Kernel], free[1..];
      } else {
        failures := failures + 1;
      }
    }

    method Kfree(f: nat, ghost dead: set<Key>)
      requires Ok(dead) && f in owner && (owner[f].Kernel? || owner[f].Leaf?)
      modifies this`mem, this`freelist, this`owner, this`free
      ensures Ok(dead) && SameMap(old(S()), S())
      ensures owner == old(owner)[f := Free] && free == [f] + old(free) && freelist == f
      ensures mem == old(mem)[f := Run(old(freelist))]
    {
      hide NodesOk, FreeOk, Pte;
      PushFree(S(), freelist, free, f);
      OtherFrame(S(), dead, f, Run(freelist), Free);
      UpdateTwice(mem, f, Bytes(seq(PGSIZE, _ => 1)), Run(freelist));
      mem := mem[f := Bytes(seq(PGSIZE, _ => 1))];
      mem := mem[f := Run(freelist)];
      freelist := f;
      owner, free := owner[f := Free], [f] + free;
    }

    /** A new, empty page-table page as the child at entry i of node k. */
    method NewNode(ghost k: Key, pagetable: nat, i: nat) returns (r: nat)
      requires Ok({}) && k in dir && dir[k] == pagetable && k.level > 0 && i < ENTRIES && Child(k, i) !in dir
      modifies this
      ensures Ok({}) && Grown(old(S()), S(), k.root)
      ensures failures == old(failures) + (if r == 0 then 1 else 0) && (r == 0 <==> old(free) == [])
      ensures if r == 0 then S() == old(S()) && free == old(free)
              else dir == old(dir)[Child(k, i) := r] && |free| == |old(free)| - 1
    {
      hide FreeOk, NodesOk, Grown, Pte;
      StepDown(k, i);
      NotGrown(S(), k.root);
      ghost var s := S();
      r := Kalloc({});
      if r != 0 {
        NodeGrown(s, k, i, r);
        UpdateTwice(s.mem, r, mem[r], Table(Zeros(ENTRIES)));
        UpdateTwice(s.owner, r, Kernel, Node(Child(k, i)));
        ghost var dir' := dir[Child(k, i) := r];
        UsedFrame(S(), freelist, free, r, Table(Zeros(ENTRIES)), Node(Child(k, i)), dir');
        mem := mem[r := Table(Zeros(ENTRIES))];
        owner, dir := owner[r := Node(Child(k, i))], dir';
        UsedFrame(S(), freelist, free, pagetable, Table(mem[pagetable].pte[i := MakePte(r, 0)]), owner[pagetable], dir);
        assert owner[pagetable := owner[pagetable]] == owner;
        mem := mem[pagetable := Table(mem[pagetable].pte[i := MakePte(r, 0)])];
      }
    }

    /** An entry above level 0 is valid exactly when the child exists, and then points at it. */
    lemma StepDown(k: Key, i: nat)
      requires Ok({}) && k in dir && i < ENTRIES
      ensures mem.Keys == owner.Keys && dir[k] in mem && owner[dir[k]] == Node(k) && (k.level == 2 ==> dir[k] == k.root)
      ensures mem[dir[k]].Table? && |mem[dir[k]].pte| == ENTRIES
      ensures k.level > 0 ==> var e := mem[dir[k]].pte[i];
                (PteValid(e) <==> Child(k, i) in dir) && (PteValid(e) ==> PteFrame(e) == dir[Child(k, i)])
    {
      hide FreeOk, MakePte, PteValid, PteFrame;
      assert EntryOk(S(), {}, k, i);
      if k.level > 0 && Child(k, i) in dir {
        PteFields(dir[Child(k, i)], 0);
      } else {
        NullEntry();
      }
    }

    /** The slot of the level-0 entry for a page, making page-table pages on the way if alloc. */
    method Walk(root: nat, vpn: nat, alloc: bool) returns (s: Slot)
      requires Ok({}) && Key(root, 2, 0) in dir && vpn < MAXVPN
      modifies this
      ensures Ok({}) && Grown(old(S()), S(), root)
      ensures !alloc ==> unchanged(this) && (s.Slot? <==> Key(root, 0, vpn / ENTRIES) in dir)
      ensures s.Slot? ==>
                Key(root, 0, vpn / ENTRIES) in dir && s == Slot(dir[Key(root, 0, vpn / ENTRIES)], vpn % ENTRIES)
      ensures failures == old(failures) + (if alloc && s.NoSlot? then 1 else 0)
      ensures alloc ==> (s.Slot? <==> |old(free)| >= |Path(root, vpn) - old(dir).Keys|)
      ensures alloc && s.Slot? ==> Added(old(dir).Keys, |old(free)|, Path(root, vpn), dir.Keys, |free|)
    {
      hide FreeOk, NodesOk, Grown, Up, PX, Added, Path, Above;
      UpTop(vpn);
      StepDown(Key(root, 2, 0), 0);
      NotGrown(S(), root);
      var pagetable, level := root, 2;
      ghost var keys, room := dir.Keys, |free|;
      AddedNone(keys, room);
      PathSteps(root, vpn);
      while level > 0
        invariant 0 <= level <= 2 && Ok({}) && Grown(old(S()), S(), root)
        invariant Key(root, level, Up(vpn, level + 1)) in dir && dir[Key(root, level, Up(vpn, level + 1))] == pagetable
        invariant !alloc ==> unchanged(this)
        invariant failures == old(failures) && Added(keys, room, Above(root, vpn, level), dir.Keys, |free|)
      {
        ghost var k, c := Key(root, level, Up(vpn, level + 1)), Key(root, level - 1, Up(vpn, level));
        UpSplit(vpn, level);
        assert Child(k, PX(level, vpn)) == c;
        ghost var t, mid, rest := S(), dir.Keys, |free|;
        var r := StepWalk(k, pagetable, PX(level, vpn), alloc);
        if r == 0 {
          if !alloc && Key(root, 0, vpn / ENTRIES) in dir {
            Ancestors(S(), root, vpn);
          }
          if alloc {
            AddedShort(keys, room, Above(root, vpn, level), mid, rest, {c}, Path(root, vpn));
          }
          return NoSlot;
        }
        GrownTwice(old(S()), t, S(), root);
        AddedTwice(keys, room, Above(root, vpn, level), mid, rest, {c}, dir.Keys, |free|);
        pagetable := r;
        level := level - 1;
      }
      Enough(keys, room, Path(root, vpn), dir.Keys, |free|);
      return Slot(pagetable, PX(0, vpn));
    }

    /** The body of walk's loop: the child page, made if there is none and alloc. */
    method StepWalk(ghost k: Key, pagetable: nat, i: nat, alloc: bool) returns (r: nat)
      requires Ok({}) && k in dir && dir[k] == pagetable && k.level > 0 && i < ENTRIES
      modifies this
      ensures Ok({}) && Grown(old(S()), S(), k.root) && (!alloc ==> unchanged(this))
      ensures failures == old(failures) + (if alloc && r == 0 then 1 else 0)
      ensures if r == 0 then && Child(k, i) !in dir && S() == old(S())
                             && (alloc ==> |old(free)| < |{Child(k, i)} - old(dir).Keys|)
              else && Child(k, i) in dir && dir[Child(k, i)] == r
                   && Added(old(dir).Keys, |old(free)|, {Child(k, i)}, dir.Keys, |free|)
    {
      hide FreeOk, NodesOk, Grown, MakePte, PteValid, PteFrame, Added;
      StepDown(k, i);
      NotGrown(S(), k.root);
      AddedOne(dir.Keys, |free|, Child(k, i));
      var e := mem[pagetable].pte[i];
      if PteValid(e) {
        NotNull();
        return PteFrame(e);
      }
      if !alloc {
        return 0;
      }
      r := NewNode(k, pagetable, i);
      assert r != 0 ==> dir.Keys == old(dir).Keys + {Child(k, i)};
    }

    lemma NotNull()
      requires Ok({})
      ensures forall k | k in dir :: dir[k] != 0
    {
    }

    lemma Enough(was: set<Key>, room: nat, more: set<Key>, now: set<Key>, left: nat)
      ensures Added(was, room, more, now, left) ==> room >= |more - was|
    {
    }

    /** Writes the level-0 entry in a slot found by Walk. */
    method WriteEntry(s: Slot, ghost root: nat, ghost vpn: nat, e: nat)
      requires Ok({}) && Key(root, 0, vpn / ENTRIES) in dir
      requires s == Slot(dir[Key(root, 0, vpn / ENTRIES)], vpn % ENTRIES) && (e == 0 || (PteValid(e) && IsLeaf(e)))
      modifies this`mem
      ensures Ok({}) && Kept(old(S()), S(), root)
      ensures forall r: nat, v: nat :: Pte(S(), r, v) == if r == root && v == vpn then e else old(Pte(S(), r, v))
    {
      hide FreeOk, NodesOk, Kept, Pte;
      ghost var k := Key(root, 0, vpn / ENTRIES);
      StepDown(k, vpn % ENTRIES);
      var p := Table(mem[s.frame].pte[s.index := e]);
      SetEntry(S(), root, vpn, e);
      EntryKept(S(), root, k, p);
      UsedFrame(S(), freelist, free, s.frame, p, owner[s.frame], dir);
      assert owner[s.frame := owner[s.frame]] == owner;
      mem := mem[s.frame := p];
    }

    /** Reads the level-0 entry in a slot found by Walk. */
    method ReadEntry(s: Slot, ghost root: nat, ghost vpn: nat) returns (e: nat)
      requires Ok({}) && Key(root, 0, vpn / ENTRIES) in dir
      requires s == Slot(dir[Key(root, 0, vpn / ENTRIES)], vpn % ENTRIES)
      ensures e == Pte(S(), root, vpn) && (e == 0 || (PteValid(e) && IsLeaf(e)))
    {
      hide FreeOk, NodesOk;
      StepDown(Key(root, 0, vpn / ENTRIES), vpn % ENTRIES);
      EntryAt(S(), Key(root, 0, vpn / ENTRIES), vpn % ENTRIES);
      e := mem[s.frame].pte[s.index];
    }

    /** Maps npages pages from vpn on to the frames from f on; m of them are mapped when it gives up. */
    method Mappages(root: nat, vpn: nat, npages: nat, f: nat, perm: nat) returns (ok: bool, ghost m: nat)
      requires Ok({}) && Key(root, 2, 0) in dir && npages > 0 && vpn + npages <= MAXVPN
      requires perm < 1024 && perm / 2 % 8 != 0
      requires forall v: nat | vpn <= v < vpn + npages :: !PteValid(Pte(S(), root, v))
      modifies this
      ensures Ok({}) && m <= npages && (ok <==> m == npages) && failures == old(failures) + (if ok then 0 else 1)
      ensures ok <==> |old(free)| >= |Paths(root, vpn, vpn + npages) - old(dir).Keys|
      ensures ok ==> Added(old(dir).Keys, |old(free)|, Paths(root, vpn, vpn + npages), dir.Keys, |free|)
      ensures Mapped(old(S()), S(), root, vpn, m, f, perm)
    {
      hide FreeOk, NodesOk, Kept, Pte, MakePte, PteValid, IsLeaf, PteFrame, Mapped, Grown, Added, Path, Paths;
      MappedNone(S(), root, vpn, f, perm);
      var a, pa, last := vpn, f, vpn + npages - 1;
      m := 0;
      ghost var keys, room := dir.Keys, |free|;
      AddedNone(keys, room);
      PathsStep(root, vpn, vpn);
      while true
        invariant Ok({}) && Key(root, 2, 0) in dir && m < npages && a == vpn + m && pa == f + m
        invariant Mapped(old(S()), S(), root, vpn, m, f, perm) && failures == old(failures)
        invariant Added(keys, room, Paths(root, vpn, a), dir.Keys, |free|)
        decreases npages - m
      {
        ghost var t := S();
        ghost var mid, rest := dir.Keys, |free|;
        PathsStep(root, vpn, a);
        PathsMore(root, vpn, a + 1, vpn + npages);
        var s := Walk(root, a, true);
        ghost var u := S();
        MappedThenGrown(old(S()), t, u, root, vpn, m, f, perm);
        if s == NoSlot {
          AddedShort(keys, room, Paths(root, vpn, a), mid, rest, Path(root, a), Paths(root, vpn, vpn + npages));
          return false, m;
        }
        AddedTwice(keys, room, Paths(root, vpn, a), mid, rest, Path(root, a), dir.Keys, |free|);
        var e := ReadEntry(s, root, a);
        assert !PteValid(e);  // no "mappages: remap" panic
        PteFields(pa, perm);
        WriteEntry(s, root, a, MakePte(pa, perm));
        MappedMore(old(S()), t, u, S(), root, vpn, m, f, perm);
        KeptKeys(old(S()), S(), root, vpn, m + 1, f, perm);
        m := m + 1;
        if a == last {
          Enough(keys, room, Paths(root, vpn, vpn + npages), dir.Keys, |free|);
          return true, m;
        }
        a, pa := a + 1, pa + 1;
      }
    }

    lemma PathsStep(root: nat, lo: nat, a: nat)
      ensures lo <= a ==> Paths(root, lo, a + 1) == Paths(root, lo, a) + Path(root, a)
      ensures Paths(root, lo, lo) == {}
    {
    }

    lemma {:induction false} PathsMore(root: nat, lo: nat, mid: nat, hi: nat)
      requires mid <= hi
      ensures Paths(root, lo, mid) <= Paths(root, lo, hi)
      decreases hi
    {
      if mid < hi {
        PathsMore(root, lo, mid, hi - 1);
      }
    }

    /** Removes npages pages from vpn on, whether they are mapped or not.  Unmapping user pages without
        freeing them leaves frames that no entry maps. */
    method Uvmunmap(root: nat, vpn: nat, npages: nat, doFree: bool)
      requires Ok({}) && Key(root, 2, 0) in dir && vpn + npages <= MAXVPN
      requires doFree ==> vpn + npages <= TRAPFRAME && LeavesOk(S())
      modifies this
      ensures Ok({}) && Unmapped(old(S()), S(), root, vpn, vpn + npages, doFree) && failures == old(failures)
      ensures |free| == |old(free)| + if doFree then FreedPages(old(S()), root, vpn, vpn + npages) else 0
      ensures old(LeavesOk(S())) && (doFree || TRAPFRAME <= vpn) ==> LeavesOk(S())
    {
      hide FreeOk, NodesOk, LeavesOk, Pte, Unmapped, PteValid, IsLeaf, PteFrame, PteFlags, Kept, Grown, MappedBelow;
      StepDown(Key(root, 2, 0), 0);
      UnmappedNone(S(), root, vpn, doFree);
      for a := vpn to vpn + npages
        invariant Ok({}) && Key(root, 2, 0) in dir && Unmapped(old(S()), S(), root, vpn, a, doFree)
        invariant failures == old(failures)
        invariant |free| == |old(free)| + if doFree then FreedPages(old(S()), root, vpn, a) else 0
        invariant old(LeavesOk(S())) && (doFree || TRAPFRAME <= vpn) ==> LeavesOk(S())
      {
        ghost var t := S();
        MappedStep(old(S()), root, a);
        StillMapped(old(S()), t, root, vpn, a, doFree);
        UnmapPage(root, a, doFree);
        UnmappedTwice(old(S()), t, S(), root, vpn, a, a + 1, doFree);
      }
    }

    /** How many of the pages lo..hi are mapped. */
    static ghost function FreedPages(s: St, root: nat, lo: nat, hi: nat): (n: nat)
      requires lo <= hi
      ensures lo == hi ==> n == 0
    {
      MappedBelowMore(s, root, lo, hi);
      MappedBelow(s, root, hi) - MappedBelow(s, root, lo)
    }

    lemma StillMapped(s: St, t: St, root: nat, lo: nat, a: nat, doFree: bool)
      requires lo <= a && Unmapped(s, t, root, lo, a, doFree)
      ensures Pte(t, root, a) == Pte(s, root, a)
    {
    }

    /** The body of uvmunmap's loop. */
    method UnmapPage(root: nat, a: nat, doFree: bool)
      requires Ok({}) && Key(root, 2, 0) in dir && a < MAXVPN && (doFree ==> a < TRAPFRAME && LeavesOk(S()))
      modifies this
      ensures Ok({}) && dir == old(dir) && Unmapped(old(S()), S(), root, a, a + 1, doFree)
      ensures failures == old(failures)
      ensures |free| == |old(free)| + if doFree && PteValid(Pte(old(S()), root, a)) then 1 else 0
      ensures old(LeavesOk(S())) && (doFree || TRAPFRAME <= a) ==> LeavesOk(S())
    {
      hide FreeOk, NodesOk, LeavesOk, Pte, Unmapped, PteValid, IsLeaf, PteFrame, PteFlags, Kept, Grown, MappedBelow;
      StepDown(Key(root, 2, 0), 0);
      NullEntry();
      var s := Walk(root, a, false);
      if s == NoSlot {
        NoEntry(S(), root, a);
        UnmappedHole(S(), root, a, doFree);
        return;
      }
      var e := ReadEntry(s, root, a);
      if !PteValid(e) {
        UnmappedHole(S(), root, a, doFree);
        return;
      }
      LeafFlags(e);
      assert PteFlags(e) != PTE_V;  // no "uvmunmap: not a leaf" panic
      ghost var t := S();
      if doFree {
        OwnLeaf(S(), root, a);
        Kfree(PteFrame(e), {});
      }
      ghost var u := S();
      WriteEntry(s, root, a, 0);
      SameFrames(u, S(), root);
      if doFree {
        DropLeaf(t, S(), root, a, PteFrame(e));
      } else if LeavesOk(t) && TRAPFRAME <= a {
        SpecialEntry(t, S(), root, a);
      }
      UnmappedOne(t, S(), root, a, PteFrame(e), doFree);
    }

    lemma SameFrames(s: St, t: St, root: nat)
      requires Kept(s, t, root) && t.owner == s.owner
      ensures t.mem.Keys == s.mem.Keys == s.owner.Keys
      ensures forall f | f in s.owner && (s.owner[f].Kernel? || s.owner[f].Leaf?) :: t.mem[f] == s.mem[f]
    {
    }

    /** kalloc, then the page's contents. */
    method NewFrame(data: seq<nat>) returns (f: nat)
      requires Ok({})
      modifies this
      ensures Ok({}) && failures == old(failures) + (if f == 0 then 1 else 0) && (f == 0 ==> S() == old(S()))
      ensures if f == 0 then old(free) == [] else |free| == |old(free)| - 1
      ensures f != 0 ==>
                && f in old(owner) && old(owner[f]).Free? && SameMap(old(S()), S())
                && S() == old(S()).(mem := old(mem)[f := Bytes(data)], owner := old(owner)[f := Kernel])
    {
      hide FreeOk, NodesOk, Pte;
      ghost var s := S();
      f := Kalloc({});
      if f != 0 {
        UpdateTwice(s.mem, f, mem[f], Bytes(data));
        UsedFrame(S(), freelist, free, f, Bytes(data), Kernel, dir);
        OtherFrame(S(), {}, f, Bytes(data), Kernel);
        assert owner[f := Kernel] == owner;
        mem := mem[f := Bytes(data)];
        OtherFrame(s, {}, f, Bytes(data), Kernel);
      }
    }

    /** Allocates a frame, fills it and maps it at page v; on failure gives the frame back.  It fails
        exactly if there are not enough free frames for the page and the page-table pages it lacks. */
    method AddPage(root: nat, v: nat, data: seq<nat>, perm: nat) returns (f: nat)
      requires Valid() && Key(root, 2, 0) in dir && v < TRAPFRAME && Pte(S(), root, v) == 0
      requires |data| == PGSIZE && perm < 1024 && perm / 2 % 8 != 0
      modifies this
      ensures Valid() && forall k | k in old(dir) :: k in dir
      ensures if f == 0 then Grown(old(S()), S(), root) else OnePage(old(S()), S(), root, v, f, perm, data)
      ensures failures == old(failures) + (if f == 0 then 1 else 0)
      ensures f != 0 <==> |old(free)| >= 1 + |Path(root, v) - old(dir).Keys|
      ensures f != 0 ==> Added(old(dir).Keys, |old(free)| - 1, Path(root, v), dir.Keys, |free|)
    {
      hide FreeOk, NodesOk, LeavesOk, Pte, Mapped, OnePage, PteValid, PteFrame, MakePte, Grown, Added, Path, Paths;
      StepDown(Key(root, 2, 0), 0);
      NullEntry();
      PathsStep(root, v, v);
      AddedNone(Path(root, v), 0);
      ghost var s := S();
      f := NewFrame(data);
      if f == 0 {
        NotGrown(S(), root);
        return;
      }
      ghost var t := S();
      var ok, m := Mappages(root, v, 1, f, perm);
      if ok {
        OwnPage(root, v, f, perm, data, s, t);
      } else {
        GiveBack(root, v, f, perm, data, s, t, m);
        f := 0;
      }
    }

    /** A frame that is mapped now is a leaf of its page table. */
    ghost method OwnPage(root: nat, v: nat, f: nat, perm: nat, data: seq<nat>, s: St, t: St)
      requires Ok({}) && perm < 1024 && LeavesOk(s) && v < TRAPFRAME && !PteValid(Pte(s, root, v)) && |data| == PGSIZE
      requires f in s.owner && s.owner[f].Free?
      requires t == s.(mem := s.mem[f := Bytes(data)], owner := s.owner[f := Kernel])
      requires SameMap(s, t) && Mapped(t, S(), root, v, 1, f, perm)
      modifies this`owner
      ensures Valid() && OnePage(s, S(), root, v, f, perm, data) && forall k | k in s.dir :: k in dir
    {
      hide FreeOk, NodesOk, LeavesOk, Pte, Mapped, OnePage, PteValid, PteFrame, MakePte;
      PageAdded(s, t, S(), root, v, f, perm, data);
      UsedFrame(S(), freelist, free, f, mem[f], Leaf(root, v), dir);
      OtherFrame(S(), {}, f, mem[f], Leaf(root, v));
      assert mem[f := mem[f]] == mem;
      owner := owner[f := Leaf(root, v)];
    }

    /** kfree of a frame that could not be mapped. */
    method GiveBack(root: nat, ghost v: nat, f: nat, ghost perm: nat, ghost data: seq<nat>, ghost s: St, ghost t: St,
                    ghost m: nat)
      requires Ok({}) && perm < 1024 && LeavesOk(s) && s.mem.Keys == s.owner.Keys && m == 0
      requires f in s.owner && s.owner[f].Free?
      requires t == s.(mem := s.mem[f := Bytes(data)], owner := s.owner[f := Kernel])
      requires SameMap(s, t) && Mapped(t, S(), root, v, m, f, perm)
      modifies this`mem, this`freelist, this`owner, this`free
      ensures Valid() && Grown(s, S(), root) && forall k | k in s.dir :: k in dir
    {
      hide FreeOk, NodesOk, LeavesOk, Pte, Mapped, Grown;
      ghost var u := S();
      KernelKept(t, u, root, v, m, f, perm);
      Kfree(f, {});
      PageGivenBack(s, t, u, S(), root, f, Bytes(data), mem[f]);
      GrownLeaves(s, S(), root);
      GrownKeys(s, S(), root);
    }

    /** Where growing from page lo on ends in a panic: mappages finds the pages from TRAPFRAME on mapped, and
        walk refuses those from MAXVPN on. */
    static function Top(lo: nat): nat { Max(lo, TRAPFRAME) }

    /** Grows the user memory of a page table from oldsz to newsz bytes; 0 when out of memory. */
    method Uvmalloc(root: nat, oldsz: nat, newsz: nat, xperm: nat) returns (r: nat, panicked: bool, ghost ok: bool)
      requires Valid() && Key(root, 2, 0) in dir && xperm < 16 && xperm % 4 == 0
      requires newsz > TRAPFRAME * PGSIZE ==>
                 PteValid(Pte(S(), root, TRAPFRAME)) && PteValid(Pte(S(), root, TRAMPOLINE))
      requires forall v: nat | Pages(oldsz) <= v < Pages(newsz) && v < TRAPFRAME :: Pte(S(), root, v) == 0
      modifies this
      ensures Valid() && failures == old(failures) + (if ok || panicked then 0 else 1)
      ensures newsz < oldsz ==> ok && !panicked && r == oldsz && unchanged(this)
      ensures oldsz <= newsz && panicked ==> Pages(newsz) > Top(Pages(oldsz)) && !ok
      ensures oldsz <= newsz && ok ==> r == newsz && Pages(newsz) <= Top(Pages(oldsz))
      ensures oldsz <= newsz && ok ==>
                Placed(old(S()), S(), root, ZeroPages(Pages(oldsz), Pages(newsz), PTE_R + PTE_U + xperm))
                && |free| == |old(free)| - Needs(root, Pages(oldsz), Pages(newsz), old(dir).Keys)
      ensures oldsz <= newsz && !ok && !panicked ==> r == 0 && Grown(old(S()), S(), root)
      ensures oldsz <= newsz && Pages(newsz) <= Top(Pages(oldsz)) ==>
                (ok <==> |old(free)| >= Needs(root, Pages(oldsz), Pages(newsz), old(dir).Keys))
      ensures oldsz <= newsz && Pages(newsz) > Top(Pages(oldsz)) ==>
                (panicked <==> |old(free)| > Needs(root, Pages(oldsz), Top(Pages(oldsz)), old(dir).Keys))
    {
      hide FreeOk, NodesOk, LeavesOk, Pte, Placed, Grown, Machine.Ok, Needs;
      if newsz < oldsz {
        return oldsz, false, true;
      }
      r, panicked, ok := GrowPages(root, Pages(oldsz) * PGSIZE, newsz, xperm);
    }

    method GrowPages(root: nat, oldsz: nat, newsz: nat, xperm: nat) returns (r: nat, panicked: bool, ghost ok: bool)
      requires Valid() && Key(root, 2, 0) in dir && oldsz % PGSIZE == 0 && oldsz / PGSIZE <= Pages(newsz)
      requires xperm < 16 && xperm % 4 == 0
      requires Pages(newsz) > TRAPFRAME ==> PteValid(Pte(S(), root, TRAPFRAME)) && PteValid(Pte(S(), root, TRAMPOLINE))
      requires forall v: nat | oldsz / PGSIZE <= v < Pages(newsz) && v < TRAPFRAME :: Pte(S(), root, v) == 0
      modifies this
      ensures Valid() && failures == old(failures) + (if ok || panicked then 0 else 1)
      ensures panicked ==> Pages(newsz) > Top(oldsz / PGSIZE) && !ok
      ensures ok ==> Pages(newsz) <= Top(oldsz / PGSIZE) && r == newsz
                     && Placed(old(S()), S(), root, ZeroPages(oldsz / PGSIZE, Pages(newsz), PTE_R + PTE_U + xperm))
                     && |free| == |old(free)| - Needs(root, oldsz / PGSIZE, Pages(newsz), old(dir).Keys)
      ensures !ok && !panicked ==> r == 0 && Grown(old(S()), S(), root)
      ensures Pages(newsz) <= Top(oldsz / PGSIZE) ==>
                (ok <==> |old(free)| >= Needs(root, oldsz / PGSIZE, Pages(newsz), old(dir).Keys))
      ensures Pages(newsz) > Top(oldsz / PGSIZE) ==>
                (panicked <==> |old(free)| > Needs(root, oldsz / PGSIZE, Top(oldsz / PGSIZE), old(dir).Keys))
    {
      hide FreeOk, NodesOk, LeavesOk, Pte, Placed, Grown, Machine.Ok, Added, Paths, ZeroPages, Needs;
      ghost var s, lo, top, room := S(), oldsz / PGSIZE, Min(Pages(newsz), Top(oldsz / PGSIZE)), |free|;
      var perm := PTE_R + PTE_U + xperm;
      FillNone(root, lo, perm);
      var a := oldsz;
      while a < newsz
        invariant a % PGSIZE == 0 && oldsz <= a && lo <= a / PGSIZE <= top && failures == old(failures)
        invariant Filling(s, root, lo, a / PGSIZE, perm, room)
      {
        var f;
        if a / PGSIZE >= TRAPFRAME {
          FilledNeeds(s, root, lo, a / PGSIZE, perm, room);
          f := Remap(s, root, lo, a / PGSIZE, perm);
          if f != 0 {
            return 0, true, false;
          }
        } else {
          f := GrowOne(root, a / PGSIZE, perm, s, lo, top, room);
        }
        if f == 0 {
          Undo(root, a, oldsz, s, perm);
          return 0, false, false;
        }
        a := a + PGSIZE;
      }
      FilledNeeds(s, root, lo, a / PGSIZE, perm, room);
      return newsz, false, true;
    }

    /** Pages lo up to v of root have been mapped since s, when there were `room` free frames. */
    ghost predicate Filling(s: St, root: nat, lo: nat, v: nat, perm: nat, room: nat)
      reads this
    {
      && Valid() && Key(root, 2, 0) in dir && Placed(s, S(), root, ZeroPages(lo, v, perm))
      && Added(s.dir.Keys, room - (v - lo), Paths(root, lo, v), dir.Keys, |free|)
    }

    lemma FillNone(root: nat, lo: nat, perm: nat)
      requires Valid() && Key(root, 2, 0) in dir
      ensures Filling(S(), root, lo, lo, perm, |free|)
    {
      hide FreeOk, NodesOk, LeavesOk, Pte, Placed, Added, Paths;
      SameKeys();
      PlacedNone(S(), root);
      AddedNone(dir.Keys, |free|);
      PathsStep(root, lo, lo);
      assert ZeroPages(lo, lo, perm) == map[];
    }

    /** What is left of the free frames. */
    lemma FilledNeeds(s: St, root: nat, lo: nat, v: nat, perm: nat, room: nat)
      requires lo <= v && Filling(s, root, lo, v, perm, room)
      ensures |free| == room - Needs(root, lo, v, s.dir.Keys)
    {
    }

    /** One turn of uvmalloc's loop. */
    method GrowOne(root: nat, v: nat, perm: nat, ghost s: St, ghost lo: nat, ghost top: nat, ghost room: nat)
      returns (f: nat)
      requires Filling(s, root, lo, v, perm, room) && lo <= v < top <= TRAPFRAME && Pte(s, root, v) == 0
      requires perm < 1024 && perm / 2 % 8 != 0
      modifies this
      ensures failures == old(failures) + (if f == 0 then 1 else 0) && Valid() && Key(root, 2, 0) in dir
      ensures f != 0 ==> Filling(s, root, lo, v + 1, perm, room)
      ensures f == 0 ==> Placed(s, S(), root, ZeroPages(lo, v, perm)) && room < Needs(root, lo, top, s.dir.Keys)
    {
      hide FreeOk, NodesOk, LeavesOk, Pte, Placed, Grown, OnePage, Machine.Ok, Machine.Valid, Added, Paths, Path;
      hide ZeroPages, Zeros, Needs;
      ghost var t, mid, rest := S(), dir.Keys, |free|;
      PlacedElsewhere(s, t, root, ZeroPages(lo, v, perm));
      ZeroPagesStep(lo, v, perm);
      f := AddPage(root, v, Zeros(PGSIZE), perm);
      CountPage(root, lo, v, top, s.dir.Keys, room, mid, rest, dir.Keys, |free|);
      if f == 0 {
        PlacedGrown(s, t, S(), root, ZeroPages(lo, v, perm));
      } else {
        PlacedMore(s, t, S(), root, ZeroPages(lo, v, perm), v, f, Want(perm, Zeros(PGSIZE)));
      }
    }

    /** The frames one more page takes, or does not find. */
    lemma CountPage(root: nat, lo: nat, v: nat, top: nat, keys: set<Key>, room: nat, mid: set<Key>, rest: nat,
                    now: set<Key>, left: nat)
      requires lo <= v < top && Added(keys, room - (v - lo), Paths(root, lo, v), mid, rest)
      ensures rest < 1 + |Path(root, v) - mid| ==> room < Needs(root, lo, top, keys)
      ensures Added(mid, rest - 1, Path(root, v), now, left) ==>
                Added(keys, room - (v + 1 - lo), Paths(root, lo, v + 1), now, left)
    {
      hide Added, Paths, Path;
      PathsStep(root, lo, v);
      PathsMore(root, lo, v + 1, top);
      AddedStep(keys, room - (v - lo), Paths(root, lo, v), mid, rest, Path(root, v), now, left, Paths(root, lo, top));
    }

    lemma ZeroPagesStep(lo: nat, v: nat, perm: nat)
      requires lo <= v
      ensures v !in ZeroPages(lo, v, perm) && |Zeros(PGSIZE)| == PGSIZE
      ensures ZeroPages(lo, v, perm)[v := Want(perm, Zeros(PGSIZE))] == ZeroPages(lo, v + 1, perm)
    {
    }

    /** uvmdealloc after a failure. */
    method Undo(root: nat, a: nat, oldsz: nat, ghost s: St, ghost perm: nat)
      requires Valid() && Key(root, 2, 0) in dir && a % PGSIZE == 0 && oldsz % PGSIZE == 0
      requires oldsz <= a && (a <= TRAPFRAME * PGSIZE || a == oldsz)
      requires Placed(s, S(), root, ZeroPages(oldsz / PGSIZE, a / PGSIZE, perm)) && LeavesOk(s)
      requires forall v: nat | oldsz / PGSIZE <= v < a / PGSIZE :: Pte(s, root, v) == 0
      modifies this
      ensures Valid() && Grown(s, S(), root) && failures == old(failures)
    {
      hide FreeOk, NodesOk, LeavesOk, Pte, Placed, Grown, Unmapped, Machine.Ok;
      ghost var u := S();
      var _ := Uvmdealloc(root, a, oldsz);
      PlacedUndone(s, u, S(), root, ZeroPages(oldsz / PGSIZE, a / PGSIZE, perm), oldsz / PGSIZE, a / PGSIZE);
    }

    /** kalloc, then mappages of a page that is mapped or too high: a panic unless there is no frame. */
    method Remap(ghost s: St, root: nat, ghost lo: nat, ghost v: nat, ghost perm: nat) returns (f: nat)
      requires Valid() && Key(root, 2, 0) in dir && lo <= v && TRAPFRAME <= v && (v == TRAPFRAME || v == lo)
      requires PteValid(Pte(s, root, TRAPFRAME)) && PteValid(Pte(s, root, TRAMPOLINE))
      requires Placed(s, S(), root, ZeroPages(lo, v, perm))
      modifies this
      ensures Valid() && (f == 0 <==> old(free) == []) && failures == old(failures) + (if f == 0 then 1 else 0)
      ensures f == 0 ==> Key(root, 2, 0) in dir && Placed(s, S(), root, ZeroPages(lo, v, perm))
    {
      hide FreeOk, NodesOk, LeavesOk, Pte, Grown, Placed;
      PlacedElsewhere(s, S(), root, ZeroPages(lo, v, perm));
      SameKeys();
      ghost var t := S();
      f := Kalloc({});
      if f != 0 {
        LeavesSame(t, S());
      }
      assert v >= MAXVPN || PteValid(Pte(S(), root, v));  // "walk", or "mappages: remap"
    }

    /** Shrinks the user memory of a page table. */
    method Uvmdealloc(root: nat, oldsz: nat, newsz: nat) returns (r: nat)
      requires Valid() && Key(root, 2, 0) in dir && (oldsz <= TRAPFRAME * PGSIZE || oldsz <= newsz)
      modifies this
      ensures Valid() && failures == old(failures) && r == if newsz >= oldsz then oldsz else newsz
      ensures |free| == |old(free)| + FreedPages(old(S()), root, Pages(newsz), Max(Pages(newsz), Pages(oldsz)))
      ensures Unmapped(old(S()), S(), root, Pages(newsz), Max(Pages(newsz), Pages(oldsz)), true)
    {
      hide FreeOk, NodesOk, LeavesOk, Pte, Unmapped, Machine.Ok, FreedPages;
      SameKeys();
      UnmappedNone(S(), root, Pages(newsz), true);
      if newsz >= oldsz {
        return oldsz;
      }
      if Pages(newsz) < Pages(oldsz) {
        Uvmunmap(root, Pages(newsz), Pages(oldsz) - Pages(newsz), true);
      }
      return newsz;
    }

    /** memset of a frame from kalloc: an empty page-table root. */
    method RootFrame(r: nat)
      requires Valid() && r in owner && owner[r].Kernel?
      modifies this`mem, this`owner, this`dir
      ensures Valid() && SameMap(old(S()), S())
      ensures unchanged(`freelist) && mem == old(mem)[r := Table(Zeros(ENTRIES))]
      ensures owner == old(owner)[r := Node(Key(r, 2, 0))] && dir == old(dir)[Key(r, 2, 0) := r]
    {
      hide FreeOk, NodesOk, LeavesOk, Pte, SameMap;
      var p := Table(Zeros(ENTRIES));
      ghost var s, dir' := S(), dir[Key(r, 2, 0) := r];
      SameKeys();
      UsedFrame(s, freelist, free, r, p, Node(Key(r, 2, 0)), dir');
      OtherFrame(s, {}, r, p, Kernel);
      ghost var t := s.(mem := s.mem[r := p]);
      assert owner[r := Kernel] == owner;
      LeavesSame(s, t);
      mem := mem[r := p];
      owner, dir := owner[r := Node(Key(r, 2, 0))], dir';
      NewRoot(t, S(), r);
      SameMapThrice(s, t, S(), S()) by { SameMapSelf(S()); }
    }

    /** Fills a frame the kernel holds. */
    method StoreFrame(f: nat, data: seq<nat>)
      requires Valid() && f in owner && owner[f].Kernel?
      modifies this`mem
      ensures Valid() && SameMap(old(S()), S()) && mem == old(mem)[f := Bytes(data)]
    {
      hide FreeOk, NodesOk, LeavesOk, Pte, SameMap;
      SameKeys();
      ghost var s := S();
      UsedFrame(s, freelist, free, f, Bytes(data), Kernel, dir);
      OtherFrame(s, {}, f, Bytes(data), Kernel);
      assert owner[f := Kernel] == owner;
      mem := mem[f := Bytes(data)];
      LeavesSame(s, S());
    }

    /** Writes into a user page through its frame. */
    method StoreLeaf(f: nat, data: seq<nat>)
      requires Valid() && f in owner && owner[f].Leaf? && |data| == PGSIZE
      modifies this`mem
      ensures Valid() && SameMap(old(S()), S()) && mem == old(mem)[f := Bytes(data)]
    {
      hide FreeOk, NodesOk, LeavesOk, Pte, SameMap;
      SameKeys();
      ghost var s := S();
      UsedFrame(s, freelist, free, f, Bytes(data), owner[f], dir);
      OtherFrame(s, {}, f, Bytes(data), owner[f]);
      assert owner[f := owner[f]] == owner;
      mem := mem[f := Bytes(data)];
      LeafStored(s, S(), f, data);
    }

    lemma SameKeys()
      requires Ok({})
      ensures mem.Keys == owner.Keys
    {
    }
  }
}
