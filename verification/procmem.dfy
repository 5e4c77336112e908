/** The memory of processes: a trapframe, a page table and the pages below sz bytes. */
module ProcMem {
  import opened Params
  import opened Sets
  import opened PageTables
  import opened FreeTree
  import opened Spaces
  import opened Vm
  import opened UserMem

  datatype ProcState = UNUSED | USED | SLEEPING | RUNNABLE | RUNNING | ZOMBIE

  class Proc {
    var state: ProcState
    var trapframe: nat   // frame number, 0 if none
    var pagetable: nat   // root frame, 0 if none
    var sz: nat          // bytes

    function V(): Hold
      reads this
    {
      Hold(state, trapframe, pagetable, sz)
    }
  }

  /** What a proc slot holds. */
  datatype Hold = Hold(state: ProcState, trapframe: nat, pagetable: nat, sz: nat)

  function Table(procs: seq<Proc>): (r: seq<Hold>)
    reads procs
    ensures |r| == |procs| && forall i | 0 <= i < |procs| :: r[i] == procs[i].V()
  {
    if procs == [] then [] else Table(procs[..|procs| - 1]) + [procs[|procs| - 1].V()]
  }

  /** Above the user pages only the trapframe and the trampoline are mapped. */
  ghost predicate TopOk(s: St, root: nat, sz: nat) {
    && Key(root, 2, 0) in s.dir && sz <= TRAPFRAME * PGSIZE
    && (forall v: nat | v >= Pages(sz) && v != TRAMPOLINE && v != TRAPFRAME :: Pte(s, root, v) == 0)
  }

  ghost predicate SpaceOk(s: St, root: nat, tf: nat, sz: nat, trampoline: nat) {
    && TopOk(s, root, sz) && tf in s.owner && s.owner[tf].Kernel? && tf in s.mem && s.mem[tf].Bytes?
    && |s.mem[tf].data| == PGSIZE
    && Pte(s, root, TRAMPOLINE) == MakePte(trampoline, PTE_R + PTE_X)
    && Pte(s, root, TRAPFRAME) == MakePte(tf, PTE_R + PTE_W)
  }

  /** Unused slots hold nothing; all others a whole address space. */
  ghost predicate HoldOk(s: St, h: Hold, trampoline: nat) {
    if h.state.UNUSED? then h == Hold(UNUSED, 0, 0, 0) else SpaceOk(s, h.pagetable, h.trapframe, h.sz, trampoline)
  }

  /** Besides, no two slots share a page table or a trapframe. */
  ghost predicate TableOk(s: St, hs: seq<Hold>, trampoline: nat) {
    && (forall i | 0 <= i < |hs| :: HoldOk(s, hs[i], trampoline))
    && (forall i, j | 0 <= i < |hs| && 0 <= j < |hs| && i != j && !hs[i].state.UNUSED? && !hs[j].state.UNUSED? ::
          hs[i].pagetable != hs[j].pagetable && hs[i].trapframe != hs[j].trapframe)
  }

  predicate Distinct(procs: seq<Proc>) {
    forall i, j :: 0 <= i < j < |procs| ==> procs[i] != procs[j]
  }

  /** From s to t a new address space r and trapframe x came to be, and nothing else changed. */
  ghost predicate NewSpace(s: St, t: St, r: nat, x: nat) {
    r != 0 && Vacant(s, r) && x in s.owner && s.owner[x].Free? && Local(s, t, r, x)
  }

  /** A slot filled with a new address space fits in with the others. */
  lemma TableFilled(s: St, t: St, hs: seq<Hold>, i: nat, h: Hold, trampoline: nat)
    requires TableOk(s, hs, trampoline) && i < |hs| && hs[i].state.UNUSED?
    requires NewSpace(s, t, h.pagetable, h.trapframe) && HoldOk(t, h, trampoline)
    ensures TableOk(t, hs[i := h], trampoline)
  {
    hide SpaceOk, Local, Vacant;
    forall j | 0 <= j < |hs| && j != i && !hs[j].state.UNUSED?
      ensures HoldOk(t, hs[j], trampoline) && hs[j].pagetable != h.pagetable && hs[j].trapframe != h.trapframe {
      SpaceApart(s, hs[j], h, trampoline);
      SpaceKept(s, t, hs[j].pagetable, hs[j].trapframe, hs[j].sz, trampoline, h.pagetable, h.trapframe);
    }
  }

  lemma SpaceApart(s: St, g: Hold, h: Hold, trampoline: nat)
    requires SpaceOk(s, g.pagetable, g.trapframe, g.sz, trampoline)
    requires Vacant(s, h.pagetable) && h.trapframe in s.owner && s.owner[h.trapframe].Free?
    ensures g.pagetable != h.pagetable && g.trapframe != h.trapframe
  {
  }

  lemma TableRestored(s: St, t: St, hs: seq<Hold>, trampoline: nat)
    requires NodesOk(s, {}) && Restored(s, t) && TableOk(s, hs, trampoline)
    ensures TableOk(t, hs, trampoline)
  {
    hide Pte, MakePte, EntryOk;
    RestoredMap(s, t);
  }

  lemma RestoredMap(s: St, t: St)
    requires NodesOk(s, {}) && Restored(s, t)
    ensures SameMap(s, t)
  {
    hide EntryOk;
    forall r: nat, v: nat ensures Pte(t, r, v) == Pte(s, r, v) {
    }
  }

  /** Whatever happens to one address space, the others stay as they are. */
  lemma SpaceKept(s: St, t: St, root: nat, tf: nat, sz: nat, trampoline: nat, r: nat, x: nat)
    requires SpaceOk(s, root, tf, sz, trampoline) && Local(s, t, r, x) && root != r && tf != x
    ensures SpaceOk(t, root, tf, sz, trampoline)
  {
    hide Pte, MakePte;
  }

  /** Mapping the trampoline or trapframe page touches no user page. */
  lemma SpecialMapped(s: St, t: St, root: nat, vpn: nat, m: nat, f: nat, perm: nat)
    requires perm < 1024 && LeavesOk(s) && Mapped(s, t, root, vpn, m, f, perm) && vpn >= TRAPFRAME
    ensures LeavesOk(t)
  {
    hide Pte, MakePte;
    forall g | g in t.owner && t.owner[g].Leaf? ensures LeafOk(t, g) {
      assert LeafOk(s, g);
    }
  }

  lemma MappedMap(s: St, t: St, root: nat, vpn: nat, m: nat, f: nat, perm: nat)
    requires perm < 1024 && Mapped(s, t, root, vpn, m, f, perm) && m <= 1
    ensures forall v: nat :: Pte(t, root, v) == if v == vpn && m == 1 then MakePte(f, perm) else Pte(s, root, v)
    ensures forall k | k in s.dir :: k in t.dir
    ensures s.owner.Keys == t.owner.Keys && forall g | g in s.owner && s.owner[g].Kernel? :: t.owner[g].Kernel?
  {
  }

  lemma UnmappedMap(s: St, t: St, root: nat, lo: nat, doFree: bool)
    requires Unmapped(s, t, root, lo, lo + 1, doFree)
    ensures forall v: nat :: Pte(t, root, v) == if v == lo then 0 else Pte(s, root, v)
    ensures s.dir == t.dir
  {
    hide Pte;
  }

  /** The page-table pages of a page table that has just its two top pages. */
  function Fresh(r: nat): set<Key> { {Key(r, 2, 0)} + Path(r, TRAMPOLINE) }

  /** A page table with no user memory but with the trampoline and trapframe pages: three frames. */
  method ProcPagetable(m: Machine, tf: nat, trampoline: nat) returns (r: nat)
    requires m.Valid() && tf in m.owner && m.owner[tf].Kernel? && tf in m.mem && m.mem[tf].Bytes?
    requires |m.mem[tf].data| == PGSIZE
    modifies m
    ensures m.Valid() && m.failures == old(m.failures) + (if r == 0 then 1 else 0)
    ensures r == 0 <==> |old(m.free)| < 3
    ensures r != 0 ==> |m.free| == |old(m.free)| - 3 && m.dir.Keys == old(m.dir).Keys + Fresh(r)
    ensures if r == 0 then Restored(old(m.S()), m.S())
            else Local(old(m.S()), m.S(), r, 0) && Vacant(old(m.S()), r) && SpaceOk(m.S(), r, tf, 0, trampoline)
  {
    hide FreeOk, NodesOk, LeavesOk, Pte, Local, Vacant, MakePte, SpaceOk, Machine.Ok, Fresh, Path, Restored;
    hide Machine.Valid, Added, Paths;
    ghost var s := m.S();
    Facts(m);
    Unchanged(m);
    r := Uvmcreate(m);
    if r == 0 {
      return;
    }
    ghost var t, room := m.S(), |m.free|;
    var ok := MapTop(m, r, TRAMPOLINE, trampoline, PTE_R + PTE_X, s);
    CountTop(r, s, t.dir.Keys, room, m.dir.Keys, |m.free|);
    if !ok {
      NoTop(m, r, s);
      return 0;
    }
    MapTrapframe(m, r, tf, trampoline, s, t);
  }

  /** The second mappages, which needs no page-table page: the code's undoing after it is never reached. */
  method MapTrapframe(m: Machine, r: nat, tf: nat, ghost trampoline: nat, ghost s: St, ghost t: St)
    requires m.Valid() && Key(r, 2, 0) in m.dir && Local(s, m.S(), r, 0) && Fresh(r) <= m.dir.Keys
    requires tf in s.owner && s.owner[tf].Kernel? && tf in s.mem && s.mem[tf].Bytes? && |s.mem[tf].data| == PGSIZE
    requires tf != 0
    requires forall v: nat :: Pte(t, r, v) == 0
    requires forall v: nat ::
               Pte(m.S(), r, v) == if v == TRAMPOLINE then MakePte(trampoline, PTE_R + PTE_X) else Pte(t, r, v)
    modifies m
    ensures m.Valid() && m.failures == old(m.failures) && m.dir.Keys == old(m.dir).Keys && |m.free| == |old(m.free)|
    ensures Local(s, m.S(), r, 0) && SpaceOk(m.S(), r, tf, 0, trampoline)
  {
    hide FreeOk, NodesOk, LeavesOk, Pte, Local, MakePte, SpaceOk, Machine.Ok, Fresh, Path, Machine.Valid, Added, Paths;
    ghost var u, rest := m.S(), |m.free|;
    var ok := MapTop(m, r, TRAPFRAME, tf, PTE_R + PTE_W, s);
    CountAgain(r, u.dir.Keys, rest, m.dir.Keys, |m.free|);
    if !ok {
      assert false;
    }
    NewTop(s, t, u, m.S(), r, tf, trampoline);
  }

  /** uvmfree(pagetable, 0) of a new page table. */
  method NoTop(m: Machine, r: nat, ghost s: St)
    requires m.Valid() && Key(r, 2, 0) in m.dir && NodesOk(s, {}) && Local(s, m.S(), r, 0) && Vacant(s, r)
    requires 0 !in s.owner && forall v: nat :: Pte(m.S(), r, v) == 0
    modifies m
    ensures m.Valid() && Restored(s, m.S()) && m.failures == old(m.failures)
  {
    hide FreeOk, NodesOk, LeavesOk, Pte, Local, Vacant, Restored;
    ghost var x := m.S();
    Uvmfree(m, r, 0);
    LocalTwice(s, x, m.S(), r, 0);
    CameAndWent(s, m.S(), r, 0);
  }

  /** mappages of one of the two top pages of a new page table. */
  method MapTop(m: Machine, r: nat, vpn: nat, f: nat, perm: nat, ghost s: St) returns (ok: bool)
    requires m.Valid() && Key(r, 2, 0) in m.dir && TRAPFRAME <= vpn < MAXVPN && perm < 1024 && perm / 2 % 8 != 0
    requires Local(s, m.S(), r, 0) && Pte(m.S(), r, vpn) == 0
    modifies m
    ensures m.Valid() && Key(r, 2, 0) in m.dir && m.failures == old(m.failures) + (if ok then 0 else 1)
    ensures Local(s, m.S(), r, 0)
    ensures forall v: nat :: Pte(m.S(), r, v) == if ok && v == vpn then MakePte(f, perm) else old(Pte(m.S(), r, v))
    ensures ok <==> |old(m.free)| >= |Paths(r, vpn, vpn + 1) - old(m.dir).Keys|
    ensures ok ==> Added(old(m.dir).Keys, |old(m.free)|, Paths(r, vpn, vpn + 1), m.dir.Keys, |m.free|)
  {
    hide FreeOk, NodesOk, LeavesOk, Pte, Local, Mapped, MakePte, Added, Paths, PteValid;
    NullEntry();
    ghost var t := m.S();
    ghost var n;
    ok, n := m.Mappages(r, vpn, 1, f, perm);
    SpecialMapped(t, m.S(), r, vpn, n, f, perm);
    MappedMap(t, m.S(), r, vpn, n, f, perm);
    MappedLocal(t, m.S(), r, vpn, n, f, perm, 0);
    LocalTwice(s, t, m.S(), r, 0);
  }

  /** The first top page takes two page-table pages, the second none. */
  lemma CountTop(r: nat, s: St, keys: set<Key>, room: nat, now: set<Key>, left: nat)
    requires Vacant(s, r) && keys == s.dir.Keys + {Key(r, 2, 0)}
    ensures |Paths(r, TRAMPOLINE, TRAMPOLINE + 1) - keys| == 2
    ensures Added(keys, room, Paths(r, TRAMPOLINE, TRAMPOLINE + 1), now, left) ==>
              now == s.dir.Keys + Fresh(r) && left == room - 2
  {
    hide Path, Paths;
    TopPaths(r, s.dir.Keys);
  }

  lemma CountAgain(r: nat, keys: set<Key>, room: nat, now: set<Key>, left: nat)
    requires Fresh(r) <= keys
    ensures |Paths(r, TRAPFRAME, TRAPFRAME + 1) - keys| == 0
    ensures Added(keys, room, Paths(r, TRAPFRAME, TRAPFRAME + 1), now, left) ==> now == keys && left == room
  {
    hide Path, Paths;
    TopPaths(r, {});
    assert Paths(r, TRAPFRAME, TRAPFRAME + 1) - keys == {};
  }

  lemma NewTop(s: St, t: St, u: St, w: St, r: nat, tf: nat, trampoline: nat)
    requires Local(s, w, r, 0) && tf in s.owner && s.owner[tf].Kernel? && tf in s.mem && Key(r, 2, 0) in w.dir
    requires tf != 0
    requires s.mem[tf].Bytes? && |s.mem[tf].data| == PGSIZE && forall v: nat :: Pte(t, r, v) == 0
    requires forall v: nat :: Pte(u, r, v) == if v == TRAMPOLINE then MakePte(trampoline, PTE_R + PTE_X)
             else Pte(t, r, v)
    requires forall v: nat :: Pte(w, r, v) == if v == TRAPFRAME then MakePte(tf, PTE_R + PTE_W) else Pte(u, r, v)
    ensures SpaceOk(w, r, tf, 0, trampoline)
  {
    hide Pte, MakePte, Local;
    LocalKernel(s, w, r, 0, tf);
  }

  lemma Facts(m: Machine)
    requires m.Valid()
    ensures m.mem.Keys == m.owner.Keys && 0 !in m.owner && NodesOk(m.S(), {})
  {
  }

  /** Frees a process's page table and the memory it refers to, all of it. */
  method ProcFreepagetable(m: Machine, root: nat, sz: nat)
    requires m.Valid() && TopOk(m.S(), root, sz)
    modifies m
    ensures m.Valid() && Local(old(m.S()), m.S(), root, 0) && Vacant(m.S(), root) && m.failures == old(m.failures)
  {
    hide FreeOk, NodesOk, LeavesOk, Pte, Local, Vacant, Unmapped;
    ghost var s := m.S();
    m.Uvmunmap(root, TRAMPOLINE, 1, false);
    ghost var t := m.S();
    UnmappedMap(s, t, root, TRAMPOLINE, false);
    UnmappedLocal(s, t, root, TRAMPOLINE, TRAMPOLINE + 1, false, 0);
    m.Uvmunmap(root, TRAPFRAME, 1, false);
    ghost var u := m.S();
    UnmappedMap(t, u, root, TRAPFRAME, false);
    UnmappedLocal(t, u, root, TRAPFRAME, TRAPFRAME + 1, false, 0);
    LocalTwice(s, t, u, root, 0);
    Uvmfree(m, root, sz);
    LocalTwice(s, u, m.S(), root, 0);
  }

  /** Frees a proc structure and everything it holds. */
  method FreeProc(m: Machine, p: Proc)
    requires m.Valid() && (p.trapframe != 0 ==> p.trapframe in m.owner && m.owner[p.trapframe].Kernel?)
    requires p.pagetable != 0 ==> TopOk(m.S(), p.pagetable, p.sz)
    modifies m, p
    ensures m.Valid() && p.state == UNUSED && p.trapframe == 0 && p.pagetable == 0 && p.sz == 0
    ensures m.failures == old(m.failures)
    ensures Local(old(m.S()), m.S(), old(p.pagetable), old(p.trapframe)) && Vacant(m.S(), old(p.pagetable))
    ensures old(p.trapframe) != 0 ==> m.owner[old(p.trapframe)].Free?
  {
    hide FreeOk, NodesOk, LeavesOk, Pte, Local, Vacant;
    ghost var s := m.S();
    Facts(m);
    LocalSelf(s, p.pagetable, p.trapframe);
    if p.trapframe != 0 {
      m.Kfree(p.trapframe, {});
      FrameLocal(s, m.S(), p.pagetable, p.trapframe);
      LeavesSame(s, m.S());
    }
    p.trapframe := 0;
    if p.pagetable != 0 {
      ghost var t := m.S();
      ProcFreepagetable(m, p.pagetable, p.sz);
      LocalWeaker(t, m.S(), p.pagetable, old(p.trapframe));
      if old(p.trapframe) != 0 {
        LocalFree(t, m.S(), p.pagetable, old(p.trapframe));
      }
      LocalTwice(s, t, m.S(), p.pagetable, old(p.trapframe));
    } else {
      NullRoot(m);
    }
    p.pagetable, p.sz, p.state := 0, 0, UNUSED;
  }

  lemma FrameLocal(s: St, t: St, root: nat, x: nat)
    requires s.mem.Keys == s.owner.Keys == t.mem.Keys == t.owner.Keys && s.dir == t.dir && SameMap(s, t)
    requires forall g | g in s.owner && g != x :: t.owner[g] == s.owner[g] && t.mem[g] == s.mem[g]
    ensures Local(s, t, root, x)
  {
    hide Pte;
  }

  /** The null pointer is no page table. */
  lemma NullRoot(m: Machine)
    requires m.Valid()
    ensures Vacant(m.S(), 0)
  {
    hide Pte, EntryOk, Vacant;
    forall k | k in m.dir ensures k.root != 0 {
      RootOf(m.S(), k);
    }
    VacantRoot(m.S(), 0);
  }

  /** Takes an unused slot and gives it a trapframe and an empty address space; -1 changes nothing. */
  method AllocProc(m: Machine, procs: seq<Proc>, trampoline: nat) returns (i: int)
    requires m.Valid() && Distinct(procs) && TableOk(m.S(), Table(procs), trampoline)
    modifies m, procs
    ensures m.Valid() && TableOk(m.S(), Table(procs), trampoline)
    ensures i == -1 ==> Restored(old(m.S()), m.S()) && Table(procs) == old(Table(procs))
    ensures i == -1 ==> m.failures == old(m.failures) + 1 || forall j | 0 <= j < |procs| :: procs[j].state != UNUSED
    ensures i == -1 <==> |old(m.free)| < 4 || forall j | 0 <= j < |procs| :: old(procs[j].state) != UNUSED
    ensures i != -1 ==>
              m.failures == old(m.failures) && forall j | 0 <= j < i && j < |procs| :: procs[j].state != UNUSED
    ensures i != -1 ==> && 0 <= i < |procs| && old(procs[i].state) == UNUSED
                        && procs[i].state == USED && procs[i].sz == 0
                        && NewSpace(old(m.S()), m.S(), procs[i].pagetable, procs[i].trapframe)
                        && Table(procs) == old(Table(procs))[i := procs[i].V()]
                        && |m.free| == |old(m.free)| - 4 && m.dir.Keys == old(m.dir).Keys + Fresh(procs[i].pagetable)
  {
    hide FreeOk, NodesOk, LeavesOk, Table, SpaceOk, NewSpace, Restored, Fresh;
    ghost var s, hs := m.S(), Table(procs);
    i := 0;
    while i < |procs| && procs[i].state != UNUSED
      invariant 0 <= i <= |procs| && m.S() == s && m.Valid() && forall j | 0 <= j < i :: procs[j].state != UNUSED
    {
      i := i + 1;
    }
    if i == |procs| {
      Unchanged(m);
      return -1;
    }
    assert HoldOk(s, hs[i], trampoline);
    var ok := InitProc(m, procs[i], trampoline);
    if !ok {
      assert Table(procs) == hs;
      TableRestored(s, m.S(), hs, trampoline);
      return -1;
    }
    assert Table(procs) == hs[i := procs[i].V()];
    TableFilled(s, m.S(), hs, i, procs[i].V(), trampoline);
  }

  lemma Unchanged(m: Machine)
    requires m.Valid()
    ensures Restored(m.S(), m.S())
  {
  }

  lemma VacantBefore(s: St, t: St, r: nat, x: nat)
    requires Vacant(t, r) && s.dir == t.dir && x in s.owner && s.owner[x].Free? && t.owner == s.owner[x := Kernel]
    ensures Vacant(s, r)
  {
    forall g | g in s.owner && Loose(s.owner[g], r) ensures s.owner[g].Free? {
      assert t.owner[g] == if g == x then Kernel else s.owner[g];
    }
  }

  lemma RestoredLocal(s: St, t: St, root: nat, x: nat)
    requires NodesOk(s, {}) && Restored(s, t)
    ensures Local(s, t, root, x)
  {
    hide Pte, EntryOk;
    RestoredMap(s, t);
  }

  method InitProc(m: Machine, p: Proc, trampoline: nat) returns (ok: bool)
    requires m.Valid() && p.V() == Hold(UNUSED, 0, 0, 0)
    modifies m, p
    ensures m.Valid() && m.failures == old(m.failures) + (if ok then 0 else 1)
    ensures ok <==> |old(m.free)| >= 4
    ensures ok ==> |m.free| == |old(m.free)| - 4 && m.dir.Keys == old(m.dir).Keys + Fresh(p.pagetable)
    ensures if ok then && p.state == USED && p.sz == 0 && NewSpace(old(m.S()), m.S(), p.pagetable, p.trapframe)
                       && SpaceOk(m.S(), p.pagetable, p.trapframe, 0, trampoline)
            else Restored(old(m.S()), m.S()) && p.V() == old(p.V())
  {
    hide FreeOk, NodesOk, LeavesOk, Pte, Local, Vacant, SpaceOk, Fresh;
    ghost var s := m.S();
    Facts(m);
    NullRoot(m);
    p.state := USED;
    p.trapframe := m.Kalloc({});
    if p.trapframe == 0 {
      FreeProc(m, p);
      CameAndWent(s, m.S(), 0, 0);
      return false;
    }
    var x := p.trapframe;
    LeavesSame(s, m.S());
    ghost var t := m.S();
    p.pagetable := ProcPagetable(m, x, trampoline);
    if p.pagetable == 0 {
      ghost var u := m.S();
      FrameLocal(s, t, 0, x);
      RestoredLocal(t, u, 0, x);
      LocalTwice(s, t, u, 0, x);
      FreeProc(m, p);
      LocalTwice(s, u, m.S(), 0, x);
      CameAndWent(s, m.S(), 0, x);
      return false;
    }
    FrameLocal(s, t, p.pagetable, x);
    LocalWeaker(t, m.S(), p.pagetable, x);
    LocalTwice(s, t, m.S(), p.pagetable, x);
    VacantBefore(s, t, p.pagetable, x);
    return true;
  }

  /** The child's trapframe: the parent's saved registers, but fork returns 0 in the child. */
  function ForkFrame(parent: seq<nat>, child: seq<nat>): seq<nat>
    requires |parent| == PGSIZE && |child| == PGSIZE
  {
    parent[..A0] + Zeros(8) + parent[A0 + 8..TRAPFRAME_SIZE] + child[TRAPFRAME_SIZE..]
  }

  const A0: nat := 112
  const TRAPFRAME_SIZE: nat := 288

  /** The first n pages of `child` in t are those of `parent` in s: same holes, permissions and bytes. */
  ghost predicate SameSpace(s: St, t: St, parent: nat, child: nat, n: nat) {
    forall v: nat | v < n :: PageSame(s, t, parent, child, v)
  }

  ghost predicate PageSame(s: St, t: St, parent: nat, child: nat, v: nat) {
    && (PteValid(Pte(t, child, v)) <==> PteValid(Pte(s, parent, v)))
    && (PteValid(Pte(s, parent, v)) ==>
          && PageOf(t, child, v) == PageOf(s, parent, v)
          && var f := PteFrame(Pte(t, child, v));
             f in s.owner && s.owner[f].Free? && f in t.owner && t.owner[f] == Leaf(child, v))
  }

  /** Frames a fork takes: the trapframe, three page-table pages, the pages to copy and the page-table
      pages these need besides.  The last number is the same whatever the child's root frame. */
  ghost function ForkNeeds(s: St, parent: nat, n: nat): nat {
    4 + MappedBelow(s, parent, n) + CopyExtra(s, parent, 0, n)
  }

  /** The memory of fork: a copy of the parent in an unused slot; on -1 nothing has changed.  It is -1
      exactly if there is no unused slot or there are too few free frames. */
  method KFork(m: Machine, procs: seq<Proc>, parent: nat, trampoline: nat) returns (i: int)
    requires m.Valid() && Distinct(procs) && TableOk(m.S(), Table(procs), trampoline)
    requires parent < |procs| && procs[parent].state == RUNNING
    modifies m, procs
    ensures m.Valid() && TableOk(m.S(), Table(procs), trampoline)
    ensures i == -1 ==> Restored(old(m.S()), m.S()) && Table(procs) == old(Table(procs))
    ensures i == -1 ==> m.failures == old(m.failures) + 1 || forall j | 0 <= j < |procs| :: procs[j].state != UNUSED
    ensures i == -1 <==>
            || (forall j | 0 <= j < |procs| :: old(procs[j].state) != UNUSED)
            || |old(m.free)| < ForkNeeds(old(m.S()), old(procs[parent].pagetable), Pages(old(procs[parent].sz)))
    ensures i != -1 ==> && m.failures == old(m.failures) && 0 <= i < |procs| && i != parent
                        && old(procs[i].state) == UNUSED && procs[i].state == RUNNABLE
                        && Table(procs) == old(Table(procs))[i := procs[i].V()]
                        && Forked(old(m.S()), m.S(), procs[parent].V(), procs[i].V())
  {
    hide FreeOk, NodesOk, LeavesOk, Table, SpaceOk, NewSpace, Restored, SameSpace, Registers;
    hide MappedBelow, CopyExtra, Fresh;
    ghost var s, hs := m.S(), Table(procs);
    assert HoldOk(s, hs[parent], trampoline);
    i := AllocProc(m, procs, trampoline);
    if i == -1 {
      return;
    }
    ghost var t := m.S();
    assert Table(procs)[i] == procs[i].V() && HoldOk(t, Table(procs)[i], trampoline) && hs[i].state == UNUSED;
    assert HoldOk(s, hs[i], trampoline) && procs[parent].V() == hs[parent];
    var ok := ForkInto(m, procs[parent], procs[i], s, trampoline);
    if !ok {
      assert Table(procs) == hs;
      TableRestored(s, m.S(), hs, trampoline);
      return -1;
    }
    assert Table(procs) == hs[i := procs[i].V()];
    TableFilled(s, m.S(), hs, i, procs[i].V(), trampoline);
  }

  /** The child has the parent's memory and registers on frames that were free; nothing else changed. */
  ghost predicate Forked(s: St, t: St, p: Hold, c: Hold) {
    && c.sz == p.sz && NewSpace(s, t, c.pagetable, c.trapframe)
    && SameSpace(s, t, p.pagetable, c.pagetable, Pages(p.sz))
    && p.trapframe in s.mem && s.mem[p.trapframe].Bytes? && |s.mem[p.trapframe].data| == PGSIZE
    && c.trapframe in t.mem && t.mem[c.trapframe].Bytes? && |t.mem[c.trapframe].data| == PGSIZE
    && Registers(s.mem[p.trapframe].data, t.mem[c.trapframe].data)
  }

  /** The same saved registers, except that a0 is zero. */
  predicate Registers(parent: seq<nat>, child: seq<nat>)
    requires |parent| == PGSIZE && |child| == PGSIZE
  {
    forall j | 0 <= j < TRAPFRAME_SIZE :: child[j] == if A0 <= j < A0 + 8 then 0 else parent[j]
  }

  /** kfork once the child's slot is found. */
  method ForkInto(m: Machine, p: Proc, np: Proc, ghost s: St, trampoline: nat) returns (ok: bool)
    requires m.Valid() && NodesOk(s, {}) && LeavesOk(s) && SpaceOk(s, p.pagetable, p.trapframe, p.sz, trampoline)
    requires p != np
    requires NewSpace(s, m.S(), np.pagetable, np.trapframe) && SpaceOk(m.S(), np.pagetable, np.trapframe, 0, trampoline)
    requires np.sz == 0 && m.dir.Keys == s.dir.Keys + Fresh(np.pagetable)
    modifies m, np
    ensures m.Valid() && m.failures == old(m.failures) + (if ok then 0 else 1)
    ensures ok <==> |old(m.free)| + 4 >= ForkNeeds(s, p.pagetable, Pages(p.sz))
    ensures if ok then np.state == RUNNABLE && Forked(s, m.S(), p.V(), np.V())
                       && SpaceOk(m.S(), np.pagetable, np.trapframe, np.sz, trampoline)
            else Restored(s, m.S()) && np.V() == Hold(UNUSED, 0, 0, 0)
  {
    hide FreeOk, NodesOk, LeavesOk, Placed, CopyOf, Local, Vacant, Pte, SpaceOk, Forked, ForkNeeds, CopyNeeds, Fresh;
    hide Grown, Restored, Machine.Ok;
    ghost var t, r, x := m.S(), np.pagetable, np.trapframe;
    Facts(m);
    SpaceApart(s, p.V(), np.V(), trampoline);
    SpaceKept(s, t, p.pagetable, p.trapframe, p.sz, trampoline, r, x);
    ForkReady(t, p.pagetable, p.trapframe, p.sz, trampoline);
    ForkReady(t, r, x, 0, trampoline);
    ForkCounted(s, t, p.pagetable, r, x, Pages(p.sz));
    ok := Uvmcopy(m, p.pagetable, np.pagetable, p.sz);
    if ok {
      FillChild(m, p, np, s, t, trampoline);
    } else {
      UndoFork(m, np, s, t, trampoline);
    }
  }

  /** What the copy will need, counted before the child's slot was taken. */
  lemma ForkCounted(s: St, t: St, parent: nat, r: nat, x: nat, n: nat)
    requires NewSpace(s, t, r, x) && parent != r && t.dir.Keys == s.dir.Keys + Fresh(r)
    ensures 4 + CopyNeeds(t, parent, r, n, t.dir.Keys) == ForkNeeds(s, parent, n)
  {
    hide MappedBelow, CopyExtra, CopyNeeds, Path, Pte;
    SameHoles(s, t, parent, r, n);
    CopyNeedsNew(t, parent, r, n, s.dir.Keys);
    assert s.dir.Keys + Fresh(r) == s.dir.Keys + {Key(r, 2, 0)} + Path(r, TRAMPOLINE);
    SameExtra(s, t, parent, r, n);
    CopyExtraAnyRoot(s, parent, r, 0, n);
  }

  lemma SameExtra(s: St, t: St, parent: nat, r: nat, n: nat)
    requires CopyPaths(t, parent, r, n) == CopyPaths(s, parent, r, n)
    ensures CopyExtra(t, parent, r, n) == CopyExtra(s, parent, r, n)
  {
  }

  /** freeproc of a child whose memory could not be copied. */
  method UndoFork(m: Machine, np: Proc, ghost s: St, ghost t: St, ghost trampoline: nat)
    requires m.Valid() && NodesOk(s, {}) && np.sz == 0
    requires NewSpace(s, t, np.pagetable, np.trapframe) && SpaceOk(t, np.pagetable, np.trapframe, 0, trampoline)
    requires Grown(t, m.S(), np.pagetable)
    modifies m, np
    ensures m.Valid() && m.failures == old(m.failures) && Restored(s, m.S()) && np.V() == Hold(UNUSED, 0, 0, 0)
  {
    hide FreeOk, NodesOk, LeavesOk, Local, Vacant, Pte, Grown, MakePte;
    ghost var u, r, x := m.S(), np.pagetable, np.trapframe;
    Facts(m);
    GrownLocal(t, u, r, x);
    LocalTwice(s, t, u, r, x);
    GrownTop(t, u, r, x, trampoline);
    FreeProc(m, np);
    LocalTwice(s, u, m.S(), r, x);
    CameAndWent(s, m.S(), r, x);
  }

  /** kfork once the memory is copied: size, registers and state. */
  method FillChild(m: Machine, p: Proc, np: Proc, ghost s: St, ghost t: St, trampoline: nat)
    requires m.Valid() && LeavesOk(s) && LeavesOk(t) && SpaceOk(s, p.pagetable, p.trapframe, p.sz, trampoline)
    requires p != np
    requires NewSpace(s, t, np.pagetable, np.trapframe) && SpaceOk(t, np.pagetable, np.trapframe, 0, trampoline)
    requires p.pagetable != np.pagetable && p.trapframe != np.trapframe
    requires Placed(t, m.S(), np.pagetable, CopyOf(t, p.pagetable, Pages(p.sz)))
    modifies m, np
    ensures m.Valid() && m.failures == old(m.failures) && np.state == RUNNABLE && Forked(s, m.S(), p.V(), np.V())
    ensures SpaceOk(m.S(), np.pagetable, np.trapframe, np.sz, trampoline)
  {
    hide FreeOk, NodesOk, LeavesOk, Placed, CopyOf, Local, Vacant, SameSpace, Pte, SpaceOk, Registers, ForkFrame;
    hide NewSpace;
    ghost var u, r, x := m.S(), np.pagetable, np.trapframe;
    Facts(m);
    ChildCopied(s, t, u, p.V(), np.V(), trampoline);
    FrameBytes(u, p.pagetable, p.trapframe, p.sz, trampoline);
    FrameBytes(u, r, x, p.sz, trampoline);
    np.sz := p.sz;
    var data := ForkFrame(m.mem[p.trapframe].data, m.mem[np.trapframe].data);
    ForkRegisters(m.mem[p.trapframe].data, m.mem[np.trapframe].data);
    m.StoreFrame(np.trapframe, data);
    ChildStored(s, u, m.S(), p.V(), np.V(), trampoline);
    np.state := RUNNABLE;
  }

  lemma ChildCopied(s: St, t: St, u: St, p: Hold, c: Hold, trampoline: nat)
    requires LeavesOk(s) && LeavesOk(t) && SpaceOk(s, p.pagetable, p.trapframe, p.sz, trampoline)
    requires NewSpace(s, t, c.pagetable, c.trapframe) && SpaceOk(t, c.pagetable, c.trapframe, 0, trampoline)
    requires p.pagetable != c.pagetable && p.trapframe != c.trapframe
    requires Placed(t, u, c.pagetable, CopyOf(t, p.pagetable, Pages(p.sz)))
    ensures NewSpace(s, u, c.pagetable, c.trapframe) && SameSpace(s, u, p.pagetable, c.pagetable, Pages(p.sz))
    ensures SpaceOk(u, p.pagetable, p.trapframe, p.sz, trampoline)
    ensures SpaceOk(u, c.pagetable, c.trapframe, p.sz, trampoline)
    ensures p.trapframe in s.mem && u.mem[p.trapframe] == s.mem[p.trapframe]
  {
    hide LeavesOk, Placed, CopyOf, Local, Vacant, SameSpace, Pte, SpaceOk;
    ForkReady(s, p.pagetable, p.trapframe, p.sz, trampoline);
    ForkReady(t, c.pagetable, c.trapframe, 0, trampoline);
    PlacedLocal(t, u, c.pagetable, CopyOf(t, p.pagetable, Pages(p.sz)), c.trapframe);
    LocalTwice(s, t, u, c.pagetable, c.trapframe);
    CopyTop(t, u, p.pagetable, c.pagetable, c.trapframe, p.sz, trampoline);
    CopySame(s, t, u, p.pagetable, c.pagetable, c.trapframe, Pages(p.sz));
    SpaceKept(s, u, p.pagetable, p.trapframe, p.sz, trampoline, c.pagetable, c.trapframe);
    LocalKernel(s, u, c.pagetable, c.trapframe, p.trapframe);
  }

  lemma ChildStored(s: St, u: St, w: St, p: Hold, c: Hold, trampoline: nat)
    requires NewSpace(s, u, c.pagetable, c.trapframe) && SameSpace(s, u, p.pagetable, c.pagetable, Pages(p.sz))
    requires SpaceOk(s, p.pagetable, p.trapframe, p.sz, trampoline)
    requires SpaceOk(u, c.pagetable, c.trapframe, p.sz, trampoline)
    requires p.trapframe != c.trapframe
    requires w.owner == u.owner && w.dir == u.dir && SameMap(u, w) && w.mem.Keys == u.mem.Keys == u.owner.Keys
    requires forall g | g in u.mem && g != c.trapframe :: w.mem[g] == u.mem[g]
    requires c.trapframe in w.mem && w.mem[c.trapframe].Bytes? && |w.mem[c.trapframe].data| == PGSIZE
    ensures NewSpace(s, w, c.pagetable, c.trapframe) && SameSpace(s, w, p.pagetable, c.pagetable, Pages(p.sz))
    ensures SpaceOk(w, c.pagetable, c.trapframe, p.sz, trampoline)
    ensures p.trapframe in s.mem && s.mem[p.trapframe].Bytes? && |s.mem[p.trapframe].data| == PGSIZE
  {
    hide Local, Vacant, SameSpace, Pte, SpaceOk;
    FrameLocal(u, w, c.pagetable, c.trapframe);
    LocalTwice(s, u, w, c.pagetable, c.trapframe);
    FrameBytes(s, p.pagetable, p.trapframe, p.sz, trampoline);
    FrameBytes(u, c.pagetable, c.trapframe, p.sz, trampoline);
    StoredTop(u, w, c.pagetable, c.trapframe, p.sz, trampoline);
    StoredSame(s, u, w, p.pagetable, c.pagetable, Pages(p.sz), c.trapframe);
  }

  lemma ForkRegisters(parent: seq<nat>, child: seq<nat>)
    requires |parent| == PGSIZE && |child| == PGSIZE
    ensures |ForkFrame(parent, child)| == PGSIZE && Registers(parent, ForkFrame(parent, child))
  {
  }

  lemma FrameBytes(s: St, root: nat, tf: nat, sz: nat, trampoline: nat)
    requires SpaceOk(s, root, tf, sz, trampoline)
    ensures tf in s.mem && tf in s.owner && s.owner[tf].Kernel? && s.mem[tf].Bytes? && |s.mem[tf].data| == PGSIZE
  {
  }

  lemma ForkReady(s: St, root: nat, tf: nat, sz: nat, trampoline: nat)
    requires SpaceOk(s, root, tf, sz, trampoline)
    ensures Key(root, 2, 0) in s.dir && sz <= TRAPFRAME * PGSIZE && tf in s.owner && s.owner[tf].Kernel?
    ensures TopOk(s, root, sz)
    ensures Pages(sz) <= TRAPFRAME && (sz == 0 ==> forall v: nat | v < TRAPFRAME :: Pte(s, root, v) == 0)
  {
    hide Pte;
  }

  lemma GrownTop(s: St, t: St, root: nat, tf: nat, trampoline: nat)
    requires SpaceOk(s, root, tf, 0, trampoline) && Grown(s, t, root)
    ensures SpaceOk(t, root, tf, 0, trampoline)
  {
    hide Pte, MakePte;
  }

  lemma CopyTop(s: St, t: St, parent: nat, root: nat, tf: nat, sz: nat, trampoline: nat)
    requires SpaceOk(s, root, tf, 0, trampoline) && sz <= TRAPFRAME * PGSIZE
    requires Placed(s, t, root, CopyOf(s, parent, Pages(sz)))
    ensures SpaceOk(t, root, tf, sz, trampoline)
  {
    hide Pte, MakePte, PteValid, PageOf, PlacedAt;
  }

  lemma CopySame(s: St, t: St, u: St, parent: nat, r: nat, x: nat, n: nat)
    requires LeavesOk(s) && LeavesOk(t) && Local(s, t, r, x) && Vacant(s, r) && parent != r && n <= TRAPFRAME
    requires x in s.owner && s.owner[x].Free? && t.owner[x].Kernel? && forall v: nat | v < n :: Pte(t, r, v) == 0
    requires Placed(t, u, r, CopyOf(t, parent, n))
    ensures SameSpace(s, u, parent, r, n)
  {
    hide Pte, PageOf, CopyOf, Placed, Local, Vacant, LeavesOk;
    forall v: nat | v < n ensures PageSame(s, u, parent, r, v) {
      CopyIsExact(t, u, parent, r, n, v);
      ParentPage(s, t, parent, r, x, v);
      if PteValid(Pte(s, parent, v)) {
        NewFrameWasFree(s, t, r, x, PteFrame(Pte(u, r, v)));
        assert PageOf(u, r, v) == PageOf(t, parent, v);
      }
    }
  }

  lemma NewFrameWasFree(s: St, t: St, r: nat, x: nat, f: nat)
    requires Local(s, t, r, x) && Vacant(s, r) && f in t.owner && t.owner[f].Free? && f != x
    ensures f in s.owner && s.owner[f].Free?
  {
  }

  lemma ParentPage(s: St, t: St, parent: nat, r: nat, x: nat, v: nat)
    requires LeavesOk(s) && Local(s, t, r, x) && parent != r && v < TRAPFRAME && x in s.owner && s.owner[x].Free?
    ensures Pte(t, parent, v) == Pte(s, parent, v)
    ensures PteValid(Pte(s, parent, v)) ==> PageOf(t, parent, v) == PageOf(s, parent, v)
  {
    hide Pte;
    if PteValid(Pte(s, parent, v)) {
      assert LeafOk(s, PteFrame(Pte(s, parent, v)));
    }
  }

  lemma StoredTop(s: St, t: St, root: nat, tf: nat, sz: nat, trampoline: nat)
    requires SpaceOk(s, root, tf, sz, trampoline) && s.dir == t.dir && s.owner == t.owner && SameMap(s, t)
    requires tf in t.mem && t.mem[tf].Bytes? && |t.mem[tf].data| == PGSIZE
    ensures SpaceOk(t, root, tf, sz, trampoline)
  {
    hide Pte, MakePte;
  }

  lemma StoredSame(s: St, t: St, u: St, parent: nat, r: nat, n: nat, x: nat)
    requires SameSpace(s, t, parent, r, n) && SameMap(t, u) && u.owner == t.owner && u.mem.Keys == t.mem.Keys
    requires x in t.owner && t.owner[x].Kernel? && forall g | g in t.mem && g != x :: u.mem[g] == t.mem[g]
    ensures SameSpace(s, u, parent, r, n)
  {
    hide Pte;
    forall v: nat | v < n ensures PageSame(s, u, parent, r, v) {
      assert PageSame(s, t, parent, r, v);
    }
  }
}
