/** User memory as the process sees it: growing it page by page on demand or all at once
    makes no difference. */
module Lazy {
  import opened Params
  import opened PageTables
  import opened FreeTree
  import opened Spaces
  import opened Vm
  import opened ProcMem

  /** A user page as the process sees it: pages not yet allocated read as zeros. */
  ghost function UserPage(s: St, root: nat, v: nat): Want {
    if PteValid(Pte(s, root, v)) then PageOf(s, root, v) else Want(PTE_V + PTE_R + PTE_W + PTE_U, Zeros(PGSIZE))
  }

  /** The memory of a process of sz bytes. */
  ghost function User(s: St, root: nat, sz: nat): map<nat, Want> {
    map v: nat | 0 <= v < Pages(sz) :: UserPage(s, root, v)
  }

  predicate UserBit(perm: nat) { perm / 16 % 2 == 1 }
  predicate WriteBit(perm: nat) { perm / 4 % 2 == 1 }

  lemma FlagBits(e: nat)
    ensures UserBit(PteFlags(e)) <==> UserBit(e)
    ensures WriteBit(PteFlags(e)) <==> WriteBit(e)
  {
    var q, g := e / 1024, e % 1024;
    assert e / 16 == q * 64 + g / 16 && e / 4 == q * 256 + g / 4 by {
      Shift(q, g);
    }
    Parity(q * 32, g / 16);
    Parity(q * 128, g / 4);
  }

  lemma Shift(q: nat, g: nat)
    ensures (q * 1024 + g) / 16 == q * 64 + g / 16 && (q * 1024 + g) / 4 == q * 256 + g / 4
  {
  }

  lemma Parity(a: nat, b: nat)
    ensures (2 * a + b) % 2 == b % 2
  {
  }

  predicate Readable(u: map<nat, Want>, va: nat) {
    va / PGSIZE in u && UserBit(u[va / PGSIZE].perm) && |u[va / PGSIZE].data| == PGSIZE
  }

  predicate Writable(u: map<nat, Want>, va: nat) {
    Readable(u, va) && WriteBit(u[va / PGSIZE].perm)
  }

  function ByteAt(u: map<nat, Want>, va: nat): nat
    requires Readable(u, va)
  {
    u[va / PGSIZE].data[va % PGSIZE]
  }

  /** No user memory lies above this, whatever the size of the process says. */
  function Cap(sz: nat): nat { Min(sz, TRAPFRAME * PGSIZE) }

  predicate InBounds(p: Proc)
    reads p
  {
    p.sz <= TRAPFRAME * PGSIZE
  }

  const TWO64: int := 0x1_0000_0000_0000_0000

  ghost predicate Own(m: Machine, p: Proc, trampoline: nat)
    reads m, p
  {
    m.Valid() && p.sz < TWO64 && SpaceOk(m.S(), p.pagetable, p.trapframe, Cap(p.sz), trampoline)
  }

  ghost function Mem(m: Machine, p: Proc): map<nat, Want>
    reads m, p
  {
    User(m.S(), p.pagetable, Cap(p.sz))
  }

  /** A page table that only grew, or got a zeroed page where none was, shows the same memory. */
  lemma GrownUser(s: St, t: St, root: nat, sz: nat, tf: nat, trampoline: nat)
    requires LeavesOk(s) && SpaceOk(s, root, tf, sz, trampoline) && Grown(s, t, root)
    ensures SpaceOk(t, root, tf, sz, trampoline) && User(t, root, sz) == User(s, root, sz)
  {
    hide Pte, MakePte, PageOf;
    forall v: nat | v < Pages(sz) ensures UserPage(t, root, v) == UserPage(s, root, v) {
      if PteValid(Pte(s, root, v)) {
        SamePage(s, t, root, v);
      }
    }
  }

  lemma SamePage(s: St, t: St, root: nat, v: nat)
    requires LeavesOk(s) && v < TRAPFRAME && PteValid(Pte(s, root, v)) && Pte(t, root, v) == Pte(s, root, v)
    requires s.mem.Keys == t.mem.Keys
    requires forall g | g in s.owner && s.owner[g].Leaf? :: g in t.mem && t.mem[g] == s.mem[g]
    ensures PageOf(t, root, v) == PageOf(s, root, v)
  {
    hide Pte;
    assert LeafOk(s, PteFrame(Pte(s, root, v)));
  }

  lemma FaultUser(s: St, t: St, root: nat, sz: nat, tf: nat, trampoline: nat, v: nat, f: nat)
    requires LeavesOk(s) && SpaceOk(s, root, tf, sz, trampoline) && v < Pages(sz) && Pte(s, root, v) == 0
    requires OnePage(s, t, root, v, f, PTE_W + PTE_U + PTE_R, Zeros(PGSIZE))
    ensures SpaceOk(t, root, tf, sz, trampoline) && User(t, root, sz) == User(s, root, sz)
    ensures PteValid(Pte(t, root, v)) && PteFrame(Pte(t, root, v)) == f
  {
    hide Pte, MakePte, PageOf;
    NullEntry();
    PteFields(f, PTE_W + PTE_U + PTE_R);
    forall w: nat | w < Pages(sz) ensures UserPage(t, root, w) == UserPage(s, root, w) {
      if w == v {
        ZeroFrame(t, root, v, f);
      } else if PteValid(Pte(s, root, w)) {
        SamePage(s, t, root, w);
      }
    }
  }

  lemma ZeroFrame(t: St, root: nat, v: nat, f: nat)
    requires Pte(t, root, v) == MakePte(f, PTE_W + PTE_U + PTE_R) && f in t.mem && t.mem[f] == Bytes(Zeros(PGSIZE))
    ensures PageOf(t, root, v) == Want(PTE_V + PTE_R + PTE_W + PTE_U, Zeros(PGSIZE))
  {
    hide Pte;
    PteFields(f, PTE_W + PTE_U + PTE_R);
  }

  /** The physical page of a user page; 0 if it has none that users may access. */
  method Walkaddr(m: Machine, p: Proc, v: nat, ghost trampoline: nat) returns (f: nat)
    requires Own(m, p, trampoline)
    ensures f != 0 ==>
              v < Pages(Cap(p.sz)) && PteValid(Pte(m.S(), p.pagetable, v)) && UserBit(Pte(m.S(), p.pagetable, v))
                       && PteFrame(Pte(m.S(), p.pagetable, v)) == f
    ensures f == 0 && v < Pages(Cap(p.sz)) ==>
              !PteValid(Pte(m.S(), p.pagetable, v)) || !UserBit(Pte(m.S(), p.pagetable, v))
    modifies m
    ensures unchanged(m)
  {
    hide FreeOk, NodesOk, LeavesOk, Pte, PteValid, PteFrame, UserBit, MakePte;
    NullEntry();
    Facts(m);
    if v >= MAXVPN {
      return 0;
    }
    var s := m.Walk(p.pagetable, v, false);
    if s == NoSlot {
      NoEntry(m.S(), p.pagetable, v);
      return 0;
    }
    var e := m.ReadEntry(s, p.pagetable, v);
    if !PteValid(e) {
      return 0;
    }
    if !UserBit(e) {
      return 0;
    }
    TopBits(m.S(), p.pagetable, p.trapframe, Cap(p.sz), trampoline, v);
    f := PteFrame(e);
  }

  /** The trapframe and trampoline pages are not for users. */
  lemma TopBits(s: St, root: nat, tf: nat, sz: nat, trampoline: nat, v: nat)
    requires SpaceOk(s, root, tf, sz, trampoline) && LeavesOk(s) && PteValid(Pte(s, root, v))
    requires UserBit(Pte(s, root, v))
    ensures v < Pages(sz) && PteFrame(Pte(s, root, v)) in s.mem
  {
    hide Pte;
    NullEntry();
    TopFlags(trampoline, PTE_R + PTE_X);
    TopFlags(tf, PTE_R + PTE_W);
  }

  lemma TopFlags(f: nat, perm: nat)
    requires perm < 16
    ensures !UserBit(MakePte(f, perm))
  {
    PteFields(f, perm);
    FlagBits(MakePte(f, perm));
  }

  /** Gives a page that was only promised its frame.  oom: no memory was left for it or its page-table
      pages.  A size above MAXVA lets walk's panic through. */
  method Vmfault(m: Machine, p: Proc, va: nat, ghost trampoline: nat) returns (f: nat, oom: bool, panicked: bool)
    requires Own(m, p, trampoline)
    modifies m
    ensures Own(m, p, trampoline) && Mem(m, p) == old(Mem(m, p))
    ensures m.failures == old(m.failures) + (if oom then 1 else 0)
    ensures panicked <==> va < p.sz && va / PGSIZE >= MAXVPN
    ensures oom || panicked ==> f == 0 && !(oom && panicked)
    ensures f != 0 ==> va / PGSIZE < Pages(Cap(p.sz)) && !PteValid(Pte(old(m.S()), p.pagetable, va / PGSIZE))
                       && PteValid(Pte(m.S(), p.pagetable, va / PGSIZE))
                       && PteFrame(Pte(m.S(), p.pagetable, va / PGSIZE)) == f
    ensures f == 0 && !oom ==> unchanged(m)
    ensures oom ==> |old(m.free)| < 1 + |Path(p.pagetable, va / PGSIZE) - old(m.dir).Keys|
    ensures if oom then |old(m.free)| < 3 else |m.free| >= |old(m.free)| - 3
    ensures f == 0 && !oom && !panicked ==> va >= p.sz || PteValid(Pte(m.S(), p.pagetable, va / PGSIZE))
  {
    hide FreeOk, NodesOk, LeavesOk, Pte, PteValid, PteFrame, MakePte, UserPage, User, OnePage, Grown, SpaceOk;
    NullEntry();
    Facts(m);
    if va >= p.sz {
      return 0, false, false;
    }
    if va / PGSIZE >= MAXVPN {
      return 0, false, true;
    }
    ghost var s := m.S();
    ghost var v := va / PGSIZE;
    SpaceBounds(m.S(), p.pagetable, p.trapframe, Cap(p.sz), trampoline);
    var slot := m.Walk(p.pagetable, va / PGSIZE, false);
    if slot != NoSlot {
      var e := m.ReadEntry(slot, p.pagetable, va / PGSIZE);
      if PteValid(e) {
        return 0, false, false;
      }
    } else {
      NoEntry(s, p.pagetable, v);
    }
    TopMapped(s, p.pagetable, p.trapframe, Cap(p.sz), trampoline);
    assert v < Pages(Cap(p.sz)) by { CapBelow(p.sz, va); }
    f := FaultIn(m, p, va, trampoline);
    oom, panicked := f == 0, false;
  }

  lemma CapBelow(sz: nat, va: nat)
    requires va < sz && va / PGSIZE < MAXVPN && va / PGSIZE != TRAPFRAME && va / PGSIZE != TRAMPOLINE
    ensures va / PGSIZE < Pages(Cap(sz))
  {
  }

  /** kalloc and mappages of a zeroed page. */
  method FaultIn(m: Machine, p: Proc, va: nat, ghost trampoline: nat) returns (f: nat)
    requires Own(m, p, trampoline) && va / PGSIZE < Pages(Cap(p.sz)) && !PteValid(Pte(m.S(), p.pagetable, va / PGSIZE))
    modifies m
    ensures Own(m, p, trampoline) && Mem(m, p) == old(Mem(m, p))
    ensures m.failures == old(m.failures) + (if f == 0 then 1 else 0)
    ensures f != 0 <==> |old(m.free)| >= 1 + |Path(p.pagetable, va / PGSIZE) - old(m.dir).Keys|
    ensures if f == 0 then |old(m.free)| < 3 else |m.free| >= |old(m.free)| - 3
    ensures f != 0 ==> PteValid(Pte(m.S(), p.pagetable, va / PGSIZE))
                       && PteFrame(Pte(m.S(), p.pagetable, va / PGSIZE)) == f
  {
    hide FreeOk, NodesOk, LeavesOk, Pte, PteValid, PteFrame, MakePte, UserPage, User, OnePage, Grown, SpaceOk, Path;
    ghost var s := m.S();
    ghost var v := va / PGSIZE;
    PathAtMost(p.pagetable, v, m.dir.Keys);
    SpaceBounds(s, p.pagetable, p.trapframe, Cap(p.sz), trampoline);
    InvalidZero(m, p.pagetable, v);
    f := m.AddPage(p.pagetable, va / PGSIZE, Zeros(PGSIZE), PTE_W + PTE_U + PTE_R);
    if f == 0 {
      GrownUser(s, m.S(), p.pagetable, Cap(p.sz), p.trapframe, trampoline);
    } else {
      FaultUser(s, m.S(), p.pagetable, Cap(p.sz), p.trapframe, trampoline, v, f);
    }
  }

  lemma TopMapped(s: St, root: nat, tf: nat, sz: nat, trampoline: nat)
    requires SpaceOk(s, root, tf, sz, trampoline)
    ensures PteValid(Pte(s, root, TRAPFRAME)) && PteValid(Pte(s, root, TRAMPOLINE))
  {
    hide Pte;
    PteFields(trampoline, PTE_R + PTE_X);
    PteFields(tf, PTE_R + PTE_W);
  }

  lemma SpaceBounds(s: St, root: nat, tf: nat, sz: nat, trampoline: nat)
    requires SpaceOk(s, root, tf, sz, trampoline)
    ensures Key(root, 2, 0) in s.dir && Pages(sz) <= TRAPFRAME && forall v: nat | v < Pages(sz) :: v * PGSIZE < sz
  {
    hide Pte;
  }

  lemma InvalidZero(m: Machine, root: nat, v: nat)
    requires m.Valid() && !PteValid(Pte(m.S(), root, v)) && v < MAXVPN
    ensures Pte(m.S(), root, v) == 0
  {
    hide FreeOk, LeavesOk, PteValid;
    if Key(root, 0, v / ENTRIES) in m.dir {
      EntryAt(m.S(), Key(root, 0, v / ENTRIES), v % ENTRIES);
      m.StepDown(Key(root, 0, v / ENTRIES), v % ENTRIES);
      assert EntryOk(m.S(), {}, Key(root, 0, v / ENTRIES), v % ENTRIES);
    } else {
      NoEntry(m.S(), root, v);
    }
  }

  /** walkaddr, then vmfault: the frame of a page, for copyin and copyout. */
  method Touch(m: Machine, p: Proc, va: nat, ghost trampoline: nat) returns (f: nat, oom: bool, panicked: bool)
    requires Own(m, p, trampoline) && va % PGSIZE == 0
    modifies m
    ensures Own(m, p, trampoline) && Mem(m, p) == old(Mem(m, p))
    ensures m.failures == old(m.failures) + (if oom then 1 else 0)
    ensures panicked <==> va < p.sz && va / PGSIZE >= MAXVPN
    ensures oom || panicked ==> f == 0 && !(oom && panicked)
    ensures if oom then |old(m.free)| < 3 else |m.free| >= |old(m.free)| - 3
    ensures !oom ==> (f != 0 <==> Readable(Mem(m, p), va))
    ensures f != 0 ==> va / PGSIZE < Pages(Cap(p.sz)) && f in m.mem && m.mem[f].Bytes?
                       && m.mem[f].data == Mem(m, p)[va / PGSIZE].data
                       && f in m.owner && m.owner[f] == Leaf(p.pagetable, va / PGSIZE)
                       && PteValid(Pte(m.S(), p.pagetable, va / PGSIZE))
                       && PteFrame(Pte(m.S(), p.pagetable, va / PGSIZE)) == f
  {
    hide FreeOk, NodesOk, LeavesOk, Pte, PteValid, PteFrame, MakePte, UserBit, PageOf, SpaceOk;
    ghost var v := va / PGSIZE;
    SpaceBounds(m.S(), p.pagetable, p.trapframe, Cap(p.sz), trampoline);
    oom, panicked := false, false;
    f := Walkaddr(m, p, va / PGSIZE, trampoline);
    if f == 0 {
      f, oom, panicked := Vmfault(m, p, va, trampoline);
      LazyBits();
      assert v < Pages(Cap(p.sz)) ==> Mem(m, p)[v] == old(Mem(m, p))[v];
    }
    if v < Pages(Cap(p.sz)) && PteValid(Pte(m.S(), p.pagetable, v)) {
      MappedPage(m, p, v);
    }
  }

  lemma LazyBits()
    ensures UserBit(PTE_V + PTE_R + PTE_W + PTE_U) && WriteBit(PTE_V + PTE_R + PTE_W + PTE_U)
    ensures |Zeros(PGSIZE)| == PGSIZE
  {
  }

  lemma MappedPage(m: Machine, p: Proc, v: nat)
    requires m.Valid() && v < TRAPFRAME && PteValid(Pte(m.S(), p.pagetable, v))
    ensures var e := Pte(m.S(), p.pagetable, v); var w := PageOf(m.S(), p.pagetable, v); var f := PteFrame(e);
      (UserBit(w.perm) <==> UserBit(e)) && f in m.mem && m.mem[f] == Bytes(w.data) && |w.data| == PGSIZE && f != 0
      && f in m.owner && m.owner[f] == Leaf(p.pagetable, v)
  {
    hide Pte, NodesOk;
    FlagBits(Pte(m.S(), p.pagetable, v));
    PageShape(m.S(), p.pagetable, v);
    OwnLeaf(m.S(), p.pagetable, v);
  }

  lemma SamePageBytes(u: map<nat, Want>, va: nat)
    ensures Readable(u, va) <==> Readable(u, va / PGSIZE * PGSIZE)
    ensures Writable(u, va) <==> Writable(u, va / PGSIZE * PGSIZE)
  {
  }

  /** How many pages len bytes from va on lie on. */
  function Span(va: nat, len: nat): nat { Pages(va % PGSIZE + len) }

  /** From va, the w-th byte, to the end of its page, which is the c-th: then the next page begins. */
  lemma NextPage(start: nat, len: nat, w: nat, va: nat, c: nat)
    requires va == start + w && va / PGSIZE == start / PGSIZE + c && w < len
    ensures va - va / PGSIZE * PGSIZE == va % PGSIZE && c < Span(start, len)
    ensures var k := PGSIZE - va % PGSIZE;
            va / PGSIZE * PGSIZE + PGSIZE == va + k && (va + k) / PGSIZE == start / PGSIZE + (c + 1)
  {
  }

  lemma SpanStart(start: nat, len: nat)
    ensures len > 0 ==> Span(start, len) > 0
  {
  }

  /** data is what user memory holds from lo on. */
  predicate Holds(u: map<nat, Want>, lo: nat, data: seq<nat>) {
    forall a | lo <= a < lo + |data| :: Readable(u, a) && data[a - lo] == ByteAt(u, a)
  }

  lemma HoldsMore(u: map<nat, Want>, lo: nat, a: seq<nat>, b: seq<nat>)
    ensures Holds(u, lo, [])
    ensures Holds(u, lo, a) && Holds(u, lo + |a|, b) ==> Holds(u, lo, a + b)
    ensures Holds(u, lo, a) ==> forall x: nat | lo <= x < lo + |a| :: Readable(u, x)
  {
    hide Readable, ByteAt;
  }

  /** Copies user memory to the kernel: it succeeds exactly when every byte is readable.  It panics
      exactly if it starts on a page above MAXVA that the size of the process covers. */
  method CopyIn(m: Machine, p: Proc, srcva: nat, len: nat, ghost trampoline: nat)
    returns (ok: bool, data: seq<nat>, oom: bool, panicked: bool)
    requires Own(m, p, trampoline)
    modifies m
    ensures Own(m, p, trampoline) && Mem(m, p) == old(Mem(m, p))
    ensures m.failures == old(m.failures) + (if oom then 1 else 0)
    ensures panicked <==> len > 0 && srcva / PGSIZE >= MAXVPN && srcva / PGSIZE * PGSIZE < p.sz
    ensures oom || panicked ==> !ok && !(oom && panicked)
    ensures if oom then |old(m.free)| < 3 * Span(srcva, len) else |m.free| >= |old(m.free)| - 3 * Span(srcva, len)
    ensures !oom ==> (ok <==> forall a | srcva <= a < srcva + len :: Readable(old(Mem(m, p)), a))
    ensures ok ==> |data| == len && Holds(old(Mem(m, p)), srcva, data)
  {
    hide Own, Readable, ByteAt, User, SpaceOk, Pte, PteValid, PteFrame, Cap, Holds;
    ghost var u := Mem(m, p);
    data, oom, panicked := [], false, false;
    HoldsMore(u, srcva, [], []);
    var va, left := srcva, len;
    ghost var c := 0;
    while left > 0
      invariant c <= Span(srcva, len) && |m.free| >= |old(m.free)| - 3 * c
      invariant left > 0 ==> va / PGSIZE == srcva / PGSIZE + c && c < Span(srcva, len)
      invariant Own(m, p, trampoline) && Mem(m, p) == u && va == srcva + |data| && left == len - |data| >= 0
      invariant Holds(u, srcva, data) && !oom && !panicked && m.failures == old(m.failures)
      invariant data != [] ==> va / PGSIZE < MAXVPN && (len > 0 ==> srcva / PGSIZE < MAXVPN)
    {
      var va0 := va / PGSIZE * PGSIZE;
      var f;
      f, oom, panicked := Touch(m, p, va0, trampoline);
      SamePageBytes(u, va);
      if f == 0 {
        return false, data, oom, panicked;
      }
      CapPages(p.sz);
      var n := PGSIZE - (va - va0);
      if n > left {
        n := left;
      }
      Chunk(u, va, n);
      var more := m.mem[f].data[va - va0..va - va0 + n];
      HoldsMore(u, srcva, data, more);
      data := data + more;
      left, va, c := left - n, va0 + PGSIZE, c + 1;
      if left == 0 {
        break;
      }
    }
    HoldsMore(u, srcva, data, []);
    ok := true;
  }

  lemma ReadBelow(m: Machine, p: Proc, va: nat)
    requires Readable(Mem(m, p), va)
    ensures va / PGSIZE < Pages(Cap(p.sz))
  {
  }

  lemma CapPages(sz: nat)
    ensures Pages(Cap(sz)) <= TRAPFRAME < MAXVPN - 1
  {
  }

  /** The bytes from va on to the end of its page at most. */
  lemma Chunk(u: map<nat, Want>, va: nat, n: nat)
    requires Readable(u, va) && n <= PGSIZE - va % PGSIZE
    ensures va / PGSIZE in u && |u[va / PGSIZE].data| == PGSIZE && va - va / PGSIZE * PGSIZE == va % PGSIZE
    ensures Holds(u, va, u[va / PGSIZE].data[va % PGSIZE..va % PGSIZE + n])
    ensures Writable(u, va) ==> forall a | va <= a < va + n :: Writable(u, a)
  {
    forall a: nat | va <= a < va + n ensures Readable(u, a) && (Writable(u, va) ==> Writable(u, a))
      && u[va / PGSIZE].data[va % PGSIZE..va % PGSIZE + n][a - va] == ByteAt(u, a) {
      OnPage(va, a);
    }
  }

  lemma OnPage(va: nat, a: nat)
    requires va <= a < va + PGSIZE - va % PGSIZE
    ensures a / PGSIZE == va / PGSIZE && a % PGSIZE == va % PGSIZE + (a - va)
  {
  }

  /** User memory with `bytes` written at va. */
  function Poke(u: map<nat, Want>, va: nat, bytes: seq<nat>): map<nat, Want> {
    map v | v in u :: Want(u[v].perm, PokePage(u[v].data, v * PGSIZE, va, bytes))
  }

  function PokePage(data: seq<nat>, base: nat, va: nat, bytes: seq<nat>): seq<nat> {
    seq(|data|, o requires 0 <= o < |data| => if va <= base + o < va + |bytes| then bytes[base + o - va] else data[o])
  }

  /** Byte by byte: those written are the new ones, all others the old ones. */
  lemma PokeAt(u: map<nat, Want>, va: nat, bytes: seq<nat>, a: nat)
    ensures Readable(Poke(u, va, bytes), a) <==> Readable(u, a)
    ensures Writable(Poke(u, va, bytes), a) <==> Writable(u, a)
    ensures Readable(u, a) ==>
              ByteAt(Poke(u, va, bytes), a) == if va <= a < va + |bytes| then bytes[a - va] else ByteAt(u, a)
  {
    assert a / PGSIZE * PGSIZE + a % PGSIZE == a;
  }

  lemma PokeTwice(u: map<nat, Want>, va: nat, a: seq<nat>, b: seq<nat>)
    ensures Poke(Poke(u, va, a), va + |a|, b) == Poke(u, va, a + b)
  {
    forall v | v in u
      ensures PokePage(PokePage(u[v].data, v * PGSIZE, va, a), v * PGSIZE, va + |a|, b) ==
              PokePage(u[v].data, v * PGSIZE, va, a + b) {
    }
  }

  lemma PokeNone(u: map<nat, Want>, va: nat)
    ensures Poke(u, va, []) == u
  {
    forall v | v in u ensures PokePage(u[v].data, v * PGSIZE, va, []) == u[v].data {
    }
  }

  predicate Whole(u: map<nat, Want>) { forall v | v in u :: |u[v].data| == PGSIZE }

  /** A write inside one page. */
  lemma PokeOne(u: map<nat, Want>, va: nat, bytes: seq<nat>)
    requires Readable(u, va) && |bytes| <= PGSIZE - va % PGSIZE && Whole(u)
    ensures var v, d := va / PGSIZE, u[va / PGSIZE].data;
      Poke(u, va, bytes) == u[v := Want(u[v].perm, d[..va % PGSIZE] + bytes + d[va % PGSIZE + |bytes|..])]
  {
    var v, d := va / PGSIZE, u[va / PGSIZE].data;
    var e := d[..va % PGSIZE] + bytes + d[va % PGSIZE + |bytes|..];
    assert PokePage(d, v * PGSIZE, va, bytes) == e;
    forall w | w in u && w != v ensures PokePage(u[w].data, w * PGSIZE, va, bytes) == u[w].data {
      PokeElsewhere(u[w].data, w, va, bytes);
    }
    var p, q := Poke(u, va, bytes), u[v := Want(u[v].perm, e)];
    assert p.Keys == q.Keys;
    forall w | w in p ensures p[w] == q[w] {
    }
  }

  lemma PokeElsewhere(d: seq<nat>, w: nat, va: nat, bytes: seq<nat>)
    requires |d| == PGSIZE && w != va / PGSIZE && |bytes| <= PGSIZE - va % PGSIZE
    ensures PokePage(d, w * PGSIZE, va, bytes) == d
  {
    assert w < va / PGSIZE || w >= va / PGSIZE + 1;
    assert w < va / PGSIZE ==> w * PGSIZE + PGSIZE <= va / PGSIZE * PGSIZE;
  }

  /** Copies kernel bytes to user memory: all of them, or those before the first unwritable byte. */
  method CopyOut(m: Machine, p: Proc, dstva: nat, src: seq<nat>, ghost trampoline: nat)
    returns (ok: bool, ghost w: nat, oom: bool)
    requires Own(m, p, trampoline)
    modifies m
    ensures Own(m, p, trampoline) && m.failures == old(m.failures) + (if oom then 1 else 0)
    ensures w <= |src| && (ok <==> w == |src|) && (oom ==> !ok)
    ensures if oom then |old(m.free)| < 3 * Span(dstva, |src|) else |m.free| >= |old(m.free)| - 3 * Span(dstva, |src|)
    ensures forall a | dstva <= a < dstva + w :: Writable(old(Mem(m, p)), a)
    ensures !ok && !oom ==> !Writable(old(Mem(m, p)), dstva + w)
    ensures Mem(m, p) == Poke(old(Mem(m, p)), dstva, src[..w])
  {
    hide Own, Readable, Writable, User, SpaceOk, Pte, Poke, Span;
    ghost var u := Mem(m, p);
    PokeNone(u, dstva);
    SpanStart(dstva, |src|);
    w, oom := 0, false;
    var va, left, from := dstva, |src|, src;
    ghost var c := 0;
    while left > 0
      invariant c <= Span(dstva, |src|) && |m.free| >= |old(m.free)| - 3 * c
      invariant left > 0 ==> va / PGSIZE == dstva / PGSIZE + c && c < Span(dstva, |src|)
      invariant Own(m, p, trampoline) && va == dstva + w && left == |src| - w >= 0 && from == src[w..]
      invariant Mem(m, p) == Poke(u, dstva, src[..w]) && !oom && m.failures == old(m.failures)
      invariant forall a | dstva <= a < dstva + w :: Writable(u, a)
    {
      NextPage(dstva, |src|, w, va, c);
      var va0 := va / PGSIZE * PGSIZE;
      var n := PGSIZE - (va - va0);
      if n > left {
        n := left;
      }
      ghost var t := Mem(m, p);
      PokeBits(u, dstva, src[..w], va);
      var ok';
      ok', oom := CopyOutPage(m, p, va0, va - va0, from[..n], trampoline);
      if !ok' {
        return false, w, oom;
      }
      PokeTwice(u, dstva, src[..w], src[w..w + n]);
      assert from[..n] == src[w..w + n] && |src[..w]| == w;
      assert src[..w] + src[w..w + n] == src[..w + n];
      PageWritable(u, va, n);
      w := w + n;
      if left > n {
        NextPage(dstva, |src|, w, va0 + PGSIZE, c + 1);
      }
      left, from, va, c := left - n, from[n..], va0 + PGSIZE, c + 1;
      if left == 0 {
        break;
      }
    }
    assert src[..w] == src;
    ok := true;
  }

  /** One page's worth of copyout, which looks at MAXVA before it walks. */
  method CopyOutPage(m: Machine, p: Proc, va0: nat, off: nat, src: seq<nat>, ghost trampoline: nat)
    returns (ok: bool, oom: bool)
    requires Own(m, p, trampoline) && va0 % PGSIZE == 0 && off < PGSIZE && 0 < |src| <= PGSIZE - off
    modifies m
    ensures Own(m, p, trampoline) && (oom ==> !ok) && m.failures == old(m.failures) + (if oom then 1 else 0)
    ensures if oom then |old(m.free)| < 3 else |m.free| >= |old(m.free)| - 3
    ensures !oom ==> (ok <==> Writable(old(Mem(m, p)), va0 + off))
    ensures Mem(m, p) == if ok then Poke(old(Mem(m, p)), va0 + off, src) else old(Mem(m, p))
  {
    hide User, SpaceOk, Pte, Poke, FreeOk, NodesOk, LeavesOk, PteValid, PteFrame, WriteBit, UserBit, ByteAt;
    ghost var u := Mem(m, p);
    SamePageBytes(u, va0 + off);
    assert (va0 + off) / PGSIZE * PGSIZE == va0;
    if va0 / PGSIZE >= MAXVPN {
      CapPages(p.sz);
      if Readable(u, va0 + off) {
        ReadBelow(m, p, va0 + off);
      }
      return false, false;
    }
    var f, panicked;
    f, oom, panicked := Touch(m, p, va0, trampoline);
    assert !panicked;
    if f == 0 {
      return false, oom;
    }
    SpaceBounds(m.S(), p.pagetable, p.trapframe, Cap(p.sz), trampoline);
    EntryThere(m.S(), p.pagetable, va0 / PGSIZE);
    var slot := m.Walk(p.pagetable, va0 / PGSIZE, false);
    if slot == NoSlot {
      assert false;
    }
    var pte := m.ReadEntry(slot, p.pagetable, va0 / PGSIZE);
    WriteBitSame(m, p, va0 / PGSIZE);
    if !WriteBit(pte) {
      return false, false;
    }
    StorePage(m, p, f, va0, off, src, trampoline);
    return true, false;
  }

  lemma EntryThere(s: St, root: nat, v: nat)
    requires PteValid(Pte(s, root, v))
    ensures Key(root, 0, v / ENTRIES) in s.dir
  {
    NullEntry();
  }

  lemma WriteBitSame(m: Machine, p: Proc, v: nat)
    requires PteValid(Pte(m.S(), p.pagetable, v)) && v < Pages(Cap(p.sz))
    ensures v in Mem(m, p) && (WriteBit(Mem(m, p)[v].perm) <==> WriteBit(Pte(m.S(), p.pagetable, v)))
  {
    hide Pte;
    FlagBits(Pte(m.S(), p.pagetable, v));
  }

  method StorePage(m: Machine, p: Proc, f: nat, va0: nat, off: nat, src: seq<nat>, ghost trampoline: nat)
    requires Own(m, p, trampoline) && va0 % PGSIZE == 0 && off + |src| <= PGSIZE && 0 < |src|
    requires va0 / PGSIZE < Pages(Cap(p.sz))
    requires Readable(Mem(m, p), va0) && f in m.mem && m.mem[f].Bytes? && m.mem[f].data == Mem(m, p)[va0 / PGSIZE].data
    requires f in m.owner && m.owner[f] == Leaf(p.pagetable, va0 / PGSIZE)
    requires PteValid(Pte(m.S(), p.pagetable, va0 / PGSIZE)) && PteFrame(Pte(m.S(), p.pagetable, va0 / PGSIZE)) == f
    modifies m
    ensures Own(m, p, trampoline) && Mem(m, p) == Poke(old(Mem(m, p)), va0 + off, src)
    ensures m.failures == old(m.failures) && m.free == old(m.free)
  {
    hide User, SpaceOk, Pte, Poke, FreeOk, NodesOk, LeavesOk, PteValid, PteFrame, UserBit;
    ghost var s, u, v := m.S(), Mem(m, p), va0 / PGSIZE;
    var d := m.mem[f].data;
    var e := d[..off] + src + d[off + |src|..];
    assert (va0 + off) / PGSIZE == v && (va0 + off) % PGSIZE == off;
    UserWhole(s, p.pagetable, p.trapframe, Cap(p.sz), trampoline);
    PokeOne(u, va0 + off, src);
    m.StoreLeaf(f, e);
    StoreUser(s, m.S(), p.pagetable, p.trapframe, Cap(p.sz), trampoline, v, f, e);
  }

  lemma UserWhole(s: St, root: nat, tf: nat, sz: nat, trampoline: nat)
    requires LeavesOk(s) && SpaceOk(s, root, tf, sz, trampoline)
    ensures Whole(User(s, root, sz))
  {
    hide Pte, PteValid, PageOf, LeavesOk;
    forall v: nat | v < Pages(sz) ensures |UserPage(s, root, v).data| == PGSIZE {
      if PteValid(Pte(s, root, v)) {
        PageShape(s, root, v);
      }
    }
  }

  /** Writing to the frame of one page changes that page only. */
  lemma StoreUser(s: St, t: St, root: nat, tf: nat, sz: nat, trampoline: nat, v: nat, f: nat, data: seq<nat>)
    requires LeavesOk(s) && SpaceOk(s, root, tf, sz, trampoline) && v < Pages(sz) && SameMap(s, t) && |data| == PGSIZE
    requires f in s.owner && s.owner[f] == Leaf(root, v) && t == s.(mem := s.mem[f := Bytes(data)])
    requires PteValid(Pte(s, root, v)) && PteFrame(Pte(s, root, v)) == f
    ensures SpaceOk(t, root, tf, sz, trampoline)
    ensures User(t, root, sz) == User(s, root, sz)[v := Want(User(s, root, sz)[v].perm, data)]
  {
    hide Pte, PteValid, PageOf, LeavesOk, MakePte, PteFrame;
    var a, b := User(t, root, sz), User(s, root, sz)[v := Want(User(s, root, sz)[v].perm, data)];
    forall w: nat | w < Pages(sz) ensures a[w] == b[w] {
      if PteValid(Pte(s, root, w)) {
        StoredPage(s, t, root, v, w, f, data);
      }
    }
    assert a.Keys == b.Keys;
  }

  lemma StoredPage(s: St, t: St, root: nat, v: nat, w: nat, f: nat, data: seq<nat>)
    requires LeavesOk(s) && SameMap(s, t) && w < TRAPFRAME && PteValid(Pte(s, root, w)) && f in s.owner
    requires s.owner[f] == Leaf(root, v)
    requires t == s.(mem := s.mem[f := Bytes(data)]) && PteFrame(Pte(s, root, v)) == f
    ensures PageOf(t, root, w) == if w == v then Want(PageOf(s, root, v).perm, data) else PageOf(s, root, w)
  {
    hide Pte;
    assert Pte(t, root, w) == Pte(s, root, w);
    assert LeafOk(s, PteFrame(Pte(s, root, w)));
  }

  lemma PokeBits(u: map<nat, Want>, va: nat, bytes: seq<nat>, a: nat)
    ensures Writable(Poke(u, va, bytes), a) <==> Writable(u, a)
  {
  }

  lemma PageWritable(u: map<nat, Want>, va: nat, n: nat)
    requires Writable(u, va) && n <= PGSIZE - va % PGSIZE
    ensures forall a | va <= a < va + n :: Writable(u, a)
  {
    Chunk(u, va, n);
  }

  /** The memory at another size: pages cut off, or zeroed pages added. */
  function Resize(u: map<nat, Want>, n: nat): map<nat, Want> {
    map v: nat | 0 <= v < n :: if v in u then u[v] else Want(PTE_V + PTE_R + PTE_W + PTE_U, Zeros(PGSIZE))
  }

  /** Shrinking by more than there is changes nothing. */
  function NewSize(sz: nat, n: int): nat { if sz + n >= 0 then sz + n else sz }

  /** Grows or shrinks the process at once.  Growing fails exactly if there are too few free frames, and
      does not get past TRAPFRAME: it ends in a panic, or without memory. */
  method GrowProc(m: Machine, p: Proc, n: int, ghost trampoline: nat) returns (r: int, panicked: bool)
    requires Own(m, p, trampoline) && -0x8000_0000 <= n < 0x8000_0000 && p.sz + n + PGSIZE <= TWO64
    requires n < 0 ==> InBounds(p)
    modifies m, p
    ensures m.failures == old(m.failures) + (if r == -1 then 1 else 0)
    ensures !panicked ==> Own(m, p, trampoline) && (r == 0 || (r == -1 && n > 0)) && p.pagetable == old(p.pagetable)
    ensures r == 0 ==>
              !panicked && p.sz == NewSize(old(p.sz), n) && Mem(m, p) == Resize(old(Mem(m, p)), Pages(Cap(p.sz)))
    ensures r == -1 ==> !panicked && p.sz == old(p.sz) && Mem(m, p) == old(Mem(m, p))
    ensures n <= 0 ==> !panicked
    ensures r == 0 ==> p.sz == if old(p.sz) + n >= 0 then old(p.sz) + n else old(p.sz)
    ensures n < 0 ==> Shrunk(old(m.S()), m.S(), p.pagetable, old(p.sz), p.sz, |old(m.free)|, |m.free|)
    ensures n == 0 ==> unchanged(m)
    ensures n > 0 && r == 0 ==> Backed(m.S(), p.pagetable, old(p.sz), p.sz)
    ensures n > 0 && r == 0 ==> |m.free| == |old(m.free)| - GrowNeeds(old(m.dir).Keys, old(p.pagetable), old(p.sz), n)
    ensures n > 0 && !PastTop(old(p.sz), n) ==>
              !panicked && (r == 0 <==> |old(m.free)| >= GrowNeeds(old(m.dir).Keys, old(p.pagetable), old(p.sz), n))
    ensures n > 0 && PastTop(old(p.sz), n) ==>
              r != 0 && (panicked <==> |old(m.free)| > GrowNeeds(old(m.dir).Keys, old(p.pagetable), old(p.sz), n))
  {
    hide User, SpaceOk, Pte, FreeOk, NodesOk, LeavesOk, Placed, Unmapped, Grown, Resize, ZeroPages, Machine.Ok, Needs;
    hide Backed, Machine.FreedPages;
    ghost var s, sz0, tf := m.S(), p.sz, p.trapframe;
    SpaceBounds(s, p.pagetable, tf, Cap(sz0), trampoline);
    AboveSize(s, p.pagetable, tf, Cap(sz0), trampoline);
    TopMapped(s, p.pagetable, tf, Cap(sz0), trampoline);
    panicked := false;
    var sz: nat := p.sz;
    if n > 0 {
      ghost var ok;
      sz, panicked, ok := m.Uvmalloc(p.pagetable, sz, sz + n, PTE_W);
      if panicked {
        return -2, true;
      }
      if sz == 0 {
        GrownUser(s, m.S(), p.pagetable, Cap(sz0), tf, trampoline);
        return -1, false;
      }
      ZeroFlags();
      NewBacked(s, m.S(), p.pagetable, sz0, sz);
      GrownAtOnce(s, m.S(), p.pagetable, sz0, sz, tf, trampoline);
    } else if n < 0 {
      var newsz: nat := (sz + n) % TWO64;
      sz := m.Uvmdealloc(p.pagetable, sz, newsz);
      UnmappedUser(s, m.S(), p.pagetable, sz0, sz, tf, trampoline, newsz);
      NowShrunk(s, m.S(), p.pagetable, sz0, newsz, tf, trampoline, |old(m.free)|, |m.free|);
    } else {
      LazyUser(s, p.pagetable, sz0, sz0, tf, trampoline);
    }
    p.sz := sz;
    return 0, false;
  }

  /** Between the two sizes nothing is mapped any more, and what was mapped there is free. */
  ghost predicate Shrunk(s: St, t: St, root: nat, sz: nat, sz': nat, was: nat, now: nat) {
    && (forall v: nat | Pages(Cap(sz')) <= v < TRAPFRAME :: !PteValid(Pte(t, root, v)))
    && (forall v: nat | v < Pages(sz') && v < TRAPFRAME :: Pte(t, root, v) == Pte(s, root, v))
    && Pages(sz') <= Pages(sz)
    && now == was + Machine.FreedPages(s, root, Pages(sz'), Pages(sz))
  }

  lemma NowShrunk(s: St, t: St, root: nat, sz: nat, newsz: nat, tf: nat, trampoline: nat, was: nat, now: nat)
    requires sz <= TRAPFRAME * PGSIZE && SpaceOk(t, root, tf, Cap(if newsz >= sz then sz else newsz), trampoline)
    requires Unmapped(s, t, root, Pages(newsz), Max(Pages(newsz), Pages(sz)), true)
    requires now == was + Machine.FreedPages(s, root, Pages(newsz), Max(Pages(newsz), Pages(sz)))
    ensures Shrunk(s, t, root, sz, if newsz >= sz then sz else newsz, was, now)
  {
    hide Pte;
    NullEntry();
  }

  /** Every page between the two sizes is mapped. */
  ghost predicate Backed(s: St, root: nat, sz: nat, sz': nat) {
    forall v: nat | Pages(sz) <= v < Pages(sz') :: PteValid(Pte(s, root, v))
  }

  lemma NewBacked(s: St, t: St, root: nat, sz: nat, sz': nat)
    requires Placed(s, t, root, ZeroPages(Pages(sz), Pages(sz'), PTE_R + PTE_U + PTE_W))
    ensures Backed(t, root, sz, sz')
  {
    hide Pte;
    forall v: nat | Pages(sz) <= v < Pages(sz') ensures PteValid(Pte(t, root, v)) {
      var want := ZeroPages(Pages(sz), Pages(sz'), PTE_R + PTE_U + PTE_W);
      PlacedPage(s, t, root, v, want[v]);
    }
  }

  /** Whether growing needs a page from TRAPFRAME on. */
  predicate PastTop(sz: nat, n: int)
    requires n >= 0
  {
    Pages(sz + n) > Machine.Top(Pages(sz))
  }

  /** The frames growing takes, as far as it gets. */
  ghost function GrowNeeds(keys: set<Key>, root: nat, sz: nat, n: int): int
    requires n >= 0
  {
    Needs(root, Pages(sz), Min(Pages(sz + n), Machine.Top(Pages(sz))), keys)
  }

  lemma ZeroFlags()
    ensures PTE_R + PTE_U + PTE_W == PTE_W + PTE_U + PTE_R < 16 + 16
  {
  }

  lemma AboveSize(s: St, root: nat, tf: nat, sz: nat, trampoline: nat)
    requires SpaceOk(s, root, tf, sz, trampoline)
    ensures forall v: nat | Pages(sz) <= v < TRAPFRAME :: Pte(s, root, v) == 0
  {
    hide Pte;
  }

  /** Growing lazily: only the size changes. */
  lemma LazyUser(s: St, root: nat, sz: nat, sz': nat, tf: nat, trampoline: nat)
    requires SpaceOk(s, root, tf, Cap(sz), trampoline) && sz <= sz'
    ensures SpaceOk(s, root, tf, Cap(sz'), trampoline)
    ensures User(s, root, Cap(sz')) == Resize(User(s, root, Cap(sz)), Pages(Cap(sz')))
  {
    hide Pte, MakePte, PageOf;
    NullEntry();
  }

  /** Growing eagerly, up to TRAPFRAME or within the last page. */
  lemma GrownAtOnce(s: St, t: St, root: nat, sz: nat, sz': nat, tf: nat, trampoline: nat)
    requires LeavesOk(s) && SpaceOk(s, root, tf, Cap(sz), trampoline) && sz <= sz'
    requires Pages(sz') <= Max(Pages(sz), TRAPFRAME)
    requires Placed(s, t, root, ZeroPages(Pages(sz), Pages(sz'), PTE_R + PTE_U + PTE_W))
    ensures SpaceOk(t, root, tf, Cap(sz'), trampoline)
    ensures User(t, root, Cap(sz')) == Resize(User(s, root, Cap(sz)), Pages(Cap(sz')))
  {
    hide Pte, MakePte, PageOf, LeavesOk, PlacedAt, SpaceOk, User, Resize, Placed;
    if Pages(sz') <= TRAPFRAME {
      PlacedUser(s, t, root, sz, sz', tf, trampoline);
    } else {
      assert ZeroPages(Pages(sz), Pages(sz'), PTE_R + PTE_U + PTE_W) == map[];
      SamePlaced(s, t, root, Cap(sz), tf, trampoline);
    }
  }

  lemma SamePlaced(s: St, t: St, root: nat, sz: nat, tf: nat, trampoline: nat)
    requires LeavesOk(s) && SpaceOk(s, root, tf, sz, trampoline) && Placed(s, t, root, map[])
    ensures SpaceOk(t, root, tf, sz, trampoline) && User(t, root, sz) == Resize(User(s, root, sz), Pages(sz))
  {
    hide Pte, MakePte, PageOf, LeavesOk, PlacedAt;
    forall v: nat | v < Pages(sz) ensures UserPage(t, root, v) == UserPage(s, root, v) {
      if PteValid(Pte(s, root, v)) {
        SamePage(s, t, root, v);
      }
    }
  }

  /** Growing eagerly. */
  lemma PlacedUser(s: St, t: St, root: nat, sz: nat, sz': nat, tf: nat, trampoline: nat)
    requires LeavesOk(s) && SpaceOk(s, root, tf, sz, trampoline) && sz <= sz' <= TRAPFRAME * PGSIZE
    requires Placed(s, t, root, ZeroPages(Pages(sz), Pages(sz'), PTE_R + PTE_U + PTE_W))
    ensures SpaceOk(t, root, tf, sz', trampoline) && User(t, root, sz') == Resize(User(s, root, sz), Pages(sz'))
  {
    hide Pte, MakePte, PageOf, LeavesOk, PlacedAt;
    NullEntry();
    var want := ZeroPages(Pages(sz), Pages(sz'), PTE_R + PTE_U + PTE_W);
    forall v: nat | v < Pages(sz') ensures UserPage(t, root, v) == Resize(User(s, root, sz), Pages(sz'))[v] {
      if v in want {
        PlacedPage(s, t, root, v, want[v]);
      } else if PteValid(Pte(s, root, v)) {
        SamePage(s, t, root, v);
      }
    }
  }

  lemma PlacedPage(s: St, t: St, root: nat, v: nat, w: Want)
    requires t.mem.Keys == t.owner.Keys == s.owner.Keys && PlacedAt(s, t, root, v, w)
    ensures PteValid(Pte(t, root, v))
    ensures PageOf(t, root, v) == Want(if w.perm % 2 == 1 then w.perm else w.perm + 1, w.data)
  {
    hide Pte;
    PteFields(PteFrame(Pte(t, root, v)), w.perm);
  }

  /** Shrinking. */
  lemma UnmappedUser(s: St, t: St, root: nat, sz: nat, sz': nat, tf: nat, trampoline: nat, newsz: nat)
    requires LeavesOk(s) && SpaceOk(s, root, tf, sz, trampoline) && sz' == if newsz >= sz then sz else newsz
    requires Unmapped(s, t, root, Pages(newsz), Max(Pages(newsz), Pages(sz)), true)
    ensures SpaceOk(t, root, tf, sz', trampoline) && User(t, root, sz') == Resize(User(s, root, sz), Pages(sz'))
  {
    hide Pte, MakePte, PageOf, LeavesOk;
    NullEntry();
    forall v: nat | v < Pages(sz') ensures UserPage(t, root, v) == UserPage(s, root, v) {
      if PteValid(Pte(s, root, v)) {
        KeptPage(s, t, root, v, Pages(newsz), Max(Pages(newsz), Pages(sz)));
      }
    }
  }

  lemma KeptPage(s: St, t: St, root: nat, v: nat, lo: nat, hi: nat)
    requires LeavesOk(s) && Unmapped(s, t, root, lo, hi, true) && v < TRAPFRAME && PteValid(Pte(s, root, v))
    requires !(lo <= v < hi)
    ensures PageOf(t, root, v) == PageOf(s, root, v)
  {
    hide Pte;
    assert Pte(t, root, v) == Pte(s, root, v);
    assert LeafOk(s, PteFrame(Pte(s, root, v)));
  }

  /** sbrk: eagerly through growproc, or lazily by changing the size alone, which nothing bounds. */
  method SysSbrk(m: Machine, p: Proc, n: int, eager: bool, ghost trampoline: nat) returns (r: int, panicked: bool)
    requires Own(m, p, trampoline) && -0x8000_0000 <= n < 0x8000_0000 && (eager ==> p.sz + n + PGSIZE <= TWO64)
    requires n < 0 ==> InBounds(p)
    modifies m, p
    ensures !panicked ==> Own(m, p, trampoline) && (r == old(p.sz) || r == -1) && p.pagetable == old(p.pagetable)
    ensures !panicked && r != -1 ==>
              p.sz == NewSize(old(p.sz), n) && Mem(m, p) == Resize(old(Mem(m, p)), Pages(Cap(p.sz)))
    ensures !panicked && r == -1 ==> p.sz == old(p.sz) && Mem(m, p) == old(Mem(m, p))
    ensures n < 0 || (eager && n == 0) ==> !panicked && r != -1
    ensures !panicked && r != -1 ==> p.sz == if old(p.sz) + n >= 0 then old(p.sz) + n else old(p.sz)
    ensures n < 0 ==> Shrunk(old(m.S()), m.S(), p.pagetable, old(p.sz), p.sz, |old(m.free)|, |m.free|)
    ensures !eager && n >= 0 ==> unchanged(m)
    ensures eager && n > 0 && !panicked && r != -1 ==> Backed(m.S(), p.pagetable, old(p.sz), p.sz)
    ensures n <= 0 || !eager ==> |m.free| >= |old(m.free)|
    ensures n > 0 && eager && !panicked && r != -1 ==>
              |m.free| == |old(m.free)| - GrowNeeds(old(m.dir).Keys, old(p.pagetable), old(p.sz), n)
    ensures !eager && n >= 0 ==> !panicked && m.failures == old(m.failures) && (r == -1 <==> old(p.sz) + n >= TWO64)
    ensures !panicked ==> m.failures == old(m.failures) + (if r == -1 && eager then 1 else 0)
    ensures eager && n > 0 && !PastTop(old(p.sz), n) ==>
              !panicked && (r == -1 <==> |old(m.free)| < GrowNeeds(old(m.dir).Keys, old(p.pagetable), old(p.sz), n))
    ensures eager && n > 0 && PastTop(old(p.sz), n) ==>
              if |old(m.free)| > GrowNeeds(old(m.dir).Keys, old(p.pagetable), old(p.sz), n) then panicked
              else !panicked && r == -1
    ensures !panicked && old(InBounds(p)) ==>
              (InBounds(p) <==> r == -1 || eager || n < 0 || old(p.sz) + n <= TRAPFRAME * PGSIZE)
  {
    hide User, SpaceOk, Pte, FreeOk, NodesOk, LeavesOk, Resize, Needs, Backed, Machine.FreedPages;
    var addr: int := p.sz;
    SpaceBounds(m.S(), p.pagetable, p.trapframe, Cap(p.sz), trampoline);
    panicked := false;
    if eager || n < 0 {
      var g;
      g, panicked := GrowProc(m, p, n, trampoline);
      if g < 0 {
        return -1, panicked;
      }
    } else {
      if (addr + n) % TWO64 < addr {
        return -1, false;
      }
      LazyUser(m.S(), p.pagetable, p.sz, p.sz + n, p.trapframe, trampoline);
      p.sz := p.sz + n;
    }
    return addr, panicked;
  }

  /** Lazy calls alone take the size of a process past MAXVA; then copyin of one byte from there panics. */
  method SizePastTop(m: Machine, p: Proc, ghost trampoline: nat) returns (panicked: bool)
    requires Own(m, p, trampoline) && InBounds(p)
    modifies m, p
    ensures panicked && m.failures == old(m.failures) && Own(m, p, trampoline)
  {
    hide Own, User, Resize;
    panicked := false;
    while p.sz <= MAXVPN * PGSIZE
      invariant Own(m, p, trampoline) && !panicked && m.failures == old(m.failures)
      invariant p.sz <= MAXVPN * PGSIZE + 0x7FFF_FFFF
      decreases MAXVPN * PGSIZE - p.sz
    {
      var r;
      r, panicked := SysSbrk(m, p, 0x7FFF_FFFF, false, trampoline);
    }
    var ok, data, oom;
    ok, data, oom, panicked := CopyIn(m, p, MAXVPN * PGSIZE, 1, trampoline);
  }
}
