/** Physical frames, their owners, and Sv39 page-table trees (RISC-V Privileged Architecture,
    version 20211203, section 4.4).  Frames are named by frame number, pa / PGSIZE; 0 is the null
    pointer and never a managed frame. */
module PageTables {
  import opened Params
  import opened Sets

  const PGSIZE: nat := 4096
  const ENTRIES: nat := 512
  const MAXVPN: nat := 0x400_0000            // MAXVA / PGSIZE
  const TRAMPOLINE: nat := MAXVPN - 1        // page numbers of the two pages above user memory
  const TRAPFRAME: nat := MAXVPN - 2
  const PTE_V: nat := 1
  const PTE_R: nat := 2
  const PTE_W: nat := 4
  const PTE_X: nat := 8
  const PTE_U: nat := 16

  /** Contents of a physical page: a page-table page, a free page with its list link, or data. */
  datatype Page = Table(pte: seq<nat>) | Run(next: nat) | Bytes(data: seq<nat>)

  /** A page-table page: level 2 is the root, and `prefix` holds the page-number bits already used. */
  datatype Key = Key(root: nat, level: nat, prefix: nat)

  /** Kernel frames are allocated and in the hands of kernel code, trapframes among them. */
  datatype Owner = Free | Kernel | Node(key: Key) | Leaf(root: nat, vpn: nat)

  function Child(k: Key, i: nat): Key
    requires k.level > 0
  {
    Key(k.root, k.level - 1, k.prefix * ENTRIES + i)
  }

  function Parent(k: Key): Key { Key(k.root, k.level + 1, k.prefix / ENTRIES) }

  // Page-table entries: frame number above ten flag bits.
  function PteFrame(e: nat): nat { e / 1024 }
  function PteFlags(e: nat): nat { e % 1024 }
  predicate PteValid(e: nat) { e % 2 == 1 }

  /** R, W or X is set. */
  predicate IsLeaf(e: nat) { e / 2 % 8 != 0 }

  /** PA2PTE(pa) | perm | PTE_V */
  function MakePte(f: nat, perm: nat): nat
    requires perm < 1024
  {
    f * 1024 + (if perm % 2 == 1 then perm else perm + 1)
  }

  lemma PteFields(f: nat, perm: nat)
    requires perm < 1024
    ensures var e := MakePte(f, perm);
            PteValid(e) && PteFrame(e) == f && PteFlags(e) == (if perm % 2 == 1 then perm else perm + 1)
            && (IsLeaf(e) <==> perm / 2 % 8 != 0)
  {
    var g := if perm % 2 == 1 then perm else perm + 1;
    Halves(f, g);
    EightsOf(f * 64, g / 2);
    assert g / 2 == perm / 2;
  }

  lemma Halves(f: nat, g: nat)
    requires g < 1024
    ensures (f * 1024 + g) / 1024 == f && (f * 1024 + g) % 1024 == g
    ensures (f * 1024 + g) / 2 == 8 * (f * 64) + g / 2 && (f * 1024 + g) % 2 == g % 2
  {
  }

  lemma EightsOf(x: nat, y: nat)
    ensures (8 * x + y) % 8 == y % 8
  {
  }

  lemma NullEntry()
    ensures !PteValid(0) && PteFrame(0) == 0
  {
  }

  /** va >> 12 + 9 * k */
  function Up(vpn: nat, k: nat): nat {
    if k == 0 then vpn else Up(vpn, k - 1) / ENTRIES
  }

  /** PX(level, va), the 9-bit index used at a level. */
  function PX(level: nat, vpn: nat): (i: nat)
    ensures i < ENTRIES
  {
    Up(vpn, level) % ENTRIES
  }

  /** The page-table pages below the root that a page's entry hangs under. */
  function Path(root: nat, vpn: nat): set<Key> { {Key(root, 1, Up(vpn, 2)), Key(root, 0, Up(vpn, 1))} }

  /** Of these, what lies at a level or above. */
  function Above(root: nat, vpn: nat, level: nat): set<Key> {
    if level >= 2 then {} else if level == 1 then {Key(root, 1, Up(vpn, 2))} else Path(root, vpn)
  }

  /** Frames needed to map pages lo..hi of a page table that has the page-table pages `keys`. */
  ghost function Needs(root: nat, lo: nat, hi: nat, keys: set<Key>): int { hi - lo + |Paths(root, lo, hi) - keys| }

  /** No more than three frames a page. */
  lemma {:induction false} NeedsAtMost(root: nat, lo: nat, hi: nat, keys: set<Key>)
    requires lo <= hi
    ensures Needs(root, lo, hi, keys) <= 3 * (hi - lo)
    decreases hi
  {
    if lo < hi {
      NeedsAtMost(root, lo, hi - 1, keys);
      CountMore(Paths(root, lo, hi - 1), Path(root, hi - 1), keys);
      PathAtMost(root, hi - 1, keys + Paths(root, lo, hi - 1));
    }
  }

  lemma PathAtMost(root: nat, v: nat, keys: set<Key>)
    ensures |Path(root, v) - keys| <= 2
  {
    hide Up;
    SubsetSize(Path(root, v) - keys, Path(root, v));
  }

  lemma PathSteps(root: nat, vpn: nat)
    ensures Above(root, vpn, 2) == {} && Above(root, vpn, 0) == Path(root, vpn)
    ensures Above(root, vpn, 1) == Above(root, vpn, 2) + {Key(root, 1, Up(vpn, 2))} <= Path(root, vpn)
    ensures Above(root, vpn, 0) == Above(root, vpn, 1) + {Key(root, 0, Up(vpn, 1))}
  {
  }

  /** Those of pages lo..hi. */
  function Paths(root: nat, lo: nat, hi: nat): set<Key>
    decreases hi
  {
    if hi <= lo then {} else Paths(root, lo, hi - 1) + Path(root, hi - 1)
  }

  /** The machine's pages, who owns each, and the position of every page-table page. */
  datatype St = St(mem: map<nat, Page>, owner: map<nat, Owner>, dir: map<Key, nat>)

  /** The i-th free page links to the next one. */
  ghost predicate FreeLink(s: St, free: seq<nat>, i: nat)
    requires i < |free|
  {
    free[i] in s.mem && s.mem[free[i]] == Run(if i + 1 < |free| then free[i + 1] else 0)
  }

  ghost predicate FreeOk(s: St, fl: nat, free: seq<nat>) {
    && s.mem.Keys == s.owner.Keys && 0 !in s.mem
    && (forall i, j :: 0 <= i < j < |free| ==> free[i] != free[j])
    && (forall f :: f in free <==> f in s.owner && s.owner[f].Free?)
    && (forall i: nat | i < |free| :: FreeLink(s, free, i))
    && fl == (if free == [] then 0 else free[0])
  }

  /** Entry i of node k: above level 0 it points at the child node exactly when there is one; at
      level 0 it is zero or a valid leaf entry.  An entry whose child is in `dead` may dangle. */
  ghost predicate EntryOk(s: St, dead: set<Key>, k: Key, i: nat)
    requires k in s.dir && s.dir[k] in s.mem && s.mem[s.dir[k]].Table? && |s.mem[s.dir[k]].pte| == ENTRIES
    requires i < ENTRIES
  {
    var e := s.mem[s.dir[k]].pte[i];
    if k.level == 0 then e == 0 || (PteValid(e) && IsLeaf(e))
    else Child(k, i) !in dead ==> e == if Child(k, i) in s.dir then MakePte(s.dir[Child(k, i)], 0) else 0
  }

  /** `dir` lists every page-table page by position; all page tables are trees of disjoint pages. */
  ghost predicate NodesOk(s: St, dead: set<Key>) {
    && s.mem.Keys == s.owner.Keys
    && (forall k | k in s.dir :: s.dir[k] in s.owner && s.owner[s.dir[k]] == Node(k) && k.level <= 2
          && s.mem[s.dir[k]].Table? && |s.mem[s.dir[k]].pte| == ENTRIES)
    && (forall f | f in s.owner && s.owner[f].Node? :: s.owner[f].key in s.dir && s.dir[s.owner[f].key] == f)
    && (forall k, i: nat | k in s.dir && i < ENTRIES :: EntryOk(s, dead, k, i))
    && (forall k | k in s.dir && k.level < 2 :: Parent(k) in s.dir)
    && (forall k | k in s.dir && k.level == 2 :: k.prefix == 0 && s.dir[k] == k.root)
    && (forall k | k in dead :: k !in s.dir)
  }

  /** The flat page map: entry of page vpn, 0 if there is none. */
  ghost function Pte(s: St, root: nat, vpn: nat): nat {
    var k := Key(root, 0, vpn / ENTRIES);
    if k in s.dir && s.dir[k] in s.mem && s.mem[s.dir[k]].Table? && |s.mem[s.dir[k]].pte| == ENTRIES
    then s.mem[s.dir[k]].pte[vpn % ENTRIES] else 0
  }

  /** Frame f is a whole page of bytes that its owner's entry maps. */
  ghost predicate LeafOk(s: St, f: nat)
    requires f in s.owner && f in s.mem && s.owner[f].Leaf?
  {
    var e := Pte(s, s.owner[f].root, s.owner[f].vpn);
    s.owner[f].vpn < TRAPFRAME && PteValid(e) && PteFrame(e) == f && s.mem[f].Bytes? && |s.mem[f].data| == PGSIZE
  }

  /** User entries and the frames they own match one to one. */
  ghost predicate LeavesOk(s: St) {
    && s.mem.Keys == s.owner.Keys
    && (forall f | f in s.owner && s.owner[f].Leaf? :: LeafOk(s, f))
    && (forall root: nat, vpn: nat | vpn < TRAPFRAME && PteValid(Pte(s, root, vpn)) ::
          PteFrame(Pte(s, root, vpn)) in s.owner && s.owner[PteFrame(Pte(s, root, vpn))] == Leaf(root, vpn))
  }

  ghost predicate SameMap(s: St, t: St) {
    forall r: nat, v: nat :: Pte(t, r, v) == Pte(s, r, v)
  }

  /** Frames change owner only from free to being one of root's page-table pages. */
  ghost predicate Kept(s: St, t: St, root: nat) {
    && s.mem.Keys == s.owner.Keys == t.owner.Keys == t.mem.Keys
    && (forall f | f in s.owner :: t.owner[f] == s.owner[f]
          || (s.owner[f].Free? && t.owner[f].Node? && t.owner[f].key.root == root))
    && (forall f | f in s.owner && (s.owner[f].Kernel? || s.owner[f].Leaf?) :: t.mem[f] == s.mem[f])
    && (forall k | k in s.dir :: k in t.dir && t.dir[k] == s.dir[k])
    && (forall k | k in t.dir && k !in s.dir :: k.root == root)
  }

  /** What allocating page-table pages for `root` may change. */
  ghost predicate Grown(s: St, t: St, root: nat) {
    Kept(s, t, root) && SameMap(s, t)
  }

  lemma KeptTwice(s: St, t: St, u: St, root: nat)
    requires Kept(s, t, root) && Kept(t, u, root)
    ensures Kept(s, u, root)
  {
  }

  lemma GrownTwice(s: St, t: St, u: St, root: nat)
    requires Grown(s, t, root) && Grown(t, u, root)
    ensures Grown(s, u, root)
  {
    hide Pte, Kept;
    KeptTwice(s, t, u, root);
  }

  lemma NotGrown(s: St, root: nat)
    requires s.mem.Keys == s.owner.Keys
    ensures Grown(s, s, root)
  {
  }

  /** kalloc takes the first free frame, kfree pushes one. */
  lemma PopFree(s: St, fl: nat, free: seq<nat>, p: Page)
    requires FreeOk(s, fl, free) && free != []
    ensures fl in s.owner && s.owner[fl].Free? && fl != 0 && s.mem[fl].Run?
    ensures FreeOk(s.(mem := s.mem[fl := p], owner := s.owner[fl := Kernel]), s.mem[fl].next, free[1..])
  {
    assert fl == free[0] && fl in free && FreeLink(s, free, 0);
    var rest, t := free[1..], s.(mem := s.mem[fl := p], owner := s.owner[fl := Kernel]);
    assert forall f :: f in rest <==> f in free && f != fl;
    forall i: nat | i < |rest| ensures FreeLink(t, rest, i) {
      assert FreeLink(s, free, i + 1);
    }
  }

  /** Frames in use do not matter to the free list. */
  lemma UsedFrame(s: St, fl: nat, free: seq<nat>, f: nat, p: Page, o: Owner, dir: map<Key, nat>)
    requires FreeOk(s, fl, free) && f in s.owner && !s.owner[f].Free? && !o.Free?
    ensures FreeOk(St(s.mem[f := p], s.owner[f := o], dir), fl, free)
  {
    var t := St(s.mem[f := p], s.owner[f := o], dir);
    forall i: nat | i < |free| ensures FreeLink(t, free, i) {
      assert free[i] in free && FreeLink(s, free, i);
    }
  }

  lemma PushFree(s: St, fl: nat, free: seq<nat>, f: nat)
    requires FreeOk(s, fl, free) && f in s.owner && !s.owner[f].Free?
    ensures FreeOk(s.(mem := s.mem[f := Run(fl)], owner := s.owner[f := Free]), f, [f] + free)
  {
    var more, t := [f] + free, s.(mem := s.mem[f := Run(fl)], owner := s.owner[f := Free]);
    assert forall g :: g in more <==> g == f || g in free;
    forall i: nat | i < |more| ensures FreeLink(t, more, i) {
      assert i > 0 ==> FreeLink(s, free, i - 1) && free[i - 1] in free;
    }
  }

  lemma UpdateTwice<A, B>(m: map<A, B>, a: A, b: B, c: B)
    ensures m[a := b][a := c] == m[a := c]
  {
  }

  lemma UpSplit(vpn: nat, k: nat)
    ensures Up(vpn, k) == Up(vpn, k + 1) * ENTRIES + PX(k, vpn)
  {
  }

  lemma UpTop(vpn: nat)
    requires vpn < MAXVPN
    ensures Up(vpn, 3) == 0 && Up(vpn, 1) == vpn / ENTRIES && PX(0, vpn) == vpn % ENTRIES
  {
    assert Up(vpn, 0) == vpn && Up(vpn, 1) == vpn / ENTRIES;
    assert Up(vpn, 2) == Up(vpn, 1) / ENTRIES && Up(vpn, 3) == Up(vpn, 2) / ENTRIES;
  }

  /** A page-table page at level 0 has the whole path above it. */
  lemma Ancestors(s: St, root: nat, vpn: nat)
    requires NodesOk(s, {}) && Key(root, 0, Up(vpn, 1)) in s.dir
    ensures Key(root, 1, Up(vpn, 2)) in s.dir && Key(root, 2, Up(vpn, 3)) in s.dir
  {
    assert Parent(Key(root, 0, Up(vpn, 1))) == Key(root, 1, Up(vpn, 2));
    assert Parent(Key(root, 1, Up(vpn, 2))) == Key(root, 2, Up(vpn, 3));
  }

  /** The child's entry in its parent. */
  lemma ParentEntry(k: Key, i: nat)
    requires k.level > 0 && i < ENTRIES
    ensures Parent(Child(k, i)) == k
    ensures forall c: Key, j: nat | c.level > 0 && j < ENTRIES && Child(c, j) == Child(k, i) :: c == k && j == i
  {
  }

  /** Frames that are no page-table pages can change contents and owner. */
  lemma OtherFrame(s: St, dead: set<Key>, f: nat, p: Page, o: Owner)
    requires NodesOk(s, dead) && f in s.owner && !s.owner[f].Node? && !o.Node?
    ensures var t := s.(mem := s.mem[f := p], owner := s.owner[f := o]);
            NodesOk(t, dead) && SameMap(s, t)
  {
    var t := s.(mem := s.mem[f := p], owner := s.owner[f := o]);
    forall k, i: nat | k in t.dir && i < ENTRIES ensures EntryOk(t, dead, k, i) {
      assert EntryOk(s, dead, k, i);
    }
  }

  /** A zeroed Kernel frame c becomes the child at entry i of node k. */
  lemma AddNode(s: St, k: Key, i: nat, c: nat)
    requires NodesOk(s, {}) && k in s.dir && k.level > 0 && i < ENTRIES && Child(k, i) !in s.dir
    requires c in s.owner && s.owner[c].Kernel? && s.mem[c] == Table(Zeros(ENTRIES))
    ensures var t := St(s.mem[s.dir[k] := Table(s.mem[s.dir[k]].pte[i := MakePte(c, 0)])],
                        s.owner[c := Node(Child(k, i))], s.dir[Child(k, i) := c]);
            NodesOk(t, {}) && SameMap(s, t)
  {
    hide EntryOk, Pte, MakePte, SameMap;
    var t := St(s.mem[s.dir[k] := Table(s.mem[s.dir[k]].pte[i := MakePte(c, 0)])],
                s.owner[c := Node(Child(k, i))], s.dir[Child(k, i) := c]);
    ParentEntry(k, i);
    forall k', i': nat | k' in t.dir && i' < ENTRIES
      ensures t.dir[k'] in t.mem && t.mem[t.dir[k']].Table? && |t.mem[t.dir[k']].pte| == ENTRIES
              && EntryOk(t, {}, k', i')
    {
      AddNodeEntry(s, t, k, i, c, k', i');
    }
    AddNodeMap(s, t, k, i, c);
  }

  lemma AddNodeEntry(s: St, t: St, k: Key, i: nat, c: nat, k': Key, i': nat)
    requires NodesOk(s, {}) && k in s.dir && k.level > 0 && i < ENTRIES && Child(k, i) !in s.dir
    requires c in s.owner && s.owner[c].Kernel? && s.mem[c] == Table(Zeros(ENTRIES))
    requires t == St(s.mem[s.dir[k] := Table(s.mem[s.dir[k]].pte[i := MakePte(c, 0)])],
                     s.owner[c := Node(Child(k, i))], s.dir[Child(k, i) := c])
    requires k' in t.dir && i' < ENTRIES
    ensures t.dir[k'] in t.mem && t.mem[t.dir[k']].Table? && |t.mem[t.dir[k']].pte| == ENTRIES && EntryOk(t, {}, k', i')
  {
    ParentEntry(k, i);
    if k' in s.dir {
      assert EntryOk(s, {}, k', i');
    } else {
      NoGrandchild(s, Child(k, i), i');
    }
  }

  lemma AddNodeMap(s: St, t: St, k: Key, i: nat, c: nat)
    requires NodesOk(s, {}) && k in s.dir && k.level > 0 && i < ENTRIES && Child(k, i) !in s.dir
    requires c in s.owner && s.owner[c].Kernel? && s.mem[c] == Table(Zeros(ENTRIES))
    requires t == St(s.mem[s.dir[k] := Table(s.mem[s.dir[k]].pte[i := MakePte(c, 0)])],
                     s.owner[c := Node(Child(k, i))], s.dir[Child(k, i) := c])
    ensures SameMap(s, t)
  {
    hide EntryOk, Pte, NodesOk, MakePte;
    forall r: nat, v: nat ensures Pte(t, r, v) == Pte(s, r, v) {
      AddNodePage(s, t, k, i, c, r, v);
    }
  }

  lemma AddNodePage(s: St, t: St, k: Key, i: nat, c: nat, r: nat, v: nat)
    requires NodesOk(s, {}) && k in s.dir && k.level > 0 && i < ENTRIES && Child(k, i) !in s.dir
    requires c in s.owner && s.owner[c].Kernel? && s.mem[c] == Table(Zeros(ENTRIES))
    requires t == St(s.mem[s.dir[k] := Table(s.mem[s.dir[k]].pte[i := MakePte(c, 0)])],
                     s.owner[c := Node(Child(k, i))], s.dir[Child(k, i) := c])
    ensures Pte(t, r, v) == Pte(s, r, v)
  {
    hide EntryOk, MakePte;
    assert Key(r, 0, v / ENTRIES) == Child(k, i) ==> Pte(t, r, v) == Zeros(ENTRIES)[v % ENTRIES];
  }

  lemma NoGrandchild(s: St, k: Key, i: nat)
    requires NodesOk(s, {}) && k !in s.dir && i < ENTRIES
    ensures k.level > 0 ==> Child(k, i) !in s.dir || k.level > 2
  {
    if k.level > 0 && Child(k, i) in s.dir {
      ParentEntry(k, i);
    }
  }

  /** Taking a free frame c for a page-table page touches no other owner's frame. */
  lemma NodeKept(s: St, k: Key, i: nat, c: nat, p: Page, q: Page)
    requires s.mem.Keys == s.owner.Keys && k in s.dir && k.level > 0 && Child(k, i) !in s.dir
    requires s.dir[k] in s.owner && s.owner[s.dir[k]].Node? && c in s.owner && s.owner[c].Free?
    ensures Kept(s, St(s.mem[c := p][s.dir[k] := q], s.owner[c := Node(Child(k, i))], s.dir[Child(k, i) := c]), k.root)
  {
  }

  /** The same for a frame that was free before. */
  lemma NodeGrown(s: St, k: Key, i: nat, c: nat)
    requires NodesOk(s, {}) && k in s.dir && k.level > 0 && i < ENTRIES && Child(k, i) !in s.dir
    requires c in s.owner && s.owner[c].Free?
    ensures var t := St(s.mem[c := Table(Zeros(ENTRIES))][s.dir[k] := Table(s.mem[s.dir[k]].pte[i := MakePte(c, 0)])],
                        s.owner[c := Node(Child(k, i))], s.dir[Child(k, i) := c]);
            NodesOk(t, {}) && Grown(s, t, k.root)
  {
    hide Pte, EntryOk, Kept;
    OtherFrame(s, {}, c, Table(Zeros(ENTRIES)), Kernel);
    NodeKept(s, k, i, c, Table(Zeros(ENTRIES)), Table(s.mem[s.dir[k]].pte[i := MakePte(c, 0)]));
    var s1 := s.(mem := s.mem[c := Table(Zeros(ENTRIES))], owner := s.owner[c := Kernel]);
    AddNode(s1, k, i, c);
    UpdateTwice(s.owner, c, Kernel, Node(Child(k, i)));
    var t := St(s1.mem[s.dir[k] := Table(s.mem[s.dir[k]].pte[i := MakePte(c, 0)])],
                s.owner[c := Node(Child(k, i))], s.dir[Child(k, i) := c]);
    assert SameMap(s, s1) && SameMap(s1, t);
    forall r: nat, v: nat ensures Pte(t, r, v) == Pte(s, r, v) {
      assert Pte(s1, r, v) == Pte(s, r, v) && Pte(t, r, v) == Pte(s1, r, v);
    }
  }

  /** Writing one level-0 entry changes the flat map at one page. */
  lemma SetEntry(s: St, root: nat, vpn: nat, e: nat)
    requires NodesOk(s, {}) && Key(root, 0, vpn / ENTRIES) in s.dir
    requires e == 0 || (PteValid(e) && IsLeaf(e))
    ensures var f := s.dir[Key(root, 0, vpn / ENTRIES)];
            var t := s.(mem := s.mem[f := Table(s.mem[f].pte[vpn % ENTRIES := e])]);
            && NodesOk(t, {})
            && (forall r: nat, v: nat :: Pte(t, r, v) == if r == root && v == vpn then e else Pte(s, r, v))
  {
    var k := Key(root, 0, vpn / ENTRIES);
    var t := s.(mem := s.mem[s.dir[k] := Table(s.mem[s.dir[k]].pte[vpn % ENTRIES := e])]);
    forall k', i: nat | k' in t.dir && i < ENTRIES ensures EntryOk(t, {}, k', i) {
      assert EntryOk(s, {}, k', i);
    }
    forall r: nat, v: nat ensures Pte(t, r, v) == if r == root && v == vpn then e else Pte(s, r, v) {
    }
  }

  /** No two pages share an entry: walk reaches distinct slots for distinct pages. */
  lemma DistinctSlots(s: St, r1: nat, v1: nat, r2: nat, v2: nat)
    requires NodesOk(s, {}) && Key(r1, 0, v1 / ENTRIES) in s.dir && Key(r2, 0, v2 / ENTRIES) in s.dir
    ensures s.dir[Key(r1, 0, v1 / ENTRIES)] == s.dir[Key(r2, 0, v2 / ENTRIES)] && v1 % ENTRIES == v2 % ENTRIES
            <==> r1 == r2 && v1 == v2
  {
  }

  /** t maps m pages of root from vpn on to consecutive frames from f on, and is otherwise grown from s. */
  ghost predicate Mapped(s: St, t: St, root: nat, vpn: nat, m: nat, f: nat, perm: nat)
    requires perm < 1024
  {
    && Kept(s, t, root)
    && (forall r: nat, v: nat :: Pte(t, r, v) ==
          if r == root && vpn <= v < vpn + m then MakePte(f + (v - vpn), perm) else Pte(s, r, v))
  }

  lemma MappedMore(s: St, t: St, u: St, w: St, root: nat, vpn: nat, m: nat, f: nat, perm: nat)
    requires perm < 1024 && Mapped(s, t, root, vpn, m, f, perm) && Grown(t, u, root) && Kept(u, w, root)
    requires forall r: nat, v: nat ::
               Pte(w, r, v) == if r == root && v == vpn + m then MakePte(f + m, perm) else Pte(u, r, v)
    ensures Mapped(s, w, root, vpn, m + 1, f, perm)
  {
    hide Pte, MakePte, Kept;
    KeptTwice(s, t, u, root);
    KeptTwice(s, u, w, root);
    forall r: nat, v: nat ensures Pte(w, r, v) ==
      if r == root && vpn <= v < vpn + m + 1 then MakePte(f + (v - vpn), perm) else Pte(s, r, v) {
      assert Pte(u, r, v) == Pte(t, r, v);
    }
  }

  lemma MappedThenGrown(s: St, t: St, u: St, root: nat, vpn: nat, m: nat, f: nat, perm: nat)
    requires perm < 1024 && Mapped(s, t, root, vpn, m, f, perm) && Grown(t, u, root)
    ensures Mapped(s, u, root, vpn, m, f, perm) && Pte(u, root, vpn + m) == Pte(s, root, vpn + m)
  {
    hide Pte, MakePte, Kept;
    KeptTwice(s, t, u, root);
  }

  lemma EntryKept(s: St, root: nat, k: Key, p: Page)
    requires s.mem.Keys == s.owner.Keys && k in s.dir && s.dir[k] in s.owner && s.owner[s.dir[k]].Node?
    ensures Kept(s, s.(mem := s.mem[s.dir[k] := p]), root)
  {
  }

  lemma GrownLeaves(s: St, t: St, root: nat)
    requires Grown(s, t, root) && LeavesOk(s)
    ensures LeavesOk(t)
  {
    hide Pte;
    forall f | f in t.owner && t.owner[f].Leaf? ensures LeafOk(t, f) {
      assert LeafOk(s, f);
    }
  }

  /** User pages stay in order when nothing about them changes. */
  lemma LeavesSame(s: St, t: St)
    requires LeavesOk(s) && SameMap(s, t) && t.mem.Keys == t.owner.Keys == s.owner.Keys
    requires forall f | f in s.owner && (s.owner[f].Leaf? || t.owner[f].Leaf?) ::
               t.owner[f] == s.owner[f] && t.mem[f] == s.mem[f]
    ensures LeavesOk(t)
  {
    hide Pte;
    forall f | f in t.owner && t.owner[f].Leaf? ensures LeafOk(t, f) {
      assert LeafOk(s, f);
    }
  }

  lemma LeafStored(s: St, t: St, f: nat, data: seq<nat>)
    requires LeavesOk(s) && SameMap(s, t) && f in s.owner && |data| == PGSIZE && t == s.(mem := s.mem[f := Bytes(data)])
    ensures LeavesOk(t)
  {
    hide Pte;
    forall g | g in t.owner && t.owner[g].Leaf? ensures LeafOk(t, g) {
      assert LeafOk(s, g);
    }
  }

  /** A leaf frame is freed and its entry cleared. */
  lemma DropLeaf(s: St, t: St, root: nat, vpn: nat, f: nat)
    requires LeavesOk(s) && f in s.owner && s.owner[f] == Leaf(root, vpn)
    requires t.mem.Keys == s.mem.Keys && t.owner == s.owner[f := Free]
    requires forall g | g in s.owner && g != f && s.owner[g].Leaf? :: t.mem[g] == s.mem[g]
    requires !PteValid(Pte(t, root, vpn))
    requires forall r: nat, v: nat | r != root || v != vpn :: Pte(t, r, v) == Pte(s, r, v)
    ensures LeavesOk(t)
  {
    hide Pte;
    forall g | g in t.owner && t.owner[g].Leaf? ensures LeafOk(t, g) {
      assert LeafOk(s, g) && LeafOk(s, f);
    }
  }

  lemma EntryAt(s: St, k: Key, i: nat)
    requires NodesOk(s, {}) && k in s.dir && k.level == 0 && i < ENTRIES
    ensures s.dir[k] in s.mem && s.mem[s.dir[k]].Table? && |s.mem[s.dir[k]].pte| == ENTRIES
    ensures var e := s.mem[s.dir[k]].pte[i]; e == 0 || (PteValid(e) && IsLeaf(e))
  {
    assert EntryOk(s, {}, k, i);
  }

  lemma MappedNone(s: St, root: nat, vpn: nat, f: nat, perm: nat)
    requires perm < 1024 && NodesOk(s, {})
    ensures Mapped(s, s, root, vpn, 0, f, perm)
  {
  }

  lemma KeptKeys(s: St, t: St, root: nat, vpn: nat, m: nat, f: nat, perm: nat)
    requires perm < 1024 && Mapped(s, t, root, vpn, m, f, perm)
    ensures forall k | k in s.dir :: k in t.dir
  {
  }

  lemma LeafFlags(e: nat)
    requires PteValid(e) && IsLeaf(e)
    ensures PteFlags(e) != PTE_V
  {
  }

  /** t is s after uvmunmap: pages lo..hi of root have no entry, and if doFree their frames are free. */
  ghost predicate Unmapped(s: St, t: St, root: nat, lo: nat, hi: nat, doFree: bool) {
    && s.mem.Keys == s.owner.Keys == t.owner.Keys == t.mem.Keys && s.dir == t.dir
    && (forall r: nat, v: nat :: Pte(t, r, v) == if r == root && lo <= v < hi then 0 else Pte(s, r, v))
    && (forall f | f in s.owner :: t.owner[f] ==
          if doFree && s.owner[f].Leaf? && s.owner[f].root == root && lo <= s.owner[f].vpn < hi then Free
          else s.owner[f])
    && (forall f | f in t.owner && (t.owner[f].Kernel? || t.owner[f].Leaf?) :: t.mem[f] == s.mem[f])
  }

  lemma UnmappedNone(s: St, root: nat, lo: nat, doFree: bool)
    requires s.mem.Keys == s.owner.Keys
    ensures Unmapped(s, s, root, lo, lo, doFree)
  {
  }

  lemma UnmappedTwice(s: St, t: St, u: St, root: nat, lo: nat, mid: nat, hi: nat, doFree: bool)
    requires lo <= mid <= hi && Unmapped(s, t, root, lo, mid, doFree) && Unmapped(t, u, root, mid, hi, doFree)
    ensures Unmapped(s, u, root, lo, hi, doFree)
  {
    hide Pte;
  }

  /** A page without an entry owns no frame. */
  lemma UnmappedHole(s: St, root: nat, v: nat, doFree: bool)
    requires s.mem.Keys == s.owner.Keys && Pte(s, root, v) == 0 && (doFree ==> LeavesOk(s))
    ensures Unmapped(s, s, root, v, v + 1, doFree)
  {
    hide Pte;
    NullEntry();
    forall f | doFree && f in s.owner && s.owner[f].Leaf? ensures s.owner[f].root != root || s.owner[f].vpn != v {
      assert LeafOk(s, f);
    }
  }

  /** One page removed: the frame freed if asked for, the entry cleared. */
  lemma UnmappedOne(s: St, t: St, root: nat, v: nat, f: nat, doFree: bool)
    requires s.mem.Keys == s.owner.Keys && t.mem.Keys == s.mem.Keys && t.dir == s.dir
    requires if doFree then LeavesOk(s) && f in s.owner && s.owner[f] == Leaf(root, v) && t.owner == s.owner[f := Free]
             else t.owner == s.owner
    requires forall g | g in t.owner && (t.owner[g].Kernel? || t.owner[g].Leaf?) :: t.mem[g] == s.mem[g]
    requires forall r: nat, u: nat :: Pte(t, r, u) == if r == root && u == v then 0 else Pte(s, r, u)
    ensures Unmapped(s, t, root, v, v + 1, doFree)
  {
    hide Pte;
    forall g | doFree && g in s.owner && s.owner[g] == Leaf(root, v) ensures g == f {
      assert LeafOk(s, g) && LeafOk(s, f);
    }
  }

  /** t is s with a new frame f of known contents mapped at one page of root. */
  ghost predicate OnePage(s: St, t: St, root: nat, v: nat, f: nat, perm: nat, data: seq<nat>)
    requires perm < 1024
  {
    && s.mem.Keys == s.owner.Keys == t.owner.Keys == t.mem.Keys
    && f in s.owner && s.owner[f].Free? && t.owner[f] == Leaf(root, v) && t.mem[f] == Bytes(data)
    && (forall g | g in s.owner && g != f :: t.owner[g] == s.owner[g]
          || (s.owner[g].Free? && t.owner[g].Node? && t.owner[g].key.root == root))
    && (forall g | g in s.owner && (s.owner[g].Kernel? || s.owner[g].Leaf?) :: t.mem[g] == s.mem[g])
    && (forall k | k in s.dir :: k in t.dir && t.dir[k] == s.dir[k])
    && (forall k | k in t.dir && k !in s.dir :: k.root == root)
    && (forall r: nat, u: nat :: Pte(t, r, u) == if r == root && u == v then MakePte(f, perm) else Pte(s, r, u))
  }

  /** The entries of the trapframe and trampoline pages own nothing. */
  lemma SpecialEntry(s: St, t: St, root: nat, vpn: nat)
    requires LeavesOk(s) && vpn >= TRAPFRAME && t.mem.Keys == s.mem.Keys && t.owner == s.owner
    requires forall g | g in s.owner && s.owner[g].Leaf? :: t.mem[g] == s.mem[g]
    requires forall r: nat, v: nat | r != root || v != vpn :: Pte(t, r, v) == Pte(s, r, v)
    ensures LeavesOk(t)
  {
    hide Pte;
    forall g | g in t.owner && t.owner[g].Leaf? ensures LeafOk(t, g) {
      assert LeafOk(s, g);
    }
  }

  /** A mapped user page is owned by its entry. */
  lemma OwnLeaf(s: St, root: nat, vpn: nat)
    requires LeavesOk(s) && vpn < TRAPFRAME && PteValid(Pte(s, root, vpn))
    ensures PteFrame(Pte(s, root, vpn)) in s.owner && s.owner[PteFrame(Pte(s, root, vpn))] == Leaf(root, vpn)
    ensures LeafOk(s, PteFrame(Pte(s, root, vpn)))
  {
  }

  lemma NoEntry(s: St, root: nat, vpn: nat)
    requires Key(root, 0, vpn / ENTRIES) !in s.dir
    ensures Pte(s, root, vpn) == 0
  {
  }

  /** PGROUNDUP(sz) / PGSIZE */
  function Pages(sz: nat): nat { (sz + PGSIZE - 1) / PGSIZE }

  /** A Kernel frame f, taken from the free list of s and mapped in u, becomes the leaf of its page. */
  lemma PageAdded(s: St, t: St, u: St, root: nat, v: nat, f: nat, perm: nat, data: seq<nat>)
    requires perm < 1024 && LeavesOk(s) && v < TRAPFRAME && !PteValid(Pte(s, root, v)) && |data| == PGSIZE
    requires f in s.owner && s.owner[f].Free? && t == s.(mem := s.mem[f := Bytes(data)], owner := s.owner[f := Kernel])
    requires SameMap(s, t) && Mapped(t, u, root, v, 1, f, perm)
    ensures u.mem.Keys == u.owner.Keys == s.owner.Keys && u.owner[f].Kernel?
    ensures var w := u.(owner := u.owner[f := Leaf(root, v)]); LeavesOk(w) && OnePage(s, w, root, v, f, perm, data)
    ensures forall k | k in s.dir :: k in u.dir
  {
    hide Pte, MakePte, PteValid, PteFrame, SameMap;
    PteFields(f, perm);
    var w := u.(owner := u.owner[f := Leaf(root, v)]);
    OwnerFree(u, w);
    PageMap(s, t, u, w, root, v, f, perm);
    forall g | g in w.owner && w.owner[g].Leaf? ensures LeafOk(w, g) {
      assert g != f ==> LeafOk(s, g);
    }
  }

  lemma PageMap(s: St, t: St, u: St, w: St, root: nat, v: nat, f: nat, perm: nat)
    requires perm < 1024 && SameMap(s, t) && Mapped(t, u, root, v, 1, f, perm) && SameMap(u, w)
    ensures forall r: nat, x: nat :: Pte(w, r, x) == if r == root && x == v then MakePte(f, perm) else Pte(s, r, x)
  {
    hide Pte, MakePte, Kept;
    forall r: nat, x: nat ensures Pte(w, r, x) == if r == root && x == v then MakePte(f, perm) else Pte(s, r, x) {
      assert Pte(w, r, x) == Pte(u, r, x) && Pte(t, r, x) == Pte(s, r, x);
    }
  }

  lemma OwnerFree(s: St, t: St)
    requires s.mem == t.mem && s.dir == t.dir
    ensures SameMap(s, t)
  {
  }

  /** kalloc succeeded, mappages did not, kfree gave the frame back. */
  lemma PageGivenBack(s: St, t: St, u: St, w: St, root: nat, f: nat, p: Page, q: Page)
    requires s.mem.Keys == s.owner.Keys && f in s.owner && s.owner[f].Free?
    requires t == s.(mem := s.mem[f := p], owner := s.owner[f := Kernel]) && SameMap(s, t) && Grown(t, u, root)
    requires w == u.(mem := u.mem[f := q], owner := u.owner[f := Free]) && SameMap(u, w)
    ensures Grown(s, w, root)
  {
    hide Pte, Kept;
    KeptAround(s, t, u, w, root, f, p, q);
    SameMapThrice(s, t, u, w);
  }

  lemma KeptAround(s: St, t: St, u: St, w: St, root: nat, f: nat, p: Page, q: Page)
    requires s.mem.Keys == s.owner.Keys && f in s.owner && s.owner[f].Free?
    requires t == s.(mem := s.mem[f := p], owner := s.owner[f := Kernel]) && Kept(t, u, root)
    requires w == u.(mem := u.mem[f := q], owner := u.owner[f := Free])
    ensures Kept(s, w, root)
  {
    forall g | g in s.owner
      ensures w.owner[g] == s.owner[g] || (s.owner[g].Free? && w.owner[g].Node? && w.owner[g].key.root == root)
    {
      assert g != f ==> t.owner[g] == s.owner[g];
    }
    forall g | g in s.owner && (s.owner[g].Kernel? || s.owner[g].Leaf?) ensures w.mem[g] == s.mem[g] {
      assert g != f && t.mem[g] == s.mem[g] && t.owner[g] == s.owner[g];
    }
  }

  lemma SameMapThrice(s: St, t: St, u: St, w: St)
    requires SameMap(s, t) && SameMap(t, u) && SameMap(u, w)
    ensures SameMap(s, w)
  {
    hide Pte;
    forall r: nat, v: nat ensures Pte(w, r, v) == Pte(s, r, v) {
      assert Pte(w, r, v) == Pte(u, r, v) && Pte(u, r, v) == Pte(t, r, v) && Pte(t, r, v) == Pte(s, r, v);
    }
  }

  lemma GrownKeys(s: St, t: St, root: nat)
    requires Grown(s, t, root)
    ensures forall k | k in s.dir :: k in t.dir
  {
  }

  /** What a page is to hold: permission bits and contents. */
  datatype Want = Want(perm: nat, data: seq<nat>)

  /** t is s with new frames holding `want` at those pages of root. */
  ghost predicate Placed(s: St, t: St, root: nat, want: map<nat, Want>) {
    && s.mem.Keys == s.owner.Keys == t.owner.Keys == t.mem.Keys
    && (forall r: nat, u: nat | r != root || u !in want :: Pte(t, r, u) == Pte(s, r, u))
    && (forall v | v in want :: PlacedAt(s, t, root, v, want[v]))
    && (forall g | g in s.owner :: t.owner[g] == s.owner[g]
          || (s.owner[g].Free? && t.owner[g].Node? && t.owner[g].key.root == root)
          || (s.owner[g].Free? && t.owner[g].Leaf? && t.owner[g].root == root && t.owner[g].vpn in want))
    && (forall g | g in s.owner && (s.owner[g].Kernel? || s.owner[g].Leaf?) :: t.mem[g] == s.mem[g])
    && (forall k | k in s.dir :: k in t.dir && t.dir[k] == s.dir[k])
    && (forall k | k in t.dir && k !in s.dir :: k.root == root)
  }

  ghost predicate PlacedAt(s: St, t: St, root: nat, v: nat, w: Want)
    requires t.mem.Keys == t.owner.Keys == s.owner.Keys
  {
    var e := Pte(t, root, v);
    PteFrame(e) in s.owner && s.owner[PteFrame(e)].Free? && t.owner[PteFrame(e)] == Leaf(root, v)
    && w.perm < 1024 && e == MakePte(PteFrame(e), w.perm) && t.mem[PteFrame(e)] == Bytes(w.data)
  }

  lemma PlacedMore(s: St, t: St, u: St, root: nat, want: map<nat, Want>, v: nat, f: nat, w: Want)
    requires w.perm < 1024 && v !in want && Placed(s, t, root, want) && OnePage(t, u, root, v, f, w.perm, w.data)
    ensures Placed(s, u, root, want[v := w])
  {
    hide Pte, MakePte, PteFrame;
    PteFields(f, w.perm);
    var more := want[v := w];
    forall x | x in more ensures PlacedAt(s, u, root, x, more[x]) {
      if x != v {
        assert PlacedAt(s, t, root, x, want[x]);
      }
    }
  }

  lemma PlacedNone(s: St, root: nat)
    requires s.mem.Keys == s.owner.Keys
    ensures Placed(s, s, root, map[])
  {
  }

  lemma PlacedGrown(s: St, t: St, u: St, root: nat, want: map<nat, Want>)
    requires Placed(s, t, root, want) && Grown(t, u, root)
    ensures Placed(s, u, root, want)
  {
    hide Pte, MakePte, PteFrame;
    forall w | w in want ensures PlacedAt(s, u, root, w, want[w]) {
      assert PlacedAt(s, t, root, w, want[w]);
    }
  }

  /** Taking the new pages out again leaves only page-table pages behind. */
  lemma PlacedUndone(s: St, t: St, u: St, root: nat, want: map<nat, Want>, lo: nat, hi: nat)
    requires Placed(s, t, root, want) && Unmapped(t, u, root, lo, hi, true) && LeavesOk(s)
    requires forall v: nat | lo <= v < hi :: Pte(s, root, v) == 0
    requires forall v | v in want :: lo <= v < hi
    ensures Grown(s, u, root)
  {
    hide Pte, LeavesOk, Kept, PlacedAt;
    NoLeafThere(s, root, lo, hi);
    PlacedUndoneKept(s, t, u, root, want, lo, hi);
  }

  /** Pages without entries own no frames. */
  lemma NoLeafThere(s: St, root: nat, lo: nat, hi: nat)
    requires LeavesOk(s) && forall v: nat | lo <= v < hi :: Pte(s, root, v) == 0
    ensures forall g | g in s.owner && s.owner[g].Leaf? && s.owner[g].root == root :: !(lo <= s.owner[g].vpn < hi)
  {
    hide Pte;
    NullEntry();
    forall g | g in s.owner && s.owner[g].Leaf? && s.owner[g].root == root ensures !(lo <= s.owner[g].vpn < hi) {
      assert LeafOk(s, g);
    }
  }

  lemma PlacedUndoneKept(s: St, t: St, u: St, root: nat, want: map<nat, Want>, lo: nat, hi: nat)
    requires Placed(s, t, root, want) && Unmapped(t, u, root, lo, hi, true) && forall v | v in want :: lo <= v < hi
    requires forall g | g in s.owner && s.owner[g].Leaf? && s.owner[g].root == root :: !(lo <= s.owner[g].vpn < hi)
    ensures Kept(s, u, root)
  {
    hide Pte, PlacedAt;
  }

  lemma PlacedElsewhere(s: St, t: St, root: nat, want: map<nat, Want>)
    requires Placed(s, t, root, want)
    ensures forall r: nat, v: nat | r != root || v !in want :: Pte(t, r, v) == Pte(s, r, v)
    ensures forall k | k in s.dir :: k in t.dir
    ensures s.mem.Keys == s.owner.Keys == t.owner.Keys == t.mem.Keys
    ensures forall g | g in s.owner && (s.owner[g].Kernel? || s.owner[g].Leaf?) :: t.mem[g] == s.mem[g]
  {
  }

  function ZeroPage(v: nat, perm: nat): Want { Want(perm, Zeros(PGSIZE)) }

  /** Zeroed pages lo..hi. */
  function ZeroPages(lo: nat, hi: nat, perm: nat): map<nat, Want> {
    map v: nat | lo <= v < hi :: ZeroPage(v, perm)
  }

  lemma KernelKept(s: St, t: St, root: nat, v: nat, m: nat, f: nat, perm: nat)
    requires perm < 1024 && Mapped(s, t, root, v, m, f, perm) && f in s.owner && s.owner[f].Kernel?
    ensures t.mem.Keys == t.owner.Keys == s.owner.Keys && t.owner[f].Kernel? && (m == 0 ==> Grown(s, t, root))
  {
  }

  function Max(a: nat, b: nat): nat { if a < b then b else a }
  function Min(a: nat, b: nat): nat { if a < b then a else b }
}
