/** One address space against the rest of the machine. */
module Spaces {
  import opened Params
  import opened Sets
  import opened PageTables
  import opened FreeTree

  /** Free, or owned by the page table at root. */
  predicate Loose(o: Owner, root: nat) {
    match o
    case Free => true
    case Kernel => false
    case Node(k) => k.root == root
    case Leaf(r, _) => r == root
  }

  /** From s to t only root's own pages and entries changed, and the frame x. */
  ghost predicate Local(s: St, t: St, root: nat, x: nat) {
    && s.mem.Keys == s.owner.Keys == t.owner.Keys == t.mem.Keys
    && (forall g | g in s.owner && g != x ::
          t.owner[g] == s.owner[g] || (Loose(s.owner[g], root) && Loose(t.owner[g], root)))
    && (forall g | g in s.owner && g != x && !Loose(s.owner[g], root) && !s.owner[g].Node? :: t.mem[g] == s.mem[g])
    && (forall k: Key | k.root != root :: (k in s.dir <==> k in t.dir) && (k in s.dir ==> t.dir[k] == s.dir[k]))
    && (forall r: nat, v: nat | r != root :: Pte(t, r, v) == Pte(s, r, v))
  }

  /** Nothing belongs to root. */
  ghost predicate Vacant(s: St, root: nat) {
    && (forall k | k in s.dir :: k.root != root)
    && (forall g | g in s.owner :: Loose(s.owner[g], root) ==> s.owner[g].Free?)
  }

  /** Every frame has the owner it had, and everything in use its contents. */
  ghost predicate Restored(s: St, t: St) {
    && s.mem.Keys == s.owner.Keys == t.mem.Keys && s.owner == t.owner && s.dir == t.dir
    && (forall g | g in s.owner && !s.owner[g].Free? :: t.mem[g] == s.mem[g])
  }

  lemma LocalSelf(s: St, root: nat, x: nat)
    requires s.mem.Keys == s.owner.Keys
    ensures Local(s, s, root, x)
  {
  }

  lemma LocalTwice(s: St, t: St, u: St, root: nat, x: nat)
    requires Local(s, t, root, x) && Local(t, u, root, x)
    ensures Local(s, u, root, x)
  {
    hide Pte;
    LocalDirs(s, t, u, root, x);
    forall g | g in s.owner && g != x && !Loose(s.owner[g], root) && !s.owner[g].Node? ensures u.mem[g] == s.mem[g] {
      assert t.owner[g] == s.owner[g];
    }
  }

  lemma LocalDirs(s: St, t: St, u: St, root: nat, x: nat)
    requires Local(s, t, root, x) && Local(t, u, root, x)
    ensures forall k: Key | k.root != root :: (k in s.dir <==> k in u.dir) && (k in s.dir ==> u.dir[k] == s.dir[k])
    ensures forall r: nat, v: nat | r != root :: Pte(u, r, v) == Pte(s, r, v)
  {
  }

  lemma LocalWeaker(s: St, t: St, root: nat, x: nat)
    requires Local(s, t, root, 0) && 0 !in s.owner
    ensures Local(s, t, root, x)
  {
  }

  lemma LocalFree(s: St, t: St, root: nat, f: nat)
    requires Local(s, t, root, 0) && Vacant(t, root) && f in s.owner && s.owner[f].Free? && f != 0
    ensures f in t.owner && t.owner[f].Free?
  {
  }

  lemma LocalKernel(s: St, t: St, root: nat, x: nat, f: nat)
    requires Local(s, t, root, x) && f in s.owner && s.owner[f].Kernel? && f != x
    ensures f in t.owner && t.owner[f].Kernel? && t.mem.Keys == s.mem.Keys && f in s.mem && t.mem[f] == s.mem[f]
  {
  }

  /** What each operation on a page table leaves alone. */
  lemma MappedLocal(s: St, t: St, root: nat, vpn: nat, m: nat, f: nat, perm: nat, x: nat)
    requires perm < 1024 && Mapped(s, t, root, vpn, m, f, perm)
    ensures Local(s, t, root, x)
  {
    hide Pte;
  }

  lemma GrownLocal(s: St, t: St, root: nat, x: nat)
    requires Grown(s, t, root)
    ensures Local(s, t, root, x)
  {
    hide Pte;
  }

  lemma PlacedLocal(s: St, t: St, root: nat, want: map<nat, Want>, x: nat)
    requires Placed(s, t, root, want)
    ensures Local(s, t, root, x)
  {
    hide Pte;
  }

  lemma UnmappedLocal(s: St, t: St, root: nat, lo: nat, hi: nat, doFree: bool, x: nat)
    requires Unmapped(s, t, root, lo, hi, doFree)
    ensures Local(s, t, root, x)
  {
    hide Pte;
  }

  lemma FreedLocal(s: St, t: St, k: Key, x: nat)
    requires Freed(s, t, k)
    ensures Local(s, t, k.root, x)
  {
    hide Pte, Up;
  }

  /** Every page-table page hangs under the root of its page table. */
  lemma RootOf(s: St, c: Key)
    requires NodesOk(s, {}) && c in s.dir
    ensures Key(c.root, 2, 0) in s.dir && Below(c, Key(c.root, 2, 0)) && s.dir[Key(c.root, 2, 0)] == c.root
  {
    if c.level == 1 {
      assert Parent(c) in s.dir;
    } else if c.level == 0 {
      assert Parent(c) in s.dir && Parent(Parent(c)) in s.dir;
      assert Up(c.prefix, 1) == Up(c.prefix, 0) / ENTRIES && Up(c.prefix, 2) == Up(c.prefix, 1) / ENTRIES;
    }
  }

  /** With all user entries gone and the tree freed, nothing is left of root. */
  lemma TreeGone(s: St, t: St, root: nat)
    requires NodesOk(s, {}) && LeavesOk(s) && Freed(s, t, Key(root, 2, 0))
    requires forall v: nat :: Pte(s, root, v) == 0
    ensures Vacant(t, root) && LeavesOk(t)
  {
    hide Below;
    NullEntry();
    forall k | k in t.dir ensures k.root != root {
      if k.root == root {
        RootOf(s, k);
      }
    }
    forall g | g in t.owner && Loose(t.owner[g], root) ensures t.owner[g].Free? {
      if s.owner[g].Node? {
        RootOf(s, s.owner[g].key);
      } else if s.owner[g].Leaf? {
        assert LeafOk(s, g);
      }
    }
    FreedLeaves(s, t, Key(root, 2, 0));
  }

  lemma FreedLeaves(s: St, t: St, k: Key)
    requires Freed(s, t, k) && LeavesOk(s)
    ensures LeavesOk(t)
  {
    hide Pte, Below;
    forall g | g in t.owner && t.owner[g].Leaf? ensures LeafOk(t, g) {
      assert LeafOk(s, g);
    }
  }

  /** A zeroed Kernel frame becomes the root of a new page table. */
  lemma NewRoot(s: St, t: St, r: nat)
    requires NodesOk(s, {}) && LeavesOk(s) && s.mem.Keys == s.owner.Keys && r in s.owner && s.owner[r].Kernel?
    requires s.mem[r] == Table(Zeros(ENTRIES))
    requires t == s.(owner := s.owner[r := Node(Key(r, 2, 0))], dir := s.dir[Key(r, 2, 0) := r])
    ensures NodesOk(t, {}) && SameMap(s, t) && LeavesOk(t)
  {
    hide LeavesOk, Pte, EntryOk, SameMap, NodesOk;
    NoRoot(s, r);
    NewRootMap(s, t, r);
    NewRootNodes(s, t, r);
  }

  lemma NewRootNodes(s: St, t: St, r: nat)
    requires NodesOk(s, {}) && (forall k | k in s.dir :: k.root != r) && s.mem == t.mem && s.mem.Keys == s.owner.Keys
    requires r in s.owner && s.owner[r].Kernel? && s.mem[r] == Table(Zeros(ENTRIES))
    requires t.owner == s.owner[r := Node(Key(r, 2, 0))] && t.dir == s.dir[Key(r, 2, 0) := r]
    ensures NodesOk(t, {})
  {
    hide EntryOk;
    forall k | k in t.dir ensures NewRootNode(t, k) {
      NewRootFacts(s, t, r, k);
    }
    forall k, i: nat | k in t.dir && i < ENTRIES
      ensures t.dir[k] in t.mem && t.mem[t.dir[k]].Table? && |t.mem[t.dir[k]].pte| == ENTRIES && EntryOk(t, {}, k, i) {
      NewRootEntry(s, t, r, k, i);
    }
    forall f | f in t.owner && t.owner[f].Node? ensures t.owner[f].key in t.dir && t.dir[t.owner[f].key] == f {
      assert f != r ==> s.owner[f].Node?;
    }
  }

  /** Where a page-table page hangs and who it belongs to. */
  ghost predicate NewRootNode(t: St, k: Key)
    requires k in t.dir
  {
    && t.dir[k] in t.owner && t.owner[t.dir[k]] == Node(k) && k.level <= 2
    && (k.level == 2 ==> k.prefix == 0 && t.dir[k] == k.root) && (k.level < 2 ==> Parent(k) in t.dir)
  }

  lemma NewRootFacts(s: St, t: St, r: nat, k: Key)
    requires NodesOk(s, {}) && (forall k | k in s.dir :: k.root != r) && r in s.owner && s.owner[r].Kernel?
    requires k in t.dir
    requires t.owner == s.owner[r := Node(Key(r, 2, 0))] && t.dir == s.dir[Key(r, 2, 0) := r]
    ensures NewRootNode(t, k)
  {
    hide EntryOk;
    assert k != Key(r, 2, 0) ==> k in s.dir && s.dir[k] != r;
  }

  lemma NewRootEntry(s: St, t: St, r: nat, k: Key, i: nat)
    requires NodesOk(s, {}) && (forall k | k in s.dir :: k.root != r) && i < ENTRIES && k in t.dir && s.mem == t.mem
    requires r in s.mem && s.mem[r] == Table(Zeros(ENTRIES)) && t.dir == s.dir[Key(r, 2, 0) := r]
    ensures t.dir[k] in t.mem && t.mem[t.dir[k]].Table? && |t.mem[t.dir[k]].pte| == ENTRIES && EntryOk(t, {}, k, i)
  {
    if k in s.dir {
      assert EntryOk(s, {}, k, i);
    }
  }

  /** A frame in no page table is not the root of one. */
  lemma NoRoot(s: St, r: nat)
    requires NodesOk(s, {}) && r in s.owner && !s.owner[r].Node?
    ensures forall k | k in s.dir :: k.root != r
  {
    hide EntryOk, Below;
    forall k | k in s.dir ensures k.root != r {
      RootOf(s, k);
    }
  }

  lemma NewRootMap(s: St, t: St, r: nat)
    requires s.mem == t.mem && LeavesOk(s) && r in s.owner && s.owner[r].Kernel?
    requires t.owner == s.owner[r := Node(Key(r, 2, 0))]
    requires t.dir == s.dir[Key(r, 2, 0) := r]
    ensures SameMap(s, t) && LeavesOk(t)
  {
    forall q: nat, v: nat ensures Pte(t, q, v) == Pte(s, q, v) {
    }
    forall f | f in t.owner && t.owner[f].Leaf? ensures LeafOk(t, f) {
      assert LeafOk(s, f);
    }
  }

  lemma NewRootLocal(s: St, t: St, r: nat, x: nat)
    requires s.mem.Keys == s.owner.Keys == t.mem.Keys && r in s.owner && s.owner[r].Free? && SameMap(s, t)
    requires t.owner == s.owner[r := Node(Key(r, 2, 0))] && t.dir == s.dir[Key(r, 2, 0) := r]
    requires forall g | g in s.owner && g != r :: t.mem[g] == s.mem[g]
    ensures Local(s, t, r, x)
  {
    hide Pte;
  }

  /** No page table at root: no entries, no frames. */
  lemma VacantRoot(s: St, root: nat)
    requires NodesOk(s, {}) && LeavesOk(s) && (forall k | k in s.dir :: k.root != root)
    ensures Vacant(s, root) && forall v: nat :: Pte(s, root, v) == 0
  {
    NullEntry();
    forall g | g in s.owner && Loose(s.owner[g], root) ensures s.owner[g].Free? {
      if s.owner[g].Leaf? {
        assert LeafOk(s, g);
      }
    }
  }

  /** An address space that came and went leaves no trace: no frame leaks, nothing else moves. */
  lemma CameAndWent(s: St, t: St, root: nat, x: nat)
    requires NodesOk(s, {}) && NodesOk(t, {}) && Local(s, t, root, x) && Vacant(s, root) && Vacant(t, root)
    requires x in s.owner ==> s.owner[x].Free? && t.owner[x].Free?
    ensures Restored(s, t)
  {
    hide Pte, EntryOk;
    assert s.owner == t.owner;
    assert s.dir == t.dir by {
      assert forall k :: k in s.dir <==> k in t.dir;
    }
    forall g | g in s.owner && !s.owner[g].Free? ensures t.mem[g] == s.mem[g] {
      if s.owner[g].Node? {
        TableFixed(s, t, root, s.owner[g].key);
      }
    }
  }

  /** A page-table page is determined by the tree and the flat map. */
  lemma TableFixed(s: St, t: St, root: nat, k: Key)
    requires NodesOk(s, {}) && NodesOk(t, {}) && s.dir == t.dir && k in s.dir && k.root != root
    requires forall r: nat, v: nat | r != root :: Pte(t, r, v) == Pte(s, r, v)
    ensures t.mem[s.dir[k]] == s.mem[s.dir[k]]
  {
    var a, b := s.mem[s.dir[k]].pte, t.mem[s.dir[k]].pte;
    forall i | 0 <= i < ENTRIES ensures a[i] == b[i] {
      assert EntryOk(s, {}, k, i) && EntryOk(t, {}, k, i);
      if k.level == 0 {
        var v := k.prefix * ENTRIES + i;
        assert v / ENTRIES == k.prefix && v % ENTRIES == i;
        assert Pte(s, k.root, v) == Pte(t, k.root, v);
      }
    }
    assert a == b;
  }

  /** Permission bits and contents of a user page. */
  ghost function PageOf(s: St, root: nat, v: nat): Want {
    var e := Pte(s, root, v);
    Want(PteFlags(e), if PteFrame(e) in s.mem && s.mem[PteFrame(e)].Bytes? then s.mem[PteFrame(e)].data else [])
  }

  /** The first n pages of an address space, holes left out. */
  ghost function CopyOf(s: St, root: nat, n: nat): map<nat, Want> {
    map v: nat | 0 <= v < n && PteValid(Pte(s, root, v)) :: PageOf(s, root, v)
  }

  lemma CopyNext(s: St, root: nat, n: nat)
    ensures CopyOf(s, root, 0) == map[] && n !in CopyOf(s, root, n)
    ensures CopyOf(s, root, n + 1) ==
            if PteValid(Pte(s, root, n)) then CopyOf(s, root, n)[n := PageOf(s, root, n)] else CopyOf(s, root, n)
  {
    hide Pte, PageOf, PteValid;
  }

  /** The page-table pages that copies of the first n pages of `from` hang under in the page table `to`. */
  ghost function CopyPaths(s: St, from: nat, to: nat, n: nat): set<Key> {
    if n == 0 then {} else CopyPaths(s, from, to, n - 1) + if PteValid(Pte(s, from, n - 1)) then Path(to, n - 1) else {}
  }

  lemma {:induction false} CopyPathsMore(s: St, from: nat, to: nat, n: nat, m: nat)
    requires n <= m
    ensures CopyPaths(s, from, to, n) <= CopyPaths(s, from, to, m)
    decreases m
  {
    if n < m {
      CopyPathsMore(s, from, to, n, m - 1);
    }
  }

  /** How many of the first n pages are mapped. */
  ghost function MappedBelow(s: St, from: nat, n: nat): nat {
    if n == 0 then 0 else MappedBelow(s, from, n - 1) + if PteValid(Pte(s, from, n - 1)) then 1 else 0
  }

  lemma MappedStep(s: St, root: nat, n: nat)
    ensures MappedBelow(s, root, 0) == 0
    ensures MappedBelow(s, root, n + 1) == MappedBelow(s, root, n) + if PteValid(Pte(s, root, n)) then 1 else 0
  {
    hide Pte;
  }

  lemma {:induction false} MappedBelowMore(s: St, from: nat, n: nat, m: nat)
    requires n <= m
    ensures MappedBelow(s, from, n) <= MappedBelow(s, from, m)
    decreases m
  {
    hide Pte;
    if n < m {
      MappedBelowMore(s, from, n, m - 1);
    }
  }

  /** Frames needed to copy the first n pages of `from` into a page table that has the page-table pages `keys`. */
  ghost function CopyNeeds(s: St, from: nat, to: nat, n: nat, keys: set<Key>): int {
    MappedBelow(s, from, n) + |CopyPaths(s, from, to, n) - keys|
  }

  lemma NeedsIs(s: St, from: nat, to: nat, n: nat, keys: set<Key>)
    ensures CopyNeeds(s, from, to, n, keys) == MappedBelow(s, from, n) + |CopyPaths(s, from, to, n) - keys|
  {
  }

  lemma CopyPathsStep(s: St, from: nat, to: nat, n: nat)
    ensures CopyPaths(s, from, to, 0) == {}
    ensures CopyPaths(s, from, to, n + 1) ==
            CopyPaths(s, from, to, n) + if PteValid(Pte(s, from, n)) then Path(to, n) else {}
    ensures MappedBelow(s, from, 0) == 0
    ensures MappedBelow(s, from, n + 1) == MappedBelow(s, from, n) + if PteValid(Pte(s, from, n)) then 1 else 0
  {
    hide Pte, Path;
    MappedStep(s, from, n);
  }

  /** Both depend on the holes of `from` alone. */
  lemma {:induction false} SameHoles(s: St, t: St, from: nat, to: nat, n: nat)
    requires forall v: nat | v < n :: Pte(t, from, v) == Pte(s, from, v)
    ensures MappedBelow(t, from, n) == MappedBelow(s, from, n) && CopyPaths(t, from, to, n) == CopyPaths(s, from, to, n)
  {
    hide Pte, Path;
    if n > 0 {
      SameHoles(s, t, from, to, n - 1);
    }
  }

  /** The page-table pages of a copy lie at the same places, whatever its root. */
  lemma {:induction false} CopyPlaces(s: St, from: nat, a: nat, b: nat, n: nat)
    ensures forall k | k in CopyPaths(s, from, a, n) :: k.root == a && k.level < 2
    ensures forall l: nat, p: nat | Key(a, l, p) in CopyPaths(s, from, a, n) :: Key(b, l, p) in CopyPaths(s, from, b, n)
  {
    hide Pte, PteValid;
    if n > 0 {
      CopyPlaces(s, from, a, b, n - 1);
    }
  }

  /** Frames for the page-table pages of a copy that shares those of the trampoline page. */
  ghost function CopyExtra(s: St, from: nat, to: nat, n: nat): nat {
    |CopyPaths(s, from, to, n) - Path(to, TRAMPOLINE)|
  }

  lemma {:induction false} CopyExtraAnyRoot(s: St, from: nat, a: nat, b: nat, n: nat)
    ensures CopyExtra(s, from, a, n) == CopyExtra(s, from, b, n)
  {
    hide Pte, PteValid, Path, CopyPaths, CopyExtra;
    CopyExtraStep(s, from, a, n);
    CopyExtraStep(s, from, b, n);
    if n > 0 {
      CopyExtraAnyRoot(s, from, a, b, n - 1);
      CopyPlaces(s, from, a, b, n - 1);
      CopyPlaces(s, from, b, a, n - 1);
      TwoKeys(a, b, n - 1, CopyPaths(s, from, a, n - 1), CopyPaths(s, from, b, n - 1));
    }
  }

  lemma CopyExtraStep(s: St, from: nat, to: nat, n: nat)
    ensures n == 0 ==> CopyExtra(s, from, to, n) == 0
    ensures n > 0 && !PteValid(Pte(s, from, n - 1)) ==> CopyExtra(s, from, to, n) == CopyExtra(s, from, to, n - 1)
    ensures n > 0 && PteValid(Pte(s, from, n - 1)) ==>
              CopyExtra(s, from, to, n) ==
              CopyExtra(s, from, to, n - 1) + |Path(to, n - 1) - (Path(to, TRAMPOLINE) + CopyPaths(s, from, to, n - 1))|
  {
    hide Pte, PteValid, Path;
    if n == 0 {
      assert CopyPaths(s, from, to, 0) - Path(to, TRAMPOLINE) == {};
    } else if PteValid(Pte(s, from, n - 1)) {
      CountMore(CopyPaths(s, from, to, n - 1), Path(to, n - 1), Path(to, TRAMPOLINE));
    } else {
      assert CopyPaths(s, from, to, n) == CopyPaths(s, from, to, n - 1);
    }
  }

  lemma TwoKeys(a: nat, b: nat, v: nat, x: set<Key>, y: set<Key>)
    requires forall l: nat, p: nat :: Key(a, l, p) in x <==> Key(b, l, p) in y
    ensures |Path(a, v) - (Path(a, TRAMPOLINE) + x)| == |Path(b, v) - (Path(b, TRAMPOLINE) + y)|
  {
    hide Up;
    var x', y' := Path(a, TRAMPOLINE) + x, Path(b, TRAMPOLINE) + y;
    NotIn(Key(a, 1, Up(v, 2)), Key(a, 0, Up(v, 1)), x');
    NotIn(Key(b, 1, Up(v, 2)), Key(b, 0, Up(v, 1)), y');
  }

  lemma NotIn(p: Key, q: Key, x: set<Key>)
    requires p != q
    ensures |{p, q} - x| == (if p in x then 0 else 1) + (if q in x then 0 else 1)
  {
    assert {p, q} - x == (if p in x then {} else {p}) + (if q in x then {} else {q});
  }

  /** The page tables of the two pages above user memory are the same, and new in a new page table. */
  lemma TopPaths(r: nat, keys: set<Key>)
    requires forall k | k in keys :: k.root != r
    ensures Paths(r, TRAMPOLINE, TRAMPOLINE + 1) == Path(r, TRAMPOLINE) == Paths(r, TRAPFRAME, TRAPFRAME + 1)
    ensures |Path(r, TRAMPOLINE) - (keys + {Key(r, 2, 0)})| == 2
  {
    UpTop(TRAMPOLINE);
    UpTop(TRAPFRAME);
    assert Up(TRAMPOLINE, 2) == Up(TRAMPOLINE, 1) / ENTRIES && Up(TRAPFRAME, 2) == Up(TRAPFRAME, 1) / ENTRIES;
    assert Paths(r, TRAMPOLINE, TRAMPOLINE) == {} && Paths(r, TRAPFRAME, TRAPFRAME) == {};
    var p, q := Key(r, 1, Up(TRAMPOLINE, 2)), Key(r, 0, Up(TRAMPOLINE, 1));
    assert Path(r, TRAMPOLINE) - (keys + {Key(r, 2, 0)}) == {p, q};
  }

  /** Copying into a new page table that has its two top pages. */
  lemma CopyNeedsNew(s: St, from: nat, r: nat, n: nat, keys: set<Key>)
    requires forall k | k in keys :: k.root != r
    ensures CopyNeeds(s, from, r, n, keys + {Key(r, 2, 0)} + Path(r, TRAMPOLINE)) ==
            MappedBelow(s, from, n) + CopyExtra(s, from, r, n)
  {
    hide Path, Pte;
    CopyPlaces(s, from, r, r, n);
    assert CopyPaths(s, from, r, n) - (keys + {Key(r, 2, 0)} + Path(r, TRAMPOLINE))
        == CopyPaths(s, from, r, n) - Path(r, TRAMPOLINE);
  }

  /** The frames one more copied page takes, or does not find. */
  lemma CountCopy(s: St, from: nat, to: nat, v: nat, n: nat, keys: set<Key>, room: int, mid: set<Key>, rest: nat,
                  now: set<Key>, left: nat)
    requires v < n && PteValid(Pte(s, from, v))
    requires Added(keys, room - MappedBelow(s, from, v), CopyPaths(s, from, to, v), mid, rest)
    ensures rest < 1 + |Path(to, v) - mid| ==> room < CopyNeeds(s, from, to, n, keys)
    ensures Added(mid, rest - 1, Path(to, v), now, left) ==>
              Added(keys, room - MappedBelow(s, from, v + 1), CopyPaths(s, from, to, v + 1), now, left)
  {
    hide Added, Path, MappedBelow, CopyPaths, CopyNeeds, Pte, PteValid;
    CopyPathsStep(s, from, to, v);
    CopyPathsMore(s, from, to, v + 1, n);
    MappedBelowMore(s, from, v + 1, n);
    NeedsIs(s, from, to, n, keys);
    var k := MappedBelow(s, from, v);
    AddedStep(keys, room - k, CopyPaths(s, from, to, v), mid, rest, Path(to, v), now, left, CopyPaths(s, from, to, n));
  }

  /** A valid user page is a whole page of bytes with leaf flags. */
  lemma PageShape(s: St, root: nat, v: nat)
    requires LeavesOk(s) && v < TRAPFRAME && PteValid(Pte(s, root, v))
    ensures var f := PteFrame(Pte(s, root, v));
            f in s.mem && s.mem[f] == Bytes(PageOf(s, root, v).data) && f in s.owner && s.owner[f].Leaf?
    ensures |PageOf(s, root, v).data| == PGSIZE
  {
    hide Pte;
    assert LeafOk(s, PteFrame(Pte(s, root, v)));
  }

  /** fork's copy: the same pages with the same permissions and bytes, on frames nobody had. */
  lemma CopyIsExact(s: St, t: St, old_: nat, new_: nat, n: nat, v: nat)
    requires LeavesOk(s) && Placed(s, t, new_, CopyOf(s, old_, n)) && old_ != new_ && n <= TRAPFRAME && v < n
    requires Pte(s, new_, v) == 0
    ensures PteValid(Pte(t, new_, v)) <==> PteValid(Pte(s, old_, v))
    ensures PteValid(Pte(s, old_, v)) ==> PageOf(t, new_, v) == PageOf(s, old_, v) == PageOf(t, old_, v)
    ensures PteValid(Pte(s, old_, v)) ==>
            var f := PteFrame(Pte(t, new_, v));
            f in s.owner && s.owner[f].Free? && f in t.owner && t.owner[f] == Leaf(new_, v)
  {
    hide Pte, MakePte, PteFrame, PteFlags, PteValid;
    NullEntry();
    var want := CopyOf(s, old_, n);
    if PteValid(Pte(s, old_, v)) {
      assert v in want && PlacedAt(s, t, new_, v, want[v]);
      PageShape(s, old_, v);
      OddFlags(Pte(s, old_, v));
      PteFields(PteFrame(Pte(t, new_, v)), want[v].perm);
    }
  }

  lemma OddFlags(e: nat)
    requires PteValid(e)
    ensures PteFlags(e) % 2 == 1 && PteFlags(e) < 1024 && (PteFlags(e) / 2 % 8 != 0 <==> IsLeaf(e))
  {
    assert e % 2 == e % 1024 % 2;
    assert MakePte(e / 1024, e % 1024) == e;
    PteFields(e / 1024, e % 1024);
  }
}
