/** Address translation as the hardware does it (RISC-V Privileged Architecture, version 20211203,
    section 4.3.2, with the levels of Sv39), against the flat page map. */
module Translation {
  import opened PageTables

  /** The 9 bits of a virtual address that index the page-table page at a level. */
  function Index(va: nat, level: nat): (i: nat)
    ensures i < ENTRIES
  {
    va / (if level == 2 then 0x4000_0000 else if level == 1 then 0x20_0000 else 0x1000) % ENTRIES
  }

  /** The leaf entry found from the page-table page in frame f on; 0 for a page fault. */
  function Lookup(mem: map<nat, Page>, f: nat, level: nat, va: nat): nat
    decreases level
  {
    if !(f in mem && mem[f].Table? && |mem[f].pte| == ENTRIES) then 0
    else
      var e := mem[f].pte[Index(va, level)];
      if !PteValid(e) then 0
      else if IsLeaf(e) then if level == 0 then e else 0
      else if level == 0 then 0 else Lookup(mem, PteFrame(e), level - 1, va)
  }

  /** The bits a lookup has used when it comes to a level, for page-number bits. */
  lemma Indices(va: nat)
    requires va < MAXVPN * PGSIZE
    ensures var v := va / PGSIZE;
            && Index(va, 2) == v / ENTRIES / ENTRIES
            && v / ENTRIES == Index(va, 2) * ENTRIES + Index(va, 1)
            && Index(va, 0) == v % ENTRIES
  {
    var v := va / PGSIZE;
    assert va / 0x20_0000 == v / ENTRIES && va / 0x4000_0000 == v / ENTRIES / ENTRIES;
  }

  /** The hardware finds a page's entry exactly if the flat map has one. */
  lemma LookupIsPte(s: St, root: nat, va: nat)
    requires NodesOk(s, {}) && Key(root, 2, 0) in s.dir && va < MAXVPN * PGSIZE
    ensures Lookup(s.mem, root, 2, va) == Pte(s, root, va / PGSIZE)
  {
    Indices(va);
    var v, k2 := va / PGSIZE, Key(root, 2, 0);
    var i2, i1 := Index(va, 2), Index(va, 1);
    var k1, k0 := Child(k2, i2), Key(root, 0, v / ENTRIES);
    assert EntryOk(s, {}, k2, i2) && Child(k1, i1) == k0;
    if k1 in s.dir {
      PteFields(s.dir[k1], 0);
      assert EntryOk(s, {}, k1, i1);
      if k0 in s.dir {
        PteFields(s.dir[k0], 0);
        assert EntryOk(s, {}, k0, Index(va, 0));
      }
    } else {
      assert k0 in s.dir ==> Parent(k0) == k1;
    }
  }
}
