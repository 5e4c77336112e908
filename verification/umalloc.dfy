/** The user-level storage allocator.  Addresses and sizes count header-sized units. */
module Umalloc {
  import opened Arena

  const HEADER: nat := 16        // sizeof(Header)
  const MORE: nat := 4096        // least number of units to ask sbrk for

  /** The headers link the blocks of ring into a circle. */
  ghost predicate Linked(ptr: map<nat, nat>, ring: seq<nat>) {
    forall i: nat | i < |ring| :: LinkAt(ptr, ring, i)
  }

  ghost predicate LinkAt(ptr: map<nat, nat>, ring: seq<nat>, i: nat)
    requires i < |ring|
  {
    ring[i] in ptr && ptr[ring[i]] == Next(ring, i)
  }

  function Next(ring: seq<nat>, i: nat): nat
    requires i < |ring|
  {
    ring[if i + 1 < |ring| then i + 1 else 0]
  }

  /** The same, except that the j-th link is still to be set and b has the link it needs. */
  ghost predicate LinkedBut(ptr: map<nat, nat>, ring: seq<nat>, j: nat, b: nat) {
    && (forall i: nat | i < |ring| && i != j :: LinkAt(ptr, ring, i))
    && j < |ring| && b in ptr && ptr[b] == Next(ring, j)
  }

  ghost predicate Injective(ring: seq<nat>) {
    forall x, y | 0 <= x < |ring| && 0 <= y < |ring| && x != y :: ring[x] != ring[y]
  }

  lemma LinkSkip(ptr: map<nat, nat>, ring: seq<nat>, j: nat, b: nat)
    requires Linked(ptr, ring) && j + 1 < |ring| && b !in ring
    ensures LinkAt(ptr, ring, j + 1) && LinkedBut(ptr[b := ptr[ring[j + 1]]], Without(ring, j + 1), j, b)
  {
    assert LinkAt(ptr, ring, j + 1);
    var w, ptr' := Without(ring, j + 1), ptr[b := ptr[ring[j + 1]]];
    forall i: nat | i < |w| && i != j ensures LinkAt(ptr', w, i) {
      var k := if i < j then i else i + 1;
      assert LinkAt(ptr, ring, k) && w[i] == ring[k] && ring[k] in ring && Next(w, i) == Next(ring, k);
    }
  }

  lemma LinkCopy(ptr: map<nat, nat>, ring: seq<nat>, j: nat, b: nat)
    requires Linked(ptr, ring) && j < |ring| && b !in ring
    ensures LinkAt(ptr, ring, j) && LinkedBut(ptr[b := ptr[ring[j]]], ring, j, b)
  {
    assert LinkAt(ptr, ring, j);
    var ptr' := ptr[b := ptr[ring[j]]];
    forall i: nat | i < |ring| && i != j ensures LinkAt(ptr', ring, i) {
      assert LinkAt(ptr, ring, i) && ring[i] in ring;
    }
  }

  lemma LinkClose(ptr: map<nat, nat>, ring: seq<nat>, j: nat, b: nat)
    requires LinkedBut(ptr, ring, j, b) && Injective(ring)
    ensures Linked(ptr[ring[j] := ptr[b]], ring)
  {
    var ptr' := ptr[ring[j] := ptr[b]];
    forall i: nat | i < |ring| ensures LinkAt(ptr', ring, i) {
      assert i != j ==> LinkAt(ptr, ring, i);
    }
  }

  lemma LinkInsert(ptr: map<nat, nat>, ring: seq<nat>, j: nat, b: nat)
    requires LinkedBut(ptr, ring, j, b) && Injective(ring) && b !in ring
    ensures Linked(ptr[ring[j] := b], ring[..j + 1] + [b] + ring[j + 1..])
  {
    var w, ptr' := ring[..j + 1] + [b] + ring[j + 1..], ptr[ring[j] := b];
    forall i: nat | i < |w| ensures LinkAt(ptr', w, i) {
      if i == j + 1 {
        assert w[i] == b && b != ring[j] && Next(w, i) == Next(ring, j);
      } else if i != j {
        var k := if i < j then i else i - 1;
        assert LinkAt(ptr, ring, k) && w[i] == ring[k] && Next(w, i) == Next(ring, k);
      }
    }
  }

  /** Some free block has at least n units. */
  ghost predicate HasRoom(ring: seq<nat>, size: map<nat, nat>, n: nat) {
    exists i: nat | i < |ring| :: Fits(ring, size, n, i)
  }

  predicate Fits(ring: seq<nat>, size: map<nat, nat>, n: nat, i: nat)
    requires i < |ring|
  {
    ring[i] in size && size[ring[i]] >= n
  }

  /** Units for a request: its bytes rounded up, and a header. */
  function UnitsFor(nbytes: nat): (n: nat)
    ensures n >= 1 && (n - 1) * HEADER >= nbytes && (n >= 2 ==> (n - 2) * HEADER < nbytes)
  {
    (nbytes + HEADER - 1) / HEADER + 1
  }

  function Max(a: nat, b: nat): nat { if a < b then b else a }

  /** morecore's request to sbrk, which takes an int. */
  function Request(units: nat): int {
    var b := Max(units, MORE) * HEADER % 0x1_0000_0000;
    if b < 0x8000_0000 then b else b - 0x1_0000_0000
  }

  /** sbrk is asked for what the header will say up to this size of a request and no further. */
  lemma RequestExact(nbytes: nat)
    requires nbytes < 0x1_0000_0000
    ensures Request(UnitsFor(nbytes)) == Max(UnitsFor(nbytes), MORE) * HEADER <==> nbytes <= 0x7FFF_FFE0
    ensures nbytes == 0x7FFF_FFE1 ==> Request(UnitsFor(nbytes)) == -0x8000_0000
  {
  }

  /** c steps round the circle from f. */
  function Rot(f: nat, c: nat, n: nat): (r: nat)
    requires f < n && c <= n
    ensures r < n
  {
    if f + c < n then f + c else f + c - n
  }

  class Heap {
    const base: nat              // address of the static header
    var ptr: map<nat, nat>       // headers: next free block
    var size: map<nat, nat>      // headers: units of a block
    var freep: nat               // start of the free list, 0 before the first malloc
    ghost var ring: seq<nat>
    ghost var live: set<nat>
    ghost var who: map<nat, nat>

    ghost function S(): St
      reads this
    {
      St(base, ring, live, size, who)
    }

    ghost predicate Valid()
      reads this
    {
      if freep == 0 then base > 0 && live == {} && who == map[] && base in size && size[base] == 0
      else Inv(S()) && Linked(ptr, ring) && freep in ring
    }

    /** Gives a live block back. */
    method Free(bp: nat)
      requires Valid() && bp in live
      modifies this
      ensures Valid() && freep != 0 && live == old(live) - {bp} && who.Keys == old(who).Keys
      ensures bp in old(size) && HasRoom(ring, size, old(size)[bp])
      ensures forall c | c in live :: c in size && c in old(size) && size[c] == old(size)[c]
    {
      ghost var s := S();
      LiveFacts(s, bp);
      ghost var n, j := |ring|, Before(s, bp, |ring|);
      var p := freep;
      ghost var i :| 0 <= i < n && ring[i] == p;
      while !(bp > p && bp < ptr[p])
        invariant unchanged(this) && 0 <= i < n && ring[i] == p && LinkAt(ptr, ring, i)
        decreases if i <= j then j - i else j - i + n
      {
        OnRing(s, bp, i, j);
        assert LinkAt(ptr, ring, i);
        if p >= ptr[p] && (bp > p || bp < ptr[p]) {
          break;
        }
        p := ptr[p];
        i := if i + 1 < n then i + 1 else 0;
        assert LinkAt(ptr, ring, i);
      }
      OnRing(s, bp, i, j);
      assert i == j;
      Coalesce(bp, p, j);
    }

    /** The end of free: joins a live block with the free blocks on either side of it. */
    method Coalesce(bp: nat, p: nat, ghost j: nat)
      requires Inv(S()) && Linked(ptr, ring) && bp in live && Between(S(), bp, j) && ring[j] == p
      modifies this
      ensures Inv(S()) && Linked(ptr, ring) && freep == p && freep in ring && live == old(live) - {bp}
      ensures who.Keys == old(who).Keys
      ensures bp in old(size) && HasRoom(ring, size, old(size)[bp])
      ensures forall c | c in live :: c in size && c in old(size) && size[c] == old(size)[c]
    {
      hide RingOk, Owns, Inv;
      LiveSizes(S());
      JoinUpper(bp, p, j);
      ghost var n := size[bp];
      JoinLower(bp, p, j);
      RoomForLess(ring, size, n, old(size)[bp]);
      freep := p;
    }

    method JoinUpper(bp: nat, p: nat, ghost j: nat)
      requires Inv(S()) && Linked(ptr, ring) && bp in live && Between(S(), bp, j) && ring[j] == p
      modifies this`ptr, this`size, this`ring, this`who
      ensures Inv(S()) && LinkedBut(ptr, ring, j, bp) && Between(S(), bp, j) && ring[j] == p
      ensures who.Keys == old(who).Keys
      ensures bp in size && (j + 1 < |ring| ==> End(S(), bp) != ring[j + 1]) && bp in old(size)
      ensures size[bp] >= old(size)[bp]
      ensures forall c | c in live && c != bp :: c in size && c in old(size) && size[c] == old(size)[c]
    {
      hide RingOk, Owns, Linked, LinkedBut, Inv, Injective;
      ghost var s := S();
      NextOf(ptr, ring, j, bp);
      Neighbours(s, bp, j);
      LiveSizes(s);
      NotInRing(s, bp);
      if bp + size[bp] == ptr[p] {
        var q := ptr[p];
        assert j + 1 < |ring| && q == ring[j + 1];
        GrownInv(s, bp, j + 1);
        AfterNext(s, bp, j);
        LinkSkip(ptr, ring, j, bp);
        size := size[bp := size[bp] + size[q]];
        ptr := ptr[bp := ptr[q]];
        ring, who := Without(ring, j + 1), Given(who, q, q + s.size[q], bp);
        assert S() == Grown(s, bp, j + 1);
      } else {
        LinkCopy(ptr, ring, j, bp);
        ptr := ptr[bp := ptr[p]];
      }
    }

    lemma NextOf(ptr: map<nat, nat>, ring: seq<nat>, j: nat, b: nat)
      requires j < |ring| && (Linked(ptr, ring) || LinkedBut(ptr, ring, j, b))
      ensures Linked(ptr, ring) ==>
                ring[j] in ptr && ptr[ring[j]] == Next(ring, j) && forall i | 0 <= i < |ring| :: ring[i] in ptr
      ensures LinkedBut(ptr, ring, j, b) ==> b in ptr && ptr[b] == Next(ring, j)
    {
      if Linked(ptr, ring) {
        forall i: nat | i < |ring| ensures ring[i] in ptr && (i == j ==> ptr[ring[i]] == Next(ring, i)) {
          assert LinkAt(ptr, ring, i);
        }
      }
    }

    lemma LiveSizes(s: St)
      requires Inv(s)
      ensures forall c | c in s.live :: c in s.size
    {
      forall c | c in s.live ensures c in s.size {
        LiveFacts(s, c);
      }
    }

    lemma NotInRing(s: St, b: nat)
      requires Inv(s) && b in s.live
      ensures forall i | 0 <= i < |s.ring| :: s.ring[i] != b && s.ring[i] in s.size && s.ring[i] >= s.base
      ensures s.ring != [] && s.ring[0] == s.base
    {
      LiveFacts(s, b);
      assert forall i | 0 < i < |s.ring| :: End(s, s.ring[0]) < s.ring[i];
    }

    /** A block that touches the next free block does not touch the one after it. */
    lemma AfterNext(s: St, b: nat, j: nat)
      requires Inv(s) && j + 1 < |s.ring| && b in s.size && s.ring[j + 1] in s.size && End(s, b) == s.ring[j + 1]
      requires Between(s, b, j)
      ensures j + 2 < |s.ring| ==> End(s, b) + s.size[s.ring[j + 1]] < s.ring[j + 2] && b < s.ring[j + 2]
    {
    }

    method JoinLower(bp: nat, p: nat, ghost j: nat)
      requires Inv(S()) && LinkedBut(ptr, ring, j, bp) && bp in live && Between(S(), bp, j) && ring[j] == p
      requires bp in size && (j + 1 < |ring| ==> End(S(), bp) != ring[j + 1])
      modifies this`ptr, this`size, this`ring, this`who, this`live
      ensures Inv(S()) && Linked(ptr, ring) && p in ring && live == old(live) - {bp} && who.Keys == old(who).Keys
      ensures HasRoom(ring, size, old(size)[bp])
      ensures forall c | c in live :: c in size && c in old(size) && size[c] == old(size)[c]
    {
      hide RingOk, Owns, Linked, LinkedBut, Inv, Injective;
      ghost var s := S();
      NextOf(ptr, ring, j, bp);
      Neighbours(s, bp, j);
      LiveSizes(s);
      NotInRing(s, bp);
      RingInjective(s);
      if p + size[p] == bp {
        MergedInv(s, bp, j);
        LinkClose(ptr, ring, j, bp);
        assert p !in live;
        size := size[p := size[p] + size[bp]];
        ptr := ptr[p := ptr[bp]];
        who, live := Given(who, bp, bp + s.size[bp], p), live - {bp};
        assert S() == Merged(s, bp, j);
        assert Fits(ring, size, s.size[bp], j);
      } else {
        InsertedInv(s, bp, j);
        LinkInsert(ptr, ring, j, bp);
        ptr := ptr[p := bp];
        ring, live := ring[..j + 1] + [bp] + ring[j + 1..], live - {bp};
        assert S() == Inserted(s, bp, j);
        assert ring[j + 1] == bp && Fits(ring, size, s.size[bp], j + 1);
      }
      assert ring[j] == p;
    }

    lemma RingInjective(s: St)
      requires Inv(s)
      ensures Injective(s.ring)
      ensures forall x | 0 <= x < |s.ring| :: s.ring[x] !in s.live
    {
      forall x, y | 0 <= x < y < |s.ring| ensures s.ring[x] != s.ring[y] {
        assert End(s, s.ring[x]) < s.ring[y];
      }
    }

    /** Where on the circle a block belongs: the two tests of free's search. */
    lemma OnRing(s: St, b: nat, i: nat, j: nat)
      requires RingOk(s) && Between(s, b, j) && i < |s.ring| && b !in s.ring
      ensures var p, q := s.ring[i], Next(s.ring, i);
        i == j <==> (b > p && b < q) || (p >= q && (b > p || b < q))
    {
    }

    /** Asks sbrk for at least that many units; `grant` is where they are, 0 if there are none. */
    method Morecore(units: nat, grant: nat) returns (r: nat)
      requires Valid() && freep != 0 && units > 0
      requires grant == 0 || (grant > base && forall u | u in who :: u < grant)
      requires grant != 0 ==> Request(units) == Max(units, MORE) * HEADER
      modifies this
      ensures Valid() && freep != 0 && live == old(live) && r == (if grant == 0 then 0 else freep)
      ensures grant == 0 ==> unchanged(this)
      ensures grant != 0 ==>
                who.Keys == old(who).Keys + Units(grant, grant + Max(units, MORE)) && HasRoom(ring, size, units)
      ensures forall c | c in live :: c in size && c in old(size) && size[c] == old(size)[c]
    {
      hide RingOk, Owns, Inv, Linked, UnitsFor, Request;
      var nu := units;
      if nu < MORE {
        nu := MORE;
      }
      if grant == 0 {
        LiveSizes(S());
        return 0;
      }
      Header(grant, nu);
      Free(grant);
      RoomForLess(ring, size, nu, units);
      return freep;
    }

    /** The header of new memory, which looks like a block handed out until it is freed. */
    method Header(grant: nat, nu: nat)
      requires Valid() && freep != 0 && nu > 0 && grant > base && forall u | u in who :: u < grant
      modifies this`size, this`live, this`who
      ensures Valid() && live == old(live) + {grant} && grant !in old(live) && grant in size && size[grant] == nu
      ensures who.Keys == old(who).Keys + Units(grant, grant + nu)
      ensures forall c | c in old(live) :: c in size && c in old(size) && size[c] == old(size)[c]
    {
      hide RingOk, Owns, Inv, Linked;
      LiveSizes(S());
      MoreInv(S(), grant, nu);
      ghost var s := S();
      size := size[grant := nu];
      live, who := live + {grant}, More(s, grant, nu).who;
      assert S() == More(s, grant, nu);
    }

    lemma RoomForLess(ring: seq<nat>, size: map<nat, nat>, n: nat, m: nat)
      requires HasRoom(ring, size, n) && m <= n
      ensures HasRoom(ring, size, m)
    {
      var i: nat :| i < |ring| && Fits(ring, size, n, i);
      assert Fits(ring, size, m, i);
    }

    /** A block of nbytes bytes: its address, or 0.  sbrk is asked at most once. */
    method Malloc(nbytes: nat, grant: nat) returns (r: nat)
      requires Valid() && (grant == 0 || (grant > base && forall u | u in who :: u < grant))
      requires grant != 0 ==> Request(UnitsFor(nbytes)) == Max(UnitsFor(nbytes), MORE) * HEADER
      modifies this
      ensures Valid() && freep != 0
      ensures r == 0 ==>
                grant == 0 && live == old(live) && who.Keys == old(who).Keys && !HasRoom(ring, size, UnitsFor(nbytes))
      ensures r != 0 ==>
                live == old(live) + {r - 1} && r - 1 !in old(live) && r - 1 in size && size[r - 1] == UnitsFor(nbytes)
      ensures who.Keys == if old(freep != 0 && HasRoom(ring, size, UnitsFor(nbytes))) || grant == 0 then old(who).Keys
                          else old(who).Keys + Units(grant, grant + Max(UnitsFor(nbytes), MORE))
      ensures old(freep != 0 && HasRoom(ring, size, UnitsFor(nbytes))) ==> r != 0
      ensures forall c | c in old(live) :: c in size && c in old(size) && size[c] == old(size)[c]
    {
      hide RingOk, Owns, Inv, Linked, UnitsFor, HasRoom, Max, Fits, Rot, Next, Request;
      var nunits := UnitsFor(nbytes);
      ghost var room := freep != 0 && HasRoom(ring, size, nunits);
      if freep == 0 {
        First(nunits);
      } else {
        LiveSizes(S());
      }
      var prevp := freep;
      ghost var f: nat := Index(freep);
      ghost var c := 1;
      ghost var grown := false;
      Step(f, 0);
      var p := ptr[prevp];
      while true
        invariant Valid() && freep != 0 && f < |ring| && ring[f] == freep && 1 <= c <= |ring|
        invariant prevp == ring[Rot(f, c - 1, |ring|)] && p == ring[Rot(f, c, |ring|)] && live == old(live)
        invariant forall k: nat | 1 <= k < c :: !Fits(ring, size, nunits, Rot(f, k, |ring|))
        invariant if grown then !room && grant != 0
                  && who.Keys == old(who).Keys + Units(grant, grant + Max(nunits, MORE))
                  else who.Keys == old(who).Keys && (room <==> HasRoom(ring, size, nunits))
        invariant grown ==> HasRoom(ring, size, nunits)
        invariant forall c | c in live :: c in size && c in old(size) && size[c] == old(size)[c]
        decreases !grown, |ring| - c
      {
        Turn(f, c, nunits);
        if size[p] >= nunits {
          FitsRoom(ring, size, nunits, Rot(f, c, |ring|));
          r := Carve(p, prevp, nunits, Rot(f, c, |ring|), Rot(f, c - 1, |ring|));
          return;
        }
        if p == freep {
          NoRoom(ring, size, nunits, f);
          assert !grown;
          p := Morecore(nunits, grant);
          if p == 0 {
            return 0;
          }
          grown := true;
          f := Index(freep);
          c := 0;
          Step(f, 0);
        }
        prevp, p := p, ptr[p];
        c := c + 1;
      }
    }

    /** The first malloc: the static header alone on the circle. */
    method First(ghost n: nat)
      requires Valid() && freep == 0
      modifies this
      ensures Valid() && freep == base && live == {} == old(live) && who == map[] == old(who)
      ensures n > 0 ==> !HasRoom(ring, size, n)
    {
      ptr := ptr[base := base];
      freep := base;
      size := size[base := 0];
      ring := [base];
      assert LinkAt(ptr, ring, 0);
    }

    ghost function Index(p: nat): (i: nat)
      requires p in ring
      reads this
      ensures i < |ring| && ring[i] == p
    {
      var i: nat :| i < |ring| && ring[i] == p;
      i
    }

    lemma LinkHere(i: nat)
      requires Inv(S()) && Linked(ptr, ring) && i < |ring|
      ensures ring[i] in ptr && ptr[ring[i]] == Next(ring, i) && ring[i] in size
    {
      assert LinkAt(ptr, ring, i);
    }

    /** From the c-th block after freep to the next. */
    lemma Step(f: nat, c: nat)
      requires Inv(S()) && Linked(ptr, ring) && f < |ring| && c <= |ring|
      ensures Rot(f, 0, |ring|) == f && Rot(f, |ring|, |ring|) == f
      ensures var p := ring[Rot(f, c, |ring|)];
              p in ptr && p in size && (c < |ring| ==> ptr[p] == ring[Rot(f, c + 1, |ring|)])
      ensures c < |ring| ==> var h := Rot(f, c, |ring|); Rot(f, c + 1, |ring|) == if h + 1 < |ring| then h + 1 else 0
    {
      LinkHere(Rot(f, c, |ring|));
    }

    /** What the search sees at the c-th block. */
    lemma Turn(f: nat, c: nat, n: nat)
      requires Inv(S()) && Linked(ptr, ring) && f < |ring| && 1 <= c <= |ring|
      ensures var h, i := Rot(f, c - 1, |ring|), Rot(f, c, |ring|);
              h < |ring| && i == (if h + 1 < |ring| then h + 1 else 0) && ring[i] in ptr && ring[i] in size
              && (size[ring[i]] >= n <==> Fits(ring, size, n, i)) && (ring[i] == ring[f] <==> c == |ring|)
      ensures c < |ring| ==> ptr[ring[Rot(f, c, |ring|)]] == ring[Rot(f, c + 1, |ring|)]
    {
      hide Inv, Linked, Fits, Rot;
      Step(f, c);
      Step(f, c - 1);
      FitsHere(Rot(f, c, |ring|), n);
      OnlyFreep(f, c);
    }

    lemma FitsHere(i: nat, n: nat)
      requires i < |ring| && ring[i] in size
      ensures size[ring[i]] >= n <==> Fits(ring, size, n, i)
    {
    }

    lemma FitsRoom(ring: seq<nat>, size: map<nat, nat>, n: nat, i: nat)
      requires i < |ring| && Fits(ring, size, n, i)
      ensures HasRoom(ring, size, n)
    {
    }

    lemma OnlyFreep(f: nat, c: nat)
      requires Inv(S()) && f < |ring| && 1 <= c <= |ring|
      ensures ring[Rot(f, c, |ring|)] == ring[f] <==> c == |ring|
    {
      RingInjective(S());
    }

    /** A round without a large enough block shows that there is none. */
    lemma NoRoom(ring: seq<nat>, size: map<nat, nat>, n: nat, f: nat)
      requires f < |ring| && forall k: nat | 1 <= k <= |ring| :: !Fits(ring, size, n, Rot(f, k, |ring|))
      ensures !HasRoom(ring, size, n)
    {
      forall i: nat | i < |ring| ensures !Fits(ring, size, n, i) {
        var k := if i > f then i - f else i - f + |ring|;
        assert Rot(f, k, |ring|) == i;
      }
    }

    /** Cuts n units off the free block p, or takes all of it. */
    method Carve(p: nat, prevp: nat, n: nat, ghost i: nat, ghost h: nat) returns (r: nat)
      requires Valid() && freep != 0 && i < |ring| && h < |ring| && ring[i] == p && ring[h] == prevp
      requires i == (if h + 1 < |ring| then h + 1 else 0)
      requires n > 0 && p in size && size[p] >= n
      modifies this
      ensures Valid() && freep != 0 && who.Keys == old(who).Keys && r != 0
      ensures live == old(live) + {r - 1} && r - 1 !in old(live) && r - 1 in size && size[r - 1] == n
      ensures forall c | c in old(live) :: c in size && c in old(size) && size[c] == old(size)[c]
    {
      hide RingOk, Owns, Inv, Linked;
      ghost var s := S();
      Large(s, i);
      RingFacts(s, i);
      RingInjective(s);
      LiveSizes(s);
      LinkHere(i);
      LinkHere(h);
      var q := p;
      if size[p] == n {
        TakenInv(s, i);
        LinkDrop(ptr, ring, h);
        ptr := ptr[prevp := ptr[p]];
        ring, live := Without(ring, i), live + {p};
        assert S() == Taken(s, i);
        assert ring[h] == prevp;
      } else {
        q := SplitOff(p, n, i);
      }
      freep := prevp;
      HeadPositive(S());
      return q + 1;
    }

    /** The last n units of the free block p. */
    method SplitOff(p: nat, n: nat, ghost i: nat) returns (q: nat)
      requires Inv(S()) && Linked(ptr, ring) && 0 < i < |ring| && ring[i] == p && p in size && 0 < n < size[p]
      modifies this`size, this`who, this`live
      ensures Inv(S()) && who.Keys == old(who).Keys && live == old(live) + {q} && q !in old(live)
      ensures q in size && size[q] == n
      ensures forall c | c in old(live) :: c in size && c in old(size) && size[c] == old(size)[c]
    {
      hide RingOk, Owns, Inv, Linked;
      ghost var s := S();
      LiveSizes(s);
      LiveOrFree(s, i);
      SplitInv(s, i, n);
      size := size[p := size[p] - n];
      q := p + size[p];
      size := size[q := n];
      who, live := Given(who, q, q + n, q), live + {q};
      assert S() == Split(s, i, n);
    }

    lemma LiveOrFree(s: St, i: nat)
      requires Inv(s) && i < |s.ring|
      ensures s.ring[i] !in s.live
    {
    }

    /** Only the static header is empty. */
    lemma Large(s: St, i: nat)
      requires Inv(s) && i < |s.ring| && s.ring[i] in s.size && s.size[s.ring[i]] > 0
      ensures i > 0
    {
    }

    lemma HeadPositive(s: St)
      requires Inv(s)
      ensures forall i | 0 <= i < |s.ring| :: s.ring[i] > 0
    {
      assert forall i | 0 < i < |s.ring| :: End(s, s.ring[0]) < s.ring[i];
    }

    lemma LinkDrop(ptr: map<nat, nat>, ring: seq<nat>, h: nat)
      requires Linked(ptr, ring) && h + 1 < |ring| && Injective(ring)
      ensures LinkAt(ptr, ring, h + 1) && Linked(ptr[ring[h] := ptr[ring[h + 1]]], Without(ring, h + 1))
    {
      assert LinkAt(ptr, ring, h + 1);
      var w, ptr' := Without(ring, h + 1), ptr[ring[h] := ptr[ring[h + 1]]];
      forall i: nat | i < |w| ensures LinkAt(ptr', w, i) {
        var k := if i <= h then i else i + 1;
        assert LinkAt(ptr, ring, k) && w[i] == ring[k];
        assert i != h ==> Next(w, i) == Next(ring, k);
        assert i == h ==> Next(w, i) == Next(ring, h + 1);
      }
    }
  }
}
