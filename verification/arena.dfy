/** The memory of a storage allocator as values.  Addresses and sizes count header-sized units. */
module Arena {
  /** ring: the free list in address order, starting with the static header `base`; live: blocks handed
      out; size: what the headers say; who: the block every unit of the arena belongs to. */
  datatype St = St(base: nat, ring: seq<nat>, live: set<nat>, size: map<nat, nat>, who: map<nat, nat>)

  predicate Block(s: St, b: nat) { b in s.live || (b in s.ring && b != s.base) }

  function End(s: St, b: nat): nat
    requires b in s.size
  {
    b + s.size[b]
  }

  /** Free blocks are in address order, and no two of them touch. */
  ghost predicate RingOk(s: St) {
    && s.ring != [] && s.ring[0] == s.base && s.base > 0 && s.base !in s.live
    && (forall i | 0 <= i < |s.ring| :: s.ring[i] in s.size)
    && s.size[s.base] == 0
    && (forall i, j | 0 <= i < j < |s.ring| :: End(s, s.ring[i]) < s.ring[j])
  }

  /** Block b owns exactly the units of its stretch. */
  ghost predicate Owns(s: St, b: nat) {
    b in s.size && s.size[b] > 0 && b > s.base && forall u | b <= u < End(s, b) :: u in s.who && s.who[u] == b
  }

  /** Blocks are disjoint, and every unit obtained from sbrk is in one of them. */
  ghost predicate Inv(s: St) {
    && RingOk(s)
    && (forall b | Block(s, b) :: Owns(s, b))
    && (forall u | u in s.who :: Block(s, s.who[u]) && s.who[u] in s.size && s.who[u] <= u < End(s, s.who[u]))
    && (forall b | b in s.live :: b !in s.ring)
  }

  /** Two blocks share no unit. */
  lemma Disjoint(s: St, a: nat, b: nat)
    requires Inv(s) && Block(s, a) && Block(s, b) && a != b
    ensures a in s.size && b in s.size && (End(s, a) <= b || End(s, b) <= a)
  {
    assert Owns(s, a) && Owns(s, b);
    assert a in s.who && s.who[a] == a && b in s.who && s.who[b] == b;
  }

  /** Units lo..hi change hands. */
  function Given(who: map<nat, nat>, lo: nat, hi: nat, b: nat): map<nat, nat> {
    map u | u in who :: if lo <= u < hi then b else who[u]
  }

  /** ring without its i-th block */
  function Without(ring: seq<nat>, i: nat): seq<nat>
    requires i < |ring|
  {
    ring[..i] + ring[i + 1..]
  }

  lemma WithoutMembers(s: St, i: nat)
    requires RingOk(s) && i < |s.ring|
    ensures forall b :: b in Without(s.ring, i) <==> b in s.ring && b != s.ring[i]
  {
    assert forall j | 0 <= j < |s.ring| && j != i :: s.ring[j] != s.ring[i] by {
      assert forall j, k | 0 <= j < k < |s.ring| :: End(s, s.ring[j]) < s.ring[k];
    }
    var l, r := s.ring[..i], s.ring[i + 1..];
    assert s.ring == l + [s.ring[i]] + r;
    assert forall b | b in l :: b != s.ring[i];
    assert forall b | b in r :: b != s.ring[i];
  }

  /** malloc, exact fit: the i-th free block becomes live. */
  function Taken(s: St, i: nat): St
    requires i < |s.ring|
  {
    s.(ring := Without(s.ring, i), live := s.live + {s.ring[i]})
  }

  lemma TakenInv(s: St, i: nat)
    requires Inv(s) && 0 < i < |s.ring|
    ensures Inv(Taken(s, i))
  {
    var t := Taken(s, i);
    WithoutMembers(s, i);
    assert Block(s, s.ring[i]) && s.base < s.ring[i];
    assert forall b :: Block(t, b) <==> Block(s, b);
    forall b | Block(t, b) ensures Owns(t, b) {
      assert Owns(s, b);
    }
  }

  /** malloc, larger block: the last n units of the i-th free block become a live block. */
  function Split(s: St, i: nat, n: nat): St
    requires i < |s.ring| && s.ring[i] in s.size && n < s.size[s.ring[i]]
  {
    var p := s.ring[i];
    var q := p + (s.size[p] - n);
    s.(live := s.live + {q}, size := s.size[p := s.size[p] - n][q := n], who := Given(s.who, q, q + n, q))
  }

  lemma SplitInv(s: St, i: nat, n: nat)
    requires Inv(s) && 0 < i < |s.ring| && 0 < n < s.size[s.ring[i]]
    ensures Inv(Split(s, i, n)) && Split(s, i, n).who.Keys == s.who.Keys
    ensures s.ring[i] + (s.size[s.ring[i]] - n) !in s.live
  {
    hide Owns, RingOk;
    RingFacts(s, i);
    var p, t := s.ring[i], Split(s, i, n);
    var q := p + (s.size[p] - n);
    SplitNew(s, i, q);
    SplitRing(s, i, n);
    forall b | Block(t, b) ensures Owns(t, b) {
      SplitOwns(s, i, n, b);
    }
    forall u | u in t.who ensures Block(t, t.who[u]) && t.who[u] in t.size && t.who[u] <= u < End(t, t.who[u]) {
      SplitWho(s, i, n, u);
    }
  }

  /** The start of the split-off part is not the start of any block. */
  lemma SplitNew(s: St, i: nat, q: nat)
    requires Inv(s) && 0 < i < |s.ring| && s.ring[i] < q < End(s, s.ring[i])
    ensures Block(s, s.ring[i]) && s.base < s.ring[i] && q !in s.live && q !in s.ring
  {
    var p := s.ring[i];
    assert End(s, s.ring[0]) < s.ring[i];
    assert Block(s, p) && Owns(s, p) && s.who[q] == p;
    assert Block(s, q) ==> Owns(s, q);
  }

  lemma SplitRing(s: St, i: nat, n: nat)
    requires RingOk(s) && 0 < i < |s.ring| && 0 < n < s.size[s.ring[i]]
    requires s.ring[i] + (s.size[s.ring[i]] - n) !in s.ring
    ensures RingOk(Split(s, i, n))
  {
    var t := Split(s, i, n);
    forall j | 0 <= j < |s.ring| ensures t.ring[j] in t.size && t.size[t.ring[j]] <= s.size[s.ring[j]] {
    }
    assert s.ring[0] != s.ring[i] && s.ring[0] in s.ring;
  }

  lemma SplitOwns(s: St, i: nat, n: nat, b: nat)
    requires Inv(s) && 0 < i < |s.ring| && 0 < n < s.size[s.ring[i]] && Block(Split(s, i, n), b)
    ensures Owns(Split(s, i, n), b)
  {
    hide RingOk;
    RingFacts(s, i);
    var p, t := s.ring[i], Split(s, i, n);
    var q := p + (s.size[p] - n);
    SplitNew(s, i, q);
    assert Owns(s, p);
    if b != q {
      assert Owns(s, b);
      if b != p {
        Disjoint(s, b, p);
      }
    }
  }

  lemma SplitWho(s: St, i: nat, n: nat, u: nat)
    requires Inv(s) && 0 < i < |s.ring| && 0 < n < s.size[s.ring[i]] && u in s.who
    ensures var t := Split(s, i, n);
            Block(t, t.who[u]) && t.who[u] in t.size && t.who[u] <= u < End(t, t.who[u])
  {
    hide RingOk, Owns;
    RingFacts(s, i);
    SplitNew(s, i, s.ring[i] + (s.size[s.ring[i]] - n));
    assert Block(s, s.who[u]);
  }

  // free, in two steps: a live block first swallows a free block that follows it, and is then given
  // back, either to the free block just before it or as a block of its own.

  /** Live block b swallows the i-th free block, which follows it. */
  function Grown(s: St, b: nat, i: nat): St
    requires i < |s.ring| && s.ring[i] in s.size && b in s.size
  {
    var q := s.ring[i];
    s.(ring := Without(s.ring, i), size := s.size[b := s.size[b] + s.size[q]], who := Given(s.who, q, q + s.size[q], b))
  }

  lemma GrownInv(s: St, b: nat, i: nat)
    requires Inv(s) && 0 < i < |s.ring| && b in s.live && b in s.size && End(s, b) == s.ring[i]
    ensures Inv(Grown(s, b, i)) && Grown(s, b, i).who.Keys == s.who.Keys
  {
    hide RingOk, Owns;
    RingFacts(s, i);
    var q, t := s.ring[i], Grown(s, b, i);
    WithoutMembers(s, i);
    WithoutRing(s, t, i, b);
    forall c | Block(t, c) ensures Owns(t, c) {
      GrownOwns(s, b, i, c);
    }
  }

  lemma RingFacts(s: St, i: nat)
    requires Inv(s) && 0 < i < |s.ring|
    ensures s.base < s.ring[i] && Block(s, s.ring[i]) && s.ring[i] !in s.live && s.ring[i] in s.size
    ensures s.base !in s.live
    ensures Owns(s, s.ring[i])
  {
    assert End(s, s.ring[0]) < s.ring[i];
  }

  lemma WithoutRing(s: St, t: St, i: nat, b: nat)
    requires RingOk(s) && 0 < i < |s.ring| && b !in s.ring && t.ring == Without(s.ring, i) && t.base == s.base
    requires t.base !in t.live
    requires b in t.size && t.size == s.size[b := t.size[b]]
    ensures RingOk(t)
  {
    forall j | 0 <= j < |t.ring| ensures t.ring[j] == s.ring[if j < i then j else j + 1] {
    }
    forall j | 0 <= j < |s.ring| ensures s.ring[j] in t.size && t.size[s.ring[j]] == s.size[s.ring[j]] {
      assert s.ring[j] in s.ring;
    }
  }

  lemma GrownOwns(s: St, b: nat, i: nat, c: nat)
    requires Inv(s) && 0 < i < |s.ring| && b in s.live && b in s.size && End(s, b) == s.ring[i]
    requires Block(Grown(s, b, i), c)
    ensures Owns(Grown(s, b, i), c)
  {
    hide RingOk;
    RingFacts(s, i);
    WithoutMembers(s, i);
    assert Owns(s, c) && Owns(s, b) && Owns(s, s.ring[i]);
    if c != b {
      Disjoint(s, c, s.ring[i]);
    }
  }

  /** b lies between the j-th free block and the next one. */
  predicate Between(s: St, b: nat, j: nat) {
    j < |s.ring| && s.ring[j] < b && (j + 1 < |s.ring| ==> b < s.ring[j + 1])
  }

  lemma Neighbours(s: St, b: nat, j: nat)
    requires Inv(s) && b in s.live && Between(s, b, j)
    ensures b in s.size && s.ring[j] in s.size && End(s, s.ring[j]) <= b && s.base < b && s.size[b] > 0
    ensures j + 1 < |s.ring| ==> s.ring[j + 1] in s.size && End(s, b) <= s.ring[j + 1]
    ensures j == 0 ==> End(s, s.ring[j]) < b
  {
    assert b in s.size && s.size[b] > 0 && s.base < b by {
      assert Block(s, b) && Owns(s, b);
    }
    if j > 0 {
      RingFacts(s, j);
      Disjoint(s, b, s.ring[j]);
    }
    if j + 1 < |s.ring| {
      RingFacts(s, j + 1);
      Disjoint(s, b, s.ring[j + 1]);
    }
  }

  /** The j-th free block swallows live block b, which follows it. */
  function Merged(s: St, b: nat, j: nat): St
    requires j < |s.ring| && s.ring[j] in s.size && b in s.size
  {
    var p := s.ring[j];
    s.(live := s.live - {b}, size := s.size[p := s.size[p] + s.size[b]], who := Given(s.who, b, b + s.size[b], p))
  }

  lemma MergedInv(s: St, b: nat, j: nat)
    requires Inv(s) && b in s.live && Between(s, b, j) && s.ring[j] in s.size && End(s, s.ring[j]) == b
    requires j + 1 < |s.ring| ==> b in s.size && End(s, b) != s.ring[j + 1]
    ensures b in s.size && Inv(Merged(s, b, j)) && Merged(s, b, j).who.Keys == s.who.Keys
  {
    hide Owns, RingOk;
    Neighbours(s, b, j);
    RingFacts(s, j);
    var t := Merged(s, b, j);
    MergedRing(s, b, j);
    forall c | Block(t, c) ensures Owns(t, c) {
      MergedOwns(s, b, j, c);
    }
  }

  lemma MergedRing(s: St, b: nat, j: nat)
    requires RingOk(s) && 0 < j < |s.ring| && b in s.size && End(s, s.ring[j]) == b && b !in s.ring
    requires j + 1 < |s.ring| ==> End(s, b) < s.ring[j + 1]
    ensures RingOk(Merged(s, b, j))
  {
    var t := Merged(s, b, j);
    assert End(s, s.ring[0]) < s.ring[j];
    forall x, y | 0 <= x < y < |t.ring| ensures End(t, t.ring[x]) < t.ring[y] {
      assert End(s, s.ring[x]) < s.ring[y];
      if x == j && y > j + 1 {
        assert End(s, s.ring[j + 1]) < s.ring[y];
      }
      if x != j {
        assert x < j ==> End(s, s.ring[x]) < s.ring[j];
        assert x > j ==> End(s, s.ring[j]) < s.ring[x];
      }
    }
  }

  lemma MergedOwns(s: St, b: nat, j: nat, c: nat)
    requires Inv(s) && 0 < j < |s.ring| && b in s.live && b in s.size && s.ring[j] in s.size && End(s, s.ring[j]) == b
    requires Block(Merged(s, b, j), c)
    ensures Owns(Merged(s, b, j), c)
  {
    hide RingOk;
    RingFacts(s, j);
    assert Owns(s, c) && Owns(s, b);
    Disjoint(s, c, b);
  }

  /** Live block b becomes a free block after the j-th one. */
  function Inserted(s: St, b: nat, j: nat): St
    requires j < |s.ring|
  {
    s.(ring := s.ring[..j + 1] + [b] + s.ring[j + 1..], live := s.live - {b})
  }

  lemma InsertedInv(s: St, b: nat, j: nat)
    requires Inv(s) && b in s.live && Between(s, b, j) && s.ring[j] in s.size && End(s, s.ring[j]) != b
    requires j + 1 < |s.ring| ==> b in s.size && End(s, b) != s.ring[j + 1]
    ensures Inv(Inserted(s, b, j))
  {
    hide Owns, RingOk;
    Neighbours(s, b, j);
    var t := Inserted(s, b, j);
    InsertedRing(s, b, j);
    assert forall c :: c in t.ring <==> c in s.ring || c == b by {
      assert s.ring == s.ring[..j + 1] + s.ring[j + 1..];
    }
    forall c | Block(t, c) ensures Owns(t, c) {
      assert Block(s, c) && Owns(s, c);
      SameOwns(s, t, c);
    }
  }

  lemma SameOwns(s: St, t: St, c: nat)
    requires Owns(s, c) && t.who == s.who && t.size == s.size && t.base == s.base
    ensures Owns(t, c)
  {
  }

  lemma InsertedRing(s: St, b: nat, j: nat)
    requires RingOk(s) && j < |s.ring| && b in s.size && End(s, s.ring[j]) < b && s.base < b
    requires j + 1 < |s.ring| ==> End(s, b) < s.ring[j + 1]
    ensures RingOk(Inserted(s, b, j))
  {
    var t := Inserted(s, b, j);
    assert forall x | 0 <= x < |t.ring| ::
      t.ring[x] == if x <= j then s.ring[x] else if x == j + 1 then b else s.ring[x - 1];
    forall x: nat, y: nat | x < y < |t.ring| ensures t.ring[x] in t.size && t.ring[x] + t.size[t.ring[x]] < t.ring[y] {
      InsertedPair(s, t, b, j, x, y);
    }
  }

  lemma InsertedPair(s: St, t: St, b: nat, j: nat, x: nat, y: nat)
    requires RingOk(s) && j < |s.ring| && b in s.size && End(s, s.ring[j]) < b && x < y < |t.ring| == |s.ring| + 1
    requires t.size == s.size
    requires j + 1 < |s.ring| ==> End(s, b) < s.ring[j + 1]
    requires forall k {:trigger t.ring[k]} | 0 <= k < |t.ring| ::
               t.ring[k] == if k <= j then s.ring[k] else if k == j + 1 then b else s.ring[k - 1]
    ensures t.ring[x] in t.size && t.ring[x] + t.size[t.ring[x]] < t.ring[y]
  {
    var p, q := t.ring[x], t.ring[y];
    if x == j + 1 {
      assert p == b && q == s.ring[y - 1];
      AfterNew(s, b, j, y - 1);
    } else if y == j + 1 {
      assert p == s.ring[x] && q == b;
      BeforeNew(s, b, j, x);
    } else {
      assert End(s, s.ring[if x <= j then x else x - 1]) < s.ring[if y <= j then y else y - 1];
    }
  }

  lemma AfterNew(s: St, b: nat, j: nat, y: nat)
    requires RingOk(s) && j < y < |s.ring| && b in s.size && End(s, b) < s.ring[j + 1]
    ensures End(s, b) < s.ring[y]
  {
    assert y > j + 1 ==> End(s, s.ring[j + 1]) < s.ring[y];
  }

  lemma BeforeNew(s: St, b: nat, j: nat, x: nat)
    requires RingOk(s) && x <= j < |s.ring| && End(s, s.ring[j]) < b
    ensures End(s, s.ring[x]) < b
  {
    assert x < j ==> End(s, s.ring[x]) < s.ring[j];
  }

  /** sbrk's new units as one live block. */
  function More(s: St, lo: nat, n: nat): St {
    s.(live := s.live + {lo}, size := s.size[lo := n],
       who := map u | u in s.who.Keys + Units(lo, lo + n) :: if lo <= u < lo + n then lo else s.who[u])
  }

  function Units(lo: nat, hi: nat): (r: set<nat>)
    ensures forall u :: u in r <==> lo <= u < hi
    decreases hi
  {
    if lo < hi then Units(lo, hi - 1) + {hi - 1} else {}
  }

  lemma MoreInv(s: St, lo: nat, n: nat)
    requires Inv(s) && n > 0 && lo > s.base && forall u | u in s.who :: u < lo
    ensures Inv(More(s, lo, n)) && lo !in s.live && lo !in s.ring
  {
    hide RingOk, Owns;
    var t := More(s, lo, n);
    NewBlock(s, lo);
    MoreRing(s, lo, n);
    forall c | Block(t, c) ensures Owns(t, c) {
      MoreOwns(s, lo, n, c);
    }
    forall u | u in t.who ensures Block(t, t.who[u]) && t.who[u] in t.size && t.who[u] <= u < End(t, t.who[u]) {
      if u in s.who {
        assert Block(s, s.who[u]);
      }
    }
  }

  lemma NewBlock(s: St, lo: nat)
    requires Inv(s) && lo > s.base && lo !in s.who
    ensures lo !in s.live && lo !in s.ring
  {
    hide RingOk;
    assert Block(s, lo) ==> Owns(s, lo);
  }

  lemma MoreOwns(s: St, lo: nat, n: nat, c: nat)
    requires Inv(s) && n > 0 && lo > s.base && (forall u | u in s.who :: u < lo) && Block(More(s, lo, n), c)
    ensures Owns(More(s, lo, n), c)
  {
    hide RingOk;
    var t := More(s, lo, n);
    if c != lo {
      assert Block(s, c) && Owns(s, c);
      assert t.size[c] == s.size[c];
    }
    forall u | c <= u < End(t, c) ensures u in t.who && t.who[u] == c {
      if c != lo {
        assert u in s.who && s.who[u] == c;
      } else {
        assert u in Units(lo, lo + n);
      }
    }
  }

  lemma MoreRing(s: St, lo: nat, n: nat)
    requires RingOk(s) && lo > s.base && lo !in s.ring
    ensures RingOk(More(s, lo, n))
  {
    var t := More(s, lo, n);
    forall j | 0 <= j < |s.ring| ensures s.ring[j] in t.size && t.size[s.ring[j]] == s.size[s.ring[j]] {
      assert s.ring[j] in s.ring;
    }
  }

  /** The free block that a live block follows. */
  ghost function Before(s: St, b: nat, n: nat): (j: nat)
    requires 0 < n <= |s.ring| && s.ring[0] < b && (n < |s.ring| ==> b < s.ring[n])
    requires forall i | 0 <= i < |s.ring| :: s.ring[i] != b
    ensures Between(s, b, j)
  {
    if s.ring[n - 1] < b then n - 1 else Before(s, b, n - 1)
  }

  /** A live block lies after the static header and is in no free list. */
  lemma LiveFacts(s: St, b: nat)
    requires Inv(s) && b in s.live
    ensures s.ring != [] && s.ring[0] < b && (forall i | 0 <= i < |s.ring| :: s.ring[i] != b) && b in s.size
    ensures s.size[b] > 0
  {
    assert Owns(s, b);
  }

  // Conservation, in numbers.

  ghost function Sum(size: map<nat, nat>, bs: set<nat>): nat
    requires bs <= size.Keys
    decreases bs
  {
    if bs == {} then 0
    else
      var b :| b in bs;
      size[b] + Sum(size, bs - {b})
  }

  lemma {:induction false} SumRemove(size: map<nat, nat>, bs: set<nat>, x: nat)
    requires bs <= size.Keys && x in bs
    ensures Sum(size, bs) == size[x] + Sum(size, bs - {x})
    decreases bs
  {
    var b :| b in bs && Sum(size, bs) == size[b] + Sum(size, bs - {b});
    if b != x {
      SumRemove(size, bs - {b}, x);
      SumRemove(size, bs - {x}, b);
      assert bs - {b} - {x} == bs - {x} - {b};
    }
  }

  /** The units of a set of blocks. */
  function UnitsOf(s: St, bs: set<nat>): set<nat> { set u | u in s.who && s.who[u] in bs }

  lemma {:induction false} UnitsCount(s: St, bs: set<nat>)
    requires Inv(s) && forall b | b in bs :: Block(s, b) && b in s.size
    ensures |UnitsOf(s, bs)| == Sum(s.size, bs)
    decreases bs
  {
    hide Inv, Block;
    if bs == {} {
      assert UnitsOf(s, bs) == {};
    } else {
      var b :| b in bs;
      UnitsCount(s, bs - {b});
      SumRemove(s.size, bs, b);
      OwnUnits(s, b);
      UnitsSize(b, End(s, b));
      assert UnitsOf(s, bs) == UnitsOf(s, bs - {b}) + Units(b, End(s, b));
      assert UnitsOf(s, bs - {b}) * Units(b, End(s, b)) == {};
    }
  }

  /** The units of one block are its stretch. */
  lemma OwnUnits(s: St, b: nat)
    requires Inv(s) && Block(s, b)
    ensures b in s.size && forall u :: u in s.who && s.who[u] == b <==> b <= u < End(s, b)
  {
    hide RingOk;
    assert Owns(s, b);
  }

  lemma {:induction false} UnitsSize(lo: nat, hi: nat)
    ensures |Units(lo, hi)| == if lo <= hi then hi - lo else 0
    decreases hi
  {
    if lo < hi {
      UnitsSize(lo, hi - 1);
    }
  }

  function FreeBlocks(s: St): set<nat> { (set b | b in s.ring) - {s.base} }

  /** Free units and live units add up to the units obtained from sbrk. */
  lemma Conservation(s: St)
    requires Inv(s)
    ensures FreeBlocks(s) <= s.size.Keys && s.live <= s.size.Keys
    ensures Sum(s.size, FreeBlocks(s)) + Sum(s.size, s.live) == |s.who.Keys|
  {
    hide Inv, Block;
    forall b | b in FreeBlocks(s) + s.live ensures Block(s, b) && b in s.size {
      InEither(s, b);
    }
    UnitsCount(s, FreeBlocks(s));
    UnitsCount(s, s.live);
    EveryUnit(s);
    assert s.who.Keys == UnitsOf(s, FreeBlocks(s)) + UnitsOf(s, s.live);
    assert UnitsOf(s, FreeBlocks(s)) * UnitsOf(s, s.live) == {};
  }

  lemma InEither(s: St, b: nat)
    requires Inv(s) && (b in FreeBlocks(s) || b in s.live)
    ensures Block(s, b) && b in s.size
  {
    assert Block(s, b) && Owns(s, b);
  }

  lemma EveryUnit(s: St)
    requires Inv(s)
    ensures forall u | u in s.who :: s.who[u] in FreeBlocks(s) || s.who[u] in s.live
    ensures FreeBlocks(s) * s.live == {}
  {
    hide RingOk, Owns;
    forall u | u in s.who ensures s.who[u] in FreeBlocks(s) || s.who[u] in s.live {
      assert Block(s, s.who[u]);
    }
  }

  /** No two free blocks touch. */
  lemma NotAdjacent(s: St, a: nat, b: nat)
    requires Inv(s) && a in s.ring && b in s.ring && a in s.size
    ensures End(s, a) != b || a == b
  {
    var i :| 0 <= i < |s.ring| && s.ring[i] == a;
    var j :| 0 <= j < |s.ring| && s.ring[j] == b;
    if i < j {
      assert End(s, s.ring[i]) < s.ring[j];
    } else if j < i {
      assert End(s, s.ring[j]) < s.ring[i];
    }
  }
}
