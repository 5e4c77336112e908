/** Programs on user memory: sbrk, and the kernel's copies in and out. */
module LazyRun {
  import opened Params
  import opened PageTables
  import opened Vm
  import opened ProcMem
  import opened Lazy

  datatype Op = Sbrk(n: int) | In(src: nat, len: nat) | Out(dst: nat, bytes: seq<nat>)
  datatype Res = Addr(a: nat) | Got(data: seq<nat>) | Fault | Done

  /** How many bytes from va on can be written before the first fault. */
  ghost function Run(u: map<nat, Want>, va: nat, len: nat): (w: nat)
    ensures w <= len && (forall a | va <= a < va + w :: Writable(u, a)) && (w < len ==> !Writable(u, va + w))
    decreases len
  {
    if len == 0 || !Writable(u, va) then 0 else 1 + Run(u, va + 1, len - 1)
  }

  function ByteOr0(u: map<nat, Want>, va: nat): nat { if Readable(u, va) then ByteAt(u, va) else 0 }

  /** The bytes at va, if users may read them all. */
  ghost function Fetch(u: map<nat, Want>, va: nat, len: nat): Res {
    if forall a | va <= a < va + len :: Readable(u, a)
    then Got(seq<nat>(len, j requires 0 <= j < len => ByteOr0(u, va + j))) else Fault
  }

  /** One operation on the memory a process sees: nothing here knows about frames or laziness. */
  ghost function Eval(sz: nat, u: map<nat, Want>, op: Op): (nat, map<nat, Want>, Res) {
    match op
    case Sbrk(n) => (NewSize(sz, n), Resize(u, Pages(NewSize(sz, n))), Addr(sz))
    case In(src, len) => (sz, u, Fetch(u, src, len))
    case Out(dst, bytes) =>
      (sz, Poke(u, dst, bytes[..Run(u, dst, |bytes|)]), if Run(u, dst, |bytes|) == |bytes| then Done else Fault)
  }

  ghost function EvalAll(sz: nat, u: map<nat, Want>, ops: seq<Op>): (nat, map<nat, Want>, seq<Res>) {
    if ops == [] then (sz, u, [])
    else
      var (sz0, u0, rs) := EvalAll(sz, u, ops[..|ops| - 1]);
      var (sz1, u1, r) := Eval(sz0, u0, ops[|ops| - 1]);
      (sz1, u1, rs + [r])
  }

  /** Growing: the old size is returned; the pages there were are the same, new ones hold zeros. */
  lemma SbrkGrows(sz: nat, u: map<nat, Want>, n: nat, a: nat)
    requires forall v: nat :: v in u <==> v < Pages(sz)
    ensures var (sz', u', r) := Eval(sz, u, Sbrk(n));
      && sz' == sz + n && r == Addr(sz) && (Readable(u', a) ==> a / PGSIZE < Pages(sz + n))
      && (a / PGSIZE < Pages(sz) ==>
            (Readable(u', a) <==> Readable(u, a)) && (Writable(u', a) <==> Writable(u, a))
            && (Readable(u, a) ==> ByteAt(u', a) == ByteAt(u, a)))
      && (Pages(sz) <= a / PGSIZE < Pages(sz + n) ==> Writable(u', a) && ByteAt(u', a) == 0)
  {
    LazyBits();
    assert a % PGSIZE < PGSIZE;
  }

  /** Shrinking: a read that starts above the new last page faults; what lies below is the same. */
  lemma SbrkShrinks(sz: nat, u: map<nat, Want>, n: int, a: nat, len: nat)
    requires (forall v: nat :: v in u <==> v < Pages(sz)) && 0 <= n <= sz && len > 0
    ensures var (sz', u', r) := Eval(sz, u, Sbrk(-n));
      && sz' == sz - n && r == Addr(sz)
      && (Pages(sz - n) <= a / PGSIZE ==> Eval(sz', u', In(a, len)).2 == Fault)
      && (a / PGSIZE < Pages(sz - n) ==>
            (Readable(u', a) <==> Readable(u, a)) && (Writable(u', a) <==> Writable(u, a))
            && (Readable(u, a) ==> ByteAt(u', a) == ByteAt(u, a)))
  {
    var u' := Eval(sz, u, Sbrk(-n)).1;
    if Pages(sz - n) <= a / PGSIZE {
      assert !Readable(u', a);
    }
  }

  /** Shrinking below zero changes nothing and reports success. */
  lemma SbrkTooFar(sz: nat, u: map<nat, Want>, n: int)
    requires (forall v: nat :: v in u <==> v < Pages(sz)) && n > sz
    ensures Eval(sz, u, Sbrk(-n)) == (sz, u, Addr(sz))
  {
    var u' := Eval(sz, u, Sbrk(-n)).1;
    assert u'.Keys == u.Keys;
    assert u' == u;
  }

  /** What a program has written it reads back, and a write that faults has written what comes before. */
  lemma OutThenIn(sz: nat, u: map<nat, Want>, dst: nat, bytes: seq<nat>)
    ensures var (sz', u', r) := Eval(sz, u, Out(dst, bytes));
      && sz' == sz && (r == Done <==> forall a | dst <= a < dst + |bytes| :: Writable(u, a))
      && var w := Run(u, dst, |bytes|); Eval(sz', u', In(dst, w)).2 == Got(bytes[..w])
  {
    hide Readable, Writable, ByteAt, Poke;
    var w := Run(u, dst, |bytes|);
    var u' := Poke(u, dst, bytes[..w]);
    forall a: nat | dst <= a < dst + w ensures Readable(u', a) && ByteAt(u', a) == bytes[..w][a - dst] {
      PokeAt(u, dst, bytes[..w], a);
      WritableReads(u, a);
    }
    Fetched(u', dst, bytes[..w]);
  }

  lemma WritableReads(u: map<nat, Want>, a: nat)
    requires Writable(u, a)
    ensures Readable(u, a)
  {
  }

  /** A write leaves everything else as it was, and what may be read and written. */
  lemma OutElsewhere(sz: nat, u: map<nat, Want>, dst: nat, bytes: seq<nat>, a: nat)
    ensures var u' := Eval(sz, u, Out(dst, bytes)).1;
      && (Readable(u', a) <==> Readable(u, a)) && (Writable(u', a) <==> Writable(u, a))
      && (Readable(u, a) && !(dst <= a < dst + |bytes|) ==> ByteAt(u', a) == ByteAt(u, a))
  {
    PokeAt(u, dst, bytes[..Run(u, dst, |bytes|)], a);
  }

  ghost predicate Sizes(sz: nat, u: map<nat, Want>, ops: seq<Op>) {
    forall i | 0 <= i < |ops| && ops[i].Sbrk? ::
      -0x8000_0000 <= ops[i].n < 0x8000_0000 && EvalAll(sz, u, ops[..i]).0 + ops[i].n <= TRAPFRAME * PGSIZE
  }

  /** Frames an operation can take at most: three for every page it touches. */
  function OpNeeds(op: Op): nat {
    match op
    case Sbrk(n) => if n > 0 then 3 * Pages(n) else 0
    case In(src, len) => 3 * Span(src, len)
    case Out(dst, bytes) => 3 * Span(dst, |bytes|)
  }

  function ProgramNeeds(ops: seq<Op>): nat {
    if ops == [] then 0 else ProgramNeeds(ops[..|ops| - 1]) + OpNeeds(ops[|ops| - 1])
  }

  method Step(m: Machine, p: Proc, op: Op, eager: bool, ghost trampoline: nat) returns (r: Res, oom: bool)
    requires Own(m, p, trampoline) && InBounds(p)
    requires op.Sbrk? ==> -0x8000_0000 <= op.n < 0x8000_0000 && p.sz + op.n <= TRAPFRAME * PGSIZE
    modifies m, p
    ensures Own(m, p, trampoline) && InBounds(p) && m.failures == old(m.failures) + (if oom then 1 else 0)
    ensures if oom then |old(m.free)| < OpNeeds(op) else |m.free| >= |old(m.free)| - OpNeeds(op)
    ensures !oom ==> (p.sz, Mem(m, p), r) == Eval(old(p.sz), old(Mem(m, p)), op)
  {
    hide Own, User, Resize, Poke, Readable, Writable, Span, GrowNeeds;
    oom := false;
    var panicked := false;
    match op
    case Sbrk(n) =>
      if n > 0 {
        InsideTop(p.sz, n);
        GrowAtMost(m.dir.Keys, p.pagetable, p.sz, n);
      }
      var a;
      a, panicked := SysSbrk(m, p, n, eager, trampoline);
      assert !panicked;
      if a == -1 {
        return Fault, true;
      }
      return Addr(a), false;
    case In(src, len) =>
      var ok, data;
      ok, data, oom, panicked := CopyIn(m, p, src, len, trampoline);
      assert !panicked;
      if ok {
        Fetched(old(Mem(m, p)), src, data);
        return Got(data), oom;
      }
      return Fault, oom;
    case Out(dst, bytes) =>
      var ok;
      ghost var w;
      ok, w, oom := CopyOut(m, p, dst, bytes, trampoline);
      if !oom {
        RunOnly(old(Mem(m, p)), dst, |bytes|, w);
      }
      return if ok then Done else Fault, oom;
  }

  lemma InsideTop(sz: nat, n: nat)
    requires sz + n <= TRAPFRAME * PGSIZE
    ensures !PastTop(sz, n) && Cap(sz + n) == sz + n
  {
  }

  lemma GrowAtMost(keys: set<Key>, root: nat, sz: nat, n: nat)
    requires sz + n <= TRAPFRAME * PGSIZE
    ensures GrowNeeds(keys, root, sz, n) <= 3 * Pages(n)
  {
    hide Needs;
    assert Pages(sz) <= Pages(sz + n) <= Pages(sz) + Pages(n);
    NeedsAtMost(root, Pages(sz), Pages(sz + n), keys);
  }

  lemma Fetched(u: map<nat, Want>, va: nat, data: seq<nat>)
    requires Holds(u, va, data)
    ensures Fetch(u, va, |data|) == Got(data)
  {
    assert forall a | va <= a < va + |data| :: Readable(u, a);
    var b := seq<nat>(|data|, j requires 0 <= j < |data| => ByteOr0(u, va + j));
    forall j | 0 <= j < |data| ensures b[j] == data[j] {
      var a := va + j;
      assert Readable(u, a) && data[a - va] == ByteAt(u, a);
      assert data[j] == ByteAt(u, a);
      assert ByteOr0(u, a) == ByteAt(u, a);
      assert b[j] == ByteOr0(u, a);
    }
    assert b == data;
    assert Fetch(u, va, |data|) == Got(b);
  }

  lemma RunOnly(u: map<nat, Want>, va: nat, len: nat, w: nat)
    requires w <= len && (forall a | va <= a < va + w :: Writable(u, a)) && (w < len ==> !Writable(u, va + w))
    ensures Run(u, va, len) == w
  {
    hide Writable;
    var r := Run(u, va, len);
    var atW, atR := Writable(u, va + w), Writable(u, va + r);
  }

  lemma {:induction false} NeedsStep(ops: seq<Op>, i: nat)
    requires i < |ops|
    ensures ProgramNeeds(ops[..i + 1]) == ProgramNeeds(ops[..i]) + OpNeeds(ops[i]) <= ProgramNeeds(ops)
    decreases |ops|
  {
    if i + 1 < |ops| {
      NeedsStep(ops[..|ops| - 1], i);
      assert ops[..|ops| - 1][..i + 1] == ops[..i + 1] && ops[..|ops| - 1][..i] == ops[..i];
    } else {
      assert ops[..i + 1] == ops && ops[..i] == ops[..|ops| - 1];
    }
  }

  /** Lazy equals eager: whichever sbrks of a program are eager, while memory lasts the program
      gets the results, and leaves the bytes, that the plain memory model gives.  Memory does last
      if there are three free frames for every page its operations touch. */
  method LazyEqualsEager(m: Machine, p: Proc, ops: seq<Op>, eager: seq<bool>, ghost trampoline: nat)
    returns (rs: seq<Res>, oom: bool)
    requires Own(m, p, trampoline) && InBounds(p) && |eager| == |ops| && Sizes(p.sz, Mem(m, p), ops)
    modifies m, p
    ensures Own(m, p, trampoline) && (oom <==> m.failures > old(m.failures))
    ensures oom ==> |old(m.free)| < ProgramNeeds(ops)
    ensures !oom ==> (p.sz, Mem(m, p), rs) == EvalAll(old(p.sz), old(Mem(m, p)), ops)
  {
    hide Own, User, Eval;
    ghost var sz, u := p.sz, Mem(m, p);
    rs, oom := [], false;
    for i := 0 to |ops|
      invariant Own(m, p, trampoline) && InBounds(p) && |m.free| >= |old(m.free)| - ProgramNeeds(ops[..i])
      invariant !oom && m.failures == old(m.failures) && (p.sz, Mem(m, p), rs) == EvalAll(sz, u, ops[..i])
    {
      var r;
      assert EvalAll(sz, u, ops[..i]).0 == p.sz;
      NeedsStep(ops, i);
      r, oom := Step(m, p, ops[i], eager[i], trampoline);
      if oom {
        return;
      }
      assert ops[..i + 1][..i] == ops[..i];
      rs := rs + [r];
    }
    assert ops[..|ops|] == ops;
  }
}
