/** The virtio disk's queue as a state shared by driver and device (VIRTIO 1.1, sections 2.6 and 5.2). */
module Virtq {
  import opened Sets

  const NUM: nat := 8
  const WRAP: nat := 65536   // ring indices are 16 bits wide

  datatype Addr = Nowhere | OpAt(i: nat) | DataOf(buf: nat) | StatusAt(i: nat)
  datatype Desc = Desc(addr: Addr, next: nat, more: bool, devWrites: bool)
  datatype Op = Op(write: bool, sector: nat)

  /** How far a request is: in the avail ring, taken by the device, in the used ring, seen by the driver. */
  datatype Phase = Queued | Fetched | Used | Done
  datatype Req = Req(id: nat, mid: nat, tail: nat, buf: nat, op: Op, phase: Phase)

  /** Shared memory and both sides' own state; `reqs`, keyed by head descriptor, the unbounded counts
      `subs` and `fins`, and the pending parts of the two rings are what the proofs keep track of. */
  datatype St = St(
    free: seq<bool>, desc: seq<Desc>, ops: seq<Op>, bufOf: seq<nat>, status: seq<nat>,
    avail: seq<nat>, availIdx: nat, devIdx: nat, used: seq<nat>, usedIdx: nat, seenIdx: nat,
    busy: set<nat>, data: map<nat, nat>, image: map<nat, nat>,
    reqs: map<nat, Req>, queue: seq<nat>, pending: seq<nat>, subs: nat, fins: nat, completed: set<nat>)

  function Get(m: map<nat, nat>, k: nat): nat { if k in m then m[k] else 0 }

  predicate Shape(s: St) {
    |s.free| == |s.desc| == |s.ops| == |s.bufOf| == |s.status| == |s.avail| == |s.used| == NUM
  }

  predicate Member(h: nat, r: Req, i: nat) { i == h || i == r.mid || i == r.tail }

  /** The three descriptors of a request are its own, and say what virtio_disk_rw wrote. */
  ghost predicate ReqOk(s: St, h: nat)
    requires Shape(s) && h in s.reqs
  {
    var r := s.reqs[h];
    && h < NUM && r.mid < NUM && r.tail < NUM && h != r.mid && h != r.tail && r.mid != r.tail
    && !s.free[h] && !s.free[r.mid] && !s.free[r.tail]
    && s.desc[h] == Desc(OpAt(h), r.mid, true, false) && s.ops[h] == r.op
    && s.desc[r.mid] == Desc(DataOf(r.buf), r.tail, true, !r.op.write)
    && s.desc[r.tail] == Desc(StatusAt(h), 0, false, true)
    && s.bufOf[h] == r.buf && (r.buf in s.busy <==> r.phase != Done)
    && (r.phase == Used ==> s.status[h] == 0)
    && (r.phase == Used || r.phase == Done <==> r.id in s.completed) && r.id < s.subs
  }

  ghost predicate Apart(s: St, g: nat, h: nat)
    requires g in s.reqs && h in s.reqs
  {
    && (forall i: nat | Member(g, s.reqs[g], i) :: !Member(h, s.reqs[h], i))
    && s.reqs[g].buf != s.reqs[h].buf && s.reqs[g].id != s.reqs[h].id
  }

  /** A descriptor is free or in some request's chain. */
  ghost predicate FreeOk(s: St, i: nat)
    requires Shape(s) && i < NUM
  {
    s.free[i] || exists h :: h in s.reqs && Member(h, s.reqs[h], i)
  }

  /** The j-th pending entry of the avail ring. */
  ghost predicate QueueAt(s: St, j: nat)
    requires Shape(s) && j < |s.queue| <= s.subs
  {
    s.queue[j] in s.reqs && s.reqs[s.queue[j]].phase == Queued && s.avail[(s.subs - |s.queue| + j) % NUM] == s.queue[j]
  }

  /** The j-th pending entry of the used ring. */
  ghost predicate UsedAt(s: St, j: nat)
    requires Shape(s) && j < |s.pending| <= s.fins
  {
    s.pending[j] in s.reqs && s.reqs[s.pending[j]].phase == Used
    && s.used[(s.fins - |s.pending| + j) % NUM] == s.pending[j]
  }

  ghost predicate Indices(s: St) {
    && |s.queue| <= s.subs && |s.pending| <= s.fins
    && s.availIdx == s.subs % WRAP && s.devIdx == (s.subs - |s.queue|) % WRAP
    && s.usedIdx == s.fins % WRAP && s.seenIdx == (s.fins - |s.pending|) % WRAP
    && (forall i, j | 0 <= i < j < |s.queue| :: s.queue[i] != s.queue[j])
    && (forall i, j | 0 <= i < j < |s.pending| :: s.pending[i] != s.pending[j])
  }

  ghost predicate Inv(s: St) {
    && Shape(s) && Indices(s) && (forall x | x in s.completed :: x < s.subs)
    && (forall h | h in s.reqs :: ReqOk(s, h))
    && (forall g, h | g in s.reqs && h in s.reqs && g != h :: Apart(s, g, h))
    && (forall i: nat | i < NUM :: FreeOk(s, i))
    && (forall j: nat | j < |s.queue| :: QueueAt(s, j))
    && (forall j: nat | j < |s.pending| :: UsedAt(s, j))
    && (forall h | h in s.reqs && s.reqs[h].phase == Queued :: h in s.queue)
    && (forall h | h in s.reqs && s.reqs[h].phase == Used :: h in s.pending)
  }

  // At most two requests are in flight.

  function Chain(s: St, h: nat): set<nat>
    requires h in s.reqs
  {
    {h, s.reqs[h].mid, s.reqs[h].tail}
  }

  function Chains(s: St, hs: set<nat>): set<nat>
    requires hs <= s.reqs.Keys
  {
    set h, i | h in hs && i in Chain(s, h) :: i
  }

  lemma {:induction false} ChainsSize(s: St, hs: set<nat>)
    requires Inv(s) && hs <= s.reqs.Keys
    ensures |Chains(s, hs)| == 3 * |hs|
    decreases hs
  {
    hide Inv, Chain, Chains;
    if hs == {} {
      NoChains(s);
    } else {
      var h :| h in hs;
      ChainsSize(s, hs - {h});
      ChainApart(s, hs - {h}, h);
      ChainsAdd(s, hs, h);
    }
  }

  lemma NoChains(s: St)
    ensures Chains(s, {}) == {}
  {
  }

  lemma ChainsAdd(s: St, hs: set<nat>, h: nat)
    requires hs <= s.reqs.Keys && h in hs
    ensures Chains(s, hs) == Chains(s, hs - {h}) + Chain(s, h)
  {
    hide Chain;
  }

  lemma ChainApart(s: St, hs: set<nat>, h: nat)
    requires Inv(s) && hs <= s.reqs.Keys && h in s.reqs && h !in hs
    ensures Chains(s, hs) * Chain(s, h) == {} && |Chain(s, h)| == 3
  {
    hide QueueAt, UsedAt, FreeOk, Indices;
    assert ReqOk(s, h);
    forall g, i: nat | g in hs && i in Chain(s, g) ensures i !in Chain(s, h) {
      assert Apart(s, g, h) && Member(g, s.reqs[g], i);
    }
  }

  /** In-flight chains fit in the NUM descriptors: two requests at most. */
  lemma TwoInFlight(s: St)
    requires Inv(s)
    ensures |s.reqs| <= 2
  {
    hide Inv, Chain;
    ChainsSize(s, s.reqs.Keys);
    var all := {0, 1, 2, 3, 4, 5, 6, 7};
    forall i | i in Chains(s, s.reqs.Keys) ensures i in all {
      var h :| h in s.reqs.Keys && i in Chain(s, h);
      ChainBound(s, h);
    }
    SubsetSize(Chains(s, s.reqs.Keys), all);
    assert |s.reqs.Keys| == |s.reqs|;
  }

  lemma ChainBound(s: St, h: nat)
    requires Inv(s) && h in s.reqs
    ensures forall i | i in Chain(s, h) :: i < NUM
  {
    hide QueueAt, UsedAt, FreeOk, Indices, Apart;
    assert ReqOk(s, h);
  }

  /** Pending entries of either ring are few. */
  lemma ShortQueues(s: St)
    requires Inv(s)
    ensures |s.queue| <= 2 && |s.pending| <= 2
  {
    hide ReqOk, FreeOk, Apart;
    TwoInFlight(s);
    forall j | 0 <= j < |s.queue| ensures s.queue[j] in s.reqs.Keys {
      assert QueueAt(s, j);
    }
    forall j | 0 <= j < |s.pending| ensures s.pending[j] in s.reqs.Keys {
      assert UsedAt(s, j);
    }
    DistinctSize(s.queue, s.reqs.Keys);
    DistinctSize(s.pending, s.reqs.Keys);
  }

  lemma {:induction false} DistinctSize(q: seq<nat>, b: set<nat>)
    requires (forall i, j | 0 <= i < j < |q| :: q[i] != q[j]) && forall j | 0 <= j < |q| :: q[j] in b
    ensures |q| <= |b|
    decreases q
  {
    if q != [] {
      DistinctSize(q[1..], b - {q[0]});
    }
  }

  // The steps.

  lemma WrapSlot(x: nat)
    ensures x % WRAP % NUM == x % NUM && (x % WRAP + 1) % WRAP == (x + 1) % WRAP
  {
  }

  /** Entries fewer than NUM apart use different slots. */
  lemma SlotsApart(a: nat, b: nat)
    requires a < b < a + NUM
    ensures a % NUM != b % NUM
  {
  }

  /** Equal 16-bit indices mean equal counts, as long as the counts are close. */
  lemma IndicesTell(a: nat, n: nat)
    requires n < WRAP
    ensures a % WRAP == (a + n) % WRAP <==> n == 0
  {
  }

  /** virtio_disk_rw up to the wait: request (b, op) on descriptors h, m, t. */
  function Submitted(s: St, h: nat, m: nat, t: nat, b: nat, op: Op): St
    requires Shape(s) && h < NUM && m < NUM && t < NUM
  {
    s.(free := s.free[h := false][m := false][t := false],
       desc := s.desc[h := Desc(OpAt(h), m, true, false)][m := Desc(DataOf(b), t, true, !op.write)]
                     [t := Desc(StatusAt(h), 0, false, true)],
       ops := s.ops[h := op], status := s.status[h := 255], bufOf := s.bufOf[h := b], busy := s.busy + {b},
       avail := s.avail[s.availIdx % NUM := h], availIdx := (s.availIdx + 1) % WRAP,
       reqs := s.reqs[h := Req(s.subs, m, t, b, op, Queued)], queue := s.queue + [h], subs := s.subs + 1)
  }

  ghost predicate CanSubmit(s: St, h: nat, m: nat, t: nat, b: nat)
    requires Shape(s)
  {
    && h < NUM && m < NUM && t < NUM && h != m && h != t && m != t && s.free[h] && s.free[m] && s.free[t]
    && forall g | g in s.reqs :: s.reqs[g].buf != b
  }

  lemma SubmittedInv(s: St, h: nat, m: nat, t: nat, b: nat, op: Op)
    requires Inv(s) && CanSubmit(s, h, m, t, b)
    ensures Inv(Submitted(s, h, m, t, b, op)) && h !in s.reqs
  {
    hide ReqOk, FreeOk, Apart, QueueAt, UsedAt;
    var u := Submitted(s, h, m, t, b, op);
    ShortQueues(s);
    NotInUse(s, h, m, t);
    WrapSlot(s.subs);
    forall g | g in u.reqs ensures ReqOk(u, g) {
      SubmittedReq(s, h, m, t, b, op, g);
    }
    forall f, g | f in u.reqs && g in u.reqs && f != g ensures Apart(u, f, g) {
      SubmittedApart(s, h, m, t, b, op, f, g);
    }
    forall i: nat | i < NUM ensures FreeOk(u, i) {
      SubmittedFree(s, h, m, t, b, op, i);
    }
    forall j: nat | j < |u.queue| ensures QueueAt(u, j) {
      SubmittedQueue(s, h, m, t, b, op, j);
    }
    forall j: nat | j < |u.pending| ensures UsedAt(u, j) {
      SubmittedUsed(s, h, m, t, b, op, j);
    }
    forall j: nat | j < |s.queue| ensures s.queue[j] != h {
      assert QueueAt(s, j);
      QueueIn(s, j);
    }
    assert u.queue[|s.queue|] == h;
  }

  lemma QueueIn(s: St, j: nat)
    requires Shape(s) && j < |s.queue| <= s.subs && QueueAt(s, j)
    ensures s.queue[j] in s.reqs
  {
  }

  /** Free descriptors are in no chain. */
  lemma NotInUse(s: St, h: nat, m: nat, t: nat)
    requires Inv(s) && h < NUM && m < NUM && t < NUM && s.free[h] && s.free[m] && s.free[t]
    ensures forall g, i: nat | g in s.reqs && (i == h || i == m || i == t) :: !Member(g, s.reqs[g], i)
    ensures h !in s.reqs
  {
    hide FreeOk, Apart, QueueAt, UsedAt, Indices;
    forall g, i: nat | g in s.reqs && (i == h || i == m || i == t) ensures !Member(g, s.reqs[g], i) {
      assert ReqOk(s, g);
    }
    forall g | g in s.reqs ensures g < NUM && !s.free[g] {
      assert ReqOk(s, g);
    }
  }

  lemma SubmittedReq(s: St, h: nat, m: nat, t: nat, b: nat, op: Op, g: nat)
    requires Inv(s) && CanSubmit(s, h, m, t, b) && g in Submitted(s, h, m, t, b, op).reqs
    ensures ReqOk(Submitted(s, h, m, t, b, op), g)
  {
    hide FreeOk, Apart, QueueAt, UsedAt;
    NotInUse(s, h, m, t);
    if g != h {
      assert ReqOk(s, g);
      assert !Member(g, s.reqs[g], h) && !Member(g, s.reqs[g], m) && !Member(g, s.reqs[g], t);
    } else {
      FreshId(s);
    }
  }

  /** Completed requests were submitted before. */
  lemma FreshId(s: St)
    requires Inv(s)
    ensures s.subs !in s.completed
  {
  }

  lemma SubmittedApart(s: St, h: nat, m: nat, t: nat, b: nat, op: Op, f: nat, g: nat)
    requires Inv(s) && CanSubmit(s, h, m, t, b) && f != g
    requires f in Submitted(s, h, m, t, b, op).reqs && g in Submitted(s, h, m, t, b, op).reqs
    ensures Apart(Submitted(s, h, m, t, b, op), f, g)
  {
    hide FreeOk, QueueAt, UsedAt, Indices;
    NotInUse(s, h, m, t);
    var u := Submitted(s, h, m, t, b, op);
    if f != h && g != h {
      assert Apart(s, f, g);
    } else {
      var o := if f == h then g else f;
      assert ReqOk(s, o);
      forall i: nat | Member(f, u.reqs[f], i) ensures !Member(g, u.reqs[g], i) {
        assert i == h || i == m || i == t ==> !Member(o, s.reqs[o], i);
      }
    }
  }

  lemma SubmittedFree(s: St, h: nat, m: nat, t: nat, b: nat, op: Op, i: nat)
    requires Inv(s) && CanSubmit(s, h, m, t, b) && i < NUM
    ensures FreeOk(Submitted(s, h, m, t, b, op), i)
  {
    hide Apart, QueueAt, UsedAt, Indices, ReqOk;
    var u := Submitted(s, h, m, t, b, op);
    NotInUse(s, h, m, t);
    assert FreeOk(s, i);
    if i == h || i == m || i == t {
      assert h in u.reqs && Member(h, u.reqs[h], i);
    } else if !s.free[i] {
      var g :| g in s.reqs && Member(g, s.reqs[g], i);
      assert g in u.reqs && Member(g, u.reqs[g], i);
    }
  }

  lemma SubmittedQueue(s: St, h: nat, m: nat, t: nat, b: nat, op: Op, j: nat)
    requires Inv(s) && CanSubmit(s, h, m, t, b) && j <= |s.queue| <= 2
    ensures QueueAt(Submitted(s, h, m, t, b, op), j)
  {
    hide Apart, ReqOk, FreeOk, UsedAt;
    WrapSlot(s.subs);
    NotInUse(s, h, m, t);
    if j < |s.queue| {
      assert QueueAt(s, j);
      SlotsApart(s.subs - |s.queue| + j, s.subs);
    }
  }

  lemma SubmittedUsed(s: St, h: nat, m: nat, t: nat, b: nat, op: Op, j: nat)
    requires Inv(s) && CanSubmit(s, h, m, t, b) && j < |s.pending|
    ensures UsedAt(Submitted(s, h, m, t, b, op), j)
  {
    hide Apart, ReqOk, FreeOk, QueueAt;
    NotInUse(s, h, m, t);
    assert UsedAt(s, j);
  }

  /** The device takes the next entry of the avail ring. */
  function Taken(s: St): St
    requires Shape(s)
  {
    var h := s.avail[s.devIdx % NUM];
    s.(devIdx := (s.devIdx + 1) % WRAP, queue := if s.queue == [] then [] else s.queue[1..],
       reqs := if h in s.reqs then s.reqs[h := s.reqs[h].(phase := Fetched)] else s.reqs)
  }

  lemma TakenInv(s: St)
    requires Inv(s) && s.devIdx != s.availIdx
    ensures s.queue != [] && s.avail[s.devIdx % NUM] == s.queue[0] && Inv(Taken(s))
    ensures s.queue[0] in s.reqs && s.reqs[s.queue[0]].phase == Queued
  {
    hide ReqOk, FreeOk, Apart, UsedAt;
    ShortQueues(s);
    assert s.queue != [] && QueueAt(s, 0);
    WrapSlot(s.subs - |s.queue|);
    var h, u := s.queue[0], Taken(s);
    forall g | g in u.reqs ensures ReqOk(u, g) {
      PhaseReq(s, u, h, g);
    }
    forall f, g | f in u.reqs && g in u.reqs && f != g ensures Apart(u, f, g) {
      assert Apart(s, f, g);
      PhaseApart(s, u, h, f, g);
    }
    forall i: nat | i < NUM ensures FreeOk(u, i) {
      PhaseFree(s, u, h, i);
    }
    forall j: nat | j < |u.queue| ensures QueueAt(u, j) {
      assert QueueAt(s, j + 1) && s.queue[j + 1] != s.queue[0];
    }
    forall j: nat | j < |u.pending| ensures UsedAt(u, j) {
      PhaseUsed(s, u, h, j);
    }
    forall g | g in u.reqs && u.reqs[g].phase == Queued ensures g in u.queue {
      assert g in s.queue && g != s.queue[0];
      assert s.queue == [s.queue[0]] + u.queue;
    }
  }

  /** u is s but for one request's phase, and things that no chain depends on. */
  ghost predicate Rephased(s: St, u: St, h: nat) {
    && Shape(s) && Shape(u) && h in s.reqs && h in u.reqs
    && u.reqs == s.reqs[h := s.reqs[h].(phase := u.reqs[h].phase)]
    && u.free == s.free && u.desc == s.desc && u.ops == s.ops && u.bufOf == s.bufOf && u.subs == s.subs
  }

  lemma PhaseReq(s: St, u: St, h: nat, g: nat)
    requires Rephased(s, u, h) && u.reqs[h].phase == Fetched && s.reqs[h].phase == Queued && g in s.reqs && Inv(s)
    requires u.status == s.status && u.busy == s.busy && u.completed == s.completed
    ensures ReqOk(u, g)
  {
    hide FreeOk, Apart, QueueAt, UsedAt, Indices;
    assert ReqOk(s, g);
  }

  lemma PhaseApart(s: St, u: St, h: nat, f: nat, g: nat)
    requires Rephased(s, u, h) && f in s.reqs && g in s.reqs && Apart(s, f, g)
    ensures Apart(u, f, g)
  {
    forall i: nat | Member(f, u.reqs[f], i) ensures !Member(g, u.reqs[g], i) {
      assert Member(f, s.reqs[f], i);
    }
  }

  lemma PhaseFree(s: St, u: St, h: nat, i: nat)
    requires Rephased(s, u, h) && i < NUM && Inv(s)
    ensures FreeOk(u, i)
  {
    hide ReqOk, Apart, QueueAt, UsedAt, Indices;
    assert FreeOk(s, i);
    if !s.free[i] {
      var g :| g in s.reqs && Member(g, s.reqs[g], i);
      assert g in u.reqs && Member(g, u.reqs[g], i);
    }
  }

  lemma PhaseUsed(s: St, u: St, h: nat, j: nat)
    requires Rephased(s, u, h) && j < |s.pending| && Inv(s) && s.reqs[h].phase != Used
    requires u.used == s.used && u.pending == s.pending && u.fins == s.fins
    ensures UsedAt(u, j)
  {
    hide ReqOk, Apart, QueueAt, FreeOk;
    assert UsedAt(s, j);
  }

  lemma PhaseQueue(s: St, u: St, h: nat, j: nat)
    requires Rephased(s, u, h) && j < |s.queue| && Inv(s) && s.reqs[h].phase != Queued
    requires u.avail == s.avail && u.queue == s.queue
    ensures QueueAt(u, j)
  {
    hide ReqOk, Apart, UsedAt, FreeOk;
    assert QueueAt(s, j);
  }

  // What the device reads from a chain.

  function NextOf(s: St, i: nat): nat
    requires Shape(s)
  {
    if i < NUM then s.desc[i].next else 0
  }

  function OpOf(s: St, h: nat): Op
    requires Shape(s)
  {
    if h < NUM && s.desc[h].addr.OpAt? && s.desc[h].addr.i < NUM then s.ops[s.desc[h].addr.i] else Op(false, 0)
  }

  function DataBufOf(s: St, h: nat): nat
    requires Shape(s)
  {
    var m := NextOf(s, h);
    if m < NUM && s.desc[m].addr.DataOf? then s.desc[m].addr.buf else 0
  }

  function StatusOf(s: St, h: nat): nat
    requires Shape(s)
  {
    var t := NextOf(s, NextOf(s, h));
    if t < NUM && s.desc[t].addr.StatusAt? && s.desc[t].addr.i < NUM then s.desc[t].addr.i else 0
  }

  /** The device carries out the request whose chain starts at h, and says so in the used ring. */
  function Finished(s: St, h: nat): St
    requires Shape(s)
  {
    var op, b := OpOf(s, h), DataBufOf(s, h);
    s.(data := if op.write then s.data else s.data[b := Get(s.image, op.sector)],
       image := if op.write then s.image[op.sector := Get(s.data, b)] else s.image,
       status := s.status[StatusOf(s, h) := 0], used := s.used[s.usedIdx % NUM := h], usedIdx := (s.usedIdx + 1) % WRAP,
       reqs := if h in s.reqs then s.reqs[h := s.reqs[h].(phase := Used)]
       else s.reqs, pending := s.pending + [h], fins := s.fins + 1,
       completed := if h in s.reqs then s.completed + {s.reqs[h].id} else s.completed)
  }

  /** The chain still says what was asked for: the device moves the request's own block. */
  lemma ChainMeans(s: St, h: nat)
    requires Inv(s) && h in s.reqs
    ensures OpOf(s, h) == s.reqs[h].op && DataBufOf(s, h) == s.reqs[h].buf && StatusOf(s, h) == h && h < NUM
  {
    hide FreeOk, Apart, QueueAt, UsedAt, Indices;
    assert ReqOk(s, h);
  }

  lemma FinishedInv(s: St, h: nat)
    requires Inv(s) && h in s.reqs && s.reqs[h].phase == Fetched
    ensures Inv(Finished(s, h))
  {
    hide ReqOk, FreeOk, Apart, QueueAt, UsedAt;
    var u := Finished(s, h);
    ChainMeans(s, h);
    ShortQueues(s);
    WrapSlot(s.fins);
    forall g | g in u.reqs ensures ReqOk(u, g) {
      FinishedReq(s, h, g);
    }
    forall f, g | f in u.reqs && g in u.reqs && f != g ensures Apart(u, f, g) {
      assert Apart(s, f, g);
      PhaseApart(s, u, h, f, g);
    }
    forall i: nat | i < NUM ensures FreeOk(u, i) {
      PhaseFree(s, u, h, i);
    }
    forall j: nat | j < |u.queue| ensures QueueAt(u, j) {
      PhaseQueue(s, u, h, j);
    }
    forall j: nat | j < |u.pending| ensures UsedAt(u, j) {
      FinishedUsed(s, h, j);
    }
    NotPending(s, h);
    assert u.pending[|s.pending|] == h;
    OldIds(s);
  }

  lemma OldIds(s: St)
    requires Inv(s)
    ensures forall h | h in s.reqs :: s.reqs[h].id < s.subs
  {
    hide FreeOk, Apart, QueueAt, UsedAt, Indices;
    forall h | h in s.reqs ensures s.reqs[h].id < s.subs {
      assert ReqOk(s, h);
    }
  }

  lemma NotPending(s: St, h: nat)
    requires Inv(s) && h in s.reqs && s.reqs[h].phase != Used
    ensures h !in s.pending
  {
    hide FreeOk, Apart, QueueAt, ReqOk;
    forall j: nat | j < |s.pending| ensures s.pending[j] != h {
      assert UsedAt(s, j);
    }
  }

  lemma FinishedReq(s: St, h: nat, g: nat)
    requires Inv(s) && h in s.reqs && s.reqs[h].phase == Fetched && g in s.reqs
    ensures ReqOk(Finished(s, h), g)
  {
    hide FreeOk, QueueAt, UsedAt, Indices;
    ChainMeans(s, h);
    assert ReqOk(s, g);
    if g != h {
      assert Apart(s, g, h);
    }
  }

  lemma FinishedUsed(s: St, h: nat, j: nat)
    requires Inv(s) && h in s.reqs && s.reqs[h].phase == Fetched && j <= |s.pending| <= 2
    ensures UsedAt(Finished(s, h), j)
  {
    hide Apart, ReqOk, FreeOk, QueueAt;
    WrapSlot(s.fins);
    if j < |s.pending| {
      assert UsedAt(s, j);
      SlotsApart(s.fins - |s.pending| + j, s.fins);
    }
  }

  /** One round of virtio_disk_intr's loop. */
  function Seen(s: St): St
    requires Shape(s)
  {
    var h := s.used[s.seenIdx % NUM];
    s.(busy := if h < NUM then s.busy - {s.bufOf[h]} else s.busy, seenIdx := (s.seenIdx + 1) % WRAP,
       pending := if s.pending == [] then [] else s.pending[1..],
       reqs := if h in s.reqs then s.reqs[h := s.reqs[h].(phase := Done)] else s.reqs)
  }

  lemma SeenInv(s: St)
    requires Inv(s) && s.seenIdx != s.usedIdx
    ensures s.pending != [] && s.used[s.seenIdx % NUM] == s.pending[0] && Inv(Seen(s))
    ensures s.pending[0] in s.reqs && s.pending[0] < NUM && s.reqs[s.pending[0]].phase == Used
    ensures s.status[s.pending[0]] == 0
  {
    hide ReqOk, FreeOk, Apart, QueueAt;
    ShortQueues(s);
    assert s.pending != [] && UsedAt(s, 0);
    WrapSlot(s.fins - |s.pending|);
    var h, u := s.pending[0], Seen(s);
    UsedReq(s, h);
    forall g | g in u.reqs ensures ReqOk(u, g) {
      SeenReq(s, u, h, g);
    }
    forall f, g | f in u.reqs && g in u.reqs && f != g ensures Apart(u, f, g) {
      assert Apart(s, f, g);
      PhaseApart(s, u, h, f, g);
    }
    forall i: nat | i < NUM ensures FreeOk(u, i) {
      PhaseFree(s, u, h, i);
    }
    forall j: nat | j < |u.queue| ensures QueueAt(u, j) {
      PhaseQueue(s, u, h, j);
    }
    forall j: nat | j < |u.pending| ensures UsedAt(u, j) {
      assert UsedAt(s, j + 1) && s.pending[j + 1] != s.pending[0];
    }
    forall g | g in u.reqs && u.reqs[g].phase == Used ensures g in u.pending {
      assert g in s.pending && g != s.pending[0];
      assert s.pending == [s.pending[0]] + u.pending;
    }
  }

  lemma UsedReq(s: St, h: nat)
    requires Inv(s) && h in s.reqs && s.reqs[h].phase == Used
    ensures h < NUM && s.status[h] == 0 && s.bufOf[h] == s.reqs[h].buf
  {
    hide FreeOk, Apart, QueueAt, UsedAt, Indices;
    assert ReqOk(s, h);
  }

  lemma SeenReq(s: St, u: St, h: nat, g: nat)
    requires Inv(s) && h in s.reqs && s.reqs[h].phase == Used && g in s.reqs && Rephased(s, u, h)
    requires u.reqs[h].phase == Done
    requires u.busy == s.busy - {s.reqs[h].buf} && u.status == s.status && u.completed == s.completed
    ensures ReqOk(u, g)
  {
    hide FreeOk, QueueAt, UsedAt, Indices;
    assert ReqOk(s, g);
    if g != h {
      assert Apart(s, g, h);
    }
  }

  /** The end of virtio_disk_rw: the chain is freed. */
  function Freed(s: St, h: nat): St
    requires Shape(s) && h in s.reqs && h < NUM && s.reqs[h].mid < NUM && s.reqs[h].tail < NUM
  {
    var r, none := s.reqs[h], Desc(Nowhere, 0, false, false);
    s.(bufOf := s.bufOf[h := 0], free := s.free[h := true][r.mid := true][r.tail := true],
       desc := s.desc[h := none][r.mid := none][r.tail := none], reqs := s.reqs - {h})
  }

  lemma FreedInv(s: St, h: nat)
    requires Inv(s) && h in s.reqs && s.reqs[h].phase == Done
    ensures h < NUM && s.reqs[h].mid < NUM && s.reqs[h].tail < NUM && Inv(Freed(s, h)) && s.reqs[h].id in s.completed
  {
    hide FreeOk, Apart, QueueAt, UsedAt, ReqOk;
    DoneReq(s, h);
    var u := Freed(s, h);
    forall g | g in u.reqs ensures ReqOk(u, g) {
      FreedReq(s, h, g);
    }
    forall f, g | f in u.reqs && g in u.reqs && f != g ensures Apart(u, f, g) {
      FreedApart(s, h, f, g);
    }
    forall i: nat | i < NUM ensures FreeOk(u, i) {
      FreedFree(s, h, i);
    }
    forall j: nat | j < |u.queue| ensures QueueAt(u, j) {
      FreedRings(s, h, j, 0);
    }
    forall j: nat | j < |u.pending| ensures UsedAt(u, j) {
      FreedRings(s, h, 0, j);
    }
  }

  lemma DoneReq(s: St, h: nat)
    requires Inv(s) && h in s.reqs
    ensures h < NUM && s.reqs[h].mid < NUM && s.reqs[h].tail < NUM
    ensures s.reqs[h].phase == Done ==> s.reqs[h].id in s.completed
    ensures s.reqs[h].buf !in s.busy ==> s.reqs[h].phase == Done
  {
    hide FreeOk, Apart, QueueAt, UsedAt, Indices;
    assert ReqOk(s, h);
  }

  lemma FreedReq(s: St, h: nat, g: nat)
    requires Inv(s) && h in s.reqs && h < NUM && s.reqs[h].mid < NUM && s.reqs[h].tail < NUM && g in s.reqs && g != h
    ensures ReqOk(Freed(s, h), g)
  {
    hide FreeOk, QueueAt, UsedAt, Indices;
    assert ReqOk(s, g) && Apart(s, h, g);
    var r := s.reqs[h];
    assert Member(h, r, h) && Member(h, r, r.mid) && Member(h, r, r.tail);
  }

  lemma FreedApart(s: St, h: nat, f: nat, g: nat)
    requires Inv(s) && h in s.reqs && h < NUM && s.reqs[h].mid < NUM && s.reqs[h].tail < NUM
    requires f in s.reqs && g in s.reqs && f != g && f != h && g != h
    ensures Apart(Freed(s, h), f, g)
  {
    hide FreeOk, QueueAt, UsedAt, Indices, ReqOk;
    assert Apart(s, f, g);
    var u := Freed(s, h);
    forall i: nat | Member(f, u.reqs[f], i) ensures !Member(g, u.reqs[g], i) {
      assert Member(f, s.reqs[f], i);
    }
  }

  lemma FreedFree(s: St, h: nat, i: nat)
    requires Inv(s) && h in s.reqs && h < NUM && s.reqs[h].mid < NUM && s.reqs[h].tail < NUM && i < NUM
    ensures FreeOk(Freed(s, h), i)
  {
    hide ReqOk, Apart, QueueAt, UsedAt, Indices;
    var u := Freed(s, h);
    assert FreeOk(s, i);
    if !s.free[i] {
      var g :| g in s.reqs && Member(g, s.reqs[g], i);
      if g != h {
        assert g in u.reqs && Member(g, u.reqs[g], i);
      }
    }
  }

  lemma FreedRings(s: St, h: nat, i: nat, j: nat)
    requires Inv(s) && h in s.reqs && h < NUM && s.reqs[h].mid < NUM && s.reqs[h].tail < NUM && s.reqs[h].phase == Done
    ensures i < |s.queue| <= s.subs ==> QueueAt(Freed(s, h), i)
    ensures j < |s.pending| <= s.fins ==> UsedAt(Freed(s, h), j)
  {
    hide ReqOk, Apart, FreeOk;
    assert i < |s.queue| ==> QueueAt(s, i);
    assert j < |s.pending| ==> UsedAt(s, j);
  }

  // Every interleaving of driver and device.

  datatype Step = Submit(h: nat, m: nat, t: nat, b: nat, op: Op) | Take | Finish(h: nat) | See | Free(h: nat)

  /** The driver submits on free descriptors, sees used entries, and frees a chain once its buffer is
      no longer busy; the device takes entries in order and finishes taken requests in any order. */
  ghost predicate Enabled(s: St, e: Step)
    requires Inv(s)
  {
    match e
    case Submit(h, m, t, b, _) => CanSubmit(s, h, m, t, b)
    case Take => s.devIdx != s.availIdx
    case Finish(h) => h in s.reqs && s.reqs[h].phase == Fetched
    case See => s.seenIdx != s.usedIdx
    case Free(h) => h in s.reqs && s.reqs[h].buf !in s.busy
  }

  ghost function Apply(s: St, e: Step): (u: St)
    requires Inv(s) && Enabled(s, e)
    ensures Inv(u)
  {
    match e
    case Submit(h, m, t, b, op) => SubmittedInv(s, h, m, t, b, op); Submitted(s, h, m, t, b, op)
    case Take => TakenInv(s); Taken(s)
    case Finish(h) => FinishedInv(s, h); Finished(s, h)
    case See => SeenInv(s); Seen(s)
    case Free(h) =>
      DoneReq(s, h);
      FreedInv(s, h);
      Freed(s, h)
  }

  ghost predicate RunOf(s: St, es: seq<Step>)
    requires Inv(s)
    decreases |es|
  {
    es != [] ==> Enabled(s, es[0]) && RunOf(Apply(s, es[0]), es[1..])
  }

  ghost function After(s: St, es: seq<Step>): (u: St)
    requires Inv(s) && RunOf(s, es)
    ensures Inv(u)
    decreases |es|
  {
    if es == [] then s else After(Apply(s, es[0]), es[1..])
  }

  /** The state virtio_disk_init leaves: all descriptors free, both rings empty. */
  function Initial(image: map<nat, nat>): St {
    St(seq(NUM, _ => true), seq(NUM, _ => Desc(Nowhere, 0, false, false)), seq(NUM, _ => Op(false, 0)),
       seq(NUM, _ => 0), seq(NUM, _ => 0), seq(NUM, _ => 0), 0, 0, seq(NUM, _ => 0), 0, 0,
       {}, map[], image, map[], [], [], 0, 0, {})
  }

  lemma InitialInv(image: map<nat, nat>)
    ensures Inv(Initial(image))
  {
  }

  ghost function Start(image: map<nat, nat>): (s: St)
    ensures Inv(s)
  {
    InitialInv(image);
    Initial(image)
  }

  /** In every run, a descriptor is free or in exactly one three-element chain. */
  lemma Partition(image: map<nat, nat>, es: seq<Step>, i: nat)
    requires RunOf(Start(image), es) && i < NUM
    ensures var s := After(Start(image), es);
      && (s.free[i] <==> forall h | h in s.reqs :: !Member(h, s.reqs[h], i))
      && forall g, h | g in s.reqs && h in s.reqs && Member(g, s.reqs[g], i) && Member(h, s.reqs[h], i) :: g == h
  {
    hide QueueAt, UsedAt, Indices;
    var s := After(Start(image), es);
    assert FreeOk(s, i);
    forall h | h in s.reqs && Member(h, s.reqs[h], i) ensures !s.free[i] {
      assert ReqOk(s, h);
    }
    forall g, h | g in s.reqs && h in s.reqs && g != h ensures !(Member(g, s.reqs[g], i) && Member(h, s.reqs[h], i)) {
      assert Apart(s, g, h);
    }
  }

  /** In every run, when a request's buffer is no longer busy the device has finished that very request. */
  lemma ReturnsWhenFinished(image: map<nat, nat>, es: seq<Step>, h: nat)
    requires RunOf(Start(image), es) && h in After(Start(image), es).reqs
    ensures var s := After(Start(image), es); s.reqs[h].buf !in s.busy ==> s.reqs[h].id in s.completed
  {
    DoneReq(After(Start(image), es), h);
  }

  /** Finishing moves exactly the requested block between the requested buffer and sector. */
  lemma FinishMoves(s: St, h: nat)
    requires Inv(s) && h in s.reqs && s.reqs[h].phase == Fetched
    ensures var r, u := s.reqs[h], Finished(s, h);
      && u.completed == s.completed + {r.id}
      && (if r.op.write then u.data == s.data && u.image == s.image[r.op.sector := Get(s.data, r.buf)]
          else u.image == s.image && u.data == s.data[r.buf := Get(s.image, r.op.sector)])
  {
    hide ReqOk, FreeOk, Apart, QueueAt, UsedAt, Indices;
    ChainMeans(s, h);
  }

  // What becomes of one request.

  /** The device has carried it out. */
  predicate Over(p: Phase) { p == Used || p == Done }

  /** From s to t request h is the same request. */
  predicate SameReq(s: St, t: St, h: nat) {
    h in s.reqs && h in t.reqs && t.reqs[h].(phase := s.reqs[h].phase) == s.reqs[h]
  }

  /** Until it is freed every step leaves a request its buffer and operation, and the buffer its contents;
      only the device's finishing it carries it out. */
  lemma StepKeepsReq(s: St, e: Step, h: nat)
    requires Inv(s) && Enabled(s, e) && h in s.reqs && e != Free(h)
    ensures var t := Apply(s, e);
      && SameReq(s, t, h)
      && (Over(t.reqs[h].phase) <==> Over(s.reqs[h].phase) || e == Finish(h))
      && (e != Finish(h) ==> Get(t.data, s.reqs[h].buf) == Get(s.data, s.reqs[h].buf))
  {
    hide Inv;
    match e
    case Submit(g, m, t, b, op) =>
      SubmittedInv(s, g, m, t, b, op);
    case Take =>
      TakenInv(s);
    case Finish(g) =>
      ChainMeans(s, g);
      OtherBuf(s, g, h);
    case See =>
      SeenInv(s);
    case Free(g) =>
      DoneReq(s, g);
  }

  lemma OtherBuf(s: St, g: nat, h: nat)
    requires Inv(s) && g in s.reqs && h in s.reqs
    ensures g != h ==> s.reqs[g].buf != s.reqs[h].buf
  {
    hide ReqOk, FreeOk, QueueAt, UsedAt, Indices;
    assert g != h ==> Apart(s, g, h);
  }

  lemma {:induction false} RunPrefix(s: St, es: seq<Step>, k: nat)
    requires Inv(s) && RunOf(s, es) && k < |es|
    ensures RunOf(s, es[..k]) && RunOf(s, es[..k + 1]) && Enabled(After(s, es[..k]), es[k])
    ensures After(s, es[..k + 1]) == Apply(After(s, es[..k]), es[k])
    decreases |es|
  {
    hide Inv, Enabled;
    assert es[..k + 1][1..] == es[1..][..k] && es[..k + 1][0] == es[0];
    if k > 0 {
      RunPrefix(Apply(s, es[0]), es[1..], k - 1);
      assert es[..k][1..] == es[1..][..k - 1] && es[..k][0] == es[0];
    }
  }

  /** A request that is not freed keeps its buffer and operation; once it is over, the device finished it
      at some step of the run, and until then its buffer was untouched. */
  lemma {:induction false} Flight(s: St, es: seq<Step>, h: nat) returns (k: nat)
    requires Inv(s) && RunOf(s, es) && h in s.reqs && Free(h) !in es && !Over(s.reqs[h].phase)
    ensures SameReq(s, After(s, es), h)
    ensures Over(After(s, es).reqs[h].phase) <==> k < |es|
    ensures k < |es| ==> es[k] == Finish(h) && RunOf(s, es[..k]) && SameReq(s, After(s, es[..k]), h)
                         && Get(After(s, es[..k]).data, s.reqs[h].buf) == Get(s.data, s.reqs[h].buf)
    ensures k < |es| ==> RunOf(s, es[..k + 1])
                         && Get(After(s, es).data, s.reqs[h].buf) == Get(After(s, es[..k + 1]).data, s.reqs[h].buf)
    decreases |es|
  {
    hide Inv, Enabled;
    if es == [] {
      return 0;
    }
    var t := Apply(s, es[0]);
    StepKeepsReq(s, es[0], h);
    if es[0] == Finish(h) {
      assert es[..0] == [] && es[..1] == [es[0]] && es[..1][1..] == [];
      StayPut(t, es[1..], h);
      return 0;
    }
    k := Flight(t, es[1..], h);
    k := k + 1;
    if k < |es| {
      assert es[..k][1..] == es[1..][..k - 1] && es[..k][0] == es[0];
      assert es[..k + 1][1..] == es[1..][..k] && es[..k + 1][0] == es[0];
    }
  }

  /** What a read has put into the buffer stays there until the request is freed. */
  lemma {:induction false} StayPut(s: St, es: seq<Step>, h: nat)
    requires Inv(s) && RunOf(s, es) && h in s.reqs && Free(h) !in es && Over(s.reqs[h].phase)
    ensures SameReq(s, After(s, es), h) && Over(After(s, es).reqs[h].phase)
    ensures Get(After(s, es).data, s.reqs[h].buf) == Get(s.data, s.reqs[h].buf)
    decreases |es|
  {
    hide Inv, Enabled;
    if es != [] {
      StepKeepsReq(s, es[0], h);
      NotAgain(s, es[0], h);
      StayPut(Apply(s, es[0]), es[1..], h);
    }
  }

  lemma NotAgain(s: St, e: Step, h: nat)
    requires Inv(s) && Enabled(s, e) && h in s.reqs && Over(s.reqs[h].phase)
    ensures e != Finish(h)
  {
  }

  /** In every run, from virtio_disk_rw's submitting a request to its freeing it: the request is the one
      asked for.  When its buffer is no longer busy, the device has, at step k, stored what the buffer
      held at the call in the sector, or has read the sector into the buffer, where it still is. */
  lemma DoesAsAsked(image: map<nat, nat>, pre: seq<Step>, h: nat, m: nat, t: nat, b: nat, op: Op, es: seq<Step>)
    returns (k: nat)
    requires RunOf(Start(image), pre) && Enabled(After(Start(image), pre), Submit(h, m, t, b, op))
    requires RunOf(Apply(After(Start(image), pre), Submit(h, m, t, b, op)), es) && Free(h) !in es
    ensures var s := After(Start(image), pre);
      var u := Apply(s, Submit(h, m, t, b, op));
      var v := After(u, es);
      && h in v.reqs && v.reqs[h].buf == b && v.reqs[h].op == op && v.reqs[h].id == s.subs
      && u.data == s.data && u.image == s.image
      && (b !in v.busy ==>
            k < |es| && es[k] == Finish(h) && RunOf(u, es[..k]) && RunOf(u, es[..k + 1])
            && var x, y := After(u, es[..k]), After(u, es[..k + 1]);
               if op.write then y.image == x.image[op.sector := Get(s.data, b)]
               else y.image == x.image && Get(v.data, b) == Get(x.image, op.sector))
  {
    hide Inv, Enabled, Apply;
    var s := After(Start(image), pre);
    var u := Apply(s, Submit(h, m, t, b, op));
    Asked(s, h, m, t, b, op);
    k := Flight(u, es, h);
    var v := After(u, es);
    DoneReq(v, h);
    if b !in v.busy {
      RunPrefix(u, es, k);
      FinishStep(After(u, es[..k]), h);
    }
  }

  lemma Asked(s: St, h: nat, m: nat, t: nat, b: nat, op: Op)
    requires Inv(s) && Enabled(s, Submit(h, m, t, b, op))
    ensures var u := Apply(s, Submit(h, m, t, b, op));
      h in u.reqs && u.reqs[h].buf == b && u.reqs[h].op == op && u.reqs[h].id == s.subs && u.reqs[h].phase == Queued
      && u.data == s.data && u.image == s.image && b in u.busy
  {
    hide Inv;
  }

  lemma FinishStep(s: St, h: nat)
    requires Inv(s) && Enabled(s, Finish(h))
    ensures var r, u := s.reqs[h], Apply(s, Finish(h));
      && (if r.op.write then u.image == s.image[r.op.sector := Get(s.data, r.buf)]
          else u.image == s.image && Get(u.data, r.buf) == Get(s.image, r.op.sector))
  {
    hide Inv, Finished;
    FinishMoves(s, h);
  }

  // No request is stuck.

  /** How many entries of a ring are before h. */
  function Before(q: seq<nat>, h: nat): nat {
    if q == [] || q[0] == h then 0 else 1 + Before(q[1..], h)
  }

  lemma {:induction false} BeforeMore(q: seq<nat>, g: nat, h: nat)
    requires h in q
    ensures Before(q, h) < |q| && Before(q + [g], h) == Before(q, h)
  {
    if q[0] != h {
      BeforeMore(q[1..], g, h);
      assert (q + [g])[1..] == q[1..] + [g];
    } else {
      assert (q + [g])[0] == h;
    }
  }

  /** Steps of the device and the handler until request h's buffer is no longer busy. */
  function ToGo(s: St, h: nat): nat
    requires h in s.reqs
  {
    match s.reqs[h].phase
    case Queued => 4 + Before(s.queue, h)
    case Fetched => 3
    case Used => 1 + Before(s.pending, h)
    case Done => 0
  }

  /** The device's or the handler's next step for it. */
  function Next(s: St, h: nat): Step
    requires h in s.reqs && s.reqs[h].phase != Done
  {
    match s.reqs[h].phase
    case Queued => Take
    case Fetched => Finish(h)
    case _ => See
  }

  lemma InRings(s: St, h: nat)
    requires Inv(s) && h in s.reqs
    ensures |s.queue| <= 2 && |s.pending| <= 2
    ensures s.reqs[h].phase == Queued ==> h in s.queue && s.availIdx != s.devIdx && Before(s.queue, h) < |s.queue|
    ensures s.reqs[h].phase == Used ==> h in s.pending && s.usedIdx != s.seenIdx && Before(s.pending, h) < |s.pending|
    ensures h in s.queue ==> s.reqs[h].phase == Queued
    ensures h in s.pending ==> s.reqs[h].phase == Used
  {
    hide ReqOk, FreeOk, Apart, Before;
    ShortQueues(s);
    IndicesTell(s.subs - |s.queue|, |s.queue|);
    IndicesTell(s.fins - |s.pending|, |s.pending|);
    if h in s.queue {
      BeforeMore(s.queue, h, h);
      var j: nat :| j < |s.queue| && s.queue[j] == h;
      assert QueueAt(s, j);
    }
    if h in s.pending {
      BeforeMore(s.pending, h, h);
      var j: nat :| j < |s.pending| && s.pending[j] == h;
      assert UsedAt(s, j);
    }
  }

  /** A request whose buffer is busy is never stuck: whatever else happens, at most five steps of the device
      and the handler, each possible when its turn comes, lead to its end. */
  lemma NeverStuck(s: St, h: nat)
    requires Inv(s) && h in s.reqs && s.reqs[h].phase != Done
    ensures ToGo(s, h) <= 5 && Enabled(s, Next(s, h))
    ensures var u := Apply(s, Next(s, h)); h in u.reqs && ToGo(u, h) < ToGo(s, h)
  {
    hide Inv, Before;
    InRings(s, h);
    NeverBack(s, Next(s, h), h);
  }

  /** No step takes it back. */
  lemma NeverBack(s: St, e: Step, h: nat)
    requires Inv(s) && Enabled(s, e) && h in s.reqs && e != Free(h)
    ensures var u := Apply(s, e);
            && h in u.reqs && ToGo(u, h) <= ToGo(s, h)
            && (s.reqs[h].phase != Done && e == Next(s, h) ==> ToGo(u, h) < ToGo(s, h))
  {
    hide Inv;
    InRings(s, h);
    match e
    case Submit(g, m, t, b, op) =>
      if s.reqs[h].phase == Queued {
        BeforeMore(s.queue, g, h);
      }
      SubmitsOther(s, g, m, t, b, h);
    case Take =>
      TakenInv(s);
    case Finish(g) =>
      if g == h {
        InRings(Apply(s, e), h);
      } else if s.reqs[h].phase == Used {
        BeforeMore(s.pending, g, h);
      }
    case See =>
      SeenInv(s);
    case Free(g) =>
      DoneReq(s, g);
  }

  /** A request in use is not on free descriptors. */
  lemma SubmitsOther(s: St, g: nat, m: nat, t: nat, b: nat, h: nat)
    requires Inv(s) && CanSubmit(s, g, m, t, b) && h in s.reqs
    ensures h != g
  {
    hide FreeOk, QueueAt, UsedAt;
    assert ReqOk(s, h);
  }
}
