/** The virtio disk driver: descriptors, the request path and the interrupt handler. */
module Virtio {
  import opened Virtq

  class Disk {
    var free: seq<bool>
    var desc: seq<Desc>
    var ops: seq<Op>
    var bufOf: seq<nat>          // info[].b, 0 if none
    var status: seq<nat>         // info[].status
    var avail: seq<nat>
    var availIdx: nat
    var used: seq<nat>
    var usedIdx: nat             // the device's
    var seenIdx: nat             // disk.used_idx
    var busy: set<nat>           // buffers with b->disk == 1
    var data: map<nat, nat>      // contents of buffers
    var devIdx: nat              // how far the device has looked in the avail ring
    var image: map<nat, nat>     // the disk, by sector
    // What the proofs keep track of.
    ghost var reqs: map<nat, Req>
    ghost var queue: seq<nat>
    ghost var pending: seq<nat>
    ghost var subs: nat
    ghost var fins: nat
    ghost var completed: set<nat>

    ghost function S(): St
      reads this
    {
      St(free, desc, ops, bufOf, status, avail, availIdx, devIdx, used, usedIdx, seenIdx, busy, data, image,
         reqs, queue, pending, subs, fins, completed)
    }

    /** The first free descriptor, marked in use; -1 if there is none. */
    method AllocDesc() returns (i: int)
      requires |free| == NUM
      modifies this`free
      ensures |free| == NUM && -1 <= i < NUM
      ensures if i == -1 then free == old(free) && (forall k | 0 <= k < NUM :: !free[k])
              else old(free)[i] && free == old(free)[i := false]
    {
      i := 0;
      while i < NUM
        invariant 0 <= i <= NUM && free == old(free) && forall k | 0 <= k < i :: !free[k]
      {
        if free[i] {
          free := free[i := false];
          return;
        }
        i := i + 1;
      }
      i := -1;
    }

    method FreeDesc(i: nat)
      requires |free| == |desc| == NUM && i < NUM && !free[i]
      modifies this`free, this`desc
      ensures free == old(free)[i := true] && desc == old(desc)[i := Desc(Nowhere, 0, false, false)]
    {
      assert i < NUM && !free[i];  // neither free_desc panic
      desc := desc[i := Desc(Nowhere, 0, false, false)];
      free := free[i := true];
    }

    /** Three free descriptors; if there are not that many, none is kept. */
    method Alloc3Desc() returns (ok: bool, idx: seq<nat>)
      requires |free| == |desc| == NUM
      modifies this`free, this`desc
      ensures |free| == |desc| == NUM
      ensures ok ==> |idx| == 3 && (forall k | 0 <= k < 3 :: idx[k] < NUM && old(free)[idx[k]])
                     && idx[0] != idx[1] && idx[0] != idx[2] && idx[1] != idx[2] && desc == old(desc)
                     && free == old(free)[idx[0] := false][idx[1] := false][idx[2] := false]
      ensures !ok ==> free == old(free) && (forall k | 0 <= k < NUM && !free[k] :: desc[k] == old(desc)[k])
                      && forall a, b, c | 0 <= a < b < c < NUM :: !(free[a] && free[b] && free[c])
    {
      idx := [];
      for i := 0 to 3
        invariant |free| == NUM && desc == old(desc) && |idx| == i
        invariant forall k | 0 <= k < i :: idx[k] < NUM && old(free)[idx[k]]
        invariant forall k, l | 0 <= k < l < i :: idx[k] != idx[l]
        invariant forall k: nat | k < NUM :: free[k] <==> old(free)[k] && k !in idx
      {
        var d := AllocDesc();
        if d < 0 {
          ghost var was := old(free);
          FewFree(was, idx);
          GiveBack(idx, was);
          return false, idx;
        }
        idx := idx + [d];
      }
      ok := true;
    }

    /** Frees the descriptors taken before there were no more. */
    method GiveBack(idx: seq<nat>, ghost was: seq<bool>)
      requires |free| == |desc| == |was| == NUM && (forall k | 0 <= k < |idx| :: idx[k] < NUM && was[idx[k]])
      requires forall k, l | 0 <= k < l < |idx| :: idx[k] != idx[l]
      requires forall k: nat | k < NUM :: free[k] <==> was[k] && k !in idx
      modifies this`free, this`desc
      ensures free == was && |desc| == NUM && forall k | 0 <= k < NUM && !was[k] :: desc[k] == old(desc)[k]
    {
      for j := 0 to |idx|
        invariant |free| == |desc| == NUM
        invariant forall k: nat | k < NUM :: free[k] <==> was[k] && k !in idx[j..]
        invariant forall k | 0 <= k < NUM && !was[k] :: desc[k] == old(desc)[k]
      {
        FreeDesc(idx[j]);
      }
      assert free == was;
    }

    /** Where only the first fewer than three are free, no three are. */
    lemma FewFree(free: seq<bool>, idx: seq<nat>)
      requires |free| == NUM && |idx| < 3 && forall k: nat | k < NUM && free[k] :: k in idx
      ensures forall a, b, c | 0 <= a < b < c < NUM :: !(free[a] && free[b] && free[c])
    {
      assert |idx| > 0 ==> idx == [idx[0]] + idx[1..];
    }

    /** The contents of free descriptors do not matter. */
    lemma FreeDescs(s: St, d: seq<Desc>)
      requires Inv(s) && |d| == NUM && forall k | 0 <= k < NUM && !s.free[k] :: d[k] == s.desc[k]
      ensures Inv(s.(desc := d))
    {
      hide Apart, Member, ReqOk;
      var t := s.(desc := d);
      forall h | h in t.reqs ensures ReqOk(t, h) {
        FreeDescsReq(s, d, h);
      }
      forall g, h | g in t.reqs && h in t.reqs && g != h ensures Apart(t, g, h) {
        assert Apart(s, g, h);
        ApartSame(s, t, g, h);
      }
      forall i: nat | i < NUM ensures FreeOk(t, i) {
        assert FreeOk(s, i);
      }
      forall j: nat | j < |t.queue| ensures QueueAt(t, j) {
        assert QueueAt(s, j);
      }
      forall j: nat | j < |t.pending| ensures UsedAt(t, j) {
        assert UsedAt(s, j);
      }
    }

    lemma FreeDescsReq(s: St, d: seq<Desc>, h: nat)
      requires Inv(s) && |d| == NUM && (forall k | 0 <= k < NUM && !s.free[k] :: d[k] == s.desc[k]) && h in s.reqs
      ensures ReqOk(s.(desc := d), h)
    {
      hide Apart, FreeOk, QueueAt, UsedAt, Indices;
      assert ReqOk(s, h);
    }

    lemma ApartSame(s: St, t: St, g: nat, h: nat)
      requires g in s.reqs && h in s.reqs && Apart(s, g, h) && t.reqs == s.reqs
      ensures Apart(t, g, h)
    {
    }

    /** virtio_disk_rw up to the wait for the device; not ok if it has to wait for descriptors. */
    method Submit(b: nat, write: bool, sector: nat) returns (ok: bool, h: nat)
      requires Inv(S()) && forall g | g in reqs :: reqs[g].buf != b
      modifies this
      ensures Inv(S())
      ensures !ok ==>
                S() == old(S()).(desc := desc)
                && forall i, j, k | 0 <= i < j < k < NUM :: !(free[i] && free[j] && free[k])
      ensures ok ==>
                exists m, t ::
                  CanSubmit(old(S()), h, m, t, b) && S() == Submitted(old(S()), h, m, t, b, Op(write, sector))
      ensures ok ==> h in reqs && reqs[h].id == old(subs) && b in busy && data == old(data) && image == old(image)
      ensures ok ==> reqs[h].op == Op(write, sector) && reqs[h].buf == b && queue == old(queue) + [h]
    {
      hide ReqOk, FreeOk, Apart, QueueAt, UsedAt, Indices;
      ghost var s := S();
      var idx;
      ok, idx := Alloc3Desc();
      if !ok {
        assert S() == s.(desc := desc);
        FreeDescs(s, desc);
        return false, 0;
      }
      h := idx[0];
      assert CanSubmit(s, h, idx[1], idx[2], b);
      SubmittedInv(s, h, idx[1], idx[2], b, Op(write, sector));
      assert free == s.free[h := false][idx[1] := false][idx[2] := false];
      Format(h, idx[1], idx[2], b, write, sector, s);
    }

    /** Fills in the three descriptors and makes the chain available to the device. */
    method Format(h: nat, m: nat, t: nat, b: nat, write: bool, sector: nat, ghost s: St)
      requires Shape(s) && h < NUM && m < NUM && t < NUM
      requires S() == s.(free := s.free[h := false][m := false][t := false])
      modifies this
      ensures S() == Submitted(s, h, m, t, b, Op(write, sector))
    {
      Describe(h, m, t, b, write, sector);
      busy := busy + {b};
      bufOf := bufOf[h := b];
      Publish(h, m, t, b, Op(write, sector));
    }

    method Describe(h: nat, m: nat, t: nat, b: nat, write: bool, sector: nat)
      requires |desc| == |ops| == |status| == NUM && h < NUM && m < NUM && t < NUM
      modifies this`ops, this`desc, this`status
      ensures ops == old(ops)[h := Op(write, sector)] && status == old(status)[h := 255]
      ensures desc == old(desc)[h := Desc(OpAt(h), m, true, false)][m := Desc(DataOf(b), t, true, !write)]
                               [t := Desc(StatusAt(h), 0, false, true)]
    {
      ops := ops[h := Op(write, sector)];
      desc := desc[h := Desc(OpAt(h), m, true, false)];
      desc := desc[m := Desc(DataOf(b), t, true, !write)];
      status := status[h := 255];
      desc := desc[t := Desc(StatusAt(h), 0, false, true)];
    }

    method Publish(h: nat, m: nat, t: nat, b: nat, ghost op: Op)
      requires |avail| == NUM
      modifies this`avail, this`availIdx, this`reqs, this`queue, this`subs
      ensures avail == old(avail)[old(availIdx) % NUM := h] && availIdx == (old(availIdx) + 1) % WRAP
      ensures reqs == old(reqs)[h := Req(old(subs), m, t, b, op, Queued)] && queue == old(queue) + [h]
      ensures subs == old(subs) + 1
    {
      avail := avail[availIdx % NUM := h];
      availIdx := (availIdx + 1) % WRAP;
      reqs, queue, subs := reqs[h := Req(subs, m, t, b, op, Queued)], queue + [h], subs + 1;
    }

    /** The device takes the next request off the avail ring. */
    method DeviceTake()
      requires Inv(S()) && devIdx != availIdx
      modifies this`devIdx, this`queue, this`reqs
      ensures Inv(S()) && S() == Taken(old(S()))
    {
      hide ReqOk, FreeOk, Apart, QueueAt, UsedAt, Indices;
      TakenInv(S());
      var h := avail[devIdx % NUM];
      devIdx, queue, reqs := (devIdx + 1) % WRAP, queue[1..], reqs[h := reqs[h].(phase := Fetched)];
    }

    /** The device carries out one of the requests it has taken. */
    method DeviceFinish(h: nat)
      requires Inv(S()) && h in reqs && reqs[h].phase == Fetched
      modifies this`data, this`image, this`status, this`used, this`usedIdx
      modifies this`reqs, this`pending, this`fins, this`completed
      ensures Inv(S()) && S() == Finished(old(S()), h)
    {
      hide Inv, Finished, Shape, Get;
      ghost var s := S();
      FinishedInv(s, h);
      var op, b, st := ReadChain(h);
      Transfer(op, b, st);
      Report(h);
    }

    /** What the device finds in a chain. */
    method ReadChain(h: nat) returns (op: Op, b: nat, st: nat)
      requires Inv(S()) && h in reqs && reqs[h].phase == Fetched
      ensures st < |status| && |used| == NUM
      ensures Finished(S(), h) == S().(data := if op.write then data else data[b := Get(image, op.sector)],
                                       image := if op.write then image[op.sector := Get(data, b)] else image,
                                       status := status[st := 0], used := used[usedIdx % NUM := h],
                                       usedIdx := (usedIdx + 1) % WRAP, reqs := reqs[h := reqs[h].(phase := Used)],
                                       pending := pending + [h], fins := fins + 1,
                                       completed := completed + {reqs[h].id})
    {
      hide ReqOk, FreeOk, Apart, QueueAt, UsedAt, Indices;
      ChainMeans(S(), h);
      ChainLinks(S(), h);
      var m := desc[h].next;
      var t := desc[m].next;
      return ops[desc[h].addr.i], desc[m].addr.buf, desc[t].addr.i;
    }

    /** Moves a block between a buffer and a sector, and reports success. */
    method Transfer(op: Op, b: nat, st: nat)
      requires st < |status|
      modifies this`data, this`image, this`status
      ensures data == (if op.write then old(data) else old(data)[b := Get(old(image), op.sector)])
      ensures image == (if op.write then old(image)[op.sector := Get(old(data), b)] else old(image))
      ensures status == old(status)[st := 0]
    {
      if op.write {
        image := image[op.sector := Get(data, b)];
      } else {
        data := data[b := Get(image, op.sector)];
      }
      status := status[st := 0];
    }

    /** Puts the chain into the used ring. */
    method Report(h: nat)
      requires h in reqs && |used| == NUM
      modifies this`used, this`usedIdx, this`reqs, this`pending, this`fins, this`completed
      ensures used == old(used)[old(usedIdx) % NUM := h] && usedIdx == (old(usedIdx) + 1) % WRAP
      ensures reqs == old(reqs)[h := old(reqs)[h].(phase := Used)] && pending == old(pending) + [h]
      ensures fins == old(fins) + 1 && completed == old(completed) + {old(reqs)[h].id}
    {
      used, usedIdx := used[usedIdx % NUM := h], (usedIdx + 1) % WRAP;
      completed := completed + {reqs[h].id};
      reqs, pending, fins := reqs[h := reqs[h].(phase := Used)], pending + [h], fins + 1;
    }

    /** One completion seen by the interrupt handler. */
    method IntrOne()
      requires Inv(S()) && seenIdx != usedIdx
      modifies this`busy, this`seenIdx, this`pending, this`reqs
      ensures Inv(S()) && S() == Seen(old(S())) && old(pending) != [] && pending == old(pending)[1..]
    {
      hide ReqOk, FreeOk, Apart, QueueAt, UsedAt, Indices;
      SeenInv(S());
      var id := used[seenIdx % NUM];
      assert status[id] == 0;  // no "virtio_disk_intr status" panic
      busy := busy - {bufOf[id]};
      seenIdx := (seenIdx + 1) % WRAP;
      pending, reqs := pending[1..], reqs[id := reqs[id].(phase := Done)];
    }

    /** The interrupt handler: every completion in the used ring is handed to its buffer. */
    method Intr()
      requires Inv(S())
      modifies this`busy, this`seenIdx, this`pending, this`reqs
      ensures Inv(S()) && pending == [] && seenIdx == usedIdx
      ensures forall h | h in reqs :: reqs[h].phase != Used
    {
      hide ReqOk, FreeOk, Apart, QueueAt, UsedAt;
      while seenIdx != usedIdx
        invariant Inv(S())
        decreases |pending|
      {
        IntrOne();
      }
      AllSeen(S());
    }

    lemma AllSeen(s: St)
      requires Inv(s) && s.seenIdx == s.usedIdx
      ensures s.pending == []
    {
      hide ReqOk, FreeOk, Apart, QueueAt, UsedAt;
      ShortQueues(s);
      IndicesTell(s.fins - |s.pending|, |s.pending|);
    }

    /** The end of virtio_disk_rw, once its buffer is no longer busy: its own request is finished. */
    method Finish(h: nat)
      requires Inv(S()) && h in reqs && reqs[h].buf !in busy
      modifies this
      ensures Inv(S()) && old(h < NUM && reqs[h].mid < NUM && reqs[h].tail < NUM) && S() == Freed(old(S()), h)
      ensures old(reqs[h].id) in completed
    {
      hide FreeOk, Apart, QueueAt, UsedAt, Indices, ReqOk, Inv, Freed, Shape;
      ghost var s := S();
      HasShape(s);
      DoneReq(s, h);
      FreedInv(s, h);
      ChainLinks(s, h);
      FreeRequest(h, s.reqs[h].mid, s.reqs[h].tail);
      FreedIs(s, S(), h);
    }

    /** disk.info[idx[0]].b = 0; free_chain(idx[0]); */
    method FreeRequest(h: nat, ghost mid: nat, ghost tail: nat)
      requires |free| == |desc| == |bufOf| == NUM && h < NUM && mid < NUM && tail < NUM
      requires h != mid && h != tail && mid != tail && !free[h] && !free[mid] && !free[tail]
      requires desc[h].more && desc[h].next == mid && desc[mid].more && desc[mid].next == tail && !desc[tail].more
      modifies this`free, this`desc, this`bufOf, this`reqs
      ensures free == old(free)[h := true][mid := true][tail := true]
      ensures var none := Desc(Nowhere, 0, false, false); desc == old(desc)[h := none][mid := none][tail := none]
      ensures bufOf == old(bufOf)[h := 0] && reqs == old(reqs) - {h}
    {
      bufOf := bufOf[h := 0];
      FreeChain(h, mid, tail);
      reqs := reqs - {h};
    }

    lemma FreedIs(s: St, t: St, h: nat)
      requires Shape(s) && h in s.reqs && h < NUM && s.reqs[h].mid < NUM && s.reqs[h].tail < NUM
      requires t.free == s.free[h := true][s.reqs[h].mid := true][s.reqs[h].tail := true]
      requires var none := Desc(Nowhere, 0, false, false);
               t.desc == s.desc[h := none][s.reqs[h].mid := none][s.reqs[h].tail := none]
      requires t == s.(bufOf := s.bufOf[h := 0], free := t.free, desc := t.desc, reqs := s.reqs - {h})
      ensures t == Freed(s, h)
    {
    }

    /** Frees a chain, following the descriptors' own links. */
    method FreeChain(head: nat, ghost mid: nat, ghost tail: nat)
      requires |free| == |desc| == NUM && head < NUM && mid < NUM && tail < NUM && head != mid && head != tail
      requires mid != tail
      requires !free[head] && !free[mid] && !free[tail]
      requires desc[head].more && desc[head].next == mid && desc[mid].more && desc[mid].next == tail && !desc[tail].more
      modifies this`free, this`desc
      ensures free == old(free)[head := true][mid := true][tail := true]
      ensures var none := Desc(Nowhere, 0, false, false); desc == old(desc)[head := none][mid := none][tail := none]
    {
      ghost var none := Desc(Nowhere, 0, false, false);
      var i := head;
      ghost var k := 0;
      while true
        invariant 0 <= k < 3 && i == [head, mid, tail][k]
        invariant free == if k == 0 then old(free) else if k == 1 then old(free)[head := true]
                  else old(free)[head := true][mid := true]
        invariant desc == if k == 0 then old(desc) else if k == 1 then old(desc)[head := none]
                  else old(desc)[head := none][mid := none]
        decreases 3 - k
      {
        var more, nxt := desc[i].more, desc[i].next;
        FreeDesc(i);
        if more {
          i, k := nxt, k + 1;
        } else {
          break;
        }
      }
    }

    lemma HasShape(s: St)
      requires Inv(s)
      ensures Shape(s)
    {
    }

    lemma ChainLinks(s: St, h: nat)
      requires Inv(s) && h in s.reqs
      ensures h < NUM && s.reqs[h].mid < NUM && s.reqs[h].tail < NUM && h != s.reqs[h].mid && h != s.reqs[h].tail
      ensures s.reqs[h].mid != s.reqs[h].tail && |s.free| == |s.desc| == |s.bufOf| == NUM
      ensures !s.free[h] && !s.free[s.reqs[h].mid] && !s.free[s.reqs[h].tail]
      ensures s.desc[h].more && s.desc[h].next == s.reqs[h].mid && s.desc[h].addr == OpAt(h)
      ensures s.desc[s.reqs[h].mid].more && s.desc[s.reqs[h].mid].next == s.reqs[h].tail
      ensures s.desc[s.reqs[h].mid].addr.DataOf?
      ensures !s.desc[s.reqs[h].tail].more && s.desc[s.reqs[h].tail].addr == StatusAt(h)
    {
      assert ReqOk(s, h);
    }
  }
}
