/** Pipes: a ring of PIPESIZE bytes with 32-bit counters. */
module Pipes {
  const PIPESIZE: nat := 512
  const TWO32: nat := 0x1_0000_0000

  /** data, nread and nwrite are the pipe's; written and consumed are all bytes that ever went in and out. */
  datatype Ring = Ring(data: seq<nat>, nread: nat, nwrite: nat, written: seq<nat>, consumed: seq<nat>)

  /** What has come out is the beginning of what went in, and the rest is in the ring. */
  ghost predicate Inv(r: Ring) {
    && |r.data| == PIPESIZE && r.consumed <= r.written && |r.written| - |r.consumed| <= PIPESIZE
    && r.nread == |r.consumed| % TWO32 && r.nwrite == |r.written| % TWO32
    && forall k: nat | |r.consumed| <= k < |r.written| :: InRing(r, k)
  }

  predicate InRing(r: Ring, k: nat)
    requires |r.data| == PIPESIZE && k < |r.written|
  {
    r.data[k % PIPESIZE] == r.written[k]
  }

  predicate Full(r: Ring) { r.nwrite == (r.nread + PIPESIZE) % TWO32 }
  predicate Empty(r: Ring) { r.nread == r.nwrite }

  /** The tests on wrapped counters tell the true occupancy, because PIPESIZE divides 2^32. */
  lemma TestsTell(r: Ring)
    requires Inv(r)
    ensures Full(r) <==> |r.written| - |r.consumed| == PIPESIZE
    ensures Empty(r) <==> |r.written| == |r.consumed|
    ensures r.nwrite % PIPESIZE == |r.written| % PIPESIZE && r.nread % PIPESIZE == |r.consumed| % PIPESIZE
  {
    Wrap(|r.consumed|, |r.written| - |r.consumed|);
    Slot(|r.written|);
    Slot(|r.consumed|);
  }

  lemma Wrap(a: nat, d: nat)
    requires d <= PIPESIZE
    ensures (a + d) % TWO32 == (a % TWO32 + PIPESIZE) % TWO32 <==> d == PIPESIZE
    ensures (a + d) % TWO32 == a % TWO32 <==> d == 0
  {
    var q, m := a / TWO32, a % TWO32;
    assert a == q * TWO32 + m;
    assert (a + d) % TWO32 == if m + d < TWO32 then m + d else m + d - TWO32 by {
      Mod(q, m + d);
    }
    assert (m + PIPESIZE) % TWO32 == if m + PIPESIZE < TWO32 then m + PIPESIZE else m + PIPESIZE - TWO32;
  }

  lemma Mod(q: nat, x: nat)
    requires x < 2 * TWO32
    ensures (q * TWO32 + x) % TWO32 == if x < TWO32 then x else x - TWO32
  {
  }

  lemma Slot(a: nat)
    ensures a % TWO32 % PIPESIZE == a % PIPESIZE
  {
    var q, m := a / TWO32, a % TWO32;
    assert a == (q * (TWO32 / PIPESIZE)) * PIPESIZE + m;
    SlotMod(q * (TWO32 / PIPESIZE), m);
  }

  lemma SlotMod(q: nat, m: nat)
    ensures (q * PIPESIZE + m) % PIPESIZE == m % PIPESIZE
  {
  }

  /** pi->data[pi->nwrite++ % PIPESIZE] = ch */
  function Put(r: Ring, ch: nat): Ring
    requires |r.data| == PIPESIZE
  {
    r.(data := r.data[r.nwrite % PIPESIZE := ch], nwrite := (r.nwrite + 1) % TWO32, written := r.written + [ch])
  }

  /** ch = pi->data[pi->nread++ % PIPESIZE] */
  function Got(r: Ring): Ring
    requires |r.data| == PIPESIZE
  {
    r.(nread := (r.nread + 1) % TWO32, consumed := r.consumed + [r.data[r.nread % PIPESIZE]])
  }

  lemma PutInv(r: Ring, ch: nat)
    requires Inv(r) && !Full(r)
    ensures Inv(Put(r, ch))
  {
    TestsTell(r);
    var t := Put(r, ch);
    Next(|r.written|);
    forall k: nat | |t.consumed| <= k < |t.written| ensures InRing(t, k) {
      if k < |r.written| {
        assert InRing(r, k);
        SlotsApart(k, |r.written|);
      }
    }
  }

  lemma Next(a: nat)
    ensures (a % TWO32 + 1) % TWO32 == (a + 1) % TWO32
  {
  }

  lemma SlotsApart(a: nat, b: nat)
    requires a < b < a + PIPESIZE
    ensures a % PIPESIZE != b % PIPESIZE
  {
  }

  /** The byte that comes out is the oldest one not yet consumed. */
  lemma GotInv(r: Ring)
    requires Inv(r) && !Empty(r)
    ensures Inv(Got(r)) && |r.consumed| < |r.written| && Got(r).consumed == r.consumed + [r.written[|r.consumed|]]
  {
    TestsTell(r);
    var t := Got(r);
    Next(|r.consumed|);
    assert InRing(r, |r.consumed|);
    assert r.written[..|r.consumed|] == r.consumed;
    assert t.consumed == r.written[..|r.consumed| + 1];
    forall k: nat | |t.consumed| <= k < |t.written| ensures InRing(t, k) {
      assert InRing(r, k);
    }
  }

  /** One byte written or read, by whichever process holds the lock. */
  datatype Step = In(ch: nat) | Out

  predicate Enabled(r: Ring, e: Step) { if e.In? then !Full(r) else !Empty(r) }

  ghost function After(r: Ring, es: seq<Step>): (t: Ring)
    requires Inv(r)
    ensures Inv(t)
    decreases |es|
  {
    if es == [] || !Enabled(r, es[0]) then r
    else if es[0].In? then (PutInv(r, es[0].ch); After(Put(r, es[0].ch), es[1..]))
    else (GotInv(r); After(Got(r), es[1..]))
  }

  function New(data: seq<nat>): Ring { Ring(data, 0, 0, [], []) }

  /** In every interleaving of reads and writes the consumed bytes are a prefix of the written ones,
      at most PIPESIZE behind, however often the counters wrap. */
  lemma Fifo(data: seq<nat>, es: seq<Step>)
    requires |data| == PIPESIZE
    ensures Inv(New(data))
    ensures After(New(data), es).consumed <= After(New(data), es).written
    ensures |After(New(data), es).written| <= |After(New(data), es).consumed| + PIPESIZE
  {
    assert Inv(After(New(data), es));
  }

  datatype Outcome = Finished | Asleep | Killed

  class Pipe {
    var data: seq<nat>
    var nread: nat
    var nwrite: nat
    var readopen: bool
    var writeopen: bool
    ghost var written: seq<nat>
    ghost var consumed: seq<nat>

    ghost function R(): Ring
      reads this
    {
      Ring(data, nread, nwrite, written, consumed)
    }

    constructor (data: seq<nat>)
      requires |data| == PIPESIZE
      ensures R() == New(data) && Inv(R()) && readopen && writeopen
    {
      this.data, nread, nwrite, readopen, writeopen := data, 0, 0, true, true;
      written, consumed := [], [];
    }

    /** What pipewrite does between taking the lock, or waking up, and the next time it gives the lock
        up: from its i-th byte on it writes up to byte i'.  Only the first `good` bytes can be copied in.
        The process may be killed at any time: the tests before byte `dies` and later ones find it so. */
    method Write(src: seq<nat>, i: nat, good: nat, dies: nat) returns (i': nat, out: Outcome)
      requires Inv(R()) && i <= |src|
      modifies this`data, this`nwrite, this`written
      ensures Inv(R()) && i <= i' <= |src| && written == old(written) + src[i..i']
      ensures out == Killed ==> i' < |src| && i' == if !readopen || dies < i then i else dies
      ensures out == Asleep ==> i' < |src| && i' < dies && readopen && |written| - |consumed| == PIPESIZE
      ensures out == Finished ==> i' == |src| || (good <= i' < dies && readopen)
      ensures i' < |src| && i' < good && i' < dies && readopen ==> out == Asleep
    {
      i' := i;
      while i' < |src|
        invariant i <= i' <= |src| && Inv(R()) && written == old(written) + src[i..i']
        invariant i' > i ==> readopen && i' <= dies && i' <= good
      {
        if !readopen || dies <= i' {
          return i', Killed;
        }
        TestsTell(R());
        if nwrite == (nread + PIPESIZE) % TWO32 {
          return i', Asleep;
        }
        if i' >= good {
          break;
        }
        PutInv(R(), src[i']);
        ghost var r := R();
        data := data[nwrite % PIPESIZE := src[i']];
        nwrite := (nwrite + 1) % TWO32;
        written := written + [src[i']];
        assert R() == Put(r, src[i']);
        assert src[i..i' + 1] == src[i..i'] + [src[i']];
        i' := i' + 1;
      }
      return i', Finished;
    }

    /** The oldest byte leaves the ring. */
    method Take() returns (ch: nat)
      requires Inv(R()) && !Empty(R())
      modifies this`nread, this`consumed
      ensures Inv(R()) && |old(consumed)| < |written| && ch == written[|old(consumed)|]
      ensures consumed == old(consumed) + [ch]
    {
      GotInv(R());
      ghost var r := R();
      ch := data[nread % PIPESIZE];
      nread := (nread + 1) % TWO32;
      consumed := consumed + [ch];
      assert R() == Got(r);
    }

    /** The same for piperead, of n bytes into room for `room`: `taken` bytes leave the pipe, of which
        all are delivered, or all but one when the copy out fails. */
    method Read(n: nat, room: nat, killed: bool) returns (got: seq<nat>, ghost taken: nat, out: Outcome)
      requires Inv(R())
      modifies this`nread, this`consumed
      ensures Inv(R()) && |old(consumed)| + taken <= |written|
      ensures consumed == old(consumed) + written[|old(consumed)|..|old(consumed)| + taken]
      ensures out != Finished ==>
                taken == 0 && got == [] && |written| == |consumed| && writeopen && (out == Killed <==> killed)
      ensures out == Finished ==>
                && |got| <= taken && |got| <= n && |got| <= room
                && got == written[|old(consumed)|..|old(consumed)| + |got|]
                && taken ==
                   (if |got| < n && |got| == room && |old(consumed)| + room < |written| then |got| + 1 else |got|)
                && (|got| == n || |got| == room || |consumed| == |written|)
    {
      hide Inv;
      got, taken := [], 0;
      TestsTell(R());
      Behind(R());
      if nread == nwrite && writeopen {
        return [], 0, if killed then Killed else Asleep;
      }
      ghost var base := |consumed|;
      var i := 0;
      while i < n
        invariant Inv(R()) && 0 <= i <= n && i == |got| == taken && i <= room && base + i <= |written|
        invariant got == written[base..base + i] && consumed == old(consumed) + got
      {
        TestsTell(R());
        if nread == nwrite {
          break;
        }
        var ch := Take();
        taken := taken + 1;
        assert written[base..base + i] + [ch] == written[base..base + i + 1];
        Behind(R());
        if i >= room {
          break;
        }
        got := got + [ch];
        i := i + 1;
      }
      return got, taken, Finished;
    }

    lemma Behind(r: Ring)
      requires Inv(r)
      ensures |r.consumed| <= |r.written|
    {
    }

    /** pipeclose of one end. */
    method Close(writable: bool)
      requires Inv(R())
      modifies this`readopen, this`writeopen
      ensures Inv(R()) && R() == old(R())
      ensures if writable then !writeopen && readopen == old(readopen) else !readopen && writeopen == old(writeopen)
    {
      if writable {
        writeopen := false;
      } else {
        readopen := false;
      }
    }
  }
}
