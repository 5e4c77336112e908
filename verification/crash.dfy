/** Crash safety of the log: any crash, between any two block writes of a commit or of a
    recovery, and any number of interrupted recoveries. */
module Crash {
  import opened Params
  import opened Disks
  import opened Lru
  import opened Bcaches
  import opened LogImages
  import opened Logs

  /** The disk after the first k writes of a trace. */
  function After(d: Image, trace: seq<Image>, k: nat): Image {
    if k == 0 || trace == [] then d else if k <= |trace| then trace[k - 1] else trace[|trace| - 1]
  }

  lemma {:induction false} WriteLogTraceAt(d: Image, start: nat, src: seq<Block>, n: nat, k: nat)
    requires k <= n <= |src| && start + n < |d|
    ensures |WriteLogTrace(d, start, src, n)| == n
    ensures After(d, WriteLogTrace(d, start, src, n), k) == Appended(d, start, src, k)
  {
    if k < n {
      WriteLogTraceAt(d, start, src, n - 1, k);
    } else if n > 0 {
      WriteLogTraceAt(d, start, src, n - 1, 0);
    }
  }

  lemma {:induction false} InstallTraceAt(d: Image, start: nat, bl: seq<int>, n: nat, k: nat)
    requires k <= n <= |bl| && Layout(d, start) && HomeList(|d|, start, bl)
    ensures |InstallTrace(d, start, bl, n)| == n
    ensures After(d, InstallTrace(d, start, bl, n), k) == Installed(d, start, bl, k)
  {
    if k < n {
      InstallTraceAt(d, start, bl, n - 1, k);
    } else if n > 0 {
      InstallTraceAt(d, start, bl, n - 1, 0);
    }
  }

  /** Installing a prefix of the header's list keeps the header and what recovery will produce. */
  lemma PartlyInstalled(d: Image, start: nat, k: nat)
    requires HeaderOk(d, start) && k <= |Header(d, start)|
    ensures var e := Installed(d, start, Header(d, start), k);
            HeaderOk(e, start) && Header(e, start) == Header(d, start)
            && SameHome(Recovered(e, start), Recovered(d, start), start)
  {
    var bl := Header(d, start);
    InstalledLayout(d, start, bl, k);
    forall b: nat | b < |d|
      ensures Installed(Installed(d, start, bl, k), start, bl, |bl|)[b] == Installed(d, start, bl, |bl|)[b]
    {
      InstallTwice(d, start, bl, k, |bl|, b);
    }
  }

  /** Erasing the header after everything is installed keeps what recovery will produce. */
  lemma HeaderErased(d: Image, start: nat)
    requires HeaderOk(d, start)
    ensures var e := Cleared(Recovered(d, start), start);
            HeaderOk(e, start) && Header(e, start) == [] && SameHome(Recovered(e, start), Recovered(d, start), start)
  {
  }

  /** Every state of the disk during a recovery leads to the same recovered home blocks. */
  lemma RecoveryCrash(d: Image, start: nat, k: nat)
    requires HeaderOk(d, start)
    ensures var e := After(d, RecoveryTrace(d, start), k);
            HeaderOk(e, start) && SameHome(Recovered(e, start), Recovered(d, start), start)
            && (k >= |RecoveryTrace(d, start)| ==> Header(e, start) == [])
  {
    var bl := Header(d, start);
    InstallTraceAt(d, start, bl, |bl|, if k <= |bl| then k else 0);
    PartlyInstalled(d, start, if k <= |bl| then k else 0);
    HeaderErased(d, start);
  }

  /** Until the header is written, the log slots do not matter. */
  lemma LogSlotsIgnored(d: Image, start: nat, src: seq<Block>, k: nat)
    requires HeaderOk(d, start) && Header(d, start) == [] && k <= |src| <= LOGBLOCKS
    requires forall i | 0 <= i < |src| :: |src[i]| == WORDS
    ensures var e := Appended(d, start, src, k);
            HeaderOk(e, start) && Header(e, start) == [] && SameHome(Recovered(e, start), d, start)
  {
    forall b: nat | b < |d|
      ensures Appended(d, start, src, k)[b] == if start < b <= start + k then src[b - start - 1] else d[b]
    {
      AppendedAt(d, start, src, k, b);
    }
  }

  /** The committed header makes recovery produce the new contents. */
  lemma CommitPoint(d: Image, start: nat, view: Image, bl: seq<int>)
    requires Layout(d, start) && HomeList(|d|, start, bl) && Layout(view, start) && |view| == |d| && Distinct(bl)
    requires forall b | Home(|d|, start, b) && b !in bl :: view[b] == d[b]
    ensures var c := CommittedImage(d, start, view, bl);
            HeaderOk(c, start) && Header(c, start) == bl && SameHome(Recovered(c, start), view, start)
  {
    var c := CommittedImage(d, start, view, bl);
    assert c[start][1..1 + |bl|] == bl;
    forall b: nat | Home(|d|, start, b) ensures Installed(c, start, bl, |bl|)[b] == view[b] {
      CommittedAt(d, start, view, bl, b);
    }
  }

  lemma CommittedAt(d: Image, start: nat, view: Image, bl: seq<int>, b: nat)
    requires Layout(d, start) && HomeList(|d|, start, bl) && Layout(view, start) && |view| == |d|
    requires Home(|d|, start, b) && (b !in bl ==> view[b] == d[b])
    ensures Installed(CommittedImage(d, start, view, bl), start, bl, |bl|)[b] == view[b]
  {
    hide Installed, Appended;
    var c, n := CommittedImage(d, start, view, bl), |bl|;
    AppendedAt(d, start, Gather(view, bl), n, b);
    if b in bl {
      assert bl[..n] == bl;
      var i := FindLast(bl, n, b);
      AppendedAt(d, start, Gather(view, bl), n, start + 1 + i);
      InstalledAt(c, start, bl, n, i);
    } else {
      InstalledElsewhere(c, start, bl, n, b);
    }
  }

  lemma NothingLogged(d: Image, start: nat)
    requires HeaderOk(d, start) && Header(d, start) == []
    ensures Recovered(d, start) == d
  {
  }

  lemma AfterFour(d: Image, a: seq<Image>, c: Image, b: seq<Image>, last: Image, k: nat)
    ensures After(d, a + [c] + b + [last], k) ==
            if k <= |a| then After(d, a, k) else if k <= |a| + 1 + |b| then After(c, b, k - |a| - 1) else last
  {
  }

  /** The states of a commit: i log slots written; header written and j blocks installed; header erased. */
  lemma CommitStates(d: Image, start: nat, view: Image, bl: seq<int>, i: nat, j: nat)
    requires HeaderOk(d, start) && Header(d, start) == [] && i <= |bl| && j <= |bl|
    requires HomeList(|d|, start, bl) && Layout(view, start) && |view| == |d| && Distinct(bl)
    requires forall b | Home(|d|, start, b) && b !in bl :: view[b] == d[b]
    ensures var e := Appended(d, start, Gather(view, bl), i);
            HeaderOk(e, start) && SameHome(Recovered(e, start), d, start)
    ensures var c := CommittedImage(d, start, view, bl);
            && (var e := Installed(c, start, bl, j); HeaderOk(e, start) && SameHome(Recovered(e, start), view, start))
            && Layout(Installed(c, start, bl, |bl|), start)
            && (var e := Cleared(Installed(c, start, bl, |bl|), start);
                HeaderOk(e, start) && Header(e, start) == [] && SameHome(Recovered(e, start), view, start))
  {
    hide Installed, Appended, CommittedImage;
    LogSlotsIgnored(d, start, Gather(view, bl), i);
    CommitPoint(d, start, view, bl);
    PartlyInstalled(CommittedImage(d, start, view, bl), start, j);
    HeaderErased(CommittedImage(d, start, view, bl), start);
  }

  /** All or nothing: before the header write recovery gives the old home blocks, from the header
      write on it gives the new ones. */
  lemma CommitCrash(d: Image, start: nat, view: Image, bl: seq<int>, k: nat)
    requires HeaderOk(d, start) && Header(d, start) == []
    requires HomeList(|d|, start, bl) && Layout(view, start) && |view| == |d| && Distinct(bl)
    requires forall b | Home(|d|, start, b) && b !in bl :: view[b] == d[b]
    ensures var e := After(d, CommitTrace(d, start, view, bl), k);
            HeaderOk(e, start) && SameHome(Recovered(e, start), if k <= |bl| then d else view, start)
            && (k >= |CommitTrace(d, start, view, bl)| ==> Header(e, start) == [])
  {
    hide Installed, Appended, InstallTrace, WriteLogTrace, CommittedImage;
    NothingLogged(d, start);
    if bl != [] {
      var n, src, c := |bl|, Gather(view, bl), CommittedImage(d, start, view, bl);
      InstalledLayout(c, start, bl, n);
      WriteLogTraceAt(d, start, src, n, if k <= n then k else n);
      var j := if n < k <= 2 * n + 1 then k - n - 1 else n;
      InstallTraceAt(c, start, bl, n, j);
      var last := Cleared(Installed(c, start, bl, n), start);
      AfterFour(d, WriteLogTrace(d, start, src, n), c, InstallTrace(c, start, bl, n), last, k);
      CommitStates(d, start, view, bl, if k <= n then k else n, j);
    }
  }

  /** A group of home block updates that one commit writes. */
  datatype Group = Group(bl: seq<int>, data: seq<Block>)

  ghost predicate GroupOk(g: Group, size: nat, start: nat) {
    HomeList(size, start, g.bl) && Distinct(g.bl) && |g.data| == |g.bl|
    && forall i | 0 <= i < |g.data| :: |g.data[i]| == WORDS
  }

  ghost function Applied(d: Image, g: Group, k: nat): (r: Image)
    requires k <= |g.bl| == |g.data| && forall i | 0 <= i < |g.bl| :: 0 <= g.bl[i] < |d|
    ensures |r| == |d|
  {
    if k == 0 then d else Applied(d, g, k - 1)[g.bl[k - 1] := g.data[k - 1]]
  }

  /** Commit(g, cut) performs the first `cut` disk writes of committing g, Recover(cut) those of a
      recovery; a cut short of the whole trace is a crash.  Crash loses power between them. */
  datatype Event = Commit(g: Group, cut: nat) | Recover(cut: nat) | PowerLoss

  ghost function Trace(d: Image, start: nat, e: Event): seq<Image>
    requires HeaderOk(d, start) && (e.Commit? ==> GroupOk(e.g, |d|, start))
  {
    match e
    case Commit(g, _) => AppliedAt(d, start, g); CommitTrace(d, start, Applied(d, g, |g.bl|), g.bl)
    case Recover(_) => RecoveryTrace(d, start)
    case PowerLoss => []
  }

  lemma {:induction false} AppliedTo(d: Image, g: Group, k: nat, b: nat)
    requires k <= |g.bl| == |g.data| && (forall i | 0 <= i < |g.bl| :: 0 <= g.bl[i] < |d|) && Distinct(g.bl) && b < |d|
    ensures b !in g.bl[..k] ==> Applied(d, g, k)[b] == d[b]
    ensures forall i | 0 <= i < k && g.bl[i] == b :: Applied(d, g, k)[b] == g.data[i]
  {
    if k > 0 {
      AppliedTo(d, g, k - 1, b);
      assert g.bl[..k] == g.bl[..k - 1] + [g.bl[k - 1]];
    }
  }

  lemma AppliedAt(d: Image, start: nat, g: Group)
    requires Layout(d, start) && GroupOk(g, |d|, start)
    ensures Layout(Applied(d, g, |g.bl|), start)
    ensures forall b: nat | b < |d| && b !in g.bl :: Applied(d, g, |g.bl|)[b] == d[b]
    ensures forall i | 0 <= i < |g.bl| :: Applied(d, g, |g.bl|)[g.bl[i]] == g.data[i]
  {
    assert g.bl[..|g.bl|] == g.bl;
    forall b: nat | b < |d|
      ensures b !in g.bl ==> Applied(d, g, |g.bl|)[b] == d[b]
      ensures forall i | 0 <= i < |g.bl| && g.bl[i] == b :: Applied(d, g, |g.bl|)[b] == g.data[i]
    {
      AppliedTo(d, g, |g.bl|, b);
    }
  }

  /** Committing what a log has gathered is committing a group: the same disk writes, and the group
      turns the home blocks on disk into the latest contents. */
  lemma LogIsGroup(log: Log, cut: nat) returns (g: Group)
    requires log.Valid() && log.AllLogged()
    ensures var d, v, bl := log.cache.disk.image, log.cache.view, log.block[..log.n];
      && HeaderOk(d, log.start) && Header(d, log.start) == [] && |v| == |d|
      && g == Group(bl, Gather(v, bl)) && GroupOk(g, |d|, log.start) && SameHome(Applied(d, g, |bl|), v, log.start)
      && Trace(d, log.start, Commit(g, cut)) == CommitTrace(d, log.start, v, bl)
  {
    hide Bcache.Shape, Installed, Appended, InstallTrace, WriteLogTrace, CommitTrace, Applied;
    var d, v, bl := log.cache.disk.image, log.cache.view, log.block[..log.n];
    log.LogAreaOnDisk();
    g := Group(bl, Gather(v, bl));
    AppliedAt(d, log.start, g);
    var w := Applied(d, g, |bl|);
    assert Gather(w, bl) == Gather(v, bl);
    SameTrace(d, log.start, v, w, bl);
    forall b | Home(|d|, log.start, b) ensures w[b] == v[b] {
      if b in bl {
        var i :| 0 <= i < |bl| && bl[i] == b;
        assert w[bl[i]] == g.data[i];
      }
    }
  }

  /** A commit's writes depend on the latest contents of the listed blocks only. */
  lemma SameTrace(d: Image, start: nat, v: Image, w: Image, bl: seq<int>)
    requires Layout(d, start) && HomeList(|d|, start, bl) && Layout(v, start) && Layout(w, start) && |v| == |w| == |d|
    requires Gather(v, bl) == Gather(w, bl)
    ensures CommitTrace(d, start, v, bl) == CommitTrace(d, start, w, bl)
  {
  }

  /** The end_op that commits, cut short after any number of its disk writes: a recovery then finds
      either what was on disk before it, or all that the operations of the group have written. */
  lemma EndOpIsAtomic(log: Log, cut: nat)
    requires log.Valid() && log.AllLogged()
    ensures var d, v, bl := log.cache.disk.image, log.cache.view, log.block[..log.n];
      && HomeList(|d|, log.start, bl) && Layout(v, log.start) && Layout(d, log.start) && |v| == |d|
      && var e := After(d, CommitTrace(d, log.start, v, bl), cut);
         HeaderOk(e, log.start) && SameHome(Recovered(e, log.start), if cut <= |bl| then d else v, log.start)
  {
    hide Bcache.Shape, Installed, Appended, InstallTrace, WriteLogTrace, CommitTrace;
    log.LogAreaOnDisk();
    CommitCrash(log.cache.disk.image, log.start, log.cache.view, log.block[..log.n], cut);
  }

  datatype System = System(disk: Image, up: bool)

  /** Commits happen only in a system that has finished recovering. */
  ghost predicate Enabled(s: System, start: nat, e: Event) {
    HeaderOk(s.disk, start) && (e.Commit? ==> s.up && GroupOk(e.g, |s.disk|, start))
  }

  ghost function Step(s: System, start: nat, e: Event): System
    requires Enabled(s, start, e)
  {
    var trace := Trace(s.disk, start, e);
    match e
    case Commit(_, cut) => System(After(s.disk, trace, cut), cut >= |trace|)
    case Recover(cut) => System(After(s.disk, trace, cut), cut >= |trace|)
    case PowerLoss => System(s.disk, false)
  }

  ghost predicate Runnable(s: System, start: nat, es: seq<Event>)
    decreases |es|
  {
    es == [] || (Enabled(s, start, es[0]) && Runnable(Step(s, start, es[0]), start, es[1..]))
  }

  ghost function Run(s: System, start: nat, es: seq<Event>): System
    requires Runnable(s, start, es)
    decreases |es|
  {
    if es == [] then s else Run(Step(s, start, es[0]), start, es[1..])
  }

  ghost predicate GroupsOk(es: seq<Event>, size: nat, start: nat) {
    forall e | e in es && e.Commit? :: GroupOk(e.g, size, start)
  }

  /** What the file system should contain: each group takes effect exactly when its header was written. */
  ghost function Expected(h: Image, start: nat, es: seq<Event>): Image
    requires GroupsOk(es, |h|, start)
    decreases |es|
  {
    if es == [] then h
    else if es[0].Commit? && es[0].cut > |es[0].g.bl| then
      Expected(Applied(h, es[0].g, |es[0].g.bl|), start, es[1..])
    else Expected(h, start, es[1..])
  }

  /** The disk stands for h, and a running system has an empty log header. */
  ghost predicate Stands(s: System, start: nat, h: Image) {
    HeaderOk(s.disk, start) && SameHome(Recovered(s.disk, start), h, start) && (s.up ==> Header(s.disk, start) == [])
  }

  lemma StepStands(s: System, start: nat, e: Event, h: Image)
    requires Stands(s, start, h) && Enabled(s, start, e)
    ensures |Step(s, start, e).disk| == |s.disk|
    ensures if e.Commit? && e.cut > |e.g.bl| then Stands(Step(s, start, e), start, Applied(h, e.g, |e.g.bl|))
            else Stands(Step(s, start, e), start, h)
  {
    match e
    case Commit(g, cut) =>
      var n, d := |g.bl|, s.disk;
      AppliedAt(d, start, g);
      CommitCrash(d, start, Applied(d, g, n), g.bl, cut);
      forall b | Home(|d|, start, b) ensures Applied(d, g, n)[b] == if b in g.bl then Applied(h, g, n)[b] else h[b] {
        assert g.bl[..n] == g.bl;
        AppliedTo(d, g, n, b);
        AppliedTo(h, g, n, b);
      }
      forall b | Home(|d|, start, b) ensures Applied(d, g, n)[b] == Applied(h, g, n)[b] {
        assert g.bl[..n] == g.bl;
        AppliedTo(h, g, n, b);
      }
    case Recover(cut) => RecoveryCrash(s.disk, start, cut);
    case PowerLoss =>
  }

  /** Crash atomicity over whole runs. */
  lemma {:induction false} RunIsAtomic(s: System, start: nat, es: seq<Event>, h: Image)
    requires Stands(s, start, h) && Runnable(s, start, es)
    ensures GroupsOk(es, |h|, start)
    ensures Stands(Run(s, start, es), start, Expected(h, start, es))
    decreases |es|
  {
    if es != [] {
      StepStands(s, start, es[0], h);
      var h' := if es[0].Commit? && es[0].cut > |es[0].g.bl| then Applied(h, es[0].g, |es[0].g.bl|) else h;
      RunIsAtomic(Step(s, start, es[0]), start, es[1..], h');
      assert es == [es[0]] + es[1..];
    }
  }
}
