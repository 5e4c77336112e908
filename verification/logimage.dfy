/** Disk images as the write-ahead log leaves them.  The header block `start` holds a count n
    followed by n home block numbers; blocks start+1.. hold the new contents of those blocks. */
module LogImages {
  import opened Params
  import opened Disks

  /** b is a block of the disk that is not in the log area. */
  predicate Home(size: nat, start: nat, b: int) {
    0 <= b < size && !(start <= b <= start + LOGBLOCKS)
  }

  predicate HomeList(size: nat, start: nat, bl: seq<int>) {
    |bl| <= LOGBLOCKS && forall i | 0 <= i < |bl| :: Home(size, start, bl[i])
  }

  predicate Layout(d: Image, start: nat) {
    start + LOGBLOCKS < |d| && forall b | 0 <= b < |d| :: |d[b]| == WORDS
  }

  /** struct logheader stored over the first words of a block; the other words stay. */
  function PutHeader(b: Block, bl: seq<int>): Block
    requires |b| == WORDS && |bl| <= LOGBLOCKS
  {
    [|bl|] + bl + b[1 + |bl|..]
  }

  predicate HeaderOk(d: Image, start: nat) {
    && Layout(d, start)
    && 0 <= d[start][0] <= LOGBLOCKS
    && HomeList(|d|, start, d[start][1..1 + d[start][0]])
  }

  function Header(d: Image, start: nat): seq<int>
    requires HeaderOk(d, start)
  {
    d[start][1..1 + d[start][0]]
  }

  /** The first k log slots hold src[..k]. */
  function Appended(d: Image, start: nat, src: seq<Block>, k: nat): (r: Image)
    requires k <= |src| && start + k < |d|
    ensures |r| == |d|
  {
    if k == 0 then d else Appended(d, start, src, k - 1)[start + k := src[k - 1]]
  }

  /** The first k logged blocks are copied to their home locations. */
  function Installed(d: Image, start: nat, bl: seq<int>, k: nat): (r: Image)
    requires k <= |bl| && Layout(d, start) && HomeList(|d|, start, bl)
    ensures |r| == |d|
  {
    if k == 0 then d else Installed(d, start, bl, k - 1)[bl[k - 1] := d[start + k]]
  }

  ghost predicate SameHome(d: Image, e: Image, start: nat) {
    |d| == |e| && forall b | Home(|d|, start, b) :: d[b] == e[b]
  }

  lemma {:induction false} AppendedAt(d: Image, start: nat, src: seq<Block>, k: nat, b: nat)
    requires k <= |src| && start + k < |d| && b < |d|
    ensures Appended(d, start, src, k)[b] == if start < b <= start + k then src[b - start - 1] else d[b]
  {
    if k > 0 {
      AppendedAt(d, start, src, k - 1, b);
    }
  }

  /** Position i is the last mention of its block among the first k. */
  ghost predicate LastMention(bl: seq<int>, k: nat, i: nat)
    requires k <= |bl|
  {
    i < k && forall j | i < j < k :: bl[j] != bl[i]
  }

  /** Installing leaves unlisted blocks alone. */
  lemma {:induction false} InstalledElsewhere(d: Image, start: nat, bl: seq<int>, k: nat, b: nat)
    requires k <= |bl| && Layout(d, start) && HomeList(|d|, start, bl) && b < |d|
    requires forall j | 0 <= j < k :: bl[j] != b
    ensures Installed(d, start, bl, k)[b] == d[b]
  {
    if k > 0 {
      InstalledElsewhere(d, start, bl, k - 1, b);
    }
  }

  /** A listed block gets the contents of its last log slot. */
  lemma {:induction false} InstalledAt(d: Image, start: nat, bl: seq<int>, k: nat, i: nat)
    requires k <= |bl| && Layout(d, start) && HomeList(|d|, start, bl) && LastMention(bl, k, i)
    ensures Installed(d, start, bl, k)[bl[i]] == d[start + 1 + i]
  {
    if i < k - 1 {
      InstalledAt(d, start, bl, k - 1, i);
    }
  }

  lemma {:induction false} InstalledLayout(d: Image, start: nat, bl: seq<int>, k: nat)
    requires k <= |bl| && Layout(d, start) && HomeList(|d|, start, bl)
    ensures Layout(Installed(d, start, bl, k), start)
    ensures forall b: nat | b < |d| && !Home(|d|, start, b) :: Installed(d, start, bl, k)[b] == d[b]
  {
    if k > 0 {
      InstalledLayout(d, start, bl, k - 1);
    }
  }

  /** What a completed recovery leaves in the home blocks. */
  function Recovered(d: Image, start: nat): (r: Image)
    requires HeaderOk(d, start)
    ensures Layout(r, start)
  {
    InstalledLayout(d, start, Header(d, start), |Header(d, start)|);
    Installed(d, start, Header(d, start), |Header(d, start)|)
  }

  lemma {:induction false} FindLast(bl: seq<int>, k: nat, b: int) returns (i: nat)
    requires k <= |bl| && b in bl[..k]
    ensures LastMention(bl, k, i) && bl[i] == b
  {
    i := k - 1;
    if bl[i] != b {
      i := FindLast(bl, k - 1, b);
    }
  }

  /** Replaying the log over a partly installed image gives the same image: recovery is idempotent,
      also for a header that lists a block twice. */
  lemma InstallTwice(d: Image, start: nat, bl: seq<int>, k: nat, m: nat, b: nat)
    requires k <= m <= |bl| && Layout(d, start) && HomeList(|d|, start, bl) && b < |d|
    ensures Layout(Installed(d, start, bl, k), start)
    ensures Installed(Installed(d, start, bl, k), start, bl, m)[b] == Installed(d, start, bl, m)[b]
  {
    hide Installed;
    InstalledLayout(d, start, bl, k);
    var e := Installed(d, start, bl, k);
    if b in bl[..m] {
      var i := FindLast(bl, m, b);
      InstalledAt(d, start, bl, m, i);
      InstalledAt(e, start, bl, m, i);
    } else {
      assert forall j | 0 <= j < m :: bl[j] == bl[..m][j];
      InstalledElsewhere(d, start, bl, k, b);
      InstalledElsewhere(d, start, bl, m, b);
      InstalledElsewhere(e, start, bl, m, b);
    }
  }
}
