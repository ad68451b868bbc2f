/** The on-disk redo log of kernel/log.c: where it lies, what its header block says, and
    what disk a completed recovery makes of any disk it may find after a crash. */
module LogDisk {
  import opened Finite

  const MAXOPBLOCKS: nat := 10
  const LOGSIZE: nat := 30
  const WORDS: nat := 256          // BSIZE / sizeof(int)

  type Block = seq<int>            // a block as 32-bit words
  type Disk = seq<Block>           // indexed by block number

  /** `start` and `nlog` come from the superblock; `size` is the number of disk blocks. */
  datatype Geometry = Geometry(start: nat, nlog: nat, size: nat) {
    predicate Ok() { 0 < nlog && start + nlog <= size }

    /** A block outside the log area. */
    predicate IsHome(b: int) { 0 <= b < size && !(start <= b < start + nlog) }
  }

  predicate TargetAt(g: Geometry, h: seq<int>, i: int) { 0 <= i < |h| ==> g.IsHome(h[i]) }

  ghost predicate Targets(g: Geometry, h: seq<int>) {
    Distinct(h) && forall i {:trigger TargetAt(g, h, i)} :: TargetAt(g, h, i)
  }

  lemma TargetsHome(g: Geometry, h: seq<int>)
    requires Targets(g, h)
    ensures forall i :: 0 <= i < |h| ==> g.IsHome(h[i])
  {
    forall i | 0 <= i < |h| ensures g.IsHome(h[i]) { assert TargetAt(g, h, i); }
  }

  /** The disk has the right shape; every block holds one block's worth of words. */
  ghost predicate Shape(g: Geometry, d: Disk) {
    g.Ok() && |d| == g.size && |d[g.start]| == WORDS
  }

  function Count(g: Geometry, d: Disk): int
    requires Shape(g, d)
  {
    d[g.start][0]
  }

  /** The header names at most as many blocks as the log area has room for. */
  ghost predicate HeaderOk(g: Geometry, d: Disk) {
    && Shape(g, d)
    && 0 <= Count(g, d) <= LOGSIZE
    && Count(g, d) < g.nlog
    && Targets(g, d[g.start][1..1 + Count(g, d)])
  }

  function Header(g: Geometry, d: Disk): seq<int>
    requires HeaderOk(g, d)
  {
    d[g.start][1..1 + Count(g, d)]
  }

  /** The header block after write_head(): the count and the first |h| slots change. */
  function HeaderBlock(was: Block, h: seq<int>): Block
    requires |was| == WORDS && |h| <= LOGSIZE
  {
    [|h|] + h + was[1 + |h|..]
  }

  /** The disk after install_trans() has copied the first k log blocks home. */
  function Installed(g: Geometry, d: Disk, h: seq<int>, k: nat): (r: Disk)
    requires Shape(g, d) && Targets(g, h) && k <= |h| < g.nlog
    ensures |r| == |d|
  {
    if k == 0 then d else
      var p := Installed(g, d, h, k - 1);
      assert TargetAt(g, h, k - 1);
      p[h[k - 1] := p[g.start + k]]
  }

  /** The disk after a completed recover_from_log(). */
  function Recovered(g: Geometry, d: Disk): (r: Disk)
    requires HeaderOk(g, d)
  {
    var h := Header(g, d);
    Installed(g, d, h, |h|)[g.start := HeaderBlock(d[g.start], [])]
  }

  /** The home blocks of a disk; the log area is blanked so that `==` compares homes only. */
  function Home(g: Geometry, d: Disk): (r: Disk)
    requires |d| == g.size
    ensures |r| == |d|
    ensures forall b :: 0 <= b < |d| ==> r[b] == if g.IsHome(b) then d[b] else []
  {
    seq(|d|, b requires 0 <= b < |d| => if g.IsHome(b) then d[b] else [])
  }

  /** What survives a crash: the home blocks that recovery will leave behind. */
  function Durable(g: Geometry, d: Disk): (r: Disk)
    requires HeaderOk(g, d)
  {
    RecoveredSize(g, d);
    Home(g, Recovered(g, d))
  }

  lemma RecoveredSize(g: Geometry, d: Disk)
    requires HeaderOk(g, d)
    ensures |Recovered(g, d)| == g.size
  {
  }

  /** Home contents h with block h[j] replaced by data[j]. */
  function Overlay(home: Disk, h: seq<int>, data: seq<Block>): (r: Disk)
    requires |h| == |data| && forall j :: 0 <= j < |h| ==> 0 <= h[j] < |home|
    ensures |r| == |home|
  {
    if h == [] then home else
      Overlay(home, h[..|h| - 1], data[..|h| - 1])[h[|h| - 1] := data[|h| - 1]]
  }

  lemma DistinctPrefix(h: seq<int>, n: nat)
    requires Distinct(h) && n <= |h|
    ensures Distinct(h[..n])
  {
    var p := h[..n];
    forall i, j ensures DistinctAt(p, i, j) { assert DistinctAt(h, i, j); }
  }

  lemma {:induction false} OverlayNamed(home: Disk, h: seq<int>, data: seq<Block>, j: nat)
    requires |h| == |data| && Distinct(h) && j < |h|
    requires forall j :: 0 <= j < |h| ==> 0 <= h[j] < |home|
    ensures Overlay(home, h, data)[h[j]] == data[j]
  {
    var n := |h| - 1;
    if j < n {
      assert DistinctAt(h, j, n);
      DistinctPrefix(h, n);
      OverlayNamed(home, h[..n], data[..n], j);
    }
  }

  lemma {:induction false} OverlayOther(home: Disk, h: seq<int>, data: seq<Block>, b: nat)
    requires |h| == |data| && b < |home| && b !in h
    requires forall j :: 0 <= j < |h| ==> 0 <= h[j] < |home|
    ensures Overlay(home, h, data)[b] == home[b]
  {
    if h != [] { OverlayOther(home, h[..|h| - 1], data[..|h| - 1], b); }
  }

  /** install_trans() touches exactly the named blocks and never the log area. */
  lemma {:induction false} InstalledAt(g: Geometry, d: Disk, h: seq<int>, k: nat)
    requires Shape(g, d) && Targets(g, h) && k <= |h| < g.nlog
    ensures forall j :: 0 <= j < k ==> g.IsHome(h[j]) && Installed(g, d, h, k)[h[j]] == d[g.start + 1 + j]
    ensures forall b :: 0 <= b < |d| && b !in h[..k] ==> Installed(g, d, h, k)[b] == d[b]
  {
    if k > 0 {
      DistinctIs(h);
      TargetsHome(g, h);
      InstalledAt(g, d, h, k - 1);
      assert h[..k] == h[..k - 1] + [h[k - 1]];
    }
  }

  /** Block by block: recovery takes a named block from its log slot, any other from home. */
  lemma DurableAt(g: Geometry, d: Disk)
    requires HeaderOk(g, d)
    ensures |Durable(g, d)| == g.size
    ensures forall j :: 0 <= j < |Header(g, d)| ==>
              g.IsHome(Header(g, d)[j]) && Durable(g, d)[Header(g, d)[j]] == d[g.start + 1 + j]
    ensures forall b :: g.IsHome(b) && b !in Header(g, d) ==> Durable(g, d)[b] == d[b]
    ensures forall b :: 0 <= b < g.size && !g.IsHome(b) ==> Durable(g, d)[b] == []
  {
    var h := Header(g, d);
    InstalledAt(g, d, h, |h|);
    assert h[..|h|] == h;
  }

  lemma DurableNamed(g: Geometry, d: Disk, j: nat)
    requires HeaderOk(g, d) && j < |Header(g, d)|
    ensures g.IsHome(Header(g, d)[j]) && Durable(g, d)[Header(g, d)[j]] == d[g.start + 1 + j]
  {
    DurableAt(g, d);
  }

  lemma DurableOther(g: Geometry, d: Disk, b: nat)
    requires HeaderOk(g, d) && b < g.size && b !in Header(g, d)
    ensures Durable(g, d)[b] == if g.IsHome(b) then d[b] else []
  {
    DurableAt(g, d);
  }

  /** Writing any other block keeps the header. */
  lemma HeaderKept(g: Geometry, d: Disk, x: nat, block: Block)
    requires HeaderOk(g, d) && x < |d| && x != g.start
    ensures HeaderOk(g, d[x := block]) && Header(g, d[x := block]) == Header(g, d)
            && Count(g, d[x := block]) == Count(g, d)
  {
    assert d[x := block][g.start] == d[g.start];
  }

  // ---- what each disk write of commit() and recovery does to the durable state ----

  /** With an empty header a write into a log slot changes nothing that matters. */
  lemma LogSlotInvisible(g: Geometry, d: Disk, i: nat, data: Block)
    requires HeaderOk(g, d) && Count(g, d) == 0 && 1 + i < g.nlog
    ensures HeaderOk(g, d[g.start + 1 + i := data])
    ensures Durable(g, d[g.start + 1 + i := data]) == Durable(g, d)
  {
    DurableAt(g, d);
    DurableAt(g, d[g.start + 1 + i := data]);
  }

  /** write_head() then read_head() gives back the same list. */
  lemma HeaderRoundTrip(g: Geometry, d: Disk, h: seq<int>)
    requires Shape(g, d) && Targets(g, h) && |h| <= LOGSIZE && |h| < g.nlog
    ensures var d' := d[g.start := HeaderBlock(d[g.start], h)];
            HeaderOk(g, d') && Header(g, d') == h
  {
    assert HeaderBlock(d[g.start], h)[1..1 + |h|] == h;
  }

  /** Writing a non-empty header is the commit point: all named blocks switch at once. */
  lemma HeaderCommits(g: Geometry, d: Disk, h: seq<int>, data: seq<Block>)
    requires HeaderOk(g, d) && Count(g, d) == 0
    requires Targets(g, h) && |h| == |data| <= LOGSIZE && |h| < g.nlog
    requires forall j :: 0 <= j < |h| ==> d[g.start + 1 + j] == data[j]
    ensures HeaderOk(g, d[g.start := HeaderBlock(d[g.start], h)]) && forall j :: 0 <= j < |h| ==> 0 <= h[j] < g.size
    ensures Durable(g, d[g.start := HeaderBlock(d[g.start], h)]) == Overlay(Home(g, d), h, data)
  {
    var d' := d[g.start := HeaderBlock(d[g.start], h)];
    HeaderRoundTrip(g, d, h);
    TargetsHome(g, h);
    var after := Overlay(Home(g, d), h, data);
    forall b | 0 <= b < g.size
      ensures Durable(g, d')[b] == after[b]
    {
      if b in h {
        var j :| 0 <= j < |h| && h[j] == b;
        DurableNamed(g, d', j);
        OverlayNamed(Home(g, d), h, data, j);
      } else {
        DurableOther(g, d', b);
        OverlayOther(Home(g, d), h, data, b);
      }
    }
  }

  /** Copying any committed log block home, once or many times, is invisible. */
  lemma InstallInvisible(g: Geometry, d: Disk, i: nat)
    requires HeaderOk(g, d) && i < |Header(g, d)|
    ensures g.IsHome(Header(g, d)[i])
    ensures var d' := d[Header(g, d)[i] := d[g.start + 1 + i]];
            && HeaderOk(g, d')
            && Header(g, d') == Header(g, d)
            && Durable(g, d') == Durable(g, d)
  {
    var h := Header(g, d);
    assert TargetAt(g, h, i);
    var d' := d[h[i] := d[g.start + 1 + i]];
    HeaderKept(g, d, h[i], d[g.start + 1 + i]);
    forall b | 0 <= b < g.size
      ensures Durable(g, d')[b] == Durable(g, d)[b]
    {
      if b in h {
        var j :| 0 <= j < |h| && h[j] == b;
        DurableNamed(g, d, j);
        DurableNamed(g, d', j);
      } else {
        DurableOther(g, d, b);
        DurableOther(g, d', b);
      }
    }
  }

  /** Clearing the header is invisible once every named block is home. */
  lemma ClearInvisible(g: Geometry, d: Disk)
    requires HeaderOk(g, d)
    requires forall j :: 0 <= j < |Header(g, d)| ==>
               0 <= Header(g, d)[j] < |d| && d[Header(g, d)[j]] == d[g.start + 1 + j]
    ensures var d' := d[g.start := HeaderBlock(d[g.start], [])];
            && HeaderOk(g, d') && Count(g, d') == 0
            && Durable(g, d') == Durable(g, d) == Home(g, d')
  {
    var h := Header(g, d);
    var d' := d[g.start := HeaderBlock(d[g.start], [])];
    DurableAt(g, d);
    DurableAt(g, d');
    forall b | 0 <= b < g.size
      ensures Durable(g, d')[b] == Durable(g, d)[b] == Home(g, d')[b]
    {
      if b in h {
        var j :| 0 <= j < |h| && h[j] == b;
      }
    }
  }

  /** Recovering twice, or crashing after a completed recovery, adds nothing. */
  lemma RecoveredIsClean(g: Geometry, d: Disk)
    requires HeaderOk(g, d)
    ensures HeaderOk(g, Recovered(g, d)) && Count(g, Recovered(g, d)) == 0
    ensures Durable(g, Recovered(g, d)) == Durable(g, d)
    ensures Recovered(g, Recovered(g, d)) == Recovered(g, d)
  {
    var h := Header(g, d);
    InstalledAt(g, d, h, |h|);
    var r := Recovered(g, d);
    DurableAt(g, d);
    DurableAt(g, r);
    assert r[g.start] == HeaderBlock(d[g.start], []);
    assert HeaderBlock(r[g.start], []) == r[g.start];
    assert r[g.start := r[g.start]] == r;
  }
}
