/** kernel/log.c as it runs: loops over the header array, one disk write at a time.  The
    device keeps the history of disk states, so that a crash between any two writes of
    commit() or recover_from_log() can be spoken about. */
module LogCode {
  import opened LogDisk

  // ---- the writes of each loop, as a list of the disks they leave --------------------------

  /** The disk after write_log() has filled the first k log slots. */
  function Copied(g: Geometry, d: Disk, data: seq<Block>, k: nat): (r: Disk)
    requires k <= |data| && g.start + k < |d|
    ensures |r| == |d|
  {
    if k == 0 then d else Copied(g, d, data, k - 1)[g.start + k := data[k - 1]]
  }

  ghost function CopyTrace(g: Geometry, d: Disk, data: seq<Block>, k: nat): (r: seq<Disk>)
    requires k <= |data| && g.start + k < |d|
    ensures |r| == k
  {
    if k == 0 then [] else CopyTrace(g, d, data, k - 1) + [Copied(g, d, data, k)]
  }

  ghost function InstallTrace(g: Geometry, d: Disk, h: seq<int>, k: nat): (r: seq<Disk>)
    requires Shape(g, d) && Targets(g, h) && k <= |h| < g.nlog
    ensures |r| == k
  {
    if k == 0 then [] else InstallTrace(g, d, h, k - 1) + [Installed(g, d, h, k)]
  }

  function WithHeader(g: Geometry, d: Disk, h: seq<int>): (r: Disk)
    requires Shape(g, d) && |h| <= LOGSIZE
    ensures Targets(g, h) && |h| < g.nlog ==> HeaderOk(g, r) && Header(g, r) == h
  {
    assert HeaderBlock(d[g.start], h)[1..1 + |h|] == h;
    d[g.start := HeaderBlock(d[g.start], h)]
  }

  /** All disks of a trace recover to the home contents `home`. */
  ghost predicate AllRecover(g: Geometry, trace: seq<Disk>, home: Disk) {
    forall k :: 0 <= k < |trace| ==> HeaderOk(g, trace[k]) && Durable(g, trace[k]) == home
  }

  lemma {:induction false} CopyTraceRecovers(g: Geometry, d: Disk, data: seq<Block>, k: nat)
    requires HeaderOk(g, d) && Count(g, d) == 0 && k <= |data| < g.nlog
    ensures AllRecover(g, CopyTrace(g, d, data, k), Durable(g, d))
    ensures HeaderOk(g, Copied(g, d, data, k)) && Count(g, Copied(g, d, data, k)) == 0
    ensures Durable(g, Copied(g, d, data, k)) == Durable(g, d)
    ensures forall j :: 0 <= j < k ==> Copied(g, d, data, k)[g.start + 1 + j] == data[j]
    ensures forall b :: g.IsHome(b) ==> Copied(g, d, data, k)[b] == d[b]
  {
    if k > 0 {
      CopyTraceRecovers(g, d, data, k - 1);
      LogSlotInvisible(g, Copied(g, d, data, k - 1), k - 1, data[k - 1]);
    }
  }

  lemma {:induction false} InstalledKeeps(g: Geometry, d: Disk, h: seq<int>, k: nat)
    requires HeaderOk(g, d) && h == Header(g, d) && k <= |h|
    ensures HeaderOk(g, Installed(g, d, h, k)) && Header(g, Installed(g, d, h, k)) == h
    ensures Durable(g, Installed(g, d, h, k)) == Durable(g, d)
  {
    if k > 0 {
      InstalledKeeps(g, d, h, k - 1);
      InstalledNext(g, Installed(g, d, h, k - 1), h, k - 1, Durable(g, d));
    }
  }

  lemma InstalledNext(g: Geometry, p: Disk, h: seq<int>, i: nat, home: Disk)
    requires HeaderOk(g, p) && Header(g, p) == h && i < |h| && Durable(g, p) == home
    ensures g.IsHome(h[i])
    ensures var q := p[h[i] := p[g.start + 1 + i]]; HeaderOk(g, q) && Header(g, q) == h && Durable(g, q) == home
  {
    InstallInvisible(g, p, i);
  }

  lemma AllRecoverAppend(g: Geometry, s: seq<Disk>, t: seq<Disk>, home: Disk)
    requires AllRecover(g, s, home) && AllRecover(g, t, home)
    ensures AllRecover(g, s + t, home)
  {
  }

  lemma {:induction false} InstallTraceRecovers(g: Geometry, d: Disk, h: seq<int>, k: nat)
    requires HeaderOk(g, d) && h == Header(g, d) && k <= |h|
    ensures AllRecover(g, InstallTrace(g, d, h, k), Durable(g, d))
  {
    if k > 0 {
      InstallTraceRecovers(g, d, h, k - 1);
      InstalledKeeps(g, d, h, k);
      AllRecoverAppend(g, InstallTrace(g, d, h, k - 1), [Installed(g, d, h, k)], Durable(g, d));
    }
  }

  lemma InstalledThenCleared(g: Geometry, d: Disk)
    requires HeaderOk(g, d)
    ensures var d' := Installed(g, d, Header(g, d), |Header(g, d)|);
            && HeaderOk(g, d') && HeaderOk(g, WithHeader(g, d', []))
            && Count(g, WithHeader(g, d', [])) == 0
            && Durable(g, WithHeader(g, d', [])) == Durable(g, d) == Home(g, WithHeader(g, d', []))
            && WithHeader(g, d', []) == Recovered(g, d)
  {
    var h := Header(g, d);
    var d' := Installed(g, d, h, |h|);
    InstalledKeeps(g, d, h, |h|);
    InstalledAt(g, d, h, |h|);
    ClearInvisible(g, d');
  }

  /** The writes of recover_from_log(). */
  ghost function RecoverTrace(g: Geometry, d: Disk): seq<Disk>
    requires HeaderOk(g, d)
  {
    InstallTrace(g, d, Header(g, d), |Header(g, d)|) + [Recovered(g, d)]
  }

  /** A crash between any two writes of recovery leaves the same thing to recover. */
  lemma RecoverTraceRecovers(g: Geometry, d: Disk)
    requires HeaderOk(g, d)
    ensures AllRecover(g, RecoverTrace(g, d), Durable(g, d))
    ensures Home(g, Recovered(g, d)) == Durable(g, d)
  {
    var h := Header(g, d);
    InstallTraceRecovers(g, d, h, |h|);
    InstalledThenCleared(g, d);
    AllRecoverAppend(g, InstallTrace(g, d, h, |h|), [Recovered(g, d)], Durable(g, d));
  }

  /** The writes of commit() after the log slots are filled: the header comes first. */
  ghost function FlipTrace(g: Geometry, d: Disk, h: seq<int>): seq<Disk>
    requires Shape(g, d) && Targets(g, h) && |h| <= LOGSIZE && |h| < g.nlog
  {
    HeaderRoundTrip(g, d, h);
    [WithHeader(g, d, h)] + RecoverTrace(g, WithHeader(g, d, h))
  }

  /** The home blocks once the transaction that writes data[j] to block h[j] has happened. */
  ghost function After(g: Geometry, home: Disk, h: seq<int>, data: seq<Block>): Disk
    requires |home| == g.size && Targets(g, h) && |h| == |data|
  {
    TargetsHome(g, h);
    Overlay(home, h, data)
  }

  /** Writing the log slots leaves the old state; from the header write on it is the new one. */
  lemma CommitAtomic(g: Geometry, d: Disk, h: seq<int>, data: seq<Block>)
    requires HeaderOk(g, d) && Count(g, d) == 0 && Targets(g, h) && |h| == |data| <= LOGSIZE && |h| < g.nlog
    ensures AllRecover(g, CopyTrace(g, d, data, |h|), Home(g, d))
    ensures HeaderOk(g, Copied(g, d, data, |h|))
    ensures AllRecover(g, FlipTrace(g, Copied(g, d, data, |h|), h), After(g, Home(g, d), h, data))
  {
    var c := Copied(g, d, data, |h|);
    CopyTraceRecovers(g, d, data, |h|);
    assert Home(g, c) == Home(g, d) == Durable(g, d) by {
      EmptyLogDurable(g, d);
      EmptyLogDurable(g, c);
    }
    FlipTraceRecovers(g, c, h, data);
  }

  lemma FlipTraceIs(g: Geometry, c: Disk, h: seq<int>, d: Disk)
    requires Shape(g, c) && Targets(g, h) && 0 < |h| <= LOGSIZE && |h| < g.nlog && d == WithHeader(g, c, h)
    ensures HeaderOk(g, d) && Header(g, d) == h
    ensures HeaderOk(g, WithHeader(g, c, h))
    ensures FlipTrace(g, c, h) == [d] + (InstallTrace(g, d, h, |h|) + [Recovered(g, d)])
  {
    HeaderRoundTrip(g, c, h);
  }

  lemma FlipTraceRecovers(g: Geometry, d: Disk, h: seq<int>, data: seq<Block>)
    requires HeaderOk(g, d) && Count(g, d) == 0 && Targets(g, h) && |h| == |data| <= LOGSIZE && |h| < g.nlog
    requires forall j :: 0 <= j < |h| ==> d[g.start + 1 + j] == data[j]
    ensures AllRecover(g, FlipTrace(g, d, h), After(g, Home(g, d), h, data))
  {
    TargetsHome(g, h);
    var after := After(g, Home(g, d), h, data);
    HeaderRoundTrip(g, d, h);
    HeaderCommits(g, d, h, data);
    var d' := WithHeader(g, d, h);
    RecoverTraceRecovers(g, d');
    AllRecoverAppend(g, [d'], RecoverTrace(g, d'), after);
  }

  lemma EmptyLogDurable(g: Geometry, d: Disk)
    requires HeaderOk(g, d) && Count(g, d) == 0
    ensures Durable(g, d) == Home(g, d)
  {
    DurableAt(g, d);
  }

  // ---- the code ------------------------------------------------------------------------------

  /** What bread() returns: the cached copy if there is one. */
  function Lookup(d: Disk, buf: map<int, Block>, b: int): Block
    requires 0 <= b < |d|
  {
    if b in buf then buf[b] else d[b]
  }

  /** The blocks a transaction with header h writes, in header order. */
  function Transaction(g: Geometry, d: Disk, buf: map<int, Block>, h: seq<int>): (r: seq<Block>)
    requires |d| == g.size && Targets(g, h)
    ensures |r| == |h| && forall j :: 0 <= j < |h| ==> 0 <= h[j] < |d| && r[j] == Lookup(d, buf, h[j])
  {
    TargetsHome(g, h);
    seq(|h|, j requires 0 <= j < |h| => Lookup(d, buf, h[j]))
  }

  class Device {
    var blocks: Disk
    ghost var history: seq<Disk>       // the disk after each write, oldest first

    constructor (d: Disk)
      ensures blocks == d && history == []
    {
      blocks := d;
      history := [];
    }

    method Write(b: int, data: Block)
      requires 0 <= b < |blocks|
      modifies this
      ensures blocks == old(blocks)[b := data]
      ensures history == old(history) + [blocks]
    {
      blocks := blocks[b := data];
      history := history + [blocks];
    }
  }

  class Log {
    const g: Geometry
    const dev: Device
    var n: nat                         // log.lh.n
    var block: array<int>              // log.lh.block
    var buf: map<int, Block>           // cached home blocks
    var outstanding: int

    ghost predicate Valid()
      reads this, block, dev
    {
      && Shape(g, dev.blocks)
      && block.Length == LOGSIZE && n <= LOGSIZE
    }

    /** The in-memory header as a list. */
    ghost function Entries(): seq<int>
      reads this, block
      requires n <= block.Length
    {
      block[..n]
    }

    constructor (g: Geometry, d: Device)
      requires Shape(g, d.blocks)
      ensures Valid() && n == 0 && buf == map[] && this.g == g && dev == d && fresh(block)
    {
      this.g, dev := g, d;
      n := 0;
      block := new int[LOGSIZE];
      buf := map[];
      outstanding := 0;
    }

    method Bread(b: int) returns (data: Block)
      requires 0 <= b < |dev.blocks|
      ensures data == Lookup(dev.blocks, buf, b)
    {
      data := if b in buf then buf[b] else dev.blocks[b];
    }

    method ReadHead()
      requires Valid() && HeaderOk(g, dev.blocks)
      modifies this`n, block
      ensures Valid() && Entries() == Header(g, dev.blocks)
    {
      n := dev.blocks[g.start][0];
      var i := 0;
      while i < n
        invariant 0 <= i <= n == Count(g, dev.blocks)
        invariant block[..i] == dev.blocks[g.start][1..1 + i]
      {
        block[i] := dev.blocks[g.start][1 + i];
        i := i + 1;
      }
    }

    method WriteHead()
      requires Valid()
      modifies dev
      ensures Valid()
      ensures dev.blocks == WithHeader(g, old(dev.blocks), Entries())
      ensures dev.history == old(dev.history) + [dev.blocks]
    {
      var hb := dev.blocks[g.start][0 := n];
      var i := 0;
      while i < n
        invariant 0 <= i <= n && |hb| == WORDS
        invariant hb[0] == n && forall j :: 0 <= j < i ==> hb[1 + j] == block[j]
        invariant forall j :: i < j < WORDS ==> hb[j] == dev.blocks[g.start][j]
      {
        hb := hb[1 + i := block[i]];
        i := i + 1;
      }
      assert hb == HeaderBlock(dev.blocks[g.start], block[..n]);
      dev.Write(g.start, hb);
    }

    method WriteLog()
      requires Valid() && Targets(g, Entries()) && n < g.nlog
      modifies dev
      ensures Valid()
      ensures var data := Transaction(g, old(dev.blocks), buf, Entries());
              && dev.blocks == Copied(g, old(dev.blocks), data, n)
              && dev.history == old(dev.history) + CopyTrace(g, old(dev.blocks), data, n)
    {
      ghost var h, d := Entries(), dev.blocks;
      ghost var data := Transaction(g, d, buf, h);
      var tail := 0;
      while tail < n
        invariant 0 <= tail <= n
        invariant dev.blocks == Copied(g, d, data, tail)
        invariant dev.history == old(dev.history) + CopyTrace(g, d, data, tail)
      {
        WriteSlot(tail, d, data);
        tail := tail + 1;
      }
      CopiedElsewhere(g, d, data, n, g.start);
    }

    /** One turn of its loop. */
    method WriteSlot(tail: nat, ghost d: Disk, ghost data: seq<Block>)
      requires Shape(g, d) && n <= block.Length && Targets(g, Entries()) && tail < n < g.nlog
      requires data == Transaction(g, d, buf, Entries()) && dev.blocks == Copied(g, d, data, tail)
      modifies dev
      ensures dev.blocks == Copied(g, d, data, tail + 1)
      ensures dev.history == old(dev.history) + [Copied(g, d, data, tail + 1)]
    {
      ghost var h := Entries();
      assert TargetAt(g, h, tail) && h[tail] == block[tail];
      CopiedElsewhere(g, d, data, tail, h[tail]);
      var from := Bread(block[tail]);
      dev.Write(g.start + tail + 1, from);
    }

    method InstallTrans()
      requires Valid() && Targets(g, Entries()) && n < g.nlog
      modifies dev, this`buf
      ensures Valid()
      ensures dev.blocks == Installed(g, old(dev.blocks), Entries(), n)
      ensures dev.history == old(dev.history) + InstallTrace(g, old(dev.blocks), Entries(), n)
    {
      ghost var h, d := Entries(), dev.blocks;
      var tail := 0;
      while tail < n
        invariant 0 <= tail <= n && Entries() == h
        invariant dev.blocks == Installed(g, d, h, tail)
        invariant dev.history == old(dev.history) + InstallTrace(g, d, h, tail)
      {
        assert TargetAt(g, h, tail) && h[tail] == block[tail];
        var data := dev.blocks[g.start + tail + 1];
        buf := buf[block[tail] := data];
        dev.Write(block[tail], data);
        tail := tail + 1;
      }
      InstalledAt(g, d, h, n);
      assert g.start !in h;
    }

    method RecoverFromLog()
      requires Valid() && HeaderOk(g, dev.blocks)
      modifies dev, this, block
      ensures Valid() && n == 0
      ensures dev.blocks == Recovered(g, old(dev.blocks))
      ensures dev.history == old(dev.history) + RecoverTrace(g, old(dev.blocks))
      ensures AllRecover(g, dev.history[|old(dev.history)|..], Durable(g, old(dev.blocks)))
      ensures Home(g, dev.blocks) == Durable(g, old(dev.blocks))
    {
      ghost var d := dev.blocks;
      RecoverTraceRecovers(g, d);
      ReadHead();
      InstallTrans();
      InstalledThenCleared(g, d);
      n := 0;
      WriteHead();
    }

    /** commit() from the header write on. */
    method Publish()
      requires Valid() && Targets(g, Entries()) && 0 < n < g.nlog
      modifies dev, this, block
      ensures Valid() && n == 0
      ensures dev.history == old(dev.history) + FlipTrace(g, old(dev.blocks), old(Entries()))
      ensures dev.blocks == Recovered(g, WithHeader(g, old(dev.blocks), old(Entries())))
    {
      ghost var h, c := Entries(), dev.blocks;
      WriteHead();
      ghost var d := dev.blocks;
      FlipTraceIs(g, c, h, d);
      InstallTrans();
      ghost var e := dev.blocks;
      assert WithHeader(g, e, []) == Recovered(g, d) by { InstalledThenCleared(g, d); }
      n := 0;
      assert Entries() == [];
      WriteHead();
      assert dev.blocks == Recovered(g, d);
      assert dev.history == old(dev.history) + ([d] + (InstallTrace(g, d, h, |h|) + [dev.blocks]));
    }

    method Commit()
      requires Valid() && Targets(g, Entries()) && n < g.nlog
      modifies dev, this, block
      ensures Valid() && n == 0
      ensures old(n) == 0 ==> dev.blocks == old(dev.blocks) && dev.history == old(dev.history)
      ensures old(n) > 0 ==>
                var h := old(Entries());
                var data := Transaction(g, old(dev.blocks), old(buf), h);
                var c := Copied(g, old(dev.blocks), data, |h|);
                && Shape(g, c)
                && dev.history == old(dev.history) + CopyTrace(g, old(dev.blocks), data, |h|) + FlipTrace(g, c, h)
                && dev.blocks == Recovered(g, WithHeader(g, c, h))
      ensures old(n) > 0 && HeaderOk(g, old(dev.blocks)) && Count(g, old(dev.blocks)) == 0 ==>
                var h, home, k := old(Entries()), Home(g, old(dev.blocks)), |old(dev.history)| + old(n);
                && k <= |dev.history|
                && AllRecover(g, dev.history[|old(dev.history)|..k], home)
                && AllRecover(g, dev.history[k..], After(g, home, h, Transaction(g, old(dev.blocks), old(buf), h)))
    {
      if n > 0 {
        ghost var d, h, past := dev.blocks, Entries(), dev.history;
        ghost var data := Transaction(g, d, buf, h);
        WriteLog();
        ghost var c := dev.blocks;
        Publish();
        if HeaderOk(g, d) && Count(g, d) == 0 {
          CommitAtomic(g, d, h, data);
          Sliced(past, CopyTrace(g, d, data, |h|), FlipTrace(g, c, h));
        }
      }
    }

    /** log_write(): a block already in the transaction is absorbed; `ok` is false for a panic. */
    method LogWrite(b: int) returns (ok: bool)
      requires Valid()
      modifies this`n, block
      ensures Valid()
      ensures ok <==> old(n) < LOGSIZE && old(n) < g.nlog - 1 && outstanding >= 1
      ensures Entries() == if !ok || b in old(Entries()) then old(Entries()) else old(Entries()) + [b]
    {
      if n >= LOGSIZE || n >= g.nlog - 1 {
        return false;
      }
      if outstanding < 1 {
        return false;
      }
      ok := true;
      var i := 0;
      while i < n
        invariant 0 <= i <= n && b !in block[..i]
      {
        if block[i] == b {
          break;
        }
        i := i + 1;
      }
      block[i] := b;
      if i == n {
        n := n + 1;
      }
    }
  }

  lemma Sliced(a: seq<Disk>, b: seq<Disk>, c: seq<Disk>)
    ensures (a + b + c)[|a|..|a| + |b|] == b && (a + b + c)[|a| + |b|..] == c
  {
  }

  lemma {:induction false} CopiedElsewhere(g: Geometry, d: Disk, data: seq<Block>, k: nat, b: int)
    requires k <= |data| && g.start + k < |d| && 0 <= b < |d| && !(g.start < b <= g.start + k)
    ensures Copied(g, d, data, k)[b] == d[b]
  {
    if k > 0 { CopiedElsewhere(g, d, data, k - 1, b); }
  }
}
