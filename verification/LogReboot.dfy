/** The way from a first boot to the loss of LogLoss: a commit, a crash before the header is cleared,
    a recovery, and the operation whose update disappears. */
module LogReboot {
  import opened Finite
  import opened LogDisk
  import opened CacheSpec
  import opened LogMachine
  import opened LogTheorems
  import opened LogConditions
  import opened LogLoss

  /** A run, crashes and all, leads from s to f. */
  ghost predicate Leads(c: Config, s: State, f: State) { exists acts :: Legal(c, s, acts) && Exec(c, s, acts) == f }

  lemma LeadsOn(c: Config, s: State, p: State, a: Step)
    requires Leads(c, s, p) && Enabled(c, p, a)
    ensures Leads(c, s, Apply(c, p, a))
  {
    var acts :| Legal(c, s, acts) && Exec(c, s, acts) == p;
    var more := acts + [a];
    assert more[..|more| - 1] == acts;
    assert Legal(c, s, more) && Exec(c, s, more) == Apply(c, p, a);
  }

  /** install_trans() of the recovery gets through. */
  lemma {:induction false} ReplayAll(c: Config, s: State, p: State) returns (f: State)
    requires Leads(c, s, p) && Booting(c, p) && p.mode.Replay?
    ensures Leads(c, s, f) && Booting(c, f) && f.mode == Replay(p.mode.h, |p.mode.h|)
    decreases |p.mode.h| - p.mode.i
  {
    if p.mode.i == |p.mode.h| {
      f := p;
    } else {
      assert TargetAt(c.g, p.mode.h, p.mode.i);
      ReplayKeeps(c, p);
      LeadsOn(c, s, p, ReplayInstall);
      f := ReplayAll(c, s, DoReplay(c, p));
    }
  }

  /** A crash in any state p and a boot after it: what the header named is what was recovered. */
  lemma Reboot(c: Config, s: State, p: State) returns (f: State)
    requires Leads(c, s, p) && Inv(c, p)
    ensures Leads(c, s, f) && Running(c, f) && Booted(f) && f.mode.recovered == Header(c.g, p.disk)
  {
    LeadsOn(c, s, p, Crash);
    var p1 := DoCrash(p);
    StepRefines(c, p, Crash);
    LeadsOn(c, s, p1, ReadHead);
    StepRefines(c, p1, ReadHead);
    var p2 := ReplayAll(c, s, DoReadHead(c, p1));
    assert CanReplayClear(c, p2);
    LeadsOn(c, s, p2, ReplayClear);
    ReplayClearKeeps(c, p2);
    f := DoReplayClear(c, p2);
  }

  /** An operation that logs just b, up to the header write of its commit. */
  lemma CommitsOne(c: Config, r: States, s: State, b: int) returns (f: State)
    requires Onward(c, r) && r(s) && Running(c, s) && Fresh(s) && c.g.IsHome(b) && LOGSIZE <= c.g.nlog
    ensures r(f) && HeaderOk(c.g, f.disk) && Header(c.g, f.disk) == [b]
  {
    Step1(c, r, s, BeginOp(0));
    var s2 := LogBlock(c, r, Begin(s, 0), 0, b);
    Step1(c, r, s2, EndOp(0));
    var s3 := End(s2, 0);
    Step1(c, r, s3, CommitCopy);
    var s4 := DoCopy(c, s3);
    Step1(c, r, s4, CommitHead);
    f := DoHead(c, s4);
    assert s4.lh == [b];
    assert Targets(c.g, [b]) by {
      DistinctIs([b]);
      forall i ensures TargetAt(c.g, [b], i) {}
    }
    HeaderRoundTrip(c.g, s4.disk, [b]);
  }

  lemma CrashFreeLeads(c: Config, s: State, f: State)
    requires Reaches(c, s, f)
    ensures Leads(c, s, f)
  {
    var acts :| Legal(c, s, acts) && CrashFree(acts) && Exec(c, s, acts) == f;
    assert Legal(c, s, acts) && Exec(c, s, acts) == f;
  }

  /** From a first boot with an empty log: some run with one crash comes to p, from where a run
      without a crash loses a committed update of b. */
  lemma LossReached(c: Config, s: State, b: int, data: Block) returns (p: State, f: State, d: AtomicDisk)
    requires c.Ok() && c.Fits() && Fresh(s) && HeaderOk(c.g, s.disk) && Count(c.g, s.disk) == 0
    requires c.g.IsHome(b) && LOGSIZE <= c.g.nlog
    ensures Leads(c, s, p) && Running(c, p) && Booted(p) && p.mode.recovered == [b]
    ensures Comes(c, p, f, d) && |d.durable| == c.g.size && d.durable[b] == data
    ensures HeaderOk(c.g, f.disk) && |Durable(c.g, f.disk)| == c.g.size && Durable(c.g, f.disk)[b] == p.disk[b]
  {
    FreshRuns(c, s);
    var r := ReachableOnward(c, s);
    var m := CommitsOne(c, r, s, b);
    var acts :| Legal(c, s, acts) && CrashFree(acts) && Exec(c, s, acts) == m;
    StaysRunning(c, s, acts);
    CrashFreeLeads(c, s, m);
    p := Reboot(c, s, m);
    f, d := RunLoses(c, p, b, data);
  }
}
