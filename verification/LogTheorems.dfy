/** What the log promises over whole runs: crash atomicity of groups of operations and
    transparency of the cache. */
module LogTheorems {
  import opened Finite
  import opened LogDisk
  import opened CacheSpec
  import opened LogMachine

  // ---- runs -----------------------------------------------------------------------------

  ghost predicate Legal(c: Config, s: State, acts: seq<Step>)
    decreases |acts|, 0
  {
    acts == [] ||
    (var front, last := acts[..|acts| - 1], acts[|acts| - 1];
     Legal(c, s, front) && Enabled(c, Exec(c, s, front), last))
  }

  ghost function Exec(c: Config, s: State, acts: seq<Step>): State
    requires Legal(c, s, acts)
    decreases |acts|, 1
  {
    if acts == [] then s
    else Apply(c, Exec(c, s, acts[..|acts| - 1]), acts[|acts| - 1])
  }

  /** No step of the run recycles a recovered buffer (see LogLoss for the runs that do). */
  ghost predicate SoundRun(c: Config, s: State, acts: seq<Step>)
    requires Legal(c, s, acts)
    decreases |acts|
  {
    acts == [] ||
    (var front, last := acts[..|acts| - 1], acts[|acts| - 1];
     SoundRun(c, s, front) && Sound(Exec(c, s, front), last))
  }

  ghost function AbsExec(d: AtomicDisk, acts: seq<Step>): AtomicDisk
    decreases |acts|
  {
    if acts == [] then d else AbsApply(AbsExec(d, acts[..|acts| - 1]), acts[|acts| - 1])
  }

  /** Every run of the system, crashes included, is a run of an atomic disk. */
  lemma {:induction false} RunRefines(c: Config, s: State, acts: seq<Step>)
    requires Inv(c, s) && Legal(c, s, acts) && SoundRun(c, s, acts)
    ensures Inv(c, Exec(c, s, acts))
    ensures Abs(c, Exec(c, s, acts)) == AbsExec(Abs(c, s), acts)
    decreases |acts|
  {
    if acts != [] {
      var front, last := acts[..|acts| - 1], acts[|acts| - 1];
      RunRefines(c, s, front);
      StepRefines(c, Exec(c, s, front), last);
    }
  }

  /** What operations saw at the last header write of the run. */
  ghost function LastCommitted(c: Config, s: State, acts: seq<Step>): Disk
    requires Inv(c, s) && Legal(c, s, acts) && SoundRun(c, s, acts)
    decreases |acts|
  {
    if acts == [] then Durable(c.g, s.disk) else
      var front, last := acts[..|acts| - 1], acts[|acts| - 1];
      var p := Exec(c, s, front);
      RunRefines(c, s, front);
      if last.CommitHead? then View(c.g, p.disk, p.cache) else LastCommitted(c, s, front)
  }

  lemma StepDurable(c: Config, s: State, a: Step)
    requires Inv(c, s) && Enabled(c, s, a) && Sound(s, a)
    ensures HeaderOk(c.g, Apply(c, s, a).disk)
    ensures a.CommitHead? ==>
              s.mode.Up? && s.ops == map[] && Durable(c.g, Apply(c, s, a).disk) == View(c.g, s.disk, s.cache)
    ensures !a.CommitHead? ==> Durable(c.g, Apply(c, s, a).disk) == Durable(c.g, s.disk)
  {
    StepRefines(c, s, a);
  }

  /** After any run, a recovery would restore exactly the state of the last header write. */
  lemma {:induction false} CrashRestoresLastCommit(c: Config, s: State, acts: seq<Step>)
    requires Inv(c, s) && Legal(c, s, acts) && SoundRun(c, s, acts)
    ensures HeaderOk(c.g, Exec(c, s, acts).disk)
    ensures Durable(c.g, Exec(c, s, acts).disk) == LastCommitted(c, s, acts)
    decreases |acts|
  {
    if acts != [] {
      var front, last := acts[..|acts| - 1], acts[|acts| - 1];
      CrashRestoresLastCommit(c, s, front);
      RunRefines(c, s, front);
      StepDurable(c, Exec(c, s, front), last);
    }
  }

  lemma {:induction false} Prefix(c: Config, s: State, acts: seq<Step>, k: nat)
    requires k < |acts| && Legal(c, s, acts) && SoundRun(c, s, acts)
    ensures Legal(c, s, acts[..k]) && SoundRun(c, s, acts[..k])
    ensures Enabled(c, Exec(c, s, acts[..k]), acts[k]) && Sound(Exec(c, s, acts[..k]), acts[k])
    decreases |acts|
  {
    var front := acts[..|acts| - 1];
    if k < |front| {
      Prefix(c, s, front, k);
      assert front[..k] == acts[..k];
    } else {
      assert acts[..k] == front;
    }
  }

  /** At every header write no operation is in progress: groups are all or nothing. */
  lemma GroupsAreWhole(c: Config, s: State, acts: seq<Step>, k: nat)
    requires Inv(c, s) && Legal(c, s, acts) && SoundRun(c, s, acts)
    requires k < |acts| && acts[k].CommitHead?
    ensures Legal(c, s, acts[..k]) && Exec(c, s, acts[..k]).ops == map[]
  {
    Prefix(c, s, acts, k);
    RunRefines(c, s, acts[..k]);
    StepDurable(c, Exec(c, s, acts[..k]), acts[k]);
  }

  predicate IsBootStep(a: Step) { a.Crash? || a.ReadHead? || a.ReplayInstall? || a.ReplayClear? }

  lemma BootStepHome(c: Config, s: State, a: Step)
    requires Inv(c, s) && Enabled(c, s, a) && IsBootStep(a)
    ensures var f := Apply(c, s, a);
            && Inv(c, f)
            && Durable(c.g, f.disk) == Durable(c.g, s.disk)
            && (f.mode.Up? ==> Home(c.g, f.disk) == Durable(c.g, s.disk) && Count(c.g, f.disk) == 0)
  {
    StepRefines(c, s, a);
    if a.ReplayClear? { RecoveryDone(c, s); }
  }

  lemma RecoveryDone(c: Config, s: State)
    requires Booting(c, s) && CanReplayClear(c, s)
    ensures var f := DoReplayClear(c, s);
              HeaderOk(c.g, f.disk) && Home(c.g, f.disk) == Durable(c.g, s.disk) && Count(c.g, f.disk) == 0
  {
    HomesAre(c.g, s.disk, s.mode.h);
    ClearInvisible(c.g, s.disk);
  }

  /** Crash, then recover, crashing again inside recovery any number of times: once the
      system is up, the home blocks are the ones that were durable before the crash. */
  lemma {:induction false} RepeatedCrashes(c: Config, s: State, acts: seq<Step>)
    requires Inv(c, s) && Legal(c, s, acts) && acts != [] && acts[0].Crash?
    requires forall k :: 0 <= k < |acts| ==> IsBootStep(acts[k])
    ensures var f := Exec(c, s, acts);
            && Inv(c, f)
            && Durable(c.g, f.disk) == Durable(c.g, s.disk)
            && (f.mode.Up? ==> Home(c.g, f.disk) == Durable(c.g, s.disk) && Count(c.g, f.disk) == 0)
    decreases |acts|
  {
    var front, last := acts[..|acts| - 1], acts[|acts| - 1];
    if front != [] { RepeatedCrashes(c, s, front); }
    BootStepHome(c, Exec(c, s, front), last);
  }

  // ---- cache transparency -----------------------------------------------------------------

  /** A buffer that differs from its disk block, or that somebody uses, is not recycled in a sound run,
      though bget() could take a recovered one as soon as it has exactly one reference; a holder sees
      the logical block; write_log() copies the logical block. */
  lemma Transparent(c: Config, s: State, b: int)
    requires Running(c, s) && b in s.cache
    ensures c.g.IsHome(b) && b in s.users
    ensures var refs := |s.users[b]| + if b in Pinned(s.lh, s.commit) then 1 else 0;
            Recyclable(s.cache, b) <==> refs == if b in s.mode.recovered then 1 else 0
    ensures Enabled(c, s, Recycle(b)) && Sound(s, Recycle(b)) ==>
              s.users[b] == {} && (s.cache[b].valid ==> s.cache[b].data == s.disk[b])
    ensures s.cache[b].valid ==> s.cache[b].data == View(c.g, s.disk, s.cache)[b]
    ensures CanCopy(c, s) && s.lh[s.commit.i] == b ==>
              DoCopy(c, s).disk[c.g.start + 1 + s.commit.i] == View(c.g, s.disk, s.cache)[b]
  {
    HolderFacts(c, s, b);
    RangeSize(s.users[b], 0, NPROC);
    if CanCopy(c, s) && s.lh[s.commit.i] == b { assert PinAt(s.cache, Pinned(s.lh, s.commit), b); }
  }
}
