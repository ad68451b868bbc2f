/** Reservation of log space, in every run of the system: any log area, crashes and recoveries
    anywhere, and operations that use their whole budget of MAXOPBLOCKS entries. */
module LogReserve {
  import opened Finite
  import opened LogDisk
  import opened LogMachine
  import opened LogTheorems

  ghost predicate SpaceOk(c: Config, lh: seq<int>, ops: map<nat, Op>, outstanding: nat) {
    && Distinct(lh)
    && (forall t {:trigger OpAt(ops, c.budget, t)} :: OpAt(ops, c.budget, t))
    && outstanding == Live(ops, NPROC)
    && |lh| + Unused(ops, c.budget, NPROC) <= c.Peak()
  }

  ghost predicate Reserved(c: Config, s: State) {
    c.Ok() && SpaceOk(c, s.lh, s.ops, s.outstanding) && CommitOk(s.ops, s.committing, s.commit)
  }

  lemma BeginReserves(c: Config, s: State, t: nat)
    requires Reserved(c, s) && CanBegin(s, t)
    ensures Reserved(c, Begin(s, t))
  {
    OpsWithin(s.ops, c.budget);
    UnusedBounds(s.ops, c.budget, NPROC);
    SumsAdd(s.ops, c.budget, t, Op(0, false), NPROC);
    var ops' := s.ops[t := Op(0, false)];
    forall u ensures OpAt(ops', c.budget, u) { assert OpAt(s.ops, c.budget, u); }
  }

  lemma EndReserves(c: Config, s: State, t: nat)
    requires Reserved(c, s) && CanEnd(s, t)
    ensures Reserved(c, End(s, t))
  {
    OpsWithin(s.ops, c.budget);
    SumsRemove(s.ops, c.budget, t, NPROC);
    UnusedBounds(s.ops, c.budget, NPROC);
    var ops' := s.ops - {t};
    UnusedBounds(ops', c.budget, NPROC);
    forall u ensures OpAt(ops', c.budget, u) { assert OpAt(s.ops, c.budget, u); }
  }

  lemma LogReserves(c: Config, lh: seq<int>, ops: map<nat, Op>, outstanding: nat, t: nat, lh': seq<int>, o: Op)
    requires SpaceOk(c, lh, ops, outstanding) && t in ops && Distinct(lh') && o.used <= c.budget
    requires |lh'| - |lh| == o.used - ops[t].used
    ensures SpaceOk(c, lh', ops[t := o], outstanding)
  {
    var ops' := ops[t := o];
    SumsSet(ops, c.budget, t, o, NPROC);
    assert OpAt(ops, c.budget, t);
    forall u ensures OpAt(ops', c.budget, u) { assert OpAt(ops, c.budget, u); }
  }

  lemma StoreReserves(c: Config, s: State, t: nat, b: int)
    requires Reserved(c, s) && CanStore(c, s, t, b)
    ensures Reserved(c, DoStore(s, t, b))
  {
    var o := s.ops[t];
    assert OpAt(s.ops, c.budget, t);
    if b in s.lh {
      LogReserves(c, s.lh, s.ops, s.outstanding, t, s.lh, o.(checked := false));
    } else {
      DistinctIs(s.lh);
      DistinctIs(s.lh + [b]);
      LogReserves(c, s.lh, s.ops, s.outstanding, t, s.lh + [b], Op(o.used + 1, false));
    }
  }

  lemma NothingReserved(c: Config, lh: seq<int>, ops: map<nat, Op>, outstanding: nat)
    requires SpaceOk(c, lh, ops, outstanding)
    ensures SpaceOk(c, [], ops, outstanding)
  {
    DistinctIs([]);
  }

  lemma StepReserves(c: Config, s: State, a: Step)
    requires Reserved(c, s) && Enabled(c, s, a)
    ensures Reserved(c, Apply(c, s, a))
  {
    match a
    case BeginOp(t) => BeginReserves(c, s, t);
    case EndOp(t) => EndReserves(c, s, t);
    case LogCheck(t) =>
      assert OpAt(s.ops, c.budget, t);
      LogReserves(c, s.lh, s.ops, s.outstanding, t, s.lh, s.ops[t].(checked := true));
    case LogStore(t, b) => StoreReserves(c, s, t, b);
    case CommitClear => NothingReserved(c, s.lh, s.ops, s.outstanding);
    case Crash =>
      NoOps(c.budget, NPROC);
      DistinctIs([]);
    case _ =>
  }

  /** In every run logged blocks are distinct, entries and unused reservations together fit the header,
      no operation is open during a commit, and a new entry always has a place in the header, whatever
      the unlocked test before it saw. */
  lemma {:induction false} SpaceInEveryRun(c: Config, s: State, acts: seq<Step>, t: nat, b: int)
    requires Reserved(c, s) && Legal(c, s, acts)
    ensures var f := Exec(c, s, acts);
            && Reserved(c, f) && Distinct(f.lh) && |f.lh| + Unused(f.ops, c.budget, NPROC) <= LOGSIZE
            && (f.committing ==> f.outstanding == 0 && f.ops == map[])
            && (CanStore(c, f, t, b) && b !in f.lh ==> |f.lh| < LOGSIZE)
    decreases |acts|
  {
    if acts != [] {
      var front, last := acts[..|acts| - 1], acts[|acts| - 1];
      SpaceInEveryRun(c, s, front, t, b);
      StepReserves(c, Exec(c, s, front), last);
    }
    var f := Exec(c, s, acts);
    NoOps(c.budget, NPROC);
    OpsWithin(f.ops, c.budget);
    UnusedBounds(f.ops, c.budget, NPROC);
  }

  /** From end_op() to the end of commit() only the committer touches the header. */
  lemma HeaderFrozen(c: Config, s: State, a: Step)
    requires Reserved(c, s) && s.committing && Enabled(c, s, a) && !a.Crash? && !a.CommitClear?
    ensures Apply(c, s, a).lh == s.lh
    ensures a.CommitDone? || Apply(c, s, a).committing
  {
  }

  /** Where the log area has a slot for every entry that can be admitted, a new entry has one. */
  lemma SlotForEntry(c: Config, s: State, acts: seq<Step>, t: nat, b: int)
    requires Reserved(c, s) && Legal(c, s, acts) && c.Fits()
    ensures var f := Exec(c, s, acts); CanStore(c, f, t, b) && b !in f.lh ==> |f.lh| + 1 < c.g.nlog
  {
    SpaceInEveryRun(c, s, acts, t, b);
    var f := Exec(c, s, acts);
    OpsWithin(f.ops, c.budget);
    UnusedBounds(f.ops, c.budget, NPROC);
  }
}
