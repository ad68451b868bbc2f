/** Two promises of the log hold only under a condition, stated here with both directions:
    buffer references are safe iff the boot recovered nothing, and on the shipped disk layout
    the log never outgrows its area iff operations add fewer than MAXOPBLOCKS entries. */
module LogConditions {
  import opened Finite
  import opened LogDisk
  import opened CacheSpec
  import opened LogMachine
  import opened LogTheorems

  predicate CrashFree(acts: seq<Step>) {
    forall k :: 0 <= k < |acts| ==> !acts[k].Crash?
  }

  /** A boot that recovered nothing keeps running, whatever it recycles. */
  lemma {:induction false} StaysRunning(c: Config, s: State, acts: seq<Step>)
    requires Running(c, s) && s.mode == Up([]) && Legal(c, s, acts) && CrashFree(acts)
    ensures Running(c, Exec(c, s, acts)) && Exec(c, s, acts).mode == Up([])
    ensures SoundRun(c, s, acts)
    decreases |acts|
  {
    if acts != [] {
      var front, last := acts[..|acts| - 1], acts[|acts| - 1];
      StaysRunning(c, s, front);
      StepStaysUp(c, Exec(c, s, front), last);
    }
  }

  lemma StepStaysUp(c: Config, s: State, a: Step)
    requires Running(c, s) && s.mode == Up([]) && Enabled(c, s, a) && !a.Crash?
    ensures Running(c, Apply(c, s, a)) && Apply(c, s, a).mode == Up([])
  {
    StepRefines(c, s, a);
  }

  // ---- reference counts after recovery ---------------------------------------------------

  /** No buffer that somebody holds a reference to can be taken for another block. */
  predicate InUseSafe(s: State) {
    forall b :: b in s.users && s.users[b] != {} ==> !Recyclable(s.cache, b)
  }

  ghost predicate AlwaysInUseSafe(c: Config, s: State) {
    forall acts :: Legal(c, s, acts) && CrashFree(acts) ==> InUseSafe(Exec(c, s, acts))
  }

  /** One bread() of a recovered block brings its count from 2^32 - 1 to 0. */
  lemma OneReadBreaksIt(c: Config, s: State)
    requires Running(c, s) && Booted(s) && s.mode.recovered != []
    ensures var acts := [Bget(0, s.mode.recovered[0], [])];
            Legal(c, s, acts) && CrashFree(acts) && !InUseSafe(Exec(c, s, acts))
  {
    var b := s.mode.recovered[0];
    var a := Bget(0, b, []);
    assert [a][..0] == [];
    assert b in s.cache;
    HolderFacts(c, s, b);
    assert CanGet(c, s, 0, b);
    assert Legal(c, s, []) && Exec(c, s, []) == s && Enabled(c, s, a);
    var f := DoGet(s, 0, b, []);
    assert Legal(c, s, [a]) && Exec(c, s, [a]) == f;
    assert f.users[b] == {0} && Recyclable(f.cache, b);
  }

  lemma RunningIsSafe(c: Config, s: State)
    requires Running(c, s) && s.mode == Up([])
    ensures InUseSafe(s)
  {
    forall b | b in s.users && s.users[b] != {} ensures !Recyclable(s.cache, b) {
      if b in s.cache { Transparent(c, s, b); }
    }
  }

  lemma SafeIffNothingRecovered(c: Config, s: State)
    requires Running(c, s) && Booted(s)
    ensures AlwaysInUseSafe(c, s) <==> s.mode.recovered == []
  {
    if s.mode.recovered == [] {
      forall acts | Legal(c, s, acts) && CrashFree(acts)
        ensures InUseSafe(Exec(c, s, acts))
      {
        StaysRunning(c, s, acts);
        RunningIsSafe(c, Exec(c, s, acts));
      }
    } else {
      OneReadBreaksIt(c, s);
    }
  }

  // ---- log space without the lock --------------------------------------------------------

  /** s' is reachable from s by a run without a crash. */
  ghost predicate Reaches(c: Config, s: State, s': State) {
    exists acts :: Legal(c, s, acts) && CrashFree(acts) && Exec(c, s, acts) == s'
  }

  lemma Extend(c: Config, s: State, p: State, a: Step)
    requires Reaches(c, s, p) && Enabled(c, p, a) && !a.Crash?
    ensures Reaches(c, s, Apply(c, p, a))
  {
    var acts :| Legal(c, s, acts) && CrashFree(acts) && Exec(c, s, acts) == p;
    var more := acts + [a];
    assert more[..|more| - 1] == acts;
    assert Legal(c, s, more) && Exec(c, s, more) == Apply(c, p, a);
  }

  /** A set of states that holds what a step without a crash makes of its members. */
  type States = State -> bool

  ghost predicate GoesOnIn(c: Config, r: States, p: State, a: Step) {
    r(p) && Enabled(c, p, a) && !a.Crash? ==> r(Apply(c, p, a))
  }

  ghost predicate Onward(c: Config, r: States) {
    forall p, a {:trigger GoesOnIn(c, r, p, a)} :: GoesOnIn(c, r, p, a)
  }

  lemma Step1(c: Config, r: States, p: State, a: Step)
    requires Onward(c, r) && r(p) && Enabled(c, p, a) && !a.Crash?
    ensures r(Apply(c, p, a))
  {
    assert GoesOnIn(c, r, p, a);
  }

  /** The states that can be reached from s are such a set. */
  lemma ReachableOnward(c: Config, s: State) returns (r: States)
    ensures Onward(c, r) && r(s) && forall p :: r(p) ==> Reaches(c, s, p)
  {
    r := p => Reaches(c, s, p);
    assert Legal(c, s, []) && CrashFree([]) && Exec(c, s, []) == s;
    forall p, a ensures GoesOnIn(c, r, p, a) {
      if r(p) && Enabled(c, p, a) && !a.Crash? { Extend(c, s, p, a); }
    }
  }

  /** A freshly booted system with nothing cached. */
  predicate Fresh(s: State) {
    s.mode == Up([]) && Quiet(s) && s.cache == map[] && s.users == map[]
  }

  /** bread(b) by thread t. */
  lemma Read(c: Config, r: States, s: State, t: nat, b: int) returns (s': State)
    requires Onward(c, r) && r(s) && s.mode == Up([]) && t < NPROC
    requires c.g.IsHome(b) && |s.disk| == c.g.size && b !in s.cache && b !in s.users && b !in s.lock
    ensures r(s')
    ensures s' == s.(cache := s.cache[b := Entry(true, s.disk[b], 1)], users := s.users[b := {t}],
                     lock := s.lock[b := t])
  {
    Step1(c, r, s, Bget(t, b, []));
    assert {} + {t} == {t};
    var s1 := s.(cache := s.cache[b := Entry(false, [], 1)], users := s.users[b := {t}]);
    assert Apply(c, s, Bget(t, b, [])) == s1;
    Step1(c, r, s1, Lock(t, b));
    var s2 := s1.(lock := s.lock[b := t]);
    Step1(c, r, s2, Fill(t, b));
    s' := DoFill(s2, b);
    assert s'.cache == s.cache[b := Entry(true, s.disk[b], 1)];
  }

  /** brelse(b) by its only user, who has logged it. */
  lemma GiveBack(c: Config, r: States, s: State, t: nat, b: int) returns (s': State)
    requires Onward(c, r) && r(s) && s.mode == Up([])
    requires b in s.lock && s.lock[b] == t && b in s.users && s.users[b] == {t} && b !in s.dirty
    requires b in s.cache && s.cache[b].refcnt == 2
    ensures r(s')
    ensures s' == s.(cache := s.cache[b := s.cache[b].(refcnt := 1)], users := s.users[b := {}],
                     lock := s.lock - {b})
  {
    Step1(c, r, s, Unlock(t, b));
    var s1 := s.(lock := s.lock - {b});
    Step1(c, r, s1, Release(t, b));
    assert {t} - {t} == {};
    s' := DoRelease(s1, t, b);
  }

  /** Thread t has block b locked, filled and through the unlocked tests of log_write(). */
  lemma Prepare(c: Config, r: States, s: State, t: nat, b: int) returns (s': State)
    requires Onward(c, r) && r(s) && s.mode == Up([]) && t < NPROC && t in s.ops
    requires c.g.IsHome(b) && |s.disk| == c.g.size && b !in s.cache && b !in s.users && b !in s.lock
    requires |s.lh| < LOGSIZE - 1 && LOGSIZE <= c.g.nlog && 1 <= s.outstanding
    ensures r(s')
    ensures s' == s.(cache := s.cache[b := Entry(true, s.disk[b], 1)], users := s.users[b := {t}],
                     lock := s.lock[b := t], ops := s.ops[t := s.ops[t].(checked := true)])
  {
    var s1 := Read(c, r, s, t, b);
    Step1(c, r, s1, LogCheck(t));
    s' := DoCheck(s1, t);
  }

  /** log_write(), and the buffer is released again. */
  lemma StoreOne(c: Config, r: States, s: State, t: nat, b: int) returns (s': State)
    requires Onward(c, r) && r(s) && s.mode == Up([]) && t in s.ops && s.ops[t].checked
    requires b in s.lock && s.lock[b] == t && b in s.users && s.users[b] == {t} && b !in s.lh && s.dirty == {}
    requires b in s.cache && s.cache[b].valid && s.cache[b].refcnt == 1 && s.ops[t].used < c.budget
    ensures r(s')
    ensures s' == s.(lh := s.lh + [b], users := s.users[b := {}], lock := s.lock - {b},
                     ops := s.ops[t := Op(s.ops[t].used + 1, false)])
  {
    Step1(c, r, s, LogStore(t, b));
    var e := s.cache[b];
    var s1 := s.(lh := s.lh + [b], cache := s.cache[b := e.(refcnt := 2)],
                 ops := s.ops[t := Op(s.ops[t].used + 1, false)]);
    assert DoStore(s, t, b) == s1 by { assert {} - {b} == {}; }
    s' := GiveBack(c, r, s1, t, b);
    assert s1.cache[b := e] == s.cache;
  }

  /** The k-th block after the log area. */
  function Nth(c: Config, k: nat): int { c.g.start + c.g.nlog + k }

  predicate Below(c: Config, s: State, n: nat, b: int) {
    (b in s.cache || b in s.users ==> b < Nth(c, n)) && (b in s.lh ==> b in s.cache)
  }

  /** The blocks Nth(0) .. Nth(n - 1) are logged, thread 0, 1 and 2 are in an operation. */
  ghost predicate Logged(c: Config, s: State, n: nat) {
    && s.mode == Up([]) && |s.disk| == c.g.size && s.lock == map[] && s.dirty == {}
    && !s.committing && s.outstanding == 3
    && |s.lh| == n
    && (forall b {:trigger Below(c, s, n, b)} :: Below(c, s, n, b))
    && 0 in s.ops && 1 in s.ops && 2 in s.ops
  }

  /** bread(b), log_write(b), brelse(b) by thread t. */
  lemma LogBlock(c: Config, r: States, s: State, t: nat, b: int) returns (s': State)
    requires Onward(c, r) && r(s) && s.mode == Up([]) && t < NPROC && t in s.ops && s.ops[t].used < c.budget
    requires c.g.IsHome(b) && |s.disk| == c.g.size && b !in s.cache && b !in s.users && b !in s.lh
    requires s.lock == map[] && s.dirty == {}
    requires |s.lh| < LOGSIZE - 1 && LOGSIZE <= c.g.nlog && 1 <= s.outstanding
    ensures r(s')
    ensures s' == s.(lh := s.lh + [b], cache := s.cache[b := Entry(true, s.disk[b], 1)], users := s.users[b := {}],
                     ops := s.ops[t := Op(s.ops[t].used + 1, false)])
  {
    var s1 := Prepare(c, r, s, t, b);
    s' := StoreOne(c, r, s1, t, b);
    assert s.lock[b := t] - {b} == map[];
    assert s.users[b := {t}][b := {}] == s.users[b := {}];
    var o := Op(s.ops[t].used + 1, false);
    assert s.ops[t := s.ops[t].(checked := true)][t := o] == s.ops[t := o];
  }

  lemma LogOne(c: Config, r: States, s: State, t: nat, n: nat) returns (s': State)
    requires Onward(c, r) && r(s) && Logged(c, s, n) && t < 3 && t in s.ops
    requires n + 1 < LOGSIZE <= c.g.nlog && s.ops[t].used < c.budget
    requires c.g.start + c.g.nlog + LOGSIZE <= c.g.size
    ensures r(s') && Logged(c, s', n + 1)
    ensures s'.ops == s.ops[t := Op(s.ops[t].used + 1, false)]
  {
    assert Below(c, s, n, Nth(c, n));
    s' := LogBlock(c, r, s, t, Nth(c, n));
    LoggedGrows(c, s, t, n);
  }

  lemma LoggedGrows(c: Config, s: State, t: nat, n: nat)
    requires Logged(c, s, n) && t in s.ops && 0 <= Nth(c, n) < |s.disk|
    ensures var b := Nth(c, n);
            Logged(c, s.(lh := s.lh + [b], cache := s.cache[b := Entry(true, s.disk[b], 1)], users := s.users[b := {}],
                         ops := s.ops[t := Op(s.ops[t].used + 1, false)]), n + 1)
  {
    var b := Nth(c, n);
    var s' := s.(lh := s.lh + [b], cache := s.cache[b := Entry(true, s.disk[b], 1)], users := s.users[b := {}],
                 ops := s.ops[t := Op(s.ops[t].used + 1, false)]);
    var n' := n + 1;
    forall x ensures Below(c, s', n', x) { assert Below(c, s, n, x); }
  }

  /** From s0 the system can come to s, with n blocks logged and these operations open. */
  ghost predicate Arrived(c: Config, r: States, s: State, n: nat, ops: map<nat, Op>) {
    r(s) && Logged(c, s, n) && s.ops == ops
  }

  lemma {:induction false} LogMany(c: Config, r: States, s: State, t: nat, n: nat, m: nat) returns (s': State)
    requires Onward(c, r) && Arrived(c, r, s, n, s.ops) && t < 3 && t in s.ops && !s.ops[t].checked
    requires n + m < LOGSIZE <= c.g.nlog && s.ops[t].used + m <= c.budget
    requires c.g.start + c.g.nlog + LOGSIZE <= c.g.size
    ensures Arrived(c, r, s', n + m, s.ops[t := Op(s.ops[t].used + m, false)])
    decreases m
  {
    if m == 0 {
      s' := s;
      SetTwice(s.ops, t, s.ops[t], s.ops[t]);
    } else {
      var s1 := LogOne(c, r, s, t, n);
      s' := LogMany(c, r, s1, t, n + 1, m - 1);
      SetTwice(s.ops, t, s1.ops[t], Op(s.ops[t].used + m, false));
    }
  }

  lemma SetTwice(ops: map<nat, Op>, t: nat, o: Op, o': Op)
    requires t in ops
    ensures ops[t := o][t := o'] == ops[t := o'] && ops[t := ops[t]] == ops
  {
  }

  /** Two operations pass the test at line 218 together and overfill the log. */
  lemma RaceOverfills(c: Config, r: States, s0: State) returns (s: State)
    requires Onward(c, r) && r(s0) && c.Ok() && Fresh(s0) && |s0.disk| == c.g.size
    requires c.g.nlog == LOGSIZE && c.budget == MAXOPBLOCKS && c.g.start + 2 * LOGSIZE <= c.g.size
    ensures r(s) && Idle3(s) && |s.disk| == c.g.size
  {
    var s1 := ThreeBegin(c, r, s0);
    var s2 := LogMany(c, r, s1, 2, 0, 10);
    var s3 := LogMany(c, r, s2, 1, 10, 9);
    var s4 := LogMany(c, r, s3, 0, 19, 9);
    s := Race(c, r, s4);
  }

  lemma ThreeBegin(c: Config, r: States, s0: State) returns (s: State)
    requires Onward(c, r) && r(s0) && Fresh(s0) && |s0.disk| == c.g.size
    ensures r(s) && Logged(c, s, 0)
    ensures s.ops[0] == s.ops[1] == s.ops[2] == Op(0, false)
  {
    Step1(c, r, s0, BeginOp(0));
    var s1 := Begin(s0, 0);
    Step1(c, r, s1, BeginOp(1));
    var s2 := Begin(s1, 1);
    Step1(c, r, s2, BeginOp(2));
    s := Begin(s2, 2);
  }

  lemma Race(c: Config, r: States, s: State) returns (s': State)
    requires Onward(c, r) && r(s) && Logged(c, s, 28)
    requires 0 in s.ops && 1 in s.ops && s.ops[0].used == 9 && s.ops[1].used == 9
    requires c.g.nlog == LOGSIZE && c.budget == MAXOPBLOCKS && c.g.start + 2 * LOGSIZE <= c.g.size
    ensures r(s') && Idle3(s') && |s'.disk| == c.g.size
  {
    var b, d := Nth(c, 28), Nth(c, 29);
    assert Below(c, s, 28, b) && Below(c, s, 28, d);
    var s1 := Prepare(c, r, s, 0, b);
    var s2 := Prepare(c, r, s1, 1, d);
    var s3 := StoreOne(c, r, s2, 0, b);
    s' := StoreOne(c, r, s3, 1, d);
    assert s'.lock == map[];
    forall x ensures Cached(s', x) { assert Below(c, s, 28, x); }
  }

  ghost predicate NeverOverfills(c: Config, s: State) {
    forall s' :: Reaches(c, s, s') ==> |s'.lh| < c.g.nlog
  }

  lemma FreshRuns(c: Config, s: State)
    requires c.Ok() && c.Fits() && Fresh(s) && HeaderOk(c.g, s.disk) && Count(c.g, s.disk) == 0
    ensures Running(c, s)
  {
    NoOps(c.budget, NPROC);
    DistinctIs([]);
  }

  /** On the layout mkfs makes (nlog == LOGSIZE) the log area is never overrun iff no
      operation adds MAXOPBLOCKS entries; the test at line 218 does not prevent it. */
  lemma SpaceIffBudget(c: Config, s0: State)
    requires c.Ok() && Fresh(s0) && HeaderOk(c.g, s0.disk) && Count(c.g, s0.disk) == 0
    requires c.g.nlog == LOGSIZE && c.g.start + 2 * LOGSIZE <= c.g.size
    ensures NeverOverfills(c, s0) <==> c.budget < MAXOPBLOCKS
  {
    if c.budget < MAXOPBLOCKS {
      FreshRuns(c, s0);
      forall s' | Reaches(c, s0, s')
        ensures |s'.lh| < c.g.nlog
      {
        var acts :| Legal(c, s0, acts) && CrashFree(acts) && Exec(c, s0, acts) == s';
        StaysRunning(c, s0, acts);
        OpsWithin(s'.ops, c.budget);
        UnusedBounds(s'.ops, c.budget, NPROC);
      }
    } else {
      var r := ReachableOnward(c, s0);
      var s := RaceOverfills(c, r, s0);
    }
  }

  // ---- the overrun itself ------------------------------------------------------------------

  /** Everything logged is cached and nobody holds a buffer. */
  ghost predicate Idle3(s: State) {
    && s.mode.Up? && s.lock == map[] && !s.committing && s.outstanding == 3 && 0 in s.ops && 1 in s.ops && 2 in s.ops
    && |s.lh| == LOGSIZE && forall b {:trigger Cached(s, b)} :: Cached(s, b)
  }

  predicate Cached(s: State, b: int) { b in s.lh ==> b in s.cache }

  /** write_log() has copied i of the entries. */
  ghost predicate CopiedUpTo(s: State, i: nat) {
    && s.mode.Up? && s.lock == map[] && s.commit == Copying(i)
    && |s.lh| == LOGSIZE && forall b {:trigger Cached(s, b)} :: Cached(s, b)
  }

  lemma EndOne(c: Config, r: States, s: State, t: nat)
    requires Onward(c, r) && r(s) && s.mode.Up? && s.lock == map[] && !s.committing && 0 < s.outstanding && t in s.ops
    ensures r(End(s, t))
  {
    Step1(c, r, s, EndOp(t));
  }

  lemma EndAll(c: Config, r: States, s: State) returns (f: State)
    requires Onward(c, r) && r(s) && Idle3(s)
    ensures r(f) && CopiedUpTo(f, 0) && f.disk == s.disk
  {
    EndOne(c, r, s, 0);
    var s1 := End(s, 0);
    EndOne(c, r, s1, 1);
    var s2 := End(s1, 1);
    EndOne(c, r, s2, 2);
    f := End(s2, 2);
    forall b ensures Cached(f, b) { assert Cached(s, b); }
  }

  lemma CopyOne(c: Config, r: States, s: State, i: nat) returns (f: State)
    requires Onward(c, r) && r(s) && CopiedUpTo(s, i) && i < LOGSIZE && c.g.Ok() && c.g.start + LOGSIZE < |s.disk|
    ensures CanCopy(c, s)
    ensures r(f) && CopiedUpTo(f, i + 1) && |f.disk| == |s.disk|
  {
    assert Cached(s, s.lh[i]);
    Step1(c, r, s, CommitCopy);
    f := DoCopy(c, s);
    forall b ensures Cached(f, b) { assert Cached(s, b); }
  }

  lemma {:induction false} CopyMany(c: Config, r: States, s: State, i: nat) returns (f: State)
    requires Onward(c, r) && r(s) && CopiedUpTo(s, 0) && i <= LOGSIZE && c.g.Ok() && c.g.start + LOGSIZE < |s.disk|
    ensures r(f) && CopiedUpTo(f, i) && |f.disk| == |s.disk|
  {
    if i == 0 {
      f := s;
    } else {
      var p := CopyMany(c, r, s, i - 1);
      f := CopyOne(c, r, p, i - 1);
    }
  }

  /** With a full budget commit() reaches a write_log() step that overwrites a home block, before the
      header makes the transaction durable: the block after the log area gets the last entry's data. */
  lemma OverrunReached(c: Config, s0: State) returns (f: State)
    requires c.Ok() && Fresh(s0) && |s0.disk| == c.g.size
    requires c.g.nlog == LOGSIZE && c.budget == MAXOPBLOCKS && c.g.start + 2 * LOGSIZE <= c.g.size
    ensures Reaches(c, s0, f) && CanCopy(c, f)
    ensures var b := c.g.start + 1 + f.commit.i;
            c.g.IsHome(b) && f.commit.i == LOGSIZE - 1
            && DoCopy(c, f).disk == f.disk[b := f.cache[f.lh[f.commit.i]].data]
  {
    var r := ReachableOnward(c, s0);
    var s1 := RaceOverfills(c, r, s0);
    var s2 := EndAll(c, r, s1);
    f := CopyMany(c, r, s2, LOGSIZE - 1);
    var f' := CopyOne(c, r, f, LOGSIZE - 1);
  }
}
