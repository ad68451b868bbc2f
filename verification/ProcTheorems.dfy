/** What holds of the process table in every run. */
module ProcTheorems {
  import opened Proc
  import opened ProcInvariant

  /** After userinit(): init is RUNNABLE, every other entry is UNUSED, every CPU is idle. */
  ghost predicate Boot(s: State) {
    && Sized(s) && s.calls == []
    && (forall c: nat :: c < |s.cpu| ==> s.cpu[c] == -1)
    && (forall p: nat :: p < |s.st| ==> s.parent[p] == -1)
    && (forall p: nat :: p < |s.st| ==> s.lock[p] == -1 && s.on[p] == -1)
    && (forall p: nat :: p < |s.st| ==> s.st[p] == (if p == s.init then Runnable else Unused))
    && (forall p: nat :: p < |s.st| ==> s.pc[p] == (if p == s.init then Forked else Dead))
  }

  ghost predicate Legal(s: State, run: seq<Step>)
    decreases |run|, 0
  {
    run == [] || (Legal(s, run[..|run| - 1]) && Enabled(Exec(s, run[..|run| - 1]), run[|run| - 1]))
  }

  ghost function Exec(s: State, run: seq<Step>): State
    requires Legal(s, run)
    decreases |run|, 1
  {
    if run == [] then s else Apply(Exec(s, run[..|run| - 1]), run[|run| - 1])
  }

  lemma BootInv(s: State)
    requires Boot(s)
    ensures Inv(s)
  {
  }

  lemma {:induction false} EveryRun(s: State, run: seq<Step>)
    requires Inv(s) && Legal(s, run)
    ensures var t := Exec(s, run); Inv(t) && t.init == s.init && |t.st| == |s.st|
    decreases |run|
  {
    if run != [] {
      EveryRun(s, run[..|run| - 1]);
      StepKeeps(Exec(s, run[..|run| - 1]), run[|run| - 1]);
    }
  }

  ghost predicate OnOneCpu(cpu: seq<int>, p: nat) {
    exists c: nat :: c < |cpu| && cpu[c] == p && forall d: nat :: d < |cpu| && cpu[d] == p ==> d == c
  }

  /** While nobody holds p->lock, p is RUNNING exactly when exactly one CPU's proc field is p;
      and no two CPUs ever run p. */
  lemma RunningIffOnOneCpu(s: State, run: seq<Step>, p: nat)
    requires Boot(s) && Legal(s, run)
    ensures Sized(Exec(s, run))
    ensures var t := Exec(s, run); forall c: nat, d: nat :: c < d < |t.cpu| && t.cpu[c] == t.cpu[d] ==> t.cpu[c] == -1
    ensures var t := Exec(s, run); FreeLock(t, p) ==> (t.st[p] == Running <==> OnOneCpu(t.cpu, p))
  {
    BootInv(s);
    EveryRun(s, run);
    var t := Exec(s, run);
    assert FitsAt(t, p) && OnAt(t.cpu, t.on, p);
    forall d: nat | d < |t.cpu| && t.cpu[d] != -1 ensures 0 <= t.cpu[d] < |t.on| && d == t.on[t.cpu[d]] {
      assert SeatAt(t.cpu, t.on, d);
    }
  }

  /** Every used process but init has a parent that is neither UNUSED nor ZOMBIE. */
  lemma ParentsAreAlive(s: State, run: seq<Step>, p: nat)
    requires Boot(s) && Legal(s, run)
    ensures Sized(Exec(s, run))
    ensures var t := Exec(s, run);
            p < |t.st| && p != s.init && t.st[p] != Unused ==> 0 <= t.parent[p] < |t.st| && Alive(t.st[t.parent[p]])
  {
    BootInv(s);
    EveryRun(s, run);
    assert ParentAt(s.init, Exec(s, run).st, Exec(s, run).parent, p);
  }

  /** p sleeps in wait() and nobody holds its lock. */
  predicate Waits(s: State, p: nat) {
    FreeLock(s, p) && s.st[p] == Sleeping && s.chan[p] == Self(p)
  }

  predicate ZombieChild(s: State, p: nat, j: nat)
    requires Sized(s)
  {
    j < |s.st| && s.parent[j] == p && s.st[j] == Zombie
  }

  /** A process other than init never sleeps in wait() while it has a zombie child. */
  lemma WaiterHasNoZombie(s: State, run: seq<Step>, p: nat, j: nat)
    requires Boot(s) && Legal(s, run) && p != s.init
    ensures var t := Exec(s, run); Sized(t) && (Waits(t, p) ==> !ZombieChild(t, p, j))
  {
    BootInv(s);
    EveryRun(s, run);
    var t := Exec(s, run);
    assert FitsAt(t, p) && WaitAt(t, p, j);
  }

  // ---- no lost wakeup ---------------------------------------------------------------------------------

  /** The current sleep of p at t was its current sleep at s. */
  predicate GoesOn(s: State, t: State, p: nat, x: nat)
    requires Sized(s) && Sized(t) && p < |s.st| == |t.st|
  {
    && s.sleeps[p] <= t.sleeps[p]
    && (t.sleeps[p] == s.sleeps[p] && Asleep(t, p) ==> Asleep(s, p) && (AsleepOn(s, p, x) ==> AsleepOn(t, p, x)))
  }

  lemma TurnGoesOn(s: State, a: Turn, p: nat, x: nat)
    requires Inv(s) && CanTurn(s, a) && p < |s.st|
    ensures var t := TakeTurn(s, a); Sized(t) && |t.st| == |s.st| && GoesOn(s, t, p, x)
  {
    assert FitsAt(s, p);
  }

  lemma LeaveGoesOn(s: State, a: Leave, p: nat, x: nat)
    requires Inv(s) && CanLeave(s, a) && p < |s.st|
    ensures var t := TakeLeave(s, a); Sized(t) && |t.st| == |s.st| && GoesOn(s, t, p, x)
  {
    assert FitsAt(s, p);
  }

  lemma AwaitGoesOn(s: State, a: Await, p: nat, x: nat)
    requires Inv(s) && CanAwait(s, a) && p < |s.st|
    ensures var t := TakeAwait(s, a); Sized(t) && |t.st| == |s.st| && GoesOn(s, t, p, x)
  {
    assert FitsAt(s, p);
  }

  /** No step puts p back to a sleep it has left. */
  lemma SleepGoesOn(s: State, a: Step, p: nat, x: nat)
    requires Inv(s) && Enabled(s, a) && p < |s.st|
    ensures var t := Apply(s, a); Sized(t) && |t.st| == |s.st| && GoesOn(s, t, p, x)
  {
    match a
    case ByTurn(b) => TurnGoesOn(s, b, p, x);
    case ByLeave(b) => LeaveGoesOn(s, b, p, x);
    case ByAwait(b) => AwaitGoesOn(s, b, p, x);
  }

  /** Every later call of wakeup(x) still has to end that sleep of p. */
  ghost predicate Owed(s: State, t: State, p: nat, x: nat)
    requires Sized(s) && Sized(t) && p < |s.st| == |t.st|
  {
    && |s.calls| <= |t.calls|
    && s.sleeps[p] <= t.sleeps[p]
    && (t.sleeps[p] == s.sleeps[p] && Asleep(t, p) ==>
          && AsleepOn(t, p, x)
          && forall w: nat :: |s.calls| <= w < |t.calls| && t.calls[w].a == x ==>
                p in t.calls[w].due && t.calls[w].due[p] == s.sleeps[p])
  }

  lemma OwedStep(s: State, t: State, a: Step, p: nat, x: nat)
    requires Inv(t) && Sized(s) && p < |s.st| == |t.st| && Enabled(t, a) && Owed(s, t, p, x)
    ensures Sized(Apply(t, a)) && |Apply(t, a).st| == |s.st| && Owed(s, Apply(t, a), p, x)
  {
    SleepGoesOn(t, a, p, x);
  }

  lemma {:induction false} OwedRun(s: State, run: seq<Step>, p: nat, x: nat)
    requires Inv(s) && p < |s.st| && AsleepOn(s, p, x) && Legal(s, run)
    ensures var t := Exec(s, run); Inv(t) && |t.st| == |s.st| && Owed(s, t, p, x)
    decreases |run|
  {
    if run != [] {
      OwedRun(s, run[..|run| - 1], p, x);
      OwedStep(s, Exec(s, run[..|run| - 1]), run[|run| - 1], p, x);
      StepKeeps(Exec(s, run[..|run| - 1]), run[|run| - 1]);
    }
  }

  /** Once p has released its lock in sleep(x), a call of wakeup(x) that starts later returns only
      after p has left that sleep. */
  lemma NoLostWakeup(s: State, before: seq<Step>, after: seq<Step>, p: nat, x: nat, w: nat)
    requires Boot(s) && Legal(s, before)
    requires var m := Exec(s, before); Sized(m) && p < |m.st| && AsleepOn(m, p, x) && Legal(m, after)
    requires var m, t := Exec(s, before), Exec(Exec(s, before), after);
             |m.calls| <= w < |t.calls| && t.calls[w].a == x && t.calls[w].i == |t.st|
    ensures var m, t := Exec(s, before), Exec(Exec(s, before), after);
            Sized(t) && |t.st| == |m.st| && (t.sleeps[p] == m.sleeps[p] ==> !Asleep(t, p))
  {
    BootInv(s);
    EveryRun(s, before);
    var m := Exec(s, before);
    OwedRun(m, after, p, x);
    assert CallAt(Exec(m, after), w, p);
  }

  // ---- the checks in sched() -----------------------------------------------------------------------------

  /** The three conditions sched() panics on never arise: the caller holds its own lock, holds no
      other process's lock, and has given up RUNNING.  A zombie never comes back from sched(). */
  lemma SchedNeverPanics(s: State, run: seq<Step>, p: nat, q: nat)
    requires Boot(s) && Legal(s, run)
    requires var t := Exec(s, run); CanSwitch(t, p) && q < |t.st|
    ensures var t := Exec(s, run); t.lock[p] == p && (t.lock[q] == p ==> q == p) && t.st[p] != Running
    ensures var t := Switch(Exec(s, run), p); t.pc[p].Dead? ==> t.st[p] == Zombie
  {
    BootInv(s);
    EveryRun(s, run);
    var t := Exec(s, run);
    assert FitsAt(t, p) && HolderAt(t.lock, t.pc, q);
  }
}
