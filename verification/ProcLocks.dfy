/** The spinlocks that are no process locks, for the check of noff in sched() (kernel/proc.c:508): it
    panics unless p->lock is the only lock the thread holds. */
module ProcLocks {
  import opened Proc
  import opened ProcInvariant
  import opened ProcTheorems

  /** more[p] is how many of them the kernel thread of p holds. */
  datatype Sys = Sys(s: State, more: seq<nat>)

  datatype Act = Acquire(p: nat) | Release(p: nat) | Do(a: Step)

  /** The process whose own call a step begins, if it must hold no spinlock then: the timer comes only
      while interrupts are on, and fork(), exit() and wait() are called from system calls. */
  function Caller(a: Step): int {
    match a
    case ByTurn(DoYield(p)) => p
    case ByTurn(DoFork(p, _)) => p
    case ByLeave(DoExit(p)) => p
    case ByAwait(DoWait(p)) => p
    case _ => -1
  }

  predicate CanDo(y: Sys, a: Act) {
    && Sized(y.s) && |y.more| == |y.s.st|
    && match a
       case Acquire(p) => At(y.s, p) && y.s.pc[p].User?
       case Release(p) => At(y.s, p) && y.s.pc[p].User? && y.more[p] > 0
       case Do(b) =>
         && Enabled(y.s, b) && (0 <= Caller(b) < |y.more| ==> y.more[Caller(b)] == 0)
         && (b.ByTurn? && b.turn.DoSleep? && b.turn.p < |y.more| ==> y.more[b.turn.p] > 0)
  }

  /** sleep() gives lk up once it has p->lock, and takes it again at the end. */
  function Result(y: Sys, a: Act): Sys
    requires CanDo(y, a)
  {
    match a
    case Acquire(p) => y.(more := y.more[p := y.more[p] + 1])
    case Release(p) => y.(more := y.more[p := y.more[p] - 1])
    case Do(b) => Sys(Apply(y.s, b), MoreAfter(y, b))
  }

  function MoreAfter(y: Sys, b: Step): seq<nat>
    requires CanDo(y, Do(b))
  {
    match b
    case ByTurn(DoRelease(p)) => if y.more[p] > 0 then y.more[p := y.more[p] - 1] else y.more
    case ByTurn(DoRise(p)) => y.more[p := y.more[p] + 1]
    case _ => y.more
  }

  /** sleep() is called with its own lock and no other. */
  predicate Clean(y: Sys, a: Act) {
    a.Do? && a.a.ByTurn? && a.a.turn.DoSleep? && a.a.turn.p < |y.more| ==> y.more[a.a.turn.p] == 1
  }

  predicate MoreAt(pc: seq<Pc>, more: seq<nat>, p: nat)
    requires |pc| == |more|
  {
    p < |pc| && !pc[p].User? ==> more[p] == if pc[p].SleepLocked? then 1 else 0
  }

  ghost predicate LocksOk(y: Sys) {
    && Inv(y.s) && |y.more| == |y.s.st|
    && forall p: nat {:trigger MoreAt(y.s.pc, y.more, p)} :: MoreAt(y.s.pc, y.more, p)
  }

  lemma TurnKeepsMore(y: Sys, a: Turn, p: nat)
    requires LocksOk(y) && CanDo(y, Do(ByTurn(a))) && Clean(y, Do(ByTurn(a)))
    ensures var y' := Result(y, Do(ByTurn(a))); |y'.s.pc| == |y'.more| && MoreAt(y'.s.pc, y'.more, p)
  {
    assert MoreAt(y.s.pc, y.more, p) && FitsAt(y.s, p);
  }

  lemma LeaveKeepsMore(y: Sys, a: Leave, p: nat)
    requires LocksOk(y) && CanDo(y, Do(ByLeave(a)))
    ensures var y' := Result(y, Do(ByLeave(a))); |y'.s.pc| == |y'.more| && MoreAt(y'.s.pc, y'.more, p)
  {
    assert MoreAt(y.s.pc, y.more, p);
  }

  lemma AwaitKeepsMore(y: Sys, a: Await, p: nat)
    requires LocksOk(y) && CanDo(y, Do(ByAwait(a)))
    ensures var y' := Result(y, Do(ByAwait(a))); |y'.s.pc| == |y'.more| && MoreAt(y'.s.pc, y'.more, p)
  {
    assert MoreAt(y.s.pc, y.more, p);
  }

  lemma StepKeepsLocks(y: Sys, a: Act)
    requires LocksOk(y) && CanDo(y, a) && Clean(y, a)
    ensures LocksOk(Result(y, a)) && |Result(y, a).s.st| == |y.s.st|
  {
    var y' := Result(y, a);
    if a.Do? { StepKeeps(y.s, a.a); }
    forall p: nat ensures MoreAt(y'.s.pc, y'.more, p) {
      match a
      case Do(ByTurn(b)) => TurnKeepsMore(y, b, p);
      case Do(ByLeave(b)) => LeaveKeepsMore(y, b, p);
      case Do(ByAwait(b)) => AwaitKeepsMore(y, b, p);
      case _ => assert MoreAt(y.s.pc, y.more, p);
    }
  }

  // ---- runs ---------------------------------------------------------------------------------------------

  ghost predicate CleanRun(y: Sys, acts: seq<Act>, z: Sys)
    decreases |acts|
  {
    if acts == [] then z == y
    else CanDo(y, acts[0]) && Clean(y, acts[0]) && CleanRun(Result(y, acts[0]), acts[1..], z)
  }

  /** What the four tests of sched() want; noff is 1 if p->lock is all that p holds. */
  ghost predicate SchedOk(y: Sys, p: nat) {
    && Sized(y.s) && p < |y.s.st| == |y.more|
    && y.s.lock[p] == p && y.more[p] == 0 && y.s.st[p] != Running
    && forall q: nat :: q < |y.s.st| && y.s.lock[q] == p ==> q == p
  }

  lemma {:induction false} LocksInRun(y: Sys, acts: seq<Act>, z: Sys)
    requires LocksOk(y) && CleanRun(y, acts, z)
    ensures LocksOk(z)
    decreases |acts|
  {
    if acts != [] {
      StepKeepsLocks(y, acts[0]);
      LocksInRun(Result(y, acts[0]), acts[1..], z);
    }
  }

  lemma SwitchIsOk(y: Sys, p: nat)
    requires Inv(y.s) && |y.more| == |y.s.st| && CanSwitch(y.s, p)
    ensures SchedOk(y, p) <==> y.more[p] == 0
  {
    assert FitsAt(y.s, p);
    forall q: nat | q < |y.s.st| && y.s.lock[q] == p ensures q == p { assert HolderAt(y.s.lock, y.s.pc, q); }
  }

  /** In every run in which sleep() is called with one spinlock, sched() finds what it wants. */
  lemma SchedFindsOneLock(s: State, acts: seq<Act>, z: Sys, p: nat)
    requires Boot(s) && CleanRun(Sys(s, seq(|s.st|, _ => 0)), acts, z) && CanSwitch(z.s, p)
    ensures SchedOk(z, p)
  {
    BootInv(s);
    var y := Sys(s, seq(|s.st|, _ => 0));
    forall q: nat ensures MoreAt(y.s.pc, y.more, q) {}
    LocksInRun(y, acts, z);
    assert MoreAt(z.s.pc, z.more, p);
    SwitchIsOk(z, p);
  }

  /** And that is the exact condition: the sleep comes to sched() with one lock less than it had. */
  lemma SleepOkIffOneLock(y: Sys, p: nat, a: nat)
    requires Inv(y.s) && CanDo(y, Do(ByTurn(DoSleep(p, a))))
    ensures var y1 := Result(y, Do(ByTurn(DoSleep(p, a))));
            && CanDo(y1, Do(ByTurn(DoRelease(p))))
            && var y2 := Result(y1, Do(ByTurn(DoRelease(p))));
               && CanDo(y2, Do(ByTurn(DoDoze(p))))
               && var y3 := Result(y2, Do(ByTurn(DoDoze(p))));
                  CanSwitch(y3.s, p) && (SchedOk(y3, p) <==> y.more[p] == 1)
  {
    var y1 := Result(y, Do(ByTurn(DoSleep(p, a))));
    StepKeeps(y.s, ByTurn(DoSleep(p, a)));
    var y2 := Result(y1, Do(ByTurn(DoRelease(p))));
    StepKeeps(y1.s, ByTurn(DoRelease(p)));
    var y3 := Result(y2, Do(ByTurn(DoDoze(p))));
    StepKeeps(y2.s, ByTurn(DoDoze(p)));
    assert FitsAt(y.s, p) && OnAt(y.s.cpu, y.s.on, p);
    SwitchIsOk(y3, p);
  }
}
