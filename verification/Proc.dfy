/** kernel/proc.c on several CPUs: scheduling, sleep and wakeup, fork, exit and wait as steps of
    one transition system.  A step is a stretch of code that runs under the lock it takes; the
    locks that exit() and wait() keep over a table scan are held from step to step. */
module Proc {

  datatype PState = Unused | Sleeping | Runnable | Running | Zombie

  /** What a process sleeps on: some kernel address, or its own proc struct (in wait()). */
  datatype Chan = NoChan | Addr(a: nat) | Self(p: nat)

  /** Where the kernel thread of a process is.  The names ending in -Sched have called sched()
      and still hold p->lock; Forked, Yielded, Slept and Waited are where it resumes. */
  datatype Pc =
    | Dead
    | Forked | Yielded(back: Pc) | Slept(a: nat) | Waited
    | User
    | YieldSched(back: Pc) | SleepSched(a: nat) | WaitSched | ExitSched
    | SleepLocked(a: nat)                     // sleep(): has p->lock, still has lk
    | SleepReady(a: nat)                      // sleep(): has released lk
    | ExitA | ExitB(op: nat) | ExitC(op: nat) | ExitD(op: nat, i: nat)
    | WaitScan(i: nat, kids: bool)

  datatype State = State(
    init: nat,
    st: seq<PState>,
    parent: seq<int>,                         // -1 for none
    chan: seq<Chan>,
    killed: seq<bool>,
    lock: seq<int>,                           // whose thread holds p->lock, -1 for nobody
    pc: seq<Pc>,
    cpu: seq<int>,                            // c->proc, -1 for none
    on: seq<int>,                             // the CPU a process runs on, -1 for none
    sleeps: seq<nat>,                         // how many sleeps have released their lock
    calls: seq<Call>)                         // every call of wakeup() so far

  predicate Sized(s: State) {
    && s.init < |s.st|
    && |s.st| == |s.parent| == |s.chan| == |s.killed| == |s.lock| == |s.pc| == |s.on| == |s.sleeps|
  }

  /** p's kernel thread is executing and is at `pc`. */
  predicate At(s: State, p: nat) { Sized(s) && p < |s.st| && s.on[p] >= 0 }

  predicate FreeLock(s: State, p: int) { Sized(s) && 0 <= p < |s.st| && s.lock[p] == -1 }

  // ---- scheduler() and sched() --------------------------------------------------------------

  predicate CanDispatch(s: State, c: nat, p: nat) {
    FreeLock(s, p) && c < |s.cpu| && s.cpu[c] == -1 && s.st[p] == Runnable
  }

  function Dispatch(s: State, c: nat, p: nat): State
    requires CanDispatch(s, c, p)
  {
    s.(st := s.st[p := Running], lock := s.lock[p := p], cpu := s.cpu[c := p], on := s.on[p := c])
  }

  predicate CanSwitch(s: State, p: nat) {
    && At(s, p) && s.on[p] < |s.cpu|
    && (s.pc[p].YieldSched? || s.pc[p].SleepSched? || s.pc[p].WaitSched? || s.pc[p].ExitSched?)
  }

  function Switch(s: State, p: nat): State
    requires CanSwitch(s, p)
  {
    var next := match s.pc[p]
                case YieldSched(back) => Yielded(back)
                case SleepSched(a) => Slept(a)
                case WaitSched => Waited
                case _ => Dead;
    s.(cpu := s.cpu[s.on[p] := -1], on := s.on[p := -1], lock := s.lock[p := -1], pc := s.pc[p := next])
  }

  // ---- yield() and the release in forkret() ---------------------------------------------------

  /** The timer may take the CPU away wherever the thread holds no lock, also inside exit(). */
  predicate CanYield(s: State, p: nat) {
    At(s, p) && (s.pc[p].User? || s.pc[p].ExitA? || s.pc[p].ExitB?) && s.lock[p] == -1
  }

  function Yield(s: State, p: nat): State
    requires CanYield(s, p)
  {
    s.(st := s.st[p := Runnable], lock := s.lock[p := p], pc := s.pc[p := YieldSched(s.pc[p])])
  }

  predicate CanLetGo(s: State, p: nat) { At(s, p) && (s.pc[p].Yielded? || s.pc[p].Forked?) }

  function LetGo(s: State, p: nat): State
    requires CanLetGo(s, p)
  {
    s.(lock := s.lock[p := -1], pc := s.pc[p := if s.pc[p].Yielded? then s.pc[p].back else User])
  }

  // ---- sleep() and wakeup() -------------------------------------------------------------------

  predicate CanSleep(s: State, p: nat) { At(s, p) && s.pc[p].User? && s.lock[p] == -1 }

  function Sleep(s: State, p: nat, a: nat): State
    requires CanSleep(s, p)
  {
    s.(lock := s.lock[p := p], pc := s.pc[p := SleepLocked(a)])
  }

  predicate CanRelease(s: State, p: nat) { At(s, p) && s.pc[p].SleepLocked? }

  function Release(s: State, p: nat): State
    requires CanRelease(s, p)
  {
    s.(pc := s.pc[p := SleepReady(s.pc[p].a)], sleeps := s.sleeps[p := s.sleeps[p] + 1])
  }

  predicate CanDoze(s: State, p: nat) { At(s, p) && s.pc[p].SleepReady? }

  function Doze(s: State, p: nat): State
    requires CanDoze(s, p)
  {
    var a := s.pc[p].a;
    s.(chan := s.chan[p := Addr(a)], st := s.st[p := Sleeping], pc := s.pc[p := SleepSched(a)])
  }

  predicate CanRise(s: State, p: nat) { At(s, p) && s.pc[p].Slept? }

  function Rise(s: State, p: nat): State
    requires CanRise(s, p)
  {
    s.(chan := s.chan[p := NoChan], lock := s.lock[p := -1], pc := s.pc[p := User])
  }

  /** p has released its lock in sleep(a) and has not been woken since. */
  predicate AsleepOn(s: State, p: nat, a: nat)
    requires Sized(s) && p < |s.st|
  {
    || s.pc[p] == SleepReady(a)
    || s.pc[p] == SleepSched(a)
    || (s.pc[p] == Slept(a) && s.st[p] == Sleeping)
  }

  /** A call of wakeup(a) that has looked at the table entries below `i`; `due` records the
      sleeps that had released their lock when it started. */
  datatype Call = Call(a: nat, i: nat, due: map<nat, nat>)

  /** wakeup() starts, from any thread or interrupt handler. */
  function WakeStart(s: State, a: nat): State
    requires Sized(s)
  {
    s.(calls := s.calls + [Call(a, 0, map p | 0 <= p < |s.st| && AsleepOn(s, p, a) :: s.sleeps[p])])
  }

  predicate CanWakeOne(s: State, w: nat) { w < |s.calls| && FreeLock(s, s.calls[w].i) }

  function WakeOne(s: State, w: nat): State
    requires CanWakeOne(s, w)
  {
    var Call(a, i, due) := s.calls[w];
    s.(st := if s.st[i] == Sleeping && s.chan[i] == Addr(a) then s.st[i := Runnable] else s.st,
       calls := s.calls[w := Call(a, i + 1, due)])
  }

  predicate CanKill(s: State, p: nat, q: nat) { At(s, p) && s.pc[p].User? && FreeLock(s, q) }

  function Kill(s: State, q: nat): State
    requires FreeLock(s, q)
  {
    s.(killed := s.killed[q := true], st := if s.st[q] == Sleeping then s.st[q := Runnable] else s.st)
  }

  // ---- fork(), exit(), wait() -----------------------------------------------------------------

  predicate CanFork(s: State, p: nat, np: nat) {
    At(s, p) && s.pc[p].User? && FreeLock(s, np) && s.st[np] == Unused
  }

  function Fork(s: State, p: nat, np: nat): State
    requires CanFork(s, p, np)
  {
    s.(st := s.st[np := Runnable], parent := s.parent[np := p], chan := s.chan[np := NoChan],
       killed := s.killed[np := false], pc := s.pc[np := Forked])
  }

  /** wakeup1() */
  function Wake1(s: State, q: nat): seq<PState>
    requires Sized(s) && q < |s.st|
  {
    if s.chan[q] == Self(q) && s.st[q] == Sleeping then s.st[q := Runnable] else s.st
  }

  predicate CanExit(s: State, p: nat) { At(s, p) && s.pc[p].User? && p != s.init && FreeLock(s, s.init) }

  function Exit(s: State, p: nat): State
    requires CanExit(s, p)
  {
    s.(st := Wake1(s, s.init), pc := s.pc[p := ExitA])
  }

  predicate CanExitRead(s: State, p: nat) {
    At(s, p) && s.pc[p].ExitA? && s.lock[p] == -1 && 0 <= s.parent[p] < |s.st|
  }

  function ExitRead(s: State, p: nat): State
    requires CanExitRead(s, p)
  {
    s.(pc := s.pc[p := ExitB(s.parent[p])])
  }

  predicate CanLockParent(s: State, p: nat) { At(s, p) && s.pc[p].ExitB? && FreeLock(s, s.pc[p].op) }

  function LockParent(s: State, p: nat): State
    requires CanLockParent(s, p)
  {
    s.(lock := s.lock[s.pc[p].op := p], pc := s.pc[p := ExitC(s.pc[p].op)])
  }

  predicate CanLockSelf(s: State, p: nat) { At(s, p) && s.pc[p].ExitC? && s.lock[p] == -1 }

  function LockSelf(s: State, p: nat): State
    requires CanLockSelf(s, p)
  {
    s.(lock := s.lock[p := p], pc := s.pc[p := ExitD(s.pc[p].op, 0)])
  }

  /** One entry of reparent(). */
  predicate CanReparent(s: State, p: nat) {
    At(s, p) && s.pc[p].ExitD? && s.pc[p].i < |s.st| && (s.parent[s.pc[p].i] == p ==> FreeLock(s, s.pc[p].i))
  }

  function Reparent(s: State, p: nat): State
    requires CanReparent(s, p)
  {
    var ExitD(op, i) := s.pc[p];
    s.(parent := if s.parent[i] == p then s.parent[i := s.init] else s.parent, pc := s.pc[p := ExitD(op, i + 1)])
  }

  predicate CanDie(s: State, p: nat) {
    At(s, p) && s.pc[p].ExitD? && s.pc[p].i == |s.st| && s.pc[p].op < |s.st|
  }

  function Die(s: State, p: nat): State
    requires CanDie(s, p)
  {
    var op := s.pc[p].op;
    s.(st := Wake1(s, op)[p := Zombie], lock := s.lock[op := -1], pc := s.pc[p := ExitSched])
  }

  predicate CanWait(s: State, p: nat) { At(s, p) && s.pc[p].User? && s.lock[p] == -1 }

  function Wait(s: State, p: nat): State
    requires CanWait(s, p)
  {
    s.(lock := s.lock[p := p], pc := s.pc[p := WaitScan(0, false)])
  }

  predicate CanLook(s: State, p: nat) {
    At(s, p) && s.pc[p].WaitScan? && s.pc[p].i < |s.st| && (s.parent[s.pc[p].i] == p ==> FreeLock(s, s.pc[p].i))
  }

  /** One entry of the scan in wait(); a zombie child is freed and wait() returns. */
  function Look(s: State, p: nat): State
    requires CanLook(s, p)
  {
    var WaitScan(i, kids) := s.pc[p];
    if s.parent[i] != p then s.(pc := s.pc[p := WaitScan(i + 1, kids)])
    else if s.st[i] != Zombie then s.(pc := s.pc[p := WaitScan(i + 1, true)])
    else s.(st := s.st[i := Unused], parent := s.parent[i := -1], chan := s.chan[i := NoChan],
            killed := s.killed[i := false], lock := s.lock[p := -1], pc := s.pc[p := User])
  }

  /** No children, killed, or a failed copyout() of a zombie's exit status. */
  predicate CanGiveUp(s: State, p: nat) {
    && At(s, p) && s.pc[p].WaitScan?
    && (if s.pc[p].i == |s.st| then !s.pc[p].kids || s.killed[p]
        else FreeLock(s, s.pc[p].i) && s.parent[s.pc[p].i] == p && s.st[s.pc[p].i] == Zombie)
  }

  function GiveUp(s: State, p: nat): State
    requires CanGiveUp(s, p)
  {
    s.(lock := s.lock[p := -1], pc := s.pc[p := User])
  }

  predicate CanWaitSleep(s: State, p: nat) {
    At(s, p) && s.pc[p].WaitScan? && s.pc[p].i == |s.st| && s.pc[p].kids && !s.killed[p]
  }

  function WaitSleep(s: State, p: nat): State
    requires CanWaitSleep(s, p)
  {
    s.(chan := s.chan[p := Self(p)], st := s.st[p := Sleeping], pc := s.pc[p := WaitSched])
  }

  predicate CanWaitAgain(s: State, p: nat) { At(s, p) && s.pc[p].Waited? }

  function WaitAgain(s: State, p: nat): State
    requires CanWaitAgain(s, p)
  {
    s.(chan := s.chan[p := NoChan], pc := s.pc[p := WaitScan(0, false)])
  }

  // ---- the transition system --------------------------------------------------------------------

  /** scheduler(), yield(), sleep(), wakeup(), kill() and fork(). */
  datatype Turn =
    | DoDispatch(c: nat, p: nat) | DoSwitch(p: nat) | DoYield(p: nat) | DoLetGo(p: nat)
    | DoSleep(p: nat, a: nat) | DoRelease(p: nat) | DoDoze(p: nat) | DoRise(p: nat)
    | DoWakeStart(a: nat) | DoWakeOne(w: nat) | DoKill(p: nat, q: nat)
    | DoFork(p: nat, np: nat)

  /** exit(). */
  datatype Leave =
    | DoExit(p: nat) | DoExitRead(p: nat) | DoLockParent(p: nat) | DoLockSelf(p: nat)
    | DoReparent(p: nat) | DoDie(p: nat)

  /** wait(). */
  datatype Await = DoWait(p: nat) | DoLook(p: nat) | DoGiveUp(p: nat) | DoWaitSleep(p: nat) | DoWaitAgain(p: nat)

  datatype Step = ByTurn(turn: Turn) | ByLeave(leave: Leave) | ByAwait(await: Await)

  predicate CanTurn(s: State, a: Turn) {
    match a
    case DoDispatch(c, p) => CanDispatch(s, c, p)
    case DoSwitch(p) => CanSwitch(s, p)
    case DoYield(p) => CanYield(s, p)
    case DoLetGo(p) => CanLetGo(s, p)
    case DoSleep(p, _) => CanSleep(s, p)
    case DoRelease(p) => CanRelease(s, p)
    case DoDoze(p) => CanDoze(s, p)
    case DoRise(p) => CanRise(s, p)
    case DoWakeStart(_) => Sized(s)
    case DoWakeOne(w) => CanWakeOne(s, w)
    case DoKill(p, q) => CanKill(s, p, q)
    case DoFork(p, np) => CanFork(s, p, np)
  }

  function TakeTurn(s: State, a: Turn): State
    requires CanTurn(s, a)
  {
    match a
    case DoDispatch(c, p) => Dispatch(s, c, p)
    case DoSwitch(p) => Switch(s, p)
    case DoYield(p) => Yield(s, p)
    case DoLetGo(p) => LetGo(s, p)
    case DoSleep(p, a) => Sleep(s, p, a)
    case DoRelease(p) => Release(s, p)
    case DoDoze(p) => Doze(s, p)
    case DoRise(p) => Rise(s, p)
    case DoWakeStart(a) => WakeStart(s, a)
    case DoWakeOne(w) => WakeOne(s, w)
    case DoKill(p, q) => Kill(s, q)
    case DoFork(p, np) => Fork(s, p, np)
  }

  predicate CanLeave(s: State, a: Leave) {
    match a
    case DoExit(p) => CanExit(s, p)
    case DoExitRead(p) => CanExitRead(s, p)
    case DoLockParent(p) => CanLockParent(s, p)
    case DoLockSelf(p) => CanLockSelf(s, p)
    case DoReparent(p) => CanReparent(s, p)
    case DoDie(p) => CanDie(s, p)
  }

  function TakeLeave(s: State, a: Leave): State
    requires CanLeave(s, a)
  {
    match a
    case DoExit(p) => Exit(s, p)
    case DoExitRead(p) => ExitRead(s, p)
    case DoLockParent(p) => LockParent(s, p)
    case DoLockSelf(p) => LockSelf(s, p)
    case DoReparent(p) => Reparent(s, p)
    case DoDie(p) => Die(s, p)
  }

  predicate CanAwait(s: State, a: Await) {
    match a
    case DoWait(p) => CanWait(s, p)
    case DoLook(p) => CanLook(s, p)
    case DoGiveUp(p) => CanGiveUp(s, p)
    case DoWaitSleep(p) => CanWaitSleep(s, p)
    case DoWaitAgain(p) => CanWaitAgain(s, p)
  }

  function TakeAwait(s: State, a: Await): State
    requires CanAwait(s, a)
  {
    match a
    case DoWait(p) => Wait(s, p)
    case DoLook(p) => Look(s, p)
    case DoGiveUp(p) => GiveUp(s, p)
    case DoWaitSleep(p) => WaitSleep(s, p)
    case DoWaitAgain(p) => WaitAgain(s, p)
  }

  predicate Enabled(s: State, a: Step) {
    match a
    case ByTurn(b) => CanTurn(s, b)
    case ByLeave(b) => CanLeave(s, b)
    case ByAwait(b) => CanAwait(s, b)
  }

  function Apply(s: State, a: Step): State
    requires Enabled(s, a)
  {
    match a
    case ByTurn(b) => TakeTurn(s, b)
    case ByLeave(b) => TakeLeave(s, b)
    case ByAwait(b) => TakeAwait(s, b)
  }
}
