/** What every step of the process machine keeps. */
module ProcInvariant {
  import opened Proc

  // ---- CPUs ------------------------------------------------------------------------------------

  predicate SeatAt(cpu: seq<int>, on: seq<int>, c: nat) {
    c < |cpu| ==> cpu[c] == -1 || (0 <= cpu[c] < |on| && on[cpu[c]] == c)
  }

  predicate OnAt(cpu: seq<int>, on: seq<int>, p: nat) {
    p < |on| ==> on[p] == -1 || (0 <= on[p] < |cpu| && cpu[on[p]] == p)
  }

  // ---- one process -----------------------------------------------------------------------------

  /** The points where a thread holds no process lock. */
  predicate Free(pc: Pc) { pc.User? || pc.ExitA? || pc.ExitB? }

  /** What a program point says about the state of its process, whether the process holds its own
      lock, whether it is on a CPU, and its channel. */
  predicate Fits(p: nat, st: PState, pc: Pc, holds: bool, on: bool, chan: Chan) {
    match pc
    case Dead => !on && !holds && (st == Unused || st == Zombie)
    case Forked => on == holds && (if on then st == Running else st == Runnable)
    case Yielded(back) => Free(back) && on == holds && (if on then st == Running else st == Runnable)
    case Slept(a) => on == holds && (if on then st == Running else st == Runnable || st == Sleeping) && chan == Addr(a)
    case Waited => on == holds && (if on then st == Running else st == Runnable || st == Sleeping) && chan == Self(p)
    case User => on && !holds && st == Running
    case YieldSched(back) => Free(back) && on && holds && st == Runnable
    case SleepSched(a) => on && holds && st == Sleeping && chan == Addr(a)
    case WaitSched => on && holds && st == Sleeping && chan == Self(p)
    case ExitSched => on && holds && st == Zombie
    case SleepLocked(_) => on && holds && st == Running
    case SleepReady(_) => on && holds && st == Running
    case ExitA => on && !holds && st == Running
    case ExitB(_) => on && !holds && st == Running
    case ExitC(_) => on && !holds && st == Running
    case ExitD(_, _) => on && holds && st == Running
    case WaitScan(_, _) => on && holds && st == Running
  }

  predicate FitsAt(s: State, p: nat)
    requires Sized(s)
  {
    p < |s.st| ==> Fits(p, s.st[p], s.pc[p], s.lock[p] == p, s.on[p] >= 0, s.chan[p])
  }

  // ---- p->lock held by another process: only by a child in exit() ---------------------------------

  predicate Locks(pc: Pc, p: int) { (pc.ExitC? || pc.ExitD?) && pc.op == p }

  predicate HolderAt(lock: seq<int>, pc: seq<Pc>, p: nat)
    requires |lock| == |pc|
  {
    p < |lock| ==> lock[p] == -1 || lock[p] == p || (0 <= lock[p] < |lock| && Locks(pc[lock[p]], p))
  }

  predicate HoldsAt(lock: seq<int>, pc: seq<Pc>, q: nat)
    requires |lock| == |pc|
  {
    q < |lock| && (pc[q].ExitC? || pc[q].ExitD?) ==> pc[q].op < |lock| && pc[q].op != q && lock[pc[q].op] == q
  }

  // ---- the process tree --------------------------------------------------------------------------

  predicate Alive(st: PState) { st != Unused && st != Zombie }

  predicate ParentAt(init: nat, st: seq<PState>, parent: seq<int>, p: nat)
    requires |st| == |parent|
  {
    p < |st| && p != init && st[p] != Unused ==>
      0 <= parent[p] < |st| && parent[p] != p && Alive(st[parent[p]])
  }

  predicate OrphanAt(init: nat, parent: seq<int>, p: nat) { p < |parent| && p == init ==> parent[p] == -1 }

  /** Where a thread is, or will be when it gets the CPU back. */
  function Point(pc: Pc): Pc { if pc.Yielded? || pc.YieldSched? then pc.back else pc }

  predicate Leaves(pc: Pc) { pc.ExitB? || pc.ExitC? || pc.ExitD? }

  /** While p is in exit(), its parent is the one it has read, or init. */
  predicate LeavingAt(s: State, p: nat)
    requires Sized(s)
  {
    p < |s.st| ==>
      var pc := Point(s.pc[p]);
      && (pc.ExitA? || Leaves(pc) || pc.ExitSched? ==> p != s.init)
      && (Leaves(pc) ==> pc.op < |s.st| && pc.op != p && (s.parent[p] == pc.op || s.parent[p] == s.init))
  }

  /** reparent() has been past entry j. */
  predicate GivenAt(s: State, p: nat, j: nat)
    requires Sized(s)
  {
    p < |s.st| && j < |s.st| && s.pc[p].ExitD? && j < s.pc[p].i ==> s.parent[j] != p
  }

  // ---- wait() --------------------------------------------------------------------------------------

  /** How many table entries wait() knows not to be zombie children. */
  function Checked(s: State, p: nat): nat
    requires Sized(s) && p < |s.st|
  {
    if p == s.init then 0
    else match s.pc[p]
         case WaitScan(i, _) => i
         case WaitSched => |s.st|
         case Waited => if s.st[p] == Sleeping then |s.st| else 0
         case _ => 0
  }

  predicate WaitAt(s: State, p: nat, j: nat)
    requires Sized(s)
  {
    p < |s.st| && j < |s.st| && j < Checked(s, p) && s.parent[j] == p ==> s.st[j] != Zombie
  }

  // ---- wakeup() -------------------------------------------------------------------------------------

  predicate Asleep(s: State, p: nat)
    requires Sized(s) && p < |s.st|
  {
    s.pc[p].SleepReady? || s.pc[p].SleepSched? || (s.pc[p].Slept? && s.st[p] == Sleeping)
  }

  /** A sleep that call w has to end: it is over, or w has not been past its table entry. */
  predicate CallAt(s: State, w: nat, p: nat)
    requires Sized(s)
  {
    w < |s.calls| && p in s.calls[w].due ==>
      && p < |s.st|
      && s.calls[w].due[p] <= s.sleeps[p]
      && (s.calls[w].due[p] == s.sleeps[p] && Asleep(s, p) ==> AsleepOn(s, p, s.calls[w].a) && s.calls[w].i <= p)
  }

  // ---- the invariant ----------------------------------------------------------------------------------

  ghost predicate Inv(s: State) {
    && Sized(s)
    && (forall c: nat {:trigger SeatAt(s.cpu, s.on, c)} :: SeatAt(s.cpu, s.on, c))
    && (forall p: nat {:trigger OnAt(s.cpu, s.on, p)} :: OnAt(s.cpu, s.on, p))
    && (forall p: nat {:trigger FitsAt(s, p)} :: FitsAt(s, p))
    && (forall p: nat {:trigger HolderAt(s.lock, s.pc, p)} :: HolderAt(s.lock, s.pc, p))
    && (forall p: nat {:trigger HoldsAt(s.lock, s.pc, p)} :: HoldsAt(s.lock, s.pc, p))
    && (forall p: nat {:trigger ParentAt(s.init, s.st, s.parent, p)} :: ParentAt(s.init, s.st, s.parent, p))
    && OrphanAt(s.init, s.parent, s.init)
    && Alive(s.st[s.init])
    && (forall p: nat {:trigger LeavingAt(s, p)} :: LeavingAt(s, p))
    && (forall p: nat, j: nat {:trigger GivenAt(s, p, j)} :: GivenAt(s, p, j))
    && (forall p: nat, j: nat {:trigger WaitAt(s, p, j)} :: WaitAt(s, p, j))
    && (forall w: nat, p: nat {:trigger CallAt(s, w, p)} :: CallAt(s, w, p))
  }

  /** Steps in which a CPU or a table entry changes hands; the others are sleep(), wakeup() and kill(). */
  predicate OnCpu(a: Turn) { a.DoDispatch? || a.DoSwitch? || a.DoYield? || a.DoLetGo? || a.DoFork? }

  /** exit() up to its parent's lock. */
  predicate Begins(a: Leave) { a.DoExit? || a.DoExitRead? || a.DoLockParent? }

  lemma SeatTurn(s: State, a: Turn, c: nat)
    requires Inv(s) && CanTurn(s, a)
    ensures var t := TakeTurn(s, a); Sized(t) && SeatAt(t.cpu, t.on, c)
  {
    assert SeatAt(s.cpu, s.on, c);
    match a
    case DoDispatch(d, p) => assert FitsAt(s, p) && OnAt(s.cpu, s.on, p);
    case DoSwitch(p) => assert OnAt(s.cpu, s.on, p);
    case _ =>
  }

  lemma OnTurn(s: State, a: Turn, p: nat)
    requires Inv(s) && CanTurn(s, a)
    ensures var t := TakeTurn(s, a); Sized(t) && OnAt(t.cpu, t.on, p)
  {
    assert OnAt(s.cpu, s.on, p);
    match a
    case DoDispatch(d, q) => assert SeatAt(s.cpu, s.on, d);
    case DoSwitch(q) => assert OnAt(s.cpu, s.on, q);
    case _ =>
  }

  lemma FitsTurnCpu(s: State, a: Turn, p: nat)
    requires Inv(s) && CanTurn(s, a) && OnCpu(a)
    ensures var t := TakeTurn(s, a); Sized(t) && FitsAt(t, p)
  {
    assert FitsAt(s, p);
  }

  lemma FitsTurnNap(s: State, a: Turn, p: nat)
    requires Inv(s) && CanTurn(s, a) && !OnCpu(a)
    ensures var t := TakeTurn(s, a); Sized(t) && FitsAt(t, p)
  {
    assert FitsAt(s, p);
  }

  lemma FitsTurn(s: State, a: Turn, p: nat)
    requires Inv(s) && CanTurn(s, a)
    ensures var t := TakeTurn(s, a); Sized(t) && FitsAt(t, p)
  {
    if OnCpu(a) { FitsTurnCpu(s, a, p); } else { FitsTurnNap(s, a, p); }
  }

  lemma FitsLeaveBegin(s: State, a: Leave, p: nat)
    requires Inv(s) && CanLeave(s, a) && Begins(a)
    ensures var t := TakeLeave(s, a); Sized(t) && FitsAt(t, p)
  {
    assert FitsAt(s, p);
    match a
    case DoLockParent(q) => assert LeavingAt(s, q);
    case _ =>
  }

  lemma FitsLeaveEnd(s: State, a: Leave, p: nat)
    requires Inv(s) && CanLeave(s, a) && !Begins(a)
    ensures var t := TakeLeave(s, a); Sized(t) && FitsAt(t, p)
  {
    assert FitsAt(s, p);
    match a
    case DoDie(q) => assert HoldsAt(s.lock, s.pc, q) && FitsAt(s, q);
    case _ =>
  }

  lemma FitsLeave(s: State, a: Leave, p: nat)
    requires Inv(s) && CanLeave(s, a)
    ensures var t := TakeLeave(s, a); Sized(t) && FitsAt(t, p)
  {
    if Begins(a) { FitsLeaveBegin(s, a, p); } else { FitsLeaveEnd(s, a, p); }
  }

  lemma FitsAwait(s: State, a: Await, p: nat)
    requires Inv(s) && CanAwait(s, a)
    ensures var t := TakeAwait(s, a); Sized(t) && FitsAt(t, p)
  {
    assert FitsAt(s, p);
  }

  lemma HolderTurn(s: State, a: Turn, p: nat)
    requires Inv(s) && CanTurn(s, a)
    ensures var t := TakeTurn(s, a); Sized(t) && HolderAt(t.lock, t.pc, p)
  {
    assert HolderAt(s.lock, s.pc, p);
    match a
    case DoFork(q, np) => assert FitsAt(s, np);
    case _ =>
  }

  lemma HolderLeave(s: State, a: Leave, p: nat)
    requires Inv(s) && CanLeave(s, a)
    ensures var t := TakeLeave(s, a); Sized(t) && HolderAt(t.lock, t.pc, p)
  {
    assert HolderAt(s.lock, s.pc, p);
    match a
    case DoDie(q) => assert HoldsAt(s.lock, s.pc, q) && FitsAt(s, q);
    case _ =>
  }

  lemma HolderAwait(s: State, a: Await, p: nat)
    requires Inv(s) && CanAwait(s, a)
    ensures var t := TakeAwait(s, a); Sized(t) && HolderAt(t.lock, t.pc, p)
  {
    assert HolderAt(s.lock, s.pc, p);
  }

  lemma HoldsTurnCpu(s: State, a: Turn, q: nat)
    requires Inv(s) && CanTurn(s, a) && OnCpu(a)
    ensures var t := TakeTurn(s, a); Sized(t) && HoldsAt(t.lock, t.pc, q)
  {
    assert HoldsAt(s.lock, s.pc, q);
    match a
    case DoSwitch(p) => assert FitsAt(s, p);
    case DoLetGo(p) => assert FitsAt(s, p);
    case _ =>
  }

  lemma HoldsTurnNap(s: State, a: Turn, q: nat)
    requires Inv(s) && CanTurn(s, a) && !OnCpu(a)
    ensures var t := TakeTurn(s, a); Sized(t) && HoldsAt(t.lock, t.pc, q)
  {
    assert HoldsAt(s.lock, s.pc, q);
    match a
    case DoRise(p) => assert FitsAt(s, p);
    case _ =>
  }

  lemma HoldsTurn(s: State, a: Turn, q: nat)
    requires Inv(s) && CanTurn(s, a)
    ensures var t := TakeTurn(s, a); Sized(t) && HoldsAt(t.lock, t.pc, q)
  {
    if OnCpu(a) { HoldsTurnCpu(s, a, q); } else { HoldsTurnNap(s, a, q); }
  }

  lemma HoldsLeave(s: State, a: Leave, q: nat)
    requires Inv(s) && CanLeave(s, a)
    ensures var t := TakeLeave(s, a); Sized(t) && HoldsAt(t.lock, t.pc, q)
  {
    assert HoldsAt(s.lock, s.pc, q);
    match a
    case DoDie(p) => assert HoldsAt(s.lock, s.pc, p) && FitsAt(s, p);
    case DoLockParent(p) => assert LeavingAt(s, p);
    case _ =>
  }

  lemma HoldsAwait(s: State, a: Await, q: nat)
    requires Inv(s) && CanAwait(s, a)
    ensures var t := TakeAwait(s, a); Sized(t) && HoldsAt(t.lock, t.pc, q)
  {
    assert HoldsAt(s.lock, s.pc, q);
    match a
    case DoLook(p) => assert FitsAt(s, p);
    case DoGiveUp(p) => assert FitsAt(s, p);
    case _ =>
  }

  lemma ParentTurnCpu(s: State, a: Turn, p: nat)
    requires Inv(s) && CanTurn(s, a) && OnCpu(a)
    ensures var t := TakeTurn(s, a); Sized(t) && ParentAt(t.init, t.st, t.parent, p)
  {
    assert ParentAt(s.init, s.st, s.parent, p);
    match a
    case DoDispatch(c, q) => assert FitsAt(s, q);
    case DoYield(q) => assert FitsAt(s, q);
    case DoFork(q, np) => assert FitsAt(s, q);
    case _ =>
  }

  lemma ParentTurnNap(s: State, a: Turn, p: nat)
    requires Inv(s) && CanTurn(s, a) && !OnCpu(a)
    ensures var t := TakeTurn(s, a); Sized(t) && ParentAt(t.init, t.st, t.parent, p)
  {
    assert ParentAt(s.init, s.st, s.parent, p);
    match a
    case DoDoze(q) => assert FitsAt(s, q);
    case _ =>
  }

  lemma ParentTurn(s: State, a: Turn, p: nat)
    requires Inv(s) && CanTurn(s, a)
    ensures var t := TakeTurn(s, a); Sized(t) && ParentAt(t.init, t.st, t.parent, p)
  {
    if OnCpu(a) { ParentTurnCpu(s, a, p); } else { ParentTurnNap(s, a, p); }
  }

  lemma ParentLeave(s: State, a: Leave, p: nat)
    requires Inv(s) && CanLeave(s, a)
    ensures var t := TakeLeave(s, a); Sized(t) && ParentAt(t.init, t.st, t.parent, p)
  {
    assert ParentAt(s.init, s.st, s.parent, p);
    match a
    case DoDie(q) => assert FitsAt(s, q) && GivenAt(s, q, p) && LeavingAt(s, q);
    case DoReparent(q) => assert LeavingAt(s, q);
    case _ =>
  }

  lemma ParentAwait(s: State, a: Await, p: nat)
    requires Inv(s) && CanAwait(s, a)
    ensures var t := TakeAwait(s, a); Sized(t) && ParentAt(t.init, t.st, t.parent, p)
  {
    assert ParentAt(s.init, s.st, s.parent, p);
    match a
    case DoWaitSleep(q) => assert FitsAt(s, q);
    case _ =>
  }

  lemma InitTurn(s: State, a: Turn)
    requires Inv(s) && CanTurn(s, a)
    ensures var t := TakeTurn(s, a); Sized(t) && OrphanAt(t.init, t.parent, t.init) && Alive(t.st[t.init])
  {
  }

  lemma InitLeave(s: State, a: Leave)
    requires Inv(s) && CanLeave(s, a)
    ensures var t := TakeLeave(s, a); Sized(t) && OrphanAt(t.init, t.parent, t.init) && Alive(t.st[t.init])
  {
    match a
    case DoDie(p) => assert LeavingAt(s, p) && FitsAt(s, p);
    case _ =>
  }

  lemma InitAwait(s: State, a: Await)
    requires Inv(s) && CanAwait(s, a)
    ensures var t := TakeAwait(s, a); Sized(t) && OrphanAt(t.init, t.parent, t.init) && Alive(t.st[t.init])
  {
  }

  lemma LeavingTurnCpu(s: State, a: Turn, p: nat)
    requires Inv(s) && CanTurn(s, a) && OnCpu(a)
    ensures var t := TakeTurn(s, a); Sized(t) && LeavingAt(t, p)
  {
    assert LeavingAt(s, p);
    match a
    case DoLetGo(q) => assert FitsAt(s, q);
    case DoFork(q, np) => assert FitsAt(s, np);
    case _ =>
  }

  lemma LeavingTurnNap(s: State, a: Turn, p: nat)
    requires Inv(s) && CanTurn(s, a) && !OnCpu(a)
    ensures var t := TakeTurn(s, a); Sized(t) && LeavingAt(t, p)
  {
    assert LeavingAt(s, p);
  }

  lemma LeavingTurn(s: State, a: Turn, p: nat)
    requires Inv(s) && CanTurn(s, a)
    ensures var t := TakeTurn(s, a); Sized(t) && LeavingAt(t, p)
  {
    if OnCpu(a) { LeavingTurnCpu(s, a, p); } else { LeavingTurnNap(s, a, p); }
  }

  lemma LeavingLeaveBegin(s: State, a: Leave, p: nat)
    requires Inv(s) && CanLeave(s, a) && Begins(a)
    ensures var t := TakeLeave(s, a); Sized(t) && LeavingAt(t, p)
  {
    assert LeavingAt(s, p);
    match a
    case DoExitRead(q) => assert ParentAt(s.init, s.st, s.parent, q) && FitsAt(s, q);
    case _ =>
  }

  lemma LeavingLeaveEnd(s: State, a: Leave, p: nat)
    requires Inv(s) && CanLeave(s, a) && !Begins(a)
    ensures var t := TakeLeave(s, a); Sized(t) && LeavingAt(t, p)
  {
    assert LeavingAt(s, p);
  }

  lemma LeavingLeave(s: State, a: Leave, p: nat)
    requires Inv(s) && CanLeave(s, a)
    ensures var t := TakeLeave(s, a); Sized(t) && LeavingAt(t, p)
  {
    if Begins(a) { LeavingLeaveBegin(s, a, p); } else { LeavingLeaveEnd(s, a, p); }
  }

  lemma LeavingLook(s: State, q: nat, p: nat)
    requires Inv(s) && CanLook(s, q)
    ensures var t := Look(s, q); Sized(t) && LeavingAt(t, p)
  {
    assert LeavingAt(s, p) && FitsAt(s, p);
  }

  lemma LeavingAwait(s: State, a: Await, p: nat)
    requires Inv(s) && CanAwait(s, a)
    ensures var t := TakeAwait(s, a); Sized(t) && LeavingAt(t, p)
  {
    assert LeavingAt(s, p);
    match a
    case DoLook(q) => LeavingLook(s, q, p);
    case _ =>
  }

  lemma GivenTurn(s: State, a: Turn, p: nat, j: nat)
    requires Inv(s) && CanTurn(s, a)
    ensures var t := TakeTurn(s, a); Sized(t) && GivenAt(t, p, j)
  {
    assert GivenAt(s, p, j);
    match a
    case DoLetGo(q) => assert FitsAt(s, q);
    case DoFork(q, np) => assert FitsAt(s, q) && FitsAt(s, np);
    case _ =>
  }

  lemma GivenLeave(s: State, a: Leave, p: nat, j: nat)
    requires Inv(s) && CanLeave(s, a)
    ensures var t := TakeLeave(s, a); Sized(t) && GivenAt(t, p, j)
  {
    assert GivenAt(s, p, j);
    match a
    case DoReparent(q) => assert LeavingAt(s, p);
    case _ =>
  }

  lemma GivenAwait(s: State, a: Await, p: nat, j: nat)
    requires Inv(s) && CanAwait(s, a)
    ensures var t := TakeAwait(s, a); Sized(t) && GivenAt(t, p, j)
  {
    assert GivenAt(s, p, j);
  }

  lemma WaitTurn(s: State, a: Turn, p: nat, j: nat)
    requires Inv(s) && CanTurn(s, a)
    ensures var t := TakeTurn(s, a); Sized(t) && WaitAt(t, p, j)
  {
    assert WaitAt(s, p, j);
    if a.DoLetGo? {
      assert FitsAt(s, a.p);
    }
  }

  lemma WaitLeaveBegin(s: State, a: Leave, p: nat, j: nat)
    requires Inv(s) && CanLeave(s, a) && Begins(a)
    ensures var t := TakeLeave(s, a); Sized(t) && WaitAt(t, p, j)
  {
    assert WaitAt(s, p, j);
  }

  lemma WaitLeaveEnd(s: State, a: Leave, p: nat, j: nat)
    requires Inv(s) && CanLeave(s, a) && !Begins(a) && !a.DoDie?
    ensures var t := TakeLeave(s, a); Sized(t) && WaitAt(t, p, j)
  {
    assert WaitAt(s, p, j);
  }

  /** The parent that may sleep in wait() is the one that exit() wakes. */
  lemma WaitDie(s: State, q: nat, p: nat, j: nat)
    requires Inv(s) && CanDie(s, q)
    ensures var t := Die(s, q); Sized(t) && WaitAt(t, p, j)
  {
    assert WaitAt(s, p, j);
    assert LeavingAt(s, q) && HoldsAt(s.lock, s.pc, q) && FitsAt(s, p);
  }

  lemma WaitLeave(s: State, a: Leave, p: nat, j: nat)
    requires Inv(s) && CanLeave(s, a)
    ensures var t := TakeLeave(s, a); Sized(t) && WaitAt(t, p, j)
  {
    match a
    case DoDie(q) => WaitDie(s, q, p, j);
    case _ => if Begins(a) { WaitLeaveBegin(s, a, p, j); } else { WaitLeaveEnd(s, a, p, j); }
  }

  lemma WaitAwait(s: State, a: Await, p: nat, j: nat)
    requires Inv(s) && CanAwait(s, a)
    ensures var t := TakeAwait(s, a); Sized(t) && WaitAt(t, p, j)
  {
    assert WaitAt(s, p, j);
  }

  lemma CallTurnCpu(s: State, a: Turn, w: nat, p: nat)
    requires Inv(s) && CanTurn(s, a) && OnCpu(a)
    ensures var t := TakeTurn(s, a); Sized(t) && CallAt(t, w, p)
  {
    assert CallAt(s, w, p);
    match a
    case DoLetGo(q) => assert FitsAt(s, q);
    case _ =>
  }

  lemma CallTurnNap(s: State, a: Turn, w: nat, p: nat)
    requires Inv(s) && CanTurn(s, a) && !OnCpu(a)
    ensures var t := TakeTurn(s, a); Sized(t) && CallAt(t, w, p)
  {
    assert CallAt(s, w, p);
    match a
    case DoWakeOne(v) => assert FitsAt(s, s.calls[v].i);
    case _ =>
  }

  lemma CallTurn(s: State, a: Turn, w: nat, p: nat)
    requires Inv(s) && CanTurn(s, a)
    ensures var t := TakeTurn(s, a); Sized(t) && CallAt(t, w, p)
  {
    if OnCpu(a) { CallTurnCpu(s, a, w, p); } else { CallTurnNap(s, a, w, p); }
  }

  lemma CallLeave(s: State, a: Leave, w: nat, p: nat)
    requires Inv(s) && CanLeave(s, a)
    ensures var t := TakeLeave(s, a); Sized(t) && CallAt(t, w, p)
  {
    assert CallAt(s, w, p);
  }

  lemma CallAwait(s: State, a: Await, w: nat, p: nat)
    requires Inv(s) && CanAwait(s, a)
    ensures var t := TakeAwait(s, a); Sized(t) && CallAt(t, w, p)
  {
    assert CallAt(s, w, p);
  }

  lemma TurnKeeps(s: State, a: Turn)
    requires Inv(s) && CanTurn(s, a)
    ensures var t := TakeTurn(s, a); Inv(t) && t.init == s.init && |t.st| == |s.st|
  {
    var t := TakeTurn(s, a);
    InitTurn(s, a);
    forall c: nat ensures SeatAt(t.cpu, t.on, c) { SeatTurn(s, a, c); }
    forall p: nat ensures OnAt(t.cpu, t.on, p) { OnTurn(s, a, p); }
    forall p: nat ensures FitsAt(t, p) { FitsTurn(s, a, p); }
    forall p: nat ensures HolderAt(t.lock, t.pc, p) { HolderTurn(s, a, p); }
    forall q: nat ensures HoldsAt(t.lock, t.pc, q) { HoldsTurn(s, a, q); }
    forall p: nat ensures ParentAt(t.init, t.st, t.parent, p) { ParentTurn(s, a, p); }
    forall p: nat ensures LeavingAt(t, p) { LeavingTurn(s, a, p); }
    forall p: nat, j: nat ensures GivenAt(t, p, j) { GivenTurn(s, a, p, j); }
    forall p: nat, j: nat ensures WaitAt(t, p, j) { WaitTurn(s, a, p, j); }
    forall w: nat, p: nat ensures CallAt(t, w, p) { CallTurn(s, a, w, p); }
  }

  lemma LeaveKeeps(s: State, a: Leave)
    requires Inv(s) && CanLeave(s, a)
    ensures var t := TakeLeave(s, a); Inv(t) && t.init == s.init && |t.st| == |s.st|
  {
    var t := TakeLeave(s, a);
    InitLeave(s, a);
    assert t.cpu == s.cpu && t.on == s.on;
    forall p: nat ensures FitsAt(t, p) { FitsLeave(s, a, p); }
    forall p: nat ensures HolderAt(t.lock, t.pc, p) { HolderLeave(s, a, p); }
    forall q: nat ensures HoldsAt(t.lock, t.pc, q) { HoldsLeave(s, a, q); }
    forall p: nat ensures ParentAt(t.init, t.st, t.parent, p) { ParentLeave(s, a, p); }
    forall p: nat ensures LeavingAt(t, p) { LeavingLeave(s, a, p); }
    forall p: nat, j: nat ensures GivenAt(t, p, j) { GivenLeave(s, a, p, j); }
    forall p: nat, j: nat ensures WaitAt(t, p, j) { WaitLeave(s, a, p, j); }
    forall w: nat, p: nat ensures CallAt(t, w, p) { CallLeave(s, a, w, p); }
  }

  lemma AwaitKeeps(s: State, a: Await)
    requires Inv(s) && CanAwait(s, a)
    ensures var t := TakeAwait(s, a); Inv(t) && t.init == s.init && |t.st| == |s.st|
  {
    var t := TakeAwait(s, a);
    InitAwait(s, a);
    assert t.cpu == s.cpu && t.on == s.on;
    forall p: nat ensures FitsAt(t, p) { FitsAwait(s, a, p); }
    forall p: nat ensures HolderAt(t.lock, t.pc, p) { HolderAwait(s, a, p); }
    forall q: nat ensures HoldsAt(t.lock, t.pc, q) { HoldsAwait(s, a, q); }
    forall p: nat ensures ParentAt(t.init, t.st, t.parent, p) { ParentAwait(s, a, p); }
    forall p: nat ensures LeavingAt(t, p) { LeavingAwait(s, a, p); }
    forall p: nat, j: nat ensures GivenAt(t, p, j) { GivenAwait(s, a, p, j); }
    forall p: nat, j: nat ensures WaitAt(t, p, j) { WaitAwait(s, a, p, j); }
    forall w: nat, p: nat ensures CallAt(t, w, p) { CallAwait(s, a, w, p); }
  }

  /** Every step keeps the invariant. */
  lemma StepKeeps(s: State, a: Step)
    requires Inv(s) && Enabled(s, a)
    ensures var t := Apply(s, a); Inv(t) && t.init == s.init && |t.st| == |s.st|
  {
    match a
    case ByTurn(b) => TurnKeeps(s, b);
    case ByLeave(b) => LeaveKeeps(s, b);
    case ByAwait(b) => AwaitKeeps(s, b);
  }
}
