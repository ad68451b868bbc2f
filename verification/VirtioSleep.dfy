/** The processes in virtio_disk_rw() of kernel/virtio_disk.c: each holds one locked buffer, and sleeps
    for descriptors on &disk.free[0] or for its request on the buffer.  A step is one critical section of
    vdisk_lock, or one step of the device. */
module VirtioSleep {
  import opened Virtio

  /** Where the process of a buffer is: in the loop around alloc3_desc(), or waiting for b->disk. */
  datatype Place = Asking(asleep: bool) | Waiting(asleep: bool)

  datatype Sys = Sys(s: State, at: map<nat, Place>)

  datatype Act =
    | Ask(b: nat)                        // enter, or try again, up to the next sleep()
    | Recheck(b: nat)                    // b->disk is still 1: back to sleep
    | Leave(b: nat, n: nat)              // b->disk is 0: free_chain() of request n
    | Rouse(b: nat)                      // kill() wakes a sleeper whatever it sleeps for
    | Device(a: Step)                    // the device takes or completes a request
    | Interrupt(n: nat)                  // one round of the loop in virtio_disk_intr()

  // ---- the steps --------------------------------------------------------------------------------------

  /** wakeup(&disk.free[0]) */
  function WakeAskers(at: map<nat, Place>): map<nat, Place> {
    map b | b in at :: if at[b] == Asking(true) then Asking(false) else at[b]
  }

  /** wakeup(b) */
  function WakeWaiter(at: map<nat, Place>, b: nat): map<nat, Place> {
    if b in at && at[b] == Waiting(true) then at[b := Waiting(false)] else at
  }

  predicate Enabled(y: Sys, a: Act)
    requires Sized(y.s.d)
  {
    match a
    case Ask(b) => b !in y.at || y.at[b] == Asking(false)
    case Recheck(b) => b in y.at && y.at[b] == Waiting(false) && b in y.s.d.busy
    case Leave(b, n) =>
      && b in y.at && y.at[b] == Waiting(false) && b !in y.s.d.busy
      && n < |y.s.live| && y.s.live[n].buf == b
    case Rouse(b) => b in y.at
    case Device(c) => (c.DoFetch? || c.DoComplete?) && Virtio.Enabled(y.s, c)
    case Interrupt(n) => Virtio.Enabled(y.s, DoHandle(n))
  }

  /** An attempt that fails gives back what it got, and so wakes the others before it sleeps. */
  function Tried(y: Sys, b: nat): Sys
    requires Sized(y.s.d)
  {
    if Have3(y.s.d.free) then Sys(Submit(y.s, b), y.at[b := Waiting(true)])
    else Sys(y.s, (if FirstFree(y.s.d.free, 0) < NUM then WakeAskers(y.at) else y.at)[b := Asking(true)])
  }

  function Apply(y: Sys, a: Act): Sys
    requires Sized(y.s.d) && Enabled(y, a)
  {
    match a
    case Ask(b) => Tried(y, b)
    case Recheck(b) => y.(at := y.at[b := Waiting(true)])
    case Leave(b, n) => Sys(Finish(y.s, n), WakeAskers(y.at) - {b})
    case Rouse(b) => y.(at := y.at[b := y.at[b].(asleep := false)])
    case Device(c) => y.(s := Virtio.Apply(y.s, c))
    case Interrupt(n) => Sys(Handle(y.s, n), WakeWaiter(y.at, y.s.d.info[y.s.d.elems[y.s.d.usedIdx]]))
  }

  // ---- the invariant ----------------------------------------------------------------------------------

  predicate HasRequest(live: seq<Chain>, b: nat) { exists n :: 0 <= n < |live| && live[n].buf == b }

  /** The requests are those of the waiting processes; nobody sleeps without a reason. */
  predicate SleepOk(d: Disk, live: seq<Chain>, at: map<nat, Place>, b: nat) {
    && (HasRequest(live, b) <==> b in at && at[b].Waiting?)
    && (b in d.busy ==> HasRequest(live, b))
    && (b in at && at[b] == Asking(true) ==> !Have3(d.free))
    && (b in at && at[b] == Waiting(true) ==> b in d.busy)
  }

  ghost predicate Inv(y: Sys) {
    Virtio.Inv(y.s) && forall b: nat {:trigger SleepOk(y.s.d, y.s.live, y.at, b)} :: SleepOk(y.s.d, y.s.live, y.at, b)
  }

  lemma SameRequests(live: seq<Chain>, n: nat, st: Stage, b: nat)
    requires n < |live|
    ensures HasRequest(live[n := live[n].(stage := st)], b) <==> HasRequest(live, b)
  {
    var live' := live[n := live[n].(stage := st)];
    assert forall m :: 0 <= m < |live| ==> live'[m].buf == live[m].buf;
  }

  lemma OneMore(live: seq<Chain>, c: Chain, b: nat)
    ensures HasRequest(live + [c], b) <==> HasRequest(live, b) || b == c.buf
  {
    var live' := live + [c];
    assert live'[|live|] == c && forall m :: 0 <= m < |live| ==> live'[m] == live[m];
  }

  lemma StillThere(live: seq<Chain>, n: nat, m: nat)
    requires n < |live| && m < |live| && m != n
    ensures HasRequest(live[..n] + live[n + 1..], live[m].buf)
  {
    var live' := live[..n] + live[n + 1..];
    assert live'[if m < n then m else m - 1] == live[m];
  }

  lemma OneLess(live: seq<Chain>, n: nat, b: nat)
    requires n < |live| && forall l, m :: 0 <= l < m < |live| ==> Apart(live[l], live[m])
    ensures HasRequest(live[..n] + live[n + 1..], b) <==> HasRequest(live, b) && b != live[n].buf
  {
    if HasRequest(live, b) && b != live[n].buf {
      var m :| 0 <= m < |live| && live[m].buf == b;
      StillThere(live, n, m);
    }
    var live' := live[..n] + live[n + 1..];
    if HasRequest(live', b) {
      var m :| 0 <= m < |live'| && live'[m].buf == b;
      if m < n {
        assert live[m] == live'[m] && Apart(live[m], live[n]);
      } else {
        assert live[m + 1] == live'[m] && Apart(live[n], live[m + 1]);
      }
    }
  }

  lemma AskKeeps(y: Sys, b: nat)
    requires Inv(y) && (b !in y.at || y.at[b] == Asking(false))
    ensures Inv(Tried(y, b))
  {
    var y' := Tried(y, b);
    assert SleepOk(y.s.d, y.s.live, y.at, b);
    if Have3(y.s.d.free) {
      SubmitKeeps(y.s, b);
      var (i, j, k) := First3(y.s.d.free);
      forall c: nat ensures SleepOk(y'.s.d, y'.s.live, y'.at, c) {
        assert SleepOk(y.s.d, y.s.live, y.at, c);
        OneMore(y.s.live, Chain(i, j, k, b, Offered), c);
      }
    } else {
      forall c: nat ensures SleepOk(y'.s.d, y'.s.live, y'.at, c) { assert SleepOk(y.s.d, y.s.live, y.at, c); }
    }
  }

  /** The process of a request that has been handled finds b->disk clear. */
  lemma LeaveIsHandled(y: Sys, b: nat, n: nat)
    requires Inv(y) && Enabled(y, Leave(b, n))
    ensures y.s.live[n].stage == Handled
  {
    assert ChainOk(y.s.d, y.s.live[n]);
  }

  lemma LeaveKeeps(y: Sys, b: nat, n: nat)
    requires Inv(y) && Enabled(y, Leave(b, n))
    ensures Inv(Apply(y, Leave(b, n)))
  {
    var y' := Apply(y, Leave(b, n));
    LeaveIsHandled(y, b, n);
    FinishKeeps(y.s, n);
    FreesThree(y.s.d, y.s.live[n]);
    forall c: nat ensures SleepOk(y'.s.d, y'.s.live, y'.at, c) {
      assert SleepOk(y.s.d, y.s.live, y.at, c);
      OneLess(y.s.live, n, c);
    }
  }

  lemma InterruptKeeps(y: Sys, n: nat)
    requires Inv(y) && Enabled(y, Interrupt(n))
    ensures Inv(Apply(y, Interrupt(n)))
  {
    var y' := Apply(y, Interrupt(n));
    HandleKeeps(y.s, n);
    HandleRight(y.s, n);
    forall c: nat ensures SleepOk(y'.s.d, y'.s.live, y'.at, c) {
      assert SleepOk(y.s.d, y.s.live, y.at, c);
      SameRequests(y.s.live, n, Handled, c);
    }
  }

  lemma DeviceKeeps(y: Sys, a: Step)
    requires Inv(y) && Enabled(y, Device(a))
    ensures Inv(Apply(y, Device(a)))
  {
    var y' := Apply(y, Device(a));
    Virtio.StepKeeps(y.s, a);
    forall c: nat ensures SleepOk(y'.s.d, y'.s.live, y'.at, c) {
      assert SleepOk(y.s.d, y.s.live, y.at, c);
      SameRequests(y.s.live, a.n, y'.s.live[a.n].stage, c);
    }
  }

  lemma StepKeeps(y: Sys, a: Act)
    requires Inv(y) && Enabled(y, a)
    ensures Inv(Apply(y, a))
  {
    match a
    case Ask(b) => AskKeeps(y, b);
    case Leave(b, n) => LeaveKeeps(y, b, n);
    case Device(c) => DeviceKeeps(y, c);
    case Interrupt(n) => InterruptKeeps(y, n);
    case _ =>
      var y' := Apply(y, a);
      forall c: nat ensures SleepOk(y'.s.d, y'.s.live, y'.at, c) { assert SleepOk(y.s.d, y.s.live, y.at, c); }
  }

  // ---- runs ---------------------------------------------------------------------------------------------

  ghost predicate IsRun(r: seq<Sys>, acts: seq<Act>) {
    && |r| == |acts| + 1
    && forall k :: 0 <= k < |acts| ==> Sized(r[k].s.d) && Enabled(r[k], acts[k]) && r[k + 1] == Apply(r[k], acts[k])
  }

  predicate Start(y: Sys) { Virtio.Start(y.s) && y.s.d.busy == {} && y.at == map[] }

  /** Nobody sleeps for descriptors while three are free, nobody sleeps for a request that has been
      handled, and whoever sleeps for descriptors will be woken by a request that is under way. */
  ghost predicate Justified(y: Sys) {
    && (forall b :: b in y.at && y.at[b] == Asking(true) ==> !Have3(y.s.d.free) && y.s.live != [])
    && (forall b :: b in y.at && y.at[b] == Waiting(true) ==> b in y.s.d.busy)
    && (forall n :: 0 <= n < |y.s.live| ==> y.s.live[n].buf in y.at && y.at[y.s.live[n].buf].Waiting?)
    && (forall n :: 0 <= n < |y.s.live| && y.s.live[n].stage == Handled ==> y.at[y.s.live[n].buf] == Waiting(false))
  }

  /** With every descriptor free there are three. */
  lemma AllFree(free: seq<bool>)
    requires |free| == NUM && forall i :: 0 <= i < NUM ==> free[i]
    ensures Have3(free)
  {
    assert FirstFree(free, 0) == 0 && FirstFree(free, 1) == 1 && FirstFree(free, 2) == 2;
  }

  lemma InvJustifies(y: Sys)
    requires Inv(y)
    ensures Justified(y)
  {
    forall b | b in y.at && y.at[b] == Asking(true) ensures !Have3(y.s.d.free) && y.s.live != [] {
      assert SleepOk(y.s.d, y.s.live, y.at, b);
      if y.s.live == [] {
        forall i | 0 <= i < NUM ensures y.s.d.free[i] { assert OwnerOk(y.s.d.free, y.s.live, i); }
        AllFree(y.s.d.free);
      }
    }
    forall b | b in y.at && y.at[b] == Waiting(true) ensures b in y.s.d.busy {
      assert SleepOk(y.s.d, y.s.live, y.at, b);
    }
    forall n | 0 <= n < |y.s.live|
      ensures y.s.live[n].buf in y.at && y.at[y.s.live[n].buf].Waiting?
      ensures y.s.live[n].stage == Handled ==> y.at[y.s.live[n].buf] == Waiting(false)
    {
      assert SleepOk(y.s.d, y.s.live, y.at, y.s.live[n].buf) && ChainOk(y.s.d, y.s.live[n]);
    }
  }

  lemma {:induction false} EveryRun(r: seq<Sys>, acts: seq<Act>, k: nat)
    requires IsRun(r, acts) && Start(r[0]) && k < |r|
    ensures Inv(r[k]) && Justified(r[k])
  {
    if k == 0 {
      Virtio.EveryRun([r[0].s], [], 0);
      forall b: nat ensures SleepOk(r[0].s.d, r[0].s.live, r[0].at, b) {}
    } else {
      EveryRun(r, acts, k - 1);
      StepKeeps(r[k - 1], acts[k - 1]);
    }
    InvJustifies(r[k]);
  }
}
