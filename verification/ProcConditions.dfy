/** Why init is the exception: it alone can sleep in wait() while it has a zombie child. */
module ProcConditions {
  import opened Proc
  import opened ProcInvariant
  import opened ProcTheorems

  ghost predicate Reaches(s: State, f: State) {
    exists run :: Legal(s, run) && Exec(s, run) == f
  }

  lemma Extend(s: State, f: State, a: Step)
    requires Reaches(s, f) && Enabled(f, a)
    ensures Reaches(s, Apply(f, a))
  {
    var run :| Legal(s, run) && Exec(s, run) == f;
    var more := run + [a];
    assert more[..|more| - 1] == run;
    assert Legal(s, more) && Exec(s, more) == Apply(f, a);
  }

  /** Nobody holds a lock, nobody is killed, and only the first four entries have been used. */
  ghost predicate Quiet(f: State) {
    && Sized(f) && 4 <= |f.st| && f.init == 0 && 1 <= |f.cpu|
    && (forall k :: 0 <= k < |f.st| ==> f.lock[k] == -1)
    && (forall k :: 0 <= k < |f.st| ==> !f.killed[k])
    && (forall k :: 4 <= k < |f.st| ==> f.parent[k] == -1)
  }

  /** p runs on CPU 0. */
  predicate Runs(f: State, p: nat) { Sized(f) && p < |f.st| && 1 <= |f.cpu| && f.cpu[0] == p && f.on[p] == 0 }

  lemma Park(s: State, f: State, p: nat) returns (g: State)
    requires Reaches(s, f) && Quiet(f) && Runs(f, p) && Free(f.pc[p])
    ensures Reaches(s, g) && Quiet(g) && g.cpu[0] == -1
    ensures g.st == f.st[p := Runnable] && g.pc == f.pc[p := Yielded(f.pc[p])] && g.parent == f.parent
            && g.chan == f.chan
  {
    Extend(s, f, ByTurn(DoYield(p)));
    g := Yield(f, p);
    Extend(s, g, ByTurn(DoSwitch(p)));
    g := Switch(g, p);
  }

  lemma Resume(s: State, f: State, p: nat) returns (g: State)
    requires Reaches(s, f) && Quiet(f) && f.cpu[0] == -1 && p < |f.st| && f.st[p] == Runnable
    requires f.pc[p].Yielded? || f.pc[p].Forked?
    ensures Reaches(s, g) && Quiet(g) && Runs(g, p)
    ensures g.st == f.st[p := Running] && g.pc == f.pc[p := if f.pc[p].Yielded? then f.pc[p].back else User]
    ensures g.parent == f.parent && g.chan == f.chan
  {
    Extend(s, f, ByTurn(DoDispatch(0, p)));
    g := Dispatch(f, 0, p);
    Extend(s, g, ByTurn(DoLetGo(p)));
    g := LetGo(g, p);
  }

  /** p forks np, gives up the CPU, and np starts. */
  lemma Spawn(s: State, f: State, p: nat, np: nat) returns (g: State)
    requires Reaches(s, f) && Quiet(f) && Runs(f, p) && f.pc[p] == User && np < 4 && np != p && f.st[np] == Unused
    ensures Reaches(s, g) && Quiet(g) && Runs(g, np)
    ensures g.st == f.st[np := Runnable][p := Runnable][np := Running]
    ensures g.pc == f.pc[np := Forked][p := Yielded(User)][np := User]
    ensures g.parent == f.parent[np := p] && g.chan == f.chan[np := NoChan]
  {
    Extend(s, f, ByTurn(DoFork(p, np)));
    g := Park(s, Fork(f, p, np), p);
    g := Resume(s, g, np);
  }

  function Given(parent: seq<int>, p: nat, i: nat): (r: seq<int>)
    ensures |r| == |parent|
  {
    seq(|parent|, k requires 0 <= k < |parent| => if k < i && parent[k] == p then 0 else parent[k])
  }

  lemma GivenNext(parent: seq<int>, p: nat, i: nat)
    requires i < |parent| && p != 0
    ensures var q := Given(parent, p, i);
              q[i] == parent[i] && Given(parent, p, i + 1) == if q[i] == p then q[i := 0] else q
  {
  }

  /** reparent() runs through the first i entries. */
  lemma {:induction false} GiveAll(s: State, f: State, p: nat, i: nat) returns (g: State)
    requires Reaches(s, f) && Sized(f) && f.init == 0 && 0 < p < |f.st| && i <= |f.st| && f.on[p] >= 0
    requires f.pc[p].ExitD? && f.pc[p].i == 0
    requires forall k :: 0 <= k < |f.st| && f.parent[k] == p ==> f.lock[k] == -1
    ensures Reaches(s, g) && g == f.(parent := Given(f.parent, p, i), pc := f.pc[p := ExitD(f.pc[p].op, i)])
  {
    if i == 0 {
      g := f;
      assert f.parent == Given(f.parent, p, 0) && f.pc == f.pc[p := ExitD(f.pc[p].op, 0)];
    } else {
      var h := GiveAll(s, f, p, i - 1);
      GivenNext(f.parent, p, i - 1);
      g := GiveOne(s, h, p);
    }
  }

  lemma GiveOne(s: State, f: State, p: nat) returns (g: State)
    requires Reaches(s, f) && CanReparent(f, p) && f.init == 0
    ensures Reaches(s, g) && f.pc[p].i < |f.parent|
    ensures var ExitD(op, i) := f.pc[p];
            g == f.(parent := if f.parent[i] == p then f.parent[i := 0]
                  else f.parent, pc := f.pc[p := ExitD(op, i + 1)])
  {
    Extend(s, f, ByLeave(DoReparent(p)));
    g := Reparent(f, p);
  }

  /** p reads its parent and locks it and itself. */
  lemma LockBoth(s: State, f: State, p: nat) returns (g: State)
    requires Reaches(s, f) && Quiet(f) && Runs(f, p) && f.pc[p] == ExitA
    requires 0 <= f.parent[p] < |f.st| && f.parent[p] != p
    ensures Reaches(s, g) && g == f.(lock := f.lock[f.parent[p] := p][p := p], pc := f.pc[p := ExitD(f.parent[p], 0)])
  {
    Extend(s, f, ByLeave(DoExitRead(p)));
    var a := ExitRead(f, p);
    Extend(s, a, ByLeave(DoLockParent(p)));
    var b := LockParent(a, p);
    Extend(s, b, ByLeave(DoLockSelf(p)));
    g := LockSelf(b, p);
    assert g.pc == f.pc[p := ExitD(f.parent[p], 0)];
  }

  /** p, in exit() but before it reads its parent, runs to its end. */
  lemma Depart(s: State, f: State, p: nat) returns (g: State)
    requires Reaches(s, f) && Quiet(f) && Runs(f, p) && f.pc[p] == ExitA && 0 < p
    requires 0 <= f.parent[p] < |f.st| && f.parent[p] != p && f.st[f.parent[p]] != Sleeping
    requires f.parent[f.parent[p]] != p
    ensures Reaches(s, g) && Quiet(g) && g.cpu[0] == -1
    ensures g.st == f.st[p := Zombie] && g.pc == f.pc[p := Dead] && g.parent == Given(f.parent, p, |f.st|)
            && g.chan == f.chan
  {
    var c := LockBoth(s, f, p);
    var d := GiveAll(s, c, p, |f.st|);
    Extend(s, d, ByLeave(DoDie(p)));
    var e := Die(d, p);
    Extend(s, e, ByTurn(DoSwitch(p)));
    g := Switch(e, p);
  }

  predicate Harmless(f: State, p: nat, k: nat)
    requires Sized(f) && k < |f.st|
  {
    f.parent[k] == p ==> k != p && f.lock[k] == -1 && f.st[k] != Zombie
  }

  lemma OneMore(parent: seq<int>, p: nat, i: nat)
    requires i < |parent|
    ensures p in parent[..i + 1] <==> p in parent[..i] || parent[i] == p
  {
    assert parent[..i + 1] == parent[..i] + [parent[i]];
  }

  /** wait() looks at the first i entries, none of them a zombie child. */
  lemma {:induction false} LookAll(s: State, f: State, p: nat, i: nat)
    requires Sized(f) && p < |f.st| && i <= |f.st| && f.on[p] >= 0
    requires Reaches(s, f.(pc := f.pc[p := WaitScan(0, false)]))
    requires forall k: nat {:trigger Harmless(f, p, k)} :: k < |f.st| ==> Harmless(f, p, k)
    ensures Reaches(s, f.(pc := f.pc[p := WaitScan(i, p in f.parent[..i])]))
  {
    if i == 0 {
    } else {
      LookAll(s, f, p, i - 1);
      var had, kids := p in f.parent[..i - 1], p in f.parent[..i];
      assert kids == (had || f.parent[i - 1] == p) by { OneMore(f.parent, p, i - 1); }
      assert Harmless(f, p, i - 1);
      var g := LookOne(s, f, p, i - 1, had, kids);
    }
  }

  lemma LookOne(s: State, f: State, p: nat, i: nat, had: bool, kids: bool) returns (g: State)
    requires Sized(f) && p < |f.st| && i < |f.st| && f.on[p] >= 0 && Harmless(f, p, i)
    requires Reaches(s, f.(pc := f.pc[p := WaitScan(i, had)])) && kids == (had || f.parent[i] == p)
    ensures Reaches(s, g) && g == f.(pc := f.pc[p := WaitScan(i + 1, kids)])
  {
    var h := f.(pc := f.pc[p := WaitScan(i, had)]);
    g := f.(pc := f.pc[p := WaitScan(i + 1, kids)]);
    assert CanLook(h, p) && Look(h, p) == g by { assert h.pc[p := WaitScan(i + 1, kids)] == g.pc; }
    Extend(s, h, ByAwait(DoLook(p)));
  }

  /** p goes to sleep in wait(). */
  lemma WaitLong(s: State, f: State, p: nat, child: nat) returns (g: State)
    requires Reaches(s, f) && Quiet(f) && Runs(f, p) && f.pc[p] == User && child < |f.st| && f.parent[child] == p
    requires forall k: nat {:trigger Harmless(f, p, k)} :: k < |f.st| ==> Harmless(f, p, k)
    ensures Reaches(s, g) && Quiet(g) && g.cpu[0] == -1
    ensures g.st == f.st[p := Sleeping] && g.pc == f.pc[p := Waited] && g.parent == f.parent
            && g.chan == f.chan[p := Self(p)]
  {
    Extend(s, f, ByAwait(DoWait(p)));
    var a := Wait(f, p);
    assert a.pc == a.pc[p := WaitScan(0, false)];
    forall k: nat | k < |f.st| ensures Harmless(a, p, k) { assert Harmless(f, p, k); }
    LookAll(s, a, p, |f.st|);
    assert p in a.parent[..|f.st|] by { assert a.parent[..|f.st|][child] == p; }
    g := WaitEnds(s, a.(pc := a.pc[p := WaitScan(|f.st|, true)]), p);
    assert g.pc == f.pc[p := Waited];
  }

  /** The end of the scan, with children and no zombie among them. */
  lemma WaitEnds(s: State, b: State, p: nat) returns (g: State)
    requires Reaches(s, b) && Runs(b, p) && !b.killed[p] && b.pc[p] == WaitScan(|b.st|, true)
    ensures Reaches(s, g)
    ensures g == b.(chan := b.chan[p := Self(p)], st := b.st[p := Sleeping], cpu := b.cpu[0 := -1], on := b.on[p := -1],
                    lock := b.lock[p := -1], pc := b.pc[p := Waited])
  {
    Extend(s, b, ByAwait(DoWaitSleep(p)));
    var c := WaitSleep(b, p);
    Extend(s, c, ByTurn(DoSwitch(p)));
    g := Switch(c, p);
    assert g.pc == b.pc[p := Waited];
  }

  /** Entry 0 is init, and entry 1 is its child. */
  predicate Line2(f: State, st: seq<PState>, pc: seq<Pc>)
    requires |st| == |pc| == 4
  {
    && Sized(f) && 4 <= |f.st|
    && f.st[0] == st[0] && f.st[1] == st[1] && f.st[2] == st[2] && f.st[3] == st[3]
    && f.pc[0] == pc[0] && f.pc[1] == pc[1] && f.pc[2] == pc[2] && f.pc[3] == pc[3]
    && f.parent[0] == -1 && f.parent[1] == 0
  }

  /** Each of the entries 1, 2, 3 is a child of the one before. */
  predicate Line(f: State, st: seq<PState>, pc: seq<Pc>)
    requires |st| == |pc| == 4
  {
    Line2(f, st, pc) && f.parent[2] == 1 && f.parent[3] == 2
  }

  lemma InitStarts(s: State) returns (g: State)
    requires Boot(s) && Quiet(s)
    ensures Reaches(s, g) && Quiet(g) && Runs(g, 0) && g.pc[0] == User && g.st == s.st[0 := Running]
    ensures g.pc[1..] == s.pc[1..] && g.parent == s.parent
  {
    assert Legal(s, []) && Exec(s, []) == s;
    g := Resume(s, s, 0);
  }

  lemma OneFork(s: State) returns (g: State)
    requires Boot(s) && Quiet(s)
    ensures Reaches(s, g) && Quiet(g) && Runs(g, 1)
    ensures Line2(g, [Runnable, Running, Unused, Unused], [Yielded(User), User, Dead, Dead])
  {
    var a := InitStarts(s);
    g := Spawn(s, a, 0, 1);
  }

  lemma TwoForks(s: State) returns (g: State)
    requires Boot(s) && Quiet(s)
    ensures Reaches(s, g) && Quiet(g) && Runs(g, 2)
    ensures Line2(g, [Runnable, Runnable, Running, Unused], [Yielded(User), Yielded(User), User, Dead])
            && g.parent[2] == 1
  {
    var a := OneFork(s);
    g := Spawn(s, a, 1, 2);
  }

  lemma ThreeForks(s: State) returns (g: State)
    requires Boot(s) && Quiet(s)
    ensures Reaches(s, g) && Quiet(g) && Runs(g, 3)
    ensures Line(g, [Runnable, Runnable, Runnable, Running], [Yielded(User), Yielded(User), Yielded(User), User])
  {
    var a := TwoForks(s);
    g := Spawn(s, a, 2, 3);
  }

  /** 3 becomes a zombie. */
  lemma Third(s: State) returns (g: State)
    requires Boot(s) && Quiet(s)
    ensures Reaches(s, g) && Quiet(g) && g.cpu[0] == -1
    ensures Line(g, [Runnable, Runnable, Runnable, Zombie], [Yielded(User), Yielded(User), Yielded(User), Dead])
  {
    var a := ThreeForks(s);
    Extend(s, a, ByLeave(DoExit(3)));
    g := Depart(s, Exit(a, 3), 3);
  }

  /** 2 has woken init in exit() and loses the CPU there. */
  lemma Second(s: State) returns (g: State)
    requires Boot(s) && Quiet(s)
    ensures Reaches(s, g) && Quiet(g) && g.cpu[0] == -1
    ensures Line(g, [Runnable, Runnable, Runnable, Zombie], [Yielded(User), Yielded(User), Yielded(ExitA), Dead])
  {
    var a := Third(s);
    var b := Resume(s, a, 2);
    Extend(s, b, ByLeave(DoExit(2)));
    g := Park(s, Exit(b, 2), 2);
  }

  lemma OnlyChild(f: State, k: nat)
    requires Quiet(f) && k < |f.st| && f.parent[0] == -1 && f.parent[2] == 1 && f.parent[3] == 2
    ensures f.parent[k] == 0 ==> k == 1
  {
    assert k == 0 || k == 1 || k == 2 || k == 3 || f.parent[k] == -1;
  }

  /** init goes to sleep. */
  lemma First(s: State) returns (g: State)
    requires Boot(s) && Quiet(s)
    ensures Reaches(s, g) && Quiet(g) && g.cpu[0] == -1 && g.chan[0] == Self(0)
    ensures Line(g, [Sleeping, Runnable, Runnable, Zombie], [Waited, Yielded(User), Yielded(ExitA), Dead])
  {
    var a := Second(s);
    var b := Resume(s, a, 0);
    forall k: nat | k < |b.st| ensures Harmless(b, 0, k) { OnlyChild(a, k); }
    g := WaitLong(s, b, 0, 1);
  }

  /** 2 hands its zombie to init and wakes only 1. */
  lemma InitMisses(s: State) returns (g: State)
    requires Boot(s) && Quiet(s)
    ensures Reaches(s, g) && Waits(g, 0) && ZombieChild(g, 0, 3)
  {
    var a := First(s);
    var b := Resume(s, a, 2);
    g := Depart(s, b, 2);
  }

  /** p never sleeps in wait() with a zombie child in any run, exactly when p is not init. */
  lemma WaiterSafeIffNotInit(s: State, p: nat)
    requires Boot(s) && Quiet(s)
    ensures (forall f, j: nat :: Reaches(s, f) && Waits(f, p) ==> !ZombieChild(f, p, j)) <==> p != s.init
  {
    if p == s.init {
      var g := InitMisses(s);
    } else {
      forall f, j: nat | Reaches(s, f) && Waits(f, p) ensures !ZombieChild(f, p, j) {
        var run :| Legal(s, run) && Exec(s, run) == f;
        WaiterHasNoZombie(s, run, p, j);
      }
    }
  }
}
