/** What happens when bget() does recycle a recovered buffer: recovery has left its count one short
    (kernel/log.c:78), so the pin of the log does not protect it, and a committed update is lost.
    So the log is an atomic disk in every run exactly if its boot recovered nothing. */
module LogLoss {
  import opened Finite
  import opened LogDisk
  import opened CacheSpec
  import opened LogMachine
  import opened LogTheorems
  import opened LogConditions

  /** A run without a crash leads from s to f, and the same run of an atomic disk ends in d. */
  ghost predicate Comes(c: Config, s: State, f: State, d: AtomicDisk)
    requires HeaderOk(c.g, s.disk)
  {
    exists acts :: Legal(c, s, acts) && CrashFree(acts) && Exec(c, s, acts) == f && AbsExec(Abs(c, s), acts) == d
  }

  /** A set of pairs that holds what a step makes of its members. */
  type Pairs = (State, AtomicDisk) -> bool

  ghost predicate GoesOn(c: Config, r: Pairs, p: State, d: AtomicDisk, a: Step) {
    r(p, d) && Enabled(c, p, a) && !a.Crash? ==> r(Apply(c, p, a), AbsApply(d, a))
  }

  ghost predicate Closed(c: Config, r: Pairs) {
    forall p, d, a {:trigger GoesOn(c, r, p, d, a)} :: GoesOn(c, r, p, d, a)
  }

  lemma Go(c: Config, r: Pairs, p: State, d: AtomicDisk, a: Step)
    requires Closed(c, r) && r(p, d) && Enabled(c, p, a) && !a.Crash?
    ensures r(Apply(c, p, a), AbsApply(d, a))
  {
    assert GoesOn(c, r, p, d, a);
  }

  lemma ComesOn(c: Config, s: State, p: State, d: AtomicDisk, a: Step)
    requires HeaderOk(c.g, s.disk) && Comes(c, s, p, d) && Enabled(c, p, a) && !a.Crash?
    ensures Comes(c, s, Apply(c, p, a), AbsApply(d, a))
  {
    var acts :| Legal(c, s, acts) && CrashFree(acts) && Exec(c, s, acts) == p && AbsExec(Abs(c, s), acts) == d;
    var more := acts + [a];
    assert more[..|more| - 1] == acts;
    assert Legal(c, s, more) && Exec(c, s, more) == Apply(c, p, a) && AbsExec(Abs(c, s), more) == AbsApply(d, a);
  }

  /** bread(b) by thread 0 when b has no users. */
  lemma Take(c: Config, r: Pairs, p: State, b: int, d: AtomicDisk) returns (f: State)
    requires Closed(c, r) && r(p, d) && p.mode.Up? && c.g.IsHome(b) && b in p.cache
    requires b in p.users && p.users[b] == {} && b !in p.lock
    ensures r(f, d)
    ensures f == p.(cache := Hit(p.cache, b), users := p.users[b := {0}], lock := p.lock[b := 0])
  {
    Go(c, r, p, d, Bget(0, b, []));
    assert {} + {0} == {0};
    var p1 := p.(cache := Hit(p.cache, b), users := p.users[b := {0}]);
    assert Apply(c, p, Bget(0, b, [])) == p1;
    Go(c, r, p1, d, Lock(0, b));
    f := DoLock(p1, 0, b);
  }

  /** brelse(b) by its only user. */
  lemma Back(c: Config, r: Pairs, p: State, b: int, d: AtomicDisk) returns (f: State)
    requires Closed(c, r) && r(p, d) && p.mode.Up?
    requires b in p.cache && b in p.users && p.users[b] == {0} && p.lock == map[b := 0] && b !in p.dirty
    ensures r(f, d)
    ensures f == p.(cache := Drop(p.cache, b), users := p.users[b := {}], lock := map[])
  {
    Go(c, r, p, d, Unlock(0, b));
    assert map[b := 0] - {b} == map[];
    var p1 := p.(lock := map[]);
    assert Apply(c, p, Unlock(0, b)) == p1;
    Go(c, r, p1, d, Release(0, b));
    assert {0} - {0} == {};
    f := DoRelease(p1, 0, b);
  }

  /** Thread 0 changes block b, which it has locked, and hands it to log_write(). */
  lemma Change(c: Config, r: Pairs, p: State, b: int, data: Block, d: AtomicDisk) returns (f: State)
    requires Closed(c, r) && r(p, d) && p.mode.Up? && p.ops == map[0 := Op(0, false)] && p.outstanding == 1
    requires b in p.cache && p.cache[b].valid && p.lock == map[b := 0] && p.lh == [] && p.dirty == {} && 1 < c.g.nlog
             && 0 < c.budget
    ensures r(f, AbsApply(d, Modify(0, b, data)))
    ensures f == p.(cache := Pin(SetData(p.cache, b, data), b), lh := [b], ops := map[0 := Op(1, false)])
  {
    var d' := AbsApply(d, Modify(0, b, data));
    Go(c, r, p, d, Modify(0, b, data));
    var p1 := p.(cache := SetData(p.cache, b, data), dirty := {b});
    assert Apply(c, p, Modify(0, b, data)) == p1 by { assert {} + {b} == {b}; }
    Go(c, r, p1, d', LogCheck(0));
    var p2 := p1.(ops := map[0 := Op(0, true)]);
    assert Apply(c, p1, LogCheck(0)) == p2;
    Go(c, r, p2, d', LogStore(0, b));
    f := DoStore(p2, 0, b);
    assert {b} - {b} == {} && [] + [b] == [b];
  }

  lemma Finish(c: Config, r: Pairs, p: State, d: AtomicDisk) returns (f: State)
    requires Closed(c, r) && r(p, d) && p.mode.Up? && p.outstanding == 1 && p.lock == map[] && !p.committing
    requires p.ops == map[0 := Op(1, false)] && p.lh != []
    ensures r(f, d)
    ensures f == p.(outstanding := 0, ops := map[], committing := true, commit := Copying(0))
  {
    Go(c, r, p, d, EndOp(0));
    f := End(p, 0);
    assert map[0 := Op(1, false)] - {0} == map[];
  }

  /** An operation of thread 0 on recovered block b, from begin_op() to end_op().  Its last brelse()
      brings the count to 0 though the log has pinned the buffer. */
  lemma Operation(c: Config, r: Pairs, s: State, b: int, data: Block) returns (f: State)
    requires Running(c, s) && Booted(s) && b in s.mode.recovered && Closed(c, r) && r(s, Abs(c, s))
    ensures b in s.cache && c.g.IsHome(b)
    ensures r(f, AbsApply(Abs(c, s), Modify(0, b, data)))
    ensures f == s.(cache := s.cache[b := Entry(true, data, 0)], users := s.users[b := {}], lh := [b],
                    committing := true, commit := Copying(0))
  {
    HolderFacts(c, s, b);
    var d := Abs(c, s);
    Go(c, r, s, d, BeginOp(0));
    var s2 := Take(c, r, Begin(s, 0), b, d);
    var s3 := Change(c, r, s2, b, data, d);
    var s4 := Back(c, r, s3, b, AbsApply(d, Modify(0, b, data)));
    f := Finish(c, r, s4, AbsApply(d, Modify(0, b, data)));
    assert f.cache == s.cache[b := Entry(true, data, 0)] && f.users == s.users[b := {}];
  }

  /** bget() takes b's buffer for another block, and write_log() has to read b from the disk again. */
  lemma Reread(c: Config, r: Pairs, p: State, b: int, d: AtomicDisk) returns (f: State)
    requires Closed(c, r) && r(p, d) && p.mode.Up? && c.g.IsHome(b) && |p.disk| == c.g.size
    requires b in p.cache && p.cache[b].refcnt == 0 && b in p.users && p.lock == map[] && b !in p.dirty
    ensures r(f, d)
    ensures f == p.(cache := p.cache[b := Entry(true, p.disk[b], 0)], users := p.users[b := {}])
  {
    Go(c, r, p, d, Recycle(b));
    var p1 := DoRecycle(p, b);
    Go(c, r, p1, d, Bget(0, b, []));
    assert {} + {0} == {0} && p.users - {b} == (p.users - {b});
    var p2 := p.(cache := p.cache[b := Entry(false, [], 1)], users := p.users[b := {0}]);
    assert Apply(c, p1, Bget(0, b, [])) == p2 by {
      assert (p.cache - {b})[b := Entry(false, [], 1)] == p2.cache && (p.users - {b})[b := {0}] == p2.users;
    }
    f := ReadBack(c, r, p2, b, d);
    assert f.cache == p.cache[b := Entry(true, p.disk[b], 0)] && f.users == p.users[b := {}];
  }

  lemma ReadBack(c: Config, r: Pairs, p: State, b: int, d: AtomicDisk) returns (f: State)
    requires Closed(c, r) && r(p, d) && p.mode.Up? && 0 <= b < |p.disk|
    requires b in p.cache && p.cache[b] == Entry(false, [], 1) && b in p.users && p.users[b] == {0} && p.lock == map[]
             && b !in p.dirty
    ensures r(f, d)
    ensures f == p.(cache := p.cache[b := Entry(true, p.disk[b], 0)], users := p.users[b := {}])
  {
    Go(c, r, p, d, Lock(0, b));
    var p1 := p.(lock := map[b := 0]);
    assert Apply(c, p, Lock(0, b)) == p1;
    Go(c, r, p1, d, Fill(0, b));
    f := Back(c, r, DoFill(p1, b), b, d);
    assert f.cache == p.cache[b := Entry(true, p.disk[b], 0)];
  }

  lemma Publish(c: Config, r: Pairs, p: State, b: int, d: AtomicDisk) returns (f: State)
    requires Closed(c, r) && r(p, d) && p.mode.Up? && p.commit == Copying(0) && p.lh == [b] && p.lock == map[]
    requires HeaderOk(c.g, p.disk) && c.g.IsHome(b) && b in p.cache && 1 < c.g.nlog
    ensures r(f, AtomicDisk(d.current, d.current))
    ensures HeaderOk(c.g, f.disk) && |Durable(c.g, f.disk)| == c.g.size && Durable(c.g, f.disk)[b] == p.cache[b].data
  {
    var g, d1 := c.g, p.disk[c.g.start + 1 := p.cache[b].data];
    Go(c, r, p, d, CommitCopy);
    var p1 := p.(disk := d1, commit := Copying(1));
    assert Apply(c, p, CommitCopy) == p1;
    Go(c, r, p1, d, CommitHead);
    f := DoHead(c, p1);
    assert Targets(g, [b]) by {
      DistinctIs([b]);
      forall i ensures TargetAt(g, [b], i) {}
    }
    HeaderRoundTrip(g, d1, [b]);
    DurableNamed(g, f.disk, 0);
  }

  /** The commit makes the old contents durable; an atomic disk would have the new ones. */
  lemma UpdateLost(c: Config, r: Pairs, s: State, b: int, data: Block) returns (f: State, d: AtomicDisk)
    requires Running(c, s) && Booted(s) && b in s.mode.recovered && Closed(c, r) && r(s, Abs(c, s))
    ensures c.g.IsHome(b) && r(f, d) && |d.durable| == c.g.size && d.durable[b] == data
    ensures HeaderOk(c.g, f.disk) && |Durable(c.g, f.disk)| == c.g.size && Durable(c.g, f.disk)[b] == s.disk[b]
  {
    var d1 := AbsApply(Abs(c, s), Modify(0, b, data));
    var s1 := Operation(c, r, s, b, data);
    var s2 := Reread(c, r, s1, b, d1);
    f := Publish(c, r, s2, b, d1);
    d := AtomicDisk(d1.current, d1.current);
  }

  /** So a run without a crash loses the update of any recovered block. */
  lemma RunLoses(c: Config, s: State, b: int, data: Block) returns (f: State, d: AtomicDisk)
    requires Running(c, s) && Booted(s) && b in s.mode.recovered
    ensures c.g.IsHome(b) && Comes(c, s, f, d) && |d.durable| == c.g.size && d.durable[b] == data
    ensures HeaderOk(c.g, f.disk) && |Durable(c.g, f.disk)| == c.g.size && Durable(c.g, f.disk)[b] == s.disk[b]
  {
    var r: Pairs := (p, e) => Comes(c, s, p, e);
    assert r(s, Abs(c, s)) by {
      assert Legal(c, s, []) && CrashFree([]) && Exec(c, s, []) == s && AbsExec(Abs(c, s), []) == Abs(c, s);
    }
    forall p, e, a ensures GoesOn(c, r, p, e, a) {
      if r(p, e) && Enabled(c, p, a) && !a.Crash? { ComesOn(c, s, p, e, a); }
    }
    f, d := UpdateLost(c, r, s, b, data);
  }

  ghost predicate AlwaysAtomic(c: Config, s: State)
    requires HeaderOk(c.g, s.disk)
  {
    forall acts :: Legal(c, s, acts) && CrashFree(acts) ==>
      HeaderOk(c.g, Exec(c, s, acts).disk) && Abs(c, Exec(c, s, acts)) == AbsExec(Abs(c, s), acts)
  }

  /** From the end of recovery on, every run is a run of an atomic disk iff nothing was recovered. */
  lemma AtomicIffNothingRecovered(c: Config, s: State)
    requires Running(c, s) && Booted(s)
    ensures AlwaysAtomic(c, s) <==> s.mode.recovered == []
  {
    if s.mode.recovered == [] {
      forall acts | Legal(c, s, acts) && CrashFree(acts)
        ensures HeaderOk(c.g, Exec(c, s, acts).disk) && Abs(c, Exec(c, s, acts)) == AbsExec(Abs(c, s), acts)
      {
        StaysRunning(c, s, acts);
        RunRefines(c, s, acts);
      }
    } else {
      var b := s.mode.recovered[0];
      assert b in s.cache;
      HolderFacts(c, s, b);
      var data := s.disk[b] + [0];
      var f, d := RunLoses(c, s, b, data);
      var acts :| Legal(c, s, acts) && CrashFree(acts) && Exec(c, s, acts) == f && AbsExec(Abs(c, s), acts) == d;
    }
  }
}
