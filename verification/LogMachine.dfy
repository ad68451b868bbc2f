/** Every interleaving of file-system operations, buffer-cache traffic, group commit, crashes
    and recovery (kernel/log.c over kernel/bio.c).  A step is one critical section under
    log.lock or bcache.lock, one change to a locked buffer, or one atomic disk write. */
module LogMachine {
  import opened Finite
  import opened LogDisk
  import opened CacheSpec

  const NPROC: nat := 64

  /** `budget` is the number of new log entries one operation may add. */
  datatype Config = Config(g: Geometry, budget: nat) {
    predicate Ok() { g.Ok() && 1 <= budget <= MAXOPBLOCKS }

    /** The most entries the admission test of begin_op() can let in. */
    function Peak(): int { LOGSIZE - MAXOPBLOCKS + budget }

    /** The log area has a slot for each of them. */
    predicate Fits() { Peak() < g.nlog }
  }

  /** An operation between begin_op() and end_op(); `checked` records that it is inside
      log_write(), past the two tests made without the lock. */
  datatype Op = Op(used: nat, checked: bool)

  datatype Mode =
    | Boot                                  // header not read yet
    | Replay(h: seq<int>, i: nat)           // install_trans() during recovery
    | Up(recovered: seq<int>)               // running; what this boot's recovery found

  datatype Commit =
    | Idle
    | Copying(i: nat)                       // write_log()
    | Installing(i: nat)                    // install_trans() after the commit point
    | Finished                              // committing is about to be reset

  datatype State = State(
    mode: Mode,
    disk: Disk,
    cache: Cache<int>,
    users: map<int, set<nat>>,              // who has called bget() and not yet brelse()
    lock: map<int, nat>,                    // sleep-lock owners
    dirty: set<int>,                        // changed since the holder's last log_write()
    lh: seq<int>,                           // log.lh.block[..log.lh.n]
    outstanding: nat,
    committing: bool,
    ops: map<nat, Op>,
    commit: Commit)

  // ---- operations: begin_op(), end_op() -----------------------------------------------

  predicate CanBegin(s: State, t: nat) {
    && s.mode.Up? && t < NPROC && t !in s.ops && !s.committing
    && |s.lh| + (s.outstanding + 1) * MAXOPBLOCKS <= LOGSIZE
  }

  function Begin(s: State, t: nat): State {
    s.(outstanding := s.outstanding + 1, ops := s.ops[t := Op(0, false)])
  }

  /** An operation has released its buffers before it ends. */
  predicate CanEnd(s: State, t: nat) {
    && s.mode.Up? && t in s.ops && !s.committing && 0 < s.outstanding
    && forall b :: b in s.lock ==> s.lock[b] != t
  }

  function End(s: State, t: nat): State
    requires 0 < s.outstanding
  {
    var s' := s.(outstanding := s.outstanding - 1, ops := s.ops - {t});
    if s'.outstanding == 0 then
      s'.(committing := true, commit := if |s.lh| > 0 then Copying(0) else Finished)
    else s'
  }

  // ---- buffers: bget(), the sleep lock, brelse() --------------------------------------

  predicate CanGet(c: Config, s: State, t: nat, b: int) {
    s.mode.Up? && t < NPROC && c.g.IsHome(b) && (b in s.users ==> t !in s.users[b])
  }

  function DoGet(s: State, t: nat, b: int, junk: Block): State {
    s.(cache := Get(s.cache, b, junk),
       users := s.users[b := (if b in s.users then s.users[b] else {}) + {t}])
  }

  predicate CanRecycle(s: State, b: int) { s.mode.Up? && Recyclable(s.cache, b) }

  function DoRecycle(s: State, b: int): State {
    s.(cache := s.cache - {b}, users := s.users - {b})
  }

  predicate CanLock(s: State, t: nat, b: int) {
    s.mode.Up? && b in s.cache && b in s.users && t in s.users[b] && b !in s.lock
  }

  function DoLock(s: State, t: nat, b: int): State { s.(lock := s.lock[b := t]) }

  predicate Holds(s: State, t: nat, b: int) {
    s.mode.Up? && b in s.lock && s.lock[b] == t && b in s.cache
  }

  /** bread(): the holder of an invalid buffer reads the block from disk. */
  predicate CanFill(s: State, t: nat, b: int) {
    Holds(s, t, b) && !s.cache[b].valid && 0 <= b < |s.disk|
  }

  function DoFill(s: State, b: int): State
    requires b in s.cache && 0 <= b < |s.disk|
  {
    s.(cache := SetData(s.cache, b, s.disk[b]))
  }

  predicate CanModify(s: State, t: nat, b: int) { Holds(s, t, b) && s.cache[b].valid && t in s.ops }

  function DoModify(s: State, b: int, data: Block): State
    requires b in s.cache
  {
    s.(cache := SetData(s.cache, b, data), dirty := s.dirty + {b})
  }

  /** A changed buffer is given to log_write() before it is released. */
  predicate CanUnlock(s: State, t: nat, b: int) { Holds(s, t, b) && b !in s.dirty }

  function DoUnlock(s: State, b: int): State { s.(lock := s.lock - {b}) }

  predicate CanRelease(s: State, t: nat, b: int) {
    && s.mode.Up? && b in s.cache && b in s.users && t in s.users[b]
    && (b in s.lock ==> s.lock[b] != t)
  }

  function DoRelease(s: State, t: nat, b: int): State
    requires b in s.cache && b in s.users
  {
    s.(cache := Drop(s.cache, b), users := s.users[b := s.users[b] - {t}])
  }

  // ---- log_write() --------------------------------------------------------------------

  /** The tests at lines 218 and 220, made without the lock; failing one is a panic. */
  predicate CanCheck(c: Config, s: State, t: nat) {
    && s.mode.Up? && t in s.ops
    && |s.lh| < LOGSIZE && |s.lh| < c.g.nlog - 1 && 1 <= s.outstanding
  }

  function DoCheck(s: State, t: nat): State
    requires t in s.ops
  {
    s.(ops := s.ops[t := s.ops[t].(checked := true)])
  }

  predicate CanStore(c: Config, s: State, t: nat, b: int) {
    && Holds(s, t, b) && s.cache[b].valid && t in s.ops && s.ops[t].checked
    && (b !in s.lh ==> s.ops[t].used < c.budget)
  }

  function DoStore(s: State, t: nat, b: int): State
    requires t in s.ops && b in s.cache
  {
    if b in s.lh then                       // absorbed
      s.(dirty := s.dirty - {b}, ops := s.ops[t := s.ops[t].(checked := false)])
    else
      s.(dirty := s.dirty - {b}, lh := s.lh + [b], cache := Pin(s.cache, b),
         ops := s.ops[t := Op(s.ops[t].used + 1, false)])
  }

  // ---- commit() -----------------------------------------------------------------------

  predicate CanCopy(c: Config, s: State) {
    && s.mode.Up? && s.commit.Copying? && s.commit.i < |s.lh|
    && s.lh[s.commit.i] !in s.lock && s.lh[s.commit.i] in s.cache
    && c.g.start + 1 + s.commit.i < |s.disk|
  }

  function DoCopy(c: Config, s: State): State
    requires CanCopy(c, s)
  {
    var i := s.commit.i;
    s.(disk := s.disk[c.g.start + 1 + i := s.cache[s.lh[i]].data], commit := Copying(i + 1))
  }

  predicate CanHead(c: Config, s: State) {
    && s.mode.Up? && s.commit.Copying? && s.commit.i == |s.lh| <= LOGSIZE
    && c.g.start < |s.disk| && |s.disk[c.g.start]| == WORDS
  }

  function DoHead(c: Config, s: State): State
    requires CanHead(c, s)
  {
    s.(disk := s.disk[c.g.start := HeaderBlock(s.disk[c.g.start], s.lh)], commit := Installing(0))
  }

  predicate CanInstall(c: Config, s: State) {
    && s.mode.Up? && s.commit.Installing? && s.commit.i < |s.lh|
    && s.lh[s.commit.i] !in s.lock && s.lh[s.commit.i] in s.cache
    && c.g.start + 1 + s.commit.i < |s.disk| && 0 <= s.lh[s.commit.i] < |s.disk|
  }

  function DoInstall(c: Config, s: State): State
    requires CanInstall(c, s)
  {
    var i := s.commit.i;
    var data := s.disk[c.g.start + 1 + i];
    s.(disk := s.disk[s.lh[i] := data],
       cache := FillAndDrop(s.cache, s.lh[i], data),
       commit := Installing(i + 1))
  }

  predicate CanClear(c: Config, s: State) {
    && s.mode.Up? && s.commit.Installing? && s.commit.i == |s.lh|
    && c.g.start < |s.disk| && |s.disk[c.g.start]| == WORDS
  }

  function DoClear(c: Config, s: State): State
    requires CanClear(c, s)
  {
    s.(lh := [], disk := s.disk[c.g.start := HeaderBlock(s.disk[c.g.start], [])], commit := Finished)
  }

  predicate CanFinish(s: State) { s.mode.Up? && s.commit.Finished? }

  function DoFinish(s: State): State { s.(committing := false, commit := Idle) }

  // ---- crash and recover_from_log() -----------------------------------------------------

  function DoCrash(s: State): State {
    State(Boot, s.disk, map[], map[], map[], {}, [], 0, false, map[], Idle)
  }

  ghost predicate CanReadHead(c: Config, s: State) { s.mode.Boot? && HeaderOk(c.g, s.disk) }

  ghost function DoReadHead(c: Config, s: State): State
    requires CanReadHead(c, s)
  {
    s.(mode := Replay(Header(c.g, s.disk), 0))
  }

  predicate CanReplay(c: Config, s: State) {
    && s.mode.Replay? && s.mode.i < |s.mode.h|
    && c.g.start + 1 + s.mode.i < |s.disk| && 0 <= s.mode.h[s.mode.i] < |s.disk|
  }

  /** bread(dbuf), memmove(), bwrite(dbuf), bunpin(dbuf), brelse(dbuf) */
  function DoReplay(c: Config, s: State): State
    requires CanReplay(c, s)
  {
    var i := s.mode.i;
    var b := s.mode.h[i];
    var data := s.disk[c.g.start + 1 + i];
    s.(disk := s.disk[b := data],
       cache := Drop(FillAndDrop(Get(s.cache, b, []), b, data), b),
       mode := Replay(s.mode.h, i + 1))
  }

  predicate CanReplayClear(c: Config, s: State) {
    && s.mode.Replay? && s.mode.i == |s.mode.h|
    && c.g.start < |s.disk| && |s.disk[c.g.start]| == WORDS
  }

  function DoReplayClear(c: Config, s: State): State
    requires CanReplayClear(c, s)
  {
    s.(disk := s.disk[c.g.start := HeaderBlock(s.disk[c.g.start], [])], mode := Up(s.mode.h),
       users := map b | b in s.cache :: {})
  }

  // ---- the transition system ------------------------------------------------------------

  datatype Step =
    | BeginOp(t: nat) | EndOp(t: nat)
    | Bget(t: nat, b: int, junk: Block) | Recycle(b: int) | Lock(t: nat, b: int)
    | Fill(t: nat, b: int) | Modify(t: nat, b: int, data: Block)
    | Unlock(t: nat, b: int) | Release(t: nat, b: int)
    | LogCheck(t: nat) | LogStore(t: nat, b: int)
    | CommitCopy | CommitHead | CommitInstall | CommitClear | CommitDone
    | Crash | ReadHead | ReplayInstall | ReplayClear

  ghost predicate Enabled(c: Config, s: State, a: Step) {
    match a
    case BeginOp(t) => CanBegin(s, t)
    case EndOp(t) => CanEnd(s, t)
    case Bget(t, b, junk) => CanGet(c, s, t, b)
    case Recycle(b) => CanRecycle(s, b)
    case Lock(t, b) => CanLock(s, t, b)
    case Fill(t, b) => CanFill(s, t, b)
    case Modify(t, b, data) => CanModify(s, t, b)
    case Unlock(t, b) => CanUnlock(s, t, b)
    case Release(t, b) => CanRelease(s, t, b)
    case LogCheck(t) => CanCheck(c, s, t)
    case LogStore(t, b) => CanStore(c, s, t, b)
    case CommitCopy => CanCopy(c, s)
    case CommitHead => CanHead(c, s)
    case CommitInstall => CanInstall(c, s)
    case CommitClear => CanClear(c, s)
    case CommitDone => CanFinish(s)
    case Crash => true
    case ReadHead => CanReadHead(c, s)
    case ReplayInstall => CanReplay(c, s)
    case ReplayClear => CanReplayClear(c, s)
  }

  ghost function Apply(c: Config, s: State, a: Step): State
    requires Enabled(c, s, a)
  {
    match a
    case BeginOp(t) => Begin(s, t)
    case EndOp(t) => End(s, t)
    case Bget(t, b, junk) => DoGet(s, t, b, junk)
    case Recycle(b) => DoRecycle(s, b)
    case Lock(t, b) => DoLock(s, t, b)
    case Fill(t, b) => DoFill(s, b)
    case Modify(t, b, data) => DoModify(s, b, data)
    case Unlock(t, b) => DoUnlock(s, b)
    case Release(t, b) => DoRelease(s, t, b)
    case LogCheck(t) => DoCheck(s, t)
    case LogStore(t, b) => DoStore(s, t, b)
    case CommitCopy => DoCopy(c, s)
    case CommitHead => DoHead(c, s)
    case CommitInstall => DoInstall(c, s)
    case CommitClear => DoClear(c, s)
    case CommitDone => DoFinish(s)
    case Crash => DoCrash(s)
    case ReadHead => DoReadHead(c, s)
    case ReplayInstall => DoReplay(c, s)
    case ReplayClear => DoReplayClear(c, s)
  }

  // ---- abstraction ------------------------------------------------------------------

  /** The logical block map: what bread() returns for each home block. */
  ghost function View(g: Geometry, disk: Disk, cache: Cache<int>): (v: Disk)
    requires |disk| == g.size
    ensures |v| == g.size
    ensures forall b :: 0 <= b < g.size ==>
              v[b] == if !g.IsHome(b) then []
                      else if b in cache && cache[b].valid then cache[b].data
                      else disk[b]
  {
    seq(|disk|, b requires 0 <= b < |disk| =>
      if !g.IsHome(b) then []
      else if b in cache && cache[b].valid then cache[b].data
      else disk[b])
  }

  /** An atomic disk: what a crash would leave, and what operations see. */
  datatype AtomicDisk = AtomicDisk(durable: Disk, current: Disk)

  ghost function Abs(c: Config, s: State): AtomicDisk
    requires HeaderOk(c.g, s.disk)
  {
    var d := Durable(c.g, s.disk);
    AtomicDisk(d, if s.mode.Up? then View(c.g, s.disk, s.cache) else d)
  }

  /** The three things that can happen to an atomic disk; every other step is invisible. */
  ghost function AbsApply(d: AtomicDisk, a: Step): AtomicDisk {
    match a
    case Modify(_, b, data) =>
      if 0 <= b < |d.current| then d.(current := d.current[b := data]) else d
    case CommitHead => AtomicDisk(d.current, d.current)
    case Crash => AtomicDisk(d.durable, d.durable)
    case _ => d
  }

  // ---- reservations -----------------------------------------------------------------

  ghost function Live(ops: map<nat, Op>, n: nat): nat {
    if n == 0 then 0 else Live(ops, n - 1) + (if n - 1 in ops then 1 else 0)
  }

  /** Entries that operations with a slot number below n may still add. */
  ghost function Unused(ops: map<nat, Op>, budget: nat, n: nat): int {
    if n == 0 then 0
    else Unused(ops, budget, n - 1) + (if n - 1 in ops then budget - ops[n - 1].used else 0)
  }

  lemma {:induction false} SumsAdd(ops: map<nat, Op>, budget: nat, t: nat, o: Op, n: nat)
    requires t !in ops
    ensures Live(ops[t := o], n) == Live(ops, n) + (if t < n then 1 else 0)
    ensures Unused(ops[t := o], budget, n) == Unused(ops, budget, n) + (if t < n then budget - o.used else 0)
  {
    if n > 0 { SumsAdd(ops, budget, t, o, n - 1); }
  }

  lemma {:induction false} SumsSet(ops: map<nat, Op>, budget: nat, t: nat, o: Op, n: nat)
    requires t in ops
    ensures Live(ops[t := o], n) == Live(ops, n)
    ensures Unused(ops[t := o], budget, n)
         == Unused(ops, budget, n) + (if t < n then ops[t].used - o.used else 0)
  {
    if n > 0 { SumsSet(ops, budget, t, o, n - 1); }
  }

  lemma SumsRemove(ops: map<nat, Op>, budget: nat, t: nat, n: nat)
    requires t in ops
    ensures Live(ops, n) == Live(ops - {t}, n) + (if t < n then 1 else 0)
    ensures Unused(ops, budget, n) == Unused(ops - {t}, budget, n) + (if t < n then budget - ops[t].used else 0)
  {
    assert (ops - {t})[t := ops[t]] == ops;
    SumsAdd(ops - {t}, budget, t, ops[t], n);
  }

  lemma {:induction false} UnusedBounds(ops: map<nat, Op>, budget: nat, n: nat)
    requires forall t :: t in ops ==> ops[t].used <= budget
    ensures 0 <= Unused(ops, budget, n) <= Live(ops, n) * budget
    ensures forall t :: t in ops && t < n ==> budget - ops[t].used <= Unused(ops, budget, n) && 1 <= Live(ops, n)
  {
    if n > 0 {
      UnusedBounds(ops, budget, n - 1);
      assert (Live(ops, n - 1) + 1) * budget == Live(ops, n - 1) * budget + budget;
    }
  }

  lemma {:induction false} NoOps(budget: nat, n: nat)
    ensures Live(map[], n) == 0 && Unused(map[], budget, n) == 0
  {
    if n > 0 { NoOps(budget, n - 1); }
  }

  // ---- the invariant ----------------------------------------------------------------

  /** Log entries whose buffer is still pinned. */
  function Pinned(lh: seq<int>, commit: Commit): seq<int> {
    if commit.Installing? && commit.i <= |lh| then lh[commit.i..] else lh
  }

  predicate Tids(ts: set<nat>) { forall t :: t in ts ==> t < NPROC }

  /** The count of a buffer with n references; recovery leaves a buffer one `short`. */
  function Refs(n: nat, short: bool): nat { if !short then n else if n == 0 then REFMOD - 1 else n - 1 }

  predicate CountAt(g: Geometry, cache: Cache<int>, users: map<int, set<nat>>, pinned: seq<int>, rec: seq<int>,
                    b: int) {
    b in cache ==>
      && g.IsHome(b) && b in users && Tids(users[b])
      && cache[b].refcnt == Refs(|users[b]| + (if b in pinned then 1 else 0), b in rec)
  }

  predicate PinAt(cache: Cache<int>, pinned: seq<int>, b: int) { b in pinned ==> b in cache && cache[b].valid }

  predicate StaysAt(cache: Cache<int>, rec: seq<int>, b: int) { b in rec ==> b in cache }

  /** Reference counts are exact, one per user and one for the pin, but for the recovered blocks
      `rec`: their buffers stay in the cache and count one less, modulo 2^32. */
  ghost predicate CountsOk(g: Geometry, cache: Cache<int>, users: map<int, set<nat>>, pinned: seq<int>, rec: seq<int>) {
    && users.Keys == cache.Keys
    && (forall b {:trigger CountAt(g, cache, users, pinned, rec, b)} :: CountAt(g, cache, users, pinned, rec, b))
    && (forall b {:trigger PinAt(cache, pinned, b)} :: PinAt(cache, pinned, b))
    && (forall b {:trigger StaysAt(cache, rec, b)} :: StaysAt(cache, rec, b))
  }

  predicate LockAt(users: map<int, set<nat>>, lock: map<int, nat>, b: int) {
    b in lock ==> b in users && lock[b] in users[b]
  }

  predicate DirtyAt(cache: Cache<int>, lock: map<int, nat>, dirty: set<int>, ops: map<nat, Op>, b: int) {
    b in dirty ==> b in lock && lock[b] in ops && b in cache && cache[b].valid
  }

  ghost predicate LocksOk(cache: Cache<int>, users: map<int, set<nat>>, lock: map<int, nat>, dirty: set<int>,
                    ops: map<nat, Op>) {
    && (forall b {:trigger LockAt(users, lock, b)} :: LockAt(users, lock, b))
    && (forall b {:trigger DirtyAt(cache, lock, dirty, ops, b)} :: DirtyAt(cache, lock, dirty, ops, b))
  }

  predicate OpAt(ops: map<nat, Op>, budget: nat, t: nat) { t in ops ==> t < NPROC && ops[t].used <= budget }

  ghost predicate LogOk(c: Config, lh: seq<int>, ops: map<nat, Op>, outstanding: nat) {
    && Targets(c.g, lh)
    && (forall t {:trigger OpAt(ops, c.budget, t)} :: OpAt(ops, c.budget, t))
    && outstanding == Live(ops, NPROC)
    && |lh| + Unused(ops, c.budget, NPROC) <= c.Peak()
  }

  predicate CommitOk(ops: map<nat, Op>, committing: bool, commit: Commit) {
    && (committing <==> commit != Idle)
    && (committing ==> ops == map[])
  }

  predicate DataAt(disk: Disk, cache: Cache<int>, dirty: set<int>, pinned: seq<int>, b: int) {
    b in cache ==> 0 <= b < |disk| && (cache[b].valid && b !in dirty && b !in pinned ==> cache[b].data == disk[b])
  }

  /** A valid buffer that is neither being changed nor pinned agrees with the disk. */
  ghost predicate DataOk(disk: Disk, cache: Cache<int>, dirty: set<int>, pinned: seq<int>) {
    forall b {:trigger DataAt(disk, cache, dirty, pinned, b)} :: DataAt(disk, cache, dirty, pinned, b)
  }

  predicate HasData(cache: Cache<int>, b: int, data: Block) {
    b in cache && cache[b].data == data
  }

  predicate SlotAt(g: Geometry, disk: Disk, cache: Cache<int>, lh: seq<int>, from: nat, to: nat, j: nat)
    requires from <= to <= |lh| && g.start + |lh| < |disk|
  {
    from <= j < to ==> HasData(cache, lh[j], disk[g.start + 1 + j])
  }

  /** log slots [from, to) hold the cached contents of the blocks they stand for */
  ghost predicate SlotsOk(g: Geometry, disk: Disk, cache: Cache<int>, lh: seq<int>, from: nat, to: nat)
    requires from <= to <= |lh| && g.start + |lh| < |disk|
  {
    forall j: nat {:trigger SlotAt(g, disk, cache, lh, from, to, j)} :: SlotAt(g, disk, cache, lh, from, to, j)
  }

  predicate HomeAt(g: Geometry, disk: Disk, h: seq<int>, i: nat, j: nat) {
    j < i <= |h| && g.start + |h| < |disk| ==> 0 <= h[j] < |disk| && disk[h[j]] == disk[g.start + 1 + j]
  }

  /** The first i blocks are home. */
  ghost predicate HomesOk(g: Geometry, disk: Disk, h: seq<int>, i: nat) {
    forall j: nat {:trigger HomeAt(g, disk, h, i, j)} :: HomeAt(g, disk, h, i, j)
  }

  ghost predicate PhaseOk(g: Geometry, disk: Disk, cache: Cache<int>, lh: seq<int>, commit: Commit)
    requires HeaderOk(g, disk)
  {
    match commit
    case Idle => Count(g, disk) == 0
    case Finished => Count(g, disk) == 0 && lh == []
    case Copying(i) =>
      && Count(g, disk) == 0 && 0 < |lh| < g.nlog && i <= |lh|
      && SlotsOk(g, disk, cache, lh, 0, i)
    case Installing(i) =>
      && Header(g, disk) == lh && i <= |lh|
      && SlotsOk(g, disk, cache, lh, i, |lh|)
      && HomesOk(g, disk, lh, i)
  }

  /** Everything cached is on disk; true while recovery runs. */
  predicate CacheClean(g: Geometry, disk: Disk, cache: Cache<int>)
    requires |disk| == g.size
  {
    forall b :: b in cache ==> g.IsHome(b) && cache[b].valid && cache[b].data == disk[b]
  }

  /** No operation, no lock and no transaction in memory. */
  predicate Quiet(s: State) {
    && s.lock == map[] && s.dirty == {} && s.lh == [] && s.ops == map[]
    && s.outstanding == 0 && !s.committing && s.commit == Idle
  }

  /** The invariant of a running system. */
  ghost predicate Running(c: Config, s: State) {
    && c.Ok() && c.Fits() && HeaderOk(c.g, s.disk)
    && s.mode.Up?
    && CountsOk(c.g, s.cache, s.users, Pinned(s.lh, s.commit), s.mode.recovered)
    && LocksOk(s.cache, s.users, s.lock, s.dirty, s.ops)
    && LogOk(c, s.lh, s.ops, s.outstanding)
    && CommitOk(s.ops, s.committing, s.commit)
    && DataOk(s.disk, s.cache, s.dirty, Pinned(s.lh, s.commit))
    && PhaseOk(c.g, s.disk, s.cache, s.lh, s.commit)
  }

  /** The invariant while recovery runs. */
  ghost predicate Booting(c: Config, s: State) {
    && c.Ok() && c.Fits() && HeaderOk(c.g, s.disk)
    && !s.mode.Up?
    && CacheClean(c.g, s.disk, s.cache)
    && Quiet(s)
    && (s.mode.Boot? ==> s.cache == map[])
    && (s.mode.Replay? ==>
          var Replay(h, i) := s.mode;
          h == Header(c.g, s.disk) && i <= |h| && HomesOk(c.g, s.disk, h, i) && Wrapped(s.cache, h[..i]))
  }

  /** Recovery unpins buffers it never pinned: each ends one below zero, which is 2^32 - 1. */
  ghost predicate Wrapped(cache: Cache<int>, blocks: seq<int>) {
    && (forall b :: b in cache <==> b in blocks)
    && (forall b :: b in cache ==> cache[b].refcnt == REFMOD - 1)
  }

  ghost predicate Inv(c: Config, s: State) {
    if s.mode.Up? then Running(c, s) else Booting(c, s)
  }

  // ---- each kind of step keeps the invariant and does what AbsApply says ---------------

  lemma OpsWithin(ops: map<nat, Op>, budget: nat)
    requires forall t {:trigger OpAt(ops, budget, t)} :: OpAt(ops, budget, t)
    ensures forall t :: t in ops ==> t < NPROC && ops[t].used <= budget
  {
    forall t | t in ops ensures t < NPROC && ops[t].used <= budget { assert OpAt(ops, budget, t); }
  }

  lemma BeginKeeps(c: Config, s: State, t: nat)
    requires Running(c, s) && CanBegin(s, t)
    ensures Running(c, Begin(s, t))
  {
    OpsWithin(s.ops, c.budget);
    UnusedBounds(s.ops, c.budget, NPROC);
    SumsAdd(s.ops, c.budget, t, Op(0, false), NPROC);
    var ops' := s.ops[t := Op(0, false)];
    forall u ensures OpAt(ops', c.budget, u) { assert OpAt(s.ops, c.budget, u); }
    forall b ensures DirtyAt(s.cache, s.lock, s.dirty, ops', b) { assert DirtyAt(s.cache, s.lock, s.dirty, s.ops, b); }
  }

  lemma EndKeeps(c: Config, s: State, t: nat)
    requires Running(c, s) && CanEnd(s, t)
    ensures Running(c, End(s, t))
  {
    OpsWithin(s.ops, c.budget);
    SumsRemove(s.ops, c.budget, t, NPROC);
    UnusedBounds(s.ops, c.budget, NPROC);
    UnusedBounds(s.ops - {t}, c.budget, NPROC);
    var ops' := s.ops - {t};
    forall u ensures OpAt(ops', c.budget, u) { assert OpAt(s.ops, c.budget, u); }
    forall b ensures DirtyAt(s.cache, s.lock, s.dirty, ops', b) { assert DirtyAt(s.cache, s.lock, s.dirty, s.ops, b); }
  }

  // One buffer changes: what that means for each part of the invariant.

  lemma CountsSet(g: Geometry, cache: Cache<int>, users: map<int, set<nat>>, pinned: seq<int>, rec: seq<int>,
                  b: int, e: Entry, us: set<nat>, pinned': seq<int>)
    requires CountsOk(g, cache, users, pinned, rec) && g.IsHome(b) && Tids(us)
    requires e.refcnt == Refs(|us| + (if b in pinned' then 1 else 0), b in rec) && (b in pinned' ==> e.valid)
    requires forall x :: x != b ==> (x in pinned' <==> x in pinned)
    ensures CountsOk(g, cache[b := e], users[b := us], pinned', rec)
  {
    var cache', users' := cache[b := e], users[b := us];
    forall x ensures CountAt(g, cache', users', pinned', rec, x) { assert CountAt(g, cache, users, pinned, rec, x); }
    forall x ensures PinAt(cache', pinned', x) { assert PinAt(cache, pinned, x); }
    forall x ensures StaysAt(cache', rec, x) { assert StaysAt(cache, rec, x); }
  }

  lemma LocksSet(cache: Cache<int>, users: map<int, set<nat>>, lock: map<int, nat>, dirty: set<int>, ops: map<nat, Op>,
                 b: int, e: Entry, us: set<nat>, dirty': set<int>, ops': map<nat, Op>)
    requires LocksOk(cache, users, lock, dirty, ops) && (b in lock ==> lock[b] in us)
    requires b in dirty' ==> b in lock && lock[b] in ops && e.valid
    requires (forall x :: x in dirty' && x != b ==> x in dirty) && ops.Keys == ops'.Keys
    ensures LocksOk(cache[b := e], users[b := us], lock, dirty', ops')
  {
    var cache', users' := cache[b := e], users[b := us];
    forall x ensures LockAt(users', lock, x) { assert LockAt(users, lock, x); }
    forall x ensures DirtyAt(cache', lock, dirty', ops', x) { assert DirtyAt(cache, lock, dirty, ops, x); }
  }

  lemma DataSet(disk: Disk, cache: Cache<int>, dirty: set<int>, pinned: seq<int>, b: int, e: Entry, block: Block,
                dirty': set<int>, pinned': seq<int>)
    requires DataOk(disk, cache, dirty, pinned) && 0 <= b < |disk|
             && (e.valid && b !in dirty' && b !in pinned' ==> e.data == block)
    requires forall x :: x != b ==> (x in dirty' <==> x in dirty) && (x in pinned' <==> x in pinned)
    ensures DataOk(disk[b := block], cache[b := e], dirty', pinned')
  {
    var disk', cache' := disk[b := block], cache[b := e];
    forall x ensures DataAt(disk', cache', dirty', pinned', x) { assert DataAt(disk, cache, dirty, pinned, x); }
  }

  /** Unless its log slot matters, a buffer may change. */
  lemma PhaseSet(g: Geometry, disk: Disk, cache: Cache<int>, lh: seq<int>, commit: Commit, b: int, e: Entry)
    requires HeaderOk(g, disk) && PhaseOk(g, disk, cache, lh, commit)
             && (b in cache ==> e.data == cache[b].data || b !in Pinned(lh, commit))
    ensures PhaseOk(g, disk, cache[b := e], lh, commit)
  {
    var cache' := cache[b := e];
    if commit.Copying? {
      forall j: nat ensures SlotAt(g, disk, cache', lh, 0, commit.i, j) {
        assert SlotAt(g, disk, cache, lh, 0, commit.i, j);
      }
    } else if commit.Installing? {
      forall j: nat ensures SlotAt(g, disk, cache', lh, commit.i, |lh|, j) {
        assert SlotAt(g, disk, cache, lh, commit.i, |lh|, j);
        assert commit.i <= j < |lh| ==> lh[commit.i..][j - commit.i] == lh[j];
      }
    }
  }

  function Shown(cache: Cache<int>, b: int, block: Block): Block {
    if b in cache && cache[b].valid then cache[b].data else block
  }

  lemma ViewSet(g: Geometry, disk: Disk, cache: Cache<int>, b: int, e: Entry, block: Block)
    requires |disk| == g.size && g.IsHome(b)
    ensures View(g, disk[b := block], cache[b := e]) == View(g, disk, cache)[b := if e.valid then e.data else block]
    ensures View(g, disk, cache)[b := Shown(cache, b, disk[b])] == View(g, disk, cache)
  {
  }

  lemma GetKeeps(c: Config, s: State, t: nat, b: int, junk: Block)
    requires Running(c, s) && CanGet(c, s, t, b)
    ensures Running(c, DoGet(s, t, b, junk))
    ensures View(c.g, s.disk, DoGet(s, t, b, junk).cache) == View(c.g, s.disk, s.cache)
  {
    var pinned := Pinned(s.lh, s.commit);
    assert CountAt(c.g, s.cache, s.users, pinned, s.mode.recovered, b) && PinAt(s.cache, pinned, b)
           && DataAt(s.disk, s.cache, s.dirty, pinned, b);
    assert LockAt(s.users, s.lock, b) && DirtyAt(s.cache, s.lock, s.dirty, s.ops, b);
    assert StaysAt(s.cache, s.mode.recovered, b);
    var us := (if b in s.users then s.users[b] else {}) + {t};
    RangeSize(us, 0, NPROC);
    var e := Get(s.cache, b, junk)[b];
    assert Get(s.cache, b, junk) == s.cache[b := e] && s.disk[b := s.disk[b]] == s.disk;
    CountsSet(c.g, s.cache, s.users, pinned, s.mode.recovered, b, e, us, pinned);
    LocksSet(s.cache, s.users, s.lock, s.dirty, s.ops, b, e, us, s.dirty, s.ops);
    DataSet(s.disk, s.cache, s.dirty, pinned, b, e, s.disk[b], s.dirty, pinned);
    PhaseSet(c.g, s.disk, s.cache, s.lh, s.commit, b, e);
    ViewSet(c.g, s.disk, s.cache, b, e, s.disk[b]);
  }

  lemma RecycleKeeps(c: Config, s: State, b: int)
    requires Running(c, s) && CanRecycle(s, b) && b !in s.mode.recovered
    ensures Running(c, DoRecycle(s, b))
    ensures View(c.g, s.disk, DoRecycle(s, b).cache) == View(c.g, s.disk, s.cache)
  {
    var pinned, rec, cache', users' := Pinned(s.lh, s.commit), s.mode.recovered, s.cache - {b}, s.users - {b};
    assert CountAt(c.g, s.cache, s.users, pinned, s.mode.recovered, b) && PinAt(s.cache, pinned, b)
           && DataAt(s.disk, s.cache, s.dirty, pinned, b);
    assert LockAt(s.users, s.lock, b) && DirtyAt(s.cache, s.lock, s.dirty, s.ops, b);
    forall x ensures CountAt(c.g, cache', users', pinned, rec, x) {
      assert CountAt(c.g, s.cache, s.users, pinned, s.mode.recovered, x);
    }
    forall x ensures PinAt(cache', pinned, x) { assert PinAt(s.cache, pinned, x); }
    forall x ensures StaysAt(cache', rec, x) { assert StaysAt(s.cache, rec, x); }
    forall x ensures LockAt(users', s.lock, x) { assert LockAt(s.users, s.lock, x); }
    forall x ensures DirtyAt(cache', s.lock, s.dirty, s.ops, x) { assert DirtyAt(s.cache, s.lock, s.dirty, s.ops, x); }
    forall x ensures DataAt(s.disk, cache', s.dirty, pinned, x) { assert DataAt(s.disk, s.cache, s.dirty, pinned, x); }
    PhaseWithout(c.g, s.disk, s.cache, s.lh, s.commit, b);
  }

  lemma PhaseWithout(g: Geometry, disk: Disk, cache: Cache<int>, lh: seq<int>, commit: Commit, b: int)
    requires HeaderOk(g, disk) && PhaseOk(g, disk, cache, lh, commit) && b !in Pinned(lh, commit)
    ensures PhaseOk(g, disk, cache - {b}, lh, commit)
  {
    var cache' := cache - {b};
    if commit.Copying? {
      forall j: nat ensures SlotAt(g, disk, cache', lh, 0, commit.i, j) {
        assert SlotAt(g, disk, cache, lh, 0, commit.i, j);
      }
    } else if commit.Installing? {
      forall j: nat ensures SlotAt(g, disk, cache', lh, commit.i, |lh|, j) {
        assert SlotAt(g, disk, cache, lh, commit.i, |lh|, j);
        assert commit.i <= j < |lh| ==> lh[commit.i..][j - commit.i] == lh[j];
      }
    }
  }

  lemma LockKeeps(c: Config, s: State, t: nat, b: int)
    requires Running(c, s) && CanLock(s, t, b)
    ensures Running(c, DoLock(s, t, b))
  {
    var lock' := s.lock[b := t];
    forall x ensures LockAt(s.users, lock', x) { assert LockAt(s.users, s.lock, x); }
    forall x ensures DirtyAt(s.cache, lock', s.dirty, s.ops, x) { assert DirtyAt(s.cache, s.lock, s.dirty, s.ops, x); }
  }

  lemma FillKeeps(c: Config, s: State, t: nat, b: int)
    requires Running(c, s) && CanFill(s, t, b)
    ensures Running(c, DoFill(s, b))
    ensures View(c.g, s.disk, DoFill(s, b).cache) == View(c.g, s.disk, s.cache)
  {
    HolderFacts(c, s, b);
    var pinned, e := Pinned(s.lh, s.commit), s.cache[b].(valid := true, data := s.disk[b]);
    assert s.users[b := s.users[b]] == s.users && s.disk[b := s.disk[b]] == s.disk;
    CountsSet(c.g, s.cache, s.users, pinned, s.mode.recovered, b, e, s.users[b], pinned);
    LocksSet(s.cache, s.users, s.lock, s.dirty, s.ops, b, e, s.users[b], s.dirty, s.ops);
    DataSet(s.disk, s.cache, s.dirty, pinned, b, e, s.disk[b], s.dirty, pinned);
    PhaseSet(c.g, s.disk, s.cache, s.lh, s.commit, b, e);
    ViewSet(c.g, s.disk, s.cache, b, e, s.disk[b]);
  }

  /** What the invariant says of a cached block. */
  lemma HolderFacts(c: Config, s: State, b: int)
    requires Running(c, s) && b in s.cache
    ensures var pinned := Pinned(s.lh, s.commit);
            && c.g.IsHome(b) && b in s.users && Tids(s.users[b])
            && s.cache[b].refcnt == Refs(|s.users[b]| + (if b in pinned then 1 else 0), b in s.mode.recovered)
            && (b in pinned ==> s.cache[b].valid) && (b in s.lock ==> s.lock[b] in s.users[b])
            && (b in s.dirty ==> b in s.lock && s.lock[b] in s.ops && s.cache[b].valid)
            && (s.cache[b].valid && b !in s.dirty && b !in pinned ==> s.cache[b].data == s.disk[b])
  {
    var pinned := Pinned(s.lh, s.commit);
    assert CountAt(c.g, s.cache, s.users, pinned, s.mode.recovered, b) && PinAt(s.cache, pinned, b)
           && DataAt(s.disk, s.cache, s.dirty, pinned, b);
    assert LockAt(s.users, s.lock, b) && DirtyAt(s.cache, s.lock, s.dirty, s.ops, b);
  }

  lemma ModifyKeeps(c: Config, s: State, t: nat, b: int, data: Block)
    requires Running(c, s) && CanModify(s, t, b)
    ensures Running(c, DoModify(s, b, data))
    ensures c.g.IsHome(b) && View(c.g, s.disk, DoModify(s, b, data).cache) == View(c.g, s.disk, s.cache)[b := data]
  {
    HolderFacts(c, s, b);
    var pinned, e := Pinned(s.lh, s.commit), s.cache[b].(valid := true, data := data);
    assert s.users[b := s.users[b]] == s.users && s.disk[b := s.disk[b]] == s.disk;
    CountsSet(c.g, s.cache, s.users, pinned, s.mode.recovered, b, e, s.users[b], pinned);
    LocksSet(s.cache, s.users, s.lock, s.dirty, s.ops, b, e, s.users[b], s.dirty + {b}, s.ops);
    DataSet(s.disk, s.cache, s.dirty, pinned, b, e, s.disk[b], s.dirty + {b}, pinned);
    ViewSet(c.g, s.disk, s.cache, b, e, s.disk[b]);
  }

  lemma UnlockKeeps(c: Config, s: State, t: nat, b: int)
    requires Running(c, s) && CanUnlock(s, t, b)
    ensures Running(c, DoUnlock(s, b))
  {
    var lock' := s.lock - {b};
    forall x ensures LockAt(s.users, lock', x) { assert LockAt(s.users, s.lock, x); }
    forall x ensures DirtyAt(s.cache, lock', s.dirty, s.ops, x) { assert DirtyAt(s.cache, s.lock, s.dirty, s.ops, x); }
  }

  lemma ReleaseKeeps(c: Config, s: State, t: nat, b: int)
    requires Running(c, s) && CanRelease(s, t, b)
    ensures Running(c, DoRelease(s, t, b))
    ensures View(c.g, s.disk, DoRelease(s, t, b).cache) == View(c.g, s.disk, s.cache)
  {
    HolderFacts(c, s, b);
    RangeSize(s.users[b], 0, NPROC);
    var us := s.users[b] - {t};
    assert |us| == |s.users[b]| - 1;
    var pinned, e := Pinned(s.lh, s.commit), s.cache[b].(refcnt := Dec(s.cache[b].refcnt));
    assert s.disk[b := s.disk[b]] == s.disk;
    CountsSet(c.g, s.cache, s.users, pinned, s.mode.recovered, b, e, us, pinned);
    LocksSet(s.cache, s.users, s.lock, s.dirty, s.ops, b, e, us, s.dirty, s.ops);
    DataSet(s.disk, s.cache, s.dirty, pinned, b, e, s.disk[b], s.dirty, pinned);
    PhaseSet(c.g, s.disk, s.cache, s.lh, s.commit, b, e);
    ViewSet(c.g, s.disk, s.cache, b, e, s.disk[b]);
  }

  lemma CheckKeeps(c: Config, s: State, t: nat)
    requires Running(c, s) && CanCheck(c, s, t)
    ensures Running(c, DoCheck(s, t))
  {
    var ops' := s.ops[t := s.ops[t].(checked := true)];
    SumsSet(s.ops, c.budget, t, s.ops[t].(checked := true), NPROC);
    forall u ensures OpAt(ops', c.budget, u) { assert OpAt(s.ops, c.budget, u); }
    forall b ensures DirtyAt(s.cache, s.lock, s.dirty, ops', b) { assert DirtyAt(s.cache, s.lock, s.dirty, s.ops, b); }
  }

  lemma StoreLog(c: Config, lh: seq<int>, ops: map<nat, Op>, outstanding: nat, t: nat, lh': seq<int>, o: Op)
    requires LogOk(c, lh, ops, outstanding) && t in ops && Targets(c.g, lh') && o.used <= c.budget
    requires |lh'| - |lh| == o.used - ops[t].used
    ensures LogOk(c, lh', ops[t := o], outstanding)
  {
    var ops' := ops[t := o];
    SumsSet(ops, c.budget, t, o, NPROC);
    assert OpAt(ops, c.budget, t);
    forall u ensures OpAt(ops', c.budget, u) { assert OpAt(ops, c.budget, u); }
  }

  lemma TargetsMore(g: Geometry, lh: seq<int>, b: int)
    requires Targets(g, lh) && g.IsHome(b) && b !in lh
    ensures Targets(g, lh + [b])
  {
    DistinctIs(lh);
    DistinctIs(lh + [b]);
    var more := lh + [b];
    forall i ensures TargetAt(g, more, i) { assert TargetAt(g, lh, i); }
  }

  lemma StoreKeeps(c: Config, s: State, t: nat, b: int)
    requires Running(c, s) && CanStore(c, s, t, b)
    ensures Running(c, DoStore(s, t, b))
    ensures View(c.g, s.disk, DoStore(s, t, b).cache) == View(c.g, s.disk, s.cache)
  {
    StoreIs(s, t, b);
    if b in s.lh {
      StoreAbsorbs(c, s, t, b);
    } else {
      StoreAppends(c, s, t, b);
    }
  }

  lemma StoreIs(s: State, t: nat, b: int)
    requires t in s.ops && b in s.cache
    ensures b in s.lh ==>
              DoStore(s, t, b) == s.(dirty := s.dirty - {b}, ops := s.ops[t := s.ops[t].(checked := false)])
    ensures b !in s.lh ==>
              DoStore(s, t, b) == s.(dirty := s.dirty - {b}, lh := s.lh + [b], cache := Pin(s.cache, b),
                                     ops := s.ops[t := Op(s.ops[t].used + 1, false)])
  {
  }

  lemma StoreAbsorbs(c: Config, s: State, t: nat, b: int)
    requires Running(c, s) && CanStore(c, s, t, b) && b in s.lh
    ensures Running(c, s.(dirty := s.dirty - {b}, ops := s.ops[t := s.ops[t].(checked := false)]))
  {
    HolderFacts(c, s, b);
    var o, e := s.ops[t].(checked := false), s.cache[b];
    assert OpAt(s.ops, c.budget, t);
    assert s.users[b := s.users[b]] == s.users && s.disk[b := s.disk[b]] == s.disk && s.cache[b := e] == s.cache;
    LocksSet(s.cache, s.users, s.lock, s.dirty, s.ops, b, e, s.users[b], s.dirty - {b}, s.ops[t := o]);
    DataSet(s.disk, s.cache, s.dirty, s.lh, b, e, s.disk[b], s.dirty - {b}, s.lh);
    StoreLog(c, s.lh, s.ops, s.outstanding, t, s.lh, o);
  }

  lemma StoreAppends(c: Config, s: State, t: nat, b: int)
    requires Running(c, s) && CanStore(c, s, t, b) && b !in s.lh
    ensures Running(c, s.(dirty := s.dirty - {b}, lh := s.lh + [b], cache := Pin(s.cache, b),
            ops := s.ops[t := Op(s.ops[t].used + 1, false)]))
    ensures View(c.g, s.disk, Pin(s.cache, b)) == View(c.g, s.disk, s.cache)
  {
    HolderFacts(c, s, b);
    RangeSize(s.users[b], 0, NPROC);
    var o, e := Op(s.ops[t].used + 1, false), s.cache[b].(refcnt := Inc(s.cache[b].refcnt));
    assert s.users[b := s.users[b]] == s.users && s.disk[b := s.disk[b]] == s.disk;
    CountsSet(c.g, s.cache, s.users, s.lh, s.mode.recovered, b, e, s.users[b], s.lh + [b]);
    LocksSet(s.cache, s.users, s.lock, s.dirty, s.ops, b, e, s.users[b], s.dirty - {b}, s.ops[t := o]);
    DataSet(s.disk, s.cache, s.dirty, s.lh, b, e, s.disk[b], s.dirty - {b}, s.lh + [b]);
    TargetsMore(c.g, s.lh, b);
    StoreLog(c, s.lh, s.ops, s.outstanding, t, s.lh + [b], o);
    ViewSet(c.g, s.disk, s.cache, b, e, s.disk[b]);
  }

  /** A write into the log area is seen by nobody. */
  lemma LogAreaWrite(g: Geometry, disk: Disk, cache: Cache<int>, users: map<int, set<nat>>, dirty: set<int>,
                     pinned: seq<int>, rec: seq<int>, x: int, block: Block)
    requires CountsOk(g, cache, users, pinned, rec) && DataOk(disk, cache, dirty, pinned) && 0 <= x < |disk| == g.size
             && !g.IsHome(x)
    ensures DataOk(disk[x := block], cache, dirty, pinned) && View(g, disk[x := block], cache) == View(g, disk, cache)
  {
    var disk' := disk[x := block];
    forall b ensures DataAt(disk', cache, dirty, pinned, b) {
      assert DataAt(disk, cache, dirty, pinned, b) && CountAt(g, cache, users, pinned, rec, b);
    }
  }

  lemma CopyKeeps(c: Config, s: State)
    requires Running(c, s) && CanCopy(c, s)
    ensures Running(c, DoCopy(c, s))
    ensures View(c.g, DoCopy(c, s).disk, s.cache) == View(c.g, s.disk, s.cache)
  {
    var i, data := s.commit.i, s.cache[s.lh[s.commit.i]].data;
    CopyTo(c, s, i, data);
    assert DoCopy(c, s) == s.(disk := s.disk[c.g.start + 1 + i := data], commit := Copying(i + 1));
  }

  lemma CopyTo(c: Config, s: State, i: nat, data: Block)
    requires Running(c, s) && CanCopy(c, s) && i == s.commit.i && data == s.cache[s.lh[i]].data
    ensures Running(c, s.(disk := s.disk[c.g.start + 1 + i := data], commit := Copying(i + 1)))
    ensures View(c.g, s.disk[c.g.start + 1 + i := data], s.cache) == View(c.g, s.disk, s.cache)
  {
    LogAreaWrite(c.g, s.disk, s.cache, s.users, s.dirty, s.lh, s.mode.recovered, c.g.start + 1 + i, data);
    CopyPhase(c.g, s.disk, s.cache, s.lh, i, data);
  }

  lemma CopyPhase(g: Geometry, disk: Disk, cache: Cache<int>, lh: seq<int>, i: nat, data: Block)
    requires HeaderOk(g, disk) && PhaseOk(g, disk, cache, lh, Copying(i)) && i < |lh| && HasData(cache, lh[i], data)
    ensures var disk' := disk[g.start + 1 + i := data];
              HeaderOk(g, disk') && PhaseOk(g, disk', cache, lh, Copying(i + 1))
  {
    var disk' := disk[g.start + 1 + i := data];
    HeaderKept(g, disk, g.start + 1 + i, data);
    var n := i + 1;
    forall j: nat ensures SlotAt(g, disk', cache, lh, 0, n, j) { assert SlotAt(g, disk, cache, lh, 0, i, j); }
  }

  lemma CopyInvisible(c: Config, s: State)
    requires Running(c, s) && CanCopy(c, s)
    ensures HeaderOk(c.g, DoCopy(c, s).disk)
    ensures Durable(c.g, DoCopy(c, s).disk) == Durable(c.g, s.disk)
  {
    LogSlotInvisible(c.g, s.disk, s.commit.i, s.cache[s.lh[s.commit.i]].data);
  }

  /** The commit point.  No operation is in progress, so none is split by it. */
  lemma HeadKeeps(c: Config, s: State)
    requires Running(c, s) && CanHead(c, s)
    ensures Running(c, DoHead(c, s))
    ensures s.ops == map[] && s.dirty == {}
    ensures View(c.g, DoHead(c, s).disk, s.cache) == View(c.g, s.disk, s.cache)
  {
    forall b ensures b !in s.dirty { assert DirtyAt(s.cache, s.lock, s.dirty, s.ops, b); }
    LogAreaWrite(c.g, s.disk, s.cache, s.users, s.dirty, s.lh, s.mode.recovered, c.g.start,
        HeaderBlock(s.disk[c.g.start], s.lh));
    HeadPhase(c.g, s.disk, s.cache, s.lh);
    assert s.lh[0..] == s.lh;
  }

  lemma HeadPhase(g: Geometry, disk: Disk, cache: Cache<int>, lh: seq<int>)
    requires HeaderOk(g, disk) && PhaseOk(g, disk, cache, lh, Copying(|lh|)) && |lh| <= LOGSIZE && Targets(g, lh)
    ensures var disk' := disk[g.start := HeaderBlock(disk[g.start], lh)];
              HeaderOk(g, disk') && PhaseOk(g, disk', cache, lh, Installing(0))
  {
    HeaderRoundTrip(g, disk, lh);
    var disk' := disk[g.start := HeaderBlock(disk[g.start], lh)];
    forall j: nat ensures SlotAt(g, disk', cache, lh, 0, |lh|, j) { assert SlotAt(g, disk, cache, lh, 0, |lh|, j); }
  }

  lemma HeadCommits(g: Geometry, disk: Disk, cache: Cache<int>, lh: seq<int>)
    requires HeaderOk(g, disk) && Count(g, disk) == 0 && Targets(g, lh) && |lh| < g.nlog && |lh| <= LOGSIZE
    requires SlotsOk(g, disk, cache, lh, 0, |lh|) && Steady(g, disk, cache, lh)
    ensures var d := disk[g.start := HeaderBlock(disk[g.start], lh)];
              HeaderOk(g, d) && Durable(g, d) == View(g, disk, cache)
  {
    var data := disk[g.start + 1..g.start + 1 + |lh|];
    SlotData(g, disk, cache, lh);
    HeaderCommits(g, disk, lh, data);
    LoggedView(g, disk, cache, lh, data);
  }

  lemma HeadDurable(c: Config, s: State)
    requires Running(c, s) && CanHead(c, s)
    ensures HeaderOk(c.g, DoHead(c, s).disk) && Durable(c.g, DoHead(c, s).disk) == View(c.g, s.disk, s.cache)
  {
    HeadKeeps(c, s);
    HeadCommits(c.g, s.disk, s.cache, s.lh);
  }

  /** The log slots as a sequence. */
  lemma SlotData(g: Geometry, disk: Disk, cache: Cache<int>, lh: seq<int>)
    requires 0 <= g.start && g.start + |lh| < |disk| && SlotsOk(g, disk, cache, lh, 0, |lh|)
    ensures var data := disk[g.start + 1..g.start + 1 + |lh|];
            forall j :: 0 <= j < |lh| ==> disk[g.start + 1 + j] == data[j] && HasData(cache, lh[j], data[j])
  {
    var data := disk[g.start + 1..g.start + 1 + |lh|];
    forall j | 0 <= j < |lh| ensures disk[g.start + 1 + j] == data[j] && HasData(cache, lh[j], data[j]) {
      assert SlotAt(g, disk, cache, lh, 0, |lh|, j);
    }
  }

  /** Nothing is being changed: only logged buffers differ from the disk. */
  ghost predicate Steady(g: Geometry, disk: Disk, cache: Cache<int>, lh: seq<int>) {
    && (forall b {:trigger PinAt(cache, lh, b)} :: PinAt(cache, lh, b))
    && DataOk(disk, cache, {}, lh)
  }

  /** With nothing being changed, the view is the home blocks overlaid with the logged ones. */
  lemma LoggedView(g: Geometry, disk: Disk, cache: Cache<int>, lh: seq<int>, data: seq<Block>)
    requires HeaderOk(g, disk) && Targets(g, lh) && Steady(g, disk, cache, lh)
    requires |data| == |lh| && forall j :: 0 <= j < |lh| ==> HasData(cache, lh[j], data[j])
    ensures forall j :: 0 <= j < |lh| ==> 0 <= lh[j] < g.size
    ensures Overlay(Home(g, disk), lh, data) == View(g, disk, cache)
  {
    TargetsHome(g, lh);
    var over := Overlay(Home(g, disk), lh, data);
    forall b | 0 <= b < g.size
      ensures over[b] == View(g, disk, cache)[b]
    {
      assert DataAt(disk, cache, {}, lh, b) && PinAt(cache, lh, b);
      if b in lh {
        var j :| 0 <= j < |lh| && lh[j] == b;
        assert HasData(cache, lh[j], data[j]);
        OverlayNamed(Home(g, disk), lh, data, j);
      } else {
        OverlayOther(Home(g, disk), lh, data, b);
      }
    }
  }

  /** The buffer of the block to be installed has what its log slot has. */
  lemma InstallFacts(c: Config, s: State)
    requires Running(c, s) && CanInstall(c, s)
    ensures var b := s.lh[s.commit.i];
            && c.g.IsHome(b) && b in s.cache && s.cache[b].valid && b in s.users
            && HasData(s.cache, b, s.disk[c.g.start + 1 + s.commit.i])
  {
    var i := s.commit.i;
    HolderFacts(c, s, s.lh[i]);
    assert SlotAt(c.g, s.disk, s.cache, s.lh, i, |s.lh|, i);
    assert s.lh[i..][0] == s.lh[i];
  }

  lemma SameView(g: Geometry, disk: Disk, cache: Cache<int>, b: int, data: Block, e: Entry)
    requires |disk| == g.size && g.IsHome(b) && b in cache && cache[b].valid && HasData(cache, b, data)
    requires e.valid && e.data == data
    ensures View(g, disk[b := data], cache[b := e]) == View(g, disk, cache)
  {
    ViewSet(g, disk, cache, b, e, data);
    assert Shown(cache, b, disk[b]) == data;
  }

  lemma SameLocks(c: Config, s: State, b: int, e: Entry)
    requires Running(c, s) && b in s.cache && e.valid
    ensures LocksOk(s.cache[b := e], s.users, s.lock, s.dirty, s.ops)
  {
    HolderFacts(c, s, b);
    assert s.users[b := s.users[b]] == s.users;
    LocksSet(s.cache, s.users, s.lock, s.dirty, s.ops, b, e, s.users[b], s.dirty, s.ops);
  }

  function InstallEntry(c: Config, s: State): Entry
    requires CanInstall(c, s)
  {
    Entry(true, s.disk[c.g.start + 1 + s.commit.i], Dec(s.cache[s.lh[s.commit.i]].refcnt))
  }

  lemma InstallOnDisk(c: Config, s: State)
    requires Running(c, s) && CanInstall(c, s)
    ensures var i, b := s.commit.i, s.lh[s.commit.i];
            var disk' := s.disk[b := s.disk[c.g.start + 1 + i]];
            HeaderOk(c.g, disk') && PhaseOk(c.g, disk', s.cache[b := InstallEntry(c, s)], s.lh, Installing(i + 1))
  {
    var i, b := s.commit.i, s.lh[s.commit.i];
    InstallFacts(c, s);
    assert s.commit == Installing(i);
    InstallPhase(c.g, s.disk, s.cache, s.lh, i, InstallEntry(c, s), s.disk[b := s.disk[c.g.start + 1 + i]],
        s.cache[b := InstallEntry(c, s)]);
  }

  lemma InstallUnpins(c: Config, s: State)
    requires Running(c, s) && CanInstall(c, s)
    ensures var i, b := s.commit.i, s.lh[s.commit.i];
            var disk', cache' := s.disk[b := s.disk[c.g.start + 1 + i]], s.cache[b := InstallEntry(c, s)];
            && CountsOk(c.g, cache', s.users, s.lh[i + 1..], s.mode.recovered)
            && DataOk(disk', cache', s.dirty, s.lh[i + 1..])
  {
    var i := s.commit.i;
    assert Pinned(s.lh, s.commit) == s.lh[i..];
    InstallBuffer(c.g, s.disk, s.cache, s.users, s.dirty, s.lh, s.mode.recovered, i, s.disk[c.g.start + 1 + i]);
  }

  lemma InstallRuns(c: Config, s: State)
    requires Running(c, s) && CanInstall(c, s)
    ensures Running(c, DoInstall(c, s))
  {
    var i, b := s.commit.i, s.lh[s.commit.i];
    var disk', cache' := s.disk[b := s.disk[c.g.start + 1 + i]], s.cache[b := InstallEntry(c, s)];
    assert DoInstall(c, s) == s.(disk := disk', cache := cache', commit := Installing(i + 1));
    assert HeaderOk(c.g, disk') && PhaseOk(c.g, disk', cache', s.lh, Installing(i + 1)) by { InstallOnDisk(c, s); }
    var rest := s.lh[i + 1..];
    assert Pinned(s.lh, Installing(i + 1)) == rest;
    assert CountsOk(c.g, cache', s.users, rest, s.mode.recovered) && DataOk(disk', cache', s.dirty, rest) by {
      InstallUnpins(c, s);
    }
    assert LocksOk(cache', s.users, s.lock, s.dirty, s.ops) by { SameLocks(c, s, b, InstallEntry(c, s)); }
  }

  lemma InstallKeeps(c: Config, s: State)
    requires Running(c, s) && CanInstall(c, s)
    ensures Running(c, DoInstall(c, s))
    ensures View(c.g, DoInstall(c, s).disk, DoInstall(c, s).cache) == View(c.g, s.disk, s.cache)
  {
    InstallRuns(c, s);
    InstallFacts(c, s);
    SameView(c.g, s.disk, s.cache, s.lh[s.commit.i], s.disk[c.g.start + 1 + s.commit.i], InstallEntry(c, s));
  }

  /** The one buffer that loses its pin has just been written home. */
  lemma InstallBuffer(g: Geometry, disk: Disk, cache: Cache<int>, users: map<int, set<nat>>, dirty: set<int>,
                      lh: seq<int>, rec: seq<int>, i: nat, data: Block)
    requires i < |lh| && Distinct(lh) && CountsOk(g, cache, users, lh[i..], rec) && DataOk(disk, cache, dirty, lh[i..])
    requires 0 <= lh[i] < |disk| && lh[i] in cache
    ensures var cache' := cache[lh[i] := Entry(true, data, Dec(cache[lh[i]].refcnt))];
            CountsOk(g, cache', users, lh[i + 1..], rec) && DataOk(disk[lh[i] := data], cache', dirty, lh[i + 1..])
  {
    var b := lh[i];
    assert CountAt(g, cache, users, lh[i..], rec, b);
    assert lh[i..] == [b] + lh[i + 1..];
    NotAgain(lh, i);
    RangeSize(users[b], 0, NPROC);
    var e := Entry(true, data, Dec(cache[b].refcnt));
    assert users[b := users[b]] == users;
    CountsSet(g, cache, users, lh[i..], rec, b, e, users[b], lh[i + 1..]);
    DataSet(disk, cache, dirty, lh[i..], b, e, data, dirty, lh[i + 1..]);
  }

  lemma NotAgain(lh: seq<int>, i: nat)
    requires Distinct(lh) && i < |lh|
    ensures lh[i] !in lh[i + 1..] && lh[i] !in lh[..i]
  {
    DistinctIs(lh);
  }

  /** Block lh[i] goes home; its buffer keeps its data and drops to entry `e`. */
  lemma InstallPhase(g: Geometry, disk: Disk, cache: Cache<int>, lh: seq<int>, i: nat, e: Entry, disk': Disk,
                     cache': Cache<int>)
    requires HeaderOk(g, disk) && i < |lh| && PhaseOk(g, disk, cache, lh, Installing(i))
    requires HasData(cache, lh[i], e.data) && cache[lh[i]].valid && e.valid && g.IsHome(lh[i]) && Distinct(lh)
    requires disk' == disk[lh[i] := disk[g.start + 1 + i]] && cache' == cache[lh[i] := e]
    ensures HeaderOk(g, disk') && PhaseOk(g, disk', cache', lh, Installing(i + 1))
  {
    HeaderKept(g, disk, lh[i], disk[g.start + 1 + i]);
    HomesMore(g, disk, lh, i);
    var n := i + 1;
    forall j: nat ensures SlotAt(g, disk', cache', lh, n, |lh|, j) {
      assert SlotAt(g, disk, cache, lh, i, |lh|, j) && DistinctAt(lh, i, j);
    }
  }

  lemma InstallDisk(g: Geometry, d: Disk, lh: seq<int>, i: nat)
    requires HeaderOk(g, d) && lh == Header(g, d) && i < |lh|
    ensures g.IsHome(lh[i]) && var d' := d[lh[i] := d[g.start + 1 + i]];
              HeaderOk(g, d') && Durable(g, d') == Durable(g, d)
  {
    InstallInvisible(g, d, i);
  }

  lemma ClearKeeps(c: Config, s: State)
    requires Running(c, s) && CanClear(c, s)
    ensures Running(c, DoClear(c, s))
    ensures Durable(c.g, DoClear(c, s).disk) == Durable(c.g, s.disk)
    ensures View(c.g, DoClear(c, s).disk, s.cache) == View(c.g, s.disk, s.cache)
  {
    var disk' := s.disk[c.g.start := HeaderBlock(s.disk[c.g.start], [])];
    assert s.commit == Installing(|s.lh|) && Header(c.g, s.disk) == s.lh;
    assert HeaderOk(c.g, disk') && Count(c.g, disk') == 0 && Durable(c.g, disk') == Durable(c.g, s.disk) by {
      HomesAre(c.g, s.disk, s.lh);
      ClearInvisible(c.g, s.disk);
    }
    assert s.lh[|s.lh|..] == [];
    LogAreaWrite(c.g, s.disk, s.cache, s.users, s.dirty, [], s.mode.recovered, c.g.start,
        HeaderBlock(s.disk[c.g.start], []));
    NoTargets(c, s.lh, s.ops, s.outstanding);
  }

  lemma NoTargets(c: Config, lh: seq<int>, ops: map<nat, Op>, outstanding: nat)
    requires LogOk(c, lh, ops, outstanding)
    ensures LogOk(c, [], ops, outstanding)
  {
    DistinctIs([]);
  }

  lemma FinishKeeps(c: Config, s: State)
    requires Running(c, s) && CanFinish(s)
    ensures Running(c, DoFinish(s))
  {
  }

  lemma ReplayKeeps(c: Config, s: State)
    requires Booting(c, s) && CanReplay(c, s)
    ensures Booting(c, DoReplay(c, s))
  {
    var h, i, s' := s.mode.h, s.mode.i, DoReplay(c, s);
    assert TargetAt(c.g, h, i);
    assert s'.disk[c.g.start] == s.disk[c.g.start];
    NotAgain(h, i);
    HomesMore(c.g, s.disk, h, i);
    assert h[..i + 1] == h[..i] + [h[i]];
  }

  lemma HomesMore(g: Geometry, disk: Disk, h: seq<int>, i: nat)
    requires g.Ok() && |disk| == g.size && Distinct(h) && i < |h| < g.nlog && g.IsHome(h[i]) && HomesOk(g, disk, h, i)
    ensures HomesOk(g, disk[h[i] := disk[g.start + 1 + i]], h, i + 1)
  {
    var disk', n := disk[h[i] := disk[g.start + 1 + i]], i + 1;
    forall j: nat ensures HomeAt(g, disk', h, n, j) { assert HomeAt(g, disk, h, i, j) && DistinctAt(h, j, i); }
  }

  lemma HomesAre(g: Geometry, disk: Disk, h: seq<int>)
    requires HomesOk(g, disk, h, |h|) && g.start + |h| < |disk|
    ensures forall j :: 0 <= j < |h| ==> 0 <= h[j] < |disk| && disk[h[j]] == disk[g.start + 1 + j]
  {
    forall j | 0 <= j < |h| ensures 0 <= h[j] < |disk| && disk[h[j]] == disk[g.start + 1 + j] {
      assert HomeAt(g, disk, h, |h|, j);
    }
  }

  lemma ReplaysInvisibly(c: Config, s: State)
    requires Booting(c, s) && CanReplay(c, s)
    ensures HeaderOk(c.g, DoReplay(c, s).disk)
    ensures Durable(c.g, DoReplay(c, s).disk) == Durable(c.g, s.disk)
  {
    InstallDisk(c.g, s.disk, s.mode.h, s.mode.i);
  }

  /** What recovery leaves: nothing is open, and every recovered buffer counts 2^32 - 1. */
  ghost predicate Booted(s: State) {
    && s.mode.Up? && Quiet(s) && Wrapped(s.cache, s.mode.recovered) && s.users == (map b | b in s.cache :: {})
    && (forall b :: b in s.cache ==> s.cache[b].valid)
  }

  lemma BootedRuns(c: Config, s: State)
    requires c.Ok() && c.Fits() && HeaderOk(c.g, s.disk) && Booted(s) && Count(c.g, s.disk) == 0
             && CacheClean(c.g, s.disk, s.cache)
    ensures Running(c, s)
  {
    NoOps(c.budget, NPROC);
    DistinctIs([]);
    var rec := s.mode.recovered;
    forall x ensures CountAt(c.g, s.cache, s.users, [], rec, x) {}
    forall x ensures PinAt(s.cache, [], x) {}
    forall x ensures StaysAt(s.cache, rec, x) {}
    forall x ensures DataAt(s.disk, s.cache, {}, [], x) {}
  }

  lemma ReplayClearKeeps(c: Config, s: State)
    requires Booting(c, s) && CanReplayClear(c, s)
    ensures Running(c, DoReplayClear(c, s)) && Booted(DoReplayClear(c, s))
  {
    var s' := DoReplayClear(c, s);
    assert s'.disk[c.g.start][0] == 0;
    assert s.mode.h[..s.mode.i] == s.mode.h;
    BootedRuns(c, s');
  }

  lemma ReplayClearsInvisibly(c: Config, s: State)
    requires Booting(c, s) && CanReplayClear(c, s)
    ensures HeaderOk(c.g, DoReplayClear(c, s).disk)
    ensures Durable(c.g, DoReplayClear(c, s).disk) == Durable(c.g, s.disk)
    ensures View(c.g, DoReplayClear(c, s).disk, s.cache) == Durable(c.g, s.disk)
  {
    HomesAre(c.g, s.disk, s.mode.h);
    ClearInvisible(c.g, s.disk);
  }

  /** bget() does not take the buffer of a block that this boot has recovered for another block. */
  predicate Sound(s: State, a: Step) { a.Recycle? && s.mode.Up? ==> a.b !in s.mode.recovered }

  lemma UserStep(c: Config, s: State, a: Step)
    requires Running(c, s) && Enabled(c, s, a) && Sound(s, a) && !a.Crash?
    requires !(a.CommitCopy? || a.CommitHead? || a.CommitInstall? || a.CommitClear? || a.CommitDone?)
    ensures Running(c, Apply(c, s, a))
    ensures Abs(c, Apply(c, s, a)) == AbsApply(Abs(c, s), a)
  {
    match a
    case BeginOp(t) => BeginKeeps(c, s, t);
    case EndOp(t) => EndKeeps(c, s, t);
    case Bget(t, b, junk) => GetKeeps(c, s, t, b, junk);
    case Recycle(b) => RecycleKeeps(c, s, b);
    case Lock(t, b) => LockKeeps(c, s, t, b);
    case Fill(t, b) => FillKeeps(c, s, t, b);
    case Modify(t, b, data) => ModifyKeeps(c, s, t, b, data);
    case Unlock(t, b) => UnlockKeeps(c, s, t, b);
    case Release(t, b) => ReleaseKeeps(c, s, t, b);
    case LogCheck(t) => CheckKeeps(c, s, t);
    case LogStore(t, b) => StoreKeeps(c, s, t, b);
  }

  lemma CopyStep(c: Config, s: State)
    requires Running(c, s) && Enabled(c, s, CommitCopy)
    ensures var f := Apply(c, s, CommitCopy); Running(c, f) && Abs(c, f) == AbsApply(Abs(c, s), CommitCopy)
  {
    CopyKeeps(c, s);
    CopyInvisible(c, s);
    assert Apply(c, s, CommitCopy) == DoCopy(c, s);
  }

  lemma HeadStep(c: Config, s: State)
    requires Running(c, s) && Enabled(c, s, CommitHead)
    ensures var f := Apply(c, s, CommitHead); Running(c, f) && Abs(c, f) == AbsApply(Abs(c, s), CommitHead)
  {
    HeadKeeps(c, s);
    HeadDurable(c, s);
    assert Apply(c, s, CommitHead) == DoHead(c, s);
  }

  lemma InstallDurable(c: Config, s: State)
    requires Running(c, s) && CanInstall(c, s)
    ensures HeaderOk(c.g, DoInstall(c, s).disk) && Durable(c.g, DoInstall(c, s).disk) == Durable(c.g, s.disk)
  {
    assert s.lh == Header(c.g, s.disk) && s.commit.i < |s.lh|;
    InstallDisk(c.g, s.disk, s.lh, s.commit.i);
    assert DoInstall(c, s).disk == s.disk[s.lh[s.commit.i] := s.disk[c.g.start + 1 + s.commit.i]];
  }

  lemma InstallStep(c: Config, s: State)
    requires Running(c, s) && Enabled(c, s, CommitInstall)
    ensures var f := Apply(c, s, CommitInstall); Running(c, f) && Abs(c, f) == AbsApply(Abs(c, s), CommitInstall)
  {
    InstallKeeps(c, s);
    InstallDurable(c, s);
    assert Apply(c, s, CommitInstall) == DoInstall(c, s);
  }

  lemma ClearStep(c: Config, s: State)
    requires Running(c, s) && Enabled(c, s, CommitClear)
    ensures var f := Apply(c, s, CommitClear); Running(c, f) && Abs(c, f) == AbsApply(Abs(c, s), CommitClear)
  {
    ClearKeeps(c, s);
    assert Apply(c, s, CommitClear) == DoClear(c, s);
  }

  lemma DoneStep(c: Config, s: State)
    requires Running(c, s) && Enabled(c, s, CommitDone)
    ensures var f := Apply(c, s, CommitDone); Running(c, f) && Abs(c, f) == AbsApply(Abs(c, s), CommitDone)
  {
    FinishKeeps(c, s);
    assert Apply(c, s, CommitDone) == DoFinish(s);
  }

  lemma CommitStep(c: Config, s: State, a: Step)
    requires Running(c, s) && Enabled(c, s, a)
    requires a.CommitCopy? || a.CommitHead? || a.CommitInstall? || a.CommitClear? || a.CommitDone?
    ensures var f := Apply(c, s, a); Running(c, f) && Abs(c, f) == AbsApply(Abs(c, s), a)
  {
    match a
    case CommitCopy => CopyStep(c, s);
    case CommitHead => HeadStep(c, s);
    case CommitInstall => InstallStep(c, s);
    case CommitClear => ClearStep(c, s);
    case CommitDone => DoneStep(c, s);
  }

  lemma BootStep(c: Config, s: State, a: Step)
    requires Booting(c, s) && Enabled(c, s, a) && !a.Crash?
    ensures Inv(c, Apply(c, s, a))
    ensures Abs(c, Apply(c, s, a)) == AbsApply(Abs(c, s), a)
  {
    match a
    case ReadHead =>
    case ReplayInstall => ReplayKeeps(c, s); ReplaysInvisibly(c, s);
    case ReplayClear => ReplayClearKeeps(c, s); ReplayClearsInvisibly(c, s);
  }

  /** One step of the system is one step, or none, of the atomic disk. */
  lemma StepRefines(c: Config, s: State, a: Step)
    requires Inv(c, s) && Enabled(c, s, a) && Sound(s, a)
    ensures Inv(c, Apply(c, s, a))
    ensures Abs(c, Apply(c, s, a)) == AbsApply(Abs(c, s), a)
  {
    if a.Crash? {
    } else if !s.mode.Up? {
      BootStep(c, s, a);
    } else if a.CommitCopy? || a.CommitHead? || a.CommitInstall? || a.CommitClear? || a.CommitDone? {
      CommitStep(c, s, a);
    } else {
      UserStep(c, s, a);
    }
  }
}
