/** kernel/virtio_disk.c: three-descriptor requests on a queue of NUM descriptors shared with
    a device that completes what it has been offered once each, in any order (split
    virtqueues, section 2.6 of VIRTIO version 1.1). */
module Virtio {
  import opened Finite

  const NUM: nat := 8
  const IDXMOD: nat := 0x1_0000          // ring indices are 16-bit

  datatype Desc = Desc(more: bool, next: nat)   // VRING_DESC_F_NEXT, next

  datatype Stage = Offered | Taken | Completed | Handled

  /** A request: its three descriptors, its buffer, and how far it has come. */
  datatype Chain = Chain(i0: nat, i1: nat, i2: nat, buf: nat, stage: Stage) {
    predicate Has(i: nat) { i == i0 || i == i1 || i == i2 }
  }

  /** What driver and device share, and the driver's own book-keeping. */
  datatype Disk = Disk(
    free: seq<bool>,
    desc: seq<Desc>,
    avail: seq<nat>, availIdx: nat,      // avail[2..], avail[1]
    elems: seq<nat>, usedId: nat,        // used->elems, used->id
    usedIdx: nat,                        // disk.used_idx
    info: seq<nat>,                      // buffer of the request headed by a descriptor
    busy: set<nat>)                      // buffers with b->disk == 1

  /** The disk with its history: live requests, the device's position in the avail ring, and
      the heads waiting in the avail ring and in the used ring, oldest first. */
  datatype State = State(d: Disk, live: seq<Chain>, seen: nat, offered: seq<nat>, done: seq<nat>)

  predicate Sized(d: Disk) {
    |d.free| == |d.desc| == |d.avail| == |d.elems| == |d.info| == NUM
  }

  // ---- alloc_desc(), alloc3_desc() ------------------------------------------------------------

  /** The lowest free descriptor at or after i, or NUM. */
  function FirstFree(free: seq<bool>, i: nat): (k: nat)
    requires i <= |free|
    ensures i <= k <= |free| && (k < |free| ==> free[k])
    ensures forall j :: i <= j < k ==> !free[j]
    decreases |free| - i
  {
    if i == |free| || free[i] then i else FirstFree(free, i + 1)
  }

  /** The three lowest free descriptors. */
  function First3(free: seq<bool>): (nat, nat, nat) {
    var a := FirstFree(free, 0);
    if a == |free| then (a, a, a) else
      var b := FirstFree(free, a + 1);
      if b == |free| then (a, b, b) else (a, b, FirstFree(free, b + 1))
  }

  predicate Have3(free: seq<bool>) { First3(free).2 < |free| }

  // ---- the steps --------------------------------------------------------------------------------

  /** virtio_disk_rw() up to the notification of the device. */
  function Submit(s: State, b: nat): State
    requires Sized(s.d) && Have3(s.d.free)
  {
    var (i, j, k) := First3(s.d.free);
    var d := s.d;
    State(d.(free := d.free[i := false][j := false][k := false],
             desc := d.desc[i := Desc(true, j)][j := Desc(true, k)][k := Desc(false, 0)],
             info := d.info[i := b],
             busy := d.busy + {b},
             avail := d.avail[d.availIdx % NUM := i],
             availIdx := (d.availIdx + 1) % IDXMOD),
          s.live + [Chain(i, j, k, b, Offered)], s.seen, s.offered + [i], s.done)
  }

  /** The device takes the next head from the avail ring. */
  function Fetch(s: State, n: nat): State
    requires n < |s.live| && s.offered != []
  {
    s.(seen := (s.seen + 1) % IDXMOD, offered := s.offered[1..], live := s.live[n := s.live[n].(stage := Taken)])
  }

  /** The device finishes request n and says so in the used ring. */
  function Complete(s: State, n: nat): State
    requires Sized(s.d) && n < |s.live|
  {
    s.(d := s.d.(elems := s.d.elems[s.d.usedId % NUM := s.live[n].i0], usedId := (s.d.usedId + 1) % IDXMOD),
       done := s.done + [s.live[n].i0], live := s.live[n := s.live[n].(stage := Completed)])
  }

  /** One round of the loop in virtio_disk_intr(); n is the request whose head it finds. */
  function Handle(s: State, n: nat): State
    requires Sized(s.d) && s.d.usedIdx < NUM && s.d.elems[s.d.usedIdx] < NUM && n < |s.live| && s.done != []
  {
    s.(d := s.d.(busy := s.d.busy - {s.d.info[s.d.elems[s.d.usedIdx]]}, usedIdx := (s.d.usedIdx + 1) % NUM),
       done := s.done[1..], live := s.live[n := s.live[n].(stage := Handled)])
  }

  /** free_chain(): follow the descriptors from i as long as they say there is more. */
  function FreeChain(d: Disk, i: nat, fuel: nat): Disk
    requires Sized(d)
    decreases fuel
  {
    if i >= NUM || fuel == 0 then d else
      var d' := d.(free := d.free[i := true]);
      if d.desc[i].more then FreeChain(d', d.desc[i].next, fuel - 1) else d'
  }

  /** The end of virtio_disk_rw(), once the buffer has been handed back. */
  function Finish(s: State, n: nat): State
    requires Sized(s.d) && n < |s.live|
  {
    State(FreeChain(s.d, s.live[n].i0, NUM), s.live[..n] + s.live[n + 1..], s.seen, s.offered, s.done)
  }

  // ---- the invariant -----------------------------------------------------------------------------

  /** Request c is laid out in the descriptor table. */
  predicate ChainOk(d: Disk, c: Chain)
    requires Sized(d)
  {
    && c.i0 < NUM && c.i1 < NUM && c.i2 < NUM && c.i0 != c.i1 && c.i0 != c.i2 && c.i1 != c.i2
    && !d.free[c.i0] && !d.free[c.i1] && !d.free[c.i2]
    && d.desc[c.i0] == Desc(true, c.i1) && d.desc[c.i1] == Desc(true, c.i2) && !d.desc[c.i2].more
    && d.info[c.i0] == c.buf && (c.buf in d.busy <==> c.stage != Handled)
  }

  predicate Apart(a: Chain, b: Chain) {
    && a.buf != b.buf
    && !b.Has(a.i0) && !b.Has(a.i1) && !b.Has(a.i2)
  }

  /** Every descriptor is free or in exactly one live request. */
  predicate OwnerOk(free: seq<bool>, live: seq<Chain>, i: nat)
    requires |free| == NUM
  {
    i < NUM ==> (free[i] <==> Nobody(live, i))
  }

  predicate Nobody(live: seq<Chain>, i: nat) { forall n :: 0 <= n < |live| ==> !live[n].Has(i) }

  ghost predicate Partition(d: Disk, live: seq<Chain>)
    requires Sized(d)
  {
    && (forall n :: 0 <= n < |live| ==> ChainOk(d, live[n]))
    && (forall m, n :: 0 <= m < n < |live| ==> Apart(live[m], live[n]))
    && (forall i: nat {:trigger OwnerOk(d.free, live, i)} :: OwnerOk(d.free, live, i))
  }

  ghost predicate IsHead(live: seq<Chain>, h: nat, g: Stage) {
    exists n :: 0 <= n < |live| && live[n].i0 == h && live[n].stage == g
  }

  /** q lists, in ring order, the heads of exactly the requests in stage g. */
  ghost predicate Listed(live: seq<Chain>, q: seq<nat>, g: Stage) {
    && (forall k :: 0 <= k < |q| ==> IsHead(live, q[k], g))
    && (forall n :: 0 <= n < |live| && live[n].stage == g ==> live[n].i0 in q)
    && (forall k, l :: 0 <= k < l < |q| ==> q[k] != q[l])
  }

  predicate SlotHolds(ring: seq<nat>, first: nat, q: seq<nat>, k: nat)
    requires |ring| == NUM && k < |q|
  {
    ring[(first + k) % NUM] == q[k]
  }

  /** The ring slots from `first` on hold q. */
  ghost predicate InRing(ring: seq<nat>, first: nat, q: seq<nat>)
    requires |ring| == NUM
  {
    forall k: nat {:trigger SlotHolds(ring, first, q, k)} :: k < |q| ==> SlotHolds(ring, first, q, k)
  }

  /** Index b is n ahead of index a, counting modulo 2^16. */
  predicate AheadBy(a: nat, n: nat, b: nat) { a + n == b || a + n == b + IDXMOD }

  /** The driver is |q| entries ahead of the device. */
  ghost predicate AvailOk(ring: seq<nat>, seen: nat, q: seq<nat>, availIdx: nat)
    requires |ring| == NUM
  {
    && InRing(ring, seen, q)
    && seen < IDXMOD && availIdx < IDXMOD && AheadBy(seen, |q|, availIdx)
  }

  /** The device is |q| entries ahead of the driver. */
  ghost predicate UsedOk(ring: seq<nat>, usedIdx: nat, q: seq<nat>, usedId: nat)
    requires |ring| == NUM
  {
    && InRing(ring, usedIdx, q)
    && usedIdx < NUM && usedId < IDXMOD && (usedIdx + |q|) % NUM == usedId % NUM
  }

  ghost predicate Inv(s: State) {
    && Sized(s.d) && Partition(s.d, s.live)
    && Listed(s.live, s.offered, Offered) && Listed(s.live, s.done, Completed)
    && AvailOk(s.d.avail, s.seen, s.offered, s.d.availIdx)
    && UsedOk(s.d.elems, s.d.usedIdx, s.done, s.d.usedId)
  }

  /** Eight descriptors hold at most two requests. */
  lemma AtMostTwo(s: State)
    requires Sized(s.d) && Partition(s.d, s.live)
    ensures |s.live| <= 2
  {
    if |s.live| >= 3 {
      var a, b, c := s.live[0], s.live[1], s.live[2];
      ThreeIndices(s.d, a);
      ThreeIndices(s.d, b);
      ThreeIndices(s.d, c);
      ApartDisjoint(a, b);
      ApartDisjoint(a, c);
      ApartDisjoint(b, c);
      SetsFit(Indices(a), Indices(b), Indices(c));
    }
  }

  function Indices(c: Chain): set<nat> { {c.i0, c.i1, c.i2} }

  lemma ThreeIndices(d: Disk, c: Chain)
    requires Sized(d) && ChainOk(d, c)
    ensures |Indices(c)| == 3 && forall i :: i in Indices(c) ==> i < NUM
  {
    assert Indices(c) == {c.i0} + {c.i1} + {c.i2};
    assert |{c.i0} + {c.i1}| == 2;
  }

  lemma ApartDisjoint(a: Chain, b: Chain)
    requires Apart(a, b)
    ensures Indices(a) !! Indices(b)
  {
    forall i | i in Indices(a)
      ensures i !in Indices(b)
    {
    }
  }

  lemma SetsFit(x: set<nat>, y: set<nat>, z: set<nat>)
    requires x !! y && x !! z && y !! z
    requires forall i :: i in x || i in y || i in z ==> i < NUM
    ensures |x| + |y| + |z| <= NUM
  {
    assert (x + y) !! z && |x + y| == |x| + |y| && |x + y + z| == |x| + |y| + |z|;
    RangeSize(x + y + z, 0, NUM);
  }

  /** A queue of heads is no longer than the list of requests. */
  lemma ShortQueue(s: State, q: seq<nat>, g: Stage)
    requires Sized(s.d) && Partition(s.d, s.live) && Listed(s.live, q, g)
    ensures |q| <= |s.live| <= 2
  {
    AtMostTwo(s);
    var at := Positions(s.live, q, g);
    RangeSize(at, 0, |s.live|);
  }

  /** The positions in `live` of the heads in q, all different. */
  lemma {:induction false} Positions(live: seq<Chain>, q: seq<nat>, g: Stage) returns (at: set<nat>)
    requires forall k :: 0 <= k < |q| ==> IsHead(live, q[k], g)
    requires forall k, l :: 0 <= k < l < |q| ==> q[k] != q[l]
    ensures |at| == |q| && forall n :: n in at ==> n < |live| && live[n].i0 in q
  {
    if q == [] {
      at := {};
    } else {
      var h := q[|q| - 1];
      at := Positions(live, q[..|q| - 1], g);
      assert IsHead(live, h, g);
      var n :| 0 <= n < |live| && live[n].i0 == h;
      at := at + {n};
    }
  }

  /** The comparison modulo NUM in virtio_disk_intr() is exact. */
  lemma InterruptTestExact(s: State)
    requires Inv(s)
    ensures s.d.usedIdx % NUM != s.d.usedId % NUM <==> s.done != []
  {
    ShortQueue(s, s.done, Completed);
  }

  // ---- every step keeps the invariant ---------------------------------------------------------------

  lemma RingPush(ring: seq<nat>, first: nat, q: seq<nat>, idx: nat, h: nat)
    requires |ring| == NUM && InRing(ring, first, q) && |q| < NUM && idx % NUM == (first + |q|) % NUM
    ensures InRing(ring[idx % NUM := h], first, q + [h])
  {
    var ring', q' := ring[idx % NUM := h], q + [h];
    forall k: nat | k < |q'|
      ensures SlotHolds(ring', first, q', k)
    {
      if k < |q| {
        assert SlotHolds(ring, first, q, k);
        assert (first + k) % NUM != (first + |q|) % NUM;
      }
    }
  }

  lemma SameSlot(a: nat, b: nat, k: nat)
    requires a % NUM == b % NUM
    ensures (a + k) % NUM == (b + k) % NUM
  {
  }

  lemma RingPop(ring: seq<nat>, first: nat, q: seq<nat>, first': nat)
    requires |ring| == NUM && InRing(ring, first, q) && q != [] && first' % NUM == (first + 1) % NUM
    ensures ring[first % NUM] == q[0] && InRing(ring, first', q[1..])
  {
    assert SlotHolds(ring, first, q, 0);
    var q' := q[1..];
    forall k: nat | k < |q'|
      ensures SlotHolds(ring, first', q', k)
    {
      assert SlotHolds(ring, first, q, k + 1);
      SameSlot(first', first + 1, k);
    }
  }

  /** Counters that wrap at 2^16 still agree with ring positions modulo NUM. */
  lemma WrapKeepsSlot(a: nat)
    requires a <= IDXMOD
    ensures (a % IDXMOD) % NUM == a % NUM
  {
  }

  lemma AheadSlot(a: nat, n: nat, b: nat)
    requires AheadBy(a, n, b)
    ensures b % NUM == (a + n) % NUM
  {
  }

  lemma AvailPush(ring: seq<nat>, seen: nat, q: seq<nat>, idx: nat, h: nat)
    requires |ring| == NUM && AvailOk(ring, seen, q, idx) && |q| < NUM
    ensures AvailOk(ring[idx % NUM := h], seen, q + [h], (idx + 1) % IDXMOD)
  {
    AheadSlot(seen, |q|, idx);
    RingPush(ring, seen, q, idx, h);
  }

  lemma AvailPop(ring: seq<nat>, seen: nat, q: seq<nat>, idx: nat)
    requires |ring| == NUM && AvailOk(ring, seen, q, idx) && q != []
    ensures ring[seen % NUM] == q[0] && AvailOk(ring, (seen + 1) % IDXMOD, q[1..], idx)
  {
    WrapKeepsSlot(seen + 1);
    RingPop(ring, seen, q, (seen + 1) % IDXMOD);
  }

  lemma UsedPush(ring: seq<nat>, usedIdx: nat, q: seq<nat>, id: nat, h: nat)
    requires |ring| == NUM && UsedOk(ring, usedIdx, q, id) && |q| < NUM
    ensures UsedOk(ring[id % NUM := h], usedIdx, q + [h], (id + 1) % IDXMOD)
  {
    WrapKeepsSlot(id + 1);
    NextSlot(usedIdx + |q|, id);
    RingPush(ring, usedIdx, q, id, h);
  }

  lemma NextSlot(a: nat, b: nat)
    requires a % NUM == b % NUM
    ensures (a + 1) % NUM == (b + 1) % NUM
  {
  }

  lemma UsedPop(ring: seq<nat>, usedIdx: nat, q: seq<nat>, id: nat)
    requires |ring| == NUM && UsedOk(ring, usedIdx, q, id) && q != []
    ensures ring[usedIdx] == q[0] && UsedOk(ring, (usedIdx + 1) % NUM, q[1..], id)
  {
    RingPop(ring, usedIdx, q, (usedIdx + 1) % NUM);
  }

  /** Moving request n from one stage to another keeps the lists of the other stages. */
  lemma OtherStage(live: seq<Chain>, n: nat, st: Stage, q: seq<nat>, g: Stage)
    requires n < |live| && Listed(live, q, g) && live[n].stage != g && st != g
    ensures Listed(live[n := live[n].(stage := st)], q, g)
  {
    var live' := live[n := live[n].(stage := st)];
    forall k | 0 <= k < |q|
      ensures IsHead(live', q[k], g)
    {
      assert IsHead(live, q[k], g);
      var m :| 0 <= m < |live| && live[m].i0 == q[k] && live[m].stage == g;
      assert live'[m].i0 == q[k] && live'[m].stage == g;
    }
  }

  /** Heads are different for different requests. */
  predicate HeadsDiffer(live: seq<Chain>) {
    forall m, n :: 0 <= m < n < |live| ==> live[m].i0 != live[n].i0
  }

  lemma Enters(live: seq<Chain>, n: nat, q: seq<nat>, g: Stage)
    requires n < |live| && HeadsDiffer(live) && Listed(live, q, g) && live[n].stage != g
    ensures Listed(live[n := live[n].(stage := g)], q + [live[n].i0], g)
  {
    var live', q' := live[n := live[n].(stage := g)], q + [live[n].i0];
    forall k | 0 <= k < |q'|
      ensures IsHead(live', q'[k], g)
    {
      if k < |q| {
        assert IsHead(live, q[k], g);
        var m :| 0 <= m < |live| && live[m].i0 == q[k] && live[m].stage == g;
        assert live'[m].i0 == q'[k] && live'[m].stage == g;
      } else {
        assert live'[n].i0 == q'[k] && live'[n].stage == g;
      }
    }
    forall k | 0 <= k < |q|
      ensures q[k] != live[n].i0
    {
      assert IsHead(live, q[k], g);
    }
  }

  lemma Leaves(live: seq<Chain>, n: nat, st: Stage, q: seq<nat>, g: Stage)
    requires n < |live| && HeadsDiffer(live) && Listed(live, q, g) && q != [] && live[n].i0 == q[0] && st != g
    ensures Listed(live[n := live[n].(stage := st)], q[1..], g)
  {
    var live', q' := live[n := live[n].(stage := st)], q[1..];
    forall k | 0 <= k < |q'|
      ensures IsHead(live', q'[k], g)
    {
      assert IsHead(live, q[k + 1], g) && q[0] != q[k + 1];
      var m :| 0 <= m < |live| && live[m].i0 == q[k + 1] && live[m].stage == g;
      assert live'[m].i0 == q'[k] && live'[m].stage == g;
    }
  }

  lemma HeadsApart(s: State)
    requires Sized(s.d) && Partition(s.d, s.live)
    ensures HeadsDiffer(s.live)
  {
    forall m, n | 0 <= m < n < |s.live|
      ensures s.live[m].i0 != s.live[n].i0
    {
      assert Apart(s.live[m], s.live[n]);
    }
  }

  /** A change of stage, with the matching change to b->disk, keeps the partition. */
  lemma StageKeeps(d: Disk, live: seq<Chain>, d': Disk, n: nat, st: Stage)
    requires Sized(d) && Partition(d, live) && n < |live| && Sized(d')
    requires d'.free == d.free && d'.desc == d.desc && d'.info == d.info
    requires d'.busy == if st == Handled then d.busy - {live[n].buf} else d.busy
    requires st != Handled ==> live[n].stage != Handled
    ensures Partition(d', live[n := live[n].(stage := st)])
  {
    var live' := live[n := live[n].(stage := st)];
    forall m | 0 <= m < |live'|
      ensures ChainOk(d', live'[m])
    {
      assert ChainOk(d, live[m]);
      if m < n { assert Apart(live[m], live[n]); } else if n < m { assert Apart(live[n], live[m]); }
    }
    forall l, m | 0 <= l < m < |live'|
      ensures Apart(live'[l], live'[m])
    {
      assert Apart(live[l], live[m]);
    }
    forall i: nat
      ensures OwnerOk(d'.free, live', i)
    {
      assert OwnerOk(d.free, live, i);
      assert forall m :: 0 <= m < |live| ==> live'[m].Has(i) == live[m].Has(i);
    }
  }

  predicate CanFetch(s: State, n: nat)
    requires Sized(s.d)
  {
    s.offered != [] && n < |s.live| && s.live[n].i0 == s.d.avail[s.seen % NUM] && s.live[n].stage == Offered
  }

  lemma FetchKeeps(s: State, n: nat)
    requires Inv(s) && CanFetch(s, n)
    ensures Inv(Fetch(s, n))
  {
    var seen', q', live' := (s.seen + 1) % IDXMOD, s.offered[1..], s.live[n := s.live[n].(stage := Taken)];
    assert Fetch(s, n) == s.(seen := seen', offered := q', live := live');
    assert AvailOk(s.d.avail, seen', q', s.d.availIdx) && s.d.avail[s.seen % NUM] == s.offered[0] by {
      AvailPop(s.d.avail, s.seen, s.offered, s.d.availIdx);
    }
    assert Listed(live', q', Offered) by {
      HeadsApart(s);
      Leaves(s.live, n, Taken, s.offered, Offered);
    }
    OtherStage(s.live, n, Taken, s.done, Completed);
    StageKeeps(s.d, s.live, s.d, n, Taken);
  }

  lemma CompleteKeeps(s: State, n: nat)
    requires Inv(s) && n < |s.live| && s.live[n].stage == Taken
    ensures Inv(Complete(s, n))
  {
    HeadsApart(s);
    ShortQueue(s, s.done, Completed);
    UsedPush(s.d.elems, s.d.usedIdx, s.done, s.d.usedId, s.live[n].i0);
    Enters(s.live, n, s.done, Completed);
    OtherStage(s.live, n, Completed, s.offered, Offered);
    StageKeeps(s.d, s.live, Complete(s, n).d, n, Completed);
  }

  predicate CanHandle(s: State, n: nat)
    requires Sized(s.d)
  {
    && s.done != [] && s.d.usedIdx < NUM && n < |s.live|
    && s.live[n].i0 == s.d.elems[s.d.usedIdx] && s.live[n].stage == Completed
  }

  /** An interrupt hands back the buffer of the request it finds, once. */
  lemma HandleRight(s: State, n: nat)
    requires Inv(s) && CanHandle(s, n)
    ensures s.d.elems[s.d.usedIdx] < NUM && s.d.info[s.d.elems[s.d.usedIdx]] == s.live[n].buf
    ensures s.live[n].buf in s.d.busy && s.live[n].buf !in Handle(s, n).d.busy
  {
    assert ChainOk(s.d, s.live[n]);
  }

  lemma HandleKeeps(s: State, n: nat)
    requires Inv(s) && CanHandle(s, n) && s.d.elems[s.d.usedIdx] < NUM
    ensures Inv(Handle(s, n))
  {
    var s' := Handle(s, n);
    assert Partition(s'.d, s'.live) by {
      HandleRight(s, n);
      StageKeeps(s.d, s.live, s'.d, n, Handled);
    }
    assert UsedOk(s'.d.elems, s'.d.usedIdx, s'.done, s'.d.usedId) && s.live[n].i0 == s.done[0] by {
      UsedPop(s.d.elems, s.d.usedIdx, s.done, s.d.usedId);
    }
    assert Listed(s'.live, s'.done, Completed) by {
      HeadsApart(s);
      Leaves(s.live, n, Handled, s.done, Completed);
    }
    assert Listed(s'.live, s'.offered, Offered) by {
      OtherStage(s.live, n, Handled, s.offered, Offered);
    }
  }

  lemma {:induction false} FreesThree(d: Disk, c: Chain)
    requires Sized(d) && ChainOk(d, c)
    ensures FreeChain(d, c.i0, NUM) == d.(free := d.free[c.i0 := true][c.i1 := true][c.i2 := true])
  {
    var d1 := d.(free := d.free[c.i0 := true]);
    var d2 := d1.(free := d1.free[c.i1 := true]);
    var d3 := d2.(free := d2.free[c.i2 := true]);
    assert FreeChain(d2, c.i2, NUM - 2) == d3;
    assert FreeChain(d1, c.i1, NUM - 1) == d3;
  }

  /** Finishing gives back exactly the three descriptors of the request; each was in use, so
      neither panic of free_desc() can happen. */
  lemma FinishKeeps(s: State, n: nat)
    requires Inv(s) && n < |s.live| && s.live[n].stage == Handled
    ensures Inv(Finish(s, n))
    ensures ChainOk(s.d, s.live[n])
  {
    var c, s' := s.live[n], Finish(s, n);
    assert ChainOk(s.d, c);
    FreesThree(s.d, c);
    ListedWithout(s.live, n, s.offered, Offered);
    ListedWithout(s.live, n, s.done, Completed);
    PartitionWithout(s.d, s.live, n);
  }

  lemma ListedWithout(live: seq<Chain>, n: nat, q: seq<nat>, g: Stage)
    requires n < |live| && Listed(live, q, g) && live[n].stage != g
    ensures Listed(live[..n] + live[n + 1..], q, g)
  {
    var live' := live[..n] + live[n + 1..];
    forall k | 0 <= k < |q|
      ensures IsHead(live', q[k], g)
    {
      assert IsHead(live, q[k], g);
      var m :| 0 <= m < |live| && live[m].i0 == q[k] && live[m].stage == g;
      assert live'[if m < n then m else m - 1] == live[m];
    }
  }

  lemma PartitionWithout(d: Disk, live: seq<Chain>, n: nat)
    requires Sized(d) && Partition(d, live) && n < |live|
    ensures var c := live[n];
            Partition(d.(free := d.free[c.i0 := true][c.i1 := true][c.i2 := true]), live[..n] + live[n + 1..])
  {
    var c, live' := live[n], live[..n] + live[n + 1..];
    var d' := d.(free := d.free[c.i0 := true][c.i1 := true][c.i2 := true]);
    assert forall m :: 0 <= m < |live'| ==> live'[m] == live[if m < n then m else m + 1];
    forall m | 0 <= m < |live'|
      ensures ChainOk(d', live'[m])
    {
      var k := if m < n then m else m + 1;
      assert ChainOk(d, live[k]);
      if k < n { assert Apart(live[k], c); } else { assert Apart(c, live[k]); }
    }
    forall i: nat
      ensures OwnerOk(d'.free, live', i)
    {
      OwnerWithout(d, live, n, i);
    }
  }

  lemma OwnerWithout(d: Disk, live: seq<Chain>, n: nat, i: nat)
    requires Sized(d) && Partition(d, live) && n < |live|
    ensures var c := live[n];
            OwnerOk(d.free[c.i0 := true][c.i1 := true][c.i2 := true], live[..n] + live[n + 1..], i)
  {
    assert OwnerOk(d.free, live, i);
    NobodyWithout(live, n, i);
  }

  lemma NobodyWithout(live: seq<Chain>, n: nat, i: nat)
    requires n < |live| && forall l, m :: 0 <= l < m < |live| ==> Apart(live[l], live[m])
    ensures Nobody(live[..n] + live[n + 1..], i) <==> Nobody(live, i) || live[n].Has(i)
  {
    var live' := live[..n] + live[n + 1..];
    if Nobody(live', i) && !live[n].Has(i) {
      forall m | 0 <= m < |live|
        ensures !live[m].Has(i)
      {
        if m != n { assert live[m] == live'[if m < n then m else m - 1]; }
      }
    }
    if Nobody(live, i) || live[n].Has(i) {
      forall m | 0 <= m < |live'|
        ensures !live'[m].Has(i)
      {
        var k := if m < n then m else m + 1;
        assert live'[m] == live[k];
        if k < n { assert Apart(live[k], live[n]); } else { assert Apart(live[n], live[k]); }
      }
    }
  }

  // ---- a new request ---------------------------------------------------------------------------------

  lemma First3Free(free: seq<bool>)
    requires Have3(free)
    ensures var (i, j, k) := First3(free); i < j < k < |free| && free[i] && free[j] && free[k]
  {
  }

  /** alloc3_desc() fails exactly when fewer than three descriptors are free. */
  lemma Have3Exact(free: seq<bool>)
    ensures Have3(free) <==> exists i, j, k :: 0 <= i < j < k < |free| && free[i] && free[j] && free[k]
  {
    if Have3(free) {
      First3Free(free);
    }
  }

  /** A buffer is submitted by the process that holds its lock, so it is in no other request. */
  predicate CanSubmit(s: State, b: nat) {
    Have3(s.d.free) && b !in s.d.busy && forall n :: 0 <= n < |s.live| ==> s.live[n].buf != b
  }

  lemma SubmitKeeps(s: State, b: nat)
    requires Inv(s) && CanSubmit(s, b)
    ensures Inv(Submit(s, b))
  {
    var (i, j, k) := First3(s.d.free);
    First3Free(s.d.free);
    SubmitPartition(s, b);
    ShortQueue(s, s.offered, Offered);
    AvailPush(s.d.avail, s.seen, s.offered, s.d.availIdx, i);
    var c := Chain(i, j, k, b, Offered);
    assert OwnerOk(s.d.free, s.live, i);
    ListedNew(s.live, c, s.offered);
    ListedOther(s.live, c, s.done, Completed);
  }

  lemma ListedNew(live: seq<Chain>, c: Chain, q: seq<nat>)
    requires Listed(live, q, Offered) && c.stage == Offered && Nobody(live, c.i0)
    ensures Listed(live + [c], q + [c.i0], Offered)
  {
    var live', q' := live + [c], q + [c.i0];
    forall k | 0 <= k < |q'|
      ensures IsHead(live', q'[k], Offered)
    {
      if k < |q| {
        assert IsHead(live, q[k], Offered);
        var m :| 0 <= m < |live| && live[m].i0 == q[k] && live[m].stage == Offered;
        assert live'[m] == live[m];
      } else {
        assert live'[|live|] == c;
      }
    }
    forall k | 0 <= k < |q|
      ensures q[k] != c.i0
    {
      assert IsHead(live, q[k], Offered);
    }
  }

  lemma ListedOther(live: seq<Chain>, c: Chain, q: seq<nat>, g: Stage)
    requires Listed(live, q, g) && c.stage != g
    ensures Listed(live + [c], q, g)
  {
    var live' := live + [c];
    forall k | 0 <= k < |q|
      ensures IsHead(live', q[k], g)
    {
      assert IsHead(live, q[k], g);
      var m :| 0 <= m < |live| && live[m].i0 == q[k] && live[m].stage == g;
      assert live'[m] == live[m];
    }
  }

  lemma SubmitChains(s: State, b: nat)
    requires Inv(s) && CanSubmit(s, b)
    ensures forall m :: 0 <= m < |Submit(s, b).live| ==> ChainOk(Submit(s, b).d, Submit(s, b).live[m])
  {
    var (i, j, k) := First3(s.d.free);
    First3Free(s.d.free);
    var s' := Submit(s, b);
    assert OwnerOk(s.d.free, s.live, i) && OwnerOk(s.d.free, s.live, j) && OwnerOk(s.d.free, s.live, k);
    forall m | 0 <= m < |s'.live|
      ensures ChainOk(s'.d, s'.live[m])
    {
      if m < |s.live| { assert ChainOk(s.d, s.live[m]) && s'.live[m] == s.live[m]; }
    }
  }

  lemma SubmitApart(s: State, b: nat)
    requires Inv(s) && CanSubmit(s, b)
    ensures forall l, m :: 0 <= l < m < |Submit(s, b).live| ==> Apart(Submit(s, b).live[l], Submit(s, b).live[m])
  {
    var (i, j, k) := First3(s.d.free);
    First3Free(s.d.free);
    var live' := Submit(s, b).live;
    assert OwnerOk(s.d.free, s.live, i) && OwnerOk(s.d.free, s.live, j) && OwnerOk(s.d.free, s.live, k);
    forall l, m | 0 <= l < m < |live'|
      ensures Apart(live'[l], live'[m])
    {
      if m < |s.live| { assert Apart(s.live[l], s.live[m]); }
    }
  }

  lemma SubmitPartition(s: State, b: nat)
    requires Inv(s) && CanSubmit(s, b)
    ensures Partition(Submit(s, b).d, Submit(s, b).live)
  {
    var (i, j, k) := First3(s.d.free);
    First3Free(s.d.free);
    SubmitChains(s, b);
    SubmitApart(s, b);
    var s' := Submit(s, b);
    forall x: nat
      ensures OwnerOk(s'.d.free, s'.live, x)
    {
      assert OwnerOk(s.d.free, s.live, x);
      NobodyMore(s.live, Chain(i, j, k, b, Offered), x);
    }
  }

  lemma NobodyMore(live: seq<Chain>, c: Chain, i: nat)
    ensures Nobody(live + [c], i) <==> Nobody(live, i) && !c.Has(i)
  {
    var live' := live + [c];
    assert live'[|live|] == c && forall m :: 0 <= m < |live| ==> live'[m] == live[m];
  }

  // ---- runs ------------------------------------------------------------------------------------------

  datatype Step = DoSubmit(b: nat) | DoFetch(n: nat) | DoComplete(n: nat) | DoHandle(n: nat) | DoFinish(n: nat)

  predicate Enabled(s: State, a: Step)
    requires Sized(s.d)
  {
    match a
    case DoSubmit(b) => CanSubmit(s, b)
    case DoFetch(n) => CanFetch(s, n)
    case DoComplete(n) => n < |s.live| && s.live[n].stage == Taken
    case DoHandle(n) => CanHandle(s, n) && s.d.elems[s.d.usedIdx] < NUM
    case DoFinish(n) => n < |s.live| && s.live[n].stage == Handled
  }

  function Apply(s: State, a: Step): (s': State)
    requires Sized(s.d) && Enabled(s, a)
  {
    match a
    case DoSubmit(b) => Submit(s, b)
    case DoFetch(n) => Fetch(s, n)
    case DoComplete(n) => Complete(s, n)
    case DoHandle(n) => Handle(s, n)
    case DoFinish(n) => Finish(s, n)
  }

  lemma StepKeeps(s: State, a: Step)
    requires Inv(s) && Enabled(s, a)
    ensures Inv(Apply(s, a))
  {
    match a
    case DoSubmit(b) => SubmitKeeps(s, b);
    case DoFetch(n) => FetchKeeps(s, n);
    case DoComplete(n) => CompleteKeeps(s, n);
    case DoHandle(n) => HandleKeeps(s, n);
    case DoFinish(n) => FinishKeeps(s, n);
  }

  /** r is a run: each state follows from the one before by an enabled step. */
  ghost predicate IsRun(r: seq<State>, acts: seq<Step>) {
    && |r| == |acts| + 1
    && forall k :: 0 <= k < |acts| ==> Sized(r[k].d) && Enabled(r[k], acts[k]) && r[k + 1] == Apply(r[k], acts[k])
  }

  predicate Start(s: State) {
    && Sized(s.d) && s.live == [] && s.offered == [] && s.done == []
    && s.seen == s.d.availIdx == s.d.usedId == s.d.usedIdx == 0
    && forall i :: 0 <= i < NUM ==> s.d.free[i]
  }

  /** In every state of every run: descriptors are partitioned between the free ones and at most
      two requests, and the driver's comparison of ring indices is exact. */
  lemma {:induction false} EveryRun(r: seq<State>, acts: seq<Step>, k: nat)
    requires IsRun(r, acts) && Start(r[0]) && k < |r|
    ensures Inv(r[k]) && |r[k].live| <= 2
    ensures r[k].d.usedIdx % NUM != r[k].d.usedId % NUM <==> r[k].done != []
  {
    if k == 0 {
      assert forall i: nat :: OwnerOk(r[0].d.free, r[0].live, i);
      assert r[0].seen % IDXMOD == 0;
    } else {
      EveryRun(r, acts, k - 1);
      StepKeeps(r[k - 1], acts[k - 1]);
    }
    AtMostTwo(r[k]);
    InterruptTestExact(r[k]);
  }

  /** A completion the driver has not looked at yet is found by the next interrupt, and belongs
      to one live request. */
  lemma NextCompletion(s: State) returns (n: nat)
    requires Inv(s) && s.done != []
    ensures CanHandle(s, n) && s.d.elems[s.d.usedIdx] < NUM
  {
    UsedPop(s.d.elems, s.d.usedIdx, s.done, s.d.usedId);
    assert IsHead(s.live, s.done[0], Completed);
    n :| 0 <= n < |s.live| && s.live[n].i0 == s.done[0] && s.live[n].stage == Completed;
    assert ChainOk(s.d, s.live[n]);
  }

  // ---- the code --------------------------------------------------------------------------------------

  class Driver {
    var d: Disk
    ghost var s: State                 // the disk and its history

    ghost predicate Valid()
      reads this
    {
      s.d == d && Inv(s)
    }

    constructor (d0: Disk)
      requires Start(State(d0, [], 0, [], []))
      ensures Valid() && d == d0
    {
      d, s := d0, State(d0, [], 0, [], []);
      new;
      assert forall i: nat :: OwnerOk(d.free, s.live, i);
    }

    /** alloc_desc() */
    method AllocDesc() returns (i: int)
      requires |d.free| == NUM
      modifies this`d
      ensures if i < 0 then FirstFree(old(d).free, 0) == NUM else i == FirstFree(old(d).free, 0) < NUM
      ensures d == if i < 0 then old(d) else old(d).(free := old(d).free[i := false])
    {
      i := 0;
      while i < NUM
        invariant 0 <= i <= NUM && FirstFree(d.free, 0) == FirstFree(d.free, i) && d == old(d)
      {
        if d.free[i] {
          d := d.(free := d.free[i := false]);
          return;
        }
        i := i + 1;
      }
      return -1;
    }

    /** free_desc(); a descriptor that is out of range or free already is a panic. */
    method FreeDesc(i: nat)
      requires |d.free| == NUM && i < NUM && !d.free[i]
      modifies this`d
      ensures d == old(d).(free := old(d).free[i := true])
    {
      d := d.(free := d.free[i := true]);
    }

    /** alloc3_desc(): all three or none. */
    method Alloc3() returns (ok: bool, i: int, j: int, k: int)
      requires |d.free| == NUM
      modifies this`d
      ensures ok <==> Have3(old(d).free)
      ensures !ok ==> d == old(d)
      ensures ok ==> (i, j, k) == First3(old(d).free)
                     && d == old(d).(free := old(d).free[i := false][j := false][k := false])
    {
      ok, j, k := false, -1, -1;
      ghost var f := d.free;
      i := AllocDesc();
      if i < 0 {
        return;
      }
      Skips(f, i, 0);
      j := AllocDesc();
      if j < 0 {
        FreeDesc(i);
        assert d.free == f;
        return;
      }
      Skips(f[i := false], j, 0);
      SkipsOver(f, i, j);
      k := AllocDesc();
      if k < 0 {
        FreeDesc(i);
        FreeDesc(j);
        assert d.free == f;
        return;
      }
      ok := true;
    }

    /** virtio_disk_rw() up to the notification; false when it has to sleep for descriptors. */
    method Request(b: nat) returns (ok: bool)
      requires Valid() && b !in d.busy && forall n :: 0 <= n < |s.live| ==> s.live[n].buf != b
      modifies this
      ensures Valid()
      ensures ok <==> Have3(old(d).free)
      ensures ok ==> s == Submit(old(s), b)
      ensures !ok ==> s == old(s)
    {
      var i, j, k;
      ok, i, j, k := Alloc3();
      if !ok {
        return;
      }
      SubmitKeeps(s, b);
      d := d.(desc := d.desc[i := Desc(true, j)][j := Desc(true, k)][k := Desc(false, 0)]);
      d := d.(busy := d.busy + {b}, info := d.info[i := b]);
      d := d.(avail := d.avail[d.availIdx % NUM := i]);
      d := d.(availIdx := (d.availIdx + 1) % IDXMOD);
      s := Submit(s, b);
    }

    /** The end of virtio_disk_rw(): free_chain() from the head of the handled request n. */
    method Release(head: nat, ghost n: nat)
      requires Valid() && n < |s.live| && s.live[n].i0 == head && s.live[n].stage == Handled
      modifies this
      ensures Valid() && s == Finish(old(s), n)
    {
      FinishKeeps(s, n);
      ghost var c, s' := s.live[n], Finish(s, n);
      FreesThree(d, c);
      var i := head;
      ghost var k := 0;
      while true
        invariant 0 <= k <= 2 && i == (if k == 0 then c.i0 else if k == 1 then c.i1 else c.i2)
        invariant d == old(d).(free := if k == 0 then old(d).free else if k == 1 then old(d).free[c.i0 := true]
                                       else old(d).free[c.i0 := true][c.i1 := true])
        decreases 2 - k
      {
        FreeDesc(i);
        if !d.desc[i].more {
          break;
        }
        i, k := d.desc[i].next, k + 1;
      }
      s := s';
    }

    /** virtio_disk_intr(): every completion there is, each once. */
    method Interrupt()
      requires Valid()
      modifies this
      ensures Valid() && s.done == []
      ensures d.free == old(d).free && s.offered == old(s).offered && |s.live| == |old(s).live|
      ensures forall n :: 0 <= n < |s.live| ==>
                s.live[n] == if old(s).live[n].stage == Completed then old(s).live[n].(stage := Handled)
                      else old(s).live[n]
    {
      while d.usedIdx % NUM != d.usedId % NUM
        invariant Valid() && d.free == old(d).free && s.offered == old(s).offered && |s.live| == |old(s).live|
        invariant forall n :: 0 <= n < |s.live| ==>
                    s.live[n] == old(s).live[n] ||
                    (old(s).live[n].stage == Completed && s.live[n] == old(s).live[n].(stage := Handled))
        decreases |s.done|
      {
        InterruptTestExact(s);
        ghost var n := NextCompletion(s);
        HandleKeeps(s, n);
        var id := d.elems[d.usedIdx];
        d := d.(busy := d.busy - {d.info[id]}, usedIdx := (d.usedIdx + 1) % NUM);
        s := Handle(s, n);
      }
      InterruptTestExact(s);
    }
  }

  lemma Skips(f: seq<bool>, i: nat, from: nat)
    requires i < |f| && from <= i && FirstFree(f, from) == i
    ensures FirstFree(f[i := false], from) == FirstFree(f, i + 1)
    decreases i - from
  {
    SameAfter(f, i, i + 1);
    if from < i { Skips(f, i, from + 1); }
  }

  lemma {:induction false} SameAfter(f: seq<bool>, i: nat, from: nat)
    requires i < from <= |f|
    ensures FirstFree(f[i := false], from) == FirstFree(f, from)
    decreases |f| - from
  {
    if from < |f| { SameAfter(f, i, from + 1); }
  }

  lemma SkipsOver(f: seq<bool>, i: nat, j: nat)
    requires i < j < |f| && FirstFree(f, 0) == i && FirstFree(f, i + 1) == j
    ensures FirstFree(f[i := false][j := false], 0) == FirstFree(f, j + 1)
  {
    Skips(f, i, 0);
    Skips(f[i := false], j, 0);
    SameAfter(f, i, j + 1);
  }
}
