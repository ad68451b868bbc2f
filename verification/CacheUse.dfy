/** How many buffers bget() of kernel/bio.c can still recycle: recovery (kernel/log.c:67-82) leaves every
    buffer it has installed with a reference count of 2^32 - 1, so that an idle one is never free again;
    and a buffer whose count is 0 is taken after at most NBUF misses. */
module CacheUse {
  import opened Finite
  import opened LogDisk
  import opened CacheSpec
  import opened LogCode
  import opened BufferCache

  /** The blocks whose buffers have references. */
  function InUse(view: Cache<Key>): set<Key> { set k | k in view && view[k].refcnt != 0 }

  /** The places in the ring with references, and their blocks. */
  ghost function Places(r: seq<Buf>): map<nat, Key>
    reads r`refcnt, r`dev, r`blockno
  {
    map j: nat | 1 <= j < |r| && r[j].refcnt != 0 :: KeyOf(r[j])
  }

  lemma PlacesAre(c: BCache)
    requires c.Valid()
    ensures |Places(c.ring).Keys| == |InUse(c.view)|
  {
    var r, f := c.ring, Places(c.ring);
    IndexOf(r, c.at, c.view);
    LinksOf(r);
    forall i, j | i in f && j in f && f[i] == f[j] ensures i == j { assert c.at[f[i]] == r[i] && c.at[f[j]] == r[j]; }
    forall k | k in InUse(c.view) ensures k in f.Values {
      var j :| 0 <= j < |r| && r[j] == c.at[k];
      assert j in f && f[j] == k;
    }
    forall k | k in f.Values ensures k in InUse(c.view) {
      var j :| j in f && f[j] == k;
      assert c.at[k] == r[j];
    }
    assert f.Values == InUse(c.view);
    MapSize(f);
  }

  /** bget() finds nothing to recycle exactly if NBUF blocks have references. */
  lemma NoneLeftIff(c: BCache)
    requires c.Valid()
    ensures |InUse(c.view)| <= NBUF && (c.AllInUse() <==> |InUse(c.view)| == NBUF)
  {
    PlacesAre(c);
    var keys := Places(c.ring).Keys;
    assert forall j: nat :: j in keys <==> 1 <= j < |c.ring| && c.ring[j].refcnt != 0;
    RangeSize(keys, 1, |c.ring|);
    FullRange(keys, 1, |c.ring|);
    assert (forall j: nat :: 1 <= j < |c.ring| ==> j in keys) <==> c.AllInUse();
  }

  // ---- recovery ---------------------------------------------------------------------------------------

  /** Blocks in rec count 2^32 - 1, those in held 1, all others 0. */
  predicate CountAt(view: Cache<Key>, rec: set<Key>, held: set<Key>, k: Key) {
    && (k in rec || k in held ==> k in view)
    && (k in view ==> view[k].refcnt == if k in rec then REFMOD - 1 else if k in held then 1 else 0)
  }

  ghost predicate Counts(view: Cache<Key>, rec: set<Key>, held: set<Key>) {
    forall k {:trigger CountAt(view, rec, held, k)} :: CountAt(view, rec, held, k)
  }

  lemma CountsInUse(view: Cache<Key>, rec: set<Key>, held: set<Key>)
    requires Counts(view, rec, held)
    ensures InUse(view) == rec + held
  {
    forall k ensures k in InUse(view) <==> k in rec + held { assert CountAt(view, rec, held, k); }
  }

  lemma CountsSet(view: Cache<Key>, rec: set<Key>, held: set<Key>, view': Cache<Key>, rec': set<Key>, held': set<Key>,
                  k: Key)
    requires Counts(view, rec, held) && k in view' && view' == view[k := view'[k]] && CountAt(view', rec', held', k)
    requires rec' - {k} == rec - {k} && held' - {k} == held - {k}
    ensures Counts(view', rec', held')
  {
    forall x ensures CountAt(view', rec', held', x) {
      assert CountAt(view, rec, held, x);
      if x != k { assert (x in rec' <==> x in rec' - {k}) && (x in held' <==> x in held' - {k}); }
    }
  }

  lemma HitCounts(view: Cache<Key>, rec: set<Key>, held: set<Key>, k: Key, data: Block)
    requires Counts(view, rec, held) && k in view && k !in rec && k !in held
    ensures Counts(Filled(Hit(view, k), k, data), rec, held + {k})
  {
    assert CountAt(view, rec, held, k);
    CountsSet(view, rec, held, Filled(Hit(view, k), k, data), rec, held + {k}, k);
  }

  lemma MissCounts(view: Cache<Key>, rec: set<Key>, held: set<Key>, k: Key, data: Block, w: Key)
    requires Counts(view, rec, held) && k !in rec && k !in held && (w in view ==> view[w].refcnt == 0)
    ensures Counts((view - {w})[k := Entry(true, data, 1)], rec, held + {k})
  {
    var view', held' := (view - {w})[k := Entry(true, data, 1)], held + {k};
    forall x ensures CountAt(view', rec, held', x) { assert CountAt(view, rec, held, x); }
  }

  /** A buffer without references is found under its own block, if any. */
  lemma VictimUnused(c: BCache)
    requires c.Valid()
    ensures forall b :: b in c.ring && b.refcnt == 0 && KeyOf(b) in c.view ==> c.view[KeyOf(b)].refcnt == 0
  {
    IndexOf(c.ring, c.at, c.view);
  }

  ghost predicate AtStays(at: map<Key, Buf>, at': map<Key, Buf>, held: set<Key>) {
    forall x :: x in held ==> x in at && x in at' && at'[x] == at[x]
  }

  lemma HeldInUse(view: Cache<Key>, rec: set<Key>, held: set<Key>)
    requires Counts(view, rec, held)
    ensures forall x :: x in held ==> x in view && view[x].refcnt != 0
  {
    forall x | x in held ensures x in view && view[x].refcnt != 0 { assert CountAt(view, rec, held, x); }
  }

  lemma AtMostAll(c: BCache, rec: set<Key>, held: set<Key>)
    requires c.Valid() && Counts(c.view, rec, held)
    ensures |rec + held| <= NBUF && (c.AllInUse() <==> |rec + held| == NBUF)
  {
    NoneLeftIff(c);
    CountsInUse(c.view, rec, held);
  }

  /** bread() of a block without references. */
  method Hold(c: BCache, k: Key, ghost rec: set<Key>, ghost held: set<Key>) returns (b: Buf?)
    requires c.Valid() && k.dev != 0 && 0 <= k.blockno < |c.disk.blocks|
    requires Counts(c.view, rec, held) && k !in rec && k !in held
    modifies c`view, c`at, c.ring`dev, c.ring`blockno, c.ring`valid, c.ring`refcnt, c.ring`data
    ensures c.Valid()
    ensures b == null <==> k !in old(c.view) && |rec + held| == NBUF
    ensures b != null ==> |rec + (held + {k})| <= NBUF
    ensures b != null ==> c.Cached(b) && KeyOf(b) == k && Counts(c.view, rec, held + {k})
    ensures b != null ==> c.view.Keys <= old(c.view.Keys) + {k} && AtStays(old(c.at), c.at, held)
  {
    AtMostAll(c, rec, held);
    VictimUnused(c);
    ghost var v0 := c.view;
    HeldInUse(v0, rec, held);
    assert k == Key(k.dev, k.blockno);
    b := c.Bread(k.dev, k.blockno);
    if b != null {
      if k in v0 {
        HitCounts(v0, rec, held, k, c.disk.blocks[k.blockno]);
      } else {
        MissCounts(v0, rec, held, k, c.disk.blocks[k.blockno], old(KeyOf(b)));
      }
      AtMostAll(c, rec, held + {k});
    }
  }

  lemma Sets(rec: set<Key>, l: Key, k: Key)
    requires l !in rec
    ensures {} + {l} == {l} && {l} + {k} == {l, k} && rec + {} == rec && |rec + {l}| == |rec| + 1
  {
  }

  /** The two bread() calls in install_trans(). */
  method HoldBoth(c: BCache, l: Key, k: Key, ghost rec: set<Key>) returns (ok: bool, lbuf: Buf?, dbuf: Buf?)
    requires c.Valid() && l.dev != 0 && k.dev != 0 && l != k && Counts(c.view, rec, {}) && l !in rec && k !in c.view
    requires 0 <= l.blockno < |c.disk.blocks| && 0 <= k.blockno < |c.disk.blocks|
    modifies c`view, c`at, c.ring`dev, c.ring`blockno, c.ring`valid, c.ring`refcnt, c.ring`data
    ensures c.Valid()
    ensures ok <==> |rec| + 1 < NBUF
    ensures ok ==> lbuf != null && dbuf != null && Counts(c.view, rec, {l, k})
    ensures ok ==> c.Cached(lbuf) && KeyOf(lbuf) == l && c.Cached(dbuf) && KeyOf(dbuf) == k
    ensures ok ==> c.view.Keys <= old(c.view.Keys) + {l, k}
  {
    ok, dbuf := false, null;
    assert CountAt(c.view, rec, {}, k);
    Sets(rec, l, k);
    lbuf := Hold(c, l, rec, {});
    if lbuf == null { return; }
    dbuf := Hold(c, k, rec, {l});
    if dbuf == null { return; }
    ok := true;
    StillCached(c, lbuf, l);
  }

  lemma StillCached(c: BCache, b: Buf, k: Key)
    requires c.Valid() && k in c.at && c.at[k] == b
    ensures c.Cached(b) && KeyOf(b) == k
  {
    IndexOf(c.ring, c.at, c.view);
  }

  lemma DropCounts(view: Cache<Key>, rec: set<Key>, held: set<Key>, k: Key)
    requires Counts(view, rec, held) && k in held && k !in rec && k in view
    ensures Counts(Drop(view, k), rec, held - {k})
  {
    assert CountAt(view, rec, held, k);
    CountsSet(view, rec, held, Drop(view, k), rec, held - {k}, k);
  }

  ghost function Bufs(r: seq<Buf>): set<Buf> { set b | b in r }

  /** brelse() keeps the ring's buffers. */
  method Release(c: BCache, b: Buf, ghost k: Key)
    requires c.Valid() && c.Cached(b) && KeyOf(b) == k
    modifies c, Bufs(c.ring)
    ensures c.Valid() && c.view == Drop(old(c.view), k) && c.at == old(c.at) && Bufs(c.ring) == old(Bufs(c.ring))
  {
    c.Brelse(b);
  }

  /** One reference less than none. */
  lemma DropWraps(view: Cache<Key>, rec: set<Key>, k: Key)
    requires Counts(view, rec, {}) && k !in rec && k in view
    ensures Counts(Drop(view, k), rec + {k}, {})
  {
    assert CountAt(view, rec, {}, k);
    CountsSet(view, rec, {}, Drop(view, k), rec + {k}, {}, k);
  }

  /** memmove() and bwrite() in install_trans(). */
  method CopyHome(c: BCache, lbuf: Buf, dbuf: Buf, l: Key, k: Key, ghost rec: set<Key>)
    requires c.Valid() && c.Cached(lbuf) && KeyOf(lbuf) == l && c.Cached(dbuf) && KeyOf(dbuf) == k && l != k
    requires Counts(c.view, rec, {l, k}) && 0 <= k.blockno < |c.disk.blocks|
    modifies c`view, dbuf`data, c.disk
    ensures c.Valid() && c.Cached(lbuf) && c.Cached(dbuf) && Counts(c.view, rec, {l, k})
    ensures c.disk.blocks == old(c.disk.blocks)[k.blockno := old(lbuf.data)] && c.view.Keys == old(c.view.Keys)
  {
    ghost var v0 := c.view;
    c.Overwrite(dbuf, lbuf.data);
    StillCached(c, lbuf, l);
    assert CountAt(v0, rec, {l, k}, k);
    CountsSet(v0, rec, {l, k}, c.view, rec, {l, k}, k);
    c.Bwrite(dbuf);
  }

  /** bunpin(dbuf), brelse(lbuf), brelse(dbuf) */
  method LetGo(c: BCache, lbuf: Buf, dbuf: Buf, l: Key, k: Key, ghost rec: set<Key>)
    requires c.Valid() && c.Cached(lbuf) && KeyOf(lbuf) == l && c.Cached(dbuf) && KeyOf(dbuf) == k && l != k
    requires Counts(c.view, rec, {l, k}) && l !in rec && k !in rec
    modifies c, Bufs(c.ring)
    ensures c.Valid() && Bufs(c.ring) == old(Bufs(c.ring))
    ensures Counts(c.view, rec + {k}, {}) && c.view.Keys == old(c.view.Keys)
  {
    DropCounts(c.view, rec, {l, k}, k);
    assert {l, k} - {k} == {l} && {l} - {l} == {};
    c.Bunpin(dbuf);
    StillCached(c, lbuf, l);
    DropCounts(c.view, rec, {l}, l);
    Release(c, lbuf, l);
    StillCached(c, dbuf, k);
    DropWraps(c.view, rec, k);
    Release(c, dbuf, k);
  }

  /** One turn of install_trans() in recovery. */
  method InstallOne(c: BCache, l: Key, k: Key, ghost rec: set<Key>) returns (ok: bool)
    requires c.Valid() && l.dev != 0 && k.dev != 0 && l != k && Counts(c.view, rec, {}) && l !in rec && k !in c.view
    requires 0 <= l.blockno < |c.disk.blocks| && 0 <= k.blockno < |c.disk.blocks|
    modifies c, Bufs(c.ring), c.disk
    ensures c.Valid() && Bufs(c.ring) == old(Bufs(c.ring)) && |c.disk.blocks| == old(|c.disk.blocks|)
    ensures ok <==> |rec| + 1 < NBUF
    ensures ok ==> k !in rec && Counts(c.view, rec + {k}, {}) && c.view.Keys <= old(c.view.Keys) + {l, k}
  {
    var lbuf, dbuf;
    assert CountAt(c.view, rec, {}, k);
    ok, lbuf, dbuf := HoldBoth(c, l, k, rec);
    if ok {
      CopyHome(c, lbuf, dbuf, l, k, rec);
      LetGo(c, lbuf, dbuf, l, k, rec);
    }
  }

  function KeysOf(dev: nat, blocks: seq<int>): set<Key> { set b | b in blocks :: Key(dev, b) }

  lemma OneKeyMore(dev: nat, blocks: seq<int>, t: nat)
    requires t < |blocks|
    ensures KeysOf(dev, blocks[..t + 1]) == KeysOf(dev, blocks[..t]) + {Key(dev, blocks[t])}
  {
    assert blocks[..t + 1] == blocks[..t] + [blocks[t]];
  }

  /** The first t of the blocks have been recovered, the others are not cached. */
  ghost predicate Recovering(view: Cache<Key>, dev: nat, blocks: seq<int>, t: nat) {
    && t <= |blocks| && |KeysOf(dev, blocks[..t])| == t && Counts(view, KeysOf(dev, blocks[..t]), {})
    && forall j :: t <= j < |blocks| ==> Key(dev, blocks[j]) !in view
  }

  lemma RecoveringOn(view: Cache<Key>, view': Cache<Key>, dev: nat, blocks: seq<int>, t: nat, l: Key)
    requires Recovering(view, dev, blocks, t) && t < |blocks| && Distinct(blocks) && l !in KeysOf(dev, blocks)
    requires var k := Key(dev, blocks[t]);
             && k !in KeysOf(dev, blocks[..t])
             && Counts(view', KeysOf(dev, blocks[..t]) + {k}, {}) && view'.Keys <= view.Keys + {l, k}
    ensures Recovering(view', dev, blocks, t + 1)
  {
    var k := Key(dev, blocks[t]);
    OneKeyMore(dev, blocks, t);
    DistinctIs(blocks);
    forall j | t + 1 <= j < |blocks| ensures Key(dev, blocks[j]) !in view' {
      assert Key(dev, blocks[j]) in KeysOf(dev, blocks);
    }
  }

  /** The log slot of an entry is no entry itself. */
  lemma SlotIsNoEntry(dev: nat, start: nat, blocks: seq<int>, t: nat)
    requires t < |blocks| && forall j :: 0 <= j < |blocks| ==> !(start <= blocks[j] <= start + |blocks|)
    ensures Key(dev, start + 1 + t) !in KeysOf(dev, blocks) && KeysOf(dev, blocks[..t]) <= KeysOf(dev, blocks)
    ensures Key(dev, start + 1 + t) != Key(dev, blocks[t])
  {
  }

  /** install_trans() in recovery, for a log of these blocks from `start` on.  It gets through exactly if
      there are fewer than NBUF; then each of them rests at 2^32 - 1 and NBUF - n buffers are left. */
  method Recover(c: BCache, dev: nat, start: nat, blocks: seq<int>) returns (ok: bool)
    requires c.Valid() && dev != 0 && InUse(c.view) == {} && Distinct(blocks) && start + |blocks| < |c.disk.blocks|
    requires forall j :: 0 <= j < |blocks| ==> Key(dev, blocks[j]) !in c.view
    requires forall j :: 0 <= j < |blocks| ==>
               0 <= blocks[j] < |c.disk.blocks| && !(start <= blocks[j] <= start + |blocks|)
    modifies c, Bufs(c.ring), c.disk
    ensures c.Valid() && (ok <==> |blocks| < NBUF)
    ensures ok ==> Counts(c.view, KeysOf(dev, blocks), {}) && InUse(c.view) == KeysOf(dev, blocks)
    ensures ok ==> |InUse(c.view)| == |blocks|
  {
    forall k ensures CountAt(c.view, {}, {}, k) { assert k !in InUse(c.view); }
    assert KeysOf(dev, blocks[..0]) == {};
    var t := 0;
    while t < |blocks|
      invariant 0 <= t <= |blocks| && t < NBUF && c.Valid() && |c.disk.blocks| == old(|c.disk.blocks|)
      invariant Bufs(c.ring) == old(Bufs(c.ring)) && Recovering(c.view, dev, blocks, t)
    {
      ghost var view := c.view;
      SlotIsNoEntry(dev, start, blocks, t);
      ok := InstallOne(c, Key(dev, start + 1 + t), Key(dev, blocks[t]), KeysOf(dev, blocks[..t]));
      if !ok { return; }
      RecoveringOn(view, c.view, dev, blocks, t, Key(dev, start + 1 + t));
      t := t + 1;
    }
    ok := true;
    assert blocks[..t] == blocks;
    CountsInUse(c.view, KeysOf(dev, blocks), {});
    assert KeysOf(dev, blocks) + {} == KeysOf(dev, blocks);
  }

  /** With n recovered blocks, "bget: no buffers" comes once NBUF - n others have references. */
  lemma OthersLeft(c: BCache, rec: set<Key>)
    requires c.Valid() && rec <= InUse(c.view)
    ensures |InUse(c.view) - rec| <= NBUF - |rec| && (c.AllInUse() <==> |InUse(c.view) - rec| == NBUF - |rec|)
  {
    NoneLeftIff(c);
    assert InUse(c.view) == rec + (InUse(c.view) - rec);
  }

  // ---- when an unreferenced buffer goes ---------------------------------------------------------------------

  /** A victim other than r[p] lies behind it, and in front of it once it has been released. */
  lemma MovedShifts(r: seq<Buf>, y: Buf, moved: map<Buf, nat>, clock: nat, p: nat)
    requires ByRecency(r, moved, clock) && 1 <= p < |r| && y in r && Position(r, y) >= 1
    requires y != r[p] && y in moved && moved[y] <= moved[r[p]]
    ensures p + 1 < |r| && |Moved(r, y)| == |r| && Moved(r, y)[p + 1] == r[p]
  {
    var q := Position(r, y);
    assert q > p;
    assert (r[..q] + r[q + 1..])[1..][p - 1] == r[p];
  }

  /** b, at place p of the ring, holds block k and has no references. */
  ghost predicate Waits(c: BCache, b: Buf, k: Key, p: nat)
    reads c, b
  {
    && 1 <= p < |c.ring| && c.ring[p] == b && b.refcnt == 0 && KeyOf(b) == k
    && k in c.at && c.at[k] == b && k in c.view
  }

  /** bread() of a block that is not cached, when b has no references: b is taken, or another that was
      released before b. */
  method MissOther(c: BCache, b: Buf, k: Key, o: Key, ghost p: nat) returns (y: Buf)
    requires c.Valid() && Waits(c, b, k, p)
    requires o !in c.view && o != k && o.dev != 0 && 0 <= o.blockno < |c.disk.blocks|
    modifies c`view, c`at, c.ring`dev, c.ring`blockno, c.ring`valid, c.ring`refcnt, c.ring`data
    ensures c.Valid() && c.Cached(y) && KeyOf(y) == o && y.refcnt == 1 && c.view.Keys <= old(c.view.Keys) + {o}
            && Position(c.ring, y) >= 1
    ensures if y == b then KeyOf(b) != k && k !in c.view
            else Waits(c, b, k, p) && y in c.moved && c.moved[y] <= c.moved[b]
  {
    assert o == Key(o.dev, o.blockno);
    OnlyUnder(c, b, k);
    y := c.Bread(o.dev, o.blockno);
    NotHead(c, y);
    if y != b { StillCached(c, b, k); }
  }

  /** brelse() of that buffer by its only user. */
  method ReleaseOther(c: BCache, y: Buf, ghost o: Key, ghost b: Buf, ghost k: Key, ghost p: nat)
    requires c.Valid() && c.Cached(y) && KeyOf(y) == o && y.refcnt == 1 && Position(c.ring, y) >= 1
    requires if y == b then KeyOf(b) != k && k !in c.view
             else Waits(c, b, k, p) && y in c.moved && c.moved[y] <= c.moved[b]
    modifies c`view, c`ring, c`moved, c`clock, y`refcnt, c.ring`prev, c.ring`next
    ensures c.Valid() && c.view.Keys == old(c.view.Keys) && Bufs(c.ring) == old(Bufs(c.ring))
    ensures if y == b then KeyOf(b) != k && k !in c.view else Waits(c, b, k, p + 1)
  {
    if y != b { MovedShifts(c.ring, y, c.moved, c.clock, p); }
    c.Brelse(y);
  }

  /** bread() and brelse() of a block that is not cached, when r[p] == b has no references. */
  method ReadOther(c: BCache, b: Buf, k: Key, o: Key, ghost p: nat)
    requires c.Valid() && Waits(c, b, k, p)
    requires o !in c.view && o != k && o.dev != 0 && 0 <= o.blockno < |c.disk.blocks|
    modifies c, Bufs(c.ring)
    ensures c.Valid() && Bufs(c.ring) == old(Bufs(c.ring)) && c.view.Keys <= old(c.view.Keys) + {o}
    ensures if KeyOf(b) == k then Waits(c, b, k, p + 1) else k !in c.view
  {
    var y := MissOther(c, b, k, o, p);
    ReleaseOther(c, y, o, b, k, p);
  }

  lemma OnlyUnder(c: BCache, b: Buf, k: Key)
    requires c.Valid() && k in c.at && c.at[k] == b
    ensures KeyOf(b) == k && k in c.view && forall x :: x in c.ring && x != b ==> KeyOf(x) != k
  {
    IndexOf(c.ring, c.at, c.view);
  }

  lemma NotHead(c: BCache, y: Buf)
    requires c.Valid() && c.Cached(y)
    ensures Position(c.ring, y) >= 1
  {
  }

  /** Whatever b held before, after at most NBUF blocks that were not cached have been read its buffer
      has been given to one of them. */
  method Churn(c: BCache, b: Buf, k: Key, others: seq<Key>) returns (n: nat)
    requires c.Valid() && c.Cached(b) && KeyOf(b) == k && b.refcnt == 0 && |others| == NBUF && k !in others
    requires forall j :: 0 <= j < NBUF ==>
               others[j] !in c.view && others[j].dev != 0 && 0 <= others[j].blockno < |c.disk.blocks|
    requires forall i, j :: 0 <= i < j < NBUF ==> others[i] != others[j]
    modifies c, Bufs(c.ring)
    ensures c.Valid() && n <= NBUF && k !in c.view
  {
    ghost var p := Position(c.ring, b);
    NotHead(c, b);
    n := 0;
    while KeyOf(b) == k
      invariant c.Valid() && 0 <= n <= NBUF && Bufs(c.ring) == old(Bufs(c.ring))
      invariant if KeyOf(b) == k then n < p && Waits(c, b, k, p) else k !in c.view
      invariant forall j :: n <= j < NBUF ==> others[j] !in c.view
      decreases NBUF - n
    {
      ReadOther(c, b, k, others[n], p);
      n, p := n + 1, p + 1;
    }
  }
}
