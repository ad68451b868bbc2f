/** kernel/bio.c: a ring of buffers linked through prev and next, most recently released
    first.  `ring` is the ring as a sequence, `view` the cache as a value; Valid() ties both
    to the fields that the code reads and writes. */
module BufferCache {
  import opened LogDisk
  import opened CacheSpec
  import opened LogCode

  const NBUF: nat := 30

  datatype Key = Key(dev: nat, blockno: int)

  class Buf {
    var valid: bool
    var dev: nat
    var blockno: int
    var refcnt: nat
    var data: Block
    var prev: Buf
    var next: Buf

    constructor ()
      ensures dev == 0 && refcnt == 0 && !valid && prev == next == this
    {
      valid, dev, blockno, refcnt, data := false, 0, 0, 0, [];
      prev, next := this, this;
    }
  }

  /** next of r[i] and prev of its right neighbour, the cycle wrapping around at the end. */
  ghost predicate LinkAt(r: seq<Buf>, i: nat)
    requires i < |r|
    reads r`prev, r`next
  {
    var j := if i + 1 < |r| then i + 1 else 0;
    r[i].next == r[j] && r[j].prev == r[i]
  }

  ghost predicate Apart(r: seq<Buf>, i: nat, j: nat)
    requires i < |r| && j < |r|
  {
    r[i] != r[j]
  }

  /** r is one cycle through distinct buffers, and next and prev are inverse on it.  Link and
      Apart are named so that proofs which do not touch the links do not look into them. */
  ghost predicate Linked(r: seq<Buf>)
    reads r`prev, r`next
  {
    && |r| >= 1
    && (forall i: nat {:trigger LinkAt(r, i)} :: i < |r| ==> LinkAt(r, i))
    && (forall i: nat, j: nat {:trigger Apart(r, i, j)} :: i < j < |r| ==> Apart(r, i, j))
  }

  lemma LinksOf(r: seq<Buf>)
    requires Linked(r)
    ensures forall i, j :: 0 <= i < j < |r| ==> r[i] != r[j]
    ensures forall i :: 0 <= i < |r| - 1 ==> r[i].next == r[i + 1]
    ensures forall i :: 0 < i < |r| ==> r[i].prev == r[i - 1]
    ensures r[|r| - 1].next == r[0] && r[0].prev == r[|r| - 1]
  {
    assert LinkAt(r, |r| - 1);
    forall i | 0 <= i < |r| - 1
      ensures r[i].next == r[i + 1] && r[i + 1].prev == r[i]
    {
      assert LinkAt(r, i);
    }
    forall i, j | 0 <= i < j < |r|
      ensures r[i] != r[j]
    {
      assert Apart(r, i, j);
    }
  }

  /** The first half of brelse(): take r[k] out of the cycle. */
  method Unlink(ghost r: seq<Buf>, b: Buf, ghost k: nat)
    requires Linked(r) && 0 < k < |r| && r[k] == b
    modifies r`prev, r`next
    ensures Linked(r[..k] + r[k + 1..])
  {
    LinksOf(r);
    assert b.next == (if k + 1 < |r| then r[k + 1] else r[0]) && b.prev == r[k - 1];
    b.next.prev := b.prev;
    b.prev.next := b.next;
  }

  /** The second half: put b between the head and its successor. */
  method PushFront(ghost r: seq<Buf>, head: Buf, b: Buf)
    requires Linked(r) && r[0] == head && b !in r
    modifies r`prev, r`next, b`prev, b`next
    ensures Linked([head, b] + r[1..])
  {
    LinksOf(r);
    assert head.next == if 1 < |r| then r[1] else head;
    b.next := head.next;
    b.prev := head;
    head.next.prev := b;
    head.next := b;
  }

  function KeyOf(b: Buf): Key
    reads b`dev, b`blockno
  {
    Key(b.dev, b.blockno)
  }

  function EntryOf(b: Buf): Entry
    reads b`valid, b`data, b`refcnt
  {
    Entry(b.valid, b.data, b.refcnt)
  }

  ghost predicate KeyOk(r: seq<Buf>, at: map<Key, Buf>, view: Cache<Key>, k: Key)
    reads r`dev, r`blockno, r`valid, r`data, r`refcnt
  {
    k in at ==> k.dev != 0 && at[k] in r && KeyOf(at[k]) == k && k in view && view[k] == EntryOf(at[k])
  }

  ghost predicate BufOk(at: map<Key, Buf>, b: Buf)
    reads b`dev, b`blockno, b`refcnt
  {
    if b.dev != 0 then KeyOf(b) in at && at[KeyOf(b)] == b else b.refcnt == 0
  }

  /** Buffers in use are found under their key and nowhere else; `at` is the index. */
  ghost predicate Indexed(r: seq<Buf>, at: map<Key, Buf>, view: Cache<Key>)
    reads r`dev, r`blockno, r`valid, r`data, r`refcnt
  {
    && at.Keys == view.Keys
    && (forall k {:trigger KeyOk(r, at, view, k)} :: KeyOk(r, at, view, k))
    && (forall b {:trigger BufOk(at, b)} :: b in r ==> BufOk(at, b))
  }

  lemma IndexOf(r: seq<Buf>, at: map<Key, Buf>, view: Cache<Key>)
    requires Indexed(r, at, view)
    ensures forall k :: k in at ==> k.dev != 0 && at[k] in r && KeyOf(at[k]) == k && view[k] == EntryOf(at[k])
    ensures forall b :: b in r && b.dev != 0 ==> KeyOf(b) in at && at[KeyOf(b)] == b
    ensures forall b :: b in r && b.dev == 0 ==> b.refcnt == 0
  {
    forall k | k in at
      ensures k.dev != 0 && at[k] in r && KeyOf(at[k]) == k && view[k] == EntryOf(at[k])
    {
      assert KeyOk(r, at, view, k);
    }
    forall b | b in r
      ensures if b.dev != 0 then KeyOf(b) in at && at[KeyOf(b)] == b else b.refcnt == 0
    {
      assert BufOk(at, b);
    }
  }

  /** Front to back (the head is r[0]), buffers were moved to the front longer and longer ago. */
  ghost predicate ByRecency(r: seq<Buf>, moved: map<Buf, nat>, clock: nat) {
    && (forall i :: 1 <= i < |r| ==> r[i] in moved && moved[r[i]] < clock)
    && (forall i, j :: 1 <= i < j < |r| ==> moved[r[j]] < moved[r[i]])
  }

  lemma RecencyAfterMove(r: seq<Buf>, moved: map<Buf, nat>, clock: nat, b: Buf)
    requires ByRecency(r, moved, clock) && |r| >= 1 && b !in r
    ensures ByRecency([r[0], b] + r[1..], moved[b := clock], clock + 1)
  {
    var r' := [r[0], b] + r[1..];
    assert forall i :: 2 <= i < |r'| ==> r'[i] == r[i - 1];
  }

  ghost function Position(r: seq<Buf>, b: Buf): (k: nat)
    requires b in r
    ensures k < |r| && r[k] == b
  {
    var k :| 0 <= k < |r| && r[k] == b; k
  }

  /** The ring with b moved to just behind the head. */
  ghost function Moved(r: seq<Buf>, b: Buf): seq<Buf>
    requires b in r && |r| >= 1
  {
    var k := Position(r, b);
    [r[0], b] + (if k == 0 then [] else (r[..k] + r[k + 1..])[1..])
  }

  class BCache {
    const head: Buf
    const disk: Device
    ghost var ring: seq<Buf>           // the head, then the buffers in next order
    ghost var at: map<Key, Buf>
    ghost var view: Cache<Key>
    ghost var moved: map<Buf, nat>     // when a buffer last went to the front
    ghost var clock: nat

    ghost predicate Valid()
      reads this, ring
    {
      && |ring| == NBUF + 1 && ring[0] == head && head.dev == 0
      && Linked(ring)
      && Indexed(ring, at, view)
      && ByRecency(ring, moved, clock)
    }

    /** binit() */
    constructor (disk: Device)
      ensures Valid() && view == map[] && this.disk == disk
      ensures fresh(ring)
    {
      var h := new Buf();
      this.head := h;
      this.disk := disk;
      ring, at, view, moved, clock := [h], map[], map[], map[], 0;
      new;
      var i := 0;
      while i < NBUF
        invariant 0 <= i <= NBUF && |ring| == i + 1 && ring[0] == head
        invariant fresh(ring) && at == map[] && view == map[]
        invariant Linked(ring) && ByRecency(ring, moved, clock)
        invariant forall b :: b in ring ==> b.dev == 0 && b.refcnt == 0
      {
        var b := new Buf();
        ToFront(b);
        i := i + 1;
      }
    }

    /** Link an unlinked buffer in at the front. */
    method ToFront(b: Buf)
      requires Linked(ring) && ring[0] == head && ByRecency(ring, moved, clock) && b !in ring
      modifies this`ring, this`moved, this`clock, ring`prev, ring`next, b`prev, b`next
      ensures ring == [head, b] + old(ring)[1..] && moved == old(moved)[b := old(clock)] && clock == old(clock) + 1
      ensures Linked(ring) && ByRecency(ring, moved, clock)
    {
      RecencyAfterMove(ring, moved, clock, b);
      PushFront(ring, head, b);
      ring := [head, b] + ring[1..];
      moved := moved[b := clock];
      clock := clock + 1;
    }

    /** The buffer bget() would recycle: the last one in ring order with no references. */
    ghost predicate IsVictim(k: nat)
      reads this, ring
    {
      1 <= k < |ring| && ring[k].refcnt == 0 && forall j :: k < j < |ring| ==> ring[j].refcnt != 0
    }

    /** b holds some block; in a valid cache this is every buffer with a device number. */
    ghost predicate Cached(b: Buf)
      reads this, b
    {
      && b in ring && b.dev != 0
      && KeyOf(b) in at && at[KeyOf(b)] == b && KeyOf(b) in view && view[KeyOf(b)] == EntryOf(b)
    }

    ghost predicate AllInUse()
      reads this, ring`refcnt
    {
      forall j :: 1 <= j < |ring| ==> ring[j].refcnt != 0
    }

    /** b is unreferenced, and no unreferenced buffer went to the front earlier. */
    ghost predicate LeastRecent(b: Buf)
      reads this, ring`refcnt
    {
      && b in ring && b in moved && b.refcnt == 0
      && forall j :: 1 <= j < |ring| && ring[j].refcnt == 0 ==> ring[j] in moved && moved[b] <= moved[ring[j]]
    }

    /** First loop of bget(): a hit, or proof that there is none. */
    method Find(dev: nat, blockno: int) returns (b: Buf?)
      requires Valid() && dev != 0
      ensures b == null <==> Key(dev, blockno) !in view
      ensures b != null ==> Cached(b) && KeyOf(b) == Key(dev, blockno)
    {
      LinksOf(ring);
      IndexOf(ring, at, view);
      b := head.next;
      ghost var i := 1;
      while b != head
        invariant 1 <= i <= |ring| && b == (if i < |ring| then ring[i] else head)
        invariant forall j :: 0 <= j < i ==> KeyOf(ring[j]) != Key(dev, blockno)
        decreases |ring| - i
      {
        if b.dev == dev && b.blockno == blockno {
          return;
        }
        b := b.next;
        i := i + 1;
      }
      b := null;
    }

    /** Second loop of bget(): from the back, the first unreferenced buffer. */
    method Victim() returns (b: Buf?, ghost k: nat)
      requires Valid()
      ensures b == null <==> AllInUse()
      ensures b != null ==> IsVictim(k) && b == ring[k] && LeastRecent(b)
    {
      LinksOf(ring);
      b := head.prev;
      k := |ring| - 1;
      while b != head
        invariant 0 <= k < |ring| && b == ring[k]
        invariant forall j :: k < j < |ring| ==> ring[j].refcnt != 0
        decreases k
      {
        if b.refcnt == 0 {
          return;
        }
        b := b.prev;
        k := k - 1;
      }
      b := null;
    }
  
    /** One more (or fewer) reference to a cached buffer. */
    method SetRef(b: Buf, r: nat)
      requires Indexed(ring, at, view) && Cached(b)
      modifies this`view, b`refcnt
      ensures Indexed(ring, at, view) && Cached(b) && b.refcnt == r
      ensures view == old(view)[KeyOf(b) := old(view)[KeyOf(b)].(refcnt := r)]
    {
      IndexOf(ring, at, view);
      b.refcnt := r;
      view := view[KeyOf(b) := EntryOf(b)];
    }

    /** Recycle b for another block. */
    method Take(b: Buf, dev: nat, blockno: int)
      requires Indexed(ring, at, view) && b in ring && dev != 0 && Key(dev, blockno) !in view
      modifies this`view, this`at, b`dev, b`blockno, b`valid, b`refcnt
      ensures Indexed(ring, at, view) && Cached(b) && KeyOf(b) == Key(dev, blockno)
      ensures view == Miss(old(view) - {old(KeyOf(b))}, Key(dev, blockno), b.data)
      ensures at == (old(at) - {old(KeyOf(b))})[Key(dev, blockno) := b]
    {
      ghost var was := KeyOf(b);
      assert KeyOk(ring, at, view, was) && BufOk(at, b);
      b.dev := dev;
      b.blockno := blockno;
      b.valid := false;
      b.refcnt := 1;
      at := (at - {was})[Key(dev, blockno) := b];
      view := Miss(view - {was}, Key(dev, blockno), b.data);
      forall k ensures KeyOk(ring, at, view, k) { assert old(KeyOk(ring, at, view, k)); }
      forall x | x in ring ensures BufOk(at, x) { assert old(BufOk(at, x)); }
    }

    /** Read b from the disk unless it is valid. */
    method Fill(b: Buf)
      requires Valid() && Cached(b) && 0 <= b.blockno < |disk.blocks|
      modifies this`view, b`valid, b`data
      ensures Valid() && Cached(b)
      ensures view == Filled(old(view), KeyOf(b), disk.blocks[b.blockno])
    {
      if !b.valid {
        b.data := disk.blocks[b.blockno];
        b.valid := true;
        view := SetData(view, KeyOf(b), b.data);
      }
      forall k ensures KeyOk(ring, at, view, k) { assert old(KeyOk(ring, at, view, k)); }
      forall x | x in ring ensures BufOk(at, x) { assert old(BufOk(at, x)); }
    }

    /** bget(); null stands for the panic "no buffers". */
    method Bget(dev: nat, blockno: int) returns (b: Buf?)
      requires Valid() && dev != 0
      modifies this`view, this`at, ring`dev, ring`blockno, ring`valid, ring`refcnt
      ensures Valid()
      ensures b == null <==> Key(dev, blockno) !in old(view) && old(AllInUse())
      ensures b == null ==> view == old(view) && at == old(at)
      ensures b != null ==> Cached(b) && KeyOf(b) == Key(dev, blockno)
      ensures Key(dev, blockno) in old(view) ==> view == Hit(old(view), Key(dev, blockno)) && at == old(at)
      ensures b != null && Key(dev, blockno) !in old(view) ==>
                && b in ring && old(LeastRecent(b)) && at == (old(at) - {old(KeyOf(b))})[Key(dev, blockno) := b]
                && view == Miss(old(view) - {old(KeyOf(b))}, Key(dev, blockno), b.data)
      ensures forall x :: x in ring && x != b ==> x.refcnt == old(x.refcnt)
    {
      b := Find(dev, blockno);
      if b != null {
        SetRef(b, Inc(b.refcnt));
      } else {
        b := Recycle(dev, blockno);
      }
    }

    /** The miss path of bget(). */
    method Recycle(dev: nat, blockno: int) returns (b: Buf?)
      requires Valid() && dev != 0 && Key(dev, blockno) !in view
      modifies this`view, this`at, ring`dev, ring`blockno, ring`valid, ring`refcnt
      ensures Valid()
      ensures b == null <==> old(AllInUse())
      ensures b == null ==> view == old(view) && at == old(at)
      ensures b != null ==>
                && b in ring && old(LeastRecent(b)) && at == (old(at) - {old(KeyOf(b))})[Key(dev, blockno) := b]
                && view == Miss(old(view) - {old(KeyOf(b))}, Key(dev, blockno), b.data)
                && Cached(b) && KeyOf(b) == Key(dev, blockno)
      ensures forall x :: x in ring && x != b ==> x.refcnt == old(x.refcnt)
    {
      ghost var k;
      b, k := Victim();
      if b != null {
        assert Apart(ring, 0, k);
        Take(b, dev, blockno);
      }
    }

    /** bread(): a valid buffer is returned as it is, any other is read from the disk. */
    method Bread(dev: nat, blockno: int) returns (b: Buf?)
      requires Valid() && dev != 0 && 0 <= blockno < |disk.blocks|
      modifies this`view, this`at, ring`dev, ring`blockno, ring`valid, ring`refcnt, ring`data
      ensures Valid()
      ensures b == null <==> Key(dev, blockno) !in old(view) && old(AllInUse())
      ensures b == null ==> view == old(view)
      ensures b != null ==> Cached(b) && KeyOf(b) == Key(dev, blockno)
      ensures Key(dev, blockno) in old(view) ==>
                && at == old(at)
                && view == Filled(Hit(old(view), Key(dev, blockno)), Key(dev, blockno), disk.blocks[blockno])
      ensures b != null && Key(dev, blockno) !in old(view) ==>
                && b in ring && old(LeastRecent(b)) && at == (old(at) - {old(KeyOf(b))})[Key(dev, blockno) := b]
                && view == (old(view) - {old(KeyOf(b))})[Key(dev, blockno) := Entry(true, disk.blocks[blockno], 1)]
      ensures forall x :: x in ring && x != b ==> x.refcnt == old(x.refcnt)
    {
      b := Bget(dev, blockno);
      if b != null {
        FilledMiss(old(view) - {old(KeyOf(b))}, Key(dev, blockno), b.data, disk.blocks[blockno]);
        Fill(b);
      }
    }

    /** memmove(b->data, ...) */
    method Overwrite(b: Buf, data: Block)
      requires Valid() && Cached(b)
      modifies this`view, b`data
      ensures Valid() && Cached(b) && view == old(view)[KeyOf(b) := old(view)[KeyOf(b)].(data := data)]
    {
      b.data := data;
      view := view[KeyOf(b) := EntryOf(b)];
      forall k ensures KeyOk(ring, at, view, k) { assert old(KeyOk(ring, at, view, k)); }
      forall x | x in ring ensures BufOk(at, x) { assert old(BufOk(at, x)); }
    }

    /** bwrite() */
    method Bwrite(b: Buf)
      requires Valid() && Cached(b) && 0 <= b.blockno < |disk.blocks|
      modifies disk
      ensures Valid()
      ensures disk.blocks == old(disk.blocks)[b.blockno := view[KeyOf(b)].data]
    {
      disk.Write(b.blockno, b.data);
    }

    method Bpin(b: Buf)
      requires Valid() && Cached(b)
      modifies this`view, b`refcnt
      ensures Valid() && Cached(b) && view == Pin(old(view), KeyOf(b))
    {
      SetRef(b, Inc(b.refcnt));
    }

    method Bunpin(b: Buf)
      requires Valid() && Cached(b)
      modifies this`view, b`refcnt
      ensures Valid() && Cached(b) && view == Drop(old(view), KeyOf(b))
    {
      SetRef(b, Dec(b.refcnt));
    }

    /** brelse(): the last user moves the buffer to the front; the others keep their order. */
    method Brelse(b: Buf)
      requires Valid() && Cached(b)
      modifies this`view, this`ring, this`moved, this`clock, b`refcnt, ring`prev, ring`next
      ensures Valid() && view == Drop(old(view), KeyOf(b)) && at == old(at)
      ensures (forall x :: x in ring <==> x in old(ring)) && b.refcnt == Dec(old(b.refcnt))
      ensures b.refcnt != 0 ==> ring == old(ring) && moved == old(moved) && clock == old(clock)
      ensures b.refcnt == 0 ==>
                ring == Moved(old(ring), b) && moved == old(moved)[b := old(clock)] && clock == old(clock) + 1
    {
      SetRef(b, Dec(b.refcnt));
      if b.refcnt == 0 {
        MoveToFront(b);
      }
    }

    method Relink(b: Buf)
      requires Linked(ring) && ring[0] == head && ByRecency(ring, moved, clock) && b in ring && b != head
      modifies this`ring, this`moved, this`clock, ring`prev, ring`next
      ensures Linked(ring) && ring[0] == head && ByRecency(ring, moved, clock) && ring == Moved(old(ring), b)
      ensures moved == old(moved)[b := old(clock)] && clock == old(clock) + 1
    {
      ghost var r, k := ring, Position(ring, b);
      RecencyAfterUnlink(r, moved, clock, k);
      NotIn(r, k);
      Unlink(r, b, k);
      ring := r[..k] + r[k + 1..];
      ToFront(b);
    }

    method MoveToFront(b: Buf)
      requires Linked(ring) && ring[0] == head && ByRecency(ring, moved, clock) && b in ring && b != head
      requires Indexed(ring, at, view)
      modifies this`ring, this`moved, this`clock, ring`prev, ring`next
      ensures Linked(ring) && ring[0] == head && ByRecency(ring, moved, clock)
      ensures ring == Moved(old(ring), b) && |ring| == |old(ring)| && forall x :: x in ring <==> x in old(ring)
      ensures moved == old(moved)[b := old(clock)] && clock == old(clock) + 1
      ensures Indexed(ring, at, view)
    {
      SameMembers(ring, b);
      ghost var r' := Moved(ring, b);
      IndexedSame(ring, r', at, view);
      Relink(b);
      forall k ensures KeyOk(r', at, view, k) { assert old(KeyOk(r', at, view, k)); }
      forall c | c in r' ensures BufOk(at, c) { assert old(BufOk(at, c)); }
    }
  }

  lemma FilledMiss(c: Cache<Key>, k: Key, junk: Block, block: Block)
    ensures Filled(Miss(c, k, junk), k, block) == c[k := Entry(true, block, 1)]
  {
  }

  lemma NotIn(r: seq<Buf>, k: nat)
    requires Linked(r) && k < |r|
    ensures r[k] !in r[..k] + r[k + 1..]
  {
    LinksOf(r);
  }

  lemma IndexedSame(r: seq<Buf>, r': seq<Buf>, at: map<Key, Buf>, view: Cache<Key>)
    requires Indexed(r, at, view) && forall c :: c in r' <==> c in r
    ensures Indexed(r', at, view)
  {
    IndexOf(r, at, view);
  }

  lemma RecencyAfterUnlink(r: seq<Buf>, moved: map<Buf, nat>, clock: nat, k: nat)
    requires ByRecency(r, moved, clock) && 1 <= k < |r|
    ensures ByRecency(r[..k] + r[k + 1..], moved, clock)
  {
    var r' := r[..k] + r[k + 1..];
    assert forall i :: 0 <= i < |r'| ==> r'[i] == if i < k then r[i] else r[i + 1];
  }

  lemma SameMembers(r: seq<Buf>, b: Buf)
    requires b in r && Position(r, b) >= 1
    ensures |Moved(r, b)| == |r|
    ensures forall c :: c in Moved(r, b) <==> c in r
  {
    var k, r' := Position(r, b), Moved(r, b);
    assert forall i :: 0 <= i < |r'| ==>
      r'[i] == if i == 0 then r[0] else if i == 1 then b else if i <= k then r[i - 1] else r[i];
    forall c | c in r
      ensures c in r'
    {
      var i :| 0 <= i < |r| && r[i] == c;
      assert r'[if i == 0 then 0 else if i == k then 1 else if i < k then i + 1 else i] == c;
    }
  }
}
