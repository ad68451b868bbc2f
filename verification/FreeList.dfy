/** The free list of user/umalloc.c as a value: blocks in address order, none overlapping or
    touching, the zero-sized `base` first.  Addresses count header-sized units. */
module FreeList {

  datatype Blk = Blk(addr: int, size: nat) {
    function End(): int { addr + size }
    predicate Has(u: int) { addr <= u < addr + size }
  }

  /** Unit u belongs to some block of the list. */
  ghost predicate Covers(fl: seq<Blk>, u: int) {
    exists i :: 0 <= i < |fl| && fl[i].Has(u)
  }

  /** Strictly apart, so that no two free blocks could be joined. */
  predicate Separate(fl: seq<Blk>) {
    forall i, j :: 0 <= i < j < |fl| ==> fl[i].End() < fl[j].addr
  }

  predicate IsFreeList(base: int, fl: seq<Blk>) {
    && |fl| >= 1 && fl[0] == Blk(base, 0)
    && (forall i :: 1 <= i < |fl| ==> fl[i].size > 0)
    && Separate(fl)
  }

  // ---- free() ---------------------------------------------------------------------------

  /** b fits between fl[i] and its successor. */
  predicate FitsAfter(fl: seq<Blk>, i: nat, b: Blk) {
    && i < |fl| && b.size > 0 && fl[i].End() <= b.addr && fl[i].addr < b.addr
    && (i + 1 < |fl| ==> b.End() <= fl[i + 1].addr)
  }

  predicate JoinsUp(fl: seq<Blk>, i: nat, b: Blk) { i + 1 < |fl| && b.End() == fl[i + 1].addr }

  predicate JoinsDown(fl: seq<Blk>, i: nat, b: Blk) { i < |fl| && fl[i].End() == b.addr }

  /** Insert b after fl[i], joining it with either neighbour it touches. */
  function Insert(fl: seq<Blk>, i: nat, b: Blk): seq<Blk>
    requires i < |fl|
  {
    var up := JoinsUp(fl, i, b);
    var mid := Blk(b.addr, b.size + if up then fl[i + 1].size else 0);
    var rest := if up then fl[i + 2..] else fl[i + 1..];
    if JoinsDown(fl, i, b) then
      fl[..i] + [Blk(fl[i].addr, fl[i].size + mid.size)] + rest
    else
      fl[..i] + [fl[i], mid] + rest
  }

  /** Insert(), index by index: i blocks as before, then the inserted one, then the rest. */
  lemma InsertAt(fl: seq<Blk>, i: nat, b: Blk)
    requires i < |fl|
    ensures var r, up := Insert(fl, i, b), JoinsUp(fl, i, b);
            var size := b.size + if up then fl[i + 1].size else 0;
            var m := if JoinsDown(fl, i, b) then i else i + 1;
            var j := i + if up then 2 else 1;
            && |r| == m + 1 + |fl| - j
            && (forall k :: 0 <= k < i ==> r[k] == fl[k])
            && (if m == i then r[i] == Blk(fl[i].addr, fl[i].size + size)
                else r[i] == fl[i] && r[m] == Blk(b.addr, size))
            && (forall k :: m < k < |r| ==> r[k] == fl[k - m - 1 + j])
  {
  }

  /** Freeing keeps the list a list of separate blocks. */
  lemma InsertKeeps(base: int, fl: seq<Blk>, i: nat, b: Blk)
    requires IsFreeList(base, fl) && FitsAfter(fl, i, b)
    ensures IsFreeList(base, Insert(fl, i, b))
  {
    var r := Insert(fl, i, b);
    InsertAt(fl, i, b);
    forall x, y | 0 <= x < y < |r| ensures r[x].End() < r[y].addr { InsertPair(base, fl, i, b, x, y); }
    forall x | 1 <= x < |r| ensures r[x].size > 0 { InsertAt(fl, i, b); }
  }

  lemma InsertPair(base: int, fl: seq<Blk>, i: nat, b: Blk, x: nat, y: nat)
    requires IsFreeList(base, fl) && FitsAfter(fl, i, b) && x < y < |Insert(fl, i, b)|
    ensures Insert(fl, i, b)[x].End() < Insert(fl, i, b)[y].addr
  {
    InsertAt(fl, i, b);
    var m := if JoinsDown(fl, i, b) then i else i + 1;
    var j := i + if JoinsUp(fl, i, b) then 2 else 1;
    var fx := if x <= i then x else if x == m then j - 1 else x - m - 1 + j;
          // the last block that ends where r[x] does
    var fy := if y <= i then y else if y == m then i else y - m - 1 + j;
    assert y > m ==> fy >= j;
    assert fx < fy ==> fl[fx].End() < fl[fy].addr;
  }

  /** Freeing adds exactly the units of the freed block. */
  lemma InsertUnits(fl: seq<Blk>, i: nat, b: Blk, u: int)
    requires FitsAfter(fl, i, b)
    ensures Covers(Insert(fl, i, b), u) <==> Covers(fl, u) || b.Has(u)
  {
    var r := Insert(fl, i, b);
    var up, down := JoinsUp(fl, i, b), JoinsDown(fl, i, b);
    var m := if down then i else i + 1;          // where b's units are in r
    if b.Has(u) { assert r[m].Has(u); }
    if Covers(fl, u) {
      var j :| 0 <= j < |fl| && fl[j].Has(u);
      var k := if j <= i then j else if up && j == i + 1 then m
               else m + 1 + (j - i - if up then 2 else 1);
      assert r[k].Has(u);
    }
    if Covers(r, u) && !b.Has(u) {
      var k :| 0 <= k < |r| && r[k].Has(u);
      if k > m {
        assert fl[k - m - 1 + i + if up then 2 else 1].Has(u);
      } else if k < m {
        assert fl[k].Has(u);
      } else if u < b.addr {
        assert fl[i].Has(u);
      } else {
        assert fl[i + 1].Has(u);
      }
    }
  }

  // ---- malloc() ---------------------------------------------------------------------------

  /** What is left after n units are taken from fl[i]: the whole block goes, or its tail end. */
  function Without(fl: seq<Blk>, i: nat, n: nat): seq<Blk>
    requires i < |fl| && n <= fl[i].size
  {
    if fl[i].size == n then fl[..i] + fl[i + 1..] else fl[i := Blk(fl[i].addr, fl[i].size - n)]
  }

  /** The units that are taken. */
  function Taken(fl: seq<Blk>, i: nat, n: nat): Blk
    requires i < |fl| && n <= fl[i].size
  {
    Blk(fl[i].addr + fl[i].size - n, n)
  }

  lemma WithoutKeeps(base: int, fl: seq<Blk>, i: nat, n: nat)
    requires IsFreeList(base, fl) && 0 < i < |fl| && 0 < n <= fl[i].size
    ensures IsFreeList(base, Without(fl, i, n)) && base < Taken(fl, i, n).addr
  {
  }

  /** The units taken were free and are not free any more; nothing else changes. */
  lemma TakenUnits(base: int, fl: seq<Blk>, i: nat, n: nat, u: int)
    requires IsFreeList(base, fl) && 0 < i < |fl| && 0 < n <= fl[i].size
    ensures Covers(Without(fl, i, n), u) <==> Covers(fl, u) && !Taken(fl, i, n).Has(u)
    ensures Taken(fl, i, n).Has(u) ==> Covers(fl, u)
  {
    if Taken(fl, i, n).Has(u) { assert fl[i].Has(u); }
    if Covers(fl, u) && !Taken(fl, i, n).Has(u) {
      var j :| 0 <= j < |fl| && fl[j].Has(u);
      StillThere(fl, i, n, u, j);
    }
    if Covers(Without(fl, i, n), u) {
      var k :| 0 <= k < |Without(fl, i, n)| && Without(fl, i, n)[k].Has(u);
      WasThere(base, fl, i, n, u, k);
    }
  }

  lemma StillThere(fl: seq<Blk>, i: nat, n: nat, u: int, j: nat)
    requires i < |fl| && 0 < n <= fl[i].size && j < |fl| && fl[j].Has(u) && !Taken(fl, i, n).Has(u)
    ensures Covers(Without(fl, i, n), u)
  {
    assert Without(fl, i, n)[if fl[i].size == n && j > i then j - 1 else j].Has(u);
  }

  lemma WasThere(base: int, fl: seq<Blk>, i: nat, n: nat, u: int, k: nat)
    requires IsFreeList(base, fl) && 0 < i < |fl| && 0 < n <= fl[i].size && k < |Without(fl, i, n)|
             && Without(fl, i, n)[k].Has(u)
    ensures Covers(fl, u) && !Taken(fl, i, n).Has(u)
  {
    var j := if fl[i].size == n && k >= i then k + 1 else k;
    assert fl[j].Has(u);
    assert j < i ==> fl[j].End() < fl[i].addr;
    assert i < j ==> fl[i].End() < fl[j].addr;
  }
}
