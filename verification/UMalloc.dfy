/** user/umalloc.c: the Kernighan and Ritchie allocator.  `mem` holds the headers, `freep`
    where the next search starts; the free list is a cycle through the headers. */
module UMalloc {
  import opened FreeList

  datatype Header = Header(ptr: int, size: nat)
  datatype Option<T> = None | Some(value: T)

  function NextAddr(fl: seq<Blk>, i: nat): int
    requires i < |fl|
  {
    if i + 1 < |fl| then fl[i + 1].addr else fl[0].addr
  }

  predicate HeaderAt(mem: map<int, Header>, fl: seq<Blk>, i: nat)
    requires i < |fl|
  {
    Has(mem, fl[i].addr, NextAddr(fl, i), fl[i].size)
  }

  predicate Has(mem: map<int, Header>, a: int, ptr: int, size: nat) {
    a in mem && mem[a] == Header(ptr, size)
  }

  /** The headers in memory are the list, closed into a cycle. */
  ghost predicate Represents(mem: map<int, Header>, fl: seq<Blk>) {
    forall i: nat {:trigger HeaderAt(mem, fl, i)} :: i < |fl| ==> HeaderAt(mem, fl, i)
  }

  predicate LiveAt(base: int, mem: map<int, Header>, live: map<int, nat>, a: int)
  {
    a in live ==> base < a && live[a] > 0 && a in mem && mem[a].size == live[a]
  }

  predicate LiveApart(live: map<int, nat>, a: int, b: int) {
    a in live && b in live && a < b ==> a + live[a] <= b
  }

  /** Unit u belongs to an allocated block. */
  ghost predicate LiveCovers(live: map<int, nat>, u: int) {
    exists a :: a in live && Blk(a, live[a]).Has(u)
  }

  ghost predicate LiveOk(base: int, mem: map<int, Header>, live: map<int, nat>) {
    && (forall a {:trigger LiveAt(base, mem, live, a)} :: LiveAt(base, mem, live, a))
    && (forall a, b {:trigger LiveApart(live, a, b)} :: LiveApart(live, a, b))
  }

  /** Every unit obtained from sbrk() is either free or allocated, never both. */
  ghost predicate UnitOk(fl: seq<Blk>, live: map<int, nat>, arena: iset<int>, u: int) {
    && (u in arena <==> Covers(fl, u) || LiveCovers(live, u))
    && !(Covers(fl, u) && LiveCovers(live, u))
  }

  ghost predicate Conserved(fl: seq<Blk>, live: map<int, nat>, arena: iset<int>) {
    forall u {:trigger UnitOk(fl, live, arena, u)} :: UnitOk(fl, live, arena, u)
  }

  /** The predecessor of address a in the list. */
  predicate Before(fl: seq<Blk>, t: nat, a: int) {
    t < |fl| && fl[t].addr < a && (t + 1 < |fl| ==> a < fl[t + 1].addr)
  }

  lemma {:induction false} FindBefore(base: int, fl: seq<Blk>, a: int, n: nat) returns (t: nat)
    requires IsFreeList(base, fl) && base < a && 1 <= n <= |fl|
    requires forall i :: 0 <= i < |fl| ==> fl[i].addr != a
    requires n < |fl| ==> a < fl[n].addr
    ensures Before(fl, t, a)
    decreases n
  {
    if fl[n - 1].addr < a { t := n - 1; } else { t := FindBefore(base, fl, a, n - 1); }
  }

  /** A live block lies in the gap behind its predecessor. */
  lemma LiveFits(base: int, mem: map<int, Header>, fl: seq<Blk>, live: map<int, nat>, arena: iset<int>, a: int)
      returns (t: nat)
    requires IsFreeList(base, fl) && LiveOk(base, mem, live) && Conserved(fl, live, arena) && a in live
    ensures Before(fl, t, a) && FitsAfter(fl, t, Blk(a, live[a]))
  {
    var b := Blk(a, live[a]);
    assert LiveAt(base, mem, live, a);
    forall u | b.Has(u)
      ensures !Covers(fl, u)
    {
      assert UnitOk(fl, live, arena, u);
      assert a in live && Blk(a, live[a]).Has(u);
    }
    assert b.Has(a);
    forall i | 0 <= i < |fl|
      ensures fl[i].addr != a
    {
      assert fl[i].Has(a) ==> Covers(fl, a);
    }
    t := FindBefore(base, fl, a, |fl|);
    assert fl[t].Has(a) ==> Covers(fl, a);
    if t + 1 < |fl| {
      var n := fl[t + 1].addr;
      assert fl[t + 1].Has(n);
      assert Covers(fl, n);
    }
  }

  /** What free() writes once the place p has been found. */
  function Relink(mem: map<int, Header>, p: int, bp: int): map<int, Header>
    requires p in mem && bp in mem && mem[p].ptr in mem
  {
    var n := mem[p].ptr;
    var h := if bp + mem[bp].size == n then Header(mem[n].ptr, mem[bp].size + mem[n].size)
             else Header(n, mem[bp].size);
    var mem' := mem[bp := h];
    mem'[p := if p + mem[p].size == bp then Header(h.ptr, mem[p].size + h.size)
              else Header(bp, mem[p].size)]
  }

  /** The addresses of a free list are different, and different from a block in a gap. */
  predicate Different(fl: seq<Blk>, t: nat, a: int)
    requires t < |fl|
  {
    forall k :: 0 <= k < |fl| ==> fl[k].addr != a && (k != t ==> fl[k].addr != fl[t].addr)
  }

  lemma RelinkInserts(base: int, mem: map<int, Header>, fl: seq<Blk>, t: nat, b: Blk)
    requires IsFreeList(base, fl) && Represents(mem, fl) && Before(fl, t, b.addr) && FitsAfter(fl, t, b)
    requires b.addr in mem && mem[b.addr].size == b.size
    ensures Has(mem, fl[t].addr, NextAddr(fl, t), fl[t].size) && NextAddr(fl, t) in mem
    ensures Represents(Relink(mem, fl[t].addr, b.addr), Insert(fl, t, b))
  {
    var n := if t + 1 < |fl| then t + 1 else 0;
    assert HeaderAt(mem, fl, t) && HeaderAt(mem, fl, n);
    var r := Insert(fl, t, b);
    var mem' := Relink(mem, fl[t].addr, b.addr);
    assert Different(fl, t, b.addr);
    InsertAt(fl, t, b);
    forall k: nat | k < |r|
      ensures HeaderAt(mem', r, k)
    {
      if k < t { RelinkBelow(mem, fl, t, b, k); }
      else if k <= (if JoinsDown(fl, t, b) then t else t + 1) { RelinkHere(mem, fl, t, b, k); }
      else { RelinkAbove(mem, fl, t, b, k); }
    }
  }

  lemma RelinkBelow(mem: map<int, Header>, fl: seq<Blk>, t: nat, b: Blk, k: nat)
    requires k < t < |fl| && Represents(mem, fl) && Different(fl, t, b.addr)
    requires HeaderAt(mem, fl, t) && b.addr in mem && NextAddr(fl, t) in mem
    requires k < |Insert(fl, t, b)|
    ensures HeaderAt(Relink(mem, fl[t].addr, b.addr), Insert(fl, t, b), k)
  {
    InsertAt(fl, t, b);
    assert HeaderAt(mem, fl, k);
  }

  lemma RelinkHere(mem: map<int, Header>, fl: seq<Blk>, t: nat, b: Blk, k: nat)
    requires t < |fl| && Different(fl, t, b.addr) && b.addr in mem && mem[b.addr].size == b.size
    requires HeaderAt(mem, fl, t) && NextAddr(fl, t) in mem && (t + 1 < |fl| ==> HeaderAt(mem, fl, t + 1))
    requires b.End() != fl[0].addr && (JoinsDown(fl, t, b) ==> t > 0)
    requires t <= k < |Insert(fl, t, b)| && k <= if JoinsDown(fl, t, b) then t else t + 1
    ensures HeaderAt(Relink(mem, fl[t].addr, b.addr), Insert(fl, t, b), k)
  {
    InsertAt(fl, t, b);
  }

  lemma RelinkAbove(mem: map<int, Header>, fl: seq<Blk>, t: nat, b: Blk, k: nat)
    requires t < |fl| && Represents(mem, fl) && Different(fl, t, b.addr)
    requires HeaderAt(mem, fl, t) && b.addr in mem && NextAddr(fl, t) in mem
    requires k < |Insert(fl, t, b)| && k > (if JoinsDown(fl, t, b) then t else t + 1)
    requires JoinsDown(fl, t, b) ==> t > 0
    ensures HeaderAt(Relink(mem, fl[t].addr, b.addr), Insert(fl, t, b), k)
  {
    InsertAt(fl, t, b);
    var m := if JoinsDown(fl, t, b) then t else t + 1;
    var j := k - m - 1 + t + if JoinsUp(fl, t, b) then 2 else 1;
    assert HeaderAt(mem, fl, j);
  }

  // ---- conservation -------------------------------------------------------------------------

  lemma LiveRemove(base: int, mem: map<int, Header>, live: map<int, nat>, a: int, u: int)
    requires LiveOk(base, mem, live) && a in live
    ensures LiveCovers(live, u) <==> LiveCovers(live - {a}, u) || Blk(a, live[a]).Has(u)
    ensures !(LiveCovers(live - {a}, u) && Blk(a, live[a]).Has(u))
  {
    if LiveCovers(live - {a}, u) {
      var c :| c in live - {a} && Blk(c, (live - {a})[c]).Has(u);
      assert c in live && Blk(c, live[c]).Has(u);
      assert LiveApart(live, a, c) && LiveApart(live, c, a);
    }
    if LiveCovers(live, u) && !Blk(a, live[a]).Has(u) {
      var c :| c in live && Blk(c, live[c]).Has(u);
      assert c in live - {a} && Blk(c, (live - {a})[c]).Has(u);
    }
  }

  lemma LiveSelf(base: int, mem: map<int, Header>, live: map<int, nat>, a: int)
    requires LiveOk(base, mem, live)
    ensures a in live ==> LiveCovers(live, a)
  {
    if a in live {
      assert LiveAt(base, mem, live, a);
      assert Blk(a, live[a]).Has(a);
    }
  }

  lemma FreeConserves(base: int, mem: map<int, Header>, fl: seq<Blk>, live: map<int, nat>, arena: iset<int>, t: nat,
                      a: int)
    requires LiveOk(base, mem, live) && Conserved(fl, live, arena) && a in live && FitsAfter(fl, t, Blk(a, live[a]))
    ensures Conserved(Insert(fl, t, Blk(a, live[a])), live - {a}, arena)
  {
    var b := Blk(a, live[a]);
    forall u
      ensures UnitOk(Insert(fl, t, b), live - {a}, arena, u)
    {
      assert UnitOk(fl, live, arena, u);
      InsertUnits(fl, t, b, u);
      LiveRemove(base, mem, live, a, u);
    }
  }

  lemma LiveAdd(live: map<int, nat>, a: int, n: nat, u: int)
    requires a !in live
    ensures LiveCovers(live[a := n], u) <==> LiveCovers(live, u) || Blk(a, n).Has(u)
  {
    if LiveCovers(live, u) {
      var c :| c in live && Blk(c, live[c]).Has(u);
      assert c in live[a := n] && Blk(c, live[a := n][c]).Has(u);
    }
    assert Blk(a, n).Has(u) ==> a in live[a := n] && Blk(a, live[a := n][a]).Has(u);
  }

  /** A new block in units that nobody had is apart from every other. */
  lemma AddKeepsApart(base: int, mem: map<int, Header>, live: map<int, nat>, a: int, n: nat, h: Header)
    requires LiveOk(base, mem, live) && base < a && n > 0 && h.size == n && a !in live
    requires forall u :: Blk(a, n).Has(u) ==> !LiveCovers(live, u)
    ensures LiveOk(base, mem[a := h], live[a := n])
  {
    var live', mem' := live[a := n], mem[a := h];
    forall c
      ensures LiveAt(base, mem', live', c) && LiveApart(live', a, c) && LiveApart(live', c, a)
    {
      assert LiveAt(base, mem, live, c);
      if c in live {
        assert Blk(c, live[c]).Has(c);
        assert LiveCovers(live, c);
        assert Blk(a, n).Has(a);
        assert Blk(c, live[c]).Has(a) ==> LiveCovers(live, a);
      }
    }
    forall c, d
      ensures LiveApart(live', c, d)
    {
      assert LiveApart(live, c, d);
    }
  }

  lemma TakeConserves(base: int, mem: map<int, Header>, fl: seq<Blk>, live: map<int, nat>, arena: iset<int>, i: nat,
                      n: nat, h: Header)
    requires IsFreeList(base, fl) && LiveOk(base, mem, live) && Conserved(fl, live, arena)
    requires 0 < i < |fl| && 0 < n <= fl[i].size && h.size == n
    ensures var a := Taken(fl, i, n).addr;
            && a !in live
            && Conserved(Without(fl, i, n), live[a := n], arena)
            && LiveOk(base, mem[a := h], live[a := n])
  {
    var b := Taken(fl, i, n);
    WithoutKeeps(base, fl, i, n);
    forall u | b.Has(u)
      ensures !LiveCovers(live, u)
    {
      TakenUnits(base, fl, i, n, u);
      assert UnitOk(fl, live, arena, u);
    }
    assert b.Has(b.addr);
    LiveSelf(base, mem, live, b.addr);
    AddKeepsApart(base, mem, live, b.addr, n, h);
    var fl', live' := Without(fl, i, n), live[b.addr := n];
    forall u
      ensures UnitOk(fl', live', arena, u)
    {
      assert UnitOk(fl, live, arena, u);
      TakenUnits(base, fl, i, n, u);
      LiveAdd(live, b.addr, n, u);
    }
  }

  /** A fresh region from sbrk(): units nobody has, above base. */
  ghost predicate Fresh(base: int, arena: iset<int>, a: int, n: nat) {
    base < a && n > 0 && forall u :: Blk(a, n).Has(u) ==> u !in arena
  }

  /** What sbrk() promises: as many fresh units as its argument says, if that is positive. */
  ghost predicate Granted(base: int, arena: iset<int>, a: int, nu: nat) {
    SbrkArg(nu) > 0 ==> Fresh(base, arena, a, SbrkArg(nu) / HEADER_BYTES)
  }

  ghost function Grown(arena: iset<int>, a: int, n: nat): iset<int> {
    iset u | u in arena || Blk(a, n).Has(u)
  }

  lemma GrowConserves(base: int, mem: map<int, Header>, fl: seq<Blk>, live: map<int, nat>, arena: iset<int>, a: int,
                      n: nat, h: Header)
    requires LiveOk(base, mem, live) && Conserved(fl, live, arena) && Fresh(base, arena, a, n) && h.size == n
    ensures a !in live
    ensures Conserved(fl, live[a := n], Grown(arena, a, n)) && LiveOk(base, mem[a := h], live[a := n])
  {
    forall u | Blk(a, n).Has(u)
      ensures !LiveCovers(live, u) && !Covers(fl, u)
    {
      assert UnitOk(fl, live, arena, u);
    }
    assert Blk(a, n).Has(a);
    LiveSelf(base, mem, live, a);
    AddKeepsApart(base, mem, live, a, n, h);
    var live', arena' := live[a := n], Grown(arena, a, n);
    forall u
      ensures UnitOk(fl, live', arena', u)
    {
      assert UnitOk(fl, live, arena, u);
      LiveAdd(live, a, n, u);
    }
  }

  // ---- the code -----------------------------------------------------------------------------

  const HEADER_BYTES: nat := 16
  const MIN_UNITS: nat := 4096

  /** Units for a request: its bytes rounded up, and one header. */
  function UnitsFor(nbytes: nat): (n: nat)
    ensures nbytes <= (n - 1) * HEADER_BYTES < nbytes + HEADER_BYTES
  {
    (nbytes + HEADER_BYTES - 1) / HEADER_BYTES + 1
  }

  /** Units asked of sbrk(). */
  function Chunk(nu: nat): nat { if nu < MIN_UNITS then MIN_UNITS else nu }

  const WORD: nat := 0x1_0000_0000

  /** The argument sbrk() gets: the bytes of the chunk, cut to an int. */
  function SbrkArg(nu: nat): int {
    var n := Chunk(nu) * HEADER_BYTES % WORD;
    if n < WORD / 2 then n else n - WORD
  }

  /** sbrk() gives what morecore() then puts on the list. */
  predicate AsksRight(nu: nat) { SbrkArg(nu) == Chunk(nu) * HEADER_BYTES }

  /** That is so exactly below 2 GB, headers included. */
  lemma AsksRightIffBelow2GB(nbytes: nat)
    ensures AsksRight(UnitsFor(nbytes)) <==> nbytes <= 0x7fff_ffe0
  {
    var nu := UnitsFor(nbytes);
    assert Chunk(nu) * HEADER_BYTES < WORD / 2 <==> nu <= 0x7ff_ffff;
  }

  /** malloc(0xfffffff0) asks sbrk() for nothing and records 2^28 units. */
  lemma HugeAsksForNothing()
    ensures SbrkArg(UnitsFor(0xffff_fff0)) == 0 && Chunk(UnitsFor(0xffff_fff0)) == 0x1000_0000
  {
  }

  /** Position f + c on a cycle of n places. */
  function Wrap(f: nat, c: nat, n: nat): nat { if f + c < n then f + c else f + c - n }

  class Heap {
    const base: int
    var mem: map<int, Header>
    var freep: int                     // 0 before the first malloc()
    ghost var fl: seq<Blk>
    ghost var at: nat                  // freep is fl[at]
    ghost var live: map<int, nat>      // allocated blocks, by header address
    ghost var arena: iset<int>         // units obtained from sbrk()

    ghost predicate Valid()
      reads this
    {
      && 0 < base && IsFreeList(base, fl)
      && (freep == 0 ==> fl == [Blk(base, 0)])
      && (freep != 0 ==> Represents(mem, fl) && at < |fl| && fl[at].addr == freep)
      && LiveOk(base, mem, live)
      && Conserved(fl, live, arena)
    }

    constructor (base: int)
      requires 0 < base
      ensures Valid() && this.base == base && live == map[] && arena == iset{}
    {
      this.base := base;
      mem, freep, fl, at, live, arena := map[], 0, [Blk(base, 0)], 0, map[], iset{};
    }

    /** The search loop of free(): once around the cycle at most. */
    method Search(bp: int, ghost t: nat) returns (p: int)
      requires IsFreeList(base, fl) && Represents(mem, fl) && at < |fl| && fl[at].addr == freep
      requires Before(fl, t, bp)
      ensures p == fl[t].addr
    {
      p := freep;
      ghost var k := at;
      assert HeaderAt(mem, fl, k);
      while !(bp > p && bp < mem[p].ptr)
        invariant 0 <= k < |fl| && fl[k].addr == p && HeaderAt(mem, fl, k)
        decreases if k <= t then t - k else |fl| + t - k
      {
        if p >= mem[p].ptr && (bp > p || bp < mem[p].ptr) {
          break;
        }
        p := mem[p].ptr;
        k := if k + 1 < |fl| then k + 1 else 0;
        assert HeaderAt(mem, fl, k);
      }
    }

    /** The second half of free(): join bp with its neighbours or link it in. */
    method Splice(p: int, bp: int)
      requires p in mem && bp in mem && mem[p].ptr in mem && p != bp
      modifies this`mem
      ensures mem == Relink(old(mem), p, bp)
    {
      var n := mem[p].ptr;
      if bp + mem[bp].size == n {
        mem := mem[bp := Header(mem[n].ptr, mem[bp].size + mem[n].size)];
      } else {
        mem := mem[bp := Header(n, mem[bp].size)];
      }
      if p + mem[p].size == bp {
        mem := mem[p := Header(mem[bp].ptr, mem[p].size + mem[bp].size)];
      } else {
        mem := mem[p := Header(bp, mem[p].size)];
      }
    }

    /** free() */
    method Free(ap: int)
      requires Valid() && freep != 0 && ap - 1 in live
      modifies this
      ensures Valid() && freep != 0
      ensures live == old(live) - {ap - 1} && arena == old(arena)
      ensures at < |old(fl)| && fl == Insert(old(fl), at, Blk(ap - 1, old(live)[ap - 1]))
    {
      var bp := ap - 1;
      ghost var b := Blk(bp, live[bp]);
      ghost var t := LiveFits(base, mem, fl, live, arena, bp);
      var p := Search(bp, t);
      assert LiveAt(base, mem, live, bp);
      RelinkInserts(base, mem, fl, t, b);
      InsertKeeps(base, fl, t, b);
      FreeConserves(base, mem, fl, live, arena, t, bp);
      FreeKeepsLive(base, mem, fl, live, arena, t, bp);
      InsertAt(fl, t, b);
      Splice(p, bp);
      freep := p;
      fl := Insert(fl, t, b);
      at := t;
      live := live - {bp};
    }

    /** morecore(); `grant` is what sbrk() returns, None when it refuses. */
    method Morecore(nu: nat, grant: Option<int>) returns (p: int)
      requires Valid() && freep != 0 && (AsksRight(nu) || grant.None?)
      requires grant.Some? ==> Granted(base, arena, grant.value, nu)
      modifies this
      ensures Valid() && freep != 0 && live == old(live)
      ensures grant.None? ==> p == 0 && fl == old(fl) && at == old(at) && freep == old(freep) && arena == old(arena)
      ensures grant.Some? ==>
                && p == freep && arena == Grown(old(arena), grant.value, Chunk(nu))
                && !AllSmall(fl, nu)
    {
      if grant.None? {
        return 0;
      }
      var hp, n := grant.value, Chunk(nu);
      GrowConserves(base, mem, fl, live, arena, hp, n, Header(0, n));
      GrowKeepsList(base, mem, fl, live, arena, hp, n);
      mem := mem[hp := Header(0, n)];
      live := live[hp := n];
      arena := Grown(arena, hp, n);
      ghost var was := fl;
      Free(hp + 1);
      InsertAt(was, at, Blk(hp, n));
      assert fl[if JoinsDown(was, at, Blk(hp, n)) then at else at + 1].size >= nu;
      assert old(live)[hp := n] - {hp} == old(live);
      return freep;
    }

    /** malloc() when block p, found behind prevp, is large enough. */
    method Detach(prevp: int, pp: int, nunits: nat, ghost i: nat) returns (p: int)
      requires Valid() && freep != 0 && 0 < i < |fl| && 0 < nunits <= fl[i].size
      requires prevp == fl[i - 1].addr && pp == fl[i].addr
      modifies this
      ensures Valid() && freep != 0 && arena == old(arena)
      ensures p == Taken(old(fl), i, nunits).addr && p !in old(live) && live == old(live)[p := nunits]
      ensures fl == Without(old(fl), i, nunits)
    {
      p := pp;
      assert HeaderAt(mem, fl, i) && HeaderAt(mem, fl, i - 1);
      ghost var a := Taken(fl, i, nunits).addr;
      ghost var h := Header(if a in mem then mem[a].ptr else 0, nunits);
      WithoutKeeps(base, fl, i, nunits);
      TakeConserves(base, mem, fl, live, arena, i, nunits, h);
      DetachKeeps(base, mem, fl, i, nunits, h);
      DetachKeepsLive(base, mem, fl, live, arena, i, nunits, h);
      if mem[p].size == nunits {
        mem := mem[prevp := Header(mem[p].ptr, mem[prevp].size)];
      } else {
        mem := mem[p := Header(mem[p].ptr, mem[p].size - nunits)];
        p := p + mem[p].size;
        mem := mem[p := Header(if p in mem then mem[p].ptr else 0, nunits)];
      }
      assert mem == Detached(old(mem), fl, i, nunits, h);
      freep := prevp;
      at := i - 1;
      fl := Without(fl, i, nunits);
      live := live[p := nunits];
    }

    /** The first call makes `base` a list of its own. */
    method Init()
      requires Valid()
      modifies this`mem, this`freep, this`at
      ensures Valid() && freep != 0
    {
      if freep == 0 {
        InitKeepsLive(base, mem, live);
        mem := mem[base := Header(base, 0)];
        freep := base;
        at := 0;
      }
    }

    /** The search loop of malloc(), from behind freep once around to freep itself. */
    method FirstFit(nunits: nat) returns (found: bool, prevp: int, p: int, ghost i: nat, ghost c: nat)
      requires IsFreeList(base, fl) && Represents(mem, fl) && at < |fl| && fl[at].addr == freep
      ensures !found ==> AllSmall(fl, nunits)
      ensures found && nunits > 0 ==>
                0 < i < |fl| && fl[i].size >= nunits && p == fl[i].addr && prevp == fl[i - 1].addr
      ensures found ==> 1 <= c <= |fl| && i == Wrap(at, c, |fl|) && SmallBehind(fl, at, c - 1, nunits)
    {
      prevp := freep;
      GoOn(mem, fl, at, 0);
      p := mem[prevp].ptr;
      c := 1;                                  // p is c places behind freep
      while true
        invariant 1 <= c <= |fl| && p == fl[Wrap(at, c, |fl|)].addr && prevp == fl[Wrap(at, c - 1, |fl|)].addr
        invariant SmallBehind(fl, at, c - 1, nunits)
        decreases |fl| - c
      {
        i := Wrap(at, c, |fl|);
        assert HeaderAt(mem, fl, i);
        if mem[p].size >= nunits {
          return true, prevp, p, i, c;
        }
        assert SmallBehind(fl, at, c, nunits);
        if p == freep {
          AllSeen(base, fl, at, c, nunits);
          return false, prevp, p, i, c;
        }
        assert c == |fl| ==> i == at;
        GoOn(mem, fl, at, c);
        prevp := p;
        p := mem[p].ptr;
        c := c + 1;
      }
    }

    /** malloc(); 0 when sbrk() refuses.  `grant` is what sbrk() would return if asked.  After
        morecore() the search goes on behind the new freep; there is no second refusal.  `ok` is false
        exactly if morecore() would hand free() more than sbrk() gave. */
    method Malloc(nbytes: nat, grant: Option<int>) returns (ok: bool, ap: int)
      requires Valid() && nbytes < WORD
      requires grant.Some? ==> Granted(base, arena, grant.value, UnitsFor(nbytes))
      modifies this
      ensures ok <==> nbytes <= 0x7fff_ffe0 || grant.None? || !AllSmall(old(fl), UnitsFor(nbytes))
      ensures Valid() && (!ok ==> ap == 0 && live == old(live) && arena == old(arena) && fl == old(fl))
      ensures ok && ap == 0 ==>
                && grant.None? && live == old(live) && arena == old(arena) && fl == old(fl)
                && AllSmall(fl, UnitsFor(nbytes))
      ensures ap != 0 ==>
                && ap - 1 !in old(live) && live == old(live)[ap - 1 := UnitsFor(nbytes)]
                && arena == (if AllSmall(old(fl), UnitsFor(nbytes)) && grant.Some?
                             then Grown(old(arena), grant.value, Chunk(UnitsFor(nbytes)))
                             else old(arena))
    {
      var nunits := UnitsFor(nbytes);
      AsksRightIffBelow2GB(nbytes);
      ok := true;
      Init();
      ghost var asked := false;
      while true
        invariant Valid() && freep != 0 && live == old(live)
        invariant ok && (!asked ==> fl == old(fl) && arena == old(arena))
        invariant asked ==> grant.Some? && arena == Grown(old(arena), grant.value, Chunk(nunits))
        invariant asked ==> !AllSmall(fl, nunits) && AllSmall(old(fl), nunits) && AsksRight(nunits)
        decreases if asked then 0 else 1
      {
        ghost var i, c;
        var found, prevp, p;
        found, prevp, p, i, c := FirstFit(nunits);
        if found {
          p := Detach(prevp, p, nunits, i);
          return true, p + 1;
        }
        if grant.Some? && !AsksRight(nunits) {
          return false, 0;
        }
        p := Morecore(nunits, grant);
        if p == 0 {
          return true, 0;
        }
        asked := true;
      }
    }
  }

  predicate AllSmall(fl: seq<Blk>, n: nat) { forall i :: 0 <= i < |fl| ==> fl[i].size < n }

  /** The c blocks behind fl[at], going around the cycle, are too small. */
  predicate SmallBehind(fl: seq<Blk>, at: nat, c: nat, n: nat)
    requires at < |fl| && c <= |fl|
  {
    forall j :: 1 <= j <= c ==> fl[Wrap(at, j, |fl|)].size < n
  }

  /** Back at freep, every block has been looked at. */
  lemma AllSeen(base: int, fl: seq<Blk>, at: nat, c: nat, n: nat)
    requires IsFreeList(base, fl) && at < |fl| && 1 <= c <= |fl|
    requires fl[Wrap(at, c, |fl|)].addr == fl[at].addr && SmallBehind(fl, at, c, n)
    ensures c == |fl| && AllSmall(fl, n)
  {
    assert Wrap(at, c, |fl|) == at;
    forall i | 0 <= i < |fl|
      ensures fl[i].size < n
    {
      var j := if at < i then i - at else i - at + |fl|;
      assert Wrap(at, j, |fl|) == i;
    }
  }

  lemma GoOn(mem: map<int, Header>, fl: seq<Blk>, at: nat, c: nat)
    requires Represents(mem, fl) && at < |fl| && c < |fl|
    ensures var p := fl[Wrap(at, c, |fl|)].addr;
            p in mem && mem[p].ptr == fl[Wrap(at, c + 1, |fl|)].addr
  {
    assert HeaderAt(mem, fl, Wrap(at, c, |fl|));
  }

  lemma InitKeepsLive(base: int, mem: map<int, Header>, live: map<int, nat>)
    requires LiveOk(base, mem, live)
    ensures LiveOk(base, mem[base := Header(base, 0)], live)
  {
    var mem' := mem[base := Header(base, 0)];
    forall a
      ensures LiveAt(base, mem', live, a)
    {
      assert LiveAt(base, mem, live, a);
    }
  }

  /** The headers after malloc() has taken n units from fl[i]. */
  function Detached(mem: map<int, Header>, fl: seq<Blk>, i: nat, n: nat, h: Header): map<int, Header>
    requires 0 < i < |fl| && n <= fl[i].size
  {
    if fl[i].size == n then mem[fl[i - 1].addr := Header(NextAddr(fl, i), fl[i - 1].size)]
    else mem[fl[i].addr := Header(NextAddr(fl, i), fl[i].size - n)][Taken(fl, i, n).addr := h]
  }

  lemma DetachKeeps(base: int, mem: map<int, Header>, fl: seq<Blk>, i: nat, n: nat, h: Header)
    requires IsFreeList(base, fl) && Represents(mem, fl) && 0 < i < |fl| && 0 < n <= fl[i].size
    ensures Represents(Detached(mem, fl, i, n, h), Without(fl, i, n))
  {
    var mem', r := Detached(mem, fl, i, n, h), Without(fl, i, n);
    var a := Taken(fl, i, n).addr;
    forall k: nat | k < |r|
      ensures HeaderAt(mem', r, k)
    {
      var j := if fl[i].size == n && k >= i then k + 1 else k;
      assert HeaderAt(mem, fl, j);
      assert r[0].addr == fl[0].addr && r[k].addr == fl[j].addr;
      assert fl[i].size != n ==> fl[j].addr != a;
    }
  }

  lemma DetachKeepsLive(base: int, mem: map<int, Header>, fl: seq<Blk>, live: map<int, nat>, arena: iset<int>, i: nat,
                        n: nat, h: Header)
    requires IsFreeList(base, fl) && Represents(mem, fl) && Conserved(fl, live, arena) && LiveOk(base, mem, live)
    requires 0 < i < |fl| && 0 < n <= fl[i].size && h.size == n
    requires LiveOk(base, mem[Taken(fl, i, n).addr := h], live[Taken(fl, i, n).addr := n])
    ensures LiveOk(base, Detached(mem, fl, i, n, h), live[Taken(fl, i, n).addr := n])
  {
    var a := Taken(fl, i, n).addr;
    var mem', live' := Detached(mem, fl, i, n, h), live[a := n];
    assert HeaderAt(mem, fl, i);
    ListNotLive(base, mem, fl, live, arena, i);
    ListNotLive(base, mem, fl, live, arena, i - 1);
    forall c
      ensures LiveAt(base, mem', live', c)
    {
      assert LiveAt(base, mem[a := h], live', c);
    }
  }

  lemma ListNotLive(base: int, mem: map<int, Header>, fl: seq<Blk>, live: map<int, nat>, arena: iset<int>, k: nat)
    requires IsFreeList(base, fl) && Conserved(fl, live, arena) && LiveOk(base, mem, live) && k < |fl|
    ensures fl[k].addr !in live
  {
    var p := fl[k].addr;
    LiveSelf(base, mem, live, p);
    assert LiveAt(base, mem, live, p);
    assert UnitOk(fl, live, arena, p);
    assert k > 0 ==> fl[k].Has(p);
  }

  /** A header written into a fresh region does not disturb the list. */
  lemma GrowKeepsList(base: int, mem: map<int, Header>, fl: seq<Blk>, live: map<int, nat>, arena: iset<int>, a: int,
                      n: nat)
    requires IsFreeList(base, fl) && Represents(mem, fl) && Conserved(fl, live, arena) && Fresh(base, arena, a, n)
    ensures Represents(mem[a := Header(0, n)], fl)
  {
    var mem' := mem[a := Header(0, n)];
    assert Blk(a, n).Has(a);
    assert UnitOk(fl, live, arena, a);
    forall i: nat | i < |fl|
      ensures HeaderAt(mem', fl, i)
    {
      assert HeaderAt(mem, fl, i);
      assert fl[i].Has(a) ==> Covers(fl, a);
    }
  }

  lemma FreeKeepsLive(base: int, mem: map<int, Header>, fl: seq<Blk>, live: map<int, nat>, arena: iset<int>, t: nat,
                      a: int)
    requires IsFreeList(base, fl) && Represents(mem, fl) && LiveOk(base, mem, live) && Conserved(fl, live, arena)
    requires a in live && a in mem && t < |fl| && fl[t].addr in mem && mem[fl[t].addr].ptr in mem
    ensures LiveOk(base, Relink(mem, fl[t].addr, a), live - {a})
  {
    var p := fl[t].addr;
    var mem', live' := Relink(mem, p, a), live - {a};
    ListNotLive(base, mem, fl, live, arena, t);
    forall c
      ensures LiveAt(base, mem', live', c)
    {
      assert LiveAt(base, mem, live, c);
    }
    forall c, d
      ensures LiveApart(live', c, d)
    {
      assert LiveApart(live, c, d);
    }
  }
}
