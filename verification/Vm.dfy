/** kernel/vm.c and the page-table part of kernel/proc.c. */
module Vm {
  import opened Finite
  import opened Kalloc
  import opened VmTree

  function Set(s: seq<nat>): set<nat> { set p | p in s }

  /** The free pages and the table pages have nothing in common. */
  ghost predicate Apart(tab: Tables, free: seq<nat>) { forall n :: n in tab ==> tab[n] !in free }

  /** Nothing outside the free pages and the given ones has changed. */
  ghost predicate OnlyThese(m0: seq<Page>, m1: seq<Page>, these: set<nat>, free: seq<nat>) {
    |m0| == |m1| && forall q :: 0 <= q < |m0| && q !in these && q !in free ==> m1[q] == m0[q]
  }

  function NodeAt(va: nat, level: nat): Node
    requires level < 3
  {
    if level == 2 then Root else if level == 1 then Mid(Px(2, va)) else Low(Px(2, va), Px(1, va))
  }

  /** Pages move only from free to tables, and nothing but tables and free pages is written. */
  ghost predicate Moves(m0: seq<Page>, f0: seq<nat>, t0: Tables, m1: seq<Page>, f1: seq<nat>, t1: Tables) {
    && t0.Values <= t1.Values && Set(f0) + t0.Values == Set(f1) + t1.Values
    && OnlyThese(m0, m1, t0.Values, f0)
  }

  lemma MovesOn(m0: seq<Page>, f0: seq<nat>, t0: Tables, m1: seq<Page>, f1: seq<nat>, t1: Tables, m2: seq<Page>,
                f2: seq<nat>, t2: Tables)
    requires Moves(m0, f0, t0, m1, f1, t1) && Moves(m1, f1, t1, m2, f2, t2)
    ensures Moves(m0, f0, t0, m2, f2, t2)
  {
    forall q | 0 <= q < |m0| && q !in t0.Values && q !in f0 ensures m2[q] == m0[q] {
      assert q !in Set(f0) + t0.Values;
      assert q !in Set(f1) + t1.Values;
    }
  }

  /** In addition, no translation changes. */
  ghost predicate Extends(m0: seq<Page>, f0: seq<nat>, t0: Tables, m1: seq<Page>, f1: seq<nat>, t1: Tables) {
    SameFlat(m0, t0, m1, t1) && Moves(m0, f0, t0, m1, f1, t1)
  }

  lemma ExtendsOn(m0: seq<Page>, f0: seq<nat>, t0: Tables, m1: seq<Page>, f1: seq<nat>, t1: Tables, m2: seq<Page>,
                  f2: seq<nat>, t2: Tables)
    requires Extends(m0, f0, t0, m1, f1, t1) && Extends(m1, f1, t1, m2, f2, t2)
    ensures Extends(m0, f0, t0, m2, f2, t2)
  {
    forall v: nat ensures SameAt(m0, t0, m2, t2, v) { assert SameAt(m0, t0, m1, t1, v) && SameAt(m1, t1, m2, t2, v); }
    MovesOn(m0, f0, t0, m1, f1, t1, m2, f2, t2);
  }

  /** The part of walk() that adds a table, empty, below entry x of table n. */
  method AddTable(m: Memory, page: nat, x: nat, ghost n: Node, ghost tab: Tables) returns (pa: nat, ghost tab': Tables)
    requires m.Valid() && TreeOk(m.lo, m.mem, tab) && Apart(tab, m.free)
    requires n in tab && !n.Low? && page == tab[n] && x < Width(n) && Child(n, x) !in tab
    modifies m
    ensures pa == 0 ==> m.mem == old(m.mem) && m.free == old(m.free) == [] && tab' == tab && m.Valid()
    ensures pa != 0 ==>
              m.Valid() && TreeOk(m.lo, m.mem, tab') && Apart(tab', m.free) && tab' == tab[Child(n, x) := pa / 4096]
    ensures pa != 0 ==> Extends(old(m.mem), old(m.free), tab, m.mem, m.free, tab')
  {
    tab' := tab;
    pa := m.Kalloc();
    if pa != 0 {
      var p := pa / 4096;
      DistinctRest(old(m.free));
      assert old(m.free) == [p] + m.free && p in old(m.free);
      TableFrom(m.lo, old(m.mem), tab, n, x, p);
      ghost var m1 := m.mem;
      m.mem := m.mem[p := Fill(0)];
      m.mem := m.mem[page := m.mem[page][x := Pa2Pte(pa) + 1]];
      assert m.mem == Hang(old(m.mem), tab, n, x, p);
      ChainFrame(m1, m.mem, m.freelist, m.free);
      tab' := tab[Child(n, x) := p];
      NewValues(tab, Child(n, x), p);
    }
  }

  lemma NewValues(tab: Tables, n: Node, p: nat)
    requires n !in tab
    ensures tab[n := p].Values == tab.Values + {p}
  {
    assert tab[n := p][n] == p;
    forall q | q in tab.Values ensures q in tab[n := p].Values {
      var k :| k in tab && tab[k] == q;
      assert tab[n := p][k] == q;
    }
  }

  lemma TableFrom(lo: nat, mem: seq<Page>, tab: Tables, n: Node, x: nat, p: nat)
    requires TreeOk(lo, mem, tab) && n in tab && !n.Low? && x < Width(n) && Child(n, x) !in tab && lo <= p < |mem|
    requires forall k :: k in tab ==> tab[k] != p
    ensures tab[n] < |mem| && p !in tab.Values
    ensures TreeOk(lo, Hang(mem, tab, n, x, p), tab[Child(n, x) := p])
            && SameFlat(mem, tab, Hang(mem, tab, n, x, p), tab[Child(n, x) := p])
  {
    HangKeeps(lo, mem, tab, n, x, p);
  }

  /** walk(): the place of the entry for va, or none.  A table that is missing is added when alloc
      is set; no translation changes. */
  method Walk(m: Memory, root: nat, va: nat, alloc: bool, ghost tab: Tables)
      returns (found: bool, page: nat, idx: nat, ghost tab': Tables)
    requires m.Valid() && TreeOk(m.lo, m.mem, tab) && Apart(tab, m.free) && tab[Root] == root && va < MAXVA
    modifies m
    ensures m.Valid() && TreeOk(m.lo, m.mem, tab') && Apart(tab', m.free) && tab'[Root] == root
    ensures Extends(old(m.mem), old(m.free), tab, m.mem, m.free, tab')
    ensures !alloc ==>
              m.mem == old(m.mem) && m.free == old(m.free) && tab' == tab && (found <==> LowOf(va / 4096) in tab)
    ensures alloc && !found ==> m.free == []
    ensures found ==> LowOf(va / 4096) in tab' && page == tab'[LowOf(va / 4096)] < |m.mem| && idx == va / 4096 % 512
  {
    PagesOf(va);
    page, idx, tab' := root, 0, tab;
    var level := 2;
    while level > 0
      invariant 0 <= level <= 2
      invariant m.Valid() && TreeOk(m.lo, m.mem, tab') && Apart(tab', m.free) && tab'[Root] == root
      invariant NodeAt(va, level) in tab' && page == tab'[NodeAt(va, level)]
      invariant Extends(old(m.mem), old(m.free), tab, m.mem, m.free, tab')
      invariant !alloc ==> m.mem == old(m.mem) && m.free == old(m.free) && tab' == tab
    {
      ghost var n := NodeAt(va, level);
      var x := Px(level, va);
      TableEntry(m.lo, m.mem, tab', n, x);
      var pte := m.mem[page][x];
      if IsValid(pte) {
        page := Pte2Pa(pte) / 4096;
      } else {
        Closed(m.lo, m.mem, tab', va);
        if !alloc { return false, 0, 0, tab'; }
        ghost var m1, f1, t1 := m.mem, m.free, tab';
        var pa;
        pa, tab' := AddTable(m, page, x, n, tab');
        if pa == 0 { return false, 0, 0, tab'; }
        ExtendsOn(old(m.mem), old(m.free), tab, m1, f1, t1, m.mem, m.free, tab');
        page := pa / 4096;
      }
      level := level - 1;
    }
    assert TableAt(m.lo, m.mem, tab', NodeAt(va, 0));
    return true, page, Px(0, va), tab';
  }

  /** What walk() reads at entry x of table n. */
  lemma TableEntry(lo: nat, mem: seq<Page>, tab: Tables, n: Node, x: nat)
    requires TreeOk(lo, mem, tab) && n in tab && !n.Low? && x < 512
    ensures tab[n] < |mem|
    ensures var pte := mem[tab[n]][x]; IsValid(pte) <==> Child(n, x) in tab
    ensures var pte := mem[tab[n]][x]; IsValid(pte) ==> Pte2Pa(pte) / 4096 == tab[Child(n, x)]
  {
    assert TableAt(lo, mem, tab, n) && EntryAt(mem, tab, n, x);
    if Child(n, x) in tab { LowBits(tab[Child(n, x)], 1); }
  }

  /** A leaf table has the tables above it. */
  lemma Closed(lo: nat, mem: seq<Page>, tab: Tables, va: nat)
    requires TreeOk(lo, mem, tab)
    ensures NodeAt(va, 0) in tab ==> NodeAt(va, 1) in tab
  {
    assert TableAt(lo, mem, tab, NodeAt(va, 0));
  }

  // ---- leaf entries --------------------------------------------------------------------------------

  /** *pte = value, for the entry of page v. */
  method Store(m: Memory, page: nat, idx: nat, value: nat, ghost v: nat, ghost tab: Tables)
    requires m.Valid() && TreeOk(m.lo, m.mem, tab) && Apart(tab, m.free) && v < MAXPAGE
    requires LowOf(v) in tab && page == tab[LowOf(v)] < |m.mem| && idx == v % 512
    modifies m
    ensures m.Valid() && TreeOk(m.lo, m.mem, tab) && m.free == old(m.free)
            && OnlyThese(old(m.mem), m.mem, tab.Values, [])
    ensures forall w: nat {:trigger Flat(m.mem, tab, w)} :: w < MAXPAGE ==>
              Flat(m.mem, tab, w) == if w == v then value else Flat(old(m.mem), tab, w)
  {
    SetLeafKeeps(m.lo, m.mem, tab, v, value);
    m.mem := m.mem[page := m.mem[page][idx := value]];
    ChainFrame(old(m.mem), m.mem, m.freelist, m.free);
  }

  /** Page w after `done` pages from `first` on have been mapped to the pages from ppn on. */
  predicate MapAt(m0: seq<Page>, t0: Tables, m1: seq<Page>, t1: Tables, first: nat, done: nat, ppn: nat, perm: nat,
                  w: nat) {
    w < MAXPAGE ==>
          Flat(m1, t1, w) == if first <= w < first + done then (ppn + (w - first)) * 1024 + WithV(perm)
                else Flat(m0, t0, w)
  }

  ghost predicate Maps(m0: seq<Page>, t0: Tables, m1: seq<Page>, t1: Tables, first: nat, done: nat, ppn: nat,
                       perm: nat) {
    forall w: nat {:trigger MapAt(m0, t0, m1, t1, first, done, ppn, perm, w)} ::
          MapAt(m0, t0, m1, t1, first, done, ppn, perm, w)
  }

  lemma MapMore(m0: seq<Page>, t0: Tables, m1: seq<Page>, t1: Tables, m2: seq<Page>, t2: Tables, first: nat, done: nat,
                ppn: nat, perm: nat, value: nat)
    requires Maps(m0, t0, m1, t1, first, done, ppn, perm) && value == (ppn + done) * 1024 + WithV(perm)
    requires forall w: nat {:trigger Flat(m2, t2, w)} :: w < MAXPAGE ==>
               Flat(m2, t2, w) == if w == first + done then value else Flat(m1, t1, w)
    ensures Maps(m0, t0, m2, t2, first, done + 1, ppn, perm)
  {
    var more := done + 1;
    forall w: nat ensures MapAt(m0, t0, m2, t2, first, more, ppn, perm, w) {
      assert MapAt(m0, t0, m1, t1, first, done, ppn, perm, w);
    }
  }

  lemma StillUnmapped(m0: seq<Page>, t0: Tables, m1: seq<Page>, t1: Tables, first: nat, done: nat, ppn: nat, perm: nat)
    requires Maps(m0, t0, m1, t1, first, done, ppn, perm)
    ensures first + done < MAXPAGE ==> Flat(m1, t1, first + done) == Flat(m0, t0, first + done)
  {
    assert MapAt(m0, t0, m1, t1, first, done, ppn, perm, first + done);
  }

  lemma MapNone(m0: seq<Page>, t0: Tables, m1: seq<Page>, t1: Tables, first: nat, done: nat, ppn: nat, perm: nat,
                m2: seq<Page>, t2: Tables)
    requires Maps(m0, t0, m1, t1, first, done, ppn, perm) && SameFlat(m1, t1, m2, t2)
    ensures Maps(m0, t0, m2, t2, first, done, ppn, perm)
  {
    forall w: nat ensures MapAt(m0, t0, m2, t2, first, done, ppn, perm, w) {
      assert MapAt(m0, t0, m1, t1, first, done, ppn, perm, w) && SameAt(m1, t1, m2, t2, w);
    }
  }

  /** One turn of the loop in mappages(). */
  method MapOne(m: Memory, root: nat, a: nat, pa: nat, perm: nat, ghost v: nat, ghost tab: Tables)
      returns (found: bool, ghost tab': Tables)
    requires m.Valid() && TreeOk(m.lo, m.mem, tab) && Apart(tab, m.free) && tab[Root] == root
    requires a == v * 4096 && v < MAXPAGE && !IsValid(Flat(m.mem, tab, v))
    modifies m
    ensures m.Valid() && TreeOk(m.lo, m.mem, tab') && Apart(tab', m.free) && tab'[Root] == root
    ensures Moves(old(m.mem), old(m.free), tab, m.mem, m.free, tab')
    ensures !found ==> SameFlat(old(m.mem), tab, m.mem, tab') && m.free == []
    ensures found ==> forall w: nat {:trigger Flat(m.mem, tab', w)} :: w < MAXPAGE ==>
              Flat(m.mem, tab', w) == if w == v then Entry(pa, perm) else Flat(old(m.mem), tab, w)
  {
    var page, idx;
    found, page, idx, tab' := Walk(m, root, a, true, tab);
    if found {
      ghost var m1 := m.mem;
      assert SameAt(old(m.mem), tab, m1, tab', v);
      assert !IsValid(m.mem[page][idx]);
      Store(m, page, idx, Entry(pa, perm), v, tab');
      assert forall w: nat {:trigger Flat(m1, tab', w)} :: SameAt(old(m.mem), tab, m1, tab', w);
    }
  }

  /** No page from `first` on, for n pages, is mapped. */
  ghost predicate Unmapped(mem: seq<Page>, tab: Tables, first: nat, n: nat) {
    forall w: nat {:trigger Flat(mem, tab, w)} :: first <= w < first + n ==> !IsValid(Flat(mem, tab, w))
  }

  /** mappages(): maps `done` pages; fewer than all of them only when memory runs out.  No other
      translation changes.  Its panic needs a page that is already mapped. */
  method Mappages(m: Memory, root: nat, va: nat, size: nat, pa: nat, perm: nat, ghost tab: Tables)
    returns (r: int, ghost tab': Tables, ghost done: nat)
    requires m.Valid() && TreeOk(m.lo, m.mem, tab) && Apart(tab, m.free) && tab[Root] == root
    requires 0 < size && va + size <= MAXVA && perm < 1024
    requires Unmapped(m.mem, tab, va / 4096, (va + size - 1) / 4096 - va / 4096 + 1)
    modifies m
    ensures m.Valid() && TreeOk(m.lo, m.mem, tab') && Apart(tab', m.free) && tab'[Root] == root
    ensures Moves(old(m.mem), old(m.free), tab, m.mem, m.free, tab')
    ensures Maps(old(m.mem), tab, m.mem, tab', va / 4096, done, pa / 4096, perm)
    ensures if r == 0 then done == (va + size - 1) / 4096 - va / 4096 + 1
            else r == -1 && done < (va + size - 1) / 4096 - va / 4096 + 1 && m.free == []
  {
    ghost var first := va / 4096;
    var a, last, p := va / 4096 * 4096, (va + size - 1) / 4096 * 4096, pa;
    tab', done := tab, 0;
    while true
      invariant a == (first + done) * 4096 && a <= last && p == pa + done * 4096
      invariant m.Valid() && TreeOk(m.lo, m.mem, tab') && Apart(tab', m.free) && tab'[Root] == root
      invariant Moves(old(m.mem), old(m.free), tab, m.mem, m.free, tab')
      invariant Maps(old(m.mem), tab, m.mem, tab', first, done, pa / 4096, perm)
      decreases last - a
    {
      ghost var m1, f1, t1 := m.mem, m.free, tab';
      StillUnmapped(old(m.mem), tab, m1, t1, first, done, pa / 4096, perm);
      var found;
      found, tab' := MapOne(m, root, a, p, perm, first + done, tab');
      MovesOn(old(m.mem), old(m.free), tab, m1, f1, t1, m.mem, m.free, tab');
      if !found {
        MapNone(old(m.mem), tab, m1, t1, first, done, pa / 4096, perm, m.mem, tab');
        return -1, tab', done;
      }
      MapMore(old(m.mem), tab, m1, t1, m.mem, tab', first, done, pa / 4096, perm, Entry(p, perm));
      done := done + 1;
      if a == last { break; }
      a, p := a + 4096, p + 4096;
    }
    r := 0;
  }

  // ---- uvmunmap() and uvmclear() -----------------------------------------------------------------------

  /** Page first + k is a leaf that maps physical page us[k]. */
  predicate LeafAt(mem: seq<Page>, tab: Tables, first: nat, us: seq<nat>, k: nat) {
    k < |us| ==> var pte := Flat(mem, tab, first + k); IsValid(pte) && Flags(pte) != 1 && pte / 1024 == us[k]
  }

  ghost predicate Leaves(mem: seq<Page>, tab: Tables, first: nat, us: seq<nat>) {
    forall k: nat {:trigger LeafAt(mem, tab, first, us, k)} :: LeafAt(mem, tab, first, us, k)
  }

  /** The pages in us are distinct, and neither free nor tables. */
  ghost predicate Owned(lo: nat, mem: seq<Page>, tab: Tables, free: seq<nat>, us: seq<nat>) {
    Distinct(us) && forall p :: p in us ==> lo <= p < |mem| && p !in free && p !in tab.Values
  }

  /** The free list after the first k pages of us have been freed one by one. */
  function Pushed(us: seq<nat>, k: nat, free: seq<nat>): seq<nat>
    requires k <= |us|
  {
    if k == 0 then free else [us[k - 1]] + Pushed(us, k - 1, free)
  }

  lemma {:induction false} InPushed(us: seq<nat>, k: nat, free: seq<nat>, p: nat)
    requires k <= |us|
    ensures p in Pushed(us, k, free) <==> p in us[..k] || p in free
  {
    if k > 0 {
      InPushed(us, k - 1, free, p);
      assert us[..k] == us[..k - 1] + [us[k - 1]];
    }
  }

  lemma PushedSet(us: seq<nat>, k: nat, free: seq<nat>)
    requires k <= |us|
    ensures Set(Pushed(us, k, free)) == Set(us[..k]) + Set(free)
  {
    forall p ensures p in Set(Pushed(us, k, free)) <==> p in Set(us[..k]) + Set(free) {
      if p >= 0 { InPushed(us, k, free, p); }
    }
  }

  predicate GoneAt(m0: seq<Page>, m1: seq<Page>, tab: Tables, first: nat, n: nat, w: nat) {
    w < MAXPAGE ==> Flat(m1, tab, w) == if first <= w < first + n then 0 else Flat(m0, tab, w)
  }

  /** The n translations from `first` on are gone, all others are as before. */
  ghost predicate Gone(m0: seq<Page>, m1: seq<Page>, tab: Tables, first: nat, n: nat) {
    forall w: nat {:trigger GoneAt(m0, m1, tab, first, n, w)} :: GoneAt(m0, m1, tab, first, n, w)
  }

  method Uvmunmap(m: Memory, root: nat, va: nat, npages: nat, doFree: bool, ghost tab: Tables, ghost us: seq<nat>)
    requires m.Valid() && TreeOk(m.lo, m.mem, tab) && Apart(tab, m.free) && tab[Root] == root
    requires va % 4096 == 0 && va + npages * 4096 <= MAXVA && |us| == npages && Leaves(m.mem, tab, va / 4096, us)
    requires doFree ==> Owned(m.lo, m.mem, tab, m.free, us)
    modifies m
    ensures m.Valid() && TreeOk(m.lo, m.mem, tab) && Apart(tab, m.free)
            && Gone(old(m.mem), m.mem, tab, va / 4096, npages)
    ensures m.free == if doFree then Pushed(us, npages, old(m.free)) else old(m.free)
    ensures OnlyThese(old(m.mem), m.mem, tab.Values + (if doFree then Set(us) else {}), [])
  {
    var a := va;
    ghost var first, k := va / 4096, 0;
    assert va == first * 4096 && first + npages <= MAXPAGE;
    while a < va + npages * 4096
      invariant k <= npages && a == (first + k) * 4096
      invariant m.Valid() && TreeOk(m.lo, m.mem, tab) && Apart(tab, m.free)
      invariant Gone(old(m.mem), m.mem, tab, first, k)
      invariant m.free == if doFree then Pushed(us, k, old(m.free)) else old(m.free)
      invariant OnlyThese(old(m.mem), m.mem, tab.Values + (if doFree then Set(us) else {}), [])
    {
      UnmapNext(m, root, a, doFree, first, k, tab, us, old(m.mem), old(m.free));
      a := a + 4096;
      k := k + 1;
    }
  }

  /** One turn of its loop, seen from the whole range. */
  method UnmapNext(m: Memory, root: nat, a: nat, doFree: bool, ghost first: nat, ghost k: nat, ghost tab: Tables,
                   ghost us: seq<nat>, ghost m0: seq<Page>, ghost f0: seq<nat>)
    requires m.Valid() && TreeOk(m.lo, m.mem, tab) && Apart(tab, m.free) && tab[Root] == root && |m.mem| == |m0|
    requires k < |us| && a == (first + k) * 4096 && first + k < MAXPAGE && Leaves(m0, tab, first, us)
    requires doFree ==> Owned(m.lo, m0, tab, f0, us)
    requires Gone(m0, m.mem, tab, first, k) && m.free == if doFree then Pushed(us, k, f0) else f0
    requires OnlyThese(m0, m.mem, tab.Values + (if doFree then Set(us) else {}), [])
    modifies m
    ensures m.Valid() && TreeOk(m.lo, m.mem, tab) && Apart(tab, m.free) && Gone(m0, m.mem, tab, first, k + 1)
    ensures m.free == if doFree then Pushed(us, k + 1, f0) else f0
    ensures OnlyThese(m0, m.mem, tab.Values + (if doFree then Set(us) else {}), [])
  {
    NextLeaf(m0, m.mem, tab, first, us, k);
    if doFree { StillOwned(m.lo, m0, tab, f0, us, k); }
    ghost var m1 := m.mem;
    UnmapOne(m, root, a, doFree, first + k, tab);
    GoneMore(m0, m1, m.mem, tab, first, k);
  }

  lemma StillOwned(lo: nat, mem: seq<Page>, tab: Tables, free: seq<nat>, us: seq<nat>, k: nat)
    requires Owned(lo, mem, tab, free, us) && k < |us|
    ensures lo <= us[k] < |mem| && us[k] !in tab.Values && us[k] !in Pushed(us, k, free)
  {
    InPushed(us, k, free, us[k]);
    forall j | 0 <= j < k ensures us[j] != us[k] { assert DistinctAt(us, j, k); }
  }

  lemma NextLeaf(m0: seq<Page>, m1: seq<Page>, tab: Tables, first: nat, us: seq<nat>, k: nat)
    requires Leaves(m0, tab, first, us) && Gone(m0, m1, tab, first, k) && k < |us| && first + k < MAXPAGE
    ensures var pte := Flat(m1, tab, first + k); IsValid(pte) && Flags(pte) != 1 && pte / 1024 == us[k]
  {
    assert LeafAt(m0, tab, first, us, k) && GoneAt(m0, m1, tab, first, k, first + k);
  }

  /** One turn of the loop in uvmunmap(). */
  method UnmapOne(m: Memory, root: nat, va: nat, doFree: bool, ghost v: nat, ghost tab: Tables)
    requires m.Valid() && TreeOk(m.lo, m.mem, tab) && Apart(tab, m.free) && tab[Root] == root && va == v * 4096
             && v < MAXPAGE
    requires var pte := Flat(m.mem, tab, v);
             && IsValid(pte) && Flags(pte) != 1
             && (doFree ==> m.lo <= pte / 1024 < |m.mem| && pte / 1024 !in m.free && pte / 1024 !in tab.Values)
    modifies m
    ensures m.Valid() && TreeOk(m.lo, m.mem, tab) && Apart(tab, m.free)
    ensures forall w: nat {:trigger Flat(m.mem, tab, w)} :: w < MAXPAGE ==>
              Flat(m.mem, tab, w) == if w == v then 0 else Flat(old(m.mem), tab, w)
    ensures var p := Flat(old(m.mem), tab, v) / 1024;
            && m.free == (if doFree then [p] + old(m.free) else old(m.free))
            && OnlyThese(old(m.mem), m.mem, tab.Values + (if doFree then {p} else {}), [])
  {
    var found, page, idx, t := Walk(m, root, va, false, tab);
    assert found && m.mem[page][idx] == Flat(m.mem, tab, v);
    ghost var m1 := m.mem;
    if doFree {
      m.Kfree(Pte2Pa(m.mem[page][idx]));
      TreeFrame(m.lo, m1, m.mem, tab);
    }
    ghost var m2 := m.mem;
    Store(m, page, idx, 0, v, tab);
    assert forall w: nat {:trigger Flat(m2, tab, w)} :: SameAt(m1, tab, m2, tab, w);
  }

  lemma GoneMore(m0: seq<Page>, m1: seq<Page>, m2: seq<Page>, tab: Tables, first: nat, k: nat)
    requires Gone(m0, m1, tab, first, k)
    requires forall w: nat {:trigger Flat(m2, tab, w)} :: w < MAXPAGE ==>
               Flat(m2, tab, w) == if w == first + k then 0 else Flat(m1, tab, w)
    ensures Gone(m0, m2, tab, first, k + 1)
  {
    var n := k + 1;
    forall w: nat ensures GoneAt(m0, m2, tab, first, n, w) { assert GoneAt(m0, m1, tab, first, k, w); }
  }

  /** uvmclear(): only the user bit of one entry goes. */
  method Uvmclear(m: Memory, root: nat, va: nat, ghost tab: Tables)
    requires m.Valid() && TreeOk(m.lo, m.mem, tab) && Apart(tab, m.free) && tab[Root] == root && va < MAXVA
             && LowOf(va / 4096) in tab
    modifies m
    ensures m.Valid() && TreeOk(m.lo, m.mem, tab) && m.free == old(m.free)
            && OnlyThese(old(m.mem), m.mem, tab.Values, [])
    ensures forall w: nat {:trigger Flat(m.mem, tab, w)} :: w < MAXPAGE && w != va / 4096 ==>
              Flat(m.mem, tab, w) == Flat(old(m.mem), tab, w)
    ensures var pte, was := Flat(m.mem, tab, va / 4096), Flat(old(m.mem), tab, va / 4096);
            && pte == (if IsUser(was) then was - 16 else was)
            && !IsUser(pte) && IsValid(pte) == IsValid(was) && IsLeaf(pte) == IsLeaf(was) && Pte2Pa(pte) == Pte2Pa(was)
  {
    var found, page, idx, t := Walk(m, root, va, false, tab);
    var pte := m.mem[page][idx];
    if IsUser(pte) { UserBit(pte); }
    Store(m, page, idx, if IsUser(pte) then pte - 16 else pte, va / 4096, tab);
  }

  lemma UserBit(pte: nat)
    requires IsUser(pte)
    ensures 16 <= pte && !IsUser(pte - 16) && IsValid(pte - 16) == IsValid(pte) && IsLeaf(pte - 16) == IsLeaf(pte)
            && Pte2Pa(pte - 16) == Pte2Pa(pte)
  {
    var q, r := pte / 32, pte % 16;
    assert pte == 32 * q + (16 + r);
    FiveBits(q, 16 + r);
    FiveBits(q, r);
  }

  lemma BitZero(q: nat, r: nat)
    requires r < 32
    ensures (32 * q + r) % 2 == r % 2
  {
  }

  lemma BitsOneToThree(q: nat, r: nat)
    requires r < 32
    ensures (32 * q + r) / 2 % 8 == r / 2 % 8
  {
    var h := r / 2;
    Half(32 * q + r, 16 * q + h, r % 2);
    Eighth(16 * q + h, 2 * q + h / 8, h % 8);
  }

  lemma Half(x: nat, k: nat, m: nat)
    requires x == 2 * k + m && m < 2
    ensures x / 2 == k
  {
  }

  lemma Eighth(x: nat, k: nat, m: nat)
    requires x == 8 * k + m && m < 8
    ensures x % 8 == m
  {
  }

  lemma BitFour(q: nat, r: nat)
    requires r < 32
    ensures (32 * q + r) / 16 % 2 == r / 16
  {
    assert (32 * q + r) / 16 == 2 * q + r / 16;
  }

  lemma FiveBits(q: nat, r: nat)
    requires r < 32
    ensures var x := 32 * q + r; x / 1024 == q / 32 && x % 2 == r % 2 && x / 2 % 8 == r / 2 % 8 && x / 16 % 2 == r / 16
  {
    BitZero(q, r);
    BitsOneToThree(q, r);
    BitFour(q, r);
    Kilo(q / 32, 32 * (q % 32) + r);
  }

  lemma Kilo(a: nat, c: nat)
    requires c < 1024
    ensures (1024 * a + c) / 1024 == a
  {
  }

  // ---- the user part of an address space ------------------------------------------------------------------

  const TRAPPAGE: nat := MAXPAGE - 2         // TRAPFRAME / 4096
  const URWX: nat := 30                      // PTE_R | PTE_W | PTE_X | PTE_U

  /** PGROUNDUP(sz) / PGSIZE */
  function Pages(sz: nat): nat { (sz + 4095) / 4096 }

  predicate ClearAt(mem: seq<Page>, tab: Tables, from: nat, v: nat) { from <= v < TRAPPAGE ==> Flat(mem, tab, v) == 0 }

  /** Nothing is mapped between page `from` and the trap frame. */
  ghost predicate Clear(mem: seq<Page>, tab: Tables, from: nat) {
    forall v: nat {:trigger ClearAt(mem, tab, from, v)} :: ClearAt(mem, tab, from, v)
  }

  /** The pages from 0 on are mapped to the pages in us, which belong to this space alone; above
      them, up to the trap frame, nothing is mapped. */
  ghost predicate Space(lo: nat, mem: seq<Page>, free: seq<nat>, tab: Tables, us: seq<nat>) {
    && TreeOk(lo, mem, tab) && Apart(tab, free) && Owned(lo, mem, tab, free, us)
    && |us| <= TRAPPAGE && Leaves(mem, tab, 0, us) && Clear(mem, tab, |us|)
  }

  /** The pages that are free or belong to the space. */
  function All(free: seq<nat>, tab: Tables, us: seq<nat>): set<nat> { Set(free) + tab.Values + Set(us) }

  /** No translation has changed, and the pages in us are still nobody else's. */
  lemma SpaceKept(lo: nat, m0: seq<Page>, f0: seq<nat>, t0: Tables, us: seq<nat>, m1: seq<Page>, f1: seq<nat>,
                  t1: Tables)
    requires Space(lo, m0, f0, t0, us) && TreeOk(lo, m1, t1) && Apart(t1, f1) && SameFlat(m0, t0, m1, t1)
             && |m0| == |m1|
    requires Set(f1) + t1.Values <= Set(f0) + t0.Values
    ensures Space(lo, m1, f1, t1, us)
  {
    forall p | p in us ensures p !in f1 && p !in t1.Values {
      assert p !in Set(f0) + t0.Values; assert p !in Set(f1) + t1.Values;
    }
    forall k: nat ensures LeafAt(m1, t1, 0, us, k) { assert LeafAt(m0, t0, 0, us, k) && SameAt(m0, t0, m1, t1, k); }
    forall v: nat ensures ClearAt(m1, t1, |us|, v) { assert ClearAt(m0, t0, |us|, v) && SameAt(m0, t0, m1, t1, v); }
  }

  /** One more page at the end. */
  lemma SpaceMore(lo: nat, m0: seq<Page>, f0: seq<nat>, t0: Tables, us: seq<nat>, m1: seq<Page>, f1: seq<nat>,
                  t1: Tables, p: nat, perm: nat)
    requires Space(lo, m0, f0, t0, us) && TreeOk(lo, m1, t1) && Apart(t1, f1) && |m0| == |m1| && |us| < TRAPPAGE
    requires Maps(m0, t0, m1, t1, |us|, 1, p, perm) && perm < 1024 && WithV(perm) != 1
    requires lo <= p < |m1| && p !in All(f0, t0, us) && Set(f1) + t1.Values <= Set(f0) + t0.Values
    ensures Space(lo, m1, f1, t1, us + [p])
  {
    var vs := us + [p];
    forall q | q in us ensures q !in f1 && q !in t1.Values && q != p {
      assert q !in Set(f0) + t0.Values; assert q !in Set(f1) + t1.Values;
    }
    assert p !in Set(f1) + t1.Values;
    forall i, j ensures DistinctAt(vs, i, j) { assert DistinctAt(us, i, j); }
    forall k: nat ensures LeafAt(m1, t1, 0, vs, k) {
      assert LeafAt(m0, t0, 0, us, k) && MapAt(m0, t0, m1, t1, |us|, 1, p, perm, k);
      LowBits(p, WithV(perm));
    }
    forall v: nat ensures ClearAt(m1, t1, |vs|, v) {
      assert ClearAt(m0, t0, |us|, v) && MapAt(m0, t0, m1, t1, |us|, 1, p, perm, v);
    }
  }

  /** kalloc() and the memset() or memmove() into the new page. */
  method TakePage(m: Memory, data: Page, ghost tab: Tables, ghost us: seq<nat>) returns (pa: nat)
    requires m.Valid() && Space(m.lo, m.mem, m.free, tab, us)
    modifies m
    ensures m.Valid() && Space(m.lo, m.mem, m.free, tab, us)
    ensures pa == 0 ==> m.mem == old(m.mem) && m.free == old(m.free) == []
    ensures pa != 0 ==> var p := pa / 4096;
            && pa == p * 4096 && m.lo <= p < |m.mem| && old(m.free) == [p] + m.free && p !in All(m.free, tab, us)
            && m.mem == old(m.mem)[p := data] && SameFlat(old(m.mem), tab, m.mem, tab)
  {
    pa := m.Kalloc();
    if pa != 0 {
      var p := pa / 4096;
      DistinctRest(old(m.free));
      assert old(m.free) == [p] + m.free && p in old(m.free);
      ghost var m1 := m.mem;
      m.mem := m.mem[p := data];
      ChainFrame(m1, m.mem, m.freelist, m.free);
      assert p !in tab.Values;
      TreeFrame(m.lo, old(m.mem), m.mem, tab);
      SpaceKept(m.lo, old(m.mem), old(m.free), tab, us, m.mem, m.free, tab);
    }
  }

  /** Map the page at the end of the space, or give it back; tables may have been added. */
  method PlacePage(m: Memory, root: nat, a: nat, pa: nat, perm: nat, ghost tab: Tables, ghost us: seq<nat>)
    returns (ok: bool, ghost tab': Tables, ghost us': seq<nat>)
    requires m.Valid() && Space(m.lo, m.mem, m.free, tab, us) && tab[Root] == root
    requires a == |us| * 4096 && |us| < TRAPPAGE && perm < 1024 && WithV(perm) != 1
    requires pa % 4096 == 0 && m.lo <= pa / 4096 < |m.mem| && pa / 4096 !in All(m.free, tab, us)
    modifies m
    ensures m.Valid() && Space(m.lo, m.mem, m.free, tab', us') && tab'[Root] == root
    ensures All(m.free, tab', us') == All(old(m.free), tab, us) + {pa / 4096}
    ensures OnlyThese(old(m.mem), m.mem, tab.Values + (if ok then {} else {pa / 4096}), old(m.free))
    ensures !ok ==> us' == us && SameFlat(old(m.mem), tab, m.mem, tab')
    ensures ok ==>
              us' == us + [pa / 4096] && Maps(old(m.mem), tab, m.mem, tab', |us|, 1, pa / 4096, perm)
              && Set(m.free) <= Set(old(m.free))
  {
    ghost var p, m1, f1 := pa / 4096, m.mem, m.free;
    assert ClearAt(m.mem, tab, |us|, |us|);
    var r;
    ghost var done;
    r, tab', done := Mappages(m, root, a, 4096, pa, perm, tab);
    us' := us;
    ok := r == 0;
    assert p !in Set(f1) + tab.Values;
    assert p !in Set(m.free) + tab'.Values;
    if ok {
      forall q | q in Set(m.free) ensures q in Set(f1) { assert q in Set(f1) + tab.Values; }
      SpaceMore(m.lo, m1, f1, tab, us, m.mem, m.free, tab', p, perm);
      us' := us + [p];
      assert Set(us') == Set(us) + {p};
    } else {
      MapZero(m1, tab, m.mem, tab', |us|, p, perm);
      SpaceKept(m.lo, m1, f1, tab, us, m.mem, m.free, tab');
      ghost var m2 := m.mem;
      GiveBack(m, pa, tab', us);
      forall v: nat ensures SameAt(m1, tab, m.mem, tab', v) {
        assert SameAt(m1, tab, m2, tab', v) && SameAt(m2, tab', m.mem, tab', v);
      }
    }
  }

  /** kfree() of a page that is in no use. */
  method GiveBack(m: Memory, pa: nat, ghost tab: Tables, ghost us: seq<nat>)
    requires m.Valid() && Space(m.lo, m.mem, m.free, tab, us)
    requires pa % 4096 == 0 && m.lo <= pa / 4096 < |m.mem| && pa / 4096 !in All(m.free, tab, us)
    modifies m
    ensures m.Valid() && Space(m.lo, m.mem, m.free, tab, us) && m.free == [pa / 4096] + old(m.free)
    ensures OnlyThese(old(m.mem), m.mem, {pa / 4096}, []) && SameFlat(old(m.mem), tab, m.mem, tab)
  {
    m.Kfree(pa);
    TreeFrame(m.lo, old(m.mem), m.mem, tab);
    ghost var p := pa / 4096;
    forall q | q in us ensures q !in m.free { assert q !in old(m.free) && q != p; }
    forall k: nat ensures LeafAt(m.mem, tab, 0, us, k) {
      assert LeafAt(old(m.mem), tab, 0, us, k) && SameAt(old(m.mem), tab, m.mem, tab, k);
    }
    forall v: nat ensures ClearAt(m.mem, tab, |us|, v) {
      assert ClearAt(old(m.mem), tab, |us|, v) && SameAt(old(m.mem), tab, m.mem, tab, v);
    }
  }

  lemma MapZero(m0: seq<Page>, t0: Tables, m1: seq<Page>, t1: Tables, first: nat, ppn: nat, perm: nat)
    requires Maps(m0, t0, m1, t1, first, 0, ppn, perm)
    ensures SameFlat(m0, t0, m1, t1)
  {
    forall v: nat ensures SameAt(m0, t0, m1, t1, v) { assert MapAt(m0, t0, m1, t1, first, 0, ppn, perm, v); }
  }

  // ---- uvmdealloc(), uvmalloc() ------------------------------------------------------------------------------

  /** Dropping the last pages of a space. */
  lemma SpaceLess(lo: nat, m0: seq<Page>, f0: seq<nat>, tab: Tables, us: seq<nat>, keep: nat, m1: seq<Page>,
                  f1: seq<nat>)
    requires Space(lo, m0, f0, tab, us) && keep <= |us| && TreeOk(lo, m1, tab) && Apart(tab, f1) && |m0| == |m1|
    requires Gone(m0, m1, tab, keep, |us| - keep) && f1 == Pushed(us[keep..], |us| - keep, f0)
    ensures Space(lo, m1, f1, tab, us[..keep]) && All(f1, tab, us[..keep]) == All(f0, tab, us)
  {
    var vs, rest := us[..keep], us[keep..];
    assert rest[..|us| - keep] == rest && us == vs + rest;
    PushedSet(rest, |us| - keep, f0);
    forall i, j ensures DistinctAt(vs, i, j) { assert DistinctAt(us, i, j); }
    forall p | p in vs ensures p !in f1 && lo <= p < |m1| && p !in tab.Values {
      var i :| 0 <= i < keep && vs[i] == p;
      forall j | 0 <= j < |rest| ensures rest[j] != p { assert DistinctAt(us, i, keep + j); }
      assert p in us && p !in Set(rest) + Set(f0);
      assert p !in Set(f1);
    }
    forall k: nat ensures LeafAt(m1, tab, 0, vs, k) {
      assert LeafAt(m0, tab, 0, us, k) && GoneAt(m0, m1, tab, keep, |us| - keep, k);
    }
    forall v: nat ensures ClearAt(m1, tab, keep, v) {
      assert ClearAt(m0, tab, |us|, v) && GoneAt(m0, m1, tab, keep, |us| - keep, v);
    }
  }

  lemma PartOwned(lo: nat, mem: seq<Page>, free: seq<nat>, tab: Tables, us: seq<nat>, keep: nat)
    requires Space(lo, mem, free, tab, us) && keep <= |us|
    ensures Owned(lo, mem, tab, free, us[keep..]) && Leaves(mem, tab, keep, us[keep..])
  {
    var rest := us[keep..];
    forall i, j ensures DistinctAt(rest, i, j) { assert DistinctAt(us, i + keep, j + keep); }
    forall p | p in rest ensures p in us {
      var j :| 0 <= j < |rest| && rest[j] == p;
      assert us[j + keep] == p;
    }
    forall k: nat ensures LeafAt(mem, tab, keep, rest, k) { assert LeafAt(mem, tab, 0, us, k + keep); }
  }

  /** uvmdealloc(): the pages above the new size go back to the free list. */
  method Uvmdealloc(m: Memory, root: nat, oldsz: nat, newsz: nat, ghost tab: Tables, ghost us: seq<nat>)
      returns (r: nat, ghost us': seq<nat>)
    requires m.Valid() && Space(m.lo, m.mem, m.free, tab, us) && tab[Root] == root && |us| == Pages(oldsz)
    modifies m
    ensures m.Valid() && Space(m.lo, m.mem, m.free, tab, us') && All(m.free, tab, us') == All(old(m.free), tab, us)
    ensures r == if newsz < oldsz then newsz else oldsz
    ensures us' == us[..Pages(r)] && Gone(old(m.mem), m.mem, tab, Pages(r), |us| - Pages(r))
    ensures OnlyThese(old(m.mem), m.mem, tab.Values + Set(us[Pages(r)..]), [])
  {
    us', r := us, oldsz;
    if newsz < oldsz {
      r := newsz;
      if Pages(newsz) < Pages(oldsz) {
        var npages := Pages(oldsz) - Pages(newsz);
        PartOwned(m.lo, m.mem, m.free, tab, us, Pages(newsz));
        Uvmunmap(m, root, Pages(newsz) * 4096, npages, true, tab, us[Pages(newsz)..]);
        SpaceLess(m.lo, old(m.mem), old(m.free), tab, us, Pages(newsz), m.mem, m.free);
        us' := us[..Pages(newsz)];
      }
    }
  }

  predicate BesideAt(m0: seq<Page>, t0: Tables, m1: seq<Page>, t1: Tables, a: nat, b: nat, v: nat) {
    v < MAXPAGE && !(a <= v < b) ==> Flat(m1, t1, v) == Flat(m0, t0, v)
  }

  /** Translations outside the pages a to b are unchanged. */
  ghost predicate Beside(m0: seq<Page>, t0: Tables, m1: seq<Page>, t1: Tables, a: nat, b: nat) {
    forall v: nat {:trigger BesideAt(m0, t0, m1, t1, a, b, v)} :: BesideAt(m0, t0, m1, t1, a, b, v)
  }

  /** Adding pages and taking all of them away again leaves every translation as it was. */
  lemma UndoneFlat(m0: seq<Page>, t0: Tables, m1: seq<Page>, t1: Tables, m2: seq<Page>, a: nat, b: nat)
    requires Clear(m0, t0, a) && Beside(m0, t0, m1, t1, a, b) && a <= b <= TRAPPAGE && Gone(m1, m2, t1, a, b - a)
    ensures SameFlat(m0, t0, m2, t1)
  {
    forall v: nat ensures SameAt(m0, t0, m2, t1, v) {
      assert ClearAt(m0, t0, a, v) && BesideAt(m0, t0, m1, t1, a, b, v) && GoneAt(m1, m2, t1, a, b - a, v);
    }
  }

  lemma BesideMore(m0: seq<Page>, t0: Tables, m1: seq<Page>, t1: Tables, m2: seq<Page>, t2: Tables, a: nat, b: nat,
                   p: nat, perm: nat)
    requires a <= b && Beside(m0, t0, m1, t1, a, b) && Maps(m1, t1, m2, t2, b, 1, p, perm)
    ensures Beside(m0, t0, m2, t2, a, b + 1)
  {
    var c := b + 1;
    forall v: nat ensures BesideAt(m0, t0, m2, t2, a, c, v) {
      assert BesideAt(m0, t0, m1, t1, a, b, v) && MapAt(m1, t1, m2, t2, b, 1, p, perm, v);
    }
  }

  lemma BesideSame(m0: seq<Page>, t0: Tables, m1: seq<Page>, t1: Tables, m2: seq<Page>, t2: Tables, a: nat, b: nat)
    requires Beside(m0, t0, m1, t1, a, b) && SameFlat(m1, t1, m2, t2)
    ensures Beside(m0, t0, m2, t2, a, b)
  {
    forall v: nat ensures BesideAt(m0, t0, m2, t2, a, b, v) {
      assert BesideAt(m0, t0, m1, t1, a, b, v) && SameAt(m1, t1, m2, t2, v);
    }
  }

  /** kalloc(), fill, mappages(), with the kfree() when that fails: one turn of the loops of
      uvmalloc() and uvmcopy(). */
  method AddPage(m: Memory, root: nat, a: nat, data: Page, perm: nat, ghost tab: Tables, ghost us: seq<nat>)
    returns (ok: bool, ghost tab': Tables, ghost us': seq<nat>)
    requires m.Valid() && Space(m.lo, m.mem, m.free, tab, us) && tab[Root] == root
    requires a == |us| * 4096 && |us| < TRAPPAGE && perm < 1024 && WithV(perm) != 1
    modifies m
    ensures m.Valid() && Space(m.lo, m.mem, m.free, tab', us') && tab'[Root] == root
    ensures All(m.free, tab', us') == All(old(m.free), tab, us) && OnlyThese(old(m.mem), m.mem, tab.Values, old(m.free))
    ensures !ok ==> us' == us && SameFlat(old(m.mem), tab, m.mem, tab')
    ensures ok ==> |us'| == |us| + 1 && us == us'[..|us|] && us'[|us|] in old(m.free) && Set(m.free) <= Set(old(m.free))
    ensures ok ==>
              us'[|us|] < |m.mem| && m.mem[us'[|us|]] == data
              && Maps(old(m.mem), tab, m.mem, tab', |us|, 1, us'[|us|], perm)
  {
    var pa := TakePage(m, data, tab, us);
    if pa == 0 { return false, tab, us; }
    ghost var p, m1, f1 := pa / 4096, m.mem, m.free;
    assert old(m.free)[0] == p;
    ok, tab', us' := PlacePage(m, root, a, pa, perm, tab, us);
    assert Set(old(m.free)) == Set(f1) + {p};
    AddedFlat(old(m.mem), tab, m1, m.mem, tab', |us|, p, perm, ok);
  }

  lemma AddedFlat(m0: seq<Page>, t0: Tables, m1: seq<Page>, m2: seq<Page>, t2: Tables, n: nat, p: nat, perm: nat,
                  ok: bool)
    requires SameFlat(m0, t0, m1, t0) && (if ok then Maps(m1, t0, m2, t2, n, 1, p, perm) else SameFlat(m1, t0, m2, t2))
    ensures if ok then Maps(m0, t0, m2, t2, n, 1, p, perm) else SameFlat(m0, t0, m2, t2)
  {
    if ok {
      forall w: nat ensures MapAt(m0, t0, m2, t2, n, 1, p, perm, w) {
        assert SameAt(m0, t0, m1, t0, w) && MapAt(m1, t0, m2, t2, n, 1, p, perm, w);
      }
    } else {
      forall v: nat ensures SameAt(m0, t0, m2, t2, v) { assert SameAt(m0, t0, m1, t0, v) && SameAt(m1, t0, m2, t2, v); }
    }
  }

  /** Page k of the space is one that was free, now holding data[k] and mapped with perms[k]. */
  predicate NewAt(mem: seq<Page>, tab: Tables, us: seq<nat>, from: nat, f0: seq<nat>, data: seq<Page>, perms: seq<nat>,
                  k: nat)
    requires |us| <= |data| == |perms|
  {
    from <= k < |us| ==>
          us[k] in f0 && us[k] < |mem| && mem[us[k]] == data[k] && Flat(mem, tab, k) == us[k] * 1024 + WithV(perms[k])
  }

  ghost predicate New(mem: seq<Page>, tab: Tables, us: seq<nat>, from: nat, f0: seq<nat>, data: seq<Page>,
                      perms: seq<nat>)
    requires |us| <= |data| == |perms|
  {
    forall k: nat {:trigger NewAt(mem, tab, us, from, f0, data, perms, k)} ::
          NewAt(mem, tab, us, from, f0, data, perms, k)
  }

  lemma NewMore(m1: seq<Page>, t1: Tables, us1: seq<nat>, f1: seq<nat>, m2: seq<Page>, t2: Tables, us2: seq<nat>,
                from: nat, f0: seq<nat>, data: seq<Page>, perms: seq<nat>)
    requires |us2| == |us1| + 1 <= |data| == |perms| && us1 == us2[..|us1|] && |us1| < TRAPPAGE
             && New(m1, t1, us1, from, f0, data, perms)
    requires OnlyThese(m1, m2, t1.Values, f1) && forall p :: p in us1 ==> p !in f1 && p !in t1.Values
    requires us2[|us1|] in f0 && us2[|us1|] < |m2| && m2[us2[|us1|]] == data[|us1|]
             && Maps(m1, t1, m2, t2, |us1|, 1, us2[|us1|], perms[|us1|])
    ensures New(m2, t2, us2, from, f0, data, perms)
  {
    forall k: nat ensures NewAt(m2, t2, us2, from, f0, data, perms, k) {
      assert NewAt(m1, t1, us1, from, f0, data, perms, k)
             && MapAt(m1, t1, m2, t2, |us1|, 1, us2[|us1|], perms[|us1|], k);
      if k < |us1| { assert us2[k] == us1[k] && us1[k] in us1; }
    }
  }

  /** What is written stays within the first tables and free pages. */
  lemma OnlyOn(lo: nat, m0: seq<Page>, f0: seq<nat>, t0: Tables, us0: seq<nat>, m1: seq<Page>, f1: seq<nat>,
               t1: Tables, us1: seq<nat>, m2: seq<Page>)
    requires OnlyThese(m0, m1, t0.Values, f0) && OnlyThese(m1, m2, t1.Values, f1)
             && All(f1, t1, us1) == All(f0, t0, us0)
    requires us0 <= us1 && Space(lo, m1, f1, t1, us1)
    ensures OnlyThese(m0, m2, t0.Values, f0)
  {
    forall q | 0 <= q < |m0| && q !in t0.Values && q !in f0 ensures m2[q] == m0[q] {
      if q in us0 {
        assert q in us1;
      } else {
        assert q !in All(f0, t0, us0);
        assert q !in All(f1, t1, us1);
      }
    }
  }

  lemma OnlyBack(m0: seq<Page>, f0: seq<nat>, t0: Tables, us0: seq<nat>, m1: seq<Page>, f1: seq<nat>, t1: Tables,
                 us1: seq<nat>, m2: seq<Page>, rest: seq<nat>)
    requires OnlyThese(m0, m1, t0.Values, f0) && OnlyThese(m1, m2, t1.Values + Set(rest), [])
             && All(f1, t1, us1) == All(f0, t0, us0)
    requires us0 <= us1 && (forall p :: p in rest ==> p in f0) && (forall p :: p in us1 ==> p !in t1.Values)
    ensures OnlyThese(m0, m2, t0.Values, f0)
  {
    forall q | 0 <= q < |m0| && q !in t0.Values && q !in f0 ensures m2[q] == m0[q] {
      if q in us0 {
        assert q in us1;
      } else {
        assert q !in All(f0, t0, us0);
        assert q !in All(f1, t1, us1);
      }
      assert q !in t1.Values + Set(rest);
    }
  }

  lemma RestWasFree(mem: seq<Page>, tab: Tables, us: seq<nat>, from: nat, f0: seq<nat>, data: seq<Page>,
                    perms: seq<nat>)
    requires from <= |us| <= |data| == |perms| && New(mem, tab, us, from, f0, data, perms)
    ensures forall p :: p in us[from..] ==> p in f0
  {
    forall k | from <= k < |us| ensures us[k] in f0 { assert NewAt(mem, tab, us, from, f0, data, perms, k); }
  }

  /** A space that has grown from us0 to us1, the new pages holding data and mapped with perms. */
  ghost predicate Growing(lo: nat, m0: seq<Page>, f0: seq<nat>, t0: Tables, us0: seq<nat>,
                          m1: seq<Page>, f1: seq<nat>, t1: Tables, us1: seq<nat>, data: seq<Page>, perms: seq<nat>) {
    && Space(lo, m1, f1, t1, us1) && us0 <= us1 && |us1| <= |data| == |perms|
    && All(f1, t1, us1) == All(f0, t0, us0) && Set(f1) <= Set(f0) && OnlyThese(m0, m1, t0.Values, f0)
    && Beside(m0, t0, m1, t1, |us0|, |us1|) && New(m1, t1, us1, |us0|, f0, data, perms)
  }

  lemma GrowMore(lo: nat, m0: seq<Page>, f0: seq<nat>, t0: Tables, us0: seq<nat>, m1: seq<Page>, f1: seq<nat>,
                 t1: Tables, us1: seq<nat>,
                 m2: seq<Page>, f2: seq<nat>, t2: Tables, us2: seq<nat>, data: seq<Page>, perms: seq<nat>)
    requires Growing(lo, m0, f0, t0, us0, m1, f1, t1, us1, data, perms) && Space(lo, m2, f2, t2, us2)
    requires |us2| == |us1| + 1 <= |data| && us1 == us2[..|us1|] && us2[|us1|] in f1 && Set(f2) <= Set(f1)
    requires All(f2, t2, us2) == All(f1, t1, us1) && OnlyThese(m1, m2, t1.Values, f1)
    requires us2[|us1|] < |m2| && m2[us2[|us1|]] == data[|us1|]
             && Maps(m1, t1, m2, t2, |us1|, 1, us2[|us1|], perms[|us1|])
    ensures Growing(lo, m0, f0, t0, us0, m2, f2, t2, us2, data, perms)
  {
    assert us2[|us1|] in Set(f1);
    OnlyOn(lo, m0, f0, t0, us0, m1, f1, t1, us1, m2);
    BesideMore(m0, t0, m1, t1, m2, t2, |us0|, |us1|, us2[|us1|], perms[|us1|]);
    NewMore(m1, t1, us1, f1, m2, t2, us2, |us0|, f0, data, perms);
  }

  /** uvmalloc(): zeroed pages up to the new size; or, when memory runs out, every page it took
      for the user is free again and no translation has changed. */
  method Uvmalloc(m: Memory, root: nat, oldsz: nat, newsz: nat, ghost tab: Tables, ghost us: seq<nat>)
    returns (r: nat, ghost ok: bool, ghost tab': Tables, ghost us': seq<nat>)
    requires m.Valid() && Space(m.lo, m.mem, m.free, tab, us) && tab[Root] == root && |us| == Pages(oldsz)
             && newsz <= TRAPPAGE * 4096
    modifies m
    ensures m.Valid() && Space(m.lo, m.mem, m.free, tab', us') && tab'[Root] == root
    ensures All(m.free, tab', us') == All(old(m.free), tab, us) && OnlyThese(old(m.mem), m.mem, tab.Values, old(m.free))
    ensures newsz < oldsz ==>
              r == oldsz && ok && m.mem == old(m.mem) && m.free == old(m.free) && us' == us && tab' == tab
    ensures oldsz <= newsz ==> r == if ok then newsz else 0
    ensures oldsz <= newsz && ok ==>
              us <= us' && |us'| == Pages(newsz) && Beside(old(m.mem), tab, m.mem, tab', |us|, |us'|)
    ensures oldsz <= newsz && ok ==>
              New(m.mem, tab', us', |us|, old(m.free), seq(Pages(newsz), _ => Fill(0)), seq(Pages(newsz), _ => URWX))
    ensures !ok ==> us' == us && SameFlat(old(m.mem), tab, m.mem, tab')
  {
    ok, tab', us' := true, tab, us;
    if newsz < oldsz { return oldsz, true, tab, us; }
    ghost var n, data, perms := Pages(newsz), seq(Pages(newsz), _ => Fill(0)), seq(Pages(newsz), _ => URWX);
    var base := Pages(oldsz) * 4096;
    var a := base;
    while a < newsz
      invariant |us'| <= n && a == |us'| * 4096
      invariant m.Valid() && Root in tab' && tab'[Root] == root
      invariant Growing(m.lo, old(m.mem), old(m.free), tab, us, m.mem, m.free, tab', us', data, perms)
    {
      ghost var m1, f1, t1, u1 := m.mem, m.free, tab', us';
      var good;
      good, tab', us' := AddPage(m, root, a, Fill(0), URWX, tab', us');
      if !good {
        us' := Undo(m, root, a, base, old(m.mem), old(m.free), tab, us, m1, f1, t1, tab', us', data, perms);
        return 0, false, tab', us';
      }
      GrowMore(m.lo, old(m.mem), old(m.free), tab, us, m1, f1, t1, u1, m.mem, m.free, tab', us', data, perms);
      a := a + 4096;
    }
    r := newsz;
  }

  /** The pages added so far have been freed again. */
  lemma Undone(lo: nat, m0: seq<Page>, f0: seq<nat>, t0: Tables, us0: seq<nat>, m1: seq<Page>, f1: seq<nat>,
               t1: Tables, us: seq<nat>,
               m2: seq<Page>, f2: seq<nat>, tab: Tables, m3: seq<Page>, data: seq<Page>, perms: seq<nat>)
    requires Space(lo, m0, f0, t0, us0) && Growing(lo, m0, f0, t0, us0, m1, f1, t1, us, data, perms)
             && Space(lo, m2, f2, tab, us)
    requires All(f2, tab, us) == All(f1, t1, us) && OnlyThese(m1, m2, t1.Values, f1) && SameFlat(m1, t1, m2, tab)
    requires Gone(m2, m3, tab, |us0|, |us| - |us0|) && OnlyThese(m2, m3, tab.Values + Set(us[|us0|..]), [])
    ensures OnlyThese(m0, m3, t0.Values, f0) && SameFlat(m0, t0, m3, tab)
  {
    OnlyOn(lo, m0, f0, t0, us0, m1, f1, t1, us, m2);
    BesideSame(m0, t0, m1, t1, m2, tab, |us0|, |us|);
    UndoneFlat(m0, t0, m2, tab, m3, |us0|, |us|);
    RestWasFree(m1, t1, us, |us0|, f0, data, perms);
    OnlyBack(m0, f0, t0, us0, m2, f2, tab, us, m3, us[|us0|..]);
  }

  /** The error exits of uvmalloc(). */
  method Undo(m: Memory, root: nat, a: nat, base: nat, ghost m0: seq<Page>, ghost f0: seq<nat>, ghost t0: Tables,
              ghost us0: seq<nat>,
              ghost m1: seq<Page>, ghost f1: seq<nat>, ghost t1: Tables, ghost tab: Tables, ghost us: seq<nat>,
              ghost data: seq<Page>, ghost perms: seq<nat>)
    returns (ghost us': seq<nat>)
    requires m.Valid() && Space(m.lo, m.mem, m.free, tab, us) && tab[Root] == root && a == |us| * 4096
             && base == |us0| * 4096
    requires Space(m.lo, m0, f0, t0, us0) && Growing(m.lo, m0, f0, t0, us0, m1, f1, t1, us, data, perms)
    requires All(m.free, tab, us) == All(f1, t1, us) && OnlyThese(m1, m.mem, t1.Values, f1)
             && SameFlat(m1, t1, m.mem, tab)
    modifies m
    ensures m.Valid() && Space(m.lo, m.mem, m.free, tab, us') && us' == us0
    ensures All(m.free, tab, us') == All(f0, t0, us0) && OnlyThese(m0, m.mem, t0.Values, f0)
            && SameFlat(m0, t0, m.mem, tab)
  {
    ghost var m2, f2 := m.mem, m.free;
    var r;
    r, us' := Uvmdealloc(m, root, a, base, tab, us);
    Undone(m.lo, m0, f0, t0, us0, m1, f1, t1, us, m2, f2, tab, m.mem, data, perms);
  }

  // ---- uvmcopy() -------------------------------------------------------------------------------------------

  /** The contents of the first n pages of a space, and the flags they are mapped with. */
  function Contents(mem: seq<Page>, us: seq<nat>, n: nat): seq<Page>
    requires n <= |us| && forall p :: p in us ==> p < |mem|
  {
    seq(n, k requires 0 <= k < n => assert us[k] in us; mem[us[k]])
  }

  function Modes(mem: seq<Page>, tab: Tables, n: nat): seq<nat> {
    seq(n, k requires 0 <= k => Flags(Flat(mem, tab, k)))
  }

  /** A space none of whose pages has been written. */
  lemma OtherSpace(lo: nat, m0: seq<Page>, f0: seq<nat>, tab: Tables, us: seq<nat>, t0: Tables, m1: seq<Page>,
                   f1: seq<nat>)
    requires Space(lo, m0, f0, tab, us) && OnlyThese(m0, m1, t0.Values, f0) && Set(f1) <= Set(f0) + t0.Values
    requires tab.Values !! t0.Values && Set(us) !! t0.Values
    ensures Space(lo, m1, f1, tab, us) && SameFlat(m0, tab, m1, tab)
    ensures forall p :: p in us ==> p < |m0| && m1[p] == m0[p]
  {
    forall p | p in tab.Values && p < |m0| ensures m1[p] == m0[p] { var n :| n in tab && tab[n] == p; }
    forall p | p in us ensures p < |m0| && m1[p] == m0[p] { assert p in Set(us); }
    TreeFrame(lo, m0, m1, tab);
    forall n | n in tab ensures tab[n] !in f1 {
      assert tab[n] in tab.Values;
      assert tab[n] !in Set(f0) + t0.Values;
      assert tab[n] !in Set(f1);
    }
    forall p | p in us ensures p !in f1 { assert p in Set(us); assert p !in Set(f0) + t0.Values; assert p !in Set(f1); }
    forall k: nat ensures LeafAt(m1, tab, 0, us, k) { assert LeafAt(m0, tab, 0, us, k) && SameAt(m0, tab, m1, tab, k); }
    forall v: nat ensures ClearAt(m1, tab, |us|, v) { assert ClearAt(m0, tab, |us|, v) && SameAt(m0, tab, m1, tab, v); }
  }

  /** What uvmcopy() reads of the parent: the page behind page k, and its flags. */
  method ReadPage(m: Memory, root: nat, i: nat, ghost tab: Tables, ghost us: seq<nat>) returns (data: Page, flags: nat)
    requires m.Valid() && Space(m.lo, m.mem, m.free, tab, us) && tab[Root] == root && i % 4096 == 0 && i / 4096 < |us|
    modifies m
    ensures m.mem == old(m.mem) && m.free == old(m.free) && m.Valid()
    ensures us[i / 4096] < |m.mem| && data == m.mem[us[i / 4096]] && flags == Flags(Flat(m.mem, tab, i / 4096))
            && flags < 1024 && WithV(flags) == flags != 1
  {
    ghost var k := i / 4096;
    assert LeafAt(m.mem, tab, 0, us, k) && us[k] in us;
    var found, page, idx, t := Walk(m, root, i, false, tab);
    var pte := m.mem[page][idx];
    assert pte == Flat(m.mem, tab, k);
    var pa := Pte2Pa(pte);
    flags := Flags(pte);
    data := m.mem[pa / 4096];
    assert flags % 2 == pte % 2;
  }

  /** The parent's space, which shares no page with the child's tables. */
  ghost predicate ParentOk(lo: nat, mem: seq<Page>, free: seq<nat>, tf: Tables, uf: seq<nat>, tt: Tables) {
    Space(lo, mem, free, tf, uf) && tf.Values !! tt.Values && Set(uf) !! tt.Values
  }

  lemma ParentPages(lo: nat, mem: seq<Page>, free: seq<nat>, tf: Tables, uf: seq<nat>)
    requires Space(lo, mem, free, tf, uf)
    ensures forall p :: p in uf ==> p < |mem|
  {
  }

  /** One turn of the loop in uvmcopy(). */
  method CopyOne(m: Memory, from: nat, to: nat, i: nat, n: nat, ghost m0: seq<Page>, ghost f0: seq<nat>,
                 ghost tf: Tables, ghost uf: seq<nat>,
                 ghost tt: Tables, ghost t1: Tables, ghost u1: seq<nat>, ghost data: seq<Page>, ghost modes: seq<nat>)
    returns (ok: bool, ghost t2: Tables, ghost u2: seq<nat>)
    requires m.Valid() && ParentOk(m.lo, m0, f0, tf, uf, tt) && tf[Root] == from
             && Growing(m.lo, m0, f0, tt, [], m.mem, m.free, t1, u1, data, modes)
    requires t1[Root] == to && |u1| < n <= |uf| && i == |u1| * 4096
    requires (forall p :: p in uf ==> p < |m0|) && data == Contents(m0, uf, n) && modes == Modes(m0, tf, n)
    modifies m
    ensures m.Valid() && Space(m.lo, m.mem, m.free, t2, u2) && t2[Root] == to
    ensures ok ==> |u2| == |u1| + 1 && Growing(m.lo, m0, f0, tt, [], m.mem, m.free, t2, u2, data, modes)
    ensures !ok ==>
              u2 == u1 && All(m.free, t2, u1) == All(old(m.free), t1, u1)
              && OnlyThese(old(m.mem), m.mem, t1.Values, old(m.free)) && SameFlat(old(m.mem), t1, m.mem, t2)
  {
    OtherSpace(m.lo, m0, f0, tf, uf, tt, m.mem, m.free);
    ghost var k := |u1|;
    assert SameAt(m0, tf, m.mem, tf, k) && uf[k] in uf;
    var page, flags := ReadPage(m, from, i, tf, uf);
    assert page == data[k] && flags == modes[k];
    ghost var m1, f1 := m.mem, m.free;
    ok, t2, u2 := AddPage(m, to, i, page, flags, t1, u1);
    if ok {
      GrowMore(m.lo, m0, f0, tt, [], m1, f1, t1, u1, m.mem, m.free, t2, u2, data, modes);
    }
  }

  /** The error exit of uvmcopy(). */
  method UndoCopy(m: Memory, to: nat, n: nat, ghost m0: seq<Page>, ghost f0: seq<nat>, ghost t0: Tables,
                  ghost m1: seq<Page>, ghost f1: seq<nat>, ghost t1: Tables, ghost tab: Tables, ghost us: seq<nat>,
                  ghost data: seq<Page>, ghost modes: seq<nat>)
    requires m.Valid() && Space(m.lo, m.mem, m.free, tab, us) && tab[Root] == to && n == |us|
    requires Space(m.lo, m0, f0, t0, []) && Growing(m.lo, m0, f0, t0, [], m1, f1, t1, us, data, modes)
    requires All(m.free, tab, us) == All(f1, t1, us) && OnlyThese(m1, m.mem, t1.Values, f1)
             && SameFlat(m1, t1, m.mem, tab)
    modifies m
    ensures m.Valid() && Space(m.lo, m.mem, m.free, tab, [])
    ensures All(m.free, tab, []) == All(f0, t0, []) && OnlyThese(m0, m.mem, t0.Values, f0)
            && SameFlat(m0, t0, m.mem, tab)
  {
    ghost var m2, f2 := m.mem, m.free;
    PartOwned(m.lo, m.mem, m.free, tab, us, 0);
    assert us[0..] == us && us[..0] == [];
    Uvmunmap(m, to, 0, n, true, tab, us);
    SpaceLess(m.lo, m2, f2, tab, us, 0, m.mem, m.free);
    Undone(m.lo, m0, f0, t0, [], m1, f1, t1, us, m2, f2, tab, m.mem, data, modes);
  }

  /** After the copy, or after the error exit, the parent is as it was and shares no page with the child. */
  lemma Copied(lo: nat, m0: seq<Page>, f0: seq<nat>, tf: Tables, uf: seq<nat>, tt: Tables, m1: seq<Page>, f1: seq<nat>,
               t1: Tables, u1: seq<nat>)
    requires ParentOk(lo, m0, f0, tf, uf, tt) && OnlyThese(m0, m1, tt.Values, f0) && All(f1, t1, u1) == All(f0, tt, [])
    ensures Space(lo, m1, f1, tf, uf) && SameFlat(m0, tf, m1, tf) && Set(u1) !! Set(uf) + tf.Values
    ensures forall p :: p in uf ==> p < |m1| == |m0| && m1[p] == m0[p]
  {
    assert Set(f1) <= Set(f0) + tt.Values;
    OtherSpace(lo, m0, f0, tf, uf, tt, m1, f1);
    forall p | p in u1 ensures p !in Set(uf) + tf.Values {
      assert p in All(f0, tt, []);
    }
  }

  /** uvmcopy(): the child gets pages of its own with the parent's bytes and flags; or, when memory
      runs out, every page it took for the child is free again.  The parent is unchanged. */
  method Uvmcopy(m: Memory, from: nat, to: nat, sz: nat, ghost tf: Tables, ghost uf: seq<nat>, ghost tt: Tables)
    returns (r: int, ghost tt': Tables, ghost ut': seq<nat>)
    requires m.Valid() && ParentOk(m.lo, m.mem, m.free, tf, uf, tt) && Space(m.lo, m.mem, m.free, tt, [])
             && tf[Root] == from && tt[Root] == to
    requires Pages(sz) <= |uf|
    modifies m
    ensures m.Valid() && Space(m.lo, m.mem, m.free, tf, uf) && Space(m.lo, m.mem, m.free, tt', ut') && tt'[Root] == to
    ensures All(m.free, tt', ut') == All(old(m.free), tt, []) && SameFlat(old(m.mem), tf, m.mem, tf)
            && Set(ut') !! Set(uf) + tf.Values
    ensures forall p :: p in uf ==> p < |m.mem| == |old(m.mem)| && m.mem[p] == old(m.mem[p])
    ensures r == 0 || r == -1
    ensures r == 0 ==>
              |ut'| == Pages(sz) && New(m.mem, tt', ut', 0, old(m.free), Contents(old(m.mem), uf, Pages(sz)),
                  Modes(old(m.mem), tf, Pages(sz)))
    ensures r == -1 ==> ut' == [] && SameFlat(old(m.mem), tt, m.mem, tt')
  {
    ParentPages(m.lo, m.mem, m.free, tf, uf);
    ghost var n := Pages(sz);
    ghost var data, modes := Contents(m.mem, uf, n), Modes(m.mem, tf, n);
    tt', ut' := tt, [];
    var i := 0;
    while i < sz
      invariant |ut'| <= n && i == |ut'| * 4096
      invariant m.Valid() && Root in tt' && tt'[Root] == to
      invariant Growing(m.lo, old(m.mem), old(m.free), tt, [], m.mem, m.free, tt', ut', data, modes)
    {
      ghost var m1, f1, t1, u1 := m.mem, m.free, tt', ut';
      var good;
      good, tt', ut' := CopyOne(m, from, to, i, Pages(sz), old(m.mem), old(m.free), tf, uf, tt, tt', ut', data, modes);
      if !good {
        UndoCopy(m, to, i / 4096, old(m.mem), old(m.free), tt, m1, f1, t1, tt', ut', data, modes);
        Copied(m.lo, old(m.mem), old(m.free), tf, uf, tt, m.mem, m.free, tt', []);
        return -1, tt', [];
      }
      i := i + 4096;
    }
    Copied(m.lo, old(m.mem), old(m.free), tf, uf, tt, m.mem, m.free, tt', ut');
    r := 0;
  }

  // ---- freewalk(), uvmfree() ---------------------------------------------------------------------------------

  predicate Under(n: Node, k: Node) { n.Root? || k == n || (n.Mid? && k.Low? && k.i == n.i) }

  /** Table k hangs below one of the first i entries of table n. */
  predicate Before(n: Node, i: nat, k: Node) {
    (n.Root? && !k.Root? && k.i < i) || (n.Mid? && k.Low? && k.i == n.i && k.j < i)
  }

  ghost function PagesUnder(tab: Tables, n: Node): set<nat> { set k | k in tab && Under(n, k) :: tab[k] }
  ghost function PagesBefore(tab: Tables, n: Node, i: nat): set<nat> { set k | k in tab && Before(n, i, k) :: tab[k] }

  predicate IntactAt(m0: seq<Page>, mem: seq<Page>, tab: Tables, free: seq<nat>, n: Node, k: Node) {
    k in tab && Under(n, k) ==> tab[k] < |m0| == |mem| && mem[tab[k]] == m0[tab[k]] && tab[k] !in free
  }

  /** The tables from n down are as they were in m0. */
  ghost predicate Intact(m0: seq<Page>, mem: seq<Page>, tab: Tables, free: seq<nat>, n: Node) {
    forall k {:trigger IntactAt(m0, mem, tab, free, n, k)} :: IntactAt(m0, mem, tab, free, n, k)
  }

  predicate BareAt(mem: seq<Page>, tab: Tables, k: Node, x: nat) {
    k in tab && k.Low? && x < 512 && tab[k] < |mem| ==> !IsValid(mem[tab[k]][x])
  }

  /** No leaf table holds a valid entry. */
  ghost predicate Bare(mem: seq<Page>, tab: Tables) {
    forall k, x: nat {:trigger BareAt(mem, tab, k, x)} :: BareAt(mem, tab, k, x)
  }

  /** What freewalk() sees at entry x of table n. */
  lemma WalkEntry(lo: nat, mem: seq<Page>, tab: Tables, n: Node, x: nat)
    requires TreeOk(lo, mem, tab) && Bare(mem, tab) && n in tab && x < 512
    ensures tab[n] < |mem|
    ensures var pte := mem[tab[n]][x];
            && (IsValid(pte) <==> !n.Low? && Child(n, x) in tab)
            && (IsValid(pte) ==> !IsLeaf(pte) && Pte2Pa(pte) == tab[Child(n, x)] * 4096)
  {
    assert TableAt(lo, mem, tab, n) && EntryAt(mem, tab, n, x) && BareAt(mem, tab, n, x);
    if !n.Low? && Child(n, x) in tab { LowBits(tab[Child(n, x)], 1); }
  }

  lemma NextBefore(lo: nat, mem: seq<Page>, tab: Tables, n: Node, i: nat)
    requires TreeOk(lo, mem, tab) && n in tab && i < 512
    ensures PagesBefore(tab, n, 0) == {}
    ensures PagesBefore(tab, n, i + 1) ==
              PagesBefore(tab, n, i) + (if n.Low? || Child(n, i) !in tab then {} else PagesUnder(tab, Child(n, i)))
    ensures PagesUnder(tab, n) == PagesBefore(tab, n, 512) + {tab[n]}
  {
    forall k | k in tab ensures Before(n, i + 1, k) <==>
          Before(n, i, k) || (!n.Low? && Child(n, i) in tab && Under(Child(n, i), k)) {
      assert TableAt(lo, mem, tab, k);
    }
    forall k | k in tab ensures Under(n, k) <==> Before(n, 512, k) || k == n { assert TableAt(lo, mem, tab, k); }
  }

  /** The tables below entry i are still as they were when those before it are gone. */
  lemma StillIntact(lo: nat, m0: seq<Page>, m1: seq<Page>, f1: seq<nat>, m2: seq<Page>, f2: seq<nat>, tab: Tables,
                    n: Node, i: nat)
    requires TreeOk(lo, m0, tab) && n in tab && !n.Low? && i < 512 && Child(n, i) in tab && Intact(m0, m1, tab, f1, n)
    requires Set(f2) == Set(f1) + PagesBefore(tab, n, i) && OnlyThese(m1, m2, PagesBefore(tab, n, i) + {tab[n]}, [])
    ensures Intact(m0, m2, tab, f2, Child(n, i))
  {
    forall k ensures IntactAt(m0, m2, tab, f2, Child(n, i), k) {
      if k in tab && Under(Child(n, i), k) {
        assert IntactAt(m0, m1, tab, f1, n, k) && ApartAt(tab, k, n);
        forall l | l in tab && Before(n, i, l) ensures tab[l] != tab[k] { assert ApartAt(tab, k, l); }
        assert tab[k] !in PagesBefore(tab, n, i);
        assert tab[k] !in Set(f1) + PagesBefore(tab, n, i);
        assert tab[k] !in Set(f2);
      }
    }
  }

  function Height(n: Node): nat { if n.Root? then 2 else if n.Mid? then 1 else 0 }

  /** What freewalk() has done when it has been through the first i entries of table n. */
  ghost predicate Walked(m1: seq<Page>, f1: seq<nat>, m2: seq<Page>, f2: seq<nat>, tab: Tables, n: Node, i: nat)
    requires n in tab
  {
    && Set(f2) == Set(f1) + PagesBefore(tab, n, i) && OnlyThese(m1, m2, PagesBefore(tab, n, i) + {tab[n]}, [])
    && tab[n] < |m1| && tab[n] !in f2 && forall x :: i <= x < 512 ==> m2[tab[n]][x] == m1[tab[n]][x]
  }

  lemma WalkedOn(lo: nat, m0: seq<Page>, m1: seq<Page>, f1: seq<nat>, m2: seq<Page>, f2: seq<nat>, m3: seq<Page>,
                 f3: seq<nat>, tab: Tables, n: Node, i: nat)
    requires TreeOk(lo, m0, tab) && n in tab && !n.Low? && i < 512 && Child(n, i) in tab
    requires Walked(m1, f1, m2, f2, tab, n, i) && Set(f3) == Set(f2) + PagesUnder(tab, Child(n, i))
             && OnlyThese(m2, m3, PagesUnder(tab, Child(n, i)), [])
    ensures tab[n] < |m3| && Walked(m1, f1, m3[tab[n] := m3[tab[n]][i := 0]], f3, tab, n, i + 1)
  {
    NextBefore(lo, m0, tab, n, i);
    forall k | k in tab && Under(Child(n, i), k) ensures tab[k] != tab[n] { assert ApartAt(tab, k, n); }
    assert tab[n] !in PagesUnder(tab, Child(n, i));
    assert tab[n] !in Set(f2) + PagesUnder(tab, Child(n, i));
    assert tab[n] !in Set(f3);
  }

  /** One entry of freewalk()'s loop that leads to a table. */
  method FreeChild(m: Memory, page: nat, i: nat, ghost n: Node, ghost tab: Tables, ghost m0: seq<Page>,
                   ghost m1: seq<Page>, ghost f1: seq<nat>)
    requires m.Valid() && TreeOk(m.lo, m0, tab) && Bare(m0, tab) && n in tab && page == tab[n]
             && Intact(m0, m1, tab, f1, n)
    requires |m0| == |m1| && !n.Low? && i < 512 && Child(n, i) in tab && Walked(m1, f1, m.mem, m.free, tab, n, i)
             && m.mem[page][i] == m0[page][i]
    modifies m
    ensures m.Valid() && Walked(m1, f1, m.mem, m.free, tab, n, i + 1)
    decreases Height(n), 0
  {
    WalkEntry(m.lo, m0, tab, n, i);
    StillIntact(m.lo, m0, m1, f1, m.mem, m.free, tab, n, i);
    ghost var m2, f2 := m.mem, m.free;
    var child := Pte2Pa(m.mem[page][i]) / 4096;
    Freewalk(m, child, Child(n, i), tab, m0);
    WalkedOn(m.lo, m0, m1, f1, m2, f2, m.mem, m.free, tab, n, i);
    ghost var m3 := m.mem;
    m.mem := m.mem[page := m.mem[page][i := 0]];
    ChainFrame(m3, m.mem, m.freelist, m.free);
  }

  /** freewalk(): every table from n down is freed, once; its panic needs a leaf. */
  method Freewalk(m: Memory, page: nat, ghost n: Node, ghost tab: Tables, ghost m0: seq<Page>)
    requires m.Valid() && TreeOk(m.lo, m0, tab) && Bare(m0, tab) && n in tab && page == tab[n]
             && Intact(m0, m.mem, tab, m.free, n)
    modifies m
    ensures m.Valid() && Set(m.free) == Set(old(m.free)) + PagesUnder(tab, n)
            && OnlyThese(old(m.mem), m.mem, PagesUnder(tab, n), [])
    decreases Height(n), 1
  {
    assert IntactAt(m0, m.mem, tab, m.free, n, n) && TableAt(m.lo, m0, tab, n);
    NextBefore(m.lo, m0, tab, n, 0);
    for i := 0 to 512
      invariant m.Valid() && Walked(old(m.mem), old(m.free), m.mem, m.free, tab, n, i)
    {
      var pte := m.mem[page][i];
      WalkEntry(m.lo, m0, tab, n, i);
      NextBefore(m.lo, m0, tab, n, i);
      if IsValid(pte) && !IsLeaf(pte) {
        FreeChild(m, page, i, n, tab, m0, old(m.mem), old(m.free));
      } else if IsValid(pte) {
        assert false;
      }
    }
    ghost var f2 := m.free;
    m.Kfree(page * 4096);
    assert Set(m.free) == Set(f2) + {page};
  }

  /** Nothing is mapped from page `from` on. */
  ghost predicate Empty(mem: seq<Page>, tab: Tables, from: nat) {
    forall v: nat {:trigger Flat(mem, tab, v)} :: from <= v < MAXPAGE ==> Flat(mem, tab, v) == 0
  }

  lemma EmptyIsBare(lo: nat, mem: seq<Page>, tab: Tables)
    requires TreeOk(lo, mem, tab) && Empty(mem, tab, 0)
    ensures Bare(mem, tab)
  {
    forall k, x: nat ensures BareAt(mem, tab, k, x) {
      if k in tab && k.Low? && x < 512 {
        assert TableAt(lo, mem, tab, k);
        var v := k.i * 262144 + k.j * 512 + x;
        assert v / 512 == k.i * 512 + k.j && v % 512 == x;
        assert v / 262144 == v / 512 / 512;
        assert LowOf(v) == k;
        assert Flat(mem, tab, v) == 0;
      }
    }
  }

  lemma AllUnder(tab: Tables)
    ensures PagesUnder(tab, Root) == tab.Values
  {
    forall p | p in tab.Values ensures p in PagesUnder(tab, Root) {
      var n :| n in tab && tab[n] == p;
      assert Under(Root, n);
    }
  }

  /** uvmfree(): every page of the space, user page or table, is free again. */
  method Uvmfree(m: Memory, root: nat, sz: nat, ghost tab: Tables, ghost us: seq<nat>)
    requires m.Valid() && Space(m.lo, m.mem, m.free, tab, us) && tab[Root] == root && |us| == Pages(sz)
             && Empty(m.mem, tab, TRAPPAGE)
    modifies m
    ensures m.Valid() && Set(m.free) == All(old(m.free), tab, us) && |m.mem| == |old(m.mem)|
    ensures OnlyThese(old(m.mem), m.mem, tab.Values + Set(us), [])
  {
    if sz > 0 {
      PartOwned(m.lo, m.mem, m.free, tab, us, 0);
      assert us[0..] == us && us[..0] == [];
      Uvmunmap(m, root, 0, Pages(sz), true, tab, us);
      SpaceLess(m.lo, old(m.mem), old(m.free), tab, us, 0, m.mem, m.free);
    }
    Emptied(old(m.mem), m.mem, tab, |us|);
    EmptyIsBare(m.lo, m.mem, tab);
    ghost var m1 := m.mem;
    forall k ensures IntactAt(m1, m.mem, tab, m.free, Root, k) { assert TableAt(m.lo, m.mem, tab, k); }
    Freewalk(m, root, Root, tab, m1);
    AllUnder(tab);
  }

  lemma Emptied(m0: seq<Page>, m1: seq<Page>, tab: Tables, n: nat)
    requires Clear(m0, tab, n) && Empty(m0, tab, TRAPPAGE) && (Gone(m0, m1, tab, 0, n) || (m1 == m0 && n == 0))
    ensures Empty(m1, tab, 0)
  {
    forall v: nat | v < MAXPAGE ensures Flat(m1, tab, v) == 0 {
      assert ClearAt(m0, tab, n, v) && (m1 != m0 ==> GoneAt(m0, m1, tab, 0, n, v));
    }
  }

  // ---- proc_pagetable(), proc_freepagetable() ------------------------------------------------------------------

  const RX: nat := 10
  const RW: nat := 6

  /** An address space whose only other mappings are the trap frame and the trampoline. */
  ghost predicate Proc(lo: nat, mem: seq<Page>, free: seq<nat>, tab: Tables, us: seq<nat>, trapframe: nat,
                       trampoline: nat) {
    && Space(lo, mem, free, tab, us)
    && Flat(mem, tab, TRAPPAGE) == Entry(trapframe, RW) && Flat(mem, tab, TRAPPAGE + 1) == Entry(trampoline, RX)
  }

  lemma TopLeaves(mem: seq<Page>, tab: Tables, v: nat, pa: nat, perm: nat)
    requires Flat(mem, tab, v) == Entry(pa, perm) && (perm == RX || perm == RW)
    ensures Leaves(mem, tab, v, [pa / 4096])
  {
    EntryRoundTrip(pa, perm);
    forall k: nat ensures LeafAt(mem, tab, v, [pa / 4096], k) {}
  }

  /** uvmunmap() of one page at or above the trap frame. */
  method DropTop(m: Memory, root: nat, v: nat, pa: nat, perm: nat, ghost tab: Tables, ghost us: seq<nat>)
    requires m.Valid() && Space(m.lo, m.mem, m.free, tab, us) && tab[Root] == root && TRAPPAGE <= v < MAXPAGE
    requires Flat(m.mem, tab, v) == Entry(pa, perm) && (perm == RX || perm == RW)
    modifies m
    ensures m.Valid() && Space(m.lo, m.mem, m.free, tab, us) && m.free == old(m.free)
            && OnlyThese(old(m.mem), m.mem, tab.Values, [])
    ensures forall w: nat {:trigger Flat(m.mem, tab, w)} :: w < MAXPAGE ==>
              Flat(m.mem, tab, w) == if w == v then 0 else Flat(old(m.mem), tab, w)
  {
    TopLeaves(m.mem, tab, v, pa, perm);
    Uvmunmap(m, root, v * 4096, 1, false, tab, [pa / 4096]);
    forall w: nat | w < MAXPAGE ensures Flat(m.mem, tab, w) == if w == v then 0 else Flat(old(m.mem), tab, w) {
      assert GoneAt(old(m.mem), m.mem, tab, v, 1, w);
    }
    forall k: nat ensures LeafAt(m.mem, tab, 0, us, k) { assert LeafAt(old(m.mem), tab, 0, us, k); }
    forall w: nat ensures ClearAt(m.mem, tab, |us|, w) { assert ClearAt(old(m.mem), tab, |us|, w); }
  }

  /** proc_freepagetable(): the trampoline and the trap frame are only unmapped; every user page and
      every table is freed, once. */
  method ProcFreepagetable(m: Memory, root: nat, sz: nat, trapframe: nat, trampoline: nat, ghost tab: Tables,
                           ghost us: seq<nat>)
    requires m.Valid() && Proc(m.lo, m.mem, m.free, tab, us, trapframe, trampoline) && tab[Root] == root
             && |us| == Pages(sz)
    modifies m
    ensures m.Valid() && Set(m.free) == All(old(m.free), tab, us)
            && OnlyThese(old(m.mem), m.mem, tab.Values + Set(us), [])
  {
    DropTop(m, root, TRAPPAGE + 1, trampoline, RX, tab, us);
    DropTop(m, root, TRAPPAGE, trapframe, RW, tab, us);
    Uvmfree(m, root, sz, tab, us);
  }

  /** Mapping one page at or above the trap frame. */
  method MapTop(m: Memory, root: nat, v: nat, pa: nat, perm: nat, ghost tab: Tables)
      returns (r: int, ghost tab': Tables)
    requires m.Valid() && Space(m.lo, m.mem, m.free, tab, []) && tab[Root] == root && TRAPPAGE <= v < MAXPAGE
             && perm < 1024
    requires Flat(m.mem, tab, v) == 0
    modifies m
    ensures m.Valid() && Space(m.lo, m.mem, m.free, tab', []) && tab'[Root] == root
            && All(m.free, tab', []) == All(old(m.free), tab, [])
    ensures OnlyThese(old(m.mem), m.mem, tab.Values, old(m.free)) && (r == 0 || r == -1)
    ensures forall w: nat {:trigger Flat(m.mem, tab', w)} :: w < MAXPAGE ==>
              Flat(m.mem, tab', w) == if w == v && r == 0 then Entry(pa, perm) else Flat(old(m.mem), tab, w)
  {
    ghost var done;
    r, tab', done := Mappages(m, root, v * 4096, 4096, pa, perm, tab);
    forall w: nat | w < MAXPAGE ensures Flat(m.mem, tab', w) == if w == v && r == 0 then Entry(pa, perm)
          else Flat(old(m.mem), tab, w) {
      assert MapAt(old(m.mem), tab, m.mem, tab', v, done, pa / 4096, perm, w);
    }
    forall k: nat ensures LeafAt(m.mem, tab', 0, [], k) {}
    forall w: nat ensures ClearAt(m.mem, tab', 0, w) { assert ClearAt(old(m.mem), tab, 0, w); }
  }

  lemma FreshTree(lo: nat, mem: seq<Page>, free: seq<nat>, p: nat)
    requires 0 < lo <= p < |mem| && mem[p] == Fill(0) && p !in free
    ensures Space(lo, mem, free, map[Root := p], []) && Empty(mem, map[Root := p], 0)
  {
    var tab := map[Root := p];
    assert tab.Values == {p};
    forall n ensures TableAt(lo, mem, tab, n) {}
    forall n, x: nat ensures EntryAt(mem, tab, n, x) {}
    forall k: nat ensures LeafAt(mem, tab, 0, [], k) {}
    forall v: nat ensures ClearAt(mem, tab, 0, v) {}
  }

  /** uvmcreate() */
  method Uvmcreate(m: Memory) returns (root: nat)
    requires m.Valid()
    modifies m
    ensures m.Valid() && (root == 0 ==> m.free == old(m.free) && m.mem == old(m.mem))
    ensures root != 0 ==>
              Space(m.lo, m.mem, m.free, map[Root := root], []) && Empty(m.mem, map[Root := root], 0)
              && Set(old(m.free)) == Set(m.free) + {root}
    ensures OnlyThese(old(m.mem), m.mem, {}, old(m.free))
  {
    var pa := m.Kalloc();
    if pa == 0 { return 0; }
    root := pa / 4096;
    DistinctRest(old(m.free));
    assert old(m.free) == [root] + m.free && root in old(m.free);
    ghost var m1 := m.mem;
    m.mem := m.mem[root := Fill(0)];
    ChainFrame(m1, m.mem, m.freelist, m.free);
    FreshTree(m.lo, m.mem, m.free, root);
  }

  /** proc_pagetable(): a page table with the trampoline and the trap frame; or 0, and then every
      page it took is free again. */
  method ProcPagetable(m: Memory, trapframe: nat, trampoline: nat) returns (root: nat, ghost tab: Tables)
    requires m.Valid()
    modifies m
    ensures m.Valid() && |m.mem| == |old(m.mem)|
    ensures root == 0 ==> Set(m.free) == Set(old(m.free))
    ensures root != 0 ==>
              Proc(m.lo, m.mem, m.free, tab, [], trapframe, trampoline) && tab[Root] == root
              && All(m.free, tab, []) == Set(old(m.free))
  {
    root := Uvmcreate(m);
    tab := map[Root := root];
    if root == 0 { return; }
    assert tab.Values == {root};
    var r;
    r, tab := MapTop(m, root, TRAPPAGE + 1, trampoline, RX, tab);
    if r < 0 {
      Uvmfree(m, root, 0, tab, []);
      return 0, tab;
    }
    r, tab := MapTop(m, root, TRAPPAGE, trapframe, RW, tab);
    if r < 0 {
      DropTop(m, root, TRAPPAGE + 1, trampoline, RX, tab, []);
      Uvmfree(m, root, 0, tab, []);
      return 0, tab;
    }
  }
}