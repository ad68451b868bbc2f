/** Sv39 page tables as kernel/vm.c and kernel/riscv.h lay them out: a tree of table pages that
    stands for a flat map from page numbers to page-table entries. */
module VmTree {
  import opened Kalloc

  const MAXPAGE: nat := 0x400_0000           // MAXVA / 4096
  const MAXVA: nat := 0x40_0000_0000

  // ---- entries -----------------------------------------------------------------------------------

  function Pa2Pte(pa: nat): nat { pa / 4096 * 1024 }
  function Pte2Pa(pte: nat): nat { pte / 1024 * 4096 }
  function Flags(pte: nat): nat { pte % 1024 }
  predicate IsValid(pte: nat) { pte % 2 == 1 }
  predicate IsLeaf(pte: nat) { pte / 2 % 8 != 0 }                 // one of R, W, X
  predicate IsUser(pte: nat) { pte / 16 % 2 == 1 }
  function WithV(perm: nat): nat { if perm % 2 == 1 then perm else perm + 1 }

  /** PA2PTE(pa) | perm | PTE_V */
  function Entry(pa: nat, perm: nat): nat { Pa2Pte(pa) + WithV(perm) }

  lemma EntryRoundTrip(pa: nat, perm: nat)
    requires perm < 1024
    ensures var pte := Entry(pa, perm);
            Pte2Pa(pte) == pa - pa % 4096 && Flags(pte) == WithV(perm) && IsValid(pte)
            && (IsLeaf(pte) <==> IsLeaf(perm))
  {
    LowBits(pa / 4096, WithV(perm));
    assert WithV(perm) / 2 == perm / 2;
  }

  lemma LowBits(q: nat, f: nat)
    requires f < 1024
    ensures var pte := q * 1024 + f; pte / 1024 == q && pte % 1024 == f && pte % 2 == f % 2 && pte / 2 % 8 == f / 2 % 8
  {
    assert (q * 1024 + f) / 2 == q * 512 + f / 2;
    assert (q * 512 + f / 2) % 8 == f / 2 % 8;
  }

  // ---- the three indices -----------------------------------------------------------------------------

  /** PX(level, va) */
  function Px(level: nat, va: nat): (x: nat)
    requires level < 3
    ensures x < 512
  {
    if level == 0 then va / 4096 % 512 else if level == 1 then va / 0x20_0000 % 512 else va / 0x4000_0000 % 512
  }

  /** The indices name a page uniquely. */
  lemma IndicesNamePage(va: nat, vb: nat)
    requires va < MAXVA && vb < MAXVA
    ensures Px(2, va) == Px(2, vb) && Px(1, va) == Px(1, vb) && Px(0, va) == Px(0, vb) <==> va / 4096 == vb / 4096
  {
    PagesOf(va);
    PagesOf(vb);
  }

  lemma PagesOf(va: nat)
    requires va < MAXVA
    ensures var v := va / 4096;
            v == Px(2, va) * 262144 + Px(1, va) * 512 + Px(0, va) && Px(2, va) == v / 262144
            && Px(1, va) == v / 512 % 512 && Px(0, va) == v % 512
  {
    var v := va / 4096;
    assert va / 0x20_0000 == v / 512 && va / 0x4000_0000 == v / 262144;
    assert v / 262144 == v / 512 / 512;
  }

  // ---- the tree -----------------------------------------------------------------------------------------

  /** A table: the root, the one its entry i leads to, or the one entry j of that leads to. */
  datatype Node = Root | Mid(i: nat) | Low(i: nat, j: nat)

  type Tables = map<Node, nat>

  function Child(n: Node, x: nat): Node
    requires !n.Low?
  {
    if n.Root? then Mid(x) else Low(n.i, x)
  }

  /** How many entries of a table are used: MAXVA reaches only half of the root. */
  function Width(n: Node): nat { if n.Root? then 256 else 512 }

  function Parent(n: Node): Node { if n.Low? then Mid(n.i) else Root }

  /** The leaf table for page v. */
  function LowOf(v: nat): Node { Low(v / 262144, v / 512 % 512) }

  predicate TableAt(lo: nat, mem: seq<Page>, tab: Tables, n: Node) {
    n in tab ==>
          0 < lo <= tab[n] < |mem| && Parent(n) in tab && (n.Mid? ==> n.i < 256) && (n.Low? ==> n.i < 256 && n.j < 512)
  }

  predicate ApartAt(tab: Tables, n: Node, k: Node) { n in tab && k in tab && n != k ==> tab[n] != tab[k] }

  predicate EntryAt(mem: seq<Page>, tab: Tables, n: Node, x: nat) {
    n in tab && !n.Low? && x < 512 && tab[n] < |mem| ==>
      mem[tab[n]][x] == if Child(n, x) in tab then tab[Child(n, x)] * 1024 + 1 else 0
  }

  /** The tables form a tree in which no page is shared. */
  ghost predicate TreeOk(lo: nat, mem: seq<Page>, tab: Tables) {
    && Root in tab
    && (forall n {:trigger TableAt(lo, mem, tab, n)} :: TableAt(lo, mem, tab, n))
    && (forall n, k {:trigger ApartAt(tab, n, k)} :: ApartAt(tab, n, k))
    && (forall n, x: nat {:trigger EntryAt(mem, tab, n, x)} :: EntryAt(mem, tab, n, x))
  }

  /** The entry for page v; 0 where there is no leaf table. */
  function Flat(mem: seq<Page>, tab: Tables, v: nat): nat {
    if LowOf(v) in tab && tab[LowOf(v)] < |mem| then mem[tab[LowOf(v)]][v % 512] else 0
  }

  predicate SameAt(m0: seq<Page>, t0: Tables, m1: seq<Page>, t1: Tables, v: nat) {
    v < MAXPAGE ==> Flat(m1, t1, v) == Flat(m0, t0, v)
  }

  ghost predicate SameFlat(m0: seq<Page>, t0: Tables, m1: seq<Page>, t1: Tables) {
    forall v: nat {:trigger SameAt(m0, t0, m1, t1, v)} :: SameAt(m0, t0, m1, t1, v)
  }

  // ---- changes ---------------------------------------------------------------------------------------------

  /** A tree depends on nothing but its own pages. */
  lemma TreeFrame(lo: nat, m0: seq<Page>, m1: seq<Page>, tab: Tables)
    requires TreeOk(lo, m0, tab) && |m0| == |m1| && forall p :: p in tab.Values && p < |m0| ==> m1[p] == m0[p]
    ensures TreeOk(lo, m1, tab) && SameFlat(m0, tab, m1, tab)
  {
    forall n ensures TableAt(lo, m1, tab, n) { assert TableAt(lo, m0, tab, n); }
    forall n, x: nat ensures EntryAt(m1, tab, n, x) { assert EntryAt(m0, tab, n, x) && TableAt(lo, m0, tab, n); }
    forall v: nat ensures SameAt(m0, tab, m1, tab, v) { assert TableAt(lo, m0, tab, LowOf(v)); }
  }

  /** Memory with page p zeroed and made the table that entry x of table n leads to. */
  function Hang(mem: seq<Page>, tab: Tables, n: Node, x: nat, p: nat): seq<Page>
    requires n in tab && tab[n] < |mem| && p < |mem| && x < 512
  {
    var m := mem[p := Fill(0)];
    m[tab[n] := m[tab[n]][x := p * 1024 + 1]]
  }

  lemma HangKeeps(lo: nat, mem: seq<Page>, tab: Tables, n: Node, x: nat, p: nat)
    requires TreeOk(lo, mem, tab) && n in tab && !n.Low? && x < Width(n) && Child(n, x) !in tab && p !in tab.Values
             && lo <= p < |mem|
    ensures tab[n] < |mem|
    ensures TreeOk(lo, Hang(mem, tab, n, x, p), tab[Child(n, x) := p])
            && SameFlat(mem, tab, Hang(mem, tab, n, x, p), tab[Child(n, x) := p])
  {
    assert TableAt(lo, mem, tab, n);
    var m, t := Hang(mem, tab, n, x, p), tab[Child(n, x) := p];
    forall k ensures TableAt(lo, m, t, k) { assert TableAt(lo, mem, tab, k); }
    forall k, l ensures ApartAt(t, k, l) { assert ApartAt(tab, k, l); }
    forall k, y: nat ensures EntryAt(m, t, k, y) { HungEntry(lo, mem, tab, n, x, p, k, y); }
    forall v: nat ensures SameAt(mem, tab, m, t, v) { HungFlat(lo, mem, tab, n, x, p, v); }
  }

  lemma HungEntry(lo: nat, mem: seq<Page>, tab: Tables, n: Node, x: nat, p: nat, k: Node, y: nat)
    requires TreeOk(lo, mem, tab) && n in tab && !n.Low? && x < Width(n) && Child(n, x) !in tab && p !in tab.Values
             && lo <= p < |mem|
    ensures tab[n] < |mem| && EntryAt(Hang(mem, tab, n, x, p), tab[Child(n, x) := p], k, y)
  {
    assert TableAt(lo, mem, tab, n) && EntryAt(mem, tab, k, y) && ApartAt(tab, k, n) && TableAt(lo, mem, tab, k);
    if k == Child(n, x) && !k.Low? { assert TableAt(lo, mem, tab, Child(k, y)); }
  }

  lemma HungFlat(lo: nat, mem: seq<Page>, tab: Tables, n: Node, x: nat, p: nat, v: nat)
    requires TreeOk(lo, mem, tab) && n in tab && !n.Low? && x < Width(n) && Child(n, x) !in tab && p !in tab.Values
             && lo <= p < |mem|
    ensures tab[n] < |mem| && SameAt(mem, tab, Hang(mem, tab, n, x, p), tab[Child(n, x) := p], v)
  {
    assert TableAt(lo, mem, tab, n) && TableAt(lo, mem, tab, LowOf(v)) && ApartAt(tab, LowOf(v), n);
  }

  /** Memory with the entry for page v set. */
  function SetLeaf(mem: seq<Page>, tab: Tables, v: nat, pte: nat): seq<Page>
    requires LowOf(v) in tab && tab[LowOf(v)] < |mem|
  {
    mem[tab[LowOf(v)] := mem[tab[LowOf(v)]][v % 512 := pte]]
  }

  /** Setting one leaf entry changes one translation. */
  lemma SetLeafKeeps(lo: nat, mem: seq<Page>, tab: Tables, v: nat, pte: nat)
    requires TreeOk(lo, mem, tab) && LowOf(v) in tab && v < MAXPAGE
    ensures tab[LowOf(v)] < |mem| && TreeOk(lo, SetLeaf(mem, tab, v, pte), tab)
    ensures forall w: nat {:trigger Flat(SetLeaf(mem, tab, v, pte), tab, w)} :: w < MAXPAGE ==>
              Flat(SetLeaf(mem, tab, v, pte), tab, w) == if w == v then pte else Flat(mem, tab, w)
  {
    assert TableAt(lo, mem, tab, LowOf(v));
    var m := SetLeaf(mem, tab, v, pte);
    forall n ensures TableAt(lo, m, tab, n) { assert TableAt(lo, mem, tab, n); }
    forall n, x: nat ensures EntryAt(m, tab, n, x) { assert EntryAt(mem, tab, n, x) && ApartAt(tab, n, LowOf(v)); }
    forall w: nat | w < MAXPAGE ensures Flat(m, tab, w) == if w == v then pte else Flat(mem, tab, w) {
      assert ApartAt(tab, LowOf(w), LowOf(v)) && TableAt(lo, mem, tab, LowOf(w));
      SamePage(v, w);
    }
  }

  lemma SamePage(v: nat, w: nat)
    ensures LowOf(v) == LowOf(w) && v % 512 == w % 512 <==> v == w
  {
    assert v / 262144 == v / 512 / 512 && w / 262144 == w / 512 / 512;
  }
}
