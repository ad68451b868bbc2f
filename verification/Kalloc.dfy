/** kernel/kalloc.c: the free list of physical pages, threaded through the pages themselves.
    Memory is a sequence of pages of 512 words; page p lies at address p * 4096, PGSIZE
    being 4096. */
module Kalloc {
  import opened Finite

  type Page = p: seq<nat> | |p| == 512 witness seq(512, _ => 0)

  function Fill(w: nat): Page { seq(512, _ => w) }

  const JUNK1: nat := 0x0101_0101_0101_0101
  const JUNK5: nat := 0x0505_0505_0505_0505

  lemma DistinctCons(p: nat, s: seq<nat>)
    requires Distinct(s) && p !in s
    ensures Distinct([p] + s)
  {
    var t := [p] + s;
    forall i, j ensures DistinctAt(t, i, j) { assert DistinctAt(s, i - 1, j - 1); }
  }

  lemma DistinctRest(s: seq<nat>)
    requires Distinct(s) && s != []
    ensures Distinct(s[1..]) && s[0] !in s[1..]
  {
    var t := s[1..];
    forall i, j ensures DistinctAt(t, i, j) { assert DistinctAt(s, i + 1, j + 1); }
    forall j | 0 <= j < |t| ensures t[j] != s[0] { assert DistinctAt(s, 0, j + 1); }
  }

  /** The list that starts at address `head` runs through the pages in `free`. */
  predicate Chain(mem: seq<Page>, head: nat, free: seq<nat>)
    decreases |free|
  {
    if free == [] then head == 0
    else head == free[0] * 4096 && 0 < free[0] < |mem| && Chain(mem, mem[free[0]][0], free[1..])
  }

  /** The list depends on nothing but its own pages. */
  lemma {:induction false} ChainFrame(m0: seq<Page>, m1: seq<Page>, head: nat, free: seq<nat>)
    requires Chain(m0, head, free) && |m0| == |m1| && forall p :: p in free && p < |m0| ==> m1[p] == m0[p]
    ensures Chain(m1, head, free)
    decreases |free|
  {
    if free != [] {
      ChainFrame(m0, m1, m0[free[0]][0], free[1..]);
    }
  }

  class Memory {
    const lo: nat                            // the first page after the kernel
    var mem: seq<Page>
    var freelist: nat
    ghost var free: seq<nat>

    ghost predicate Valid()
      reads this
    {
      && 0 < lo && Chain(mem, freelist, free) && Distinct(free)
      && forall p :: p in free ==> lo <= p < |mem|
    }

    /** kinit(): every page from `end` to PHYSTOP is put on the list. */
    constructor (end: nat, phystop: nat, contents: seq<Page>)
      requires 0 < end && phystop <= |contents| * 4096
      ensures Valid() && |mem| == |contents| && lo == (end + 4096 - 1) / 4096
      ensures forall p :: p in free <==> lo <= p && (p + 1) * 4096 <= phystop
    {
      lo := (end + 4096 - 1) / 4096;
      mem := contents;
      freelist := 0;
      free := [];
      new;
      Freerange(end, phystop);
    }

    /** freerange(): every whole page between the two addresses. */
    method Freerange(start: nat, end: nat)
      requires Valid() && end <= |mem| * 4096 && lo <= (start + 4096 - 1) / 4096
      requires forall p :: p in free ==> (p + 1) * 4096 <= start || end < (p + 1) * 4096
      modifies this
      ensures Valid() && |mem| == old(|mem|)
      ensures forall p :: p in free <==> p in old(free) || (start <= p * 4096 && (p + 1) * 4096 <= end)
    {
      var p := (start + 4096 - 1) / 4096 * 4096;
      while p + 4096 <= end
        invariant p % 4096 == 0 && start <= p && (p < start + 4096 || p <= end)
        invariant Valid() && |mem| == old(|mem|)
        invariant forall q :: q in free <==> q in old(free) || (start <= q * 4096 && (q + 1) * 4096 <= p)
      {
        Kfree(p);
        p := p + 4096;
      }
    }

    /** kfree(): the page goes to the front of the list. */
    method Kfree(pa: nat)
      requires Valid() && pa % 4096 == 0 && lo * 4096 <= pa < |mem| * 4096 && pa / 4096 !in free
      modifies this
      ensures Valid() && free == [pa / 4096] + old(free) && |mem| == old(|mem|)
      ensures forall q :: 0 <= q < |mem| && q != pa / 4096 ==> mem[q] == old(mem[q])
    {
      var p := pa / 4096;
      mem := mem[p := Fill(JUNK1)];
      mem := mem[p := mem[p][0 := freelist]];
      freelist := pa;
      ChainFrame(old(mem), mem, old(freelist), free);
      DistinctCons(p, free);
      free := [p] + free;
      assert free[1..] == old(free);
    }

    /** kalloc(): the first page of the list, or 0. */
    method Kalloc() returns (pa: nat)
      requires Valid()
      modifies this
      ensures Valid() && |mem| == old(|mem|) && (pa == 0 <==> old(free) == [])
      ensures pa == 0 ==> mem == old(mem) && free == old(free)
      ensures pa != 0 ==>
                pa == old(free[0]) * 4096 && free == old(free)[1..] && mem == old(mem)[old(free[0]) := Fill(JUNK5)]
    {
      pa := freelist;
      if pa != 0 {
        var r := pa / 4096;
        freelist := mem[r][0];
        ghost var rest := free[1..];
        DistinctRest(free);
        assert forall q :: q in rest ==> q != r && q in free;
        ChainFrame(mem, mem[r := Fill(JUNK5)], freelist, rest);
        mem := mem[r := Fill(JUNK5)];
        free := rest;
      }
    }
  }
}
