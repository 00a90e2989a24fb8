/** Giving pages back: the list of owned pages, and free_page_table. */
module VmmFree {
  import opened Sizes
  import opened Wrappers
  import opened PteInterface
  import opened PageTree
  import opened Vmm
  import HB = HeapBlocks
  import Pmm

  // ---- pages that nobody else will be given ----

  // The heap as seen by the holder of a page list whose array is the allocation at `but`.
  datatype Hold = Hold(bs: seq<HB.Block>, but: nat, lo: nat, hi: nat, off: nat)

  // Frame f is part of an allocation, or no frame of the heap at all.
  ghost predicate Keeps(h: Hold, f: nat) {
    var a := h.off + PAGE * f;
    Covered(h.bs, a, h.but) || a + PAGE <= h.lo || h.hi <= a
  }

  ghost function Others(h: Hold): set<HB.Block> {
    set b | b in HB.Live(h.bs) && b.Payload() != h.but
  }

  ghost predicate StaysHeld(h: Hold, h': Hold) {
    && h'.off == h.off && h'.lo == h.lo && h'.hi == h.hi
    && Others(h) <= Others(h') && forall f :: Keeps(h, f) ==> Keeps(h', f)
  }

  // An allocation whose pointer is still live has not moved or shrunk.
  ghost predicate Unmoved(bs: seq<HB.Block>, cs: seq<HB.Block>) {
    && HB.LivePointers(cs) <= HB.LivePointers(bs)
    && forall b :: b in HB.Live(bs) && b.Payload() in HB.LivePointers(cs) ==> b in HB.Live(cs)
  }

  lemma UnmovedThen(bs: seq<HB.Block>, cs: seq<HB.Block>, ds: seq<HB.Block>)
    requires Unmoved(bs, cs) && Unmoved(cs, ds)
    ensures Unmoved(bs, ds)
  {
    hide HB.LivePointers, HB.Live;
  }

  // The heap's free, as the pointers still live see it.
  method Release<W(!new)>(k: Machine<W>, p: nat)
    requires k.Valid() && p in k.LiveSet()
    modifies k.heap
    ensures k.Valid() && k.LiveSet() == old(k.LiveSet()) - {p} && Unmoved(old(k.heap.blocks), k.heap.blocks)
  {
    hide Lawful, HB.Inv, HB.Free, Pmm.Chain, Whole;
    FreeKeeps(k.heap.blocks, k.heap.lo, k.heap.hi, p);
    k.heap.Free(p);
  }

  // vm_page_list_t: pointers kept in an array that the heap provides.
  class PageList {
    var pages: nat
    var cap: nat
    var items: seq<nat>

    constructor ()
      ensures pages == 0 && cap == 0 && items == []
    {
      pages, cap, items := 0, 0, [];
    }

    ghost predicate Valid(live: set<nat>)
      reads this
    {
      && |items| <= cap && 8 * cap <= PAGE * FRAMES
      && (pages == 0 <==> cap == 0)
      && (pages != 0 ==> pages in live)
    }

    ghost function Buffer(): set<nat>
      reads this
    {
      if pages == 0 then {} else {pages}
    }
  }

  ghost function Holding<W(!new)>(k: Machine<W>, list: PageList): Hold
    reads k, k.heap, list
  {
    Hold(k.heap.blocks, list.pages, k.heap.lo, k.heap.hi, k.off)
  }

  // What the heap has given out, the list's own array apart.
  ghost function Given<W(!new)>(k: Machine<W>, list: PageList): set<nat>
    reads k, k.heap, list
  {
    k.LiveSet() - list.Buffer()
  }

  lemma MallocKeeps(bs: seq<HB.Block>, lo: nat, hi: nat, size: nat)
    requires HB.Inv(bs, lo, hi) && 0 < size < WORD - 8 && size % 8 == 0
    ensures var (cs, p) := HB.Malloc(bs, size);
            && (p == 0 ==> cs == bs)
            && (p != 0 ==> HB.Live(bs) <= HB.Live(cs) && p !in HB.LivePointers(bs) && size <= hi - lo)
  {
    HB.MallocContract(bs, lo, hi, size);
    var (cs, p) := HB.Malloc(bs, size);
    if p != 0 {
      var b :| b !in HB.Live(bs) && b.Payload() == p && b.size >= HB.Rounded(size) && HB.Live(cs) == HB.Live(bs) + {b};
      assert b in HB.Live(cs);
      HB.AllAscending(cs, lo, hi);
      forall d | d in HB.Live(bs) ensures d.Payload() != p {
        HB.PayloadsDisjoint(cs, lo, hi, b, d);
      }
    }
  }

  lemma FreeKeeps(bs: seq<HB.Block>, lo: nat, hi: nat, p: nat)
    requires HB.Inv(bs, lo, hi) && p in HB.LivePointers(bs)
    ensures forall b :: b in HB.Live(bs) && b.Payload() != p ==> b in HB.Live(HB.Free(bs, p))
  {
    var b :| b in HB.Live(bs) && b.Payload() == p;
    HB.FreeContract(bs, lo, hi, b);
  }

  // What vm_page_list_add asks malloc for when the array is full.
  function NextArray(cap: nat): nat {
    8 * (if cap != 0 then cap * 2 else 64)
  }

  // The heap's blocks and the list's array: all that decides what further requests will get.
  datatype Stock = Stock(bs: seq<HB.Block>, pages: nat, cap: nat, count: nat)

  ghost function StockOf<W(!new)>(k: Machine<W>, list: PageList): Stock
    reads k, k.heap, list
  {
    Stock(k.heap.blocks, list.pages, list.cap, |list.items|)
  }

  // One more page entered: a full array is replaced by one of twice its size.
  ghost function Listing(s: Stock): Option<Stock> {
    if s.count != s.cap then Some(s.(count := s.count + 1))
    else
      var (bs, np) := HB.Malloc(s.bs, NextArray(s.cap));
      if np == 0 then None
      else Some(Stock(if s.pages != 0 then HB.Free(bs, s.pages) else bs, np, NextArray(s.cap) / 8, s.count + 1))
  }

  // vm_page_list_add: the array doubles when it is full; it fails only if malloc has no such array
  // to give, and then nothing has happened.
  method ListAdd<W(!new)>(k: Machine<W>, list: PageList, p: nat) returns (ok: bool)
    requires k.Valid() && list.Valid(k.LiveSet())
    modifies k.heap, list
    ensures k.Valid() && list.Valid(k.LiveSet())
    ensures ok <==> old(|list.items|) < old(list.cap)
                    || HB.Malloc(old(k.heap.blocks), if old(list.cap) == 0 then 512 else 16 * old(list.cap)).1 != 0
    ensures Listing(old(StockOf(k, list))) == if ok then Some(StockOf(k, list)) else None
    ensures !ok ==> k.heap.blocks == old(k.heap.blocks) && list.items == old(list.items) && list.pages == old(list.pages)
                    && list.cap == old(list.cap)
    ensures ok ==> list.items == old(list.items) + [p]
                   && list.cap == if old(|list.items|) < old(list.cap) then old(list.cap) else if old(list.cap) == 0 then 64 else 2 * old(list.cap)
    ensures Given(k, list) == old(Given(k, list))
    ensures StaysHeld(old(Holding(k, list)), Holding(k, list))
  {
    hide Lawful, HB.Inv, HB.Malloc, HB.Free, Pmm.Chain, Whole;
    if |list.items| == list.cap {
      var newCap := if list.cap != 0 then list.cap * 2 else 64;
      MallocKeeps(k.heap.blocks, k.heap.lo, k.heap.hi, newCap * 8);
      var np := k.heap.Malloc(newCap * 8);
      if np == 0 {
        return false;
      }
      if list.pages != 0 {
        FreeKeeps(k.heap.blocks, k.heap.lo, k.heap.hi, list.pages);
        k.heap.Free(list.pages);
      }
      list.pages := np;
      list.cap := newCap;
    }
    list.items := list.items + [p];
    return true;
  }

  // vm_page_list_free: every listed page and the array itself go back to the heap.
  method ListFree<W(!new)>(k: Machine<W>, list: PageList)
    requires k.Valid() && list.Valid(k.LiveSet())
    requires forall i :: 0 <= i < |list.items| ==> list.items[i] in Given(k, list)
    requires forall i, j :: 0 <= i < j < |list.items| ==> list.items[i] != list.items[j]
    modifies k.heap, list
    ensures k.Valid()
    ensures k.LiveSet() == old(Given(k, list)) - (set x | x in old(list.items))
    ensures Unmoved(old(k.heap.blocks), k.heap.blocks)
    ensures list.pages == 0 && list.items == [] && list.cap == 0
  {
    hide Lawful, HB.Inv, HB.Free, Pmm.Chain, Whole;
    hide HB.LivePointers, Unmoved;
    ghost var live, bs := k.LiveSet(), k.heap.blocks;
    Itself(bs);
    var i := 0;
    while i < |list.items|
      modifies k.heap
      invariant i <= |list.items| && k.Valid() && Unmoved(bs, k.heap.blocks)
      invariant k.LiveSet() == live - (set x | x in list.items[..i])
    {
      assert list.items[..i + 1] == list.items[..i] + [list.items[i]];
      assert list.items[i] !in list.items[..i];
      ghost var cs := k.heap.blocks;
      Release(k, list.items[i]);
      UnmovedThen(bs, cs, k.heap.blocks);
      i := i + 1;
    }
    assert list.items[..i] == list.items;
    if list.pages != 0 {
      ghost var cs := k.heap.blocks;
      Release(k, list.pages);
      UnmovedThen(bs, cs, k.heap.blocks);
    }
    list.pages, list.items, list.cap := 0, [], 0;
  }

  lemma Itself(bs: seq<HB.Block>)
    ensures Unmoved(bs, bs)
  {
  }

  // ---- tear-down ----

  lemma ChildrenFirst<W>(m: Mmu<W>, mem: Memory<W>, t: nat, level: nat, n: nat, i: nat)
    requires Tree(m, mem, t, level, n) && i < n
    ensures t in mem && |mem[t]| == PT_ENTRIES && n <= PT_ENTRIES
    ensures Tables(m, mem, t, level, i + 1) == Tables(m, mem, t, level, i) + ChildTables(m, mem, t, level, i)
    ensures Tables(m, mem, t, level, i + 1) <= Tables(m, mem, t, level, n)
    ensures ChildTables(m, mem, t, level, i) !! Tables(m, mem, t, level, i)
    ensures EntryTree(m, mem, t, level, i)
  {
    hide ChildTables, EntryTree;
  }

  lemma PointersApart(off: nat, a: set<nat>, b: set<nat>)
    ensures Pointers(off, a + b) == Pointers(off, a) + Pointers(off, b)
    ensures a !! b ==> Pointers(off, a) !! Pointers(off, b)
    ensures Pointers(off, a - b) == Pointers(off, a) - Pointers(off, b)
  {
    forall x | x in Pointers(off, a) - Pointers(off, b) ensures x in Pointers(off, a - b) {
      var f :| f in a && x == off + PAGE * f;
      assert f in b ==> x in Pointers(off, b);
      assert f in a - b;
    }
  }

  // free_table_level: every table of the tree freed once, children first, and nothing else.
  method FreeLevel<W(!new)>(k: Machine<W>, t: nat, level: nat)
    requires k.Valid() && Tree(k.mmu, k.mem, t, level, PT_ENTRIES)
    requires level < PT_TOP_LEVEL
    requires Pointers(k.off, Tables(k.mmu, k.mem, t, level, PT_ENTRIES)) <= k.LiveSet()
    modifies k.heap
    ensures k.Valid()
    ensures k.LiveSet() == old(k.LiveSet()) - Pointers(k.off, Tables(k.mmu, k.mem, t, level, PT_ENTRIES))
    ensures Unmoved(old(k.heap.blocks), k.heap.blocks)
    decreases level, 1
  {
    hide Lawful, HB.Inv, HB.Free, Pmm.Chain, Whole, Tables, Tree, Unmoved, HB.LivePointers;
    ghost var bs := k.heap.blocks;
    Itself(bs);
    if level > 0 {
      FreeChildren(k, t, level, PT_ENTRIES);
    }
    LowestTable(k.mmu, k.mem, t, level);
    PointersApart(k.off, Tables(k.mmu, k.mem, t, level, PT_ENTRIES), {t});
    assert k.off + PAGE * t in Pointers(k.off, {t});
    ghost var cs := k.heap.blocks;
    Release(k, k.off + PAGE * t);
    UnmovedThen(bs, cs, k.heap.blocks);
  }

  lemma LowestTable<W>(m: Mmu<W>, mem: Memory<W>, t: nat, level: nat)
    ensures t in Tables(m, mem, t, level, PT_ENTRIES)
    ensures level == 0 ==> Tables(m, mem, t, level, PT_ENTRIES) == {t}
    ensures Tables(m, mem, t, level, 0) == {t}
  {
  }

  // The tables below the first n entries of t.
  method FreeChildren<W(!new)>(k: Machine<W>, t: nat, level: nat, n: nat)
    requires k.Valid() && Tree(k.mmu, k.mem, t, level, n)
    requires 0 < level <= PT_TOP_LEVEL
    requires Pointers(k.off, Tables(k.mmu, k.mem, t, level, n)) <= k.LiveSet()
    modifies k.heap
    ensures k.Valid()
    ensures k.LiveSet() == old(k.LiveSet()) - Pointers(k.off, Tables(k.mmu, k.mem, t, level, n) - {t})
    ensures Unmoved(old(k.heap.blocks), k.heap.blocks)
    decreases level, 0
  {
    hide Lawful, HB.Inv, HB.Free, Pmm.Chain, Whole, Tables, Tree, Unmoved, HB.LivePointers;
    ghost var live, bs := k.LiveSet(), k.heap.blocks;
    Itself(bs);
    ghost var off, m, mem := k.off, k.mmu, k.mem;
    LowestTable(m, mem, t, level);
    var i := 0;
    while i < n
      modifies k.heap
      invariant i <= n && k.Valid() && Unmoved(bs, k.heap.blocks)
      invariant k.LiveSet() == live - Pointers(off, Tables(m, mem, t, level, i) - {t})
    {
      ChildrenFirst(m, mem, t, level, n, i);
      ChildPointers(m, mem, t, level, n, i, off);
      var entry := k.mem[t][i];
      if k.mmu.present(entry) && !k.mmu.isLeaf(entry, level) {
        ghost var cs := k.heap.blocks;
        FreeLevel(k, k.mmu.phys(entry), level - 1);
        UnmovedThen(bs, cs, k.heap.blocks);
      }
      i := i + 1;
    }
  }

  lemma ChildPointers<W>(m: Mmu<W>, mem: Memory<W>, t: nat, level: nat, n: nat, i: nat, off: nat)
    requires Tree(m, mem, t, level, n) && i < n
    ensures var c := Pointers(off, ChildTables(m, mem, t, level, i));
            && Pointers(off, Tables(m, mem, t, level, i + 1) - {t}) == Pointers(off, Tables(m, mem, t, level, i) - {t}) + c
            && c !! Pointers(off, Tables(m, mem, t, level, i) - {t})
            && c <= Pointers(off, Tables(m, mem, t, level, n))
  {
    hide Tree, Tables, ChildTables;
    ChildrenFirst(m, mem, t, level, n, i);
    var before, c := Tables(m, mem, t, level, i) - {t}, ChildTables(m, mem, t, level, i);
    NotBelow(m, mem, t, level, n, i);
    assert Tables(m, mem, t, level, i + 1) - {t} == before + c;
    PointersApart(off, before, c);
  }

  lemma NotBelow<W>(m: Mmu<W>, mem: Memory<W>, t: nat, level: nat, n: nat, i: nat)
    requires Tree(m, mem, t, level, n) && i < n
    ensures t !in ChildTables(m, mem, t, level, i)
  {
  }

  // free_page_table: the tables of the user half and the root; no kernel table and no page.
  method FreePageTable<W(!new)>(k: Machine<W>, space: Option<nat>)
    requires k.Valid() && (space.Some? ==> k.Space(space.value))
    requires space.Some? ==> Pointers(k.off, Tables(k.mmu, k.mem, space.value, PT_TOP_LEVEL, USER)) <= k.LiveSet()
    modifies k.heap
    ensures k.Valid()
    ensures k.LiveSet() == old(k.LiveSet())
                           - (if space.None? then {} else Pointers(k.off, Tables(k.mmu, k.mem, space.value, PT_TOP_LEVEL, USER)))
    ensures Unmoved(old(k.heap.blocks), k.heap.blocks)
  {
    hide Lawful, HB.Inv, HB.Free, Pmm.Chain, Whole, Tables, Tree, Unmoved, HB.LivePointers;
    ghost var bs := k.heap.blocks;
    Itself(bs);
    if space.None? {
      return;
    }
    var root := space.value;
    ghost var tables := Tables(k.mmu, k.mem, root, PT_TOP_LEVEL, USER);
    FreeChildren(k, root, PT_TOP_LEVEL, USER);
    RootIsTable(k.mmu, k.mem, root);
    PointersApart(k.off, tables, {root});
    assert Pointers(k.off, {root}) == {k.off + PAGE * root};
    assert k.off + PAGE * root in Pointers(k.off, tables);
    ghost var cs := k.heap.blocks;
    Release(k, k.off + PAGE * root);
    UnmovedThen(bs, cs, k.heap.blocks);
  }
}
