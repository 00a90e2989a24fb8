/** The new stack's pages in the program's address space: the mapping loop of elf_prepare, and the
    initial image read through the page tables. */
module StackPages {
  import opened Sizes
  import opened Wrappers
  import opened PteInterface
  import opened PageTree
  import opened MissingTables
  import opened Vmm
  import opened ElfNeeds
  import E = ElfImage
  import HB = HeapBlocks
  import Pmm
  import U = UserStack

  const STACK_PAGES: nat := U.STACK_SIZE / PAGE
  const LOW_PAGE: nat := U.STACK_LOW / PAGE

  function StackFlags(): VmFlags {
    VmFlags(true, true, false, false)
  }

  // The first n pages of the stack.
  predicate OnStack(p: nat, n: nat) {
    LOW_PAGE <= p < LOW_PAGE + n
  }

  function StackSet(n: nat): set<nat> {
    set p: nat | p < LOW_PAGE + n && OnStack(p, n)
  }

  // The tables missing on the way to them.
  ghost function StackTables<W>(m: Mmu<W>, mem: Memory<W>, root: nat, n: nat): nat {
    |Slots(m, mem, root, StackSet(n))|
  }

  // The stack's first n pages map to consecutive frames, and every other page to what it did.
  ghost predicate Stacked<W>(m: Mmu<W>, mem0: Memory<W>, mem: Memory<W>, root: nat, base: nat, n: nat) {
    forall q: nat :: q < USER_PAGES ==> StackedAt(m, mem0, mem, root, base, n, q)
  }

  ghost predicate StackedAt<W>(m: Mmu<W>, mem0: Memory<W>, mem: Memory<W>, root: nat, base: nat, n: nat, q: nat) {
    E.FrameAt(m, mem, root, q)
      == if LOW_PAGE <= q < LOW_PAGE + n then Some(Mapping(base + (q - LOW_PAGE), StackFlags())) else E.FrameAt(m, mem0, root, q)
  }

  // Tables found there or made since, of pages that were not allocated.
  ghost predicate NewTables<W>(m: Mmu<W>, mem0: Memory<W>, mem: Memory<W>, root: nat, off: nat, live0: set<nat>) {
    forall t :: t in Tables(m, mem, root, PT_TOP_LEVEL, USER) ==>
      t in Tables(m, mem0, root, PT_TOP_LEVEL, USER) || off + PAGE * t !in live0
  }

  lemma StackedMore<W>(m: Mmu<W>, mem0: Memory<W>, mem: Memory<W>, mem': Memory<W>, root: nat, base: nat, n: nat, added: set<nat>,
                       off: nat, live: set<nat>, live': set<nat>)
    requires Stacked(m, mem0, mem, root, base, n) && n < STACK_PAGES
    requires Moved(m, mem, mem', root, Page((LOW_PAGE + n) * PAGE, Some(Mapping(base + n, StackFlags()))), added, off, live, live')
    ensures Stacked(m, mem0, mem', root, base, n + 1)
  {
    hide Moved, E.FrameAt;
    var k := n + 1;
    var ch := Page((LOW_PAGE + n) * PAGE, Some(Mapping(base + n, StackFlags())));
    forall q: nat | q < USER_PAGES ensures StackedAt(m, mem0, mem', root, base, k, q) {
      assert StackedAt(m, mem0, mem, root, base, n, q);
      E.PagesMove(m, mem, mem', root, ch, added, off, live, live', q);
    }
  }

  lemma TablesMore<W>(m: Mmu<W>, mem0: Memory<W>, mem: Memory<W>, mem': Memory<W>, root: nat, ch: Change, added: set<nat>,
                      off: nat, live0: set<nat>, live: set<nat>, live': set<nat>)
    requires NewTables(m, mem0, mem, root, off, live0) && live0 <= live
    requires Moved(m, mem, mem', root, ch, added, off, live, live')
    ensures NewTables(m, mem0, mem', root, off, live0)
  {
    hide Tree, Tables, Translates, KernelHalf, Apart;
    forall t | t in added ensures off + PAGE * t !in live0 {
      assert off + PAGE * t in Pointers(off, added);
    }
  }

  // What the loop has taken from the heap so far.
  ghost predicate TablesTaken<W>(m: Mmu<W>, root: nat, s0: Start<W>, mem: Memory<W>, bs: seq<HB.Block>, n: nat) {
    Spent(s0.bs, bs, StackTables(m, s0.mem, root, n)) && Made(m, s0.mem, mem, root, StackSet(n))
  }

  lemma OneMoreStackPage<W>(m: Mmu<W>, root: nat, s0: Start<W>, mem: Memory<W>, bs: seq<HB.Block>, n: nat, all: nat)
    requires TablesTaken(m, root, s0, mem, bs, n) && n < all <= STACK_PAGES
    ensures var need := MissingPage(m, mem, root, LOW_PAGE + n);
            && (forall cs :: Spent(bs, cs, need) ==> Spent(s0.bs, cs, StackTables(m, s0.mem, root, n + 1)))
            && (!HB.CanGive(bs, need) ==> !HB.CanGive(s0.bs, StackTables(m, s0.mem, root, all)))
  {
    hide Slots, Made, MissingPage, HB.CanGive, Spent;
    var need := MissingPage(m, mem, root, LOW_PAGE + n);
    assert StackSet(n + 1) == StackSet(n) + {LOW_PAGE + n} && StackSet(n + 1) <= StackSet(all);
    MoreSlots(m, s0.mem, mem, root, StackSet(n), LOW_PAGE + n);
    SpentThen(s0.bs, bs, StackTables(m, s0.mem, root, n), need);
    SlotsGrow(m, s0.mem, root, StackSet(n + 1), StackSet(all));
    SetSize(Slots(m, s0.mem, root, StackSet(n + 1)), Slots(m, s0.mem, root, StackSet(all)));
    if HB.CanGive(s0.bs, StackTables(m, s0.mem, root, all)) {
      HB.GiveLess(s0.bs, StackTables(m, s0.mem, root, n + 1), StackTables(m, s0.mem, root, all));
    }
  }

  lemma TakenMore<W>(m: Mmu<W>, root: nat, s0: Start<W>, mem: Memory<W>, bs: seq<HB.Block>, mem': Memory<W>, bs': seq<HB.Block>, n: nat)
    requires TablesTaken(m, root, s0, mem, bs, n) && n < STACK_PAGES
    requires OpenedPages(m, mem, mem', root, LOW_PAGE + n) && Spent(bs, bs', MissingPage(m, mem, root, LOW_PAGE + n))
    ensures TablesTaken(m, root, s0, mem', bs', n + 1)
  {
    hide Slots, Made, MissingPage, HB.CanGive, Spent, OpenedPages;
    OneMoreStackPage(m, root, s0, mem, bs, n, n + 1);
    MoreMade(m, s0.mem, mem, mem', root, StackSet(n), LOW_PAGE + n);
    assert StackSet(n + 1) == StackSet(n) + {LOW_PAGE + n};
  }

  lemma NothingTaken<W>(m: Mmu<W>, root: nat, mem: Memory<W>, bs: seq<HB.Block>, off: nat, live: set<nat>, base: nat)
    ensures TablesTaken(m, root, Start(mem, bs), mem, bs, 0) && Stacked(m, mem, mem, root, base, 0)
    ensures NewTables(m, mem, mem, root, off, live)
  {
    hide Slots, Made, Spent, Tables, E.FrameAt;
    assert StackSet(0) == {};
    NoSlots(m, mem, root);
    NothingSpent(bs);
  }

  // Any address of the stack, mapped.
  lemma StackAt<W>(m: Mmu<W>, mem0: Memory<W>, mem: Memory<W>, root: nat, base: nat, pos: nat)
    requires Stacked(m, mem0, mem, root, base, STACK_PAGES) && pos < U.STACK_SIZE
    ensures Translate(m, mem, root, PT_TOP_LEVEL, U.STACK_LOW + pos) == Some(Mapping(base + pos / PAGE, StackFlags()))
    ensures U.STACK_LOW == 0x7FFF_FF7F_F000 && U.STACK_LOW + U.STACK_SIZE == 0x7FFF_FFFF_F000
  {
    hide Translate;
    var va, p := U.STACK_LOW + pos, LOW_PAGE + pos / PAGE;
    assert va / PAGE == p && p < USER_PAGES && OnStack(p, STACK_PAGES);
    assert StackedAt(m, mem0, mem, root, base, STACK_PAGES, p);
    assert p * PAGE / PAGE == p;
    SameByPage(m, mem, root, PT_TOP_LEVEL, va, p * PAGE);
  }

  // The mapping loop of elf_prepare. It takes exactly the tables that were missing.
  method MapStack<W(!new)>(k: Machine<W>, root: nat, base: nat) returns (ok: bool)
    requires k.Valid() && k.Space(root) && base + STACK_PAGES <= FRAMES
    modifies k, k.heap
    ensures k.Valid() && k.Space(root) && old(k.LiveSet()) <= k.LiveSet()
    ensures ok <==> HB.CanGive(old(k.heap.blocks), old(StackTables(k.mmu, k.mem, root, STACK_PAGES)))
    ensures ok ==> Spent(old(k.heap.blocks), k.heap.blocks, old(StackTables(k.mmu, k.mem, root, STACK_PAGES)))
    ensures ok ==> Stacked(k.mmu, old(k.mem), k.mem, root, base, STACK_PAGES)
    ensures ok ==> forall va :: 0x7FFF_FF7F_F000 <= va < 0x7FFF_FFFF_F000 ==>
              Translate(k.mmu, k.mem, root, PT_TOP_LEVEL, va)
                == Some(Mapping(base + (va - 0x7FFF_FF7F_F000) / 4096, VmFlags(true, true, false, false)))
    ensures NewTables(k.mmu, old(k.mem), k.mem, root, k.off, old(k.LiveSet()))
  {
    hide Lawful, HB.Inv, HB.PageAlloc, Pmm.Chain, Moved, SpaceIn, Whole, HB.LivePointers, Pointers, Opened, OpenedPages, Missing, Translate,
      Spent, HB.CanGive, TablesTaken, Stacked, NewTables, StackTables;
    ghost var s0, live0 := Start(k.mem, k.heap.blocks), k.LiveSet();
    NothingTaken(k.mmu, root, k.mem, k.heap.blocks, k.off, live0, base);
    var i: nat := 0;
    while i < STACK_PAGES
      invariant i <= STACK_PAGES && k.Valid() && k.Space(root) && live0 <= k.LiveSet()
      invariant TablesTaken(k.mmu, root, s0, k.mem, k.heap.blocks, i)
      invariant Stacked(k.mmu, s0.mem, k.mem, root, base, i)
      invariant NewTables(k.mmu, s0.mem, k.mem, root, k.off, live0)
    {
      ghost var p, mem1, bs1, taken1 := LOW_PAGE + i, k.mem, k.heap.blocks, k.Taken();
      assert U.STACK_LOW + i * PAGE == p * PAGE;
      UserPage(p);
      OneMoreStackPage(k.mmu, root, s0, mem1, bs1, i, STACK_PAGES);
      ghost var added;
      ok, added := k.MapPage(Some(root), U.STACK_LOW + i * PAGE, base + i, StackFlags());
      TablesMore(k.mmu, s0.mem, mem1, k.mem, root, if ok then Page(p * PAGE, Some(Mapping(base + i, StackFlags()))) else Same, added,
                 k.off, live0, taken1, k.Taken());
      if !ok {
        return;
      }
      PagesOpened(k.mmu, mem1, k.mem, root, p);
      TakenMore(k.mmu, root, s0, mem1, bs1, k.mem, k.heap.blocks, i);
      StackedMore(k.mmu, s0.mem, mem1, k.mem, root, base, i, added, k.off, taken1, k.Taken());
      i := i + 1;
    }
    TakenMeans(k.mmu, root, s0, k.mem, k.heap.blocks, i);
    forall va | 0x7FFF_FF7F_F000 <= va < 0x7FFF_FFFF_F000
      ensures Translate(k.mmu, k.mem, root, PT_TOP_LEVEL, va)
                == Some(Mapping(base + (va - 0x7FFF_FF7F_F000) / 4096, VmFlags(true, true, false, false)))
    {
      StackAt(k.mmu, s0.mem, k.mem, root, base, va - 0x7FFF_FF7F_F000);
    }
    ok := true;
  }

  lemma TakenMeans<W>(m: Mmu<W>, root: nat, s0: Start<W>, mem: Memory<W>, bs: seq<HB.Block>, n: nat)
    requires TablesTaken(m, root, s0, mem, bs, n)
    ensures Spent(s0.bs, bs, StackTables(m, s0.mem, root, n)) && HB.CanGive(s0.bs, StackTables(m, s0.mem, root, n))
  {
    hide Spent, HB.CanGive, Made, StackTables;
    SpentMeans(s0.bs, bs, StackTables(m, s0.mem, root, n));
  }

  // ---- the stack as the program sees it ----

  // The frames from base on hold the block.
  ghost predicate BlockAt(frames: map<nat, seq<Byte>>, base: nat, block: U.Memory) {
    |block| == U.STACK_SIZE && forall i: nat :: i < STACK_PAGES ==> FrameHolds(frames, base, block, i)
  }

  ghost predicate FrameHolds(frames: map<nat, seq<Byte>>, base: nat, block: U.Memory, i: nat)
    requires |block| == U.STACK_SIZE && i < STACK_PAGES
  {
    base + i in frames && frames[base + i] == block[i * PAGE..i * PAGE + PAGE]
  }

  predicate InBlock(base: nat, f: nat) {
    base <= f < base + STACK_PAGES
  }

  function FramesOf(base: nat, block: U.Memory): map<nat, seq<Byte>>
    requires |block| == U.STACK_SIZE
  {
    map f: nat | f < base + STACK_PAGES && InBlock(base, f) :: block[(f - base) * PAGE..(f - base) * PAGE + PAGE]
  }

  lemma HeldThere(base: nat, block: U.Memory)
    requires |block| == U.STACK_SIZE
    ensures BlockAt(FramesOf(base, block), base, block)
  {
    forall i: nat | i < STACK_PAGES ensures FrameHolds(FramesOf(base, block), base, block, i) {
      assert InBlock(base, base + i);
    }
  }

  // What the program reads at an address, if it may.
  ghost function UserByte<W>(m: Mmu<W>, mem: Memory<W>, root: nat, frames: map<nat, seq<Byte>>, va: nat): Option<Byte> {
    var tr := Translate(m, mem, root, PT_TOP_LEVEL, va);
    if tr.Some? && tr.value.flags.user && tr.value.frame in frames && |frames[tr.value.frame]| == PAGE
    then Some(frames[tr.value.frame][va % PAGE]) else None
  }

  // It reads this block on its stack.
  ghost predicate Sees<W>(m: Mmu<W>, mem: Memory<W>, root: nat, frames: map<nat, seq<Byte>>, block: U.Memory) {
    |block| == U.STACK_SIZE
    && forall pos: nat :: pos < U.STACK_SIZE ==> UserByte(m, mem, root, frames, U.STACK_LOW + pos) == Some(block[pos])
  }

  // There is no other block that it could read.
  lemma SeesOne<W>(m: Mmu<W>, mem: Memory<W>, root: nat, frames: map<nat, seq<Byte>>, a: U.Memory, b: U.Memory)
    requires Sees(m, mem, root, frames, a) && Sees(m, mem, root, frames, b)
    ensures a == b
  {
    hide UserByte;
    forall pos: nat | pos < U.STACK_SIZE ensures a[pos] == b[pos] {
      assert UserByte(m, mem, root, frames, U.STACK_LOW + pos) == Some(a[pos]);
    }
  }

  // Read through the page tables, the stack is the block its pages were mapped to.
  lemma StackSeen<W>(m: Mmu<W>, mem0: Memory<W>, mem: Memory<W>, root: nat, base: nat, frames: map<nat, seq<Byte>>, block: U.Memory)
    requires Stacked(m, mem0, mem, root, base, STACK_PAGES) && BlockAt(frames, base, block)
    ensures Sees(m, mem, root, frames, block)
  {
    hide Stacked, BlockAt, UserByte, Translate;
    assert |block| == U.STACK_SIZE by {
      BlockSize(frames, base, block);
    }
    forall pos: nat | pos < U.STACK_SIZE
      ensures UserByte(m, mem, root, frames, U.STACK_LOW + pos) == Some(block[pos])
    {
      ByteSeen(m, mem0, mem, root, base, frames, block, pos);
    }
  }

  lemma BlockSize(frames: map<nat, seq<Byte>>, base: nat, block: U.Memory)
    requires BlockAt(frames, base, block)
    ensures |block| == U.STACK_SIZE
  {
  }

  lemma ByteSeen<W>(m: Mmu<W>, mem0: Memory<W>, mem: Memory<W>, root: nat, base: nat, frames: map<nat, seq<Byte>>, block: U.Memory,
                    pos: nat)
    requires Stacked(m, mem0, mem, root, base, STACK_PAGES) && BlockAt(frames, base, block) && pos < U.STACK_SIZE
    ensures UserByte(m, mem, root, frames, U.STACK_LOW + pos) == Some(block[pos])
  {
    hide Translate, Stacked;
    var i, va := pos / PAGE, U.STACK_LOW + pos;
    assert va % PAGE == pos % PAGE && pos == i * PAGE + pos % PAGE;
    StackAt(m, mem0, mem, root, base, pos);
    assert FrameHolds(frames, base, block, i);
  }

  // With the block in memory from frame base on, it is what the program reads, and nothing else is.
  lemma OnlyBlock<W>(m: Mmu<W>, mem0: Memory<W>, mem: Memory<W>, root: nat, base: nat, block: U.Memory, other: U.Memory)
    requires Stacked(m, mem0, mem, root, base, STACK_PAGES) && |block| == U.STACK_SIZE
    ensures Sees(m, mem, root, FramesOf(base, block), other) <==> other == block
  {
    hide Stacked, Sees, FramesOf;
    HeldThere(base, block);
    StackSeen(m, mem0, mem, root, base, FramesOf(base, block), block);
    if Sees(m, mem, root, FramesOf(base, block), other) {
      SeesOne(m, mem, root, FramesOf(base, block), block, other);
    }
  }

  // ---- the block itself ----

  // What the heap hands out page by page leaves the live blocks as they are.
  lemma {:induction false} GiveKeeps(bs: seq<HB.Block>, cs: seq<HB.Block>, lo: nat, hi: nat, n: nat)
    requires HB.Inv(bs, lo, hi) && Spent(bs, cs, n)
    ensures HB.Inv(cs, lo, hi) && HB.Live(bs) <= HB.Live(cs)
    decreases n
  {
    hide HB.Inv, HB.PageAlloc, HB.PageFits;
    if n > 0 {
      var ds := HB.Give(bs, n - 1).value;
      GiveKeeps(bs, ds, lo, hi, n - 1);
      HB.PageAllocContract(ds, lo, hi, 1);
    }
  }

  // No other allocation starts inside a live block.
  lemma InsideBlock(bs: seq<HB.Block>, lo: nat, hi: nat, b: HB.Block, ptr: nat)
    requires HB.Inv(bs, lo, hi) && b in HB.Live(bs) && b.Payload() < ptr < b.End()
    ensures ptr !in HB.LivePointers(bs)
  {
    hide HB.Inv;
    if ptr in HB.LivePointers(bs) {
      var d :| d in bs && !d.free && d.Payload() == ptr;
      assert d in HB.Live(bs);
      HB.PayloadsDisjoint(bs, lo, hi, b, d);
    }
  }

  // The pages of the stack hold none of the space's tables.
  ghost predicate ApartFrom<W>(m: Mmu<W>, mem: Memory<W>, root: nat, base: nat) {
    forall t :: t in Tables(m, mem, root, PT_TOP_LEVEL, USER) ==> t < base || base + STACK_PAGES <= t
  }

  lemma StackApart<W>(m: Mmu<W>, mem0: Memory<W>, mem: Memory<W>, root: nat, off: nat, live0: set<nat>, taken: set<nat>, base: nat,
                      bs: seq<HB.Block>, lo: nat, hi: nat, b: HB.Block, outside: set<nat>)
    requires NewTables(m, mem0, mem, root, off, live0) && SpaceIn(m, mem, root, off, HB.LivePointers(bs) + outside)
    requires HB.Inv(bs, lo, hi) && b in HB.Live(bs) && b.Payload() == off + PAGE * base && b.size >= PAGE * STACK_PAGES
    requires b.Payload() in live0 && off + PAGE * base !in taken && SpaceIn(m, mem0, root, off, taken)
    requires forall a :: a in outside ==> a + PAGE <= lo || hi <= a
    ensures ApartFrom(m, mem, root, base)
  {
    hide Tree, Tables, HB.Inv, HB.LivePointers;
    InHeap(bs, lo, hi, b);
    forall t | t in Tables(m, mem, root, PT_TOP_LEVEL, USER) ensures t < base || base + STACK_PAGES <= t {
      assert off + PAGE * t in HB.LivePointers(bs) + outside;
      if base < t < base + STACK_PAGES {
        InsideBlock(bs, lo, hi, b, off + PAGE * t);
      }
    }
  }

  lemma InHeap(bs: seq<HB.Block>, lo: nat, hi: nat, b: HB.Block)
    requires HB.Inv(bs, lo, hi) && b in HB.Live(bs)
    ensures lo < b.Payload() && b.End() <= hi
  {
    HB.AllAscending(bs, lo, hi);
  }

  // What the stack of a new program needs of the heap: one block, and the tables missing on the way
  // to its pages.
  ghost predicate StackFits<W>(m: Mmu<W>, mem: Memory<W>, root: nat, bs: seq<HB.Block>) {
    var (cs, block) := HB.PageAlloc(bs, STACK_PAGES);
    block != 0 && HB.CanGive(cs, StackTables(m, mem, root, STACK_PAGES))
  }

  lemma PageBase(ptr: nat, off: nat)
    requires ptr % PAGE == 0 && off % PAGE == 0 && off <= ptr
    ensures off + PAGE * ((ptr - off) / PAGE) == ptr
  {
  }

  // A new block of pages for the stack.
  method AllocateStack<W(!new)>(k: Machine<W>, root: nat) returns (ok: bool, base: nat, ghost b: HB.Block)
    requires k.Valid() && k.Space(root)
    modifies k.heap
    ensures k.Valid() && k.Space(root)
    ensures k.heap.blocks == HB.PageAlloc(old(k.heap.blocks), STACK_PAGES).0 && old(k.LiveSet()) <= k.LiveSet()
    ensures ok <==> HB.PageAlloc(old(k.heap.blocks), STACK_PAGES).1 != 0
    ensures ok ==> b in HB.Live(k.heap.blocks) && b.Payload() == k.off + PAGE * base && b.size >= PAGE * STACK_PAGES
    ensures ok ==> base + STACK_PAGES <= FRAMES && b.Payload() !in old(k.Taken()) && b.Payload() in k.LiveSet()
  {
    hide Lawful, HB.Inv, HB.PageAlloc, Pmm.Chain, Tree, Tables, HB.PageFits, Whole;
    HB.PageAllocContract(k.heap.blocks, k.heap.lo, k.heap.hi, STACK_PAGES);
    ghost var was := k.heap.blocks;
    var block := k.heap.PageAlloc(STACK_PAGES);
    if block == 0 {
      b := HB.Block(0, 0, true);
      return false, 0, b;
    }
    b :| b !in HB.Live(was) && b.Payload() == block && b.size >= PAGE * STACK_PAGES && HB.Live(k.heap.blocks) == HB.Live(was) + {b};
    InHeap(k.heap.blocks, k.heap.lo, k.heap.hi, b);
    base := (block - k.off) / PAGE;
    PageBase(block, k.off);
    return true, base, b;
  }

  // The stack's part of elf_prepare.
  method PrepareStack<W(!new)>(k: Machine<W>, root: nat, args: seq<U.Text>, envp: seq<U.Text>, l: U.Loaded)
    returns (ok: bool, stack: U.Stack, userSp: nat, ghost base: nat, ghost random: nat, ghost execfn: nat)
    requires k.Valid() && k.Space(root)
    requires U.CStrings(args) && U.CStrings(envp) && U.WordSized(l) && U.Needed(U.Named(args), envp) <= U.STACK_SIZE
    modifies k, k.heap
    ensures k.Valid() && k.Space(root) && fresh(stack) && fresh(stack.bytes)
    ensures ok <==> StackFits(k.mmu, old(k.mem), root, old(k.heap.blocks))
    ensures ok ==> Stacked(k.mmu, old(k.mem), k.mem, root, base, STACK_PAGES) && ApartFrom(k.mmu, k.mem, root, base)
    ensures ok ==> userSp % 16 == 0 && U.STACK_LOW <= userSp && userSp + 8 <= U.USER_STACK_TOP && stack.bytes.Length == U.STACK_SIZE
    ensures ok ==> forall frames :: BlockAt(frames, base, stack.bytes[..]) ==> Sees(k.mmu, k.mem, root, frames, stack.bytes[..])
    ensures ok ==>
              U.Started(stack.bytes[..], userSp - U.STACK_LOW)
                == U.Image(|U.Named(args)|, U.Named(args), envp, U.AuxOf(l, random, execfn))
    ensures ok ==> U.TellsAll(U.Started(stack.bytes[..], userSp - U.STACK_LOW).aux, l, random, execfn)
    ensures ok ==>
              && U.UserText(stack.bytes[..], execfn) == U.Named(args)[0]
              && U.STACK_LOW <= random && U.Holds(stack.bytes[..], random - U.STACK_LOW, U.Random())
  {
    hide Lawful, HB.Inv, HB.PageAlloc, Pmm.Chain, Tree, Tables, HB.PageFits, SpaceIn, HB.LivePointers, Stacked, ApartFrom,
      NewTables, BlockAt, Sees, U.Started, U.Needed, HB.CanGive, Slots, Spent, U.AuxOf,
      U.UserText, U.Holds, U.Random, U.TellsAll;
    stack := new U.Stack();
    userSp, base, random, execfn := 0, 0, 0, 0;
    ghost var mem0, taken0 := k.mem, k.Taken();
    var at;
    ghost var b;
    ok, at, b := AllocateStack(k, root);
    base := at;
    if !ok {
      return;
    }
    ghost var bs1, live1 := k.heap.blocks, k.LiveSet();
    ok := MapStack(k, root, at);
    if !ok {
      return;
    }
    GiveKeeps(bs1, k.heap.blocks, k.heap.lo, k.heap.hi, StackTables(k.mmu, mem0, root, STACK_PAGES));
    StackApart(k.mmu, mem0, k.mem, root, k.off, live1, taken0, at, k.heap.blocks, k.heap.lo, k.heap.hi, b, k.Outside());
    userSp, random, execfn := stack.Prepare(args, envp, l);
    forall frames | BlockAt(frames, base, stack.bytes[..]) ensures Sees(k.mmu, k.mem, root, frames, stack.bytes[..]) {
      StackSeen(k.mmu, mem0, k.mem, root, at, frames, stack.bytes[..]);
    }
  }

  datatype Execed = Running(sp: nat) | Refused(why: U.Strings) | NotPrepared

  // The program reads this image from its stack pointer on, through its own page tables, wherever
  // the frames from base on hold the block.
  ghost predicate Reads<W>(m: Mmu<W>, mem: Memory<W>, root: nat, base: nat, block: U.Memory, sp: nat, image: U.Image) {
    && U.STACK_LOW <= sp && sp + 8 <= U.USER_STACK_TOP && |block| == U.STACK_SIZE
    && U.Started(block, sp - U.STACK_LOW) == image
    && forall frames :: BlockAt(frames, base, block) ==> Sees(m, mem, root, frames, block)
  }

  // execve as far as strings and stack go, its file being there and loaded into the space at root:
  // whatever it accepts, the program that starts at the stack pointer finds there, unaltered and in
  // order, its path standing in for missing arguments.
  method Execve<W(!new)>(k: Machine<W>, root: nat, path: U.UserPtr, argv: U.UserVec, envp: U.UserVec, l: U.Loaded, room: U.Room)
    returns (r: Execed, stack: U.Stack, ghost base: nat, ghost random: nat, ghost execfn: nat)
    requires k.Valid() && k.Space(root) && U.WordSized(l)
    requires U.CString(path.text) && U.CStrings(U.Given(argv)) && U.CStrings(U.Given(envp))
    modifies k, k.heap
    ensures k.Valid() && k.Space(root) && fresh(stack) && fresh(stack.bytes)
    ensures r.Refused? <==> !U.Starts(path, argv, envp, room)
    ensures r.Refused? ==> k.mem == old(k.mem) && k.heap.blocks == old(k.heap.blocks)
    ensures r.Running? <==> U.Starts(path, argv, envp, room) && StackFits(k.mmu, old(k.mem), root, old(k.heap.blocks))
    ensures r.Running? ==>
              var args := U.ExecArgs(U.Given(argv), path.text);
              && r.sp % 16 == 0 && Stacked(k.mmu, old(k.mem), k.mem, root, base, STACK_PAGES) && ApartFrom(k.mmu, k.mem, root, base)
              && Reads(k.mmu, k.mem, root, base, stack.bytes[..], r.sp, U.Image(|args|, args, U.Given(envp), U.AuxOf(l, random, execfn)))
              && U.TellsAll(U.Started(stack.bytes[..], r.sp - U.STACK_LOW).aux, l, random, execfn)
              && U.UserText(stack.bytes[..], execfn) == args[0]
              && U.STACK_LOW <= random && U.Holds(stack.bytes[..], random - U.STACK_LOW, U.Random())
  {
    hide Lawful, Pmm.Chain, SpaceIn, HB.LivePointers, Stacked, ApartFrom, StackFits, BlockAt, Sees, U.Started, U.Needed, U.AuxOf, U.Starts,
      U.Given, U.UserText, U.Holds, U.Random, U.TellsAll;
    base, random, execfn := 0, 0, 0;
    var strings := U.TakeStrings(path, argv, envp, room);
    if !strings.Taken? {
      stack := new U.Stack();
      return Refused(strings), stack, base, random, execfn;
    }
    var ok, sp;
    ok, stack, sp, base, random, execfn := PrepareStack(k, root, strings.args, strings.envs, l);
    r := if ok then Running(sp) else NotPrepared;
  }
}
