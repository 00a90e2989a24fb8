/** How much memory a set of pages needs when none of them is mapped yet: a page for each of them and
    one for each table that is missing on the way to any of them. */
module ElfNeeds {
  import opened Sizes
  import opened Wrappers
  import opened PteInterface
  import opened PageTree
  import opened MissingTables
  import opened Vmm
  import HB = HeapBlocks

  // Pages of the user half.
  const USER_PAGES: nat := 0x8_0000_0000

  // How many tables are missing on the way to page number p.
  ghost function MissingPage<W>(m: Mmu<W>, mem: Memory<W>, root: nat, p: nat): nat {
    Missing(m, mem, root, PT_TOP_LEVEL, p * PAGE)
  }

  // The number, among the tables of its level, of the table that page p's walk goes through.
  function TableNo(p: nat, l: nat): nat {
    p / Span(l + 1)
  }

  function Fork(p: nat, q: nat): nat {
    Branch(p * PAGE, q * PAGE, PT_TOP_LEVEL)
  }

  // Two pages share a table exactly if its number is the same for both.
  lemma ForkMeans(p: nat, q: nat, l: nat)
    requires p < USER_PAGES && q < USER_PAGES && l < PT_TOP_LEVEL
    ensures Fork(p, q) <= l <==> TableNo(p, l) == TableNo(q, l)
  {
    hide TableNo, Index, Branch;
    Digits(p);
    Digits(q);
    BranchDigits(p * PAGE, q * PAGE);
  }

  // A table's number and the index of an entry in it make up the number of the table below.
  lemma Digits(p: nat)
    requires p < USER_PAGES
    ensures TableNo(p, 2) == Index(p * PAGE, 3)
    ensures TableNo(p, 1) == 512 * TableNo(p, 2) + Index(p * PAGE, 2) && Index(p * PAGE, 2) < 512
    ensures TableNo(p, 0) == 512 * TableNo(p, 1) + Index(p * PAGE, 1) && Index(p * PAGE, 1) < 512
  {
    assert p * PAGE / PAGE == p;
  }

  lemma BranchDigits(a: nat, b: nat)
    ensures var n := Branch(a, b, 3);
            && (n <= 2 <==> Index(a, 3) == Index(b, 3))
            && (n <= 1 <==> Index(a, 3) == Index(b, 3) && Index(a, 2) == Index(b, 2))
            && (n == 0 <==> Index(a, 3) == Index(b, 3) && Index(a, 2) == Index(b, 2) && Index(a, 1) == Index(b, 1))
  {
    hide Index;
    assert Branch(a, b, 1) == if Index(a, 1) == Index(b, 1) then 0 else 1;
    assert Branch(a, b, 2) == if Index(a, 2) == Index(b, 2) then Branch(a, b, 1) else 2;
  }

  // ---- the tables missing on the way to any of a set of pages ----

  // A table by its level and its number.
  type Slot = (nat, nat)

  ghost predicate Lacks<W>(m: Mmu<W>, mem: Memory<W>, root: nat, p: nat, l: nat) {
    l < MissingPage(m, mem, root, p)
  }

  ghost function Slots<W>(m: Mmu<W>, mem: Memory<W>, root: nat, ps: set<nat>): set<Slot> {
    set p, l | p in ps && 0 <= l < PT_TOP_LEVEL && Lacks(m, mem, root, p, l) :: (l, TableNo(p, l))
  }

  // One page's tables, those below a level.
  ghost function OnWay(p: nat, n: nat): set<Slot> {
    set l | 0 <= l < n :: (l, TableNo(p, l))
  }

  lemma {:induction false} OnWaySize(p: nat, n: nat)
    ensures |OnWay(p, n)| == n
    decreases n
  {
    hide TableNo;
    if n == 0 {
      assert OnWay(p, 0) == {};
    } else {
      OnWaySize(p, n - 1);
      assert OnWay(p, n) == OnWay(p, n - 1) + {(n - 1, TableNo(p, n - 1))};
    }
  }

  // The tables for these pages are there, and no others have been made: a table is missing now if
  // it was missing then and is on the way to none of them.
  ghost predicate Made<W>(m: Mmu<W>, mem0: Memory<W>, mem: Memory<W>, root: nat, ps: set<nat>) {
    forall q: nat, l: nat :: q < USER_PAGES && l < PT_TOP_LEVEL ==> MadeAt(m, mem0, mem, root, ps, q, l)
  }

  ghost predicate MadeAt<W>(m: Mmu<W>, mem0: Memory<W>, mem: Memory<W>, root: nat, ps: set<nat>, q: nat, l: nat) {
    Lacks(m, mem, root, q, l) <==> Lacks(m, mem0, root, q, l) && (l, TableNo(q, l)) !in Slots(m, mem0, root, ps)
  }

  // After one more page: the tables missing on the way to it, and no others, have been made.
  ghost predicate OpenedPages<W>(m: Mmu<W>, mem: Memory<W>, mem': Memory<W>, root: nat, p: nat) {
    forall q: nat :: q < USER_PAGES ==> OpenedPage(m, mem, mem', root, p, q)
  }

  ghost predicate OpenedPage<W>(m: Mmu<W>, mem: Memory<W>, mem': Memory<W>, root: nat, p: nat, q: nat) {
    MissingPage(m, mem', root, q) == Least(MissingPage(m, mem, root, q), Fork(q, p))
  }

  lemma UserPage(p: nat)
    requires p < USER_PAGES
    ensures Index(p * PAGE, PT_TOP_LEVEL) < USER
  {
    assert p * PAGE / PAGE == p;
  }

  lemma PagesOpened<W>(m: Mmu<W>, mem: Memory<W>, mem': Memory<W>, root: nat, p: nat)
    requires Opened(m, mem, mem', root, p * PAGE, 0)
    ensures OpenedPages(m, mem, mem', root, p)
  {
    hide Missing, Branch, Index;
    forall q: nat | q < USER_PAGES ensures OpenedPage(m, mem, mem', root, p, q) {
      UserPage(q);
      assert OpenedAt(m, mem, mem', root, p * PAGE, 0, q * PAGE);
    }
  }

  ghost predicate SameMissing<W>(m: Mmu<W>, mem: Memory<W>, mem': Memory<W>, root: nat) {
    forall q: nat :: q < USER_PAGES ==> MissingPage(m, mem', root, q) == MissingPage(m, mem, root, q)
  }

  lemma OpenedSame<W>(m: Mmu<W>, mem: Memory<W>, mem1: Memory<W>, mem2: Memory<W>, root: nat, p: nat)
    requires SameMissing(m, mem, mem1, root) && OpenedPages(m, mem1, mem2, root, p)
    ensures OpenedPages(m, mem, mem2, root, p)
  {
    hide MissingPage, Branch;
    forall q: nat | q < USER_PAGES ensures OpenedPage(m, mem, mem2, root, p, q) {
      assert OpenedPage(m, mem1, mem2, root, p, q);
    }
  }

  // No table has gone.
  ghost predicate Fewer<W>(m: Mmu<W>, mem0: Memory<W>, mem: Memory<W>, root: nat) {
    forall q: nat :: q < USER_PAGES ==> MissingPage(m, mem, root, q) <= MissingPage(m, mem0, root, q)
  }

  lemma OpenedFewer<W>(m: Mmu<W>, mem0: Memory<W>, mem: Memory<W>, mem': Memory<W>, root: nat, p: nat)
    requires Fewer(m, mem0, mem, root) && OpenedPages(m, mem, mem', root, p)
    ensures Fewer(m, mem0, mem', root)
    ensures p < USER_PAGES ==> MissingPage(m, mem', root, p) == 0
  {
    hide MissingPage, Branch;
    forall q: nat | q < USER_PAGES ensures MissingPage(m, mem', root, q) <= MissingPage(m, mem0, root, q) {
      assert OpenedPage(m, mem, mem', root, p, q);
    }
    if p < USER_PAGES {
      assert OpenedPage(m, mem, mem', root, p, p);
      SelfBranch(p * PAGE, PT_TOP_LEVEL);
    }
  }

  lemma SharedTable<W>(m: Mmu<W>, mem: Memory<W>, root: nat, p: nat, q: nat, l: nat)
    requires p < USER_PAGES && q < USER_PAGES && l < PT_TOP_LEVEL && TableNo(p, l) == TableNo(q, l)
    ensures Lacks(m, mem, root, p, l) <==> Lacks(m, mem, root, q, l)
  {
    hide TableNo, Branch, Missing;
    ForkMeans(p, q, l);
    SharedMissing(m, mem, root, PT_TOP_LEVEL, p * PAGE, q * PAGE, l);
  }

  lemma SlotsGrow<W>(m: Mmu<W>, mem: Memory<W>, root: nat, ps: set<nat>, qs: set<nat>)
    requires ps <= qs
    ensures Slots(m, mem, root, ps) <= Slots(m, mem, root, qs)
  {
    hide TableNo, Lacks;
    forall slot | slot in Slots(m, mem, root, ps) ensures slot in Slots(m, mem, root, qs) {
      var r, l :| r in ps && 0 <= l < PT_TOP_LEVEL && Lacks(m, mem, root, r, l) && slot == (l, TableNo(r, l));
      assert r in qs;
    }
  }

  lemma SlotsJoin<W>(m: Mmu<W>, mem: Memory<W>, root: nat, ps: set<nat>, qs: set<nat>)
    ensures Slots(m, mem, root, ps + qs) == Slots(m, mem, root, ps) + Slots(m, mem, root, qs)
  {
    hide TableNo, Lacks;
    SlotsGrow(m, mem, root, ps, ps + qs);
    SlotsGrow(m, mem, root, qs, ps + qs);
  }

  // A table is among those missing for the pages or for one page more.
  lemma OneMoreSlot<W>(m: Mmu<W>, mem: Memory<W>, root: nat, ps: set<nat>, p: nat, q: nat, l: nat)
    requires p < USER_PAGES && q < USER_PAGES && l < PT_TOP_LEVEL && Lacks(m, mem, root, q, l)
    ensures (l, TableNo(q, l)) in Slots(m, mem, root, ps + {p})
       <==> (l, TableNo(q, l)) in Slots(m, mem, root, ps) || TableNo(q, l) == TableNo(p, l)
  {
    hide TableNo, Lacks;
    SlotsJoin(m, mem, root, ps, {p});
    if TableNo(q, l) == TableNo(p, l) {
      SharedTable(m, mem, root, p, q, l);
      assert p in {p};
    }
  }

  lemma NoSlots<W>(m: Mmu<W>, mem: Memory<W>, root: nat)
    ensures Slots(m, mem, root, {}) == {} && Made(m, mem, mem, root, {})
  {
  }

  lemma MoreMade<W>(m: Mmu<W>, mem0: Memory<W>, mem: Memory<W>, mem': Memory<W>, root: nat, ps: set<nat>, p: nat)
    requires Made(m, mem0, mem, root, ps) && OpenedPages(m, mem, mem', root, p) && p < USER_PAGES
    ensures Made(m, mem0, mem', root, ps + {p})
  {
    hide TableNo, Slots, Missing, Branch;
    forall q: nat, l: nat | q < USER_PAGES && l < PT_TOP_LEVEL ensures MadeAt(m, mem0, mem', root, ps + {p}, q, l) {
      assert MadeAt(m, mem0, mem, root, ps, q, l) && OpenedPage(m, mem, mem', root, p, q);
      ForkMeans(q, p, l);
      if Lacks(m, mem0, root, q, l) {
        OneMoreSlot(m, mem0, root, ps, p, q, l);
      }
    }
  }

  // The tables still missing on the way to page p, up from the lowest.
  lemma StillMissing<W>(m: Mmu<W>, mem0: Memory<W>, mem: Memory<W>, root: nat, ps: set<nat>, p: nat)
    requires Made(m, mem0, mem, root, ps) && p < USER_PAGES
    ensures OnWay(p, MissingPage(m, mem, root, p)) !! Slots(m, mem0, root, ps)
    ensures Slots(m, mem0, root, {p}) <= Slots(m, mem0, root, ps) + OnWay(p, MissingPage(m, mem, root, p))
    ensures OnWay(p, MissingPage(m, mem, root, p)) <= Slots(m, mem0, root, {p})
  {
    hide TableNo, Missing;
    forall l: nat | l < PT_TOP_LEVEL
      ensures l < MissingPage(m, mem, root, p) <==>
                Lacks(m, mem0, root, p, l) && (l, TableNo(p, l)) !in Slots(m, mem0, root, ps)
    {
      assert MadeAt(m, mem0, mem, root, ps, p, l);
    }
    assert p in {p};
  }

  // One more page takes the tables still missing on the way to it.
  lemma MoreSlots<W>(m: Mmu<W>, mem0: Memory<W>, mem: Memory<W>, root: nat, ps: set<nat>, p: nat)
    requires Made(m, mem0, mem, root, ps) && p < USER_PAGES
    ensures |Slots(m, mem0, root, ps + {p})| == |Slots(m, mem0, root, ps)| + MissingPage(m, mem, root, p)
  {
    hide Slots, OnWay, MissingPage, Made;
    var n := MissingPage(m, mem, root, p);
    OnWaySize(p, n);
    StillMissing(m, mem0, mem, root, ps, p);
    SlotsJoin(m, mem0, root, ps, {p});
    assert Slots(m, mem0, root, ps + {p}) == Slots(m, mem0, root, ps) + OnWay(p, n);
  }

  // ---- pages of memory and pages for tables ----

  // How many pages the heap has to give for these pages to be mapped.
  ghost function Demand<W>(m: Mmu<W>, mem: Memory<W>, root: nat, ps: set<nat>): nat {
    |ps| + |Slots(m, mem, root, ps)|
  }

  lemma MoreDemand<W>(m: Mmu<W>, mem0: Memory<W>, mem: Memory<W>, root: nat, ps: set<nat>, p: nat)
    requires Made(m, mem0, mem, root, ps) && p < USER_PAGES && p !in ps
    ensures Demand(m, mem0, root, ps + {p}) == Demand(m, mem0, root, ps) + 1 + MissingPage(m, mem, root, p)
  {
    hide Slots, Made, MissingPage;
    MoreSlots(m, mem0, mem, root, ps, p);
  }

  lemma DemandGrows<W>(m: Mmu<W>, mem: Memory<W>, root: nat, ps: set<nat>, qs: set<nat>)
    requires ps <= qs
    ensures Demand(m, mem, root, ps) <= Demand(m, mem, root, qs)
  {
    SlotsGrow(m, mem, root, ps, qs);
    SetSize(ps, qs);
    SetSize(Slots(m, mem, root, ps), Slots(m, mem, root, qs));
  }

  lemma SetSize<T>(a: set<T>, b: set<T>)
    requires a <= b
    ensures |a| <= |b|
  {
    assert b == a + (b - a);
  }

  // Four pages each are enough wherever the pages are.
  lemma {:induction false} DemandBound<W>(m: Mmu<W>, mem: Memory<W>, root: nat, ps: set<nat>)
    ensures |ps| <= Demand(m, mem, root, ps) <= 4 * |ps|
    decreases |ps|
  {
    hide TableNo, Lacks;
    if ps == {} {
      NoSlots(m, mem, root);
    } else {
      var p :| p in ps;
      var rest := ps - {p};
      DemandBound(m, mem, root, rest);
      OnWaySize(p, PT_TOP_LEVEL);
      SlotsJoin(m, mem, root, rest, {p});
      assert ps == rest + {p};
      assert Slots(m, mem, root, {p}) <= OnWay(p, PT_TOP_LEVEL);
      SetSize(Slots(m, mem, root, ps), Slots(m, mem, root, rest) + OnWay(p, PT_TOP_LEVEL));
    }
  }

  // A free block as large as sixteen pages for each of them is enough, whatever else is allocated.
  lemma RoomForPages<W>(m: Mmu<W>, mem: Memory<W>, root: nat, ps: set<nat>, bs: seq<HB.Block>)
    requires HB.Roomy(bs, 4 * |ps|)
    ensures HB.CanGive(bs, Demand(m, mem, root, ps))
  {
    hide HB.Roomy, HB.CanGive, Slots;
    DemandBound(m, mem, root, ps);
    HB.RoomGives(bs, 4 * |ps|, Demand(m, mem, root, ps));
  }

  // ---- one page after another ----

  // Memory and heap when the work began.
  datatype Start<!W> = Start(mem: Memory<W>, bs: seq<HB.Block>)

  ghost predicate Enough<W>(m: Mmu<W>, root: nat, s0: Start<W>, ps: set<nat>) {
    HB.CanGive(s0.bs, Demand(m, s0.mem, root, ps))
  }

  // How things stand with these pages taken care of: unless one of them went without (short), the
  // heap has given exactly what they need, and it could not have given that otherwise.
  ghost predicate Kept<W>(m: Mmu<W>, root: nat, s0: Start<W>, mem: Memory<W>, bs: seq<HB.Block>, short: bool, ps: set<nat>) {
    && Fewer(m, s0.mem, mem, root)
    && (short ==> !Enough(m, root, s0, ps))
    && (!short ==> Spent(s0.bs, bs, Demand(m, s0.mem, root, ps)) && Made(m, s0.mem, mem, root, ps))
  }

  lemma KeptStart<W>(m: Mmu<W>, root: nat, s0: Start<W>)
    ensures Kept(m, root, s0, s0.mem, s0.bs, false, {})
  {
    hide Slots, Missing, Made, Spent;
    NoSlots(m, s0.mem, root);
    NothingSpent(s0.bs);
  }

  lemma KeptMeans<W>(m: Mmu<W>, root: nat, s0: Start<W>, mem: Memory<W>, bs: seq<HB.Block>, short: bool, ps: set<nat>)
    requires Kept(m, root, s0, mem, bs, short, ps)
    ensures short <==> !Enough(m, root, s0, ps)
    ensures !short ==> Spent(s0.bs, bs, Demand(m, s0.mem, root, ps))
  {
    hide Demand, Made, Fewer, HB.CanGive, Spent;
    if !short {
      SpentMeans(s0.bs, bs, Demand(m, s0.mem, root, ps));
    }
  }

  lemma NeverEnough<W>(m: Mmu<W>, root: nat, s0: Start<W>, ps: set<nat>, qs: set<nat>)
    requires ps <= qs && Enough(m, root, s0, qs)
    ensures Enough(m, root, s0, ps)
  {
    hide Demand, HB.CanGive;
    DemandGrows(m, s0.mem, root, ps, qs);
    HB.GiveLess(s0.bs, Demand(m, s0.mem, root, ps), Demand(m, s0.mem, root, qs));
  }

  lemma SpentThen(bs: seq<HB.Block>, cs: seq<HB.Block>, a: nat, b: nat)
    requires Spent(bs, cs, a)
    ensures HB.CanGive(bs, a + b) <==> HB.CanGive(cs, b)
    ensures forall ds :: Spent(cs, ds, b) ==> Spent(bs, ds, a + b)
  {
    hide HB.Give;
    HB.GiveMore(bs, a, b);
  }

  // What one more page costs.
  ghost function Price<W>(m: Mmu<W>, mem: Memory<W>, root: nat, p: nat, there: bool): nat {
    if there then 0 else 1 + MissingPage(m, mem, root, p)
  }

  // The heap can give what the page costs exactly if it could have given what all need.
  lemma OnePageMore<W>(m: Mmu<W>, root: nat, s0: Start<W>, mem: Memory<W>, bs: seq<HB.Block>, ps: set<nat>, p: nat)
    requires Kept(m, root, s0, mem, bs, false, ps) && p < USER_PAGES
    ensures Enough(m, root, s0, ps + {p}) <==> HB.CanGive(bs, Price(m, mem, root, p, p in ps))
    ensures forall cs :: Spent(bs, cs, Price(m, mem, root, p, p in ps)) ==> Spent(s0.bs, cs, Demand(m, s0.mem, root, ps + {p}))
  {
    hide Demand, Made, Fewer, HB.CanGive, Spent, MissingPage;
    SpentThen(s0.bs, bs, Demand(m, s0.mem, root, ps), Price(m, mem, root, p, p in ps));
    if p in ps {
      assert ps + {p} == ps;
    } else {
      MoreDemand(m, s0.mem, mem, root, ps, p);
    }
  }

  lemma KeptOn<W>(m: Mmu<W>, root: nat, s0: Start<W>, mem: Memory<W>, bs: seq<HB.Block>, short: bool, ps: set<nat>, p: nat,
                  mem': Memory<W>, bs': seq<HB.Block>, went: bool)
    requires Kept(m, root, s0, mem, bs, short, ps) && p < USER_PAGES && OpenedPages(m, mem, mem', root, p)
    requires !short ==> (went <==> !HB.CanGive(bs, Price(m, mem, root, p, p in ps)))
    requires !short && !went ==> Spent(bs, bs', Price(m, mem, root, p, p in ps))
    ensures Kept(m, root, s0, mem', bs', short || went, ps + {p})
  {
    hide Demand, Made, Fewer, HB.CanGive, Spent, OpenedPages, Price, Enough;
    OpenedFewer(m, s0.mem, mem, mem', root, p);
    if short {
      if Enough(m, root, s0, ps + {p}) {
        NeverEnough(m, root, s0, ps, ps + {p});
      }
    } else {
      OnePageMore(m, root, s0, mem, bs, ps, p);
      MoreMade(m, s0.mem, mem, mem', root, ps, p);
    }
  }

  // Where the page cannot be had, there was not enough for it and those before it.
  lemma NotKept<W>(m: Mmu<W>, root: nat, s0: Start<W>, mem: Memory<W>, bs: seq<HB.Block>, short: bool, ps: set<nat>, p: nat)
    requires Kept(m, root, s0, mem, bs, short, ps) && p < USER_PAGES
    requires !short ==> !HB.CanGive(bs, Price(m, mem, root, p, p in ps))
    ensures !Enough(m, root, s0, ps + {p})
  {
    hide Demand, Made, Fewer, HB.CanGive, Spent, Price, Enough;
    if short {
      if Enough(m, root, s0, ps + {p}) {
        NeverEnough(m, root, s0, ps, ps + {p});
      }
    } else {
      OnePageMore(m, root, s0, mem, bs, ps, p);
    }
  }
}
