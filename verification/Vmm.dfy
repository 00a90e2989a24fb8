/** map_page_4k, protect_page_4k and unmap_page_4k over physical memory and the kernel heap,
    refined to the page map that an address space stands for. */
module Vmm {
  import opened Sizes
  import opened Wrappers
  import opened PteInterface
  import opened PageTree
  import opened MissingTables
  import HB = HeapBlocks
  import Pmm

  // The user half of a root table.
  const USER: nat := 256

  // The page at address a lies inside one live allocation other than the one at `but`.
  ghost predicate Covered(bs: seq<HB.Block>, a: int, but: nat) {
    exists b :: b in HB.Live(bs) && b.Payload() != but && b.Payload() <= a && a + PAGE <= b.End()
  }

  ghost predicate NewlyCovered(bs: seq<HB.Block>, cs: seq<HB.Block>, p: nat) {
    && (forall but :: but != p ==> Covered(cs, p, but))
    && (forall but :: !Covered(bs, p, but))
    && HB.Live(bs) <= HB.Live(cs)
  }

  // A page handed out lies apart from every page held before, and those stay held.
  lemma FreshPage(bs: seq<HB.Block>, lo: nat, hi: nat)
    requires HB.Inv(bs, lo, hi)
    ensures var (cs, p) := HB.PageAlloc(bs, 1);
            && (p == 0 ==> cs == bs)
            && (p != 0 ==> 0 < lo < p && p + PAGE <= hi && NewlyCovered(bs, cs, p))
  {
    var (cs, p) := HB.PageAlloc(bs, 1);
    HB.PageAllocContract(bs, lo, hi, 1);
    if p != 0 {
      var b :| b !in HB.Live(bs) && b.Payload() == p && b.size >= PAGE * 1 && HB.Live(cs) == HB.Live(bs) + {b};
      assert b in HB.Live(cs);
      HB.AllAscending(cs, lo, hi);
      forall but | Covered(bs, p, but) ensures false {
        var d :| d in HB.Live(bs) && d.Payload() != but && d.Payload() <= p && p + PAGE <= d.End();
        HB.PayloadsDisjoint(cs, lo, hi, b, d);
      }
    }
  }

  ghost predicate Whole<W>(mem: Memory<W>) {
    forall f :: 0 <= f < FRAMES ==> f in mem && |mem[f]| == PT_ENTRIES
  }

  // The kernel's pointers to these frames.
  ghost function Pointers(off: nat, frames: set<nat>): set<nat> {
    set f | f in frames :: off + PAGE * f
  }

  // What an operation on the space at root may do to memory and heap: the named change to the
  // translation, new tables accounted for as allocations, and nothing else.
  ghost predicate Moved<W>(m: Mmu<W>, mem: Memory<W>, mem': Memory<W>, root: nat, ch: Change, added: set<nat>,
                           off: nat, live: set<nat>, live': set<nat>) {
    && Changed(m, mem, mem', root, PT_TOP_LEVEL, USER, ch, added)
    && live' == live + Pointers(off, added) && Pointers(off, added) !! live
    && Apart(mem, mem', Tables(m, mem, root, PT_TOP_LEVEL, USER) + added)
    && KernelHalf(mem, mem', root)
  }

  // Frames outside the given set are as they were.
  ghost predicate Apart<W>(mem: Memory<W>, mem': Memory<W>, frames: set<nat>) {
    forall f :: f in mem && f !in frames ==> f in mem' && mem'[f] == mem[f]
  }

  ghost predicate KernelHalf<W>(mem: Memory<W>, mem': Memory<W>, root: nat) {
    root in mem && root in mem' && |mem[root]| == |mem'[root]| == PT_ENTRIES && mem'[root][USER..] == mem[root][USER..]
  }

  // Tables of the space at root are pages the heap has handed out.
  ghost predicate SpaceIn<W>(m: Mmu<W>, mem: Memory<W>, root: nat, off: nat, live: set<nat>) {
    && Tree(m, mem, root, PT_TOP_LEVEL, USER)
    && forall t :: t in Tables(m, mem, root, PT_TOP_LEVEL, USER) ==> t < FRAMES && off + PAGE * t in live
  }

  // A space whose tables are other pages translates as before and stays in order.
  lemma OtherSpace<W>(m: Mmu<W>, mem: Memory<W>, mem': Memory<W>, root: nat, ch: Change, added: set<nat>,
                      off: nat, live: set<nat>, live': set<nat>, other: nat)
    requires Moved(m, mem, mem', root, ch, added, off, live, live')
    requires SpaceIn(m, mem, other, off, live)
    requires Tables(m, mem, other, PT_TOP_LEVEL, USER) !! Tables(m, mem, root, PT_TOP_LEVEL, USER)
    ensures SpaceIn(m, mem', other, off, live')
    ensures SameTranslations(m, mem, mem', other, PT_TOP_LEVEL, USER)
    ensures Tables(m, mem', other, PT_TOP_LEVEL, USER) !! Tables(m, mem', root, PT_TOP_LEVEL, USER)
  {
    hide Tree, Tables, Translates, Index, KernelHalf;
    var ts := Tables(m, mem, other, PT_TOP_LEVEL, USER);
    NotAdded(m, mem, other, added, off, live);
    assert Agree(mem, mem', ts);
    Framed(m, mem, mem', other, PT_TOP_LEVEL, USER);
  }

  lemma NotAdded<W>(m: Mmu<W>, mem: Memory<W>, root: nat, added: set<nat>, off: nat, live: set<nat>)
    requires SpaceIn(m, mem, root, off, live) && Pointers(off, added) !! live
    ensures Tables(m, mem, root, PT_TOP_LEVEL, USER) !! added
  {
    hide Tree, Tables;
    forall t | t in added ensures t !in Tables(m, mem, root, PT_TOP_LEVEL, USER) {
      assert off + PAGE * t in Pointers(off, added);
    }
  }

  // The changes of a whole run of operations, one after another.
  lemma MovedThen<W>(m: Mmu<W>, mem: Memory<W>, mem1: Memory<W>, mem2: Memory<W>, root: nat, ch: Change,
                     a: set<nat>, b: set<nat>, off: nat, live: set<nat>, live1: set<nat>, live2: set<nat>)
    requires Moved(m, mem, mem1, root, Same, a, off, live, live1)
    requires Moved(m, mem1, mem2, root, ch, b, off, live1, live2)
    ensures Moved(m, mem, mem2, root, ch, a + b, off, live, live2)
  {
    hide Tables, Tree, Translates;
    Compose(m, mem, mem1, mem2, root, PT_TOP_LEVEL, USER, ch, a, b);
  }

  // ---- a run of operations on one space ----

  // What a page maps to after these changes, the last one that names it deciding.
  ghost function After(chs: seq<Change>, va: nat, tr: Option<Mapping>): Option<Mapping> {
    if chs == [] then tr else Expect(chs[|chs| - 1], PT_TOP_LEVEL, va, After(chs[..|chs| - 1], va, tr))
  }

  // Memory and live pointers before each operation, and after the last.
  datatype Moment<!W> = Moment(mem: Memory<W>, live: set<nat>)

  ghost predicate RunOf<W>(m: Mmu<W>, root: nat, off: nat, ms: seq<Moment<W>>, chs: seq<Change>, added: seq<set<nat>>) {
    && |ms| == |chs| + 1 && |added| == |chs|
    && forall i, j :: 0 <= i < |chs| && j == i + 1 ==>
         Moved(m, ms[i].mem, ms[j].mem, root, chs[i], added[i], off, ms[i].live, ms[j].live)
  }

  // Over any run of mappings, protections and unmappings, successful or not, every user address
  // maps to what the last change of its page says, and to what it did before if there is none.
  lemma {:induction false} RunTranslates<W>(m: Mmu<W>, root: nat, off: nat, ms: seq<Moment<W>>, chs: seq<Change>, added: seq<set<nat>>, va: nat)
    requires RunOf(m, root, off, ms, chs, added) && Index(va, PT_TOP_LEVEL) < USER
    ensures Translate(m, ms[|chs|].mem, root, PT_TOP_LEVEL, va)
         == After(chs, va, Translate(m, ms[0].mem, root, PT_TOP_LEVEL, va))
    ensures ms[0].live <= ms[|chs|].live
    decreases |chs|
  {
    hide Tree, Tables, Translate, Index, SameUpTo, KernelHalf;
    if chs != [] {
      var n := |chs| - 1;
      RunTranslates(m, root, off, ms[..|chs|], chs[..n], added[..n], va);
      assert ms[..|chs|][n] == ms[n] && ms[..|chs|][0] == ms[0];
      assert Moved(m, ms[n].mem, ms[n + 1].mem, root, chs[n], added[n], off, ms[n].live, ms[n + 1].live);
    }
  }

  // The memory after a table page has been put in place of an entry.
  ghost function Grafted<W>(m: Mmu<W>, mem: Memory<W>, t: nat, idx: nat, c: nat, page: seq<W>): Memory<W>
    requires t in mem && t != c && idx < |mem[t]|
  {
    Put(mem[c := page], t, idx, m.table(c))
  }

  // The table page means what the entry w means, for every address the entry covers.
  ghost predicate StandsFor<W>(m: Mmu<W>, page: seq<W>, w: W, level: nat, va: nat)
    requires level > 0
  {
    forall a :: Index(a, level) == Index(va, level) ==> LeafTable(m, page, level - 1, a) == Leaf(m, w, level, a)
  }

  // A table page on top of the path moves nothing.
  lemma GraftMoves<W(!new)>(m: Mmu<W>, mem: Memory<W>, root: nat, va: nat, t: nat, l: nat, c: nat, page: seq<W>,
                            off: nat, live: set<nat>)
    requires Lawful(m) && Whole(mem) && c < FRAMES && c in mem
    requires SpaceIn(m, mem, root, off, live) && off + PAGE * c !in live
    requires OnPath(m, mem, root, PT_TOP_LEVEL, va, t, l) && Index(va, PT_TOP_LEVEL) < USER && 0 < l <= PT_TOP_LEVEL
    requires !IsTable(m, Word(m, mem, t, Index(va, l)), l) && OnlyLeaves(m, page, l - 1)
    requires StandsFor(m, page, Word(m, mem, t, Index(va, l)), l, va)
    ensures t in mem && t != c && t < FRAMES && Index(va, l) < |mem[t]|
    ensures var mem' := Grafted(m, mem, t, Index(va, l), c, page);
            && Moved(m, mem, mem', root, Same, {c}, off, live, live + {off + PAGE * c})
            && SpaceIn(m, mem', root, off, live + {off + PAGE * c})
            && OnPath(m, mem', root, PT_TOP_LEVEL, va, c, l - 1)
            && Whole(mem')
  {
    hide Tables, Tree, Translates, Index, Span;
    var w := m.table(c);
    assert IsTable(m, w, l) && m.phys(w) == c && Open(m.passes(w));
    PathEnd(m, mem, root, va, t, l);
    GraftOnPath(m, mem, root, PT_TOP_LEVEL, USER, va, t, l, c, page, w);
    var mem' := Grafted(m, mem, t, Index(va, l), c, page);
    assert Pointers(off, {c}) == {off + PAGE * c};
    assert root != c && KernelHalf(mem, mem', root) by {
      RootEntry(m, mem, root, va, t, l);
      RootIsTable(m, mem, root);
    }
    assert Apart(mem, mem', Tables(m, mem, root, PT_TOP_LEVEL, USER) + {c});
  }

  lemma PathEnd<W>(m: Mmu<W>, mem: Memory<W>, root: nat, va: nat, t: nat, l: nat)
    requires Tree(m, mem, root, PT_TOP_LEVEL, USER)
    requires OnPath(m, mem, root, PT_TOP_LEVEL, va, t, l) && Index(va, PT_TOP_LEVEL) < USER
    ensures l <= PT_TOP_LEVEL && t in Tables(m, mem, root, PT_TOP_LEVEL, USER)
    ensures t in mem && |mem[t]| == PT_ENTRIES && Index(va, l) < PT_ENTRIES
  {
    PathLevel(m, mem, root, PT_TOP_LEVEL, va, t, l);
    PathTables(m, mem, root, PT_TOP_LEVEL, USER, va, t, l);
    assert t in Tables(m, mem, t, l, Width(PT_TOP_LEVEL, l, USER));
  }

  lemma RootIsTable<W>(m: Mmu<W>, mem: Memory<W>, root: nat)
    requires Tree(m, mem, root, PT_TOP_LEVEL, USER)
    ensures root in Tables(m, mem, root, PT_TOP_LEVEL, USER) && root in mem && |mem[root]| == PT_ENTRIES
  {
  }

  // The path meets the root table only at the top, so the kernel half stays out of reach.
  lemma RootEntry<W>(m: Mmu<W>, mem: Memory<W>, root: nat, va: nat, t: nat, l: nat)
    requires Tree(m, mem, root, PT_TOP_LEVEL, USER)
    requires OnPath(m, mem, root, PT_TOP_LEVEL, va, t, l) && Index(va, PT_TOP_LEVEL) < USER
    ensures t == root ==> l == PT_TOP_LEVEL
  {
    PathLevel(m, mem, root, PT_TOP_LEVEL, va, t, l);
    if l < PT_TOP_LEVEL {
      var i := Index(va, PT_TOP_LEVEL);
      var c := m.phys(Word(m, mem, root, i));
      assert EntryTree(m, mem, root, PT_TOP_LEVEL, i) && root !in ChildTables(m, mem, root, PT_TOP_LEVEL, i);
      PathTables(m, mem, c, PT_TOP_LEVEL - 1, PT_ENTRIES, va, t, l);
      assert t in Tables(m, mem, t, l, Width(PT_TOP_LEVEL - 1, l, PT_ENTRIES));
    }
  }

  function Zeros<W>(m: Mmu<W>): (page: seq<W>)
    ensures |page| == PT_ENTRIES
  {
    seq(PT_ENTRIES, i => m.zero)
  }

  // The table that takes a leaf's place: 512 leaves one level down.
  function SplitPage<W>(m: Mmu<W>, w: W, level: nat): (page: seq<W>)
    requires level > 0
    ensures |page| == PT_ENTRIES
    ensures forall i :: 0 <= i < PT_ENTRIES ==> page[i] == m.childLeaf(w, ChildFrame(m.phys(w), level - 1, i), level - 1)
  {
    seq(PT_ENTRIES, (i: nat) => m.childLeaf(w, ChildFrame(m.phys(w), level - 1, i), level - 1))
  }

  // Splitting preserves meaning: every address under the leaf keeps its frame and its flags.
  lemma SplitMeaning<W(!new)>(m: Mmu<W>, w: W, level: nat, va: nat)
    requires Lawful(m) && 0 < level <= PT_TOP_LEVEL
    requires m.present(w) && m.isLeaf(w, level) && LeafFrame(m.phys(w), level)
    ensures OnlyLeaves(m, SplitPage(m, w, level), level - 1)
    ensures LeafTable(m, SplitPage(m, w, level), level - 1, va) == Leaf(m, w, level, va)
  {
    var page := SplitPage(m, w, level);
    forall i: nat | i < PT_ENTRIES
      ensures m.present(page[i]) && !IsTable(m, page[i], level - 1) && LeafFrame(m.phys(page[i]), level - 1)
      ensures m.phys(page[i]) == ChildFrame(m.phys(w), level - 1, i) && m.flags(page[i]) == m.flags(w)
    {
      ChildLeafFrame(m.phys(w), level, i);
    }
    ChildMaps(m.phys(w), level, va);
    IndexBound(va, level - 1);
  }

  lemma EmptyMeaning<W(!new)>(m: Mmu<W>, level: nat, va: nat)
    requires !m.present(m.zero)
    ensures OnlyLeaves(m, Zeros(m), level) && LeafTable(m, Zeros(m), level, va) == None
  {
    IndexBound(va, level);
  }

  // The walk to va has come down to this level: what is missing for any address now is what was
  // missing before, without the tables that it shares with va from there up.
  ghost predicate Opened<W>(m: Mmu<W>, mem0: Memory<W>, mem: Memory<W>, root: nat, va: nat, level: nat) {
    forall a :: Index(a, PT_TOP_LEVEL) < USER ==> OpenedAt(m, mem0, mem, root, va, level, a)
  }

  ghost predicate OpenedAt<W>(m: Mmu<W>, mem0: Memory<W>, mem: Memory<W>, root: nat, va: nat, level: nat, a: nat) {
    Missing(m, mem, root, PT_TOP_LEVEL, a)
      == Least(Missing(m, mem0, root, PT_TOP_LEVEL, a), Greatest(level, Branch(a, va, PT_TOP_LEVEL)))
  }

  function Least(a: nat, b: nat): nat {
    if a < b then a else b
  }

  function Greatest(a: nat, b: nat): nat {
    if a < b then b else a
  }

  // How many tables have been made: those missing then and not missing now.
  ghost predicate Counted<W>(m: Mmu<W>, mem0: Memory<W>, mem: Memory<W>, root: nat, va: nat, added: set<nat>) {
    |added| + Missing(m, mem, root, PT_TOP_LEVEL, va) == Missing(m, mem0, root, PT_TOP_LEVEL, va)
  }

  // How far a walk towards va has come: nothing translates differently yet, the tables added
  // so far are accounted for, and t is the table on the path at this level.
  ghost predicate Walking<W>(m: Mmu<W>, mem0: Memory<W>, mem: Memory<W>, root: nat, va: nat, t: nat, level: nat, added: set<nat>,
                             off: nat, live0: set<nat>, live: set<nat>) {
    && Moved(m, mem0, mem, root, Same, added, off, live0, live)
    && SpaceIn(m, mem, root, off, live)
    && OnPath(m, mem, root, PT_TOP_LEVEL, va, t, level)
    && Opened(m, mem0, mem, root, va, level) && Counted(m, mem0, mem, root, va, added)
  }

  lemma WalkStart<W>(m: Mmu<W>, mem: Memory<W>, root: nat, va: nat, off: nat, live: set<nat>)
    requires SpaceIn(m, mem, root, off, live)
    ensures Walking(m, mem, mem, root, va, root, PT_TOP_LEVEL, {}, off, live, live)
  {
    hide Tree, Tables, Missing, Branch;
    Nothing(m, mem, root, PT_TOP_LEVEL, USER);
    RootIsTable(m, mem, root);
  }

  // Where the walk has come to, as many tables are missing as levels are left, unless there is one.
  lemma WalkMisses<W>(m: Mmu<W>, mem0: Memory<W>, mem: Memory<W>, root: nat, va: nat, t: nat, level: nat, added: set<nat>,
                      off: nat, live0: set<nat>, live: set<nat>)
    requires Walking(m, mem0, mem, root, va, t, level, added, off, live0, live) && Index(va, PT_TOP_LEVEL) < USER
    requires !IsTable(m, Word(m, mem, t, Index(va, level)), level)
    ensures |added| + level == Missing(m, mem0, root, PT_TOP_LEVEL, va) && level <= PT_TOP_LEVEL
  {
    hide Tree, Tables, Moved, SpaceIn, Index, Opened;
    SelfBranch(va, PT_TOP_LEVEL);
    MissingBelow(m, mem, root, PT_TOP_LEVEL, va, t, level, va);
    PathLevel(m, mem, root, PT_TOP_LEVEL, va, t, level);
  }

  lemma WalkHere<W(!new)>(m: Mmu<W>, mem0: Memory<W>, mem: Memory<W>, root: nat, va: nat, t: nat, level: nat, added: set<nat>,
                          off: nat, live0: set<nat>, live: set<nat>)
    requires Lawful(m) && Walking(m, mem0, mem, root, va, t, level, added, off, live0, live) && Index(va, PT_TOP_LEVEL) < USER
    ensures t < FRAMES && t in mem && |mem[t]| == PT_ENTRIES && Index(va, level) < PT_ENTRIES && off + PAGE * t in live
    ensures var w := mem[t][Index(va, level)];
            w == Word(m, mem, t, Index(va, level))
            && (m.present(w) && !IsTable(m, w, level) ==> LeafFrame(m.phys(w), level))
  {
    hide Lawful, Translates, Index, KernelHalf, Missing;
    PathEnd(m, mem, root, va, t, level);
    IndexBound(va, level);
    PathTables(m, mem, root, PT_TOP_LEVEL, USER, va, t, level);
    assert EntryTree(m, mem, t, level, Index(va, level)) by {
      if level == PT_TOP_LEVEL {
        assert Index(va, level) < Width(PT_TOP_LEVEL, level, USER);
      }
    }
  }

  // Down through a table that is already there.
  lemma WalkDown<W>(m: Mmu<W>, mem0: Memory<W>, mem: Memory<W>, root: nat, va: nat, t: nat, level: nat, added: set<nat>,
                    off: nat, live0: set<nat>, live: set<nat>)
    requires Walking(m, mem0, mem, root, va, t, level, added, off, live0, live) && Index(va, PT_TOP_LEVEL) < USER
    requires 0 < level <= PT_TOP_LEVEL && IsTable(m, Word(m, mem, t, Index(va, level)), level)
    ensures Walking(m, mem0, mem, root, va, m.phys(Word(m, mem, t, Index(va, level))), level - 1, added, off, live0, live)
  {
    hide Tree, Tables, Moved, Missing, Index;
    PathOn(m, mem, mem, root, PT_TOP_LEVEL, USER, va, t, level);
    forall a | Index(a, PT_TOP_LEVEL) < USER ensures OpenedAt(m, mem0, mem, root, va, level - 1, a) {
      assert OpenedAt(m, mem0, mem, root, va, level, a);
      if Branch(a, va, PT_TOP_LEVEL) < level {
        TableThere(m, mem, root, PT_TOP_LEVEL, va, t, level, a);
      }
    }
  }

  lemma TableThere<W>(m: Mmu<W>, mem: Memory<W>, f: nat, top: nat, va: nat, t: nat, level: nat, a: nat)
    requires OnPath(m, mem, f, top, va, t, level) && 0 < level <= top && Branch(a, va, top) < level
    requires IsTable(m, Word(m, mem, t, Index(va, level)), level)
    ensures Missing(m, mem, f, top, a) < level
  {
    MissingBelow(m, mem, f, top, va, t, level, a);
    BranchIndex(a, va, top, level);
  }

  lemma {:induction false} BranchIndex(a: nat, b: nat, top: nat, level: nat)
    requires 0 < level <= top && Branch(a, b, top) < level
    ensures Index(a, level) == Index(b, level)
    decreases top
  {
    if level < top {
      BranchIndex(a, b, top - 1, level);
    }
  }

  // Down through a table page that has just taken the place of an entry and means the same.
  lemma WalkInto<W(!new)>(m: Mmu<W>, mem0: Memory<W>, mem: Memory<W>, root: nat, va: nat, t: nat, k: nat, added: set<nat>,
                          off: nat, live0: set<nat>, live: set<nat>, c: nat, page: seq<W>, mem1: Memory<W>, live1: set<nat>)
    requires t in mem && t != c && Index(va, k + 1) < |mem[t]| && mem1 == Grafted(m, mem, t, Index(va, k + 1), c, page)
    requires live1 == live + {off + PAGE * c} && off + PAGE * c !in live && c < FRAMES && k < PT_TOP_LEVEL
    requires Index(va, PT_TOP_LEVEL) < USER && Lawful(m) && Whole(mem) && OnlyLeaves(m, page, k)
    requires !IsTable(m, Word(m, mem, t, Index(va, k + 1)), k + 1) && StandsFor(m, page, Word(m, mem, t, Index(va, k + 1)), k + 1, va)
    requires Walking(m, mem0, mem, root, va, t, k + 1, added, off, live0, live)
    ensures Walking(m, mem0, mem1, root, va, c, k, added + {c}, off, live0, live1)
  {
    hide Lawful, Tree, Tables, Index, OnPath, Leaf, LeafTable, OnlyLeaves, SpaceIn, Opened, Missing, Counted;
    GraftMoves(m, mem, root, va, t, k + 1, c, page, off, live);
    MovedThen(m, mem0, mem, mem1, root, Same, added, {c}, off, live0, live, live1);
    GraftOpens(m, mem0, mem, root, va, t, k, added, off, live0, live, c, page, mem1);
  }

  // A table page in the walk's way is one table less to make for all who come that way.
  lemma GraftOpens<W(!new)>(m: Mmu<W>, mem0: Memory<W>, mem: Memory<W>, root: nat, va: nat, t: nat, k: nat, added: set<nat>,
                            off: nat, live0: set<nat>, live: set<nat>, c: nat, page: seq<W>, mem1: Memory<W>)
    requires t in mem && t != c && Index(va, k + 1) < |mem[t]| && mem1 == Grafted(m, mem, t, Index(va, k + 1), c, page)
    requires off + PAGE * c !in live && c < FRAMES && k < PT_TOP_LEVEL
    requires Index(va, PT_TOP_LEVEL) < USER && Lawful(m) && OnlyLeaves(m, page, k)
    requires !IsTable(m, Word(m, mem, t, Index(va, k + 1)), k + 1)
    requires Walking(m, mem0, mem, root, va, t, k + 1, added, off, live0, live)
    ensures Opened(m, mem0, mem1, root, va, k) && Counted(m, mem0, mem1, root, va, added + {c})
  {
    hide Lawful, Tree, Tables, Index, Moved, SpaceIn, OnlyLeaves, Missing, Branch, OnPath, IsTable, Walking, Opened, OnlyEnd, StandsFor;
    WalkSpace(m, mem0, mem, root, va, t, k + 1, added, off, live0, live);
    GraftedEnd(m, mem, root, va, t, k + 1, off, live, c, page, mem1);
    WalkFresh(m, mem0, mem, root, va, t, k + 1, added, off, live0, live, c);
    WalkCounted(m, mem0, mem, root, va, t, k + 1, added, off, live0, live);
    SelfBranch(va, PT_TOP_LEVEL);
    forall a | Index(a, PT_TOP_LEVEL) < USER
      ensures OpenedAt(m, mem0, mem1, root, va, k, a)
      ensures a == va ==> Missing(m, mem, root, PT_TOP_LEVEL, a) == k + 1 && Missing(m, mem1, root, PT_TOP_LEVEL, a) == k
    {
      WalkOpened(m, mem0, mem, root, va, t, k + 1, added, off, live0, live, a);
      GraftMissing(m, mem, mem1, root, PT_TOP_LEVEL, USER, va, t, k + 1, c, page, a);
    }
    AllOpened(m, mem0, mem1, root, va, k);
  }

  // The graft, as memory that differs at the walk's end only.
  lemma GraftedEnd<W(!new)>(m: Mmu<W>, mem: Memory<W>, root: nat, va: nat, t: nat, l: nat, off: nat, live: set<nat>,
                            c: nat, page: seq<W>, mem1: Memory<W>)
    requires t in mem && t != c && Index(va, l) < |mem[t]| && mem1 == Grafted(m, mem, t, Index(va, l), c, page)
    requires off + PAGE * c !in live && c < FRAMES && 0 < l <= PT_TOP_LEVEL && Lawful(m) && Index(va, PT_TOP_LEVEL) < USER
    requires SpaceIn(m, mem, root, off, live) && OnPath(m, mem, root, PT_TOP_LEVEL, va, t, l)
    ensures OnlyEnd(m, mem, mem1, root, PT_TOP_LEVEL, USER, va, t, l) && c in mem1 && mem1[c] == page
    ensures var w := Word(m, mem1, t, Index(va, l)); IsTable(m, w, l) && m.phys(w) == c
  {
    hide Lawful, Tree, Tables, Index, OnPath;
    assert c !in Tables(m, mem, root, PT_TOP_LEVEL, USER);
    TableEntry(m, c, l);
  }

  lemma WalkSpace<W>(m: Mmu<W>, mem0: Memory<W>, mem: Memory<W>, root: nat, va: nat, t: nat, level: nat, added: set<nat>,
                     off: nat, live0: set<nat>, live: set<nat>)
    requires Walking(m, mem0, mem, root, va, t, level, added, off, live0, live)
    ensures SpaceIn(m, mem, root, off, live) && OnPath(m, mem, root, PT_TOP_LEVEL, va, t, level)
  {
  }

  lemma TableEntry<W(!new)>(m: Mmu<W>, c: nat, level: nat)
    requires Lawful(m) && c < FRAMES && 0 < level <= PT_TOP_LEVEL
    ensures IsTable(m, m.table(c), level) && m.phys(m.table(c)) == c
  {
  }

  lemma WalkFresh<W>(m: Mmu<W>, mem0: Memory<W>, mem: Memory<W>, root: nat, va: nat, t: nat, level: nat, added: set<nat>,
                     off: nat, live0: set<nat>, live: set<nat>, c: nat)
    requires Walking(m, mem0, mem, root, va, t, level, added, off, live0, live) && off + PAGE * c !in live
    ensures c !in added
  {
    hide Moved;
    NotYetAdded(m, mem0, mem, root, added, off, live0, live, c);
  }

  lemma NotYetAdded<W>(m: Mmu<W>, mem0: Memory<W>, mem: Memory<W>, root: nat, added: set<nat>, off: nat, live0: set<nat>, live: set<nat>,
                       c: nat)
    requires Moved(m, mem0, mem, root, Same, added, off, live0, live) && off + PAGE * c !in live
    ensures c !in added
  {
    hide Changed;
    assert c in added ==> off + PAGE * c in Pointers(off, added);
  }

  lemma WalkSplit<W(!new)>(m: Mmu<W>, mem0: Memory<W>, mem: Memory<W>, root: nat, va: nat, t: nat, k: nat, added: set<nat>,
                           off: nat, live0: set<nat>, live: set<nat>, c: nat, w: W, mem1: Memory<W>, live1: set<nat>)
    requires t in mem && t != c && Index(va, k + 1) < |mem[t]| && mem[t][Index(va, k + 1)] == w
    requires mem1 == Grafted(m, mem, t, Index(va, k + 1), c, SplitPage(m, w, k + 1))
    requires live1 == live + {off + PAGE * c} && off + PAGE * c !in live && c < FRAMES && k < PT_TOP_LEVEL
    requires m.present(w) && m.isLeaf(w, k + 1) && Index(va, PT_TOP_LEVEL) < USER && Lawful(m) && Whole(mem)
    requires Walking(m, mem0, mem, root, va, t, k + 1, added, off, live0, live)
    ensures Walking(m, mem0, mem1, root, va, c, k, added + {c}, off, live0, live1)
  {
    hide Tree, Tables, Index, OnPath, SpaceIn, Moved, Lawful, Whole, Walking, Leaf, LeafTable, OnlyLeaves, IsTable, Word, LeafFrame;
    LeafHere(m, mem0, mem, root, va, t, k + 1, added, off, live0, live);
    var l := k + 1;
    forall a ensures LeafTable(m, SplitPage(m, w, l), k, a) == Leaf(m, w, l, a) {
      SplitMeaning(m, w, l, a);
    }
    SplitMeaning(m, w, k + 1, va);
    WalkInto(m, mem0, mem, root, va, t, k, added, off, live0, live, c, SplitPage(m, w, k + 1), mem1, live1);
  }

  lemma LeafHere<W(!new)>(m: Mmu<W>, mem0: Memory<W>, mem: Memory<W>, root: nat, va: nat, t: nat, level: nat, added: set<nat>,
                          off: nat, live0: set<nat>, live: set<nat>)
    requires Lawful(m) && Walking(m, mem0, mem, root, va, t, level, added, off, live0, live) && Index(va, PT_TOP_LEVEL) < USER
    requires 0 < level <= PT_TOP_LEVEL && t in mem && Index(va, level) < |mem[t]|
    requires var w := mem[t][Index(va, level)]; m.present(w) && m.isLeaf(w, level)
    ensures var w := mem[t][Index(va, level)];
            w == Word(m, mem, t, Index(va, level)) && !IsTable(m, w, level) && LeafFrame(m.phys(w), level)
  {
    hide Tree, Tables, Index, OnPath, SpaceIn, Moved, Lawful, Walking, LeafFrame;
    WalkHere(m, mem0, mem, root, va, t, level, added, off, live0, live);
  }

  lemma WalkLink<W(!new)>(m: Mmu<W>, mem0: Memory<W>, mem: Memory<W>, root: nat, va: nat, t: nat, k: nat, added: set<nat>,
                          off: nat, live0: set<nat>, live: set<nat>, c: nat, mem1: Memory<W>, live1: set<nat>)
    requires t in mem && t != c && Index(va, k + 1) < |mem[t]| && mem1 == Grafted(m, mem, t, Index(va, k + 1), c, Zeros(m))
    requires live1 == live + {off + PAGE * c} && off + PAGE * c !in live && c < FRAMES && k < PT_TOP_LEVEL
    requires !m.present(mem[t][Index(va, k + 1)]) && Index(va, PT_TOP_LEVEL) < USER && Lawful(m) && Whole(mem)
    requires Walking(m, mem0, mem, root, va, t, k + 1, added, off, live0, live)
    ensures Walking(m, mem0, mem1, root, va, c, k, added + {c}, off, live0, live1)
  {
    assert !m.present(m.zero);
    hide Tree, Tables, Index, OnPath, SpaceIn, Moved, Lawful, Whole, Walking;
    forall a ensures LeafTable(m, Zeros(m), k, a) == None {
      EmptyMeaning(m, k, a);
    }
    EmptyMeaning(m, k, va);
    WalkInto(m, mem0, mem, root, va, t, k, added, off, live0, live, c, Zeros(m), mem1, live1);
  }

  // The lowest entry on the way to va is this one.
  ghost predicate EntryIs<W(!new)>(m: Mmu<W>, mem: Memory<W>, root: nat, va: nat, w: W) {
    exists t: nat :: OnPath(m, mem, root, PT_TOP_LEVEL, va, t, 0) && Word(m, mem, t, Index(va, 0)) == w
  }

  lemma EntryStands<W(!new)>(m: Mmu<W>, mem: Memory<W>, root: nat, va: nat, t: nat, w: W)
    requires Tree(m, mem, root, PT_TOP_LEVEL, USER) && Index(va, PT_TOP_LEVEL) < USER
    requires OnPath(m, mem, root, PT_TOP_LEVEL, va, t, 0) && t in mem && Index(va, 0) < |mem[t]|
    ensures EntryIs(m, Put(mem, t, Index(va, 0), w), root, va, w)
  {
    hide Tree, Tables, Index;
    var mem' := Put(mem, t, Index(va, 0), w);
    PathKept(m, mem, mem', root, PT_TOP_LEVEL, USER, va, t, 0);
    assert Word(m, mem', t, Index(va, 0)) == w;
  }

  // The last step: the lowest table's entry is written.
  lemma WalkWrite<W(!new)>(m: Mmu<W>, mem0: Memory<W>, mem: Memory<W>, root: nat, va: nat, t: nat, added: set<nat>,
                           off: nat, live0: set<nat>, live: set<nat>, w: W)
    requires Lawful(m) && Whole(mem) && Walking(m, mem0, mem, root, va, t, 0, added, off, live0, live)
    requires Index(va, PT_TOP_LEVEL) < USER && t in mem && Index(va, 0) < |mem[t]| && t < FRAMES
    requires m.present(w) ==> m.phys(w) < FRAMES
    ensures var mem' := Put(mem, t, Index(va, 0), w);
            && Moved(m, mem0, mem', root, Written(m, va, w), added, off, live0, live) && SpaceIn(m, mem', root, off, live) && Whole(mem')
            && Opened(m, mem0, mem', root, va, 0) && |added| == Missing(m, mem0, root, PT_TOP_LEVEL, va)
            && EntryIs(m, mem', root, va, w)
  {
    WriteOpens(m, mem0, mem, root, va, t, added, off, live0, live, w);
    hide Lawful, Tree, Tables, Index, Translates, Opened, Counted, EntryIs;
    EntryStands(m, mem, root, va, t, w);
    var mem' := Put(mem, t, Index(va, 0), w);
    WriteMoves(m, mem, root, va, t, off, live, w);
    MovedThen(m, mem0, mem, mem', root, Written(m, va, w), added, {}, off, live0, live, live);
    assert added + {} == added;
  }

  lemma WriteOpens<W(!new)>(m: Mmu<W>, mem0: Memory<W>, mem: Memory<W>, root: nat, va: nat, t: nat, added: set<nat>,
                            off: nat, live0: set<nat>, live: set<nat>, w: W)
    requires Walking(m, mem0, mem, root, va, t, 0, added, off, live0, live)
    requires Index(va, PT_TOP_LEVEL) < USER && t in mem && Index(va, 0) < |mem[t]|
    ensures Opened(m, mem0, Put(mem, t, Index(va, 0), w), root, va, 0) && |added| == Missing(m, mem0, root, PT_TOP_LEVEL, va)
  {
    hide Tree, Tables, Index, Moved, SpaceIn, Missing, Branch, OnPath, OnlyEnd, Walking, Opened;
    var mem' := Put(mem, t, Index(va, 0), w);
    WalkEndOnly(m, mem0, mem, root, va, t, added, off, live0, live, w);
    WalkMisses(m, mem0, mem, root, va, t, 0, added, off, live0, live);
    forall a | Index(a, PT_TOP_LEVEL) < USER ensures OpenedAt(m, mem0, mem', root, va, 0, a) {
      WalkOpened(m, mem0, mem, root, va, t, 0, added, off, live0, live, a);
      WriteMissing(m, mem, mem', root, PT_TOP_LEVEL, USER, va, t, a);
    }
    AllOpened(m, mem0, mem', root, va, 0);
  }

  lemma WalkOpened<W>(m: Mmu<W>, mem0: Memory<W>, mem: Memory<W>, root: nat, va: nat, t: nat, level: nat, added: set<nat>,
                      off: nat, live0: set<nat>, live: set<nat>, a: nat)
    requires Walking(m, mem0, mem, root, va, t, level, added, off, live0, live) && Index(a, PT_TOP_LEVEL) < USER
    ensures OpenedAt(m, mem0, mem, root, va, level, a)
  {
  }

  lemma WalkCounted<W>(m: Mmu<W>, mem0: Memory<W>, mem: Memory<W>, root: nat, va: nat, t: nat, level: nat, added: set<nat>,
                       off: nat, live0: set<nat>, live: set<nat>)
    requires Walking(m, mem0, mem, root, va, t, level, added, off, live0, live)
    ensures Counted(m, mem0, mem, root, va, added)
  {
  }

  lemma AllOpened<W>(m: Mmu<W>, mem0: Memory<W>, mem: Memory<W>, root: nat, va: nat, level: nat)
    requires forall a :: Index(a, PT_TOP_LEVEL) < USER ==> OpenedAt(m, mem0, mem, root, va, level, a)
    ensures Opened(m, mem0, mem, root, va, level)
  {
  }

  lemma WalkEndOnly<W>(m: Mmu<W>, mem0: Memory<W>, mem: Memory<W>, root: nat, va: nat, t: nat, added: set<nat>,
                       off: nat, live0: set<nat>, live: set<nat>, w: W)
    requires Walking(m, mem0, mem, root, va, t, 0, added, off, live0, live)
    requires Index(va, PT_TOP_LEVEL) < USER && t in mem && Index(va, 0) < |mem[t]|
    ensures OnlyEnd(m, mem, Put(mem, t, Index(va, 0), w), root, PT_TOP_LEVEL, USER, va, t, 0)
  {
    hide Tree, Tables, Index, Opened, Moved, Missing, Branch;
  }

  // What writing an entry in a lowest table says about its page.
  ghost function Written<W>(m: Mmu<W>, va: nat, w: W): Change {
    Page(va, if m.present(w) then Some(Mapping(m.phys(w), m.flags(w))) else None)
  }

  lemma WriteMoves<W(!new)>(m: Mmu<W>, mem: Memory<W>, root: nat, va: nat, t: nat, off: nat, live: set<nat>, w: W)
    requires Lawful(m) && Whole(mem) && SpaceIn(m, mem, root, off, live) && OnPath(m, mem, root, PT_TOP_LEVEL, va, t, 0)
    requires Index(va, PT_TOP_LEVEL) < USER && t in mem && Index(va, 0) < |mem[t]| && t < FRAMES
    requires m.present(w) ==> m.phys(w) < FRAMES
    ensures var mem' := Put(mem, t, Index(va, 0), w);
            && Moved(m, mem, mem', root, Written(m, va, w), {}, off, live, live) && SpaceIn(m, mem', root, off, live) && Whole(mem')
  {
    hide Lawful, Tree, Tables, Index, Translates, KernelHalf;
    var mem' := Put(mem, t, Index(va, 0), w);
    WriteOnPath(m, mem, root, PT_TOP_LEVEL, USER, va, t, w);
    PathEnd(m, mem, root, va, t, 0);
    WriteKernelHalf(m, mem, root, va, t, w);
    WriteMoved(m, mem, mem', root, Written(m, va, w), t, off, live);
  }

  lemma WriteMoved<W>(m: Mmu<W>, mem: Memory<W>, mem': Memory<W>, root: nat, ch: Change, t: nat, off: nat, live: set<nat>)
    requires Changed(m, mem, mem', root, PT_TOP_LEVEL, USER, ch, {}) && SpaceIn(m, mem, root, off, live)
    requires t in Tables(m, mem, root, PT_TOP_LEVEL, USER) && KernelHalf(mem, mem', root)
    requires forall f :: f in mem && f != t ==> f in mem' && mem'[f] == mem[f]
    ensures Moved(m, mem, mem', root, ch, {}, off, live, live) && SpaceIn(m, mem', root, off, live)
  {
    hide Tree, Tables, Translates, KernelHalf;
    assert Pointers(off, {}) == {};
    assert Tables(m, mem', root, PT_TOP_LEVEL, USER) == Tables(m, mem, root, PT_TOP_LEVEL, USER);
  }

  lemma WriteKernelHalf<W>(m: Mmu<W>, mem: Memory<W>, root: nat, va: nat, t: nat, w: W)
    requires Tree(m, mem, root, PT_TOP_LEVEL, USER) && OnPath(m, mem, root, PT_TOP_LEVEL, va, t, 0)
    requires Index(va, PT_TOP_LEVEL) < USER && t in mem && Index(va, 0) < |mem[t]|
    ensures KernelHalf(mem, Put(mem, t, Index(va, 0), w), root)
  {
    hide Tree, Tables, Index, OnPath;
    RootEntry(m, mem, root, va, t, 0);
    RootIsTable(m, mem, root);
  }

  lemma MovedApart<W>(m: Mmu<W>, mem: Memory<W>, mem': Memory<W>, root: nat, ch: Change, added: set<nat>,
                      off: nat, live: set<nat>, live': set<nat>)
    requires Moved(m, mem, mem', root, ch, added, off, live, live')
    ensures Pointers(off, added) !! live && live <= live'
  {
  }

  // What a walk that had to stop has done.
  lemma WalkSum<W>(m: Mmu<W>, mem0: Memory<W>, mem: Memory<W>, root: nat, va: nat, t: nat, level: nat, added: set<nat>,
                   off: nat, live0: set<nat>, live: set<nat>)
    requires Walking(m, mem0, mem, root, va, t, level, added, off, live0, live)
    ensures Moved(m, mem0, mem, root, Same, added, off, live0, live) && SpaceIn(m, mem, root, off, live)
    ensures |added| <= Missing(m, mem0, root, PT_TOP_LEVEL, va) <= PT_TOP_LEVEL
    ensures Pointers(off, added) !! live0
  {
    hide Moved, SpaceIn, Opened;
    MovedApart(m, mem0, mem, root, Same, added, off, live0, live);
  }

  lemma NoPointers(off: nat)
    ensures Pointers(off, {}) == {}
  {
  }

  lemma MorePointers(off: nat, frames: set<nat>, f: nat)
    ensures Pointers(off, frames + {f}) == Pointers(off, frames) + {off + PAGE * f}
  {
    assert off + PAGE * f in Pointers(off, frames + {f}) by {
      assert f in frames + {f};
    }
    forall x | x in Pointers(off, frames) ensures x in Pointers(off, frames + {f}) {
      var g :| g in frames && x == off + PAGE * g;
      assert g in frames + {f};
    }
  }

  // One more page asked of the heap.
  ghost predicate Asked(bs: seq<HB.Block>, cs: seq<HB.Block>, ok: bool) {
    HB.Give(bs, 1) == if ok then Some(cs) else None
  }

  lemma AskedOnce(bs: seq<HB.Block>)
    ensures Asked(bs, HB.PageAlloc(bs, 1).0, HB.PageAlloc(bs, 1).1 != 0)
  {
    hide HB.PageAlloc;
    assert HB.Give(bs, 0) == Some(bs);
  }

  // So many pages have been asked for since the blocks were bs, and given.
  ghost predicate Spent(bs: seq<HB.Block>, cs: seq<HB.Block>, n: nat) {
    HB.Give(bs, n) == Some(cs)
  }

  lemma SpentOneMore(bs: seq<HB.Block>, cs: seq<HB.Block>, ds: seq<HB.Block>, n: nat, ok: bool)
    requires Spent(bs, cs, n) && Asked(cs, ds, ok)
    ensures ok ==> Spent(bs, ds, n + 1)
    ensures !ok ==> forall more: nat :: more > n ==> !HB.CanGive(bs, more)
  {
    hide HB.Give, HB.CanGive;
    HB.GiveMore(bs, n, 1);
    assert HB.CanGive(bs, n) && (HB.CanGive(bs, n + 1) <==> ok) by {
      CanGiveMeans(bs, n);
      CanGiveMeans(bs, n + 1);
    }
    if !ok {
      forall more: nat | more > n ensures !HB.CanGive(bs, more) {
        if HB.CanGive(bs, more) {
          HB.GiveLess(bs, n + 1, more);
        }
      }
    }
  }

  lemma CanGiveMeans(bs: seq<HB.Block>, n: nat)
    ensures HB.CanGive(bs, n) <==> HB.Give(bs, n).Some?
  {
  }

  lemma NothingSpent(bs: seq<HB.Block>)
    ensures Spent(bs, bs, 0)
  {
  }

  lemma SpentMeans(bs: seq<HB.Block>, cs: seq<HB.Block>, n: nat)
    requires Spent(bs, cs, n)
    ensures HB.CanGive(bs, n)
  {
  }

  // An exhausted heap has given nothing since.
  lemma SpentNothing(bs: seq<HB.Block>, cs: seq<HB.Block>, n: nat)
    requires Spent(bs, cs, n)
    ensures n == 0 ==> cs == bs
    ensures HB.PageAlloc(bs, 1).1 == 0 ==> n == 0
  {
    hide HB.PageAlloc;
    if n > 0 {
      HB.GiveMore(bs, 1, n - 1);
      assert HB.Give(bs, 0) == Some(bs);
    }
  }

  datatype WalkEnd = AtPage | Absent | OutOfMemory

  class Machine<W(!new)> {
    const mmu: Mmu<W>
    const heap: Pmm.Heap
    // Where physical memory is mapped (hhdm offset), and the kernel's own root table.
    const off: nat
    const kernelRoot: nat
    var mem: Memory<W>

    ghost predicate Valid()
      reads this, heap
    {
      && Lawful(mmu) && heap.Valid() && Whole(mem) && kernelRoot < FRAMES
      && off % PAGE == 0 && off <= heap.lo && heap.hi <= off + PAGE * FRAMES
    }

    constructor (mmu: Mmu<W>, heap: Pmm.Heap, off: nat, kernelRoot: nat, mem: Memory<W>)
      requires Lawful(mmu) && heap.Valid() && Whole(mem) && kernelRoot < FRAMES
      requires off % PAGE == 0 && off <= heap.lo && heap.hi <= off + PAGE * FRAMES
      ensures Valid() && this.mmu == mmu && this.heap == heap && this.mem == mem && this.off == off && this.kernelRoot == kernelRoot
    {
      this.mmu := mmu;
      this.heap := heap;
      this.off := off;
      this.kernelRoot := kernelRoot;
      this.mem := mem;
    }

    ghost function LiveSet(): set<nat>
      reads this, heap
    {
      HB.LivePointers(heap.blocks)
    }

    // The heap has no page left to give.
    ghost predicate Exhausted()
      reads this, heap
    {
      HB.PageAlloc(heap.blocks, 1).1 == 0
    }

    // The kernel's pointers to pages that are no part of the heap.
    ghost function Outside(): set<nat> {
      set f | 0 <= f < FRAMES && (off + PAGE * f + PAGE <= heap.lo || heap.hi <= off + PAGE * f) :: off + PAGE * f
    }

    // What the heap will not give out: the live allocations and everything outside it.
    ghost function Taken(): set<nat>
      reads this, heap
    {
      LiveSet() + Outside()
    }

    // Tables may be pages of the heap or, like those made at boot, no part of it.
    ghost predicate Space(root: nat)
      reads this, heap
    {
      SpaceIn(mmu, mem, root, off, Taken())
    }

    // pt_pool_alloc: a zeroed page.
    method PoolAlloc() returns (ok: bool, f: nat)
      requires Valid()
      modifies this, heap
      ensures Valid()
      ensures ok <==> !old(Exhausted())
      ensures heap.blocks == HB.PageAlloc(old(heap.blocks), 1).0 && Asked(old(heap.blocks), heap.blocks, ok)
      ensures !ok ==> mem == old(mem) && heap.blocks == old(heap.blocks)
      ensures ok ==> f < FRAMES && off + PAGE * f !in old(Taken())
      ensures ok ==> LiveSet() == old(LiveSet()) + {off + PAGE * f} && Taken() == old(Taken()) + {off + PAGE * f}
      ensures ok ==> mem == old(mem)[f := Zeros(mmu)]
      ensures ok ==> NewlyCovered(old(heap.blocks), heap.blocks, off + PAGE * f)
      ensures ok ==> 0 < heap.lo < off + PAGE * f && off + PAGE * f + PAGE <= heap.hi
    {
      hide Lawful, HB.Inv, HB.PageAlloc, Pmm.Chain;
      FreshPage(heap.blocks, heap.lo, heap.hi);
      AskedOnce(heap.blocks);
      var page := heap.PageAlloc(1);
      if page == 0 {
        return false, 0;
      }
      f := (page - off) / PAGE;
      assert page == off + PAGE * f;
      assert page !in Outside();
      mem := mem[f := Zeros(mmu)];
      ok := true;
    }

    // split_leaf: the leaf in entry idx of table t becomes a table of smaller leaves.
    method SplitLeaf(t: nat, idx: nat, level: nat) returns (ok: bool, ghost c: nat)
      requires Valid() && t < FRAMES && idx < PT_ENTRIES && 0 < level <= PT_TOP_LEVEL
      requires mmu.present(mem[t][idx]) && mmu.isLeaf(mem[t][idx], level)
      requires off + PAGE * t in Taken()
      modifies this, heap
      ensures Valid()
      ensures Asked(old(heap.blocks), heap.blocks, ok)
      ensures !ok ==> mem == old(mem) && heap.blocks == old(heap.blocks)
      ensures ok ==> c < FRAMES && c != t && off + PAGE * c !in old(Taken())
      ensures ok ==> LiveSet() == old(LiveSet()) + {off + PAGE * c} && Taken() == old(Taken()) + {off + PAGE * c}
      ensures ok ==> mem == Grafted(mmu, old(mem), t, idx, c, SplitPage(mmu, old(mem[t][idx]), level))
    {
      hide Lawful, HB.Inv, HB.PageAlloc, Pmm.Chain, HB.LivePointers, Asked, Covered;
      var entry := mem[t][idx];
      var got, page := PoolAlloc();
      if !got {
        return false, 0;
      }
      FillChildren(page, entry, level);
      mem := mem[t := mem[t][idx := mmu.table(page)]];
      return true, page;
    }

    // The page written child by child.
    method FillChildren(page: nat, entry: W, level: nat)
      requires Whole(mem) && page < FRAMES && 0 < level <= PT_TOP_LEVEL
      modifies this`mem
      ensures Whole(mem) && mem == old(mem)[page := SplitPage(mmu, entry, level)]
    {
      var base := mmu.phys(entry);
      var child := level - 1;
      var span := Span(child);
      ghost var target := SplitPage(mmu, entry, level);
      ghost var written := mem[page];
      var i := 0;
      while i < PT_ENTRIES
        modifies this`mem
        invariant i <= PT_ENTRIES && Whole(mem)
        invariant mem == old(mem)[page := written] && |written| == PT_ENTRIES
        invariant written[..i] == target[..i]
      {
        assert target[i] == mmu.childLeaf(entry, base + i * span, child);
        mem := mem[page := mem[page][i := mmu.childLeaf(entry, base + i * span, child)]];
        written := written[i := target[i]];
        i := i + 1;
      }
      assert written == target;
    }

    // A fresh, empty table linked into the absent entry of the table reached so far.
    method LinkChild(root: nat, va: nat, table: nat, level: nat, ghost mem0: Memory<W>, ghost live0: set<nat>, ghost added: set<nat>)
      returns (ok: bool, child: nat)
      requires Valid() && Walking(mmu, mem0, mem, root, va, table, level, added, off, live0, Taken())
      requires Index(va, PT_TOP_LEVEL) < USER && 0 < level <= PT_TOP_LEVEL
      requires table < FRAMES && Index(va, level) < PT_ENTRIES && !mmu.present(mem[table][Index(va, level)])
      requires off + PAGE * table in Taken()
      modifies this, heap
      ensures Valid()
      ensures Asked(old(heap.blocks), heap.blocks, ok)
      ensures !ok ==> mem == old(mem) && heap.blocks == old(heap.blocks)
      ensures ok ==> LiveSet() == old(LiveSet()) + {off + PAGE * child}
      ensures ok ==> Walking(mmu, mem0, mem, root, va, child, level - 1, added + {child}, off, live0, Taken()) && child !in added
    {
      hide Lawful, HB.Inv, HB.PageAlloc, Pmm.Chain, Index, Walking;
      ghost var mem1, live1 := mem, Taken();
      ok, child := PoolAlloc();
      if ok {
        var idx := Index(va, level);
        mem := mem[table := mem[table][idx := mmu.table(child)]];
        WalkLink(mmu, mem0, mem1, root, va, table, level - 1, added, off, live0, live1, child, mem, Taken());
        WalkFresh(mmu, mem0, mem1, root, va, table, level, added, off, live0, live1, child);
      }
    }

    // The leaf met on the way down split, and its table entered.
    method EnterLeaf(root: nat, va: nat, table: nat, level: nat, ghost mem0: Memory<W>, ghost live0: set<nat>, ghost added: set<nat>)
      returns (ok: bool, child: nat)
      requires Valid() && Walking(mmu, mem0, mem, root, va, table, level, added, off, live0, Taken())
      requires Index(va, PT_TOP_LEVEL) < USER && 0 < level <= PT_TOP_LEVEL
      requires table < FRAMES && Index(va, level) < PT_ENTRIES
      requires var w := mem[table][Index(va, level)]; mmu.present(w) && mmu.isLeaf(w, level)
      requires off + PAGE * table in Taken()
      modifies this, heap
      ensures Valid()
      ensures Asked(old(heap.blocks), heap.blocks, ok)
      ensures !ok ==> mem == old(mem) && heap.blocks == old(heap.blocks)
      ensures ok ==> LiveSet() == old(LiveSet()) + {off + PAGE * child}
      ensures ok ==> Walking(mmu, mem0, mem, root, va, child, level - 1, added + {child}, off, live0, Taken()) && child !in added
    {
      hide Lawful, HB.Inv, HB.PageAlloc, Pmm.Chain, Index, Walking;
      ghost var mem1, live1 := mem, Taken();
      ghost var c;
      var idx := Index(va, level);
      child := 0;
      ok, c := SplitLeaf(table, idx, level);
      if ok {
        WalkSplit(mmu, mem0, mem1, root, va, table, level - 1, added, off, live0, live1, c, mem1[table][idx], mem, Taken());
        TableLaw(mmu, c);
        child := mmu.phys(mem[table][idx]);
        WalkFresh(mmu, mem0, mem1, root, va, table, level, added, off, live0, live1, c);
      }
    }

    // One level down on the way to a page to be mapped, with a table made where there is none.
    method StepDown(root: nat, va: nat, table: nat, level: nat, ghost mem0: Memory<W>, ghost live0: set<nat>, ghost held: set<nat>,
                    ghost added: set<nat>, ghost bs0: seq<HB.Block>)
      returns (ok: bool, child: nat, ghost more: set<nat>)
      requires Valid() && Walking(mmu, mem0, mem, root, va, table, level, added, off, live0, Taken())
      requires Index(va, PT_TOP_LEVEL) < USER && 0 < level <= PT_TOP_LEVEL
      requires LiveSet() == held + Pointers(off, added) && Spent(bs0, heap.blocks, |added|)
      modifies this, heap
      ensures Valid()
      ensures !ok ==> mem == old(mem) && heap.blocks == old(heap.blocks) && Exhausted()
      ensures !ok ==> !IsTable(mmu, Word(mmu, mem, table, Index(va, level)), level)
      ensures !ok ==> more == added && |added| < Missing(mmu, mem0, root, PT_TOP_LEVEL, va)
                      && !HB.CanGive(bs0, Missing(mmu, mem0, root, PT_TOP_LEVEL, va))
      ensures LiveSet() == held + Pointers(off, more) && Spent(bs0, heap.blocks, |more|)
      ensures ok ==> Walking(mmu, mem0, mem, root, va, child, level - 1, more, off, live0, Taken())
    {
      hide Lawful, HB.Inv, HB.PageAlloc, Pmm.Chain, Moved, SpaceIn, OnPath, Index, HB.LivePointers, Pointers, Walking;
      hide HB.Give, HB.CanGive, Missing, Asked, Spent;
      WalkHere(mmu, mem0, mem, root, va, table, level, added, off, live0, Taken());
      var entry := mem[table][Index(va, level)];
      more := added;
      ghost var bs1 := heap.blocks;
      if !mmu.present(entry) {
        WalkMisses(mmu, mem0, mem, root, va, table, level, added, off, live0, Taken());
        ok, child := LinkChild(root, va, table, level, mem0, live0, added);
      } else if mmu.isLeaf(entry, level) {
        WalkMisses(mmu, mem0, mem, root, va, table, level, added, off, live0, Taken());
        ok, child := EnterLeaf(root, va, table, level, mem0, live0, added);
      } else {
        WalkDown(mmu, mem0, mem, root, va, table, level, added, off, live0, Taken());
        return true, mmu.phys(entry), added;
      }
      SpentOneMore(bs0, bs1, heap.blocks, |added|, ok);
      if ok {
        more := added + {child};
        MorePointers(off, added, child);
      } else {
        AskedInVain(bs1, heap.blocks);
      }
    }

    lemma AskedInVain(bs: seq<HB.Block>, cs: seq<HB.Block>)
      requires Asked(bs, cs, false)
      ensures HB.PageAlloc(bs, 1).1 == 0
    {
      hide HB.PageAlloc, HB.Give;
      AskedOnce(bs);
    }

    // map_page_4k. A missing root stands for the kernel's. It needs exactly the tables missing on
    // the way, one page each.
    method MapPage(space: Option<nat>, va: nat, frame: nat, flags: VmFlags) returns (ok: bool, ghost added: set<nat>)
      requires var root := if space.Some? then space.value else kernelRoot; Valid() && Space(root)
      requires Index(va, PT_TOP_LEVEL) < USER && frame < FRAMES
      modifies this, heap
      ensures Valid() && (!ok ==> Exhausted())
      ensures var root := if space.Some? then space.value else kernelRoot;
              Space(root)
              && Moved(mmu, old(mem), mem, root, if ok then Page(va, Some(Mapping(frame, flags))) else Same, added,
                       off, old(Taken()), Taken())
              && var need := old(Missing(mmu, mem, root, PT_TOP_LEVEL, va));
              && (ok <==> HB.CanGive(old(heap.blocks), need)) && |added| <= need <= PT_TOP_LEVEL
              && (ok ==> |added| == need && Opened(mmu, old(mem), mem, root, va, 0))
              && (ok ==> EntryIs(mmu, mem, root, va, mmu.leaf(frame, flags, false)))
      ensures Spent(old(heap.blocks), heap.blocks, |added|)
      ensures LiveSet() == old(LiveSet()) + Pointers(off, added) && Pointers(off, added) !! old(LiveSet())
    {
      hide Lawful, HB.Inv, HB.PageAlloc, Pmm.Chain, Moved, SpaceIn, OnPath, Index, HB.LivePointers, Pointers;
      hide Walking, Opened, HB.Give, HB.CanGive, Missing, Spent, EntryIs;
      var root := if space.Some? then space.value else kernelRoot;
      ghost var mem0, live0, held, bs0 := mem, Taken(), LiveSet(), heap.blocks;
      var table: nat, level: nat := root, PT_TOP_LEVEL;
      added := {};
      WalkStart(mmu, mem, root, va, off, live0);
      NoPointers(off);
      NothingSpent(bs0);
      while level > 0
        invariant level <= PT_TOP_LEVEL && Valid() && LiveSet() == held + Pointers(off, added)
        invariant Spent(bs0, heap.blocks, |added|)
        invariant Walking(mmu, mem0, mem, root, va, table, level, added, off, live0, Taken())
      {
        ghost var at, more := table, {};
        ok, table, more := StepDown(root, va, table, level, mem0, live0, held, added, bs0);
        if !ok {
          WalkSum(mmu, mem0, mem, root, va, at, level, added, off, live0, Taken());
          return false, added;
        }
        added := more;
        level := level - 1;
      }
      WalkHere(mmu, mem0, mem, root, va, table, 0, added, off, live0, Taken());
      var leaf := mmu.leaf(frame, flags, false);
      LeafLaw(mmu, frame, flags);
      WalkWrite(mmu, mem0, mem, root, va, table, added, off, live0, Taken(), leaf);
      mem := mem[table := mem[table][Index(va, 0) := leaf]];
      MovedApart(mmu, mem0, mem, root, Page(va, Some(Mapping(frame, flags))), added, off, live0, Taken());
      SpentMeans(bs0, heap.blocks, |added|);
      return true, added;
    }

    // The walk protect_page_4k and unmap_page_4k share: down to the lowest table, splitting
    // leaves on the way; it stops early at an absent entry or when no table can be had.
    method WalkToPage(root: nat, va: nat) returns (end: WalkEnd, table: nat, ghost level: nat, ghost added: set<nat>)
      requires Valid() && Space(root) && Index(va, PT_TOP_LEVEL) < USER
      modifies this, heap
      ensures Valid() && Space(root)
      ensures Walking(mmu, old(mem), mem, root, va, table, level, added, off, old(Taken()), Taken())
      ensures LiveSet() == old(LiveSet()) + Pointers(off, added) && Spent(old(heap.blocks), heap.blocks, |added|)
      ensures end.AtPage? ==> level == 0
      ensures end.OutOfMemory? ==>
                Exhausted() && mmu.present(Word(mmu, mem, table, Index(va, level))) && !IsTable(mmu, Word(mmu, mem, table, Index(va, level)), level)
                && !HB.CanGive(old(heap.blocks), old(Missing(mmu, mem, root, PT_TOP_LEVEL, va)))
      ensures end.Absent? ==> !mmu.present(Word(mmu, mem, table, Index(va, level)))
    {
      hide Lawful, HB.Inv, HB.PageAlloc, Pmm.Chain, Moved, SpaceIn, OnPath, Index, HB.LivePointers, Pointers;
      hide Walking, Opened, HB.Give, HB.CanGive, Missing, Spent, Asked;
      ghost var mem0, live0, held, bs0 := mem, Taken(), LiveSet(), heap.blocks;
      table := root;
      var lv: nat := PT_TOP_LEVEL;
      added := {};
      WalkStart(mmu, mem, root, va, off, live0);
      NoPointers(off);
      NothingSpent(bs0);
      while lv > 0
        invariant lv <= PT_TOP_LEVEL && Valid() && LiveSet() == held + Pointers(off, added)
        invariant Spent(bs0, heap.blocks, |added|)
        invariant Walking(mmu, mem0, mem, root, va, table, lv, added, off, live0, Taken())
      {
        WalkHere(mmu, mem0, mem, root, va, table, lv, added, off, live0, Taken());
        var entry := mem[table][Index(va, lv)];
        if !mmu.present(entry) {
          WalkSum(mmu, mem0, mem, root, va, table, lv, added, off, live0, Taken());
          return Absent, table, lv, added;
        }
        var ok, child;
        ghost var more;
        ok, child, more := StepDown(root, va, table, lv, mem0, live0, held, added, bs0);
        if !ok {
          WalkSum(mmu, mem0, mem, root, va, table, lv, added, off, live0, Taken());
          return OutOfMemory, table, lv, added;
        }
        table, added, lv := child, more, lv - 1;
      }
      WalkSum(mmu, mem0, mem, root, va, table, 0, added, off, live0, Taken());
      return AtPage, table, 0, added;
    }

    // protect_page_4k: new flags for a mapped page, its frame kept.
    method ProtectPage(space: Option<nat>, va: nat, flags: VmFlags) returns (ok: bool, ghost added: set<nat>)
      requires Valid() && (space.Some? ==> Space(space.value))
      requires Index(va, PT_TOP_LEVEL) < USER
      modifies this, heap
      ensures Valid()
      ensures space.None? ==> !ok && mem == old(mem) && heap.blocks == old(heap.blocks) && added == {}
      ensures space.Some? ==> Space(space.value)
      ensures space.Some? ==>
                var was := old(Translate(mmu, mem, space.value, PT_TOP_LEVEL, va));
                var need := old(Missing(mmu, mem, space.value, PT_TOP_LEVEL, va));
                (ok <==> was.Some? && HB.CanGive(old(heap.blocks), need)) && (!ok ==> was.None? || Exhausted())
                && Moved(mmu, old(mem), mem, space.value,
                         if ok then Page(va, Some(Mapping(was.value.frame, flags))) else Same, added, off, old(Taken()), Taken())
                && |added| <= need <= PT_TOP_LEVEL
                && (ok ==> |added| == need && Opened(mmu, old(mem), mem, space.value, va, 0))
                && (ok ==> EntryIs(mmu, mem, space.value, va, mmu.leaf(was.value.frame, flags, false)))
      ensures Spent(old(heap.blocks), heap.blocks, |added|)
      ensures LiveSet() == old(LiveSet()) + Pointers(off, added) && Pointers(off, added) !! old(LiveSet())
    {
      hide HB.Give, HB.CanGive, Missing, Spent, Opened, Walking, EntryIs;
      added := {};
      if space.None? {
        NoPointers(off);
        NothingSpent(heap.blocks);
        return false, added;
      }
      var root := space.value;
      ghost var mem0, live0, held, bs0 := mem, Taken(), LiveSet(), heap.blocks;
      var end, table;
      ghost var level;
      end, table, level, added := WalkToPage(root, va);
      hide Lawful, HB.Inv, HB.PageAlloc, Pmm.Chain, Moved, SpaceIn, OnPath, Index, Translate, Pointers;
      WalkSum(mmu, mem0, mem, root, va, table, level, added, off, live0, Taken());
      SpentMeans(bs0, heap.blocks, |added|);
      if !end.AtPage? {
        if end.Absent? {
          AbsentReads(mmu, mem0, mem, root, va, table, level, added, off, live0, Taken());
        }
        return false, added;
      }
      WalkHere(mmu, mem0, mem, root, va, table, 0, added, off, live0, Taken());
      var entry := mem[table][Index(va, 0)];
      if !mmu.present(entry) {
        AbsentReads(mmu, mem0, mem, root, va, table, 0, added, off, live0, Taken());
        return false, added;
      }
      var leaf := mmu.leaf(mmu.phys(entry), flags, false);
      WalkProtect(mmu, mem0, mem, root, va, table, added, off, live0, Taken(), flags);
      mem := mem[table := mem[table][Index(va, 0) := leaf]];
      return true, added;
    }

    // unmap_page_4k: the page is unmapped afterwards, whether or not it was mapped.
    method UnmapPage(space: Option<nat>, va: nat) returns (ok: bool, ghost added: set<nat>)
      requires Valid() && (space.Some? ==> Space(space.value))
      requires Index(va, PT_TOP_LEVEL) < USER
      modifies this, heap
      ensures Valid()
      ensures space.None? ==> !ok && mem == old(mem) && heap.blocks == old(heap.blocks) && added == {}
      ensures space.Some? ==> Space(space.value) && (!ok ==> Exhausted())
      ensures space.Some? ==>
                var was := old(Translate(mmu, mem, space.value, PT_TOP_LEVEL, va));
                var need := old(Missing(mmu, mem, space.value, PT_TOP_LEVEL, va));
                (ok <==> was.None? || HB.CanGive(old(heap.blocks), need))
                && Moved(mmu, old(mem), mem, space.value, if ok then Page(va, None) else Same, added, off, old(Taken()), Taken())
                && |added| <= need <= PT_TOP_LEVEL
      ensures Spent(old(heap.blocks), heap.blocks, |added|)
      ensures LiveSet() == old(LiveSet()) + Pointers(off, added) && Pointers(off, added) !! old(LiveSet())
    {
      hide HB.Give, HB.CanGive, Missing, Spent, Opened, Walking, EntryIs;
      added := {};
      if space.None? {
        NoPointers(off);
        NothingSpent(heap.blocks);
        return false, added;
      }
      var root := space.value;
      ghost var mem0, live0, held, bs0 := mem, Taken(), LiveSet(), heap.blocks;
      var end, table;
      ghost var level;
      end, table, level, added := WalkToPage(root, va);
      hide HB.Inv, HB.PageAlloc, Pmm.Chain, Moved, SpaceIn, OnPath, Index, Translate, Pointers;
      WalkSum(mmu, mem0, mem, root, va, table, level, added, off, live0, Taken());
      SpentMeans(bs0, heap.blocks, |added|);
      if end.Absent? {
        AlreadyUnmapped(mmu, mem0, mem, root, va, table, level, added, off, live0, Taken());
        AbsentReads(mmu, mem0, mem, root, va, table, level, added, off, live0, Taken());
        return true, added;
      }
      if end.OutOfMemory? {
        WalkReads(mmu, mem0, mem, root, va, table, level, added, off, live0, Taken());
        return false, added;
      }
      ZeroLaw(mmu);
      WalkHere(mmu, mem0, mem, root, va, table, 0, added, off, live0, Taken());
      WalkWrite(mmu, mem0, mem, root, va, table, added, off, live0, Taken(), mmu.zero);
      mem := mem[table := mem[table][Index(va, 0) := mmu.zero]];
      return true, added;
    }

    // vm_user_to_kernel: the kernel's address of the byte at va.
    method UserToKernel(root: nat, va: nat) returns (p: Option<nat>)
      requires Valid() && Space(root) && Index(va, PT_TOP_LEVEL) < USER
      ensures var tr := Translate(mmu, mem, root, PT_TOP_LEVEL, va);
              p == if tr.None? then None else Some(off + PAGE * tr.value.frame + va % PAGE)
    {
      hide Lawful, HB.Inv, HB.PageAlloc, Pmm.Chain, Moved, SpaceIn, OnPath, Index, LeafPage;
      ghost var live := Taken();
      var table: nat, level: nat := root, PT_TOP_LEVEL;
      WalkStart(mmu, mem, root, va, off, live);
      while true
        invariant level <= PT_TOP_LEVEL
        invariant Walking(mmu, mem, mem, root, va, table, level, {}, off, live, live)
        decreases level
      {
        WalkHere(mmu, mem, mem, root, va, table, level, {}, off, live, live);
        WalkReads(mmu, mem, mem, root, va, table, level, {}, off, live, live);
        var entry := mem[table][Index(va, level)];
        if !mmu.present(entry) {
          return None;
        }
        if level == 0 || mmu.isLeaf(entry, level) {
          LeafOffset(mmu.phys(entry), level, va);
          return Some(off + PAGE * mmu.phys(entry) + va % (PAGE * Span(level)));
        }
        WalkDown(mmu, mem, mem, root, va, table, level, {}, off, live, live);
        table := mmu.phys(entry);
        level := level - 1;
      }
    }
  }

  // Writing back the page's frame with new flags keeps where the page maps to.
  lemma WalkProtect<W(!new)>(m: Mmu<W>, mem0: Memory<W>, mem: Memory<W>, root: nat, va: nat, t: nat, added: set<nat>,
                             off: nat, live0: set<nat>, live: set<nat>, flags: VmFlags)
    requires Lawful(m) && Whole(mem) && Walking(m, mem0, mem, root, va, t, 0, added, off, live0, live)
    requires Index(va, PT_TOP_LEVEL) < USER && t in mem && Index(va, 0) < |mem[t]| && t < FRAMES
    requires m.present(mem[t][Index(va, 0)])
    ensures Translate(m, mem0, root, PT_TOP_LEVEL, va).Some?
    ensures var mem' := Put(mem, t, Index(va, 0), m.leaf(m.phys(mem[t][Index(va, 0)]), flags, false));
            var frame := Translate(m, mem0, root, PT_TOP_LEVEL, va).value.frame;
            && Moved(m, mem0, mem', root, Page(va, Some(Mapping(frame, flags))), added, off, live0, live)
            && SpaceIn(m, mem', root, off, live) && Whole(mem')
            && Opened(m, mem0, mem', root, va, 0) && |added| == Missing(m, mem0, root, PT_TOP_LEVEL, va)
            && EntryIs(m, mem', root, va, m.leaf(frame, flags, false))
  {
    hide Moved, SpaceIn, OnPath, Index, Translate, Opened, Counted, Missing, EntryIs;
    var w := mem[t][Index(va, 0)];
    WalkReads(m, mem0, mem, root, va, t, 0, added, off, live0, live);
    WalkHere(m, mem0, mem, root, va, t, 0, added, off, live0, live);
    assert m.isLeaf(w, 0) && m.phys(w) < FRAMES;
    LeafLaw(m, m.phys(w), flags);
    WalkWrite(m, mem0, mem, root, va, t, added, off, live0, live, m.leaf(m.phys(w), flags, false));
  }

  lemma ZeroLaw<W(!new)>(m: Mmu<W>)
    requires Lawful(m)
    ensures !m.present(m.zero)
  {
  }

  // An absent entry on the path leaves the page unmapped, whichever address in it is asked for.
  lemma {:induction false} AbsentPage<W>(m: Mmu<W>, mem: Memory<W>, f: nat, level: nat, va: nat, t: nat, l: nat, a: nat)
    requires OnPath(m, mem, f, level, va, t, l) && !m.present(Word(m, mem, t, Index(va, l)))
    requires SameUpTo(a, va, level)
    ensures Translate(m, mem, f, level, a) == None
    decreases level
  {
    if l < level {
      AbsentPage(m, mem, m.phys(Word(m, mem, f, Index(va, level))), level - 1, va, t, l, a);
    }
  }

  // Unmapping a page that is not mapped changes nothing.
  lemma AlreadyUnmapped<W>(m: Mmu<W>, mem0: Memory<W>, mem: Memory<W>, root: nat, va: nat, t: nat, level: nat, added: set<nat>,
                           off: nat, live0: set<nat>, live: set<nat>)
    requires Walking(m, mem0, mem, root, va, t, level, added, off, live0, live)
    requires !m.present(Word(m, mem, t, Index(va, level)))
    ensures Moved(m, mem0, mem, root, Page(va, None), added, off, live0, live)
  {
    hide Tree, Tables, OnPath, Index, SpaceIn, KernelHalf;
    forall a | Index(a, PT_TOP_LEVEL) < USER
      ensures Translate(m, mem, root, PT_TOP_LEVEL, a)
           == Expect(Page(va, None), PT_TOP_LEVEL, a, Translate(m, mem0, root, PT_TOP_LEVEL, a))
    {
      if SameUpTo(a, va, PT_TOP_LEVEL) {
        AbsentPage(m, mem, root, PT_TOP_LEVEL, va, t, level, a);
      }
      assert Translate(m, mem, root, PT_TOP_LEVEL, a) == Translate(m, mem0, root, PT_TOP_LEVEL, a);
    }
  }

  lemma AbsentReads<W>(m: Mmu<W>, mem0: Memory<W>, mem: Memory<W>, root: nat, va: nat, t: nat, level: nat, added: set<nat>,
                       off: nat, live0: set<nat>, live: set<nat>)
    requires Walking(m, mem0, mem, root, va, t, level, added, off, live0, live) && Index(va, PT_TOP_LEVEL) < USER
    requires !m.present(Word(m, mem, t, Index(va, level)))
    ensures Translate(m, mem0, root, PT_TOP_LEVEL, va) == None
  {
    hide Tree, Tables, Index, SpaceIn, KernelHalf;
    PathTranslates(m, mem, root, PT_TOP_LEVEL, USER, va, t, level);
    assert Translate(m, mem, root, PT_TOP_LEVEL, va) == Translate(m, mem0, root, PT_TOP_LEVEL, va);
  }

  // The page's translation, read off the lowest table.
  lemma WalkReads<W>(m: Mmu<W>, mem0: Memory<W>, mem: Memory<W>, root: nat, va: nat, t: nat, level: nat, added: set<nat>,
                     off: nat, live0: set<nat>, live: set<nat>)
    requires Walking(m, mem0, mem, root, va, t, level, added, off, live0, live) && Index(va, PT_TOP_LEVEL) < USER
    ensures var w := Word(m, mem, t, Index(va, level));
            !IsTable(m, w, level) ==> Translate(m, mem0, root, PT_TOP_LEVEL, va) == Leaf(m, w, level, va)
    ensures LeafPage(0, 0, va) == 0
  {
    hide Tree, Tables, Index, SpaceIn, KernelHalf;
    PathTranslates(m, mem, root, PT_TOP_LEVEL, USER, va, t, level);
    assert Translate(m, mem, root, PT_TOP_LEVEL, va) == Translate(m, mem0, root, PT_TOP_LEVEL, va);
  }

  lemma TableLaw<W(!new)>(m: Mmu<W>, f: nat)
    requires Lawful(m) && f < FRAMES
    ensures m.phys(m.table(f)) == f
  {
  }

  lemma LeafLaw<W(!new)>(m: Mmu<W>, f: nat, flags: VmFlags)
    requires Lawful(m) && f < FRAMES
    ensures var w := m.leaf(f, flags, false); m.present(w) && m.phys(w) == f && m.flags(w) == flags
  {
  }
}
