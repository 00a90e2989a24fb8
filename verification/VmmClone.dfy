/** Copying an address space: clone_page_table and clone_user_address_space. */
module VmmClone {
  import opened Sizes
  import opened Wrappers
  import opened PteInterface
  import opened PageTree
  import opened Vmm
  import opened VmmFree
  import opened CloneNeeds
  import HB = HeapBlocks
  import Pmm

  // Frames that were held are still held and, `but` apart, hold what they did.
  ghost predicate Intact<W>(mem: Memory<W>, h: Hold, mem': Memory<W>, h': Hold, but: set<nat>) {
    StaysHeld(h, h') && forall f :: f in mem && Keeps(h, f) && f !in but ==> f in mem' && mem'[f] == mem[f]
  }

  // Frames of the machine that stay what they are.
  ghost predicate AllKept(frames: set<nat>, h: Hold) {
    forall t :: t in frames ==> t < FRAMES && Keeps(h, t)
  }

  // The tables and pages of the space to copy are nobody else's.
  ghost predicate Source<W>(j: Job<W>, src: nat, level: nat, n: nat, base: nat) {
    && Tree(j.m, j.mem, src, level, n)
    && AllKept(Tables(j.m, j.mem, src, level, n), j.held)
    && (forall p :: base <= p < base + n * Span(level) ==> SourcePage(j, src, level, p))
  }

  ghost predicate SourcePage<W>(j: Job<W>, src: nat, level: nat, p: nat) {
    var tr := At(j.m, j.mem, src, level, p);
    tr.Some? ==> Keeps(j.held, tr.value.frame)
  }

  // Page p of the copy: unmapped if skipped or unmapped in the source, and otherwise a frame
  // with the same bytes and the same flags.
  ghost predicate Copied<W>(j: Job<W>, mem: Memory<W>, src: nat, dst: nat, level: nat, p: nat) {
    var s, d := At(j.m, j.mem, src, level, p), At(j.m, mem, dst, level, p);
    if s.None? || Skipped(j.lo, j.hi, p) then d.None?
    else d.Some? && d.value.flags == s.value.flags
         && s.value.frame in j.mem && d.value.frame in mem && mem[d.value.frame] == j.mem[s.value.frame]
  }

  // The k-th new page in the owned list is the frame of page number p.
  ghost predicate Listed<W>(j: Job<W>, mem: Memory<W>, h: Hold, dst: nat, level: nat, p: nat, item: nat) {
    var d := At(j.m, mem, dst, level, p);
    d.Some? && item == h.off + PAGE * d.value.frame && d.value.frame in mem
    && Keeps(h, d.value.frame) && !Keeps(j.held, d.value.frame)
  }

  // Pages from..to are copied, and `items` are exactly the frames they took, one a page.
  ghost predicate Copies<W>(j: Job<W>, mem: Memory<W>, h: Hold, items: seq<nat>, src: nat, dst: nat, level: nat,
                            from: nat, to: nat, pages: seq<nat>) {
    && |items| == |pages|
    && (forall k :: 0 <= k < |pages| ==> from <= pages[k] < to && Listed(j, mem, h, dst, level, pages[k], items[k]))
    && (forall p :: from <= p < to ==> Copied(j, mem, src, dst, level, p)
                                       && (At(j.m, mem, dst, level, p).Some? ==> p in pages))
  }

  ghost predicate Distinct(s: seq<nat>) {
    forall i, j :: 0 <= i < j < |s| ==> s[i] != s[j]
  }

  ghost function Members(s: seq<nat>): set<nat> {
    set x | x in s
  }

  // What has been allocated for the copy so far: its tables and the listed pages.
  ghost predicate Accounted(live0: set<nat>, live: set<nat>, tables: set<nat>, items: seq<nat>) {
    && live == live0 + tables + Members(items)
    && live0 !! tables && live0 !! Members(items) && tables !! Members(items) && Distinct(items)
  }

  ghost predicate Sound<W>(m: Mmu<W>, mem: Memory<W>, h: Hold, live0: set<nat>, live: set<nat>, items: seq<nat>,
                           dst: nat, level: nat, n: nat) {
    && Tree(m, mem, dst, level, n)
    && AllKept(Tables(m, mem, dst, level, n), h)
    && Accounted(live0, live, Pointers(h.off, Tables(m, mem, dst, level, n) - {dst}), items)
    && h.off + PAGE * dst in live0
  }

  // From entry i on the table is still empty.
  ghost predicate Blank<W>(m: Mmu<W>, mem: Memory<W>, dst: nat, i: nat, n: nat) {
    forall k :: i <= k < n ==> Word(m, mem, dst, k) == m.zero
  }

  // Entries of dst other than i are as they were.
  ghost predicate OnlyEntry<W>(mem: Memory<W>, mem': Memory<W>, dst: nat, i: nat) {
    && dst in mem && dst in mem' && |mem[dst]| == |mem'[dst]| == PT_ENTRIES
    && forall k :: 0 <= k < PT_ENTRIES && k != i ==> mem'[dst][k] == mem[dst][k]
  }

  // The effect of handling entry i of table dst.
  ghost predicate Took<W>(m: Mmu<W>, mem: Memory<W>, h: Hold, live: set<nat>, mem': Memory<W>, h': Hold, live': set<nat>,
                          dst: nat, level: nat, i: nat, more: seq<nat>) {
    && Intact(mem, h, mem', h', {dst})
    && OnlyEntry(mem, mem', dst, i)
    && EntryTree(m, mem', dst, level, i)
    && AllKept(ChildTables(m, mem', dst, level, i), h')
    && Accounted(live, live', Pointers(h.off, ChildTables(m, mem', dst, level, i)), more)
  }

  // ---- one entry after another ----

  lemma IntactThen<W>(mem: Memory<W>, h: Hold, mem1: Memory<W>, h1: Hold, mem2: Memory<W>, h2: Hold, but: set<nat>)
    requires Intact(mem, h, mem1, h1, but) && Intact(mem1, h1, mem2, h2, but)
    ensures Intact(mem, h, mem2, h2, but)
  {
    hide Keeps;
  }

  // Whatever was done to entry i, the table stays a tree and its pages accounted for.
  lemma Advance<W>(m: Mmu<W>, mem: Memory<W>, h: Hold, live: set<nat>, mem': Memory<W>, h': Hold, live': set<nat>,
                   live0: set<nat>, items: seq<nat>, dst: nat, level: nat, n: nat, i: nat, more: seq<nat>)
    requires Sound(m, mem, h, live0, live, items, dst, level, n) && i < n && Blank(m, mem, dst, i, n)
    requires !m.present(m.zero)
    requires Took(m, mem, h, live, mem', h', live', dst, level, i, more)
    ensures Sound(m, mem', h', live0, live', items + more, dst, level, n) && Blank(m, mem', dst, i + 1, n)
  {
    hide Keeps, Accounted;
    var ts, c := Tables(m, mem, dst, level, n), ChildTables(m, mem', dst, level, i);
    assert Word(m, mem, dst, i) == m.zero && ChildTables(m, mem, dst, level, i) == {};
    assert dst in ts;
    assert Agree(mem, mem', ts - {dst});
    NewTables(h.off, ts, dst, c, live0, live, live', items, more);
    TreeGrows(m, mem, mem', dst, level, n, i);
    assert ts + c - {dst} == (ts - {dst}) + c;
    PointersApart(h.off, ts - {dst}, c);
    AccountedThen(live0, live, live', Pointers(h.off, ts - {dst}), Pointers(h.off, c), items, more);
    assert forall k :: i + 1 <= k < n ==> Word(m, mem', dst, k) == Word(m, mem, dst, k);
  }

  lemma NewTables(off: nat, ts: set<nat>, dst: nat, c: set<nat>, live0: set<nat>, live: set<nat>, live': set<nat>,
                  items: seq<nat>, more: seq<nat>)
    requires Accounted(live0, live, Pointers(off, ts - {dst}), items) && off + PAGE * dst in live0
    requires Accounted(live, live', Pointers(off, c), more)
    ensures c !! ts
  {
    forall t | t in ts ensures off + PAGE * t in live {
      if t != dst {
        PointerIn(off, ts - {dst}, t);
      }
    }
    forall t | t in c ensures off + PAGE * t in Pointers(off, c) {
    }
  }

  lemma PointerIn(off: nat, frames: set<nat>, f: nat)
    requires f in frames
    ensures off + PAGE * f in Pointers(off, frames)
  {
  }

  lemma AccountedThen(live0: set<nat>, live: set<nat>, live': set<nat>, a: set<nat>, b: set<nat>, items: seq<nat>, more: seq<nat>)
    requires Accounted(live0, live, a, items) && Accounted(live, live', b, more)
    ensures Accounted(live0, live', a + b, items + more)
  {
    assert Members(items + more) == Members(items) + Members(more);
    forall k, l | 0 <= k < l < |items + more| ensures (items + more)[k] != (items + more)[l] {
      if k < |items| <= l {
        assert items[k] in Members(items) && more[l - |items|] in Members(more);
      }
    }
  }

  lemma TreeGrows<W>(m: Mmu<W>, mem: Memory<W>, mem': Memory<W>, dst: nat, level: nat, n: nat, i: nat)
    requires Tree(m, mem, dst, level, n) && i < n && ChildTables(m, mem, dst, level, i) == {}
    requires OnlyEntry(mem, mem', dst, i) && EntryTree(m, mem', dst, level, i)
    requires Agree(mem, mem', Tables(m, mem, dst, level, n) - {dst})
    requires ChildTables(m, mem', dst, level, i) !! Tables(m, mem, dst, level, n)
    ensures Tree(m, mem', dst, level, n)
    ensures Tables(m, mem', dst, level, n) == Tables(m, mem, dst, level, n) + ChildTables(m, mem', dst, level, i)
  {
    hide EntryTree, ChildTables, Agree;
    forall k | 0 <= k < n && k != i
      ensures EntryTree(m, mem', dst, level, k)
      ensures ChildTables(m, mem', dst, level, k) == ChildTables(m, mem, dst, level, k)
    {
      OtherEntry(m, mem, mem', dst, level, n, k);
    }
    assert dst in Tables(m, mem, dst, level, n);
    forall k | 0 <= k < n ensures ChildTables(m, mem, dst, level, k) <= Tables(m, mem, dst, level, n) {
    }
  }

  // ---- what was copied stays copied ----

  lemma PageStays<W>(m: Mmu<W>, mem: Memory<W>, h: Hold, live: set<nat>, mem': Memory<W>, h': Hold, live': set<nat>,
                     live0: set<nat>, items: seq<nat>, dst: nat, level: nat, n: nat, i: nat, more: seq<nat>, base: nat, p: nat)
    requires Sound(m, mem, h, live0, live, items, dst, level, n) && i < n
    requires Took(m, mem, h, live, mem', h', live', dst, level, i, more)
    requires TableBase(base, level) && base <= p < EntryBase(base, level, i)
    ensures At(m, mem', dst, level, p) == At(m, mem, dst, level, p)
  {
    hide Keeps, Accounted, EntryTree, ChildTables, TableBase, EntryBase, Index;
    assert n <= PT_ENTRIES && Agree(mem, mem', Tables(m, mem, dst, level, n) - {dst});
    EntryBefore(base, level, i, p);
    OtherEntry(m, mem, mem', dst, level, n, Index(p * PAGE, level));
  }

  lemma ListedStays<W>(j: Job<W>, mem: Memory<W>, h: Hold, mem': Memory<W>, h': Hold, live0: set<nat>, items: seq<nat>,
                       dst: nat, level: nat, p: nat, k: nat)
    requires k < |items| && Members(items) !! live0 && h.off + PAGE * dst in live0
    requires Listed(j, mem, h, dst, level, p, items[k]) && Intact(mem, h, mem', h', {dst})
    requires At(j.m, mem', dst, level, p) == At(j.m, mem, dst, level, p)
    ensures Listed(j, mem', h', dst, level, p, items[k])
    ensures var f := At(j.m, mem, dst, level, p).value.frame; f in mem' && mem'[f] == mem[f]
  {
    hide Keeps;
    assert items[k] in Members(items);
  }

  lemma CopiesAdvance<W>(j: Job<W>, mem: Memory<W>, h: Hold, live: set<nat>, mem': Memory<W>, h': Hold, live': set<nat>,
                         live0: set<nat>, items: seq<nat>, src: nat, dst: nat, level: nat, n: nat, i: nat, more: seq<nat>,
                         base: nat, pages: seq<nat>, pages': seq<nat>)
    requires Sound(j.m, mem, h, live0, live, items, dst, level, n) && i < n
    requires Took(j.m, mem, h, live, mem', h', live', dst, level, i, more)
    requires TableBase(base, level)
    requires Copies(j, mem, h, items, src, dst, level, base, EntryBase(base, level, i), pages)
    requires Copies(j, mem', h', more, src, dst, level, EntryBase(base, level, i), EntryBase(base, level, i + 1), pages')
    ensures Copies(j, mem', h', items + more, src, dst, level, base, EntryBase(base, level, i + 1), pages + pages')
  {
    hide Keeps, EntryTree, ChildTables, TableBase, EntryBase, At, Tree, Tables, Listed;
    var mid, to := EntryBase(base, level, i), EntryBase(base, level, i + 1);
    EntriesAscend(base, level, i);
    forall p | base <= p < mid
      ensures At(j.m, mem', dst, level, p) == At(j.m, mem, dst, level, p)
    {
      PageStays(j.m, mem, h, live, mem', h', live', live0, items, dst, level, n, i, more, base, p);
    }
    forall k | 0 <= k < |pages|
      ensures Listed(j, mem', h', dst, level, pages[k], items[k])
      ensures var d := At(j.m, mem, dst, level, pages[k]);
              d.Some? && d.value.frame in mem' && d.value.frame in mem && mem'[d.value.frame] == mem[d.value.frame]
    {
      ListedStays(j, mem, h, mem', h', live0, items, dst, level, pages[k], k);
      ListedFrame(j, mem, h, dst, level, pages[k], items[k]);
    }
    forall p | base <= p < to
      ensures Copied(j, mem', src, dst, level, p) && (At(j.m, mem', dst, level, p).Some? ==> p in pages + pages')
    {
      if p < mid {
        assert Copied(j, mem, src, dst, level, p);
      }
    }
  }

  lemma ListedFrame<W>(j: Job<W>, mem: Memory<W>, h: Hold, dst: nat, level: nat, p: nat, item: nat)
    requires Listed(j, mem, h, dst, level, p, item)
    ensures At(j.m, mem, dst, level, p).Some? && At(j.m, mem, dst, level, p).value.frame in mem
  {
  }

  // ---- handling one entry ----

  // The copy is under way: the source has stayed as it was, and dst is none of its frames.
  ghost predicate Ready<W>(j: Job<W>, mem: Memory<W>, h: Hold, src: nat, dst: nat, level: nat, n: nat, base: nat) {
    && Intact(j.mem, j.held, mem, h, {}) && !Keeps(j.held, dst) && Keeps(h, dst)
    && Source(j, src, level, n, base) && TableBase(base, level) && n <= PT_ENTRIES
    && dst in mem && |mem[dst]| == PT_ENTRIES
  }

  lemma StillReady<W>(j: Job<W>, mem: Memory<W>, h: Hold, mem': Memory<W>, h': Hold, src: nat, dst: nat, level: nat, n: nat, base: nat)
    requires Ready(j, mem, h, src, dst, level, n, base) && Intact(mem, h, mem', h', {dst})
    requires dst in mem' && |mem'[dst]| == PT_ENTRIES
    ensures Ready(j, mem', h', src, dst, level, n, base)
  {
    hide Keeps, Source, TableBase;
  }

  lemma SourceEntry<W>(j: Job<W>, mem: Memory<W>, h: Hold, src: nat, dst: nat, level: nat, n: nat, base: nat, i: nat)
    requires Ready(j, mem, h, src, dst, level, n, base) && i < n
    ensures src in j.mem && |j.mem[src]| == PT_ENTRIES && src in mem && mem[src] == j.mem[src]
    ensures src != dst && Word(j.m, j.mem, src, i) == mem[src][i]
    ensures IsTable(j.m, Word(j.m, j.mem, src, i), level) ==> Open(j.m.passes(Word(j.m, j.mem, src, i)))
  {
    hide Keeps, TableBase;
    assert EntryTree(j.m, j.mem, src, level, i);
    assert src in Tables(j.m, j.mem, src, level, n);
  }

  // Nothing of dst's tables or of the heap's allocations has changed.
  lemma TookNothing<W>(m: Mmu<W>, mem: Memory<W>, h: Hold, live: set<nat>, mem': Memory<W>, h': Hold, dst: nat, level: nat, i: nat)
    requires Intact(mem, h, mem', h', {}) && Keeps(h, dst)
    requires dst in mem && |mem[dst]| == PT_ENTRIES && i < PT_ENTRIES
    requires Word(m, mem, dst, i) == m.zero && !m.present(m.zero)
    ensures Took(m, mem, h, live, mem', h', live, dst, level, i, [])
  {
    hide Keeps;
    assert Pointers(h.off, {}) == {};
  }

  // Every page under an entry left empty is unmapped.
  lemma CopiesNothing<W>(j: Job<W>, mem: Memory<W>, h: Hold, src: nat, dst: nat, level: nat, base: nat, i: nat)
    requires TableBase(base, level) && i < PT_ENTRIES
    requires Word(j.m, mem, dst, i) == j.m.zero && !j.m.present(j.m.zero)
    requires !j.m.present(Word(j.m, j.mem, src, i))
             || forall p :: EntryBase(base, level, i) <= p < EntryBase(base, level, i + 1) ==> Skipped(j.lo, j.hi, p)
    ensures Copies(j, mem, h, [], src, dst, level, EntryBase(base, level, i), EntryBase(base, level, i + 1), [])
  {
    hide TableBase, EntryBase, Index;
    EntriesAscend(base, level, i);
    forall p | EntryBase(base, level, i) <= p < EntryBase(base, level, i + 1)
      ensures At(j.m, mem, dst, level, p) == None && Copied(j, mem, src, dst, level, p)
    {
      EntryOf(base, level, i, p);
    }
  }

  // A page handed out is held from now on, and was not before.
  lemma PageHeld(bs: seq<HB.Block>, cs: seq<HB.Block>, but: nat, lo: nat, hi: nat, off: nat, f: nat)
    requires NewlyCovered(bs, cs, off + PAGE * f) && lo <= off + PAGE * f && off + PAGE * f + PAGE <= hi
    requires but == 0 || but in HB.LivePointers(bs)
    requires off + PAGE * f !in HB.LivePointers(bs) && 0 < lo
    ensures var h, h' := Hold(bs, but, lo, hi, off), Hold(cs, but, lo, hi, off);
            StaysHeld(h, h') && !Keeps(h, f) && Keeps(h', f)
  {
  }

  // A page handed out and given back leaves what was held before.
  lemma PageReturned(bs: seq<HB.Block>, cs: seq<HB.Block>, but: nat, lo: nat, hi: nat, off: nat, p: nat)
    requires HB.Inv(cs, lo, hi) && p in HB.LivePointers(cs) && p !in HB.LivePointers(bs)
    requires HB.Live(bs) <= HB.Live(cs)
    ensures StaysHeld(Hold(bs, but, lo, hi, off), Hold(HB.Free(cs, p), but, lo, hi, off))
  {
    hide HB.Inv, HB.Free;
    FreeKeeps(cs, lo, hi, p);
    forall b | b in HB.Live(bs) ensures b in HB.Live(HB.Free(cs, p)) {
      assert b.Payload() in HB.LivePointers(bs);
    }
    KeepsMore(Hold(bs, but, lo, hi, off), Hold(HB.Free(cs, p), but, lo, hi, off));
  }

  // A page copied into the fresh frame f and entered at i.
  lemma PageTook<W(!new)>(j: Job<W>, mem: Memory<W>, h: Hold, live: set<nat>, mem': Memory<W>, h': Hold,
                          src: nat, dst: nat, n: nat, base: nat, i: nat, f: nat)
    requires Lawful(j.m) && Ready(j, mem, h, src, dst, 0, n, base) && i < n
    requires StaysHeld(h, h') && !Keeps(h, f) && Keeps(h', f) && f < FRAMES && h.off + PAGE * f !in live
    requires Word(j.m, mem, dst, i) == j.m.zero && !Skipped(j.lo, j.hi, EntryBase(base, 0, i))
    requires var w := Word(j.m, j.mem, src, i);
             j.m.present(w) && j.m.phys(w) in j.mem
             && mem' == Put(mem[f := j.mem[j.m.phys(w)]], dst, i, j.m.withPhys(w, f))
    ensures Took(j.m, mem, h, live, mem', h', live + {h.off + PAGE * f}, dst, 0, i, [h.off + PAGE * f])
    ensures Copies(j, mem', h', [h.off + PAGE * f], src, dst, 0, EntryBase(base, 0, i), EntryBase(base, 0, i + 1), [EntryBase(base, 0, i)])
  {
    hide Keeps, TableBase, Index, Source;
    var p := EntryBase(base, 0, i);
    var w := Word(j.m, j.mem, src, i);
    var v := j.m.withPhys(w, f);
    Moved0(j.m, w, f);
    EntryOf(base, 0, i, p);
    assert dst != f && Word(j.m, mem', dst, i) == v;
    assert Pointers(h.off, {}) == {};
    assert LeafPage(f, 0, p * PAGE) == f && LeafPage(j.m.phys(w), 0, p * PAGE) == j.m.phys(w);
    assert Members([h.off + PAGE * f]) == {h.off + PAGE * f};
    assert EntryBase(base, 0, i + 1) == p + 1;
  }

  lemma Moved0<W(!new)>(m: Mmu<W>, w: W, f: nat)
    requires Lawful(m) && m.present(w) && f < FRAMES
    ensures var v := m.withPhys(w, f);
            m.present(v) && m.phys(v) == f && m.flags(v) == m.flags(w) && m.isLeaf(v, 0) && m.isLeaf(w, 0)
  {
  }

  // A child table filled below entry i, seen from the table.
  lemma ChildTook<W(!new)>(j: Job<W>, mem: Memory<W>, h: Hold, live: set<nat>, mem1: Memory<W>, h1: Hold,
                           mem': Memory<W>, h': Hold, live': set<nat>, more: seq<nat>,
                           src: nat, dst: nat, level: nat, n: nat, base: nat, i: nat, c: nat)
    requires Lawful(j.m) && Ready(j, mem, h, src, dst, level, n, base) && i < n && 0 < level <= PT_TOP_LEVEL
    requires StaysHeld(h, h1) && !Keeps(h, c) && c < FRAMES && h.off + PAGE * c !in live
    requires mem1 == Put(mem[c := Zeros(j.m)], dst, i, j.m.table(c))
    requires Intact(mem1, h1, mem', h', {c})
    requires Sound(j.m, mem', h', live + {h.off + PAGE * c}, live', more, c, level - 1, PT_ENTRIES)
    ensures Took(j.m, mem, h, live, mem', h', live', dst, level, i, more)
    ensures Word(j.m, mem', dst, i) == j.m.table(c) && IsTable(j.m, j.m.table(c), level) && j.m.phys(j.m.table(c)) == c
    ensures Open(j.m.passes(j.m.table(c)))
  {
    hide Keeps, TableBase, Source, Accounted, Tree, Tables;
    TableMeans(j.m, c, level);
    assert dst != c && mem'[dst] == mem1[dst];
    var ts := Tables(j.m, mem', c, level - 1, PT_ENTRIES);
    LowestTable(j.m, mem', c, level - 1);
    PointersApart(h.off, ts, {c});
    PointerIn(h.off, ts, c);
    assert Pointers(h.off, {c}) == {h.off + PAGE * c};
    AccountedWith(live, h.off + PAGE * c, live', Pointers(h.off, ts), more);
    assert EntryTree(j.m, mem', dst, level, i) && ChildTables(j.m, mem', dst, level, i) == ts;
  }

  lemma TableMeans<W>(m: Mmu<W>, c: nat, level: nat)
    requires TableLawful(m) && 0 < level <= PT_TOP_LEVEL && c < FRAMES
    ensures IsTable(m, m.table(c), level) && m.phys(m.table(c)) == c && Open(m.passes(m.table(c)))
  {
  }

  lemma AccountedWith(live: set<nat>, p: nat, live': set<nat>, tables: set<nat>, items: seq<nat>)
    requires Accounted(live + {p}, live', tables - {p}, items) && p in tables && p !in live
    ensures Accounted(live, live', tables, items)
  {
    assert tables == (tables - {p}) + {p};
  }

  lemma ChildCopies<W>(j: Job<W>, mem: Memory<W>, h: Hold, items: seq<nat>, src: nat, dst: nat, level: nat, base: nat, i: nat,
                       pages: seq<nat>)
    requires TableBase(base, level) && 0 < level <= PT_TOP_LEVEL && i < PT_ENTRIES
    requires IsTable(j.m, Word(j.m, j.mem, src, i), level) && IsTable(j.m, Word(j.m, mem, dst, i), level)
    requires Open(j.m.passes(Word(j.m, j.mem, src, i))) && Open(j.m.passes(Word(j.m, mem, dst, i)))
    requires var s, d := j.m.phys(Word(j.m, j.mem, src, i)), j.m.phys(Word(j.m, mem, dst, i));
             var from := EntryBase(base, level, i);
             Copies(j, mem, h, items, s, d, level - 1, from, EntryBase(from, level - 1, PT_ENTRIES), pages)
    ensures Copies(j, mem, h, items, src, dst, level, EntryBase(base, level, i), EntryBase(base, level, i + 1), pages)
  {
    hide TableBase, EntryBase, Index, At, Keeps, IsTable;
    var s, d := j.m.phys(Word(j.m, j.mem, src, i)), j.m.phys(Word(j.m, mem, dst, i));
    var from, to, k := EntryBase(base, level, i), EntryBase(base, level, i + 1), level - 1;
    WholeEntry(base, level, i);
    forall p | from <= p < to
      ensures At(j.m, mem, dst, level, p) == At(j.m, mem, d, k, p)
      ensures At(j.m, j.mem, src, level, p) == At(j.m, j.mem, s, k, p)
    {
      AtChild(j.m, mem, dst, level, base, i, p);
      AtChild(j.m, j.mem, src, level, base, i, p);
    }
    assert forall p :: Copied(j, mem, s, d, k, p) && from <= p < to ==> Copied(j, mem, src, dst, level, p);
    assert forall x :: 0 <= x < |pages| ==> Listed(j, mem, h, d, k, pages[x], items[x]);
  }

  lemma ChildSource<W>(j: Job<W>, src: nat, level: nat, n: nat, base: nat, i: nat)
    requires Source(j, src, level, n, base) && TableBase(base, level) && 0 < level <= PT_TOP_LEVEL && i < n <= PT_ENTRIES
    requires IsTable(j.m, Word(j.m, j.mem, src, i), level)
    ensures Source(j, j.m.phys(Word(j.m, j.mem, src, i)), level - 1, PT_ENTRIES, EntryBase(base, level, i))
  {
    hide TableBase, EntryBase, Index, Keeps, IsTable, At, Tree, Tables;
    var c := j.m.phys(Word(j.m, j.mem, src, i));
    ChildTablesHeld(j, src, level, n, base, i);
    WholeEntry(base, level, i);
    var from, to, k := EntryBase(base, level, i), EntryBase(base, level, i + 1), level - 1;
    forall p | from <= p < to ensures SourcePage(j, c, k, p) {
      AtChild(j.m, j.mem, src, level, base, i, p);
      Inside(base, level, n, i, p);
      assert SourcePage(j, src, level, p);
    }
  }

  lemma ChildTablesHeld<W>(j: Job<W>, src: nat, level: nat, n: nat, base: nat, i: nat)
    requires Source(j, src, level, n, base) && i < n && IsTable(j.m, Word(j.m, j.mem, src, i), level)
    ensures var c := j.m.phys(Word(j.m, j.mem, src, i));
            && Tree(j.m, j.mem, c, level - 1, PT_ENTRIES)
            && c < FRAMES && AllKept(Tables(j.m, j.mem, c, level - 1, PT_ENTRIES), j.held)
  {
    hide Keeps, At;
    assert EntryTree(j.m, j.mem, src, level, i);
    assert ChildTables(j.m, j.mem, src, level, i) <= Tables(j.m, j.mem, src, level, n);
    LowestTable(j.m, j.mem, j.m.phys(Word(j.m, j.mem, src, i)), level - 1);
  }

  // ---- clone_user_level ----

  // Where a step has left the heap; None for a step that failed.
  ghost function Result<W(!new)>(ok: bool, k: Machine<W>, list: PageList): Option<Stock>
    reads k, k.heap, list
  {
    if ok then Some(StockOf(k, list)) else None
  }

  // The page under entry i of a lowest table.
  method ClonePage<W(!new)>(k: Machine<W>, list: PageList, src: nat, dst: nat, i: nat, ghost base: nat, ghost n: nat, ghost j: Job<W>)
    returns (ok: bool, ghost pages: seq<nat>)
    requires k.Valid() && list.Valid(k.LiveSet()) && j.m == k.mmu
    requires Ready(j, k.mem, Holding(k, list), src, dst, 0, n, base) && i < n
    requires src < FRAMES && dst < FRAMES && k.mmu.present(k.mem[src][i])
    requires dst in k.mem && i < |k.mem[dst]| && k.mem[dst][i] == k.mmu.zero
    requires SourceHere(j, k.mem, src, i) && !Skipped(j.lo, j.hi, EntryBase(base, 0, i))
    modifies k, k.heap, list
    ensures k.Valid() && list.Valid(k.LiveSet())
    ensures old(|list.items|) <= |list.items| && list.items[..old(|list.items|)] == old(list.items)
    ensures Took(k.mmu, old(k.mem), old(Holding(k, list)), old(Given(k, list)), k.mem, Holding(k, list), Given(k, list),
                 dst, 0, i, list.items[old(|list.items|)..])
    ensures ok ==> Copies(j, k.mem, Holding(k, list), list.items[old(|list.items|)..], src, dst, 0,
                          EntryBase(base, 0, i), EntryBase(base, 0, i + 1), pages)
    ensures Result(ok, k, list) == MeetAll(old(StockOf(k, list)), [ForPage])
  {
    hide Lawful, HB.Inv, HB.Free, HB.Malloc, HB.PageAlloc, Pmm.Chain, Source, Tree, Tables, Took, Copies, Keeps;
    hide TableBase, EntryBase, Covered, Ready, StaysHeld, Intact, Whole, HB.LivePointers, SourceHere, Pointers, Unmoved, Meet, MeetAll;
    MeetOne(StockOf(k, list), ForPage);
    ghost var mem0, h0, live0, items0 := k.mem, Holding(k, list), Given(k, list), list.items;
    SourceEntry(j, mem0, h0, src, dst, 0, n, base, i);
    ReadyTable(j, mem0, h0, src, dst, 0, n, base);
    var entry := k.mem[src][i];
    ZeroLaw(k.mmu);
    var f: nat;
    ok, f := TakePage(k, list);
    if !ok {
      assert list.items[|items0|..] == [];
      TookNothing(k.mmu, mem0, h0, live0, k.mem, Holding(k, list), dst, 0, i);
      return false, [];
    }
    FrameElsewhere(j, mem0, h0, src, dst, n, base, i, f);
    CopyPage(k, dst, i, entry, f, mem0);
    assert list.items[|items0|..] == [k.off + PAGE * f];
    PageTook(j, mem0, h0, live0, k.mem, Holding(k, list), src, dst, n, base, i, f);
    return true, [EntryBase(base, 0, i)];
  }

  // The page's bytes copied to frame f, and the entry that maps them written.
  method CopyPage<W(!new)>(k: Machine<W>, dst: nat, i: nat, entry: W, f: nat, ghost mem0: Memory<W>)
    requires k.Valid() && Whole(mem0) && k.mem == mem0[f := Zeros(k.mmu)]
    requires f < FRAMES && dst < FRAMES && dst != f && i < PT_ENTRIES && k.mmu.phys(entry) < FRAMES && k.mmu.phys(entry) != f
    modifies k`mem
    ensures k.Valid() && k.mmu.phys(entry) in mem0 && dst in mem0[f := mem0[k.mmu.phys(entry)]]
    ensures i < |mem0[f := mem0[k.mmu.phys(entry)]][dst]|
    ensures k.mem == Put(mem0[f := mem0[k.mmu.phys(entry)]], dst, i, k.mmu.withPhys(entry, f))
  {
    hide Lawful, HB.Inv, Pmm.Chain;
    Entered(mem0, f, mem0[k.mmu.phys(entry)], dst, i, k.mmu.withPhys(entry, f));
    k.mem := k.mem[f := k.mem[k.mmu.phys(entry)]];
    k.mem := k.mem[dst := k.mem[dst][i := k.mmu.withPhys(entry, f)]];
  }

  lemma FrameElsewhere<W>(j: Job<W>, mem: Memory<W>, h: Hold, src: nat, dst: nat, n: nat, base: nat, i: nat, f: nat)
    requires Ready(j, mem, h, src, dst, 0, n, base) && SourceHere(j, mem, src, i) && !Keeps(h, f)
    requires Whole(mem)
    ensures var s := j.m.phys(Word(j.m, mem, src, i));
            s < FRAMES && f != s && f != dst && s in mem && s in j.mem && mem[s] == j.mem[s] && |mem[s]| == PT_ENTRIES
    ensures Word(j.m, mem, src, i) == Word(j.m, j.mem, src, i)
  {
    hide Keeps, Source, TableBase;
  }

  // A page allocated, as the holder of the list sees it.
  method TakeTable<W(!new)>(k: Machine<W>, list: PageList) returns (ok: bool, f: nat)
    requires k.Valid() && list.Valid(k.LiveSet())
    modifies k, k.heap
    ensures k.Valid() && list.Valid(k.LiveSet())
    ensures !ok ==> k.mem == old(k.mem) && k.heap.blocks == old(k.heap.blocks) && k.Exhausted()
    ensures Result(ok, k, list) == Meet(old(StockOf(k, list)), ForTable)
    ensures ok ==> k.heap.blocks == HB.PageAlloc(old(k.heap.blocks), 1).0 && HB.PageAlloc(old(k.heap.blocks), 1).1 != 0
    ensures ok ==> f < FRAMES && k.mem == old(k.mem)[f := Zeros(k.mmu)]
    ensures ok ==> StaysHeld(old(Holding(k, list)), Holding(k, list)) && Keeps(Holding(k, list), f)
    ensures ok ==> !Keeps(old(Holding(k, list)), f) && NewlyCovered(old(k.heap.blocks), k.heap.blocks, k.off + PAGE * f)
    ensures ok ==> var p := k.off + PAGE * f;
                   p !in old(k.LiveSet()) && p in k.LiveSet()
                   && p !in old(Given(k, list)) && Given(k, list) == old(Given(k, list)) + {p}
  {
    hide Lawful, HB.Inv, HB.Free, HB.Malloc, HB.PageAlloc, Pmm.Chain, Keeps, NewlyCovered, Covered, Whole;
    ghost var h0 := Holding(k, list);
    ok, f := k.PoolAlloc();
    if ok {
      PageHeld(h0.bs, k.heap.blocks, h0.but, h0.lo, h0.hi, h0.off, f);
    }
  }

  // A page allocated and entered in the owned list, or neither.
  method TakePage<W(!new)>(k: Machine<W>, list: PageList) returns (ok: bool, f: nat)
    requires k.Valid() && list.Valid(k.LiveSet())
    modifies k, k.heap, list
    ensures k.Valid() && list.Valid(k.LiveSet())
    ensures !ok ==> list.items == old(list.items) && Given(k, list) == old(Given(k, list))
    ensures !ok ==> Intact(old(k.mem), old(Holding(k, list)), k.mem, Holding(k, list), {})
    ensures Result(ok, k, list) == Meet(old(StockOf(k, list)), ForPage)
    ensures ok ==> f < FRAMES && k.mem == old(k.mem)[f := Zeros(k.mmu)]
    ensures ok ==> StaysHeld(old(Holding(k, list)), Holding(k, list)) && Keeps(Holding(k, list), f)
    ensures ok ==> !Keeps(old(Holding(k, list)), f)
    ensures ok ==> var p := k.off + PAGE * f;
                   list.items == old(list.items) + [p] && p !in old(Given(k, list)) && Given(k, list) == old(Given(k, list)) + {p}
  {
    hide Lawful, HB.Inv, HB.Free, HB.Malloc, HB.PageAlloc, Pmm.Chain, Keeps, NewlyCovered, Covered, Whole, Listing;
    ghost var h0 := Holding(k, list);
    ok, f := TakeTable(k, list);
    if ok {
      ghost var h1 := Holding(k, list);
      var p := k.off + PAGE * f;
      ok := ListAdd(k, list, p);
      if !ok {
        PageBack(h0.bs, h1.bs, h0.but, h0.lo, h0.hi, h0.off, p);
        k.heap.Free(p);
      }
    }
  }

  lemma PageBack(bs: seq<HB.Block>, cs: seq<HB.Block>, but: nat, lo: nat, hi: nat, off: nat, p: nat)
    requires HB.Inv(cs, lo, hi) && p !in HB.LivePointers(bs) && p in HB.LivePointers(cs) && NewlyCovered(bs, cs, p)
    ensures StaysHeld(Hold(bs, but, lo, hi, off), Hold(HB.Free(cs, p), but, lo, hi, off))
  {
    PageReturned(bs, cs, but, lo, hi, off, p);
  }

  // The entry of the source, and the bytes of its frame, are still what they were.
  ghost predicate SourceHere<W>(j: Job<W>, mem: Memory<W>, src: nat, i: nat) {
    var w := Word(j.m, j.mem, src, i);
    var f := j.m.phys(w);
    && w == Word(j.m, mem, src, i)
    && f < FRAMES && Keeps(j.held, f) && f in j.mem && f in mem && mem[f] == j.mem[f]
  }

  // The table under entry i.
  method CloneChild<W(!new)>(k: Machine<W>, list: PageList, src: nat, dst: nat, level: nat, i: nat, base: nat, lo: nat, hi: nat,
                             ghost n: nat, ghost j: Job<W>)
    returns (ok: bool, ghost pages: seq<nat>)
    requires k.Valid() && list.Valid(k.LiveSet()) && j.m == k.mmu && j.lo == lo && j.hi == hi && Whole(j.mem)
    requires Ready(j, k.mem, Holding(k, list), src, dst, level, n, base) && i < n && 0 < level <= PT_TOP_LEVEL
    requires src < FRAMES && dst < FRAMES && k.off + PAGE * dst in Given(k, list)
    requires IsTable(j.m, k.mem[src][i], level) && k.mem[dst][i] == k.mmu.zero
    requires !WhollySkipped(lo, hi, EntryBase(base, level, i), level)
    modifies k, k.heap, list
    ensures k.Valid() && list.Valid(k.LiveSet())
    ensures old(|list.items|) <= |list.items| && list.items[..old(|list.items|)] == old(list.items)
    ensures Took(k.mmu, old(k.mem), old(Holding(k, list)), old(Given(k, list)), k.mem, Holding(k, list), Given(k, list),
                 dst, level, i, list.items[old(|list.items|)..])
    ensures ok ==> Copies(j, k.mem, Holding(k, list), list.items[old(|list.items|)..], src, dst, level,
                          EntryBase(base, level, i), EntryBase(base, level, i + 1), pages)
    ensures Result(ok, k, list) == EntryOutcome(j, old(StockOf(k, list)), src, level, base, i)
    decreases level, 0
  {
    hide Lawful, HB.Inv, HB.Free, HB.Malloc, HB.PageAlloc, Pmm.Chain, Source, Tree, Tables, Took, Copies, Keeps, Sound, IsTable;
    hide TableBase, EntryBase, NewlyCovered, Covered, Ready, StaysHeld, Intact, Whole, Blank, HB.LivePointers, Pointers, Unmoved;
    hide Meet, Outcome, EntryOutcome, WhollySkipped;
    ReadyTable(j, k.mem, Holding(k, list), src, dst, level, n, base);
    ghost var mem0, h0, live0, items0 := k.mem, Holding(k, list), Given(k, list), list.items;
    SourceEntry(j, k.mem, h0, src, dst, level, n, base, i);
    var entry := k.mem[src][i];
    ZeroLaw(k.mmu);
    ChildOutcome(j, StockOf(k, list), src, level, base, i);
    var got, c := TakeTable(k, list);
    if !got {
      IntactStart(mem0, h0);
      assert list.items[|items0|..] == [];
      TookNothing(k.mmu, mem0, h0, live0, k.mem, Holding(k, list), dst, level, i);
      return false, [];
    }
    ghost var h1 := Holding(k, list);
    Entered(mem0, c, Zeros(k.mmu), dst, i, k.mmu.table(c));
    k.mem := k.mem[dst := k.mem[dst][i := k.mmu.table(c)]];
    ghost var mem1 := k.mem;
    ChildReady(j, mem0, h0, mem1, h1, src, dst, level, n, base, i, c);
    ok, pages := CloneLevel(k, list, k.mmu.phys(entry), c, level - 1, EntryBase(base, level, i), lo, hi, j);
    ChildTook(j, mem0, h0, live0, mem1, h1, k.mem, Holding(k, list), Given(k, list), list.items[|items0|..],
              src, dst, level, n, base, i, c);
    if ok {
      ChildCopies(j, k.mem, Holding(k, list), list.items[|items0|..], src, dst, level, base, i, pages);
    }
  }

  lemma Entered<W>(mem: Memory<W>, f: nat, page: seq<W>, dst: nat, i: nat, w: W)
    requires Whole(mem) && f < FRAMES && dst < FRAMES && i < PT_ENTRIES && |page| == PT_ENTRIES
    ensures dst in mem[f := page] && |mem[f := page][dst]| == PT_ENTRIES && Whole(Put(mem[f := page], dst, i, w))
  {
  }

  // The fresh, empty table linked in at entry i is where the copy of the child starts.
  lemma ChildReady<W(!new)>(j: Job<W>, mem: Memory<W>, h: Hold, mem1: Memory<W>, h1: Hold,
                            src: nat, dst: nat, level: nat, n: nat, base: nat, i: nat, c: nat)
    requires Ready(j, mem, h, src, dst, level, n, base) && i < n && 0 < level <= PT_TOP_LEVEL
    requires StaysHeld(h, h1) && !Keeps(h, c) && Keeps(h1, c)
    requires IsTable(j.m, Word(j.m, j.mem, src, i), level)
    requires mem1 == Put(mem[c := Zeros(j.m)], dst, i, j.m.table(c))
    ensures Ready(j, mem1, h1, j.m.phys(Word(j.m, j.mem, src, i)), c, level - 1, PT_ENTRIES, EntryBase(base, level, i))
    ensures Blank(j.m, mem1, c, 0, PT_ENTRIES) && mem1[c] == Zeros(j.m) && j.m.phys(Word(j.m, j.mem, src, i)) < FRAMES
  {
    hide Keeps, Source, TableBase, EntryBase, IsTable;
    assert Source(j, src, level, n, base);
    ChildTablesHeld(j, src, level, n, base, i);
    ChildSource(j, src, level, n, base, i);
    EntryIsBase(base, level, i);
  }

  // One entry of clone_user_level.
  method CloneEntry<W(!new)>(k: Machine<W>, list: PageList, src: nat, dst: nat, level: nat, i: nat, base: nat, lo: nat, hi: nat,
                             ghost n: nat, ghost j: Job<W>)
    returns (ok: bool, ghost pages: seq<nat>)
    requires k.Valid() && list.Valid(k.LiveSet()) && j.m == k.mmu && j.lo == lo && j.hi == hi && Whole(j.mem)
    requires Ready(j, k.mem, Holding(k, list), src, dst, level, n, base) && i < n && level <= PT_TOP_LEVEL
    requires src < FRAMES && dst < FRAMES && k.off + PAGE * dst in Given(k, list)
    requires k.mem[dst][i] == k.mmu.zero
    modifies k, k.heap, list
    ensures k.Valid() && list.Valid(k.LiveSet())
    ensures old(|list.items|) <= |list.items| && list.items[..old(|list.items|)] == old(list.items)
    ensures Took(k.mmu, old(k.mem), old(Holding(k, list)), old(Given(k, list)), k.mem, Holding(k, list), Given(k, list),
                 dst, level, i, list.items[old(|list.items|)..])
    ensures ok ==> Copies(j, k.mem, Holding(k, list), list.items[old(|list.items|)..], src, dst, level,
                          EntryBase(base, level, i), EntryBase(base, level, i + 1), pages)
    ensures Result(ok, k, list) == EntryOutcome(j, old(StockOf(k, list)), src, level, base, i)
    decreases level, 1
  {
    hide Lawful, HB.Inv, HB.Free, HB.Malloc, HB.PageAlloc, Pmm.Chain, Source, Tree, Tables, Took, Copies, Keeps;
    hide TableBase, EntryBase, Covered, Pointers, Unmoved, Meet, Needs, Clear;
    ghost var mem0, h0, live0 := k.mem, Holding(k, list), Given(k, list);
    assert list.items[|list.items|..] == [];
    SourceEntry(j, k.mem, h0, src, dst, level, n, base, i);
    ZeroLaw(k.mmu);
    TookNothing(k.mmu, mem0, h0, live0, mem0, h0, dst, level, i);
    var entry := k.mem[src][i];
    if !k.mmu.present(entry) {
      CopiesNothing(j, mem0, h0, src, dst, level, base, i);
      return true, [];
    }
    var va := EntryBase(base, level, i) * PAGE;
    if level == 0 {
      if lo <= va < hi {
        SkippedEntry(base, level, i, lo, hi);
        CopiesNothing(j, mem0, h0, src, dst, level, base, i);
        return true, [];
      }
      SourceFrame(j, k.mem, h0, src, dst, n, base, i);
      ok, pages := ClonePage(k, list, src, dst, i, base, n, j);
    } else if k.mmu.isLeaf(entry, level) {
      return false, [];
    } else if lo <= va && va + Span(level) * PAGE <= hi {
      SkippedEntry(base, level, i, lo, hi);
      CopiesNothing(j, mem0, h0, src, dst, level, base, i);
      return true, [];
    } else {
      ok, pages := CloneChild(k, list, src, dst, level, i, base, lo, hi, n, j);
    }
  }

  lemma SkippedEntry(base: nat, level: nat, i: nat, lo: nat, hi: nat)
    requires lo <= EntryBase(base, level, i) * PAGE
    requires (EntryBase(base, level, i) + Span(level)) * PAGE <= hi || (level == 0 && EntryBase(base, level, i) * PAGE < hi)
    ensures forall p :: EntryBase(base, level, i) <= p < EntryBase(base, level, i + 1) ==> Skipped(lo, hi, p)
  {
    hide EntryBase;
    EntriesAscend(base, level, i);
  }

  lemma SourceFrame<W(!new)>(j: Job<W>, mem: Memory<W>, h: Hold, src: nat, dst: nat, n: nat, base: nat, i: nat)
    requires Lawful(j.m) && Whole(j.mem) && Ready(j, mem, h, src, dst, 0, n, base) && i < n && j.m.present(Word(j.m, j.mem, src, i))
    ensures SourceHere(j, mem, src, i)
  {
    hide Keeps, TableBase, Tree, Tables, Index;
    SourceEntry(j, mem, h, src, dst, 0, n, base, i);
    LeafBound(j.m, j.mem, src, n, i);
    var p := EntryBase(base, 0, i);
    EntryOf(base, 0, i, p);
    assert SourcePage(j, src, 0, p);
    assert LeafPage(j.m.phys(Word(j.m, j.mem, src, i)), 0, p * PAGE) == j.m.phys(Word(j.m, j.mem, src, i));
  }

  lemma LeafBound<W>(m: Mmu<W>, mem: Memory<W>, t: nat, n: nat, i: nat)
    requires Tree(m, mem, t, 0, n) && i < n && m.present(Word(m, mem, t, i))
    ensures m.phys(Word(m, mem, t, i)) < FRAMES
  {
    assert EntryTree(m, mem, t, 0, i);
  }

  // clone_user_level: the pages and tables below src copied below the empty table dst.
  method CloneLevel<W(!new)>(k: Machine<W>, list: PageList, src: nat, dst: nat, level: nat, base: nat, lo: nat, hi: nat, ghost j: Job<W>)
    returns (ok: bool, ghost pages: seq<nat>)
    requires k.Valid() && list.Valid(k.LiveSet()) && j.m == k.mmu && j.lo == lo && j.hi == hi && Whole(j.mem)
    requires var n := if level == PT_TOP_LEVEL then USER else PT_ENTRIES;
             Ready(j, k.mem, Holding(k, list), src, dst, level, n, base) && Blank(k.mmu, k.mem, dst, 0, n)
    requires src < FRAMES && dst < FRAMES && k.off + PAGE * dst in Given(k, list)
    modifies k, k.heap, list
    ensures k.Valid() && list.Valid(k.LiveSet())
    ensures old(|list.items|) <= |list.items| && list.items[..old(|list.items|)] == old(list.items)
    ensures Intact(old(k.mem), old(Holding(k, list)), k.mem, Holding(k, list), {dst})
    ensures var n := if level == PT_TOP_LEVEL then USER else PT_ENTRIES;
            && Sound(k.mmu, k.mem, Holding(k, list), old(Given(k, list)), Given(k, list), list.items[old(|list.items|)..], dst, level, n)
            && dst in old(k.mem) && |k.mem[dst]| == old(|k.mem[dst]|) == PT_ENTRIES && k.mem[dst][n..] == old(k.mem[dst][n..])
            && (ok ==> Copies(j, k.mem, Holding(k, list), list.items[old(|list.items|)..], src, dst, level,
                              base, EntryBase(base, level, n), pages))
            && Result(ok, k, list) == Outcome(j, old(StockOf(k, list)), src, level, base, n)
    decreases level, 2
  {
    hide Lawful, HB.Inv, HB.Free, HB.Malloc, HB.PageAlloc, Pmm.Chain, Source, Tree, Tables, Took, Copies, Keeps, Sound;
    hide TableBase, EntryBase, Covered, Ready, Intact, Blank, HB.LivePointers, Whole, StaysHeld, Pointers, Unmoved, Outcome, EntryOutcome;
    ghost var mem0, h0, live0, items0 := k.mem, Holding(k, list), Given(k, list), list.items;
    ghost var more: seq<nat> := [];
    var n := if level == PT_TOP_LEVEL then USER else PT_ENTRIES;
    ZeroLaw(k.mmu);
    ReadyTable(j, mem0, h0, src, dst, level, n, base);
    SoundStart(k.mmu, mem0, h0, live0, dst, level, n);
    pages := [];
    CopiesStart(j, mem0, h0, src, dst, level, base);
    ghost var stock0 := StockOf(k, list);
    OutcomeStart(j, stock0, src, level, base);
    var i := 0;
    while i < n
      invariant i <= n && k.Valid() && list.Valid(k.LiveSet())
      invariant list.items == items0 + more
      invariant Ready(j, k.mem, Holding(k, list), src, dst, level, n, base)
      invariant Intact(mem0, h0, k.mem, Holding(k, list), {dst})
      invariant Sound(k.mmu, k.mem, Holding(k, list), live0, Given(k, list), more, dst, level, n) && Blank(k.mmu, k.mem, dst, i, n)
      invariant dst in k.mem && |k.mem[dst]| == PT_ENTRIES && k.mem[dst][n..] == mem0[dst][n..]
      invariant k.off + PAGE * dst in Given(k, list)
      invariant Copies(j, k.mem, Holding(k, list), more, src, dst, level, base, EntryBase(base, level, i), pages)
      invariant Outcome(j, stock0, src, level, base, i) == Some(StockOf(k, list))
    {
      ghost var mem1, h1, live1 := k.mem, Holding(k, list), Given(k, list);
      ghost var next;
      BlankHere(k.mmu, k.mem, dst, i, n);
      OutcomeNext(j, stock0, src, level, base, i);
      ok, next := CloneEntry(k, list, src, dst, level, i, base, lo, hi, n, j);
      ghost var took := list.items[|items0 + more|..];
      assert list.items == items0 + (more + took);
      EntryDone(j, mem1, h1, live1, k.mem, Holding(k, list), Given(k, list), mem0, h0, live0, more, src, dst, level, n, i, took, base);
      if ok {
        CopiesAdvance(j, mem1, h1, live1, k.mem, Holding(k, list), Given(k, list), live0, more, src, dst, level, n, i, took,
                      base, pages, next);
      }
      more := more + took;
      pages := pages + next;
      assert list.items[|items0|..] == more;
      if !ok {
        OutcomeNone(j, stock0, src, level, base, i + 1, n);
        return false, pages;
      }
      i := i + 1;
    }
    assert list.items[|items0|..] == more;
    return true, pages;
  }

  lemma BlankHere<W>(m: Mmu<W>, mem: Memory<W>, dst: nat, i: nat, n: nat)
    requires Blank(m, mem, dst, i, n) && i < n <= PT_ENTRIES && dst in mem && |mem[dst]| == PT_ENTRIES
    ensures mem[dst][i] == m.zero
  {
    assert Word(m, mem, dst, i) == m.zero;
  }

  lemma ReadyTable<W>(j: Job<W>, mem: Memory<W>, h: Hold, src: nat, dst: nat, level: nat, n: nat, base: nat)
    requires Ready(j, mem, h, src, dst, level, n, base)
    ensures dst in mem && |mem[dst]| == PT_ENTRIES && level <= PT_TOP_LEVEL && TableBase(base, level) && n <= PT_ENTRIES
    ensures Intact(mem, h, mem, h, {dst}) && Keeps(h, dst)
  {
  }

  lemma SoundStart<W>(m: Mmu<W>, mem: Memory<W>, h: Hold, live: set<nat>, dst: nat, level: nat, n: nat)
    requires Blank(m, mem, dst, 0, n) && !m.present(m.zero) && n <= PT_ENTRIES
    requires dst in mem && |mem[dst]| == PT_ENTRIES && Keeps(h, dst) && dst < FRAMES && h.off + PAGE * dst in live
    ensures Sound(m, mem, h, live, live, [], dst, level, n)
  {
    hide Keeps;
    forall i | 0 <= i < n ensures EntryTree(m, mem, dst, level, i) && ChildTables(m, mem, dst, level, i) == {} {
      assert Word(m, mem, dst, i) == m.zero;
    }
    assert Tables(m, mem, dst, level, n) == {dst};
    assert Tree(m, mem, dst, level, n);
    assert {dst} - {dst} == {} && Members([]) == {} && live == live + {} + {};
    assert Pointers(h.off, {}) == {};
  }

  lemma CopiesStart<W>(j: Job<W>, mem: Memory<W>, h: Hold, src: nat, dst: nat, level: nat, base: nat)
    ensures Copies(j, mem, h, [], src, dst, level, base, EntryBase(base, level, 0), [])
  {
  }

  lemma EntryDone<W>(j: Job<W>, mem: Memory<W>, h: Hold, live: set<nat>, mem': Memory<W>, h': Hold, live': set<nat>,
                     mem0: Memory<W>, h0: Hold, live0: set<nat>, items: seq<nat>,
                     src: nat, dst: nat, level: nat, n: nat, i: nat, more: seq<nat>, base: nat)
    requires Took(j.m, mem, h, live, mem', h', live', dst, level, i, more) && i < n && !j.m.present(j.m.zero)
    requires Sound(j.m, mem, h, live0, live, items, dst, level, n) && Blank(j.m, mem, dst, i, n)
    requires Ready(j, mem, h, src, dst, level, n, base) && Intact(mem0, h0, mem, h, {dst})
    ensures Sound(j.m, mem', h', live0, live', items + more, dst, level, n) && Blank(j.m, mem', dst, i + 1, n)
    ensures Ready(j, mem', h', src, dst, level, n, base) && Intact(mem0, h0, mem', h', {dst})
    ensures dst in mem && dst in mem' && |mem[dst]| == |mem'[dst]| == PT_ENTRIES && n <= PT_ENTRIES && mem'[dst][n..] == mem[dst][n..]
    ensures live <= live'
  {
    hide Keeps, Tree, Tables, Source, TableBase;
    Advance(j.m, mem, h, live, mem', h', live', live0, items, dst, level, n, i, more);
    IntactThen(mem0, h0, mem, h, mem', h', {dst});
    StillReady(j, mem, h, mem', h', src, dst, level, n, base);
  }

  // ---- clone_user_address_space ----

  // clone_page_table: an empty user half beside the kernel's half.
  method ClonePageTable<W(!new)>(k: Machine<W>, list: PageList) returns (ok: bool, root: nat)
    requires k.Valid() && list.Valid(k.LiveSet())
    requires Keeps(Holding(k, list), k.kernelRoot)
    modifies k, k.heap
    ensures k.Valid() && list.Valid(k.LiveSet())
    ensures !ok ==> k.mem == old(k.mem) && k.heap.blocks == old(k.heap.blocks) && k.Exhausted()
    ensures Result(ok, k, list) == Meet(old(StockOf(k, list)), ForTable)
    ensures ok ==> root < FRAMES && !Keeps(old(Holding(k, list)), root) && Keeps(Holding(k, list), root)
    ensures ok ==> StaysHeld(old(Holding(k, list)), Holding(k, list))
    ensures ok ==> var p := k.off + PAGE * root;
                   p !in old(Given(k, list)) && Given(k, list) == old(Given(k, list)) + {p}
    ensures ok ==> k.kernelRoot in old(k.mem) && |old(k.mem[k.kernelRoot])| == PT_ENTRIES
                   && k.mem == old(k.mem)[root := Zeros(k.mmu)[..USER] + old(k.mem[k.kernelRoot])[USER..]]
    ensures ok ==> root in k.mem && |k.mem[root]| == 512 && k.mem[root][256..] == old(k.mem[k.kernelRoot])[256..]
                   && forall i :: 0 <= i < 256 ==> k.mem[root][i] == k.mmu.zero
  {
    hide Lawful, HB.Inv, HB.Free, HB.Malloc, HB.PageAlloc, Pmm.Chain, Keeps, NewlyCovered, Covered;
    ok, root := TakeTable(k, list);
    if !ok {
      return;
    }
    ghost var target := Zeros(k.mmu)[..USER] + k.mem[k.kernelRoot][USER..];
    ghost var mem0 := k.mem;
    ghost var page := k.mem[root];
    var i := 0;
    while i < USER
      modifies k`mem
      invariant i <= USER && k.mem == mem0[root := page] && page == Zeros(k.mmu)
    {
      k.mem := k.mem[root := k.mem[root][i := k.mmu.zero]];
      assert page[i := k.mmu.zero] == page;
      i := i + 1;
    }
    while i < PT_ENTRIES
      modifies k`mem
      invariant USER <= i <= PT_ENTRIES && k.mem == mem0[root := page] && |page| == PT_ENTRIES
      invariant page[..i] == target[..i]
    {
      k.mem := k.mem[root := k.mem[root][i := k.mem[k.kernelRoot][i]]];
      page := page[i := target[i]];
      i := i + 1;
    }
    assert page == target;
  }

  // clone_user_address_space: a copy of the user half, or nothing allocated.
  method CloneAddressSpace<W(!new)>(k: Machine<W>, list: PageList, src: nat, lo: nat, hi: nat)
    returns (ok: bool, root: nat, ghost pages: seq<nat>)
    requires k.Valid() && list.Valid(k.LiveSet()) && list.pages == 0 && list.items == []
    requires src < FRAMES && Source(Job(k.mmu, k.mem, Holding(k, list), lo, hi), src, PT_TOP_LEVEL, USER, 0)
    requires Keeps(Holding(k, list), k.kernelRoot)
    modifies k, k.heap, list
    ensures k.Valid() && list.Valid(k.LiveSet())
    ensures Intact(old(k.mem), old(Holding(k, list)), k.mem, Holding(k, list), {})
    ensures !ok ==> k.LiveSet() == old(k.LiveSet()) && HB.Live(old(k.heap.blocks)) <= HB.Live(k.heap.blocks)
    ensures !ok ==> list.pages == 0 && list.items == []
    ensures var j := Job(k.mmu, old(k.mem), old(Holding(k, list)), lo, hi);
            var met := MeetAll(Stock(old(k.heap.blocks), 0, 0, 0), SpaceNeeds(j, src));
            && (ok <==> met.Some? && NoHugeMet(j, src))
            && (ok ==> met == Some(StockOf(k, list)))
    ensures ok ==> k.Space(root) && !Keeps(old(Holding(k, list)), root)
                   && root in k.mem && |k.mem[root]| == PT_ENTRIES && k.mem[root][USER..] == old(k.mem[k.kernelRoot][USER..])
    ensures ok ==> Copies(Job(k.mmu, old(k.mem), old(Holding(k, list)), lo, hi), k.mem, Holding(k, list), list.items,
                          src, root, PT_TOP_LEVEL, 0, USER * Span(PT_TOP_LEVEL), pages)
    ensures ok ==> Accounted(old(k.LiveSet()), Given(k, list),
                             Pointers(k.off, Tables(k.mmu, k.mem, root, PT_TOP_LEVEL, USER)), list.items)
  {
    hide Lawful, HB.Inv, HB.Free, HB.Malloc, HB.PageAlloc, Pmm.Chain, Keeps, Covered, Source, Tree, Tables, Copies;
    hide Ready, HB.LivePointers, Accounted, Intact, StaysHeld, Blank, SpaceIn, Meet, MeetAll, SpaceNeeds, NoHugeMet, Outcome;
    IntactStart(k.mem, Holding(k, list));
    ghost var j := Job(k.mmu, k.mem, Holding(k, list), lo, hi);
    SpaceOutcome(j, StockOf(k, list), src);
    ok, root := ClonePageTable(k, list);
    if !ok {
      return false, 0, [];
    }
    RootReady(j, k.mem, Holding(k, list), src, root, k.kernelRoot);
    ok, pages := CloneUserHalf(k, list, src, root, lo, hi, j);
  }

  // The user half below the root just made; on failure the root goes with the rest.
  method CloneUserHalf<W(!new)>(k: Machine<W>, list: PageList, src: nat, root: nat, lo: nat, hi: nat, ghost j: Job<W>)
    returns (ok: bool, ghost pages: seq<nat>)
    requires k.Valid() && list.Valid(k.LiveSet()) && list.items == [] && j.held.but == 0 && j.held.off == k.off
    requires j.m == k.mmu && j.lo == lo && j.hi == hi && Whole(j.mem)
    requires Ready(j, k.mem, Holding(k, list), src, root, PT_TOP_LEVEL, USER, 0) && Blank(k.mmu, k.mem, root, 0, USER)
    requires src < FRAMES && root < FRAMES
    requires var p := k.off + PAGE * root;
             p !in HB.LivePointers(j.held.bs) && Given(k, list) == HB.LivePointers(j.held.bs) + {p}
    modifies k, k.heap, list
    ensures k.Valid() && list.Valid(k.LiveSet())
    ensures Intact(j.mem, j.held, k.mem, Holding(k, list), {})
    ensures !ok ==> k.LiveSet() == HB.LivePointers(j.held.bs) && HB.Live(j.held.bs) <= HB.Live(k.heap.blocks)
    ensures Result(ok, k, list) == Outcome(j, old(StockOf(k, list)), src, PT_TOP_LEVEL, 0, USER)
    ensures !ok ==> list.pages == 0 && list.items == []
    ensures ok ==> k.Space(root) && root in old(k.mem) && |k.mem[root]| == old(|k.mem[root]|) == PT_ENTRIES
                   && k.mem[root][USER..] == old(k.mem[root][USER..])
    ensures ok ==> Copies(j, k.mem, Holding(k, list), list.items, src, root, PT_TOP_LEVEL, 0, USER * Span(PT_TOP_LEVEL), pages)
    ensures ok ==> Accounted(HB.LivePointers(j.held.bs), Given(k, list),
                             Pointers(k.off, Tables(k.mmu, k.mem, root, PT_TOP_LEVEL, USER)), list.items)
  {
    hide Lawful, HB.Inv, HB.Free, HB.Malloc, HB.PageAlloc, Pmm.Chain, Keeps, Covered, Source, Tree, Tables, Copies, EntryBase, TableBase;
    hide Ready, Sound, HB.LivePointers, Accounted, Intact, StaysHeld, Blank, SpaceIn, Whole, Pointers, Unmoved, Outcome;
    UserEnd();
    ghost var mem1, h1 := k.mem, Holding(k, list);
    ok, pages := CloneLevel(k, list, src, root, PT_TOP_LEVEL, 0, lo, hi, j);
    ReadyIntact(j, mem1, h1, k.mem, Holding(k, list), src, root);
    assert list.items[0..] == list.items;
    Settle(k, list, root, ok, j);
  }

  // Success leaves what was built in place; failure gives all of it back.
  method Settle<W(!new)>(k: Machine<W>, list: PageList, root: nat, ok: bool, ghost j: Job<W>)
    requires k.Valid() && list.Valid(k.LiveSet()) && j.held.but == 0 && root < FRAMES
    requires Intact(j.mem, j.held, k.mem, Holding(k, list), {}) && StaysHeld(j.held, Holding(k, list))
    requires var p, live0 := k.off + PAGE * root, HB.LivePointers(j.held.bs);
             p !in live0 && Sound(k.mmu, k.mem, Holding(k, list), live0 + {p}, Given(k, list), list.items, root, PT_TOP_LEVEL, USER)
    modifies k.heap, list
    ensures k.Valid() && list.Valid(k.LiveSet())
    ensures Intact(j.mem, j.held, k.mem, Holding(k, list), {})
    ensures !ok ==> k.LiveSet() == HB.LivePointers(j.held.bs) && HB.Live(j.held.bs) <= HB.Live(k.heap.blocks)
    ensures !ok ==> list.pages == 0 && list.items == []
    ensures ok ==> list.items == old(list.items) && k.heap.blocks == old(k.heap.blocks) && list.pages == old(list.pages)
                   && list.cap == old(list.cap)
    ensures ok ==> k.Space(root)
    ensures ok ==> Accounted(HB.LivePointers(j.held.bs), Given(k, list),
                             Pointers(k.off, Tables(k.mmu, k.mem, root, PT_TOP_LEVEL, USER)), list.items)
  {
    hide Lawful, HB.Inv, HB.Free, HB.Malloc, HB.PageAlloc, Pmm.Chain, Keeps, Covered, Tree, Tables, Whole;
    hide Sound, HB.LivePointers, Accounted, Intact, StaysHeld;
    ghost var h := Holding(k, list);
    RootSound(k.mmu, k.mem, h, HB.LivePointers(j.held.bs), Given(k, list), list.items, root);
    if !ok {
      Discard(k, list, root, j.held, HB.LivePointers(j.held.bs));
      IntactHeld(j, k.mem, h, Holding(k, list));
    }
  }

  lemma ReadyIntact<W>(j: Job<W>, mem1: Memory<W>, h1: Hold, mem: Memory<W>, h: Hold, src: nat, root: nat)
    requires Ready(j, mem1, h1, src, root, PT_TOP_LEVEL, USER, 0) && Intact(mem1, h1, mem, h, {root})
    ensures Intact(j.mem, j.held, mem, h, {}) && StaysHeld(j.held, h)
  {
    hide Keeps, Source;
    CloneKept(j, mem1, h1, mem, h, root);
  }

  // The clean-up of a copy that could not be finished.
  method Discard<W(!new)>(k: Machine<W>, list: PageList, root: nat, ghost h0: Hold, ghost live0: set<nat>)
    requires k.Valid() && list.Valid(k.LiveSet()) && k.Space(root)
    requires Accounted(live0, Given(k, list), Pointers(k.off, Tables(k.mmu, k.mem, root, PT_TOP_LEVEL, USER)), list.items)
    requires StaysHeld(h0, Holding(k, list)) && h0.but == 0 && live0 == HB.LivePointers(h0.bs)
    modifies k.heap, list
    ensures k.Valid() && list.pages == 0 && list.items == [] && list.cap == 0
    ensures k.LiveSet() == live0 && HB.Live(h0.bs) <= HB.Live(k.heap.blocks)
    ensures StaysHeld(h0, Holding(k, list))
  {
    hide Lawful, HB.Inv, HB.Free, Pmm.Chain, Keeps, Tree, Tables, StaysHeld, Unmoved, HB.LivePointers, Whole;
    AccountedHas(live0, Given(k, list), Pointers(k.off, Tables(k.mmu, k.mem, root, PT_TOP_LEVEL, USER)), list.items);
    ghost var h1, bs := Holding(k, list), k.heap.blocks;
    FreePageTable(k, Some(root));
    ghost var cs := k.heap.blocks;
    ListFree(k, list);
    UnmovedThen(bs, cs, k.heap.blocks);
    AllBack(h0, h1, Holding(k, list));
  }

  lemma IntactStart<W>(mem: Memory<W>, h: Hold)
    ensures Intact(mem, h, mem, h, {})
  {
  }

  lemma IntactHeld<W>(j: Job<W>, mem: Memory<W>, h: Hold, h': Hold)
    requires Intact(j.mem, j.held, mem, h, {}) && StaysHeld(j.held, h')
    ensures Intact(j.mem, j.held, mem, h', {})
  {
    hide Keeps;
  }

  // Once everything allocated since has been freed, each earlier allocation is where it was.
  lemma AllBack(h0: Hold, h1: Hold, h2: Hold)
    requires StaysHeld(h0, h1) && Unmoved(h1.bs, h2.bs) && h0.but == 0 == h2.but
    requires h2.off == h1.off && h2.lo == h1.lo && h2.hi == h1.hi
    requires HB.LivePointers(h2.bs) == HB.LivePointers(h0.bs)
    ensures StaysHeld(h0, h2) && HB.Live(h0.bs) <= HB.Live(h2.bs)
  {
    hide Keeps;
    forall b | b in HB.Live(h0.bs) ensures b in HB.Live(h2.bs) && b in Others(h2) {
      assert b in Others(h0) && b.Payload() in HB.LivePointers(h0.bs);
    }
    KeepsMore(h0, h2);
  }

  lemma KeepsMore(h: Hold, h': Hold)
    requires h'.off == h.off && h'.lo == h.lo && h'.hi == h.hi && Others(h) <= Others(h')
    ensures StaysHeld(h, h')
  {
    forall f | Keeps(h, f) ensures Keeps(h', f) {
      var a := h.off + PAGE * f;
      if Covered(h.bs, a, h.but) {
        var b :| b in HB.Live(h.bs) && b.Payload() != h.but && b.Payload() <= a && a + PAGE <= b.End();
        assert b in Others(h) && b in Others(h');
      }
    }
  }

  lemma RootReady<W(!new)>(j: Job<W>, mem: Memory<W>, h: Hold, src: nat, root: nat, kernelRoot: nat)
    requires StaysHeld(j.held, h) && !Keeps(j.held, root) && Keeps(h, root)
    requires Source(j, src, PT_TOP_LEVEL, USER, 0)
    requires kernelRoot in j.mem && |j.mem[kernelRoot]| == PT_ENTRIES
    requires mem == j.mem[root := Zeros(j.m)[..USER] + j.mem[kernelRoot][USER..]]
    ensures Ready(j, mem, h, src, root, PT_TOP_LEVEL, USER, 0) && Blank(j.m, mem, root, 0, USER)
    ensures |mem[root]| == PT_ENTRIES && mem[root][USER..] == j.mem[kernelRoot][USER..]
    ensures Intact(j.mem, j.held, mem, h, {})
  {
    hide Keeps, Source;
  }

  lemma CloneKept<W>(j: Job<W>, mem1: Memory<W>, h1: Hold, mem: Memory<W>, h: Hold, root: nat)
    requires Intact(j.mem, j.held, mem1, h1, {}) && Intact(mem1, h1, mem, h, {root}) && !Keeps(j.held, root)
    ensures Intact(j.mem, j.held, mem, h, {}) && StaysHeld(j.held, h)
  {
    hide Keeps;
  }

  // What the tables and pages of the copy come to, its root among them.
  lemma RootSound<W(!new)>(m: Mmu<W>, mem: Memory<W>, h: Hold, live0: set<nat>, live: set<nat>, items: seq<nat>, root: nat)
    requires Lawful(m) && root < FRAMES && h.off + PAGE * root !in live0
    requires Sound(m, mem, h, live0 + {h.off + PAGE * root}, live, items, root, PT_TOP_LEVEL, USER)
    ensures SpaceIn(m, mem, root, h.off, live)
    ensures Accounted(live0, live, Pointers(h.off, Tables(m, mem, root, PT_TOP_LEVEL, USER)), items)
  {
    hide Keeps, Tree, Tables, Accounted, Lawful;
    var ts := Tables(m, mem, root, PT_TOP_LEVEL, USER);
    RootIsTable(m, mem, root);
    PointersApart(h.off, ts, {root});
    PointerIn(h.off, ts, root);
    assert Pointers(h.off, {root}) == {h.off + PAGE * root};
    AccountedWith(live0, h.off + PAGE * root, live, Pointers(h.off, ts), items);
    forall t | t in ts ensures h.off + PAGE * t in live {
      PointerIn(h.off, ts, t);
      AccountedHas(live0, live, Pointers(h.off, ts), items);
    }
  }

  lemma AccountedHas(live0: set<nat>, live: set<nat>, tables: set<nat>, items: seq<nat>)
    requires Accounted(live0, live, tables, items)
    ensures tables <= live && Members(items) <= live - tables && live - tables - Members(items) == live0
    ensures forall i :: 0 <= i < |items| ==> items[i] in live - tables
  {
    forall i | 0 <= i < |items| ensures items[i] in Members(items) {
    }
  }

  // ---- what a copy means ----

  lemma {:induction false} AtPage<W>(m: Mmu<W>, mem: Memory<W>, f: nat, level: nat, va: nat)
    ensures At(m, mem, f, level, va / PAGE) == Translate(m, mem, f, level, va)
    decreases level
  {
    assert va / PAGE * PAGE / PAGE == va / PAGE;
    if level > 0 {
      AtPage(m, mem, m.phys(Word(m, mem, f, Index(va, level))), level - 1, va);
    }
  }

  // Every user address of the copy reads the byte the source's address reads, behind the same
  // permissions, out of a frame that was in no use before; a skipped page reads nothing.
  lemma CloneMeaning<W>(j: Job<W>, mem: Memory<W>, h: Hold, items: seq<nat>, src: nat, root: nat, pages: seq<nat>, va: nat)
    requires Copies(j, mem, h, items, src, root, PT_TOP_LEVEL, 0, USER * Span(PT_TOP_LEVEL), pages)
    requires va < 0x8000_0000_0000
    ensures var s, d := Translate(j.m, j.mem, src, PT_TOP_LEVEL, va), Translate(j.m, mem, root, PT_TOP_LEVEL, va);
            && (d.Some? <==> s.Some? && !(j.lo <= va - va % PAGE < j.hi))
            && (d.Some? ==> d.value.flags == s.value.flags
                            && s.value.frame in j.mem && d.value.frame in mem
                            && mem[d.value.frame] == j.mem[s.value.frame]
                            && !Keeps(j.held, d.value.frame) && h.off + PAGE * d.value.frame in items)
  {
    hide Keeps, Translate;
    var p := va / PAGE;
    AtPage(j.m, j.mem, src, PT_TOP_LEVEL, va);
    AtPage(j.m, mem, root, PT_TOP_LEVEL, va);
    assert Copied(j, mem, src, root, PT_TOP_LEVEL, p);
    if At(j.m, mem, root, PT_TOP_LEVEL, p).Some? {
      var k :| 0 <= k < |pages| && pages[k] == p;
      assert Listed(j, mem, h, root, PT_TOP_LEVEL, pages[k], items[k]);
    }
  }

  // No two pages of the copy share a frame.
  lemma CloneDistinct<W>(j: Job<W>, mem: Memory<W>, h: Hold, items: seq<nat>, src: nat, root: nat, pages: seq<nat>, a: nat, b: nat)
    requires Copies(j, mem, h, items, src, root, PT_TOP_LEVEL, 0, USER * Span(PT_TOP_LEVEL), pages) && Distinct(items)
    requires a < 0x8000_0000_0000 && b < 0x8000_0000_0000 && a / PAGE != b / PAGE
    ensures var s, d := Translate(j.m, mem, root, PT_TOP_LEVEL, a), Translate(j.m, mem, root, PT_TOP_LEVEL, b);
            s.Some? && d.Some? ==> s.value.frame != d.value.frame
  {
    hide Keeps, Translate;
    AtPage(j.m, mem, root, PT_TOP_LEVEL, a);
    AtPage(j.m, mem, root, PT_TOP_LEVEL, b);
    assert Copied(j, mem, src, root, PT_TOP_LEVEL, a / PAGE) && Copied(j, mem, src, root, PT_TOP_LEVEL, b / PAGE);
    if At(j.m, mem, root, PT_TOP_LEVEL, a / PAGE).Some? && At(j.m, mem, root, PT_TOP_LEVEL, b / PAGE).Some? {
      var k :| 0 <= k < |pages| && pages[k] == a / PAGE;
      var l :| 0 <= l < |pages| && pages[l] == b / PAGE;
      assert Listed(j, mem, h, root, PT_TOP_LEVEL, pages[k], items[k]) && Listed(j, mem, h, root, PT_TOP_LEVEL, pages[l], items[l]);
    }
  }
}
