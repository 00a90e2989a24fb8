/** What a tree of page tables means, and how it changes when one entry is written.
    Memory is a map from frame numbers to the 512 words of the frame. */
module PageTree {
  import opened Sizes
  import opened Wrappers
  import opened PteInterface

  // A page's frame and what may be done with it.
  datatype Mapping = Mapping(frame: nat, flags: VmFlags)
  type Memory<W> = map<nat, seq<W>>

  // pt_index: nine bits of the address for every level.
  function Index(va: nat, level: nat): nat {
    va / PAGE / Span(level) % PT_ENTRIES
  }

  // Same entries used by both addresses in the tables from this level down.
  predicate SameUpTo(a: nat, b: nat, level: nat) {
    Index(a, level) == Index(b, level) && (level == 0 || SameUpTo(a, b, level - 1))
  }

  // The frame a leaf at this level gives the page of va.
  function LeafPage(f: nat, level: nat, va: nat): nat {
    f + va / PAGE % Span(level)
  }

  ghost function Word<W>(m: Mmu<W>, mem: Memory<W>, f: nat, i: nat): W {
    if f in mem && i < |mem[f]| then mem[f][i] else m.zero
  }

  ghost predicate IsTable<W>(m: Mmu<W>, w: W, level: nat) {
    level > 0 && m.present(w) && !m.isLeaf(w, level)
  }

  // The meaning of an entry that is not a table.
  ghost function Leaf<W>(m: Mmu<W>, w: W, level: nat, va: nat): Option<Mapping> {
    if m.present(w) then Some(Mapping(LeafPage(m.phys(w), level, va), m.flags(w))) else None
  }

  // What is left of a mapping behind a table entry that lets this much through.
  function Through(passes: VmFlags, tr: Option<Mapping>): Option<Mapping> {
    if tr.Some? then Some(tr.value.(flags := Narrow(passes, tr.value.flags))) else None
  }

  // The frame an address is mapped to, and what every entry on the way there permits.
  ghost function Translate<W>(m: Mmu<W>, mem: Memory<W>, f: nat, level: nat, va: nat): Option<Mapping>
    decreases level
  {
    var w := Word(m, mem, f, Index(va, level));
    if IsTable(m, w, level) then Through(m.passes(w), Translate(m, mem, m.phys(w), level - 1, va)) else Leaf(m, w, level, va)
  }

  // Addresses of one page translate alike.
  lemma {:induction false} SameByPage<W>(m: Mmu<W>, mem: Memory<W>, f: nat, level: nat, a: nat, b: nat)
    requires a / PAGE == b / PAGE
    ensures Translate(m, mem, f, level, a) == Translate(m, mem, f, level, b)
    decreases level
  {
    if level > 0 {
      var w := Word(m, mem, f, Index(a, level));
      SameByPage(m, mem, m.phys(w), level - 1, a, b);
    }
  }

  ghost predicate SameTranslations<W>(m: Mmu<W>, mem: Memory<W>, mem': Memory<W>, f: nat, level: nat, n: nat) {
    forall va :: Index(va, level) < n ==> Translate(m, mem', f, level, va) == Translate(m, mem, f, level, va)
  }

  // The frames that hold the tables reached through the first n entries of table f.
  ghost function Tables<W>(m: Mmu<W>, mem: Memory<W>, f: nat, level: nat, n: nat): set<nat>
    decreases level, 1
  {
    {f} + set i, x | 0 <= i < n && x in ChildTables(m, mem, f, level, i) :: x
  }

  ghost function ChildTables<W>(m: Mmu<W>, mem: Memory<W>, f: nat, level: nat, i: nat): set<nat>
    decreases level, 0
  {
    var w := Word(m, mem, f, i);
    if IsTable(m, w, level) then Tables(m, mem, m.phys(w), level - 1, PT_ENTRIES) else {}
  }

  // No table is reached twice, table entries leave what is permitted to the leaves, and leaves are
  // aligned to what they span.
  ghost predicate Tree<W>(m: Mmu<W>, mem: Memory<W>, f: nat, level: nat, n: nat)
    decreases level, 1
  {
    && f in mem && |mem[f]| == PT_ENTRIES && n <= PT_ENTRIES
    && (forall i :: 0 <= i < n ==> EntryTree(m, mem, f, level, i) && f !in ChildTables(m, mem, f, level, i))
    && (forall i, j :: 0 <= i < j < n ==> ChildTables(m, mem, f, level, i) !! ChildTables(m, mem, f, level, j))
  }

  ghost predicate EntryTree<W>(m: Mmu<W>, mem: Memory<W>, f: nat, level: nat, i: nat)
    decreases level, 0
  {
    var w := Word(m, mem, f, i);
    if IsTable(m, w, level) then Open(m.passes(w)) && Tree(m, mem, m.phys(w), level - 1, PT_ENTRIES)
    else m.present(w) ==> LeafFrame(m.phys(w), level)
  }

  ghost predicate Agree<W>(mem: Memory<W>, mem': Memory<W>, frames: set<nat>) {
    forall x :: x in frames && x in mem ==> x in mem' && mem'[x] == mem[x]
  }

  // A tree depends on its own tables only.
  lemma {:induction false} Framed<W>(m: Mmu<W>, mem: Memory<W>, mem': Memory<W>, f: nat, level: nat, n: nat)
    requires Tree(m, mem, f, level, n)
    requires Agree(mem, mem', Tables(m, mem, f, level, n))
    ensures Tree(m, mem', f, level, n)
    ensures Tables(m, mem', f, level, n) == Tables(m, mem, f, level, n)
    ensures SameTranslations(m, mem, mem', f, level, n)
    decreases level, 1
  {
    forall i | 0 <= i < n
      ensures Word(m, mem', f, i) == Word(m, mem, f, i) && EntryTree(m, mem', f, level, i)
      ensures ChildTables(m, mem', f, level, i) == ChildTables(m, mem, f, level, i)
      ensures forall va :: Index(va, level) == i ==> Translate(m, mem', f, level, va) == Translate(m, mem, f, level, va)
    {
      FramedEntry(m, mem, mem', f, level, n, i);
    }
  }

  lemma {:induction false} FramedEntry<W>(m: Mmu<W>, mem: Memory<W>, mem': Memory<W>, f: nat, level: nat, n: nat, i: nat)
    requires Tree(m, mem, f, level, n) && i < n
    requires Agree(mem, mem', Tables(m, mem, f, level, n))
    ensures Word(m, mem', f, i) == Word(m, mem, f, i) && EntryTree(m, mem', f, level, i)
    ensures ChildTables(m, mem', f, level, i) == ChildTables(m, mem, f, level, i)
    ensures forall va :: Index(va, level) == i ==> Translate(m, mem', f, level, va) == Translate(m, mem, f, level, va)
    decreases level, 0
  {
    var w := Word(m, mem, f, i);
    assert EntryTree(m, mem, f, level, i);
    if IsTable(m, w, level) {
      var k := level - 1;
      assert Agree(mem, mem', ChildTables(m, mem, f, level, i));
      Framed(m, mem, mem', m.phys(w), k, PT_ENTRIES);
      forall va | Index(va, level) == i
        ensures Translate(m, mem', f, level, va) == Translate(m, mem, f, level, va)
      {
        assert Translate(m, mem', m.phys(w), k, va) == Translate(m, mem, m.phys(w), k, va);
      }
    }
  }

  // ---- changes ----

  // Either no page translates differently, or exactly the page of va does.
  datatype Change = Same | Page(va: nat, to: Option<Mapping>)

  ghost function Expect(ch: Change, level: nat, va: nat, tr: Option<Mapping>): Option<Mapping> {
    if ch.Page? && SameUpTo(va, ch.va, level) then ch.to else tr
  }

  ghost predicate Translates<W>(m: Mmu<W>, mem: Memory<W>, mem': Memory<W>, f: nat, level: nat, n: nat, ch: Change) {
    forall va :: Index(va, level) < n ==>
      Translate(m, mem', f, level, va) == Expect(ch, level, va, Translate(m, mem, f, level, va))
  }

  ghost predicate Changed<W>(m: Mmu<W>, mem: Memory<W>, mem': Memory<W>, f: nat, level: nat, n: nat, ch: Change, added: set<nat>) {
    && Tree(m, mem', f, level, n)
    && Tables(m, mem', f, level, n) == Tables(m, mem, f, level, n) + added
    && Translates(m, mem, mem', f, level, n, ch)
  }

  // A change below one entry of a table, seen from the table.
  lemma Lift<W>(m: Mmu<W>, mem: Memory<W>, mem': Memory<W>, f: nat, level: nat, n: nat, idx: nat, ch: Change, added: set<nat>)
    requires level > 0 && Tree(m, mem, f, level, n) && idx < n && IsTable(m, Word(m, mem, f, idx), level)
    requires Changed(m, mem, mem', m.phys(Word(m, mem, f, idx)), level - 1, PT_ENTRIES, ch, added)
    requires f in mem' && mem'[f] == mem[f]
    requires Agree(mem, mem', Tables(m, mem, f, level, n) - ChildTables(m, mem, f, level, idx))
    requires added !! Tables(m, mem, f, level, n)
    requires ch.Page? ==> Index(ch.va, level) == idx
    ensures Changed(m, mem, mem', f, level, n, ch, added)
  {
    hide Tree, Tables, EntryTree, ChildTables, Translates, Translate, Agree, Index, IsTable, Word;
    LiftOthers(m, mem, mem', f, level, n, idx);
    LiftEntry(m, mem, mem', f, level, n, idx, ch, added);
    LiftTree(m, mem, mem', f, level, n, idx, added);
    LiftTranslates(m, mem, mem', f, level, n, idx, ch);
  }

  lemma LiftOthers<W>(m: Mmu<W>, mem: Memory<W>, mem': Memory<W>, f: nat, level: nat, n: nat, idx: nat)
    requires Tree(m, mem, f, level, n) && idx < n
    requires f in mem' && mem'[f] == mem[f]
    requires Agree(mem, mem', Tables(m, mem, f, level, n) - ChildTables(m, mem, f, level, idx))
    ensures forall i :: 0 <= i < n && i != idx ==>
              EntryTree(m, mem', f, level, i) && ChildTables(m, mem', f, level, i) == ChildTables(m, mem, f, level, i)
    ensures forall va :: Index(va, level) < n && Index(va, level) != idx ==>
              Translate(m, mem', f, level, va) == Translate(m, mem, f, level, va)
  {
    hide Tree, Tables, EntryTree, ChildTables, Translate, Agree, Index;
    forall i | 0 <= i < n && i != idx
      ensures EntryTree(m, mem', f, level, i) && ChildTables(m, mem', f, level, i) == ChildTables(m, mem, f, level, i)
    {
      LiftOther(m, mem, mem', f, level, n, idx, i);
    }
    forall va | Index(va, level) < n && Index(va, level) != idx
      ensures Translate(m, mem', f, level, va) == Translate(m, mem, f, level, va)
    {
      LiftOther(m, mem, mem', f, level, n, idx, Index(va, level));
    }
  }

  lemma LiftEntry<W>(m: Mmu<W>, mem: Memory<W>, mem': Memory<W>, f: nat, level: nat, n: nat, idx: nat, ch: Change, added: set<nat>)
    requires Tree(m, mem, f, level, n) && idx < n && level > 0 && IsTable(m, Word(m, mem, f, idx), level)
    requires Changed(m, mem, mem', m.phys(Word(m, mem, f, idx)), level - 1, PT_ENTRIES, ch, added)
    requires f in mem' && mem'[f] == mem[f]
    ensures Word(m, mem', f, idx) == Word(m, mem, f, idx) && EntryTree(m, mem', f, level, idx)
    ensures ChildTables(m, mem', f, level, idx) == ChildTables(m, mem, f, level, idx) + added
    ensures Open(m.passes(Word(m, mem, f, idx)))
  {
    assert EntryTree(m, mem, f, level, idx);
  }

  lemma LiftTree<W>(m: Mmu<W>, mem: Memory<W>, mem': Memory<W>, f: nat, level: nat, n: nat, idx: nat, added: set<nat>)
    requires Tree(m, mem, f, level, n) && idx < n && f in mem' && mem'[f] == mem[f]
    requires forall i :: 0 <= i < n && i != idx ==>
               EntryTree(m, mem', f, level, i) && ChildTables(m, mem', f, level, i) == ChildTables(m, mem, f, level, i)
    requires EntryTree(m, mem', f, level, idx)
    requires ChildTables(m, mem', f, level, idx) == ChildTables(m, mem, f, level, idx) + added
    requires added !! Tables(m, mem, f, level, n)
    ensures Tree(m, mem', f, level, n) && Tables(m, mem', f, level, n) == Tables(m, mem, f, level, n) + added
  {
    hide EntryTree, ChildTables;
    forall i | 0 <= i < n ensures ChildTables(m, mem, f, level, i) <= Tables(m, mem, f, level, n) {
    }
  }

  lemma LiftTranslates<W>(m: Mmu<W>, mem: Memory<W>, mem': Memory<W>, f: nat, level: nat, n: nat, idx: nat, ch: Change)
    requires level > 0 && idx < n && IsTable(m, Word(m, mem, f, idx), level) && Open(m.passes(Word(m, mem, f, idx)))
    requires Word(m, mem', f, idx) == Word(m, mem, f, idx)
    requires Translates(m, mem, mem', m.phys(Word(m, mem, f, idx)), level - 1, PT_ENTRIES, ch)
    requires forall va :: Index(va, level) < n && Index(va, level) != idx ==>
               Translate(m, mem', f, level, va) == Translate(m, mem, f, level, va)
    requires ch.Page? ==> Index(ch.va, level) == idx
    ensures Translates(m, mem, mem', f, level, n, ch)
  {
    hide Index;
    var c := m.phys(Word(m, mem, f, idx));
    var k := level - 1;
    forall va | Index(va, level) < n
      ensures Translate(m, mem', f, level, va) == Expect(ch, level, va, Translate(m, mem, f, level, va))
    {
      if Index(va, level) == idx {
        IndexBound(va, k);
        assert Translate(m, mem', c, k, va) == Expect(ch, k, va, Translate(m, mem, c, k, va));
      }
    }
  }

  lemma IndexBound(va: nat, level: nat)
    ensures Index(va, level) < PT_ENTRIES
  {
  }

  lemma LiftOther<W>(m: Mmu<W>, mem: Memory<W>, mem': Memory<W>, f: nat, level: nat, n: nat, idx: nat, i: nat)
    requires Tree(m, mem, f, level, n) && idx < n && i < n && i != idx
    requires f in mem' && mem'[f] == mem[f]
    requires Agree(mem, mem', Tables(m, mem, f, level, n) - ChildTables(m, mem, f, level, idx))
    ensures EntryTree(m, mem', f, level, i)
    ensures ChildTables(m, mem', f, level, i) == ChildTables(m, mem, f, level, i)
    ensures forall va :: Index(va, level) == i ==> Translate(m, mem', f, level, va) == Translate(m, mem, f, level, va)
  {
    var w := Word(m, mem, f, i);
    assert Word(m, mem', f, i) == w;
    assert EntryTree(m, mem, f, level, i);
    if IsTable(m, w, level) {
      var k := level - 1;
      assert ChildTables(m, mem, f, level, i) !! ChildTables(m, mem, f, level, idx);
      assert Agree(mem, mem', Tables(m, mem, m.phys(w), k, PT_ENTRIES));
      Framed(m, mem, mem', m.phys(w), k, PT_ENTRIES);
      forall va | Index(va, level) == i
        ensures Translate(m, mem', f, level, va) == Translate(m, mem, f, level, va)
      {
        assert Translate(m, mem', m.phys(w), k, va) == Translate(m, mem, m.phys(w), k, va);
      }
    }
  }

  // Walking down from table f towards va arrives at table t, l levels above the pages.
  ghost predicate OnPath<W>(m: Mmu<W>, mem: Memory<W>, f: nat, level: nat, va: nat, t: nat, l: nat)
    decreases level
  {
    if l >= level then l == level && t == f
    else var w := Word(m, mem, f, Index(va, level));
         IsTable(m, w, level) && OnPath(m, mem, m.phys(w), level - 1, va, t, l)
  }

  // Only the user half of a root table belongs to its address space.
  function Width(level: nat, l: nat, n: nat): nat {
    if l == level then n else PT_ENTRIES
  }

  lemma {:induction false} PathTables<W>(m: Mmu<W>, mem: Memory<W>, f: nat, level: nat, n: nat, va: nat, t: nat, l: nat)
    requires Tree(m, mem, f, level, n) && OnPath(m, mem, f, level, va, t, l) && Index(va, level) < n
    ensures Tree(m, mem, t, l, Width(level, l, n))
    ensures Tables(m, mem, t, l, Width(level, l, n)) <= Tables(m, mem, f, level, n)
    decreases level
  {
    if l < level {
      var i := Index(va, level);
      assert EntryTree(m, mem, f, level, i);
      PathTables(m, mem, m.phys(Word(m, mem, f, i)), level - 1, PT_ENTRIES, va, t, l);
      assert ChildTables(m, mem, f, level, i) <= Tables(m, mem, f, level, n);
    }
  }

  // A change at a table on the path, seen from the root.
  lemma {:induction false} LiftPath<W>(m: Mmu<W>, mem: Memory<W>, mem': Memory<W>, f: nat, level: nat, n: nat, va: nat, t: nat, l: nat,
                                       ch: Change, added: set<nat>)
    requires Tree(m, mem, f, level, n) && OnPath(m, mem, f, level, va, t, l) && Index(va, level) < n
    requires Changed(m, mem, mem', t, l, Width(level, l, n), ch, added)
    requires Agree(mem, mem', Tables(m, mem, f, level, n) - Tables(m, mem, t, l, Width(level, l, n)))
    requires added !! Tables(m, mem, f, level, n)
    requires ch.Page? ==> ch.va == va
    ensures Changed(m, mem, mem', f, level, n, ch, added)
    decreases level
  {
    if l < level {
      var i := Index(va, level);
      var c := m.phys(Word(m, mem, f, i));
      var k := level - 1;
      assert EntryTree(m, mem, f, level, i);
      assert ChildTables(m, mem, f, level, i) == Tables(m, mem, c, k, PT_ENTRIES) <= Tables(m, mem, f, level, n);
      PathTables(m, mem, c, k, PT_ENTRIES, va, t, l);
      assert f !in ChildTables(m, mem, f, level, i);
      LiftPath(m, mem, mem', c, k, PT_ENTRIES, va, t, l, ch, added);
      Lift(m, mem, mem', f, level, n, i, ch, added);
    }
  }

  // ---- one entry written ----

  ghost function Put<W>(mem: Memory<W>, f: nat, i: nat, w: W): Memory<W>
    requires f in mem && i < |mem[f]|
  {
    mem[f := mem[f][i := w]]
  }

  // What a table of leaves standing in entry idx would say.
  ghost function LeafTable<W>(m: Mmu<W>, page: seq<W>, level: nat, va: nat): Option<Mapping> {
    var i := Index(va, level);
    if i < |page| then Leaf(m, page[i], level, va) else None
  }

  ghost predicate OnlyLeaves<W>(m: Mmu<W>, page: seq<W>, level: nat) {
    |page| == PT_ENTRIES && forall i :: 0 <= i < PT_ENTRIES ==>
      !IsTable(m, page[i], level) && (m.present(page[i]) ==> LeafFrame(m.phys(page[i]), level))
  }

  // A fresh table that says what the entry said takes its place: nothing translates differently.
  lemma Graft<W>(m: Mmu<W>, mem: Memory<W>, t: nat, level: nat, n: nat, idx: nat, c: nat, page: seq<W>, w: W)
    requires level > 0 && Tree(m, mem, t, level, n) && idx < n
    requires !IsTable(m, Word(m, mem, t, idx), level)
    requires c !in Tables(m, mem, t, level, n) && OnlyLeaves(m, page, level - 1)
    requires IsTable(m, w, level) && m.phys(w) == c && Open(m.passes(w))
    requires forall va :: Index(va, level) == idx ==>
               LeafTable(m, page, level - 1, va) == Leaf(m, Word(m, mem, t, idx), level, va)
    ensures Changed(m, mem, Put(mem[c := page], t, idx, w), t, level, n, Same, {c})
  {
    var mem' := Put(mem[c := page], t, idx, w);
    var k := level - 1;
    FreshTable(m, mem', c, k, page);
    assert t in Tables(m, mem, t, level, n) && t != c;
    assert Word(m, mem', t, idx) == w && ChildTables(m, mem', t, level, idx) == {c};
    forall i | 0 <= i < n && i != idx
      ensures EntryTree(m, mem', t, level, i)
      ensures ChildTables(m, mem', t, level, i) == ChildTables(m, mem, t, level, i)
      ensures forall va :: Index(va, level) == i ==> Translate(m, mem', t, level, va) == Translate(m, mem, t, level, va)
    {
      OtherEntry(m, mem, mem', t, level, n, i);
    }
    assert ChildTables(m, mem, t, level, idx) == {};
    assert Tree(m, mem', t, level, n);
    forall va | Index(va, level) < n
      ensures Translate(m, mem', t, level, va) == Translate(m, mem, t, level, va)
    {
      if Index(va, level) == idx {
        assert Word(m, mem', t, Index(va, level)) == w && level - 1 == k;
        assert Translate(m, mem', t, level, va) == Through(m.passes(w), Translate(m, mem', c, k, va));
        OpenThrough(m.passes(w), Translate(m, mem', c, k, va));
        assert Translate(m, mem', c, k, va) == LeafTable(m, page, k, va);
        assert Translate(m, mem, t, level, va) == Leaf(m, Word(m, mem, t, idx), level, va);
      } else {
        OtherEntry(m, mem, mem', t, level, n, Index(va, level));
      }
    }
  }

  // A table entry that leaves everything to the leaves takes nothing away.
  lemma OpenThrough(passes: VmFlags, tr: Option<Mapping>)
    requires Open(passes)
    ensures Through(passes, tr) == tr
  {
  }

  lemma FreshTable<W>(m: Mmu<W>, mem: Memory<W>, c: nat, level: nat, page: seq<W>)
    requires c in mem && mem[c] == page && OnlyLeaves(m, page, level)
    ensures Tree(m, mem, c, level, PT_ENTRIES) && Tables(m, mem, c, level, PT_ENTRIES) == {c}
    ensures forall va :: Translate(m, mem, c, level, va) == LeafTable(m, page, level, va)
  {
    assert forall i :: 0 <= i < PT_ENTRIES ==> Word(m, mem, c, i) == page[i];
  }

  lemma OtherEntry<W>(m: Mmu<W>, mem: Memory<W>, mem': Memory<W>, t: nat, level: nat, n: nat, i: nat)
    requires Tree(m, mem, t, level, n) && i < n
    requires Word(m, mem', t, i) == Word(m, mem, t, i)
    requires Agree(mem, mem', Tables(m, mem, t, level, n) - {t})
    ensures EntryTree(m, mem', t, level, i)
    ensures ChildTables(m, mem', t, level, i) == ChildTables(m, mem, t, level, i)
    ensures forall va :: Index(va, level) == i ==> Translate(m, mem', t, level, va) == Translate(m, mem, t, level, va)
  {
    var w := Word(m, mem, t, i);
    assert EntryTree(m, mem, t, level, i) && t !in ChildTables(m, mem, t, level, i);
    if IsTable(m, w, level) {
      var k := level - 1;
      assert ChildTables(m, mem, t, level, i) <= Tables(m, mem, t, level, n) - {t};
      Framed(m, mem, mem', m.phys(w), k, PT_ENTRIES);
      forall va | Index(va, level) == i
        ensures Translate(m, mem', t, level, va) == Translate(m, mem, t, level, va)
      {
        assert Translate(m, mem', m.phys(w), k, va) == Translate(m, mem, m.phys(w), k, va);
      }
    }
  }

  // A leaf written in a lowest table changes the translation of its page and of no other.
  lemma WriteLeaf<W>(m: Mmu<W>, mem: Memory<W>, t: nat, n: nat, va: nat, w: W)
    requires Tree(m, mem, t, 0, n) && Index(va, 0) < n
    requires m.present(w) ==> m.phys(w) < FRAMES
    ensures Changed(m, mem, Put(mem, t, Index(va, 0), w), t, 0, n,
                    Page(va, if m.present(w) then Some(Mapping(m.phys(w), m.flags(w))) else None), {})
  {
    var mem' := Put(mem, t, Index(va, 0), w);
    forall i | 0 <= i < n ensures EntryTree(m, mem', t, 0, i) {
      assert EntryTree(m, mem, t, 0, i);
    }
  }

  // ---- several changes ----

  lemma Compose<W>(m: Mmu<W>, mem0: Memory<W>, mem1: Memory<W>, mem2: Memory<W>, f: nat, level: nat, n: nat,
                   ch: Change, a: set<nat>, b: set<nat>)
    requires Changed(m, mem0, mem1, f, level, n, Same, a)
    requires Changed(m, mem1, mem2, f, level, n, ch, b)
    ensures Changed(m, mem0, mem2, f, level, n, ch, a + b)
  {
    hide Tree, Tables, Translate, Index;
    forall va | Index(va, level) < n
      ensures Translate(m, mem2, f, level, va) == Expect(ch, level, va, Translate(m, mem0, f, level, va))
    {
      assert Translate(m, mem1, f, level, va) == Translate(m, mem0, f, level, va);
    }
  }

  lemma Nothing<W>(m: Mmu<W>, mem: Memory<W>, f: nat, level: nat, n: nat)
    requires Tree(m, mem, f, level, n)
    ensures Changed(m, mem, mem, f, level, n, Same, {})
  {
  }

  // The path goes on through a table just linked at its end.
  lemma {:induction false} PathOn<W>(m: Mmu<W>, mem: Memory<W>, mem': Memory<W>, f: nat, level: nat, n: nat, va: nat, t: nat, l: nat)
    requires Tree(m, mem, f, level, n) && OnPath(m, mem, f, level, va, t, l) && Index(va, level) < n && 0 < l <= level
    requires Agree(mem, mem', Tables(m, mem, f, level, n) - {t})
    requires IsTable(m, Word(m, mem', t, Index(va, l)), l)
    ensures OnPath(m, mem', f, level, va, m.phys(Word(m, mem', t, Index(va, l))), l - 1)
    decreases level
  {
    var k := level - 1;
    if l < level {
      var i := Index(va, level);
      var c := m.phys(Word(m, mem, f, i));
      assert EntryTree(m, mem, f, level, i);
      assert ChildTables(m, mem, f, level, i) <= Tables(m, mem, f, level, n);
      PathTables(m, mem, c, k, PT_ENTRIES, va, t, l);
      assert f !in ChildTables(m, mem, f, level, i) && t in Tables(m, mem, c, k, PT_ENTRIES);
      assert Word(m, mem', f, i) == Word(m, mem, f, i);
      PathOn(m, mem, mem', c, k, PT_ENTRIES, va, t, l);
    }
  }

  // Writing in the table at the end of the path leaves the path as it is.
  lemma {:induction false} PathKept<W>(m: Mmu<W>, mem: Memory<W>, mem': Memory<W>, f: nat, level: nat, n: nat, va: nat, t: nat, l: nat)
    requires Tree(m, mem, f, level, n) && OnPath(m, mem, f, level, va, t, l) && Index(va, level) < n && l <= level
    requires Agree(mem, mem', Tables(m, mem, f, level, n) - {t})
    ensures OnPath(m, mem', f, level, va, t, l)
    decreases level
  {
    if l < level {
      var i, k := Index(va, level), level - 1;
      var c := m.phys(Word(m, mem, f, i));
      assert EntryTree(m, mem, f, level, i);
      assert ChildTables(m, mem, f, level, i) <= Tables(m, mem, f, level, n);
      IndexBound(va, k);
      PathTables(m, mem, c, k, PT_ENTRIES, va, t, l);
      assert f !in ChildTables(m, mem, f, level, i) && t in Tables(m, mem, c, k, PT_ENTRIES);
      assert Word(m, mem', f, i) == Word(m, mem, f, i);
      PathKept(m, mem, mem', c, k, PT_ENTRIES, va, t, l);
    }
  }

  // A table linked or split in at the end of the path changes no translation of the root.
  lemma GraftOnPath<W>(m: Mmu<W>, mem: Memory<W>, f: nat, level: nat, n: nat, va: nat, t: nat, l: nat, c: nat, page: seq<W>, w: W)
    requires Tree(m, mem, f, level, n) && OnPath(m, mem, f, level, va, t, l) && Index(va, level) < n && 0 < l <= level
    requires var was := Word(m, mem, t, Index(va, l));
             !IsTable(m, was, l)
             && forall a :: Index(a, l) == Index(va, l) ==> LeafTable(m, page, l - 1, a) == Leaf(m, was, l, a)
    requires c !in Tables(m, mem, f, level, n) && OnlyLeaves(m, page, l - 1)
    requires IsTable(m, w, l) && m.phys(w) == c && Open(m.passes(w))
    ensures t in mem && Index(va, l) < |mem[t]| && t != c
    ensures var mem' := Put(mem[c := page], t, Index(va, l), w);
            Changed(m, mem, mem', f, level, n, Same, {c}) && OnPath(m, mem', f, level, va, c, l - 1)
  {
    PathTables(m, mem, f, level, n, va, t, l);
    IndexBound(va, l);
    Graft(m, mem, t, l, Width(level, l, n), Index(va, l), c, page, w);
    var mem' := Put(mem[c := page], t, Index(va, l), w);
    assert t in Tables(m, mem, t, l, Width(level, l, n));
    LiftPath(m, mem, mem', f, level, n, va, t, l, Same, {c});
    PathOn(m, mem, mem', f, level, n, va, t, l);
  }

  // A leaf written at the end of a complete path changes its own page and no other.
  lemma WriteOnPath<W>(m: Mmu<W>, mem: Memory<W>, f: nat, level: nat, n: nat, va: nat, t: nat, w: W)
    requires Tree(m, mem, f, level, n) && OnPath(m, mem, f, level, va, t, 0) && Index(va, level) < n
    requires m.present(w) ==> m.phys(w) < FRAMES
    ensures t in mem && Index(va, 0) < |mem[t]|
    ensures Changed(m, mem, Put(mem, t, Index(va, 0), w), f, level, n,
                    Page(va, if m.present(w) then Some(Mapping(m.phys(w), m.flags(w))) else None), {})
  {
    PathTables(m, mem, f, level, n, va, t, 0);
    IndexBound(va, 0);
    WriteLeaf(m, mem, t, Width(level, 0, n), va, w);
    assert t in Tables(m, mem, t, 0, Width(level, 0, n));
    LiftPath(m, mem, Put(mem, t, Index(va, 0), w), f, level, n, va, t, 0,
             Page(va, if m.present(w) then Some(Mapping(m.phys(w), m.flags(w))) else None), {});
  }

  // What the path's end says about the page is what the root says.
  lemma {:induction false} PathTranslates<W>(m: Mmu<W>, mem: Memory<W>, f: nat, level: nat, n: nat, va: nat, t: nat, l: nat)
    requires Tree(m, mem, f, level, n) && Index(va, level) < n && OnPath(m, mem, f, level, va, t, l)
    ensures Translate(m, mem, f, level, va) == Translate(m, mem, t, l, va)
    decreases level
  {
    if l < level {
      assert EntryTree(m, mem, f, level, Index(va, level));
      IndexBound(va, level - 1);
      PathTranslates(m, mem, m.phys(Word(m, mem, f, Index(va, level))), level - 1, PT_ENTRIES, va, t, l);
    }
  }

  // Every table entry met above level l on the way to va lets this through.
  ghost predicate AllLet<W>(m: Mmu<W>, mem: Memory<W>, f: nat, level: nat, va: nat, l: nat, may: VmFlags -> bool) {
    forall t: nat, k: nat :: OnPath(m, mem, f, level, va, t, k) && k > l ==> may(m.passes(Word(m, mem, t, Index(va, k))))
  }

  // A mapped address has one leaf on its way: that decides the frame, and a permission is there exactly
  // if the leaf and every table entry before it give it.
  lemma {:induction false} Permits<W>(m: Mmu<W>, mem: Memory<W>, f: nat, level: nat, va: nat) returns (t: nat, l: nat)
    requires Translate(m, mem, f, level, va).Some?
    ensures OnPath(m, mem, f, level, va, t, l) && l <= level
    ensures var w, tr := Word(m, mem, t, Index(va, l)), Translate(m, mem, f, level, va).value;
            && m.present(w) && (l == 0 || m.isLeaf(w, l)) && tr.frame == m.phys(w) + va / PAGE % Span(l)
            && (tr.flags.write <==> m.flags(w).write && AllLet(m, mem, f, level, va, l, (x: VmFlags) => x.write))
            && (tr.flags.user <==> m.flags(w).user && AllLet(m, mem, f, level, va, l, (x: VmFlags) => x.user))
            && (tr.flags.exec <==> m.flags(w).exec && AllLet(m, mem, f, level, va, l, (x: VmFlags) => x.exec))
            && tr.flags.global == m.flags(w).global
    decreases level
  {
    var w := Word(m, mem, f, Index(va, level));
    if IsTable(m, w, level) {
      t, l := Permits(m, mem, m.phys(w), level - 1, va);
      LetBelow(m, mem, f, level, va, l, (x: VmFlags) => x.write);
      LetBelow(m, mem, f, level, va, l, (x: VmFlags) => x.user);
      LetBelow(m, mem, f, level, va, l, (x: VmFlags) => x.exec);
    } else {
      t, l := f, level;
    }
  }

  lemma LetBelow<W>(m: Mmu<W>, mem: Memory<W>, f: nat, level: nat, va: nat, l: nat, may: VmFlags -> bool)
    requires l < level && IsTable(m, Word(m, mem, f, Index(va, level)), level)
    ensures var w := Word(m, mem, f, Index(va, level));
            AllLet(m, mem, f, level, va, l, may) <==> may(m.passes(w)) && AllLet(m, mem, m.phys(w), level - 1, va, l, may)
  {
    hide Index;
    var w := Word(m, mem, f, Index(va, level));
    assert OnPath(m, mem, f, level, va, f, level);
    if AllLet(m, mem, f, level, va, l, may) {
      forall t: nat, k: nat | OnPath(m, mem, m.phys(w), level - 1, va, t, k) && k > l
        ensures may(m.passes(Word(m, mem, t, Index(va, k))))
      {
        PathLevel(m, mem, m.phys(w), level - 1, va, t, k);
        assert OnPath(m, mem, f, level, va, t, k);
      }
    }
    if may(m.passes(w)) && AllLet(m, mem, m.phys(w), level - 1, va, l, may) {
      forall t: nat, k: nat | OnPath(m, mem, f, level, va, t, k) && k > l
        ensures may(m.passes(Word(m, mem, t, Index(va, k))))
      {
        assert k < level ==> OnPath(m, mem, m.phys(w), level - 1, va, t, k);
      }
    }
  }

  lemma {:induction false} PathLevel<W>(m: Mmu<W>, mem: Memory<W>, f: nat, level: nat, va: nat, t: nat, l: nat)
    requires OnPath(m, mem, f, level, va, t, l)
    ensures l <= level
    decreases level
  {
  }

  // ---- addresses ----

  // Which bits of the address choose the entry, and what an entry spans, level by level.
  lemma IndexIs(va: nat)
    ensures Index(va, 0) == va / 0x1000 % 0x200 && PAGE * Span(0) == 0x1000
    ensures Index(va, 1) == va / 0x20_0000 % 0x200 && PAGE * Span(1) == 0x20_0000
    ensures Index(va, 2) == va / 0x4000_0000 % 0x200 && PAGE * Span(2) == 0x4000_0000
    ensures Index(va, 3) == va / 0x80_0000_0000 % 0x200 && PAGE * Span(3) == 0x80_0000_0000
  {
  }

  // A page named by the four indices is named by its number.
  lemma SamePage(a: nat, b: nat)
    ensures SameUpTo(a, b, 3) <==> a / PAGE % 0x10_0000_0000 == b / PAGE % 0x10_0000_0000
  {
    hide SameUpTo;
    var p, q := a / PAGE, b / PAGE;
    SameIndices(a, b);
    Recompose(p);
    Recompose(q);
    SameDigits(p % 512, p / 0x200 % 512, p / 0x4_0000 % 512, p / 0x800_0000 % 512,
               q % 512, q / 0x200 % 512, q / 0x4_0000 % 512, q / 0x800_0000 % 512);
  }

  lemma SameDigits(a: nat, b: nat, c: nat, d: nat, a': nat, b': nat, c': nat, d': nat)
    requires a < 512 && b < 512 && c < 512 && a' < 512 && b' < 512 && c' < 512
    ensures a + 512 * b + 0x4_0000 * c + 0x800_0000 * d == a' + 512 * b' + 0x4_0000 * c' + 0x800_0000 * d'
       <==> a == a' && b == b' && c == c' && d == d'
  {
  }

  lemma SameIndices(a: nat, b: nat)
    ensures SameUpTo(a, b, 3) <==>
              && a / PAGE % 512 == b / PAGE % 512 && a / PAGE / 0x200 % 512 == b / PAGE / 0x200 % 512
              && a / PAGE / 0x4_0000 % 512 == b / PAGE / 0x4_0000 % 512
              && a / PAGE / 0x800_0000 % 512 == b / PAGE / 0x800_0000 % 512
  {
    assert SameUpTo(a, b, 1) <==> Index(a, 1) == Index(b, 1) && Index(a, 0) == Index(b, 0);
    assert SameUpTo(a, b, 3) <==> Index(a, 3) == Index(b, 3) && Index(a, 2) == Index(b, 2) && SameUpTo(a, b, 1);
  }

  lemma Recompose(p: nat)
    ensures p % 0x10_0000_0000 == p % 512 + 512 * (p / 0x200 % 512) + 0x4_0000 * (p / 0x4_0000 % 512) + 0x800_0000 * (p / 0x800_0000 % 512)
  {
    var q := p / 0x200;
    var r := q / 0x200;
    var s := r / 0x200;
    assert r == p / 0x4_0000 && s == p / 0x800_0000;
    assert s / 0x200 == p / 0x10_0000_0000;
  }

  lemma Remainder(p: nat, small: nat)
    requires small > 0
    ensures p % (512 * small) == p / small % 512 * small + p % small
  {
    var q := p / small;
    var d, e := q / 512, q % 512;
    Distribute(small, d, e);
    Ordered(small, e, 512);
    Quotient(p, 512 * small, d, e * small + p % small);
  }

  lemma Distribute(k: nat, d: nat, e: nat)
    ensures k * (512 * d + e) == (512 * k) * d + e * k
  {
  }

  lemma {:induction false} Ordered(k: nat, a: nat, b: nat)
    requires a < b
    ensures k * a + k <= k * b
    decreases b
  {
    if b > a + 1 {
      Ordered(k, a, b - 1);
    }
    assert k * b == k * (b - 1) + k;
  }

  lemma Quotient(p: nat, k: nat, d: nat, r: nat)
    requires k > 0 && p == k * d + r && r < k
    ensures p % k == r
  {
    var q := p / k;
    if q < d {
      Ordered(k, q, d);
    } else if q > d {
      Ordered(k, d, q);
    }
  }

  // The children of a split leaf map every page where the leaf did.
  lemma ChildMaps(f: nat, level: nat, va: nat)
    requires 0 < level <= PT_TOP_LEVEL
    ensures LeafPage(ChildFrame(f, level - 1, Index(va, level - 1)), level - 1, va) == LeafPage(f, level, va)
  {
    Remainder(va / PAGE, Span(level - 1));
  }

  // Base address plus offset within the leaf is the page's address plus offset within the page.
  lemma LeafOffset(f: nat, level: nat, va: nat)
    requires level <= PT_TOP_LEVEL
    ensures f * PAGE + va % (PAGE * Span(level)) == LeafPage(f, level, va) * PAGE + va % PAGE
  {
    var p, k := va / PAGE, Span(level);
    var d, e := p / k, p % k;
    assert va == PAGE * p + va % PAGE && p == k * d + e;
    assert va == (PAGE * k) * d + (PAGE * e + va % PAGE) by {
      assert PAGE * (k * d + e) == (PAGE * k) * d + PAGE * e;
    }
    Quotient(va, PAGE * k, d, PAGE * e + va % PAGE);
  }
}
